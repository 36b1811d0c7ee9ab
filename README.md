# Pagekit system service provider: a verified model of its core

Pagekit's `SystemServiceProvider` is mostly container and event wiring.
Four pieces of it do sequential work of their own, and this project models
those four in Dafny and proves what they promise:

- **The extension boot loop** (`boot`). The accumulated `extensions.boot`
  list is deduplicated with `array_unique`. Every name is then loaded by
  the extension manager and booted, inside a try block that catches only
  `ExtensionLoadException`. Each caught exception becomes one
  `extension.load_failure` event, and any other exception ends the loop.
  The manager's `load` and the extension's `boot` are parameters that say
  how each call ends. The events are returned as the list of their
  payloads. Module `ExtensionBoot`, file `extension_boot.dfy`.
- **The script queue fix-up** (`onKernelResponse`). When an unflagged
  script depends on the AMD loader, every script flagged `requirejs` gains
  the `requirejs` dependency and is queued. The dependent scripts are then
  moved to the tail of the queue. The `view.scripts` collection is the
  class `ScriptCollection`, whose fields are the registered scripts and the
  queue. `queue` is "append if absent" and `dequeue` is "remove if
  present". Dependency resolution is a parameter. Module `ScriptQueue`,
  file `script_queue.dfy`.
- **Storage path normalisation** (`register`). `app.storage` is the
  configured directory or `storage`, with leading slashes trimmed.
  `path.storage` joins it to the application path and trims trailing
  slashes. Module `StoragePath`, file `storage_path.dfy`.
- **The admin test** (`onKernelRequest`). `isAdmin` is
  `preg_match('#^/admin(/?$|/.+)#', pathInfo)`. It is modelled with PCRE's
  meaning of `$` and `.` without modifiers. Module `AdminPath`, file
  `admin_path.dfy`.

`wrappers.dfy` holds `Option`. `sequences.dfy` holds `NoDuplicates` and
`FirstIndex`.

Three behaviours of the code are easy to misread:

- The try block encloses both `load` and `boot`. An
  `ExtensionLoadException` thrown by an extension's own `boot` hook is
  therefore swallowed and reported like a load failure.
- `array_merge` appends `requirejs` to a flagged script's dependencies
  unconditionally. A script that already lists it ends up listing it twice.
- A dependent script that was not queued before the fix-up is queued
  after it, because `dequeue` then `queue` adds it. The queue therefore
  holds the old names, the flagged scripts and the dependents.

## Model

| member | source | states |
|---|---|---|
| ExtensionBoot.Unique | extensions/system/src/SystemServiceProvider.php:61 | `array_unique` keeps every name of the boot list and no name twice |
| ExtensionBoot.UniqueKeepsFirstSeenOrder | extensions/system/src/SystemServiceProvider.php:61 | the deduplicated names appear in the order of their first occurrence in the boot list |
| ExtensionBoot.UniqueOfDistinct | extensions/system/src/SystemServiceProvider.php:61 | a boot list without duplicates is processed as it is |
| ExtensionBoot.Boot | extensions/system/src/SystemServiceProvider.php:59-67 | the loop's report (names loaded, names booted, failure events, escaping name) is `Run` over the deduplicated list, whose properties the lemmas below state; within it `Attempt` and `Step` model one pass of the try block: the hook runs only when `load` returned, an `ExtensionLoadException` from either call becomes one event, any other failure escapes |
| ExtensionBoot.RunAfterEscape | extensions/system/src/SystemServiceProvider.php:61-67 | once a name fails with anything other than `ExtensionLoadException`, no later name is processed |
| ExtensionBoot.RunLoadsPrefix | extensions/system/src/SystemServiceProvider.php:61-66 | the loaded names are a prefix of the list: all of it if nothing escaped, otherwise up to and including the escaping name, whose attempt failed otherwise; no earlier name failed otherwise |
| ExtensionBoot.RunCompletesIff | extensions/system/src/SystemServiceProvider.php:62-66 | the loop runs to the end if and only if no name's load-then-boot fails with anything other than `ExtensionLoadException` |
| ExtensionBoot.RunHooksAndEvents | extensions/system/src/SystemServiceProvider.php:62-66 | `boot` runs for exactly the loaded names whose load returned, and one event is emitted for exactly the loaded names whose load or boot threw `ExtensionLoadException`, both in loop order |
| ExtensionBoot.BootIsolation | extensions/system/src/SystemServiceProvider.php:61-66 | each distinct name is loaded at most once; a load failure is not booted and yields exactly one event; a boot hook's `ExtensionLoadException` is swallowed too; the loop continues past isolated failures and stops only at the last loaded name |
| ExtensionBoot.SeoUnique | extensions/system/src/SystemServiceProvider.php:61 | `["seo", "seo", "cache"]` deduplicates to `["seo", "cache"]` |
| ExtensionBoot.SeoScenario | extensions/system/src/SystemServiceProvider.php:61-66 | with `seo` failing to load, the loop loads `seo` and `cache`, boots only `cache`, emits one event for `seo`, and completes |
| ScriptQueue.ScriptCollection.Queue | extensions/system/src/SystemServiceProvider.php:149 | `queue(name)` appends the name unless it is already queued, so the queue stays free of duplicates |
| ScriptQueue.ScriptCollection.Dequeue | extensions/system/src/SystemServiceProvider.php:153 | `dequeue(name)` removes the name from the queue and keeps the rest in order, so the queue stays free of duplicates |
| ScriptQueue.EnqueuedFacts | extensions/system/src/SystemServiceProvider.php:149 | queueing only appends, is idempotent, adds exactly the name and keeps the queue free of duplicates |
| ScriptQueue.WithoutFacts | extensions/system/src/SystemServiceProvider.php:153 | dequeueing keeps exactly the names not removed and introduces no duplicate |
| ScriptQueue.QueueAllFacts | extensions/system/src/SystemServiceProvider.php:147-150 | queueing the flagged scripts in turn never moves a queued name and adds exactly the flagged names |
| ScriptQueue.RequeueAllMovesToTail | extensions/system/src/SystemServiceProvider.php:152-155 | dequeueing and queueing distinct names in turn removes them from where they were and appends them at the tail in that order |
| ScriptQueue.Flagged | extensions/system/src/SystemServiceProvider.php:135-137 | `$require` holds every flagged script, and only those, in iteration order |
| ScriptQueue.RequireNamesIff | extensions/system/src/SystemServiceProvider.php:135-137 | a name is among the `$require` names if and only if a flagged script has it |
| ScriptQueue.DependentsFacts | extensions/system/src/SystemServiceProvider.php:138-140 | `$requeue` holds exactly the unflagged scripts whose resolved dependencies contain `requirejs`, each once |
| ScriptQueue.NoDependentsIff | extensions/system/src/SystemServiceProvider.php:143-145 | `$requeue` is empty if and only if no unflagged script's resolved dependencies contain `requirejs` |
| ScriptQueue.RequireAndDependentsDisjoint | extensions/system/src/SystemServiceProvider.php:135-141 | because of the `elseif`, no script is in both `$require` and `$requeue` |
| ScriptQueue.Partition | extensions/system/src/SystemServiceProvider.php:132-141 | the single pass builds `$require` and `$requeue` as `Flagged` and `Dependents` define them |
| ScriptQueue.AddRequireJsAtKeeps | extensions/system/src/SystemServiceProvider.php:148 | appending `requirejs` keeps the old dependency list as a prefix and leaves names, flags and every other script unchanged |
| ScriptQueue.FixUpWithoutDependents | extensions/system/src/SystemServiceProvider.php:132-145 | with no dependent script the fix-up leaves the scripts and the queue unchanged, even when flagged scripts exist |
| ScriptQueue.FixUpDependencies | extensions/system/src/SystemServiceProvider.php:147-150 | when the fix-up runs, each flagged script's dependencies become the old list followed by `requirejs`, without deduplication; every other script is unchanged |
| ScriptQueue.FixUpQueue | extensions/system/src/SystemServiceProvider.php:147-155 | when the fix-up runs, the queue has no duplicates, the dependents fill its tail in iteration order, every flagged script is queued before them, the rest of the old queue keeps its order at the head, and it holds exactly the old names, the flagged scripts and the dependents |
| ScriptQueue.WidgetScenario | extensions/system/src/SystemServiceProvider.php:130-156 | with `widget` queued before the flagged `app`, the fix-up gives `app` the `requirejs` dependency and moves `widget` behind it |
| ScriptQueue.ScriptCollection.OnKernelResponse | extensions/system/src/SystemServiceProvider.php:130-156 | the handler keeps the collection well formed and leaves its scripts and queue as `FixUp` of the old ones, whose properties the lemmas above state |
| ScriptQueue.ScriptCollection.QueueFlagged | extensions/system/src/SystemServiceProvider.php:147-150 | the first loop gives each flagged script the `requirejs` dependency and queues its name in turn |
| ScriptQueue.ScriptCollection.MoveToTail | extensions/system/src/SystemServiceProvider.php:152-155 | the second loop dequeues and queues each dependent in turn and leaves the scripts alone |
| StoragePath.TrimLeadingSlashes | extensions/system/src/SystemServiceProvider.php:53 | `ltrim(s, '/')` removes only slashes, all of them, from the front |
| StoragePath.TrimTrailingSlashes | extensions/system/src/SystemServiceProvider.php:54 | `rtrim(s, '/')` removes only slashes, all of them, from the end |
| StoragePath.AppStorage | extensions/system/src/SystemServiceProvider.php:53 | `app.storage` never starts with `/`; it is `storage` when the configured value is null, empty or `"0"`, and otherwise a suffix of the configured value that equals it when it has no leading slash |
| StoragePath.StoragePath | extensions/system/src/SystemServiceProvider.php:54 | `path.storage` never ends with `/`, is a prefix of `path/storage`, and equals it when the storage directory is non-empty and has no trailing slash |
| StoragePath.RegisterStorage | extensions/system/src/SystemServiceProvider.php:53-54 | a falsy configured value gives `<path>/storage`; a relative one without trailing slash lands directly under the application path |
| StoragePath.OnlySlashesConfigured | extensions/system/src/SystemServiceProvider.php:53-54 | a configured value of slashes only leaves `app.storage` empty and `path.storage` the application path without trailing slashes |
| AdminPath.IsAdmin | extensions/system/src/SystemServiceProvider.php:106 | the pattern, with PCRE's default `$` (end of subject or before a final newline) and `.` (any character but newline), accepts exactly `/admin` and `/admin/`, each optionally followed by one final newline, and every path continuing `/admin/` with a non-newline character |
| AdminPath.IsAdminIff | extensions/system/src/SystemServiceProvider.php:106 | for a path without newlines, `isAdmin` holds if and only if the path is `/admin` or starts with `/admin/` |
| AdminPath.NotAdminWhenNameContinues | extensions/system/src/SystemServiceProvider.php:106 | a path continuing `/admin` with anything but `/` or a newline, such as `/administrator`, is not an admin path |
| AdminPath.AdminExamples | extensions/system/src/SystemServiceProvider.php:106 | `/admin`, `/admin/` and `/admin/system/user` are admin paths; `/administrator`, `/` and `/adm` are not; a final newline after `/admin` or `/admin/` still matches because of PCRE's `$` |

## Left out

- Container registrations and factories (`locator`, `finder`, the `view` extension, the `extension` manager, and the `extensions.boot` initialisation, SystemServiceProvider.php:25-51 and :56) are wiring without logic of their own.
- The console branch of `boot` (:69-85) is left out because it discovers command classes by scanning the filesystem. The `subscribe` call (:87) is also left out.
- The master-request guard of `onKernelRequest` (:92-94) is left out. So are its file adapter registration, the generator `<meta>` tag with its CSRF token, and the `system.init` dispatch (:96-104, :108). These are I/O and event plumbing over collaborators that are not part of this model. Only the `isAdmin` value of :106 is modelled.
- `onRequestMatched` (:111-118) only dispatches an event.
- `onTemplateReference` (:120-128) wraps `FileLocator::get`, which is not part of this model.
- `getSubscribedEvents` (:158-168) is a static priority table.
- `ExtensionManager::load` and the extensions' `boot` are not part of this model. Each is a parameter giving the outcome of the call for a name, so an outcome cannot depend on earlier calls. The application object passed to `boot` is not modelled.
- The `extension.load_failure` event sink is modelled as the returned list of event payloads. Listeners and their effects are not modelled.
- The script collection's `resolveDependencies`, `queue`, `dequeue` and iteration order are not part of this model.
  - Resolution is a parameter from a script to the set of names its dependencies resolve to, evaluated on the scripts as they are before the fix-up.
  - `queue` and `dequeue` are modelled as append-if-absent and remove-if-present.
  - Iteration follows the order of the `scripts` field.
- ScriptQueue.ScriptCollection.OnKernelResponse requires the collection to be keyed by name and its queue to hold no duplicates. This is what append-if-absent queueing maintains; the source states no such requirement.
- A script's `dependencies` is modelled as a list of names. The `(array)` cast at :148, which wraps a single string or turns null into an empty list, is taken as already applied.
- The `requirejs` array key of line 138 is modelled as membership in the resolved set. Scripts are identified by name, so the flagged scripts are kept as their positions in the collection.
- Configuration values for `app.storage` are modelled as a string or null. Other PHP types that `?:` would test for falsiness (false, 0, empty arrays) are not modelled.
- Paths and configuration values are sequences of characters. PCRE and `ltrim`/`rtrim` work on bytes, which makes no difference for the ASCII characters `/`, newline and `admin` that these rules test.
