/**
 * The extension boot loop of `SystemServiceProvider::boot`: the accumulated
 * boot list is deduplicated with `array_unique`, and every name is loaded by
 * the extension manager and then booted, inside one try block that catches
 * `ExtensionLoadException` only.
 *
 * The extension manager is not part of this model: `load` and the boot hook
 * are parameters that say how each call ends.
 */
module ExtensionBoot {
  import opened Wrappers
  import opened Sequences

  /** How a call into an extension ends: it returns, it throws an
      `ExtensionLoadException`, or it throws anything else. */
  datatype Outcome = Ok | LoadFailure | OtherFailure

  /** What one run of the boot loop did. */
  datatype BootReport = BootReport(
    loaded: seq<string>,         // names passed to `load`, in order
    hooked: seq<string>,         // names whose `boot` hook was invoked, in order
    failureEvents: seq<string>,  // payloads of the `extension.load_failure` events, in order
    escaped: Option<string>)     // the name whose other failure left the loop, if any

  /** `array_unique`: the first occurrence of every name, in list order. */
  function Unique(s: seq<string>): (u: seq<string>)
    ensures NoDuplicates(u)
    ensures forall x :: x in u <==> x in s
  {
    if s == [] then []
    else
      var u := Unique(s[..|s| - 1]);
      if s[|s| - 1] in u then u else u + [s[|s| - 1]]
  }

  /** The names of `s` on which `f` gives `o`, in order. */
  function Where(s: seq<string>, f: string -> Outcome, o: Outcome): (r: seq<string>)
    ensures forall x :: x in r <==> x in s && f(x) == o
    ensures NoDuplicates(s) ==> NoDuplicates(r)
  {
    if s == [] then []
    else
      var r := Where(s[..|s| - 1], f, o);
      assert forall x :: x in s[..|s| - 1] ==> x in s;
      if f(s[|s| - 1]) == o then r + [s[|s| - 1]] else r
  }

  /** The outcome of `load(name)->boot(app)` as the try block sees it: the
      hook runs only when loading returned. */
  function Attempt(load: string -> Outcome, hook: string -> Outcome): string -> Outcome {
    name => if load(name) == Ok then hook(name) else load(name)
  }

  /** One pass of the loop body for `name`, on a run that has not escaped. */
  function Step(r: BootReport, name: string, load: string -> Outcome, hook: string -> Outcome): BootReport {
    var outcome := Attempt(load, hook)(name);
    BootReport(
      r.loaded + [name],
      if load(name) == Ok then r.hooked + [name] else r.hooked,
      if outcome == LoadFailure then r.failureEvents + [name] else r.failureEvents,
      if outcome == OtherFailure then Some(name) else None)
  }

  /** The loop over an already deduplicated list of names. */
  function Run(names: seq<string>, load: string -> Outcome, hook: string -> Outcome): BootReport {
    if names == [] then BootReport([], [], [], None)
    else
      var r := Run(names[..|names| - 1], load, hook);
      if r.escaped.Some? then r else Step(r, names[|names| - 1], load, hook)
  }

  /** The boot loop itself (lines 61-67). */
  method Boot(bootList: seq<string>, load: string -> Outcome, hook: string -> Outcome)
    returns (report: BootReport)
    ensures report == Run(Unique(bootList), load, hook)
  {
    var names := Unique(bootList);
    var loaded, hooked, events := [], [], [];
    var i := 0;
    while i < |names|
      invariant 0 <= i <= |names|
      invariant Run(names[..i], load, hook) == BootReport(loaded, hooked, events, None)
    {
      var name := names[i];
      assert names[..i + 1][..i] == names[..i];
      loaded := loaded + [name];
      var outcome := load(name);
      if outcome == Ok {
        hooked := hooked + [name];
        outcome := hook(name);
      }
      if outcome == LoadFailure {
        events := events + [name];
      } else if outcome == OtherFailure {
        report := BootReport(loaded, hooked, events, Some(name));
        RunAfterEscape(names, i + 1, load, hook);
        return;
      }
      i := i + 1;
    }
    assert names[..i] == names;
    report := BootReport(loaded, hooked, events, None);
  }

  /** Once a name has escaped, no later name is processed. */
  lemma {:induction false} RunAfterEscape(s: seq<string>, k: nat, load: string -> Outcome, hook: string -> Outcome)
    requires k <= |s|
    requires Run(s[..k], load, hook).escaped.Some?
    ensures Run(s, load, hook) == Run(s[..k], load, hook)
  {
    if k < |s| {
      var init := s[..|s| - 1];
      assert init[..k] == s[..k];
      RunAfterEscape(init, k, load, hook);
    } else {
      assert s[..k] == s;
    }
  }

  /** `array_unique` keeps the first-seen order of the names. */
  lemma {:induction false} UniqueKeepsFirstSeenOrder(s: seq<string>)
    ensures forall i, j :: 0 <= i < j < |Unique(s)| ==>
      FirstIndex(s, Unique(s)[i]) < FirstIndex(s, Unique(s)[j])
  {
    if s != [] {
      var init, last := s[..|s| - 1], s[|s| - 1];
      assert s == init + [last];
      UniqueKeepsFirstSeenOrder(init);
      var u, u' := Unique(s), Unique(init);
      forall x | x in u'
        ensures FirstIndex(s, x) == FirstIndex(init, x) < |init|
      {
        FirstIndexAppend(init, last, x);
      }
      if last !in u' {
        assert FirstIndex(s, last) == |init|;
      }
    }
  }

  /** A list without duplicates is left as it is. */
  lemma {:induction false} UniqueOfDistinct(s: seq<string>)
    requires NoDuplicates(s)
    ensures Unique(s) == s
  {
    if s != [] {
      var init := s[..|s| - 1];
      UniqueOfDistinct(init);
      assert s[|s| - 1] !in init;
      assert s == init + [s[|s| - 1]];
    }
  }

  /** The names loaded are a prefix of the list: every name up to the one
      that escaped, or all of them. Only an other failure ends the loop. */
  lemma {:induction false} RunLoadsPrefix(s: seq<string>, load: string -> Outcome, hook: string -> Outcome)
    ensures var r := Run(s, load, hook);
      && r.loaded <= s
      && (r.escaped.None? ==> r.loaded == s)
      && (r.escaped.Some? ==>
            |r.loaded| > 0 && r.escaped.value == r.loaded[|r.loaded| - 1]
            && Attempt(load, hook)(r.escaped.value) == OtherFailure)
      && (forall i :: 0 <= i < |r.loaded| - 1 ==> Attempt(load, hook)(r.loaded[i]) != OtherFailure)
  {
    if s != [] {
      var init := s[..|s| - 1];
      RunLoadsPrefix(init, load, hook);
      var r := Run(init, load, hook);
      if r.escaped.None? {
        assert s == init + [s[|s| - 1]];
      }
    }
  }

  /** The loop runs to the end exactly when no name fails with anything
      but an `ExtensionLoadException`. */
  lemma {:induction false} RunCompletesIff(s: seq<string>, load: string -> Outcome, hook: string -> Outcome)
    ensures Run(s, load, hook).escaped.None? <==>
      forall x :: x in s ==> Attempt(load, hook)(x) != OtherFailure
  {
    if s != [] {
      var init := s[..|s| - 1];
      RunCompletesIff(init, load, hook);
      assert s == init + [s[|s| - 1]];
      if Run(init, load, hook).escaped.Some? {
        var n :| n in init && Attempt(load, hook)(n) == OtherFailure;
        assert n in s;
      }
    }
  }

  /** The hook runs for exactly the loaded names whose load returned, and
      one event is emitted for exactly the loaded names whose load or boot
      threw `ExtensionLoadException`, each in loop order. */
  lemma {:induction false} RunHooksAndEvents(s: seq<string>, load: string -> Outcome, hook: string -> Outcome)
    ensures var r := Run(s, load, hook);
      && r.hooked == Where(r.loaded, load, Ok)
      && r.failureEvents == Where(r.loaded, Attempt(load, hook), LoadFailure)
  {
    if s != [] {
      var init := s[..|s| - 1];
      RunHooksAndEvents(init, load, hook);
      var r := Run(init, load, hook);
      if r.escaped.None? {
        var loaded := r.loaded + [s[|s| - 1]];
        assert loaded[..|loaded| - 1] == r.loaded;
      }
    }
  }

  /** What a caller of `boot` can rely on: each distinct name of the boot
      list is loaded at most once, in first-seen order; a name whose load
      throws `ExtensionLoadException` is not booted and yields exactly one
      failure event; an `ExtensionLoadException` from the hook is swallowed
      too; the loop goes on past such a name and stops only after a name
      that failed otherwise. */
  lemma BootIsolation(bootList: seq<string>, load: string -> Outcome, hook: string -> Outcome)
    ensures var u := Unique(bootList);
      var r := Run(u, load, hook);
      && r.loaded <= u
      && NoDuplicates(r.loaded)
      && NoDuplicates(r.failureEvents)
      && (forall x :: x in r.loaded && load(x) == LoadFailure ==> x !in r.hooked && x in r.failureEvents)
      && (forall x :: x in r.loaded && load(x) == Ok && hook(x) == LoadFailure ==> x in r.hooked && x in r.failureEvents)
      && (forall x :: x in r.failureEvents ==> x in r.loaded && Attempt(load, hook)(x) == LoadFailure)
      && (forall i :: 0 <= i < |u| - 1 && u[i] in r.loaded && Attempt(load, hook)(u[i]) != OtherFailure
            ==> u[i + 1] in r.loaded)
      && (forall i :: 0 <= i < |r.loaded| && Attempt(load, hook)(r.loaded[i]) == OtherFailure
            ==> i == |r.loaded| - 1 && r.escaped == Some(r.loaded[i]))
  {
    var u := Unique(bootList);
    var r := Run(u, load, hook);
    RunLoadsPrefix(u, load, hook);
    RunHooksAndEvents(u, load, hook);
    assert r.loaded == u[..|r.loaded|];
    assert NoDuplicates(r.loaded);
  }

  /** Loading in the scenario below: `seo` throws `ExtensionLoadException`. */
  function SeoLoad(name: string): Outcome {
    if name == "seo" then LoadFailure else Ok
  }

  /** Booting in the scenario below always returns. */
  function BootOk(name: string): Outcome {
    Ok
  }

  /** `array_unique(["seo", "seo", "cache"])`. */
  lemma SeoUnique()
    ensures Unique(["seo", "seo", "cache"]) == ["seo", "cache"]
  {
    var s := ["seo", "seo", "cache"];
    assert s[..2][..1] == ["seo"];
    assert s[..2] == ["seo", "seo"];
    assert Unique(["seo"]) == ["seo"];
    assert Unique(s[..2]) == ["seo"];
  }

  /** The list `["seo", "seo", "cache"]` with `seo` failing to load boots
      only `cache` and emits one failure event, for `seo`. */
  lemma SeoScenario()
    ensures Run(Unique(["seo", "seo", "cache"]), SeoLoad, BootOk)
      == BootReport(["seo", "cache"], ["cache"], ["seo"], None)
  {
    SeoUnique();
    assert ["seo", "cache"][..1] == ["seo"];
    assert Run(["seo"], SeoLoad, BootOk) == BootReport(["seo"], [], ["seo"], None);
  }
}
