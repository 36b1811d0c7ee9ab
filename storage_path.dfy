/**
 * The storage settings computed in `SystemServiceProvider::register`
 * (lines 53-54): `app.storage` is the configured storage directory, or
 * `storage` when the configured value is falsy, with leading slashes
 * removed; `path.storage` (also `locator.paths.storage`) joins it to the
 * application path and removes trailing slashes.
 */
module StoragePath {
  import opened Wrappers

  /** The default storage directory. */
  const DEFAULT_STORAGE := "storage"

  /** PHP's falsy test, as `?:` applies it to a configured string value or
      to `null` (`None`). */
  predicate IsFalsy(v: Option<string>) {
    v.None? || v.value == "" || v.value == "0"
  }

  /** `ltrim(s, '/')`. */
  function TrimLeadingSlashes(s: string): (r: string)
    ensures |r| <= |s| && r == s[|s| - |r|..]
    ensures r == "" || r[0] != '/'
    ensures forall i :: 0 <= i < |s| - |r| ==> s[i] == '/'
  {
    if s != [] && s[0] == '/' then TrimLeadingSlashes(s[1..]) else s
  }

  /** `rtrim(s, '/')`. */
  function TrimTrailingSlashes(s: string): (r: string)
    ensures r <= s
    ensures r == "" || r[|r| - 1] != '/'
    ensures forall i :: |r| <= i < |s| ==> s[i] == '/'
  {
    if s != [] && s[|s| - 1] == '/' then TrimTrailingSlashes(s[..|s| - 1]) else s
  }

  /** The value stored back as `app.storage` (line 53). */
  function AppStorage(configured: Option<string>): (r: string)
    ensures r == "" || r[0] != '/'
    ensures IsFalsy(configured) ==> r == DEFAULT_STORAGE
    ensures !IsFalsy(configured) && configured.value[0] != '/' ==> r == configured.value
    ensures !IsFalsy(configured) ==>
      |r| <= |configured.value| && r == configured.value[|configured.value| - |r|..]
  {
    TrimLeadingSlashes(if IsFalsy(configured) then DEFAULT_STORAGE else configured.value)
  }

  /** The value of `path.storage` and `locator.paths.storage` (line 54). */
  function StoragePath(path: string, storage: string): (r: string)
    ensures r == "" || r[|r| - 1] != '/'
    ensures r <= path + "/" + storage
    ensures storage != "" && storage[|storage| - 1] != '/' ==> r == path + "/" + storage
  {
    TrimTrailingSlashes(path + "/" + storage)
  }

  /** Both settings as `register` leaves them: a configured relative
      directory without trailing slash lands directly under the application
      path, and an unset or falsy one becomes `<path>/storage`. */
  lemma RegisterStorage(path: string, configured: Option<string>)
    ensures var storage := AppStorage(configured);
      && (IsFalsy(configured) ==> StoragePath(path, storage) == path + "/storage")
      && (!IsFalsy(configured) && configured.value[0] != '/' && configured.value[|configured.value| - 1] != '/' ==>
            StoragePath(path, storage) == path + "/" + configured.value)
  {
  }

  /** A configured value made only of slashes leaves `app.storage` empty,
      and `path.storage` is then the application path without trailing
      slashes. */
  lemma OnlySlashesConfigured(path: string, configured: string)
    requires configured != "" && forall i :: 0 <= i < |configured| ==> configured[i] == '/'
    ensures AppStorage(Some(configured)) == ""
    ensures StoragePath(path, AppStorage(Some(configured))) == TrimTrailingSlashes(path)
  {
    assert configured[0] == '/' && configured != "0";
    AllSlashesTrimmed(configured);
    assert path + "/" + "" == path + "/";
    TrailingSlashesTrimmed(path);
  }

  /** `ltrim` empties a string made only of slashes. */
  lemma AllSlashesTrimmed(s: string)
    requires forall i :: 0 <= i < |s| ==> s[i] == '/'
    ensures TrimLeadingSlashes(s) == ""
  {
  }

  /** One more trailing slash makes no difference to `rtrim`. */
  lemma TrailingSlashesTrimmed(s: string)
    ensures TrimTrailingSlashes(s + "/") == TrimTrailingSlashes(s)
  {
  }
}
