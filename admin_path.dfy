/**
 * The admin test of `SystemServiceProvider::onKernelRequest` (line 106):
 * `isAdmin` is whether the request's path info matches the PCRE pattern
 * `^/admin(/?$|/.+)` (no modifiers). Without modifiers, `$` matches at the
 * end of the subject or just before a newline that ends it, and `.` matches
 * any character except a newline.
 */
module AdminPath {

  const ADMIN := "/admin"

  /** PCRE `$` without the D modifier, at the start of `rest`. */
  predicate AtEnd(rest: string) {
    rest == "" || rest == "\n"
  }

  /** The first alternative, `/?$`, at the start of `rest`. */
  predicate OptionalSlashThenEnd(rest: string) {
    AtEnd(rest) || (rest != "" && rest[0] == '/' && AtEnd(rest[1..]))
  }

  /** The second alternative, `/.+`, at the start of `rest`: a slash and at
      least one character other than a newline (nothing is anchored after). */
  predicate SlashThenAny(rest: string) {
    |rest| >= 2 && rest[0] == '/' && rest[1] != '\n'
  }

  /** `preg_match('#^/admin(/?$|/.+)#', pathInfo)`: the paths it accepts
      are `/admin` and `/admin/`, each optionally followed by one final
      newline, and every path continuing `/admin/` with a character other
      than a newline. */
  function IsAdmin(pathInfo: string): (b: bool)
    ensures b <==>
      pathInfo == ADMIN || pathInfo == ADMIN + "\n" || pathInfo == ADMIN + "/" || pathInfo == ADMIN + "/\n"
      || (ADMIN + "/" <= pathInfo && |pathInfo| > |ADMIN| + 1 && pathInfo[|ADMIN| + 1] != '\n')
  {
    if ADMIN <= pathInfo then
      var rest := pathInfo[|ADMIN|..];
      OptionalSlashThenEnd(rest) || SlashThenAny(rest)
    else
      false
  }

  predicate NoNewline(s: string) {
    forall i :: 0 <= i < |s| ==> s[i] != '\n'
  }

  /** For a path without newlines, the admin area is `/admin` itself and
      everything under `/admin/`. */
  lemma IsAdminIff(pathInfo: string)
    requires NoNewline(pathInfo)
    ensures IsAdmin(pathInfo) <==> pathInfo == ADMIN || ADMIN + "/" <= pathInfo
  {
  }

  /** A path that merely starts with the letters of `/admin`, such as
      `/administrator`, is not an admin path. */
  lemma NotAdminWhenNameContinues(pathInfo: string)
    requires |pathInfo| > |ADMIN| && pathInfo[|ADMIN|] !in {'/', '\n'}
    ensures !IsAdmin(pathInfo)
  {
  }

  /** The pattern's own examples, and what PCRE's `$` lets through. */
  lemma AdminExamples()
    ensures IsAdmin("/admin") && IsAdmin("/admin/") && IsAdmin("/admin/system/user")
    ensures !IsAdmin("/administrator") && !IsAdmin("/") && !IsAdmin("/adm")
    ensures IsAdmin("/admin\n") && IsAdmin("/admin/\n") && !IsAdmin("/admin/\nx")
  {
  }
}
