/** The path and locator helpers the pipeline uses: `pathlib`'s `suffix`,
    `str.lower()`, `os.path.join` and the URL-scheme test. */
module PyPath {
  import opened Outcomes
  import opened PyText

  /** `str.lower()` on one character, for ASCII letters. */
  function LowerChar(c: char): char
  {
    if 'A' <= c <= 'Z' then (c as int + 32) as char else c
  }

  /** `str.lower()`, for ASCII letters. */
  function Lower(s: string): (r: string)
    ensures |r| == |s|
    ensures forall i | 0 <= i < |s| :: r[i] == LowerChar(s[i])
  {
    if s == [] then [] else [LowerChar(s[0])] + Lower(s[1..])
  }

  /** The last component `pathlib.PurePosixPath` keeps: empty parts and `.`
      parts are dropped, so `a/b/` and `a/b/.` both end in `b`. */
  function LastPart(parts: seq<string>): (name: string)
    ensures name == "" || name in parts
    ensures name != "."
  {
    if parts == [] then ""
    else if parts[|parts| - 1] == "" || parts[|parts| - 1] == "." then LastPart(parts[..|parts| - 1])
    else parts[|parts| - 1]
  }

  /** `PurePosixPath(path).name`. */
  function Name(path: string): (name: string)
    ensures !Contains(name, "/")
  {
    LastPart(Split(path, "/"))
  }

  /** Python's `name.rfind('.')`, with `None` for -1. */
  function LastDot(name: string): (r: Option<nat>)
    ensures r.Some? ==> r.value < |name| && name[r.value] == '.'
    ensures r.Some? ==> forall j | r.value < j < |name| :: name[j] != '.'
    ensures r.None? ==> forall j | 0 <= j < |name| :: name[j] != '.'
  {
    if name == [] then None
    else if name[|name| - 1] == '.' then Some(|name| - 1)
    else LastDot(name[..|name| - 1])
  }

  /** `PurePosixPath(path).suffix`: the final component's text from its last
      dot, provided that dot is neither its first nor its last character;
      otherwise empty. */
  function Suffix(path: string): (r: string)
    ensures r == "" || (|r| >= 2 && r[0] == '.')
    ensures forall j | 1 <= j < |r| :: r[j] != '.'
  {
    var name := Name(path);
    match LastDot(name)
    case Some(i) => if 0 < i < |name| - 1 then name[i..] else ""
    case None => ""
  }

  /** `os.path.join(base, path)` on POSIX: an absolute `path` discards
      `base`; otherwise a `/` goes between them unless `base` is empty or
      already ends with one. */
  function PathJoin(base: string, path: string): string
  {
    if StartsWith(path, "/") then path
    else if base == "" || base[|base| - 1] == '/' then base + path
    else base + "/" + path
  }

  /** The joined path ends with `path`; it is `path` itself when `path` is
      absolute, and starts with `base` otherwise. */
  lemma PathJoinShape(base: string, path: string)
    ensures |path| <= |PathJoin(base, path)|
    ensures PathJoin(base, path)[|PathJoin(base, path)| - |path|..] == path
    ensures StartsWith(path, "/") ==> PathJoin(base, path) == path
    ensures !StartsWith(path, "/") ==> StartsWith(PathJoin(base, path), base)
  {
    var r := PathJoin(base, path);
    if !StartsWith(path, "/") {
      assert r[..|base|] == base;
    }
  }

  /** `locator.startswith(('http://', 'https://'))`. */
  predicate IsUrl(locator: string) {
    StartsWith(locator, "http://") || StartsWith(locator, "https://")
  }
}
