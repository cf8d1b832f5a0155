/** Filesystem paths as the core uses them: `Path::join`, `to_str` (which
    fails for a path that is not valid Unicode) and `display` (which never
    fails). */
module Paths {
  import opened Common
  import opened Text

  /** A path: its text as `display()` shows it, and whether `to_str()`
      succeeds on it. */
  datatype OsPath = OsPath(text: string, unicode: bool)

  /** A path built from a Rust `String`, which is always valid Unicode. */
  function FromString(s: string): OsPath {
    OsPath(s, true)
  }

  /** `PathBuf::push` on text: an absolute segment replaces the path;
      otherwise a '/' goes between them unless the path is empty or
      already ends in one. */
  function JoinText(base: string, segment: string): (r: string)
    ensures |segment| > 0 && segment[0] != '/' && |base| > 0 && base[|base| - 1] != '/'
      ==> r == base + "/" + segment
    ensures EndsWith(r, segment)
  {
    if |segment| > 0 && segment[0] == '/' then segment
    else if |base| == 0 || base[|base| - 1] == '/' then base + segment
    else base + "/" + segment
  }

  /** `path.join(segment)`: a string segment keeps the path's representability. */
  function JoinPath(p: OsPath, segment: string): (r: OsPath)
    ensures r.unicode == p.unicode
  {
    OsPath(JoinText(p.text, segment), p.unicode)
  }

  /** `path.to_str()`. */
  function ToStr(p: OsPath): (r: Option<string>)
    ensures r.Some? <==> p.unicode
    ensures r.Some? ==> r.value == p.text
  {
    if p.unicode then Some(p.text) else None
  }
}
