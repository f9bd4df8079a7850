/** The three functions of Go's path/filepath the drivers use, for '/'-separated paths. */
module FilePath {
  /** The index of the last '/' in s, or -1. */
  function LastSlash(s: string): (i: int)
    ensures -1 <= i < |s|
    ensures i >= 0 ==> s[i] == '/'
    ensures forall k :: i < k < |s| ==> s[k] != '/'
  {
    if s == [] then -1 else if s[|s| - 1] == '/' then |s| - 1 else LastSlash(s[..|s| - 1])
  }

  /** filepath.Ext: the suffix from the last '.' of the final element, or "". */
  function Ext(path: string): (e: string)
    ensures |e| <= |path| && e == path[|path| - |e|..]
    ensures e != [] ==> e[0] == '.' && forall k :: 0 < k < |e| ==> e[k] != '.' && e[k] != '/'
    ensures e == [] ==> forall k :: LastSlash(path) < k < |path| ==> path[k] != '.'
  {
    if path == [] || path[|path| - 1] == '/' then []
    else if path[|path| - 1] == '.' then ['.']
    else
      var e := Ext(path[..|path| - 1]);
      if e == [] then [] else e + [path[|path| - 1]]
  }

  function StripTrailingSlashes(s: string): (r: string)
    ensures |r| <= |s| && r == s[..|r|] && (r == [] || r[|r| - 1] != '/')
    ensures forall k :: |r| <= k < |s| ==> s[k] == '/'
  {
    if |s| > 0 && s[|s| - 1] == '/' then StripTrailingSlashes(s[..|s| - 1]) else s
  }

  /** filepath.Base: the last element, trailing slashes removed; "." for the empty path and
      "/" for a path of slashes only. */
  function Base(path: string): string {
    if path == [] then "."
    else
      var s := StripTrailingSlashes(path);
      if s == [] then "/" else s[LastSlash(s) + 1..]
  }

  /** filepath.Dir of a clean path (no repeated, trailing or dot elements, as the directory walk
      produces): everything before the last '/', "/" for a root entry and "." without any '/'. */
  function Dir(path: string): string {
    var i := LastSlash(path);
    if i < 0 then "." else if i == 0 then "/" else path[..i]
  }

  /** For a path below a named directory, joining Dir and Base with "/" gives the path back. */
  lemma DirBaseJoin(path: string)
    requires LastSlash(path) > 0 && path[|path| - 1] != '/'
    ensures Dir(path) + "/" + Base(path) == path
  {
    var i := LastSlash(path);
    BaseOfFile(path);
    assert Dir(path) == path[..i];
    SplitAtSlash(path, i);
  }

  lemma SplitAtSlash(path: string, i: nat)
    requires 0 < i < |path| && path[i] == '/'
    ensures path[..i] + "/" + path[i + 1..] == path
  {
    assert path == path[..i] + path[i..];
    assert path[i..] == "/" + path[i + 1..];
  }

  lemma BaseOfFile(path: string)
    requires path != [] && path[|path| - 1] != '/'
    ensures Base(path) == path[LastSlash(path) + 1..]
  {
    assert StripTrailingSlashes(path) == path;
  }

  /** The base name carries no '/' unless it is the root itself. */
  lemma BaseHasNoSlash(path: string)
    ensures Base(path) == "/" || forall k :: 0 <= k < |Base(path)| ==> Base(path)[k] != '/'
  {
  }

  /** Cutting the extension off the base name leaves the name in front of it. */
  lemma StemPlusExt(name: string)
    ensures name[..|name| - |Ext(name)|] + Ext(name) == name
  {
  }
}
