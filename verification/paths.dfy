/**
 * `Path.GetFileName` and `Path.GetFileNameWithoutExtension`, with the Unix directory
 * separator `/`.
 */
module Paths {
  import opened Wrappers

  const DirectorySeparator: char := '/'

  /** The position of the last `c` in `s`, or `None`. */
  function LastIndexOf(s: string, c: char): (r: Option<nat>)
    ensures r.Some? ==> r.value < |s| && s[r.value] == c && c !in s[r.value + 1..]
    ensures r.None? ==> c !in s
  {
    if s == [] then None
    else if s[|s| - 1] == c then Some(|s| - 1)
    else LastIndexOf(s[..|s| - 1], c)
  }

  /** `Path.GetFileName`: what follows the last directory separator. */
  function GetFileName(path: string): (name: string)
    ensures DirectorySeparator !in name
    ensures |name| <= |path| && path[|path| - |name|..] == name
    ensures DirectorySeparator !in path ==> name == path
    ensures |name| < |path| ==> path[|path| - |name| - 1] == DirectorySeparator
  {
    match LastIndexOf(path, DirectorySeparator)
    case None => path
    case Some(i) => path[i + 1..]
  }

  /** `Path.GetFileNameWithoutExtension`: the file name up to its last `.`, if it has one. */
  function GetFileNameWithoutExtension(path: string): (stem: string)
    ensures DirectorySeparator !in stem
    ensures |stem| <= |GetFileName(path)| && GetFileName(path)[..|stem|] == stem
    ensures '.' !in GetFileName(path) ==> stem == GetFileName(path)
    ensures |stem| < |GetFileName(path)| ==>
              GetFileName(path)[|stem|] == '.' && '.' !in GetFileName(path)[|stem| + 1..]
  {
    var name := GetFileName(path);
    match LastIndexOf(name, '.')
    case None => name
    case Some(i) => name[..i]
  }
}
