/** The two path/filepath functions the media pipeline uses to name objects, on a
    system whose only separator is '/'. */
module FilePath {

  /** The final element of a path has no separator in it. */
  predicate NoSlash(s: string) {
    '/' !in s
  }

  predicate IsSuffix(suffix: string, s: string) {
    |suffix| <= |s| && s[|s| - |suffix|..] == suffix
  }

  /** filepath.Ext: scanning back from the end, the text from the last '.' on, or ""
      when a '/' or the start of the path comes first. */
  function Ext(path: string): (e: string)
    ensures e == "" || (e[0] == '.' && '.' !in e[1..])
    ensures NoSlash(e)
    ensures IsSuffix(e, path)
  {
    if path == [] then ""
    else
      var last := path[|path| - 1];
      var front := path[..|path| - 1];
      if last == '/' then ""
      else if last == '.' then "."
      else
        var e := Ext(front);
        if e == "" then "" else e + [last]
  }

  /** The path without its trailing separators. */
  function TrimTrailingSlashes(path: string): (t: string)
    ensures t == [] || t[|t| - 1] != '/'
    ensures t <= path
  {
    if path == [] || path[|path| - 1] != '/' then path
    else TrimTrailingSlashes(path[..|path| - 1])
  }

  /** What follows the last separator. */
  function LastElement(path: string): (e: string)
    ensures NoSlash(e)
    ensures IsSuffix(e, path)
  {
    if path == [] || path[|path| - 1] == '/' then ""
    else LastElement(path[..|path| - 1]) + [path[|path| - 1]]
  }

  /** filepath.Base: "." for the empty path, "/" for a path of separators only,
      otherwise the last element once trailing separators are dropped. */
  function Base(path: string): (b: string)
    ensures b != ""
    ensures b == "/" || NoSlash(b)
  {
    if path == [] then "."
    else
      var t := TrimTrailingSlashes(path);
      if t == [] then "/"
      else LastElement(t)
  }

  /** A name made of a stem and one dot-free, slash-free extension has exactly that
      extension. */
  lemma {:induction false} ExtOfStemAndExtension(stem: string, ext: string)
    requires '.' !in ext && NoSlash(ext)
    ensures Ext(stem + "." + ext) == "." + ext
    decreases |ext|
  {
    var p := stem + "." + ext;
    if ext == [] {
      assert p[|p| - 1] == '.';
    } else {
      var front := stem + "." + ext[..|ext| - 1];
      assert p[..|p| - 1] == front;
      assert p[|p| - 1] == ext[|ext| - 1];
      ExtOfStemAndExtension(stem, ext[..|ext| - 1]);
      assert "." + ext[..|ext| - 1] + [ext[|ext| - 1]] == "." + ext;
    }
  }

  /** A path without '.' after its last '/' has no extension. */
  lemma {:induction false} ExtWithoutDot(path: string)
    requires '.' !in LastElement(path)
    ensures Ext(path) == ""
  {
    if path != [] && path[|path| - 1] != '/' {
      ExtWithoutDot(path[..|path| - 1]);
    }
  }

  /** The last element of `dir + "/" + name` is `name` when `name` has no separator. */
  lemma {:induction false} LastElementAfterSlash(dir: string, name: string)
    requires NoSlash(name)
    ensures LastElement(dir + "/" + name) == name
    decreases |name|
  {
    var p := dir + "/" + name;
    if name == [] {
      assert p[|p| - 1] == '/';
    } else {
      assert p[..|p| - 1] == dir + "/" + name[..|name| - 1];
      LastElementAfterSlash(dir, name[..|name| - 1]);
      assert name[..|name| - 1] + [name[|name| - 1]] == name;
    }
  }

  /** filepath.Base of `dir/name` is `name`, for a non-empty name without separators. */
  lemma BaseOfDirAndName(dir: string, name: string)
    requires name != "" && NoSlash(name)
    ensures Base(dir + "/" + name) == name
  {
    var p := dir + "/" + name;
    assert p[|p| - 1] == name[|name| - 1];
    LastElementAfterSlash(dir, name);
  }
}
