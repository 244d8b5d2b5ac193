/** The last component of a Unix path, as Rust's `Path::file_name` computes
    it. A path is split at `/`; empty pieces (repeated or trailing slashes) and
    `.` pieces are not components; a last component of `..`, or no component
    at all (`""`, `"/"`, `"."`), gives no file name. */
module Paths {

  import opened Wrappers
  import opened Strings

  /** A piece of a split path that is a component but not `..`. */
  predicate IsNormal(piece: string)
  {
    piece != "" && piece != "." && piece != ".."
  }

  /** The last piece that is a component (not empty, not `.`). */
  function LastComponent(pieces: seq<string>): (r: Option<string>)
    ensures r.Some? ==> r.value in pieces && r.value != "" && r.value != "."
    ensures r.None? ==> forall i :: 0 <= i < |pieces| ==> pieces[i] == "" || pieces[i] == "."
    decreases |pieces|
  {
    if |pieces| == 0 then None
    else
      var last := pieces[|pieces| - 1];
      if last == "" || last == "." then LastComponent(pieces[..|pieces| - 1]) else Some(last)
  }

  /** `Path::new(path).file_name()` for a Unix path. */
  function FileName(path: string): (r: Option<string>)
    ensures r.Some? ==> IsNormal(r.value) && '/' !in r.value && r.value in Split(path, '/')
  {
    match LastComponent(Split(path, '/'))
    case None => None
    case Some(c) => if c == ".." then None else Some(c)
  }

  /** A name without a slash is its own file name. */
  lemma FileNameOfName(name: string)
    requires IsNormal(name) && '/' !in name
    ensures FileName(name) == Some(name)
  {
    SplitNoSeparator(name, '/');
  }

  /** The file name of `dir/name` is `name`, whatever the directory. */
  lemma FileNameOfJoin(dir: string, name: string)
    requires IsNormal(name) && '/' !in name
    ensures FileName(dir + "/" + name) == Some(name)
  {
    SplitAround(dir, '/', name);
    SplitNoSeparator(name, '/');
    var pieces := Split(dir, '/') + [name];
    assert pieces[|pieces| - 1] == name;
  }

  /** Trailing `/` or `/.` does not change the file name (`a/b/` and `a/b/.`
      both name `b`). */
  lemma FileNameIgnoresTrailing(path: string, suffix: string)
    requires suffix == "" || suffix == "."
    ensures FileName(path + "/" + suffix) == FileName(path)
  {
    SplitAround(path, '/', suffix);
    SplitNoSeparator(suffix, '/');
    var pieces := Split(path, '/') + [suffix];
    assert pieces[..|pieces| - 1] == Split(path, '/');
  }

  /** Paths without any component, and paths ending in `..`, have no file
      name. */
  lemma NoFileName(path: string)
    requires path in {"", "/", ".", "..", "/.."}
    ensures FileName(path) == None
  {
    if path == "/" || path == "/.." {
      SplitAround("", '/', path[1..]);
      assert path == "" + "/" + path[1..];
    }
  }

  /** Every path ending in `/..` has no file name, whatever comes before. */
  lemma FileNameOfParent(dir: string)
    ensures FileName(dir + "/..") == None
  {
    SplitAround(dir, '/', "..");
    SplitNoSeparator("..", '/');
    assert dir + "/.." == dir + ['/'] + "..";
  }
}
