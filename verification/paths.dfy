/**
  The parts of `std::path::Path` the core uses, on '/'-separated path
  strings: the last component, its extension and prefix stripping.
*/
module Paths {
  import opened Errors
  import opened Strings

  /** The last piece that names something: empty pieces (from '/'
      runs and a trailing '/') and "." pieces are not components. */
  function LastNamed(pieces: seq<string>): (r: Option<string>)
    ensures r.Some? ==> r.value in pieces && r.value != [] && r.value != "."
  {
    if pieces == [] then None
    else
      var last := pieces[|pieces| - 1];
      if last == [] || last == "." then LastNamed(pieces[..|pieces| - 1]) else Some(last)
  }

  /** `Path::file_name`: the last component, ignoring runs of '/', a
      trailing '/' and "." components; none when there is no such
      component or it is "..". */
  function FileName(path: string): (r: Option<string>)
    ensures r.Some? ==> r.value != [] && '/' !in r.value && r.value != "." && r.value != ".."
  {
    match LastNamed(Split(path, '/'))
    case None => None
    case Some(name) => if name == ".." then None else Some(name)
  }

  lemma {:induction false} LastNamedConcat(xs: seq<string>, ys: seq<string>)
    ensures LastNamed(xs + ys) == if LastNamed(ys).Some? then LastNamed(ys) else LastNamed(xs)
    decreases |ys|
  {
    if ys == [] {
      assert xs + ys == xs;
    } else {
      var init := ys[..|ys| - 1];
      assert (xs + ys)[..|xs + ys| - 1] == xs + init;
      LastNamedConcat(xs, init);
    }
  }

  /** The last '/'-separated name is the file name, whatever precedes
      it. */
  lemma FileNameOfChild(dir: string, name: string)
    requires name != [] && '/' !in name && name != "." && name != ".."
    ensures FileName(dir + "/" + name) == Some(name)
  {
    SplitConcat(dir, '/', name);
    assert dir + "/" + name == dir + ['/'] + name;
    SplitWhole(name, '/');
    LastNamedConcat(Split(dir, '/'), [name]);
    assert LastNamed([name]) == Some(name);
  }

  /** A trailing '/' or "/." does not change the file name, so "foo.txt/."
      names "foo.txt". */
  lemma FileNameIgnoresTrailing(path: string)
    ensures FileName(path + "/") == FileName(path)
    ensures FileName(path + "/.") == FileName(path)
  {
    SplitConcat(path, '/', []);
    assert path + "/" == path + ['/'] + [];
    assert Split([], '/') == [[]];
    LastNamedConcat(Split(path, '/'), [[]]);
    SplitConcat(path, '/', ".");
    assert path + "/." == path + ['/'] + ".";
    SplitWhole(".", '/');
    LastNamedConcat(Split(path, '/'), ["."]);
    assert LastNamed(["."]) == None by {
      assert ["."][..0] == [];
    }
    var empty: seq<string> := [[]];
    assert LastNamed(empty) == None by {
      assert empty[..0] == [];
    }
  }

  /** A ".." component has no file name. */
  lemma ParentHasNoFileName(dir: string)
    ensures FileName(dir + "/..") == None
  {
    SplitConcat(dir, '/', "..");
    assert dir + "/.." == dir + ['/'] + "..";
    SplitWhole("..", '/');
    LastNamedConcat(Split(dir, '/'), [".."]);
    assert LastNamed([".."]) == Some("..");
  }

  /** `Path::extension`: the text after the last '.' of the file name, unless
      the name has no '.' or its only leading '.' marks a hidden file. */
  function Extension(path: string): (r: Option<string>)
    ensures r.Some? ==> '.' !in r.value && FileName(path).Some? && EndsWith(FileName(path).value, "." + r.value)
  {
    match FileName(path)
    case None => None
    case Some(name) =>
      var ext := AfterLast(name, '.');
      if |ext| >= |name| - 1 then None
      else
        DotThenSuffix(name, ext);
        Some(ext)
  }

  /** A suffix preceded by a '.' makes the name end in '.' and that
      suffix. */
  lemma DotThenSuffix(name: string, ext: string)
    requires |ext| < |name| && ext == name[|name| - |ext|..] && name[|name| - |ext| - 1] == '.'
    ensures EndsWith(name, "." + ext)
  {
    assert name[|name| - |ext| - 1..] == [name[|name| - |ext| - 1]] + ext;
  }

  /** `Path::strip_prefix(root)` rendered back to a string, or the path
      itself when `root` is not a prefix of it component by component. */
  function StripPrefix(path: string, root: string): (r: string)
    ensures r == path || EndsWith(path, r)
  {
    var base := TrimEndMatches(root, "/");
    if StartsWith(path, base) && (|path| == |base| || path[|base|] == '/') then
      var rest := TrimStartChar(path[|base|..], '/');
      assert path[|path| - |rest|..] == rest;
      rest
    else path
  }

  /** A root without a trailing '/' is its own base. */
  lemma BaseOfRoot(root: string)
    requires !EndsWith(root, "/")
    ensures TrimEndMatches(root, "/") == root
  {
  }

  /** A path under the root loses the root and the '/' after it. */
  lemma StripPrefixOfChild(root: string, rel: string)
    requires !EndsWith(root, "/")
    requires rel == [] || rel[0] != '/'
    ensures StripPrefix(root + "/" + rel, root) == rel
  {
    BaseOfRoot(root);
    var path := root + "/" + rel;
    assert path[..|root|] == root && path[|root|] == '/';
    assert path[|root|..] == ['/'] + rel;
    assert (['/'] + rel)[1..] == rel;
  }

  /** The root itself becomes empty, and a path that does not start with
      the root is kept whole. */
  lemma StripPrefixOfOthers(root: string, other: string)
    requires !EndsWith(root, "/")
    requires !StartsWith(other, root)
    ensures StripPrefix(root, root) == []
    ensures StripPrefix(other, root) == other
  {
    BaseOfRoot(root);
    assert root[..|root|] == root;
  }
}
