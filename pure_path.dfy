/** The parts of POSIX pathlib the core relies on: `name`, `suffix`, `with_suffix` and
    joining a directory with one path component. A path is its text, taken to be in
    pathlib's normal form already (no trailing '/', no empty or '.' components). */
module PurePath {
  import opened Wrappers
  import opened Text

  /** The final component: everything after the last '/'. */
  function Name(p: string): (n: string)
    ensures '/' !in n && |n| <= |p|
  {
    p[LastIndex(p, '/') + 1..]
  }

  /** The suffix of a name: from its last '.', provided that dot is neither the name's
      first character nor its last; otherwise empty. */
  function NameSuffix(n: string): (ext: string)
    ensures ext == [] || (|ext| >= 2 && ext[0] == '.' && '.' !in ext[1..])
    ensures '/' in ext ==> '/' in n
    ensures ext != [] ==> |ext| < |n|
  {
    var i := LastIndex(n, '.');
    if 0 < i < |n| - 1 then n[i..] else []
  }

  /** `Path.suffix`: the suffix of the final component. */
  function Suffix(p: string): (ext: string)
    ensures ext == [] || (|ext| >= 2 && ext[0] == '.' && '.' !in ext[1..])
    ensures '/' !in ext
    ensures ext != [] ==> |ext| < |Name(p)|
  {
    NameSuffix(Name(p))
  }

  /** A name is its stem followed by its suffix. */
  lemma NameEndsWithSuffix(n: string)
    ensures n == n[..|n| - |NameSuffix(n)|] + NameSuffix(n)
  {
    var i := LastIndex(n, '.');
    if 0 < i < |n| - 1 {
      assert n == n[..i] + n[i..];
    }
  }

  /** Whatever a tail of p ends with, p ends with too. */
  lemma TailEnding(p: string, a: nat, ext: string)
    requires a <= |p| && |ext| <= |p| - a
    requires p[a..] == p[a..][..|p| - a - |ext|] + ext
    ensures p == p[..|p| - |ext|] + ext
  {
    var m := |p| - |ext|;
    assert p[m..] == p[a..][m - a..];
    assert p == p[..m] + p[m..];
  }

  /** A path ends with its suffix. */
  lemma EndsWithSuffix(p: string)
    ensures p == p[..|p| - |Suffix(p)|] + Suffix(p)
  {
    NameEndsWithSuffix(Name(p));
    TailEnding(p, LastIndex(p, '/') + 1, Suffix(p));
  }

  /** A suffix literal pathlib accepts: '.' followed by at least one character, no '/'. */
  predicate ValidSuffix(ext: string) {
    '/' !in ext && (ext == [] || (ext[0] == '.' && ext != "."))
  }

  /** `Path.with_suffix(ext)`: replaces the suffix of the name (or appends when there is
      none); None where pathlib raises ValueError (bad suffix, empty name). */
  function WithSuffix(p: string, ext: string): (r: Option<string>)
    ensures r.Some? <==> ValidSuffix(ext) && Name(p) != []
  {
    if !ValidSuffix(ext) || Name(p) == [] then None
    else Some(p[..|p| - |Suffix(p)|] + ext)
  }

  /** `Path(dir) / component` for a single component (no '/'); pathlib drops an empty or
      "." component, and `Path("")` is ".". */
  function Join(dir: string, component: string): string {
    if component == [] || component == "." then (if dir == [] then "." else dir)
    else if dir == [] then component
    else if dir[|dir| - 1] == '/' then dir + component
    else dir + "/" + component
  }

  /** p is the directory dir itself or one entry directly inside it. */
  predicate IsInside(dir: string, p: string) {
    p == dir || (dir + "/" <= p && '/' !in p[|dir| + 1..])
  }

  /** Lower-casing a path and taking its name commute: '/' is not a letter. */
  lemma NameLower(p: string)
    ensures Name(Lower(p)) == Lower(Name(p))
  {
    LastIndexLower(p, '/');
    LowerSlice(p, LastIndex(p, '/') + 1, |p|);
  }

  /** Lower-casing a path and taking its suffix commute: neither '/' nor '.' is a letter. */
  lemma SuffixLower(p: string)
    ensures Suffix(Lower(p)) == Lower(Suffix(p))
  {
    NameLower(p);
    NameSuffixLower(Name(p));
  }

  /** A lower-cased suffix still has the shape of a suffix. */
  lemma LowerSuffixShape(p: string)
    ensures var ext := Lower(Suffix(p));
      ext == [] || (|ext| >= 2 && ext[0] == '.' && '.' !in ext[1..] && '/' !in ext)
  {
    SuffixLower(p);
    assert Lower(Suffix(p)) == Suffix(Lower(p));
  }

  lemma NameSuffixLower(n: string)
    ensures NameSuffix(Lower(n)) == Lower(NameSuffix(n))
  {
    LastIndexLower(n, '.');
    var i := LastIndex(n, '.');
    if 0 < i < |n| - 1 {
      LowerSlice(n, i, |n|);
    }
  }

  /** The name of a path ending in a component without '/' ends in that component. */
  lemma NameOfAppend(p: string, tail: string)
    requires '/' !in tail
    ensures Name(p + tail) == Name(p) + tail
  {
    var s := p + tail;
    var k := LastIndex(p, '/');
    assert s[..|p|] == p && s[|p|..] == tail;
    forall j | k < j < |s|
      ensures s[j] != '/'
    {
      if j >= |p| {
        assert s[j] == tail[j - |p|];
      }
    }
    LastIndexIs(s, '/', k);
    assert s[k + 1..] == p[k + 1..] + tail;
  }

  /** A non-empty stem followed by a suffix-shaped ext has suffix ext (a stem without
      dots, when ext is empty). */
  lemma NameSuffixOf(stem: string, ext: string)
    requires stem != [] && (ext == [] ==> '.' !in stem)
    requires ext == [] || (|ext| >= 2 && ext[0] == '.' && '.' !in ext[1..])
    ensures NameSuffix(stem + ext) == ext
  {
    var n := stem + ext;
    if ext == [] {
      assert n == stem;
      LastIndexIs(n, '.', -1);
    } else {
      forall j | |stem| < j < |n|
        ensures n[j] != '.'
      {
        assert n[j] == ext[1..][j - |stem| - 1];
      }
      LastIndexIs(n, '.', |stem|);
      assert n[|stem|..] == ext;
    }
  }

  /** Appending stem and ext to a directory part gives a path whose suffix is ext. */
  lemma SuffixOfStemAndExt(p: string, stem: string, ext: string)
    requires '/' !in stem && Name(p) == [] && stem != [] && (ext == [] ==> '.' !in stem)
    requires ext == [] || (|ext| >= 2 && ext[0] == '.' && '.' !in ext[1..] && '/' !in ext)
    ensures Suffix(p + stem + ext) == ext
  {
    assert '/' !in stem + ext;
    assert p + stem + ext == p + (stem + ext);
    NameOfAppend(p, stem + ext);
    assert Name(p + stem + ext) == stem + ext;
    NameSuffixOf(stem, ext);
  }

  /** A path ending in '/' has an empty name. */
  lemma NameOfDirectoryPart(dir: string)
    ensures Name(dir + "/") == []
  {
    LastIndexIs(dir + "/", '/', |dir|);
  }

  /** Joining a directory with a component lands directly inside the directory, and the
      joined path's name is that component. */
  lemma JoinInside(dir: string, component: string)
    requires dir != [] && dir[|dir| - 1] != '/'
    requires '/' !in component
    ensures IsInside(dir, Join(dir, component))
    ensures component != [] && component != "." ==> Join(dir, component) == dir + "/" + component
    ensures component != [] && component != "." ==> Name(Join(dir, component)) == component
  {
    if component != [] && component != "." {
      var p := dir + "/" + component;
      assert p[|dir| + 1..] == component;
      NameOfDirectoryPart(dir);
      NameOfAppend(dir + "/", component);
    }
  }

  /** Cutting p after a + m characters is cutting after a, then m more. */
  lemma PrefixSplit(p: string, a: nat, m: nat)
    requires a + m <= |p|
    ensures p[..a + m] == p[..a] + p[a..][..m]
  {
  }

  /** A path with a non-empty name, less its suffix, is a directory part followed by a
      non-empty stem without '/'. */
  lemma StemOf(p: string) returns (dir: string, stem: string)
    requires Name(p) != []
    ensures p[..|p| - |Suffix(p)|] == dir + stem
    ensures Name(dir) == [] && stem != [] && '/' !in stem
  {
    var k := LastIndex(p, '/');
    var n := p[k + 1..];
    assert Name(p) == n;
    assert Suffix(p) == NameSuffix(n);
    var m := |n| - |NameSuffix(n)|;
    dir := p[..k + 1];
    stem := n[..m];
    PrefixSplit(p, k + 1, m);
    if k >= 0 {
      LastIndexIs(dir, '/', k);
    } else {
      assert dir == [];
    }
    assert forall j :: 0 <= j < |stem| ==> stem[j] == n[j];
  }

  /** `with_suffix` then `suffix` gives back the new suffix; the rest of the path is kept. */
  lemma WithSuffixRoundTrip(p: string, ext: string)
    requires Name(p) != []
    requires |ext| >= 2 && ext[0] == '.' && '.' !in ext[1..] && '/' !in ext
    ensures WithSuffix(p, ext).Some?
    ensures Suffix(WithSuffix(p, ext).value) == ext
    ensures WithSuffix(p, ext).value == p[..|p| - |Suffix(p)|] + ext
  {
    assert ValidSuffix(ext);
    var r := p[..|p| - |Suffix(p)|] + ext;
    assert WithSuffix(p, ext) == Some(r);
    var dir, stem := StemOf(p);
    SuffixOfStemAndExt(dir, stem, ext);
    assert r == dir + stem + ext;
  }
}
