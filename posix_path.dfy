/** The parts of POSIX path handling the modelled code relies on:
    `os.path.splitext`, and `pathlib.Path.resolve` done lexically (a
    resolved path is the list of its components below the root). */
module PosixPath {
  import opened Text

  /** `s.rfind(c)`: the last index holding `c`, or -1 when there is none. */
  function RFind(s: string, c: char): (r: int)
    ensures -1 <= r < |s|
    ensures r >= 0 ==> s[r] == c
    ensures forall j :: r < j < |s| ==> s[j] != c
  {
    if s == [] then -1
    else if s[|s| - 1] == c then |s| - 1
    else RFind(s[..|s| - 1], c)
  }

  /** The last component of a path: everything after its last '/'. */
  function BaseName(p: string): (r: string)
    ensures '/' !in r
    ensures EndsWith(p, r)
  {
    p[RFind(p, '/') + 1..]
  }

  predicate NonDotBetween(p: string, lo: int, hi: int)
    requires 0 <= lo <= hi <= |p|
  {
    exists i :: lo <= i < hi && p[i] != '.'
  }

  /** `os.path.splitext(p)`: the extension runs from the last '.' of the last
      component to the end, provided something other than a dot comes before
      that '.' in the component; otherwise the extension is empty.  So
      ".bashrc" and "a/..." have none, "a.tar.gz" has ".gz". */
  function SplitExt(p: string): (r: (string, string))
    ensures r.0 + r.1 == p
  {
    var sep := RFind(p, '/');
    var dot := RFind(p, '.');
    if dot > sep && NonDotBetween(p, sep + 1, dot) then (p[..dot], p[dot..]) else (p, [])
  }

  /** What an extension is: a '.' and what follows it in the last component,
      with something other than a dot before it there; and when there is
      none, every '.' of the last component has only dots before it. */
  lemma SplitExtShape(p: string)
    ensures var ext := SplitExt(p).1;
            && (ext != [] ==> ext[0] == '.' && '.' !in ext[1..] && '/' !in ext)
            && (ext != [] ==> |ext| <= |BaseName(p)| && NonDotBetween(p, |p| - |BaseName(p)|, |p| - |ext|))
            && (ext == [] ==> forall i, j :: |p| - |BaseName(p)| <= j < i < |p| && p[i] == '.' ==> p[j] == '.')
  {
    if SplitExt(p).1 != [] {
      SplitExtFound(p);
    }
    SplitExtNone(p);
  }

  lemma SplitExtFound(p: string)
    requires SplitExt(p).1 != []
    ensures var ext := SplitExt(p).1;
            && ext[0] == '.' && '.' !in ext[1..] && '/' !in ext
            && |ext| <= |BaseName(p)| && NonDotBetween(p, |p| - |BaseName(p)|, |p| - |ext|)
  {
    var sep := RFind(p, '/');
    var dot := RFind(p, '.');
    assert dot > sep && NonDotBetween(p, sep + 1, dot);
    var ext := p[dot..];
    assert SplitExt(p).1 == ext;
    assert |BaseName(p)| == |p| - (sep + 1);
    assert |p| - |ext| == dot;
  }

  lemma SplitExtNone(p: string)
    ensures SplitExt(p).1 == [] ==>
              forall i, j :: |p| - |BaseName(p)| <= j < i < |p| && p[i] == '.' ==> p[j] == '.'
  {
    var sep := RFind(p, '/');
    var dot := RFind(p, '.');
    assert |BaseName(p)| == |p| - (sep + 1);
    if !(dot > sep && NonDotBetween(p, sep + 1, dot)) {
      forall i, j | sep + 1 <= j < i < |p| && p[i] == '.'
        ensures p[j] == '.'
      {
        assert i <= dot;
        assert !NonDotBetween(p, sep + 1, dot);
      }
    }
  }

  /** `str.lower()` moves no '.' and no '/', so it finds the same last one. */
  lemma {:induction false} RFindLower(s: string, c: char)
    requires !IsLetter(c)
    ensures RFind(Lower(s), c) == RFind(s, c)
  {
    if s != [] {
      var init := s[..|s| - 1];
      assert Lower(s)[..|s| - 1] == Lower(init);
      RFindLower(init, c);
    }
  }

  lemma NonDotLower(p: string, lo: int, hi: int)
    requires 0 <= lo <= hi <= |p|
    ensures NonDotBetween(Lower(p), lo, hi) == NonDotBetween(p, lo, hi)
  {
    if NonDotBetween(p, lo, hi) {
      var i :| lo <= i < hi && p[i] != '.';
      assert Lower(p)[i] != '.';
    }
    if NonDotBetween(Lower(p), lo, hi) {
      var i :| lo <= i < hi && Lower(p)[i] != '.';
      assert p[i] != '.';
    }
  }

  lemma LowerSlices(p: string, k: int)
    requires 0 <= k <= |p|
    ensures Lower(p)[..k] == Lower(p[..k]) && Lower(p)[k..] == Lower(p[k..])
  {
    assert Lower(p)[..k] == Lower(p[..k]);
    assert Lower(p)[k..] == Lower(p[k..]);
  }

  /** Lower-casing a path lower-cases its root and its extension and moves
      the split point nowhere. */
  lemma SplitExtLower(p: string)
    ensures SplitExt(Lower(p)) == (Lower(SplitExt(p).0), Lower(SplitExt(p).1))
  {
    RFindLower(p, '/');
    RFindLower(p, '.');
    var sep := RFind(p, '/');
    var dot := RFind(p, '.');
    var l := Lower(p);
    if dot > sep {
      NonDotLower(p, sep + 1, dot);
    }
    if dot > sep && NonDotBetween(p, sep + 1, dot) {
      LowerSlices(p, dot);
      assert SplitExt(l) == (l[..dot], l[dot..]);
    } else {
      assert SplitExt(l) == (l, []);
    }
  }

  // ---------------------------------------------------------------------------
  // Path.resolve, lexically

  /** A resolved absolute path: its components are non-empty, never "." or
      "..", and hold no '/'. */
  predicate Canonical(dirs: seq<string>)
  {
    forall i :: 0 <= i < |dirs| ==> dirs[i] != [] && dirs[i] != "." && dirs[i] != ".." && '/' !in dirs[i]
  }

  /** Walking one path segment: empty segments and "." stay put, ".." goes up
      (and stays at the root), anything else goes down. */
  function Step(dirs: seq<string>, seg: string): (r: seq<string>)
    requires Canonical(dirs) && '/' !in seg
    ensures Canonical(r)
  {
    if seg == [] || seg == "." then dirs
    else if seg == ".." then (if dirs == [] then [] else dirs[..|dirs| - 1])
    else dirs + [seg]
  }

  predicate NoSlashes(segs: seq<string>)
  {
    forall i :: 0 <= i < |segs| ==> '/' !in segs[i]
  }

  function Walk(dirs: seq<string>, segs: seq<string>): (r: seq<string>)
    requires Canonical(dirs) && NoSlashes(segs)
    ensures Canonical(r)
    decreases |segs|
  {
    if segs == [] then dirs else Walk(Step(dirs, segs[0]), segs[1..])
  }

  predicate IsAbsolute(p: string)
  {
    p != [] && p[0] == '/'
  }

  /** `Path(p).resolve()` with `cwd` the resolved working directory: an
      absolute path is walked from the root, a relative one from `cwd`.
      Symbolic links are not followed. */
  function Resolve(cwd: seq<string>, p: string): (r: seq<string>)
    requires Canonical(cwd)
    ensures Canonical(r)
  {
    var segs := Split(p, '/');
    if IsAbsolute(p) then Walk([], segs) else Walk(cwd, segs)
  }

  /** A walk without ".." never leaves where it started. */
  lemma {:induction false} WalkDownward(dirs: seq<string>, segs: seq<string>)
    requires Canonical(dirs) && NoSlashes(segs)
    requires forall i :: 0 <= i < |segs| ==> segs[i] != ".."
    ensures dirs <= Walk(dirs, segs)
    decreases |segs|
  {
    if segs != [] {
      WalkDownward(Step(dirs, segs[0]), segs[1..]);
    }
  }

  /** The components of a resolved path, each behind its '/'. */
  function Rooted(dirs: seq<string>): (r: string)
  {
    if dirs == [] then [] else Rooted(dirs[..|dirs| - 1]) + "/" + dirs[|dirs| - 1]
  }

  /** `str()` of a resolved path: "/" for the root itself. */
  function PathString(dirs: seq<string>): (r: string)
    ensures r != [] && r[0] == '/'
  {
    if dirs == [] then "/"
    else
      RootedStartsWithSlash(dirs);
      Rooted(dirs)
  }

  lemma {:induction false} RootedStartsWithSlash(dirs: seq<string>)
    requires dirs != []
    ensures |Rooted(dirs)| > 0 && Rooted(dirs)[0] == '/'
  {
    if |dirs| > 1 {
      RootedStartsWithSlash(dirs[..|dirs| - 1]);
    }
  }

  lemma {:induction false} RootedAppend(a: seq<string>, b: seq<string>)
    ensures Rooted(a + b) == Rooted(a) + Rooted(b)
  {
    if b != [] {
      var init := b[..|b| - 1];
      assert (a + b)[..|a + b| - 1] == a + init;
      RootedAppend(a, init);
    } else {
      assert a + b == a;
    }
  }

  /** Each component of a resolved path takes its '/' and at least one more
      character. */
  lemma {:induction false} RootedLength(dirs: seq<string>)
    requires Canonical(dirs)
    ensures |Rooted(dirs)| >= 2 * |dirs|
  {
    if dirs != [] {
      RootedLength(dirs[..|dirs| - 1]);
    }
  }

  /** A path below another has the other's string as a prefix. */
  lemma PathStringPrefix(base: seq<string>, full: seq<string>)
    requires base <= full
    ensures StartsWith(PathString(full), PathString(base))
  {
    if base != [] {
      assert full == base + full[|base|..];
      RootedAppend(base, full[|base|..]);
    }
  }
}
