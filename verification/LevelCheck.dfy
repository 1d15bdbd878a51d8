/** Finding the number of levels of an image repository (src/SipiFilenameHash.cpp, `scanDir` and `check_levels`). */
module LevelCheck {
  import opened FilenameHash
  import opened HashTree
  import opened LevelRemoval

  const MAX_LEVELS: nat := 6

  /** A directory tree of letter directories. */
  ghost predicate LetterTree(dirs: set<seq<char>>) {
    && [] in dirs
    && (forall p :: p in dirs ==> IsLetters(p))
    && (forall p, k :: p in dirs && 0 <= k <= |p| ==> p[..k] in dirs)
  }

  /** One that is no deeper than the counters reach. */
  ghost predicate Tree(dirs: set<seq<char>>) { LetterTree(dirs) && ReachAll(dirs, []) }

  /** Every directory below `path` has a counter: the index of a directory of depth k is k - 1. */
  ghost predicate ReachAll(dirs: set<seq<char>>, path: seq<char>) {
    forall p :: p in dirs && path <= p ==> |p| <= MAX_LEVELS
  }

  ghost predicate DepthWithin(dirs: set<seq<char>>, depth: nat) { forall p :: p in dirs ==> |p| <= depth }

  lemma {:induction false} SomeDepth(dirs: set<seq<char>>) returns (depth: nat)
    ensures DepthWithin(dirs, depth)
  {
    depth := 0;
    if dirs != {} {
      var p :| p in dirs;
      var d := SomeDepth(dirs - {p});
      depth := if d < |p| then |p| else d;
    }
  }

  /** The directories that counter `k` counts below `path`: those of depth k + 1. */
  ghost function Below(dirs: set<seq<char>>, path: seq<char>, k: nat): set<seq<char>> {
    set p | p in dirs && path <= p && |p| == k + 1 && |p| > |path|
  }

  /** Those of them that are reached through the letters of `s`. */
  ghost function Through(dirs: set<seq<char>>, path: seq<char>, k: nat, s: set<char>): set<seq<char>> {
    set p | p in dirs && path <= p && |p| == k + 1 && |p| > |path| && p[|path|] in s
  }

  method Reset(nDirs: array<nat>)
    modifies nDirs
    ensures forall k :: 0 <= k < nDirs.Length ==> nDirs[k] == 0
  {
    for i := 0 to nDirs.Length
      invariant forall k :: 0 <= k < i ==> nDirs[k] == 0
    {
      nDirs[i] := 0;
    }
  }

  /**
   The recursive count of letter directories, level by level. The program does not test the index:
   `fits` is false where it would write behind its six counters, which is exactly when some
   directory below `path` is deeper than six.
   */
  method ScanDir(t: FileTree, path: seq<char>, level: nat, nDirs: array<nat>, ghost depth: nat) returns (fits: bool)
    requires nDirs.Length == MAX_LEVELS && LetterTree(t.dirs) && path in t.dirs && |path| == level
    requires DepthWithin(t.dirs, depth) && (level == 0 || level <= MAX_LEVELS)
    modifies nDirs
    ensures fits <==> ReachAll(t.dirs, path)
    ensures fits ==> forall k :: 0 <= k < MAX_LEVELS ==>
      nDirs[k] == (if level == 0 then 0 else old(nDirs[k])) + |Below(t.dirs, path, k)|
    decreases depth - level, 2
  {
    if level == 0 { Reset(nDirs); }
    var subdirs := set x: char | IsLetter(x) && path + [x] in t.dirs;
    AllSeen(t.dirs, path, subdirs);
    fits := ScanSubdirs(t, path, level, nDirs, subdirs, depth);
  }

  /** The loop over the subdirectories of `path`. */
  method ScanSubdirs(t: FileTree, path: seq<char>, level: nat, nDirs: array<nat>, subdirs: set<char>, ghost depth: nat)
    returns (fits: bool)
    requires nDirs.Length == MAX_LEVELS && LetterTree(t.dirs) && |path| == level <= MAX_LEVELS
    requires DepthWithin(t.dirs, depth) && forall x :: x in subdirs <==> IsLetter(x) && path + [x] in t.dirs
    modifies nDirs
    ensures fits <==> ReachAll(t.dirs, path)
    ensures fits ==> forall k :: 0 <= k < MAX_LEVELS ==> nDirs[k] == old(nDirs[k]) + |Through(t.dirs, path, k, subdirs)|
    decreases depth - level, 1
  {
    var todo := subdirs;
    ghost var seen: set<char> := {};
    NoneThrough(t.dirs, path);
    while todo != {}
      invariant seen + todo == subdirs && seen !! todo
      invariant forall x :: x in seen ==> ReachAll(t.dirs, path + [x])
      invariant forall k :: 0 <= k < MAX_LEVELS ==> nDirs[k] == old(nDirs[k]) + |Through(t.dirs, path, k, seen)|
    {
      var x :| x in todo;
      fits := ScanSubdir(t, path, level, nDirs, x, seen, depth);
      ReachChild(t.dirs, path, x);
      if !fits { return; }
      todo := todo - {x};
      seen := seen + {x};
    }
    assert seen == subdirs;
    ReachByChildren(t.dirs, path, subdirs);
    fits := true;
  }

  lemma ReachChild(dirs: set<seq<char>>, path: seq<char>, x: char)
    ensures ReachAll(dirs, path) ==> ReachAll(dirs, path + [x])
  {
    forall p | p in dirs && path + [x] <= p
      ensures path <= p
    {
      PrefixLetter(path, p, x);
    }
  }

  lemma ReachByChildren(dirs: set<seq<char>>, path: seq<char>, s: set<char>)
    requires LetterTree(dirs) && |path| <= MAX_LEVELS
    requires forall x :: x in s <==> IsLetter(x) && path + [x] in dirs
    requires forall x :: x in s ==> ReachAll(dirs, path + [x])
    ensures ReachAll(dirs, path)
  {
    forall p | p in dirs && path <= p && |p| > |path|
      ensures |p| <= MAX_LEVELS
    {
      var x := p[|path|];
      assert p[..|path| + 1] == path + [x];
      PrefixLetter(path, p, x);
    }
  }

  /** Counts subdirectory `x` and everything below it. */
  method ScanSubdir(t: FileTree, path: seq<char>, level: nat, nDirs: array<nat>, x: char, ghost seen: set<char>,
                    ghost depth: nat)
    returns (fits: bool)
    requires nDirs.Length == MAX_LEVELS && LetterTree(t.dirs) && path + [x] in t.dirs &&
      |path| == level <= MAX_LEVELS && x !in seen
    requires DepthWithin(t.dirs, depth)
    modifies nDirs
    ensures fits <==> ReachAll(t.dirs, path + [x])
    ensures fits ==> forall k :: 0 <= k < MAX_LEVELS ==>
      nDirs[k] == old(nDirs[k]) + |Through(t.dirs, path, k, seen + {x})| - |Through(t.dirs, path, k, seen)|
    decreases depth - level, 0
  {
    assert |path + [x]| <= depth;
    if level >= MAX_LEVELS {
      assert path + [x] <= path + [x];
      return false;
    }
    nDirs[level] := nDirs[level] + 1;
    fits := ScanDir(t, path + [x], level + 1, nDirs, depth);
    forall k | 0 <= k < MAX_LEVELS
      ensures fits ==>
        nDirs[k] == old(nDirs[k]) + |Through(t.dirs, path, k, seen + {x})| - |Through(t.dirs, path, k, seen)|
    {
      CountStep(t.dirs, path, k, seen, x);
    }
  }

  lemma NoneThrough(dirs: set<seq<char>>, path: seq<char>)
    ensures forall k: nat :: Through(dirs, path, k, {}) == {}
  {
  }

  lemma CountStep(dirs: set<seq<char>>, path: seq<char>, k: nat, s: set<char>, x: char)
    requires LetterTree(dirs) && path + [x] in dirs && x !in s
    ensures |Through(dirs, path, k, s + {x})|
         == |Through(dirs, path, k, s)| + (if k == |path| then 1 else 0) + |Below(dirs, path + [x], k)|
  {
    if k == |path| {
      CountHere(dirs, path, s, x);
    } else {
      CountDeeper(dirs, path, k, s, x);
    }
  }

  /** Subdirectory `x` itself is the one more directory of its depth. */
  lemma CountHere(dirs: set<seq<char>>, path: seq<char>, s: set<char>, x: char)
    requires path + [x] in dirs && x !in s
    ensures |Through(dirs, path, |path|, s + {x})| == |Through(dirs, path, |path|, s)| + 1
    ensures Below(dirs, path + [x], |path|) == {}
  {
    var a := Through(dirs, path, |path|, s);
    forall p: seq<char>
      ensures p in Through(dirs, path, |path|, s + {x}) <==> p in a + {path + [x]}
    {
      PrefixLetter(path, p, x);
      if path + [x] <= p && |p| == |path| + 1 {
        assert p == path + [x];
      }
    }
    assert Through(dirs, path, |path|, s + {x}) == a + {path + [x]};
  }

  lemma CountDeeper(dirs: set<seq<char>>, path: seq<char>, k: nat, s: set<char>, x: char)
    requires x !in s && k != |path|
    ensures |Through(dirs, path, k, s + {x})| == |Through(dirs, path, k, s)| + |Below(dirs, path + [x], k)|
  {
    var a, b := Through(dirs, path, k, s), Below(dirs, path + [x], k);
    forall p: seq<char>
      ensures p in Through(dirs, path, k, s + {x}) <==> p in a || p in b
      ensures !(p in a && p in b)
    {
      PrefixLetter(path, p, x);
    }
    assert Through(dirs, path, k, s + {x}) == a + b && a !! b;
  }

  lemma AllSeen(dirs: set<seq<char>>, path: seq<char>, s: set<char>)
    requires LetterTree(dirs) && s == set x: char | IsLetter(x) && path + [x] in dirs
    ensures forall k: nat :: Through(dirs, path, k, s) == Below(dirs, path, k)
  {
    forall p | p in dirs && path <= p && |p| > |path|
      ensures p[|path|] in s
    {
      assert p[..|path| + 1] == path + [p[|path|]];
    }
  }

  // ---------------------------------------------------------------- how many paths there are

  /** All letter paths of length `k`. */
  ghost function AllPaths(k: nat): (s: set<seq<char>>)
    ensures forall p: seq<char> :: p in s <==> IsLetters(p) && |p| == k
  {
    if k == 0 then {[]} else
      var s := Extended(AllPaths(k - 1), LETTERS);
      assert forall p: seq<char> :: p in s <==> IsLetters(p) && |p| == k by {
        forall p: seq<char>
          ensures p in s <==> IsLetters(p) && |p| == k
        {
          if IsLetters(p) && |p| == k {
            assert p == p[..k - 1] + [p[k - 1]] && p[..k - 1] in AllPaths(k - 1);
          }
        }
      }
      s
  }

  ghost function Extended(a: set<seq<char>>, cs: set<char>): (r: set<seq<char>>)
    ensures forall q: seq<char> :: q in r <==> |q| > 0 && q[..|q| - 1] in a && q[|q| - 1] in cs
  {
    var r := set p, c | p in a && c in cs :: p + [c];
    assert forall q: seq<char> :: |q| > 0 && q[..|q| - 1] in a && q[|q| - 1] in cs ==> q in r by {
      forall q: seq<char> | |q| > 0 && q[..|q| - 1] in a && q[|q| - 1] in cs
        ensures q in r
      {
        assert q == q[..|q| - 1] + [q[|q| - 1]];
      }
    }
    r
  }

  lemma {:induction false} ExtendedOne(p: seq<char>, cs: set<char>)
    ensures |Extended({p}, cs)| == |cs|
  {
    if cs == {} {
      assert Extended({p}, cs) == {};
    } else {
      var c :| c in cs;
      ExtendedOne(p, cs - {c});
      ExtendedOneStep(p, cs, c);
    }
  }

  lemma {:induction false} ExtendedOneStep(p: seq<char>, cs: set<char>, c: char)
    requires c in cs
    ensures |Extended({p}, cs)| == |Extended({p}, cs - {c})| + 1
  {
    var x := Extended({p}, cs - {c});
    assert p + [c] !in x;
    forall q: seq<char>
      ensures q in Extended({p}, cs) <==> q in x + {p + [c]}
    {
      if q in Extended({p}, cs) && q !in x {
        assert q == p + [c];
      }
    }
    assert Extended({p}, cs) == x + {p + [c]};
  }

  lemma {:induction false} ExtendedCard(a: set<seq<char>>, cs: set<char>)
    requires |cs| == 26
    ensures |Extended(a, cs)| == 26 * |a|
  {
    if a == {} {
      assert Extended(a, cs) == {};
    } else {
      var p :| p in a;
      ExtendedCard(a - {p}, cs);
      ExtendedOne(p, cs);
      ExtendedSplit(a, p, cs);
    }
  }

  lemma ExtendedSplit(a: set<seq<char>>, p: seq<char>, cs: set<char>)
    requires p in a
    ensures |Extended(a, cs)| == |Extended(a - {p}, cs)| + |Extended({p}, cs)|
  {
    var x, y := Extended(a - {p}, cs), Extended({p}, cs);
    forall q: seq<char>
      ensures q in Extended(a, cs) <==> q in x || q in y
      ensures !(q in x && q in y)
    {
    }
    assert Extended(a, cs) == x + y;
    assert x !! y;
  }

  lemma {:induction false} AllPathsCard(k: nat)
    ensures |AllPaths(k)| == Pow26(k)
  {
    if k > 0 {
      AllPathsCard(k - 1);
      LetterCount();
      ExtendedCard(AllPaths(k - 1), LETTERS);
    }
  }

  lemma {:induction false} SubsetOfSameSize<T>(a: set<T>, b: set<T>)
    requires a <= b && |a| == |b|
    ensures a == b
  {
    if a != b {
      var x :| x in b && x !in a;
      assert a <= b - {x};
      SubsetSize(a, b - {x});
    }
  }

  lemma {:induction false} SubsetSize<T>(a: set<T>, b: set<T>)
    requires a <= b
    ensures |a| <= |b|
  {
    if a != {} {
      var x :| x in a;
      SubsetSize(a - {x}, b - {x});
    }
  }

  // ---------------------------------------------------------------- check_levels

  /** A count of 26^(k+1) at depth k + 1 leaves no letter path of that length out. */
  lemma CountForcesLevel(dirs: set<seq<char>>, k: nat)
    requires LetterTree(dirs)
    ensures |Below(dirs, [], k)| == Pow26(k + 1) <==> forall p: seq<char> :: IsLetters(p) && |p| == k + 1 ==> p in dirs
  {
    AllPathsCard(k + 1);
    assert Below(dirs, [], k) <= AllPaths(k + 1);
    if |Below(dirs, [], k)| == Pow26(k + 1) {
      SubsetOfSameSize(Below(dirs, [], k), AllPaths(k + 1));
    }
    if forall p: seq<char> :: IsLetters(p) && |p| == k + 1 ==> p in dirs {
      assert Below(dirs, [], k) == AllPaths(k + 1);
    }
  }

  /** All letter paths of lengths 0 .. d are directories. */
  ghost predicate LevelsFull(dirs: set<seq<char>>, d: nat) {
    forall p: seq<char> :: IsLetters(p) && |p| <= d ==> p in dirs
  }

  /**
   `check_levels` succeeds with `d` exactly on the complete trees of depth `d`: every A-Z
   directory exists at each of the first d levels and none exists below. It stays within its
   counters exactly on the trees no deeper than six.
   */
  method CheckLevels(t: FileTree) returns (fits: bool, ok: bool, levels: nat)
    requires LetterTree(t.dirs)
    ensures fits <==> Tree(t.dirs)
    ensures ok ==> fits && levels <= MAX_LEVELS && FullUnder(t.dirs, [], levels)
    ensures forall d: nat :: d <= MAX_LEVELS && FullUnder(t.dirs, [], d) ==> ok && levels == d
  {
    var nDirs := new nat[MAX_LEVELS];
    ghost var depth := SomeDepth(t.dirs);
    ok, levels := false, 0;
    fits := ScanDir(t, [], 0, nDirs, depth);
    if !fits {
      TooDeep(t.dirs);
      return;
    }
    var i := 0;
    var k := 26;
    ok := true;
    while i < MAX_LEVELS
      invariant 0 <= i <= MAX_LEVELS && k == Pow26(i + 1)
      invariant LevelsFull(t.dirs, i)
      invariant forall j :: 0 <= j < MAX_LEVELS ==> nDirs[j] == |Below(t.dirs, [], j)|
    {
      CountForcesLevel(t.dirs, i);
      assert nDirs[i] == |Below(t.dirs, [], i)|;
      if nDirs[i] == 0 { break; }
      if nDirs[i] != k {
        NotFull(t.dirs, i);
        ok := false;
        return;
      }
      k := k * 26;
      i := i + 1;
    }
    levels := i;
    NothingDeeper(t.dirs, i);
    forall d: nat | d <= MAX_LEVELS && FullUnder(t.dirs, [], d)
      ensures d == i
    {
      SameDepth(t.dirs, i, d);
    }
  }

  lemma TooDeep(dirs: set<seq<char>>)
    requires !ReachAll(dirs, [])
    ensures forall d: nat :: d <= MAX_LEVELS ==> !FullUnder(dirs, [], d)
  {
    var p :| p in dirs && [] <= p && |p| > MAX_LEVELS;
  }

  lemma NotFull(dirs: set<seq<char>>, i: nat)
    requires Tree(dirs) && i < MAX_LEVELS
    requires |Below(dirs, [], i)| != 0
    requires exists p: seq<char> :: IsLetters(p) && |p| == i + 1 && p !in dirs
    ensures forall d: nat :: !FullUnder(dirs, [], d)
  {
    var q :| q in Below(dirs, [], i);
    var r: seq<char> :| IsLetters(r) && |r| == i + 1 && r !in dirs;
    forall d: nat
      ensures !FullUnder(dirs, [], d)
    {
      assert [] <= q && [] <= r;
    }
  }

  lemma DeepHasPrefix(dirs: set<seq<char>>, i: nat, p: seq<char>)
    requires Tree(dirs) && p in dirs && |p| > i
    ensures p[..i + 1] in Below(dirs, [], i)
  {
  }

  lemma NothingDeeper(dirs: set<seq<char>>, i: nat)
    requires Tree(dirs) && i <= MAX_LEVELS && LevelsFull(dirs, i)
    requires i < MAX_LEVELS ==> |Below(dirs, [], i)| == 0
    ensures FullUnder(dirs, [], i)
  {
    forall p: seq<char> | p in dirs
      ensures |p| <= i
    {
      if |p| > i {
        DeepHasPrefix(dirs, i, p);
      }
    }
  }

  lemma SameDepth(dirs: set<seq<char>>, i: nat, d: nat)
    requires FullUnder(dirs, [], i) && FullUnder(dirs, [], d)
    ensures i == d
  {
    var p := seq(i, _ => 'A');
    var q := seq(d, _ => 'A');
    assert IsLetters(p) && IsLetters(q) && [] <= p && [] <= q;
  }

  // ---------------------------------------------------------------- too deep

  const SEVEN := "AAAAAAA"

  /** A chain of seven directories is a letter tree that the six counters do not reach. */
  lemma SevenLevels(dirs: set<seq<char>>)
    requires dirs == set k | 0 <= k <= 7 :: SEVEN[..k]
    ensures LetterTree(dirs) && !Tree(dirs)
  {
    assert [] == SEVEN[..0];
    assert SEVEN[..7] in dirs && |SEVEN[..7]| > MAX_LEVELS;
    forall p, k | p in dirs && 0 <= k <= |p|
      ensures p[..k] in dirs
    {
      assert p[..k] == SEVEN[..k];
    }
  }
}
