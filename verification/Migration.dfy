/** Changing the number of directory levels of an image repository (src/SipiFilenameHash.cpp, `migrateToLevels`). */
module Migration {
  import opened FilenameHash
  import HashValue
  import opened HashTree
  import opened LevelGrowth
  import opened LevelRemoval
  import opened LevelCheck

  /** No longer than `l`: what is left of a directory when only `l` levels are. */
  ghost function Cut(p: seq<char>, l: nat): seq<char> { if |p| <= l then p else p[..l] }

  /**
   Where a migration from `d` to `l` levels takes the file `n` of directory `p`: up with its
   directory, or down from the last level by the letters of its hash, unless it is a dot file.
   */
  ghost function Moved(n: string, p: seq<char>, d: nat, l: nat): seq<char>
    requires l <= HASH_LEN
  {
    if l < d then Cut(p, l) else if DotName(n) || |p| != d then p else p + HashOf(n)[d..l]
  }

  ghost function Migrated(place: map<string, seq<char>>, d: nat, l: nat): map<string, seq<char>>
    requires l <= HASH_LEN
  {
    map n | n in place :: Moved(n, place[n], d, l)
  }

  /** Every file is in a directory of a tree of depth `d`. */
  ghost predicate InTree(place: map<string, seq<char>>, d: nat) {
    forall n :: n in place ==> IsLetters(place[n]) && |place[n]| <= d
  }

  /** A complete tree of depth `d` with files of different names anywhere in it. */
  ghost predicate Repository(t: FileTree, c: map<string, Content>, place: map<string, seq<char>>, d: nat)
    reads t
  {
    FullUnder(t.dirs, [], d) && Layout(t.files, c, place) && InTree(place, d)
  }

  /**
   Growing: a file other than a dot file is above the last level, or is named like a letter directory.
   Shrinking: a file that has to come up is named like one.
   */
  ghost predicate Blocked(place: map<string, seq<char>>, d: nat, l: nat) {
    if l > d then Stuck(place, d) else Risers(place, l)
  }

  ghost predicate Stuck(place: map<string, seq<char>>, d: nat) {
    exists n :: n in place && !DotName(n) && (|place[n]| < d || LetterName(n))
  }

  ghost predicate Risers(place: map<string, seq<char>>, l: nat) {
    exists n :: n in place && |place[n]| > l && LetterName(n)
  }

  function Target(levels: int): nat
    requires levels <= HASH_LEN
  {
    if levels < 0 then 0 else levels
  }

  /**
   For every repository of depth d with files of different names, and every target up to 6 levels:
   no rename ever replaces a file and no file is lost; migration fails exactly when it is blocked;
   otherwise the result is the complete tree of the target depth with every file where `Migrated`
   says, and so a repository again. An incomplete tree is refused.
   */
  method MigrateToLevels(t: FileTree, levels: int, ghost c: map<string, Content>, ghost place: map<string, seq<char>>)
    returns (ok: bool)
    requires levels <= HASH_LEN && Tree(t.dirs)
    requires forall d: nat :: d <= HASH_LEN && FullUnder(t.dirs, [], d) ==> Repository(t, c, place, d)
    modifies t
    ensures t.overwritten == old(t.overwritten)
    ensures (forall d: nat :: d <= HASH_LEN ==> !FullUnder(old(t.dirs), [], d)) ==>
      !ok && t.dirs == old(t.dirs) && t.files == old(t.files)
    ensures forall d: nat :: d <= HASH_LEN && FullUnder(old(t.dirs), [], d) ==>
      Kept(t.files, c) && (ok <==> !Blocked(place, d, Target(levels)))
    ensures forall d: nat :: d <= HASH_LEN && FullUnder(old(t.dirs), [], d) && ok ==>
      Repository(t, c, Migrated(place, d, Target(levels)), Target(levels))
  {
    var fits, act;
    fits, ok, act := CheckLevels(t);
    if !ok { return; }
    forall d: nat | d <= HASH_LEN && FullUnder(old(t.dirs), [], d)
      ensures d == act
    {
      SameDepth(t.dirs, act, d);
    }
    ok := ChangeLevels(t, act, levels, c, place);
  }

  /** The two loops of the migration, the actual depth `act` being known. */
  method ChangeLevels(t: FileTree, act: nat, levels: int, ghost c: map<string, Content>,
                      ghost place: map<string, seq<char>>)
    returns (ok: bool)
    requires levels <= HASH_LEN && act <= HASH_LEN && Repository(t, c, place, act)
    modifies t
    ensures t.overwritten == old(t.overwritten) && Kept(t.files, c)
    ensures ok <==> !Blocked(place, act, Target(levels))
    ensures ok ==> Repository(t, c, Migrated(place, act, Target(levels)), Target(levels))
  {
    MigratedSame(place, act);
    ok := true;
    if levels > act {
      ok := Grow(t, act, levels, c, place);
    } else if levels < act {
      ok := Shrink(t, act, levels, c, place);
    }
  }

  lemma MigratedSame(place: map<string, seq<char>>, d: nat)
    requires d <= HASH_LEN && InTree(place, d)
    ensures Migrated(place, d, d) == place && !Blocked(place, d, d)
  {
    forall n | n in place
      ensures Moved(n, place[n], d, d) == place[n]
    {
      assert HashOf(n)[d..d] == [];
    }
  }

  lemma MigratedInTree(place: map<string, seq<char>>, d: nat, l: nat)
    requires d <= HASH_LEN && l <= HASH_LEN && InTree(place, d)
    ensures InTree(Migrated(place, d, l), l)
  {
    forall n | n in place
      ensures IsLetters(Moved(n, place[n], d, l)) && |Moved(n, place[n], d, l)| <= l
    {
      MovedInTree(n, place[n], d, l);
    }
  }

  lemma MovedInTree(n: string, p: seq<char>, d: nat, l: nat)
    requires d <= HASH_LEN && l <= HASH_LEN && IsLetters(p) && |p| <= d
    ensures IsLetters(Moved(n, p, d, l)) && |Moved(n, p, d, l)| <= l
  {
    var q, h := Moved(n, p, d, l), HashOf(n);
    forall i | 0 <= i < |q|
      ensures IsLetter(q[i])
    {
      if i < |p| {
        assert q[i] == p[i];
      } else {
        assert q[i] == h[i];
      }
    }
  }

  // ---------------------------------------------------------------- more levels

  /** Adds levels, one `add_level` of the whole tree at a time. */
  method Grow(t: FileTree, d: nat, levels: nat, ghost c: map<string, Content>, ghost place: map<string, seq<char>>)
    returns (ok: bool)
    requires d < levels <= HASH_LEN && Repository(t, c, place, d)
    modifies t
    ensures t.overwritten == old(t.overwritten) && Kept(t.files, c)
    ensures ok <==> !Stuck(place, d)
    ensures ok ==> Repository(t, c, Migrated(place, d, levels), levels)
  {
    ghost var l, now := d, place;
    MigratedSame(place, d);
    for i := 0 to levels - d
      invariant l == d + i && t.overwritten == old(t.overwritten)
      invariant l > d ==> !Stuck(place, d)
      invariant now == Migrated(place, d, l) && Repository(t, c, now, l)
    {
      ok, l, now := GrowOnce(t, d, l, c, place, now);
      if !ok { return; }
    }
    assert l == levels;
    ok := true;
  }

  method GrowOnce(t: FileTree, ghost d: nat, ghost l: nat, ghost c: map<string, Content>,
                  ghost place: map<string, seq<char>>, ghost now: map<string, seq<char>>)
    returns (ok: bool, ghost m: nat, ghost next: map<string, seq<char>>)
    requires d <= l < HASH_LEN && InTree(place, d) && now == Migrated(place, d, l) && Repository(t, c, now, l)
    modifies t
    ensures t.overwritten == old(t.overwritten) && Kept(t.files, c) && m == l + 1
    ensures ok <==> !Stuck(place, d)
    ensures ok ==> next == Migrated(place, d, m) && Repository(t, c, next, m)
  {
    m := l + 1;
    next := Migrated(place, d, m);
    StuckIff(place, d, l);
    LoweredIs(place, d, l, m);
    MigratedInTree(place, d, m);
    ok := AddLevel(t, [], 0, l, c, now);
  }

  /** No number of levels added so far changes what is stuck. */
  lemma StuckIff(place: map<string, seq<char>>, d: nat, l: nat)
    requires d <= l < HASH_LEN && InTree(place, d)
    ensures var now := Migrated(place, d, l); LetterBelow(now, [], l) || !CleanAbove(now, [], l) <==> Stuck(place, d)
  {
    var now := Migrated(place, d, l);
    forall n | n in place && !DotName(n)
      ensures [] <= now[n] && (|now[n]| < l <==> |place[n]| < d) && (|now[n]| == l <==> |place[n]| == d)
    {
    }
    if Stuck(place, d) {
      var n :| n in place && !DotName(n) && (|place[n]| < d || LetterName(n));
      assert n in now && [] <= now[n];
    }
  }

  lemma LoweredIs(place: map<string, seq<char>>, d: nat, l: nat, m: nat)
    requires d <= l && m == l + 1 <= HASH_LEN && InTree(place, d)
    ensures Lowered(Migrated(place, d, l), [], l) == Migrated(place, d, m)
  {
    var now := Migrated(place, d, l);
    forall n | n in place
      ensures Lowered(now, [], l)[n] == Moved(n, place[n], d, m)
    {
      assert [] <= now[n];
      NextLetter(place[n], HashOf(n), d, l);
    }
  }

  lemma NextLetter(p: seq<char>, h: seq<char>, d: nat, l: nat)
    requires d <= l < |h|
    ensures p + h[d..l] + [h[l]] == p + h[d..l + 1]
  {
  }

  // ---------------------------------------------------------------- fewer levels

  /** Removes levels; once at the root, further rounds do nothing. */
  method Shrink(t: FileTree, d: nat, levels: int, ghost c: map<string, Content>, ghost place: map<string, seq<char>>)
    returns (ok: bool)
    requires levels < d <= HASH_LEN && Repository(t, c, place, d)
    modifies t
    ensures t.overwritten == old(t.overwritten) && Kept(t.files, c)
    ensures ok <==> !Risers(place, Target(levels))
    ensures ok ==> Repository(t, c, Migrated(place, d, Target(levels)), Target(levels))
  {
    ghost var l, now := d, place;
    MigratedSame(place, d);
    for i := 0 to d - levels
      invariant l == (if i <= d then d - i else 0) && t.overwritten == old(t.overwritten)
      invariant !Risers(place, l)
      invariant now == Migrated(place, d, l) && Repository(t, c, now, l)
    {
      ok, l, now := ShrinkOnce(t, d, l, c, place, now);
      if !ok {
        RisersMore(place, l, Target(levels));
        return;
      }
    }
    assert l == Target(levels);
    ok := true;
  }

  method ShrinkOnce(t: FileTree, ghost d: nat, ghost l: nat, ghost c: map<string, Content>,
                    ghost place: map<string, seq<char>>, ghost now: map<string, seq<char>>)
    returns (ok: bool, ghost m: nat, ghost next: map<string, seq<char>>)
    requires l <= d <= HASH_LEN && InTree(place, d) && now == Migrated(place, d, l) && Repository(t, c, now, l)
    requires !Risers(place, l)
    modifies t
    ensures t.overwritten == old(t.overwritten) && Kept(t.files, c) && m == if l > 0 then l - 1 else 0
    ensures ok <==> !Risers(place, m)
    ensures ok ==> next == Migrated(place, d, m) && Repository(t, c, next, m)
  {
    m := if l > 0 then l - 1 else 0;
    next := Migrated(place, d, m);
    RisersIff(place, d, l, m);
    RaisedIs(place, d, l, m);
    MigratedInTree(place, d, m);
    var e;
    ok, e := RemoveLevel(t, [], 0, l, c, now);
  }

  lemma RisersMore(place: map<string, seq<char>>, l: nat, m: nat)
    requires m <= l && Risers(place, l)
    ensures Risers(place, m)
  {
  }

  /** With nothing left from deeper levels, the next step fails on the files of level `l`. */
  lemma RisersIff(place: map<string, seq<char>>, d: nat, l: nat, m: nat)
    requires l <= d <= HASH_LEN && InTree(place, d) && !Risers(place, l) && m == if l > 0 then l - 1 else 0
    ensures l > 0 ==> (LetterBelow(Migrated(place, d, l), [], l) <==> Risers(place, m))
  {
    var now := Migrated(place, d, l);
    MigratedSame(place, d);
    forall n | n in place
      ensures [] <= now[n] && (|now[n]| == l <==> |place[n]| >= l)
    {
    }
    if Risers(place, m) {
      var n :| n in place && |place[n]| > m && LetterName(n);
      assert n in now && [] <= now[n];
    }
  }

  lemma CutCut(p: seq<char>, l: nat, m: nat)
    requires m <= l
    ensures Cut(Cut(p, l), m) == Cut(p, m)
  {
  }

  lemma RaisedIs(place: map<string, seq<char>>, d: nat, l: nat, m: nat)
    requires l <= d <= HASH_LEN && InTree(place, d) && m == if l > 0 then l - 1 else 0
    ensures l > 0 ==> Raised(Migrated(place, d, l), [], l) == Migrated(place, d, m)
  {
    var now := Migrated(place, d, l);
    MigratedSame(place, d);
    if l > 0 {
      forall n | n in place
        ensures Raised(now, [], l)[n] == Moved(n, place[n], d, m)
      {
        assert [] <= now[n] && now[n] == Cut(place[n], l);
        CutCut(place[n], l, m);
      }
    }
  }

  // ---------------------------------------------------------------- what it means

  /** Every file but dot files is in the directory its hash gives for `d` levels. */
  ghost predicate AtHash(place: map<string, seq<char>>, d: nat)
    requires d <= HASH_LEN
  {
    forall n :: n in place && !DotName(n) ==> place[n] == HashDir(n, d)
  }

  ghost predicate HasLetterName(c: map<string, Content>) { exists n :: n in c && LetterName(n) }

  /** Files at their hash paths are migrated to their hash paths, and only letter names can stop that. */
  lemma HashPathsKept(c: map<string, Content>, place: map<string, seq<char>>, d: nat, l: nat)
    requires d <= HASH_LEN && l <= HASH_LEN && InTree(place, d) && AtHash(place, d) && place.Keys == c.Keys
    ensures AtHash(Migrated(place, d, l), l)
    ensures Blocked(place, d, l) <==> l != d && HasLetterName(c)
  {
    forall n | n in place && !DotName(n)
      ensures Moved(n, place[n], d, l) == HashDir(n, l)
    {
      HashMoved(HashOf(n), d, l);
    }
    if HasLetterName(c) {
      var n :| n in c && LetterName(n);
      assert n in place && |place[n]| == d;
    }
  }

  lemma HashMoved(h: seq<char>, d: nat, l: nat)
    requires d <= |h| && l <= |h|
    ensures if l < d then Cut(h[..d], l) == h[..l] else h[..d] + h[d..l] == h[..l]
  {
  }

  /** Every file at the directory its hash gives for `l` levels, dot files too. */
  ghost function HashPlaces(c: map<string, Content>, l: nat): map<string, seq<char>>
    requires l <= HASH_LEN
  {
    map n | n in c :: HashDir(n, l)
  }

  /**
   When every file of a repository of depth `d` was at its hash path, every file is at exactly the
   path `filepath()` gives for the new number of levels, if and only if the levels did not grow or
   there was no dot file.
   */
  lemma AllAtFilePathIff(c: map<string, Content>, d: nat, l: nat)
    requires d <= HASH_LEN && l <= HASH_LEN
    requires forall n :: n in c ==> '/' !in n
    ensures var now := Migrated(HashPlaces(c, d), d, l);
            ((forall n :: n in c ==> PathString(now[n], n) == PathString(HashOf(n)[..l], n))
             <==> (l <= d || forall n :: n in c ==> !DotName(n)))
  {
    var now := Migrated(HashPlaces(c, d), d, l);
    forall n | n in c
      ensures PathString(now[n], n) == PathString(HashOf(n)[..l], n) <==> !(l > d && DotName(n))
    {
      HashMoved(HashOf(n), d, l);
      if PathString(now[n], n) == PathString(HashOf(n)[..l], n) {
        LettersNoSlash(now[n]);
        LettersNoSlash(HashOf(n)[..l]);
        PathStringInjective(now[n], n, HashOf(n)[..l], n);
      }
    }
  }

  /** The file ".a" of a flat repository is still at the root after one level has been added. */
  lemma DotFileStays()
    ensures var c: map<string, Content> := map[".a" := []];
            var now := Migrated(HashPlaces(c, 0), 0, 1)[".a"];
            now == [] && PathString(now, ".a") != PathString(HashOf(".a")[..1], ".a")
  {
    var c: map<string, Content> := map[".a" := []];
    var now := Migrated(HashPlaces(c, 0), 0, 1)[".a"];
    assert |PathString(now, ".a")| == 2;
    assert |PathString(HashOf(".a")[..1], ".a")| == 4 by {
      PathStringName(HashOf(".a")[..1], ".a");
      PathStringAppend(HashOf(".a")[..1]);
    }
  }

  /** A flat repository whose one file is called "A" cannot be given a level. */
  method LetterNameFails(t: FileTree) returns (ok: bool)
    requires t.dirs == {[]} && t.files == map[Loc([], "A") := []]
    modifies t
    ensures !ok
  {
    ghost var c: map<string, Content> := map["A" := []];
    ghost var place: map<string, seq<char>> := map["A" := []];
    FlatRepository(t, "A", [], c, place);
    assert "A" in place && LetterName("A") && !DotName("A");
    ok := MigrateToLevels(t, 1, c, place);
  }

  /** A flat repository with the one file "a.tif" that is given a level keeps it in the directory I. */
  method ATifMoves(t: FileTree, b: Content) returns (ok: bool)
    requires t.dirs == {[]} && t.files == map[Loc([], "a.tif") := b]
    modifies t
    ensures ok && t.files == map[Loc("I", "a.tif") := b]
  {
    ghost var c: map<string, Content> := map["a.tif" := b];
    ghost var place: map<string, seq<char>> := map["a.tif" := []];
    FlatRepository(t, "a.tif", b, c, place);
    ATifFree(place);
    ok := MigrateToLevels(t, 1, c, place);
    OneFile(t.files, c, Migrated(place, 0, 1), "a.tif", "I", b);
  }

  lemma ATifFree(place: map<string, seq<char>>)
    requires place == map["a.tif" := []]
    ensures !Blocked(place, 0, 1) && Migrated(place, 0, 1) == map["a.tif" := "I"]
  {
    forall n | n in place
      ensures n == "a.tif" && !LetterName(n) && !DotName(n)
    {
      assert n[0] == 'a';
    }
    HashValue.HashOfATif("a.tif");
    assert "IBARSR"[0..1] == "I" && [] + "I" == "I";
  }

  lemma OneFile(f: Files, c: map<string, Content>, place: map<string, seq<char>>, n: string, d: seq<char>, b: Content)
    requires Layout(f, c, place) && place == map[n := d] && c == map[n := b]
    ensures f == map[Loc(d, n) := b]
  {
    assert n in place;
    assert forall k :: k in f ==> k == Loc(d, n);
  }

  lemma FlatRepository(t: FileTree, n: string, b: Content, c: map<string, Content>, place: map<string, seq<char>>)
    requires t.dirs == {[]} && t.files == map[Loc([], n) := b] && c == map[n := b] && place == map[n := []]
    ensures Tree(t.dirs) && FullUnder(t.dirs, [], 0)
    ensures forall d: nat :: d <= HASH_LEN && FullUnder(t.dirs, [], d) ==> Repository(t, c, place, d)
  {
    assert FullUnder(t.dirs, [], 0);
    OnlyDepth(t, c, place, 0);
  }

  /** Two files of one name in sibling directories, outside every layout: raising both loses the first. */
  method TwinsCollide(t: FileTree, parent: seq<char>, x: char, y: char, n: string) returns (ok: bool)
    requires x != y && !LetterName(n) && forall z: char :: IsLetter(z) ==> parent + [z] in t.dirs
    requires Loc(parent + [x], n) in t.files && Loc(parent + [y], n) in t.files && Loc(parent, n) !in t.files
    modifies t`files, t`overwritten
    ensures ok && t.overwritten == old(t.overwritten) + 1
    ensures Loc(parent, n) in t.files && t.files[Loc(parent, n)] == old(t.files)[Loc(parent + [y], n)]
  {
    assert (parent + [x])[..|parent|] == parent && (parent + [y])[..|parent|] == parent;
    assert parent + [x] != parent + [y] by { assert (parent + [x])[|parent|] != (parent + [y])[|parent|]; }
    ghost var moved;
    ok, moved := MoveFilesUp(t, parent + [x], {n});
    assert Taken(old(t.files), parent, {n}) == {};
    assert Taken(t.files, parent, {n}) == {n};
    ok, moved := MoveFilesUp(t, parent + [y], {n});
  }

  lemma LettersNoSlash(d: seq<char>)
    requires IsLetters(d)
    ensures '/' !in d
  {
  }

  /** The layout fixes the file system: same names, contents and places, same files. */
  lemma LayoutUnique(f: Files, g: Files, c: map<string, Content>, place: map<string, seq<char>>)
    requires Layout(f, c, place) && Layout(g, c, place)
    ensures f == g
  {
    assert forall k :: k in f ==> k == Loc(place[k.name], k.name);
    assert forall k :: k in g ==> k == Loc(place[k.name], k.name);
  }

  /**
   A repository with its files at their hash paths that is migrated to other levels and back is
   restored exactly, if and only if no dot file was deeper than those levels.
   */
  method MigrateThereAndBack(t: FileTree, d: nat, levels: nat, ghost c: map<string, Content>,
                             ghost place: map<string, seq<char>>)
    returns (ok: bool)
    requires d <= HASH_LEN && levels <= HASH_LEN && Tree(t.dirs) && Repository(t, c, place, d)
    requires AtHash(place, d) && !HasLetterName(c)
    modifies t
    ensures ok && t.dirs == old(t.dirs) && t.overwritten == old(t.overwritten)
    ensures t.files == old(t.files) <==> forall n :: n in c && DotName(n) ==> |place[n]| <= levels
  {
    ghost var there, back;
    ok, there := MigrateHashed(t, d, levels, c, place);
    ok, back := MigrateHashed(t, levels, d, c, there);
    BackIff(place, d, levels);
    SameFilesIff(old(t.files), t.files, c, place, back);
    FullUnique(t.dirs, old(t.dirs), d);
  }

  /** A migration that nothing blocks, of files at their hash paths. */
  method MigrateHashed(t: FileTree, d: nat, levels: nat, ghost c: map<string, Content>,
                       ghost place: map<string, seq<char>>)
    returns (ok: bool, ghost now: map<string, seq<char>>)
    requires d <= HASH_LEN && levels <= HASH_LEN && Tree(t.dirs) && Repository(t, c, place, d)
    requires AtHash(place, d) && !HasLetterName(c)
    modifies t
    ensures ok && t.overwritten == old(t.overwritten) && now == Migrated(place, d, levels)
    ensures Tree(t.dirs) && Repository(t, c, now, levels) && AtHash(now, levels)
  {
    now := Migrated(place, d, levels);
    HashPathsKept(c, place, d, levels);
    OnlyDepth(t, c, place, d);
    ok := MigrateToLevels(t, levels, c, place);
    FullIsTree(t.dirs, levels);
  }

  lemma BackIff(place: map<string, seq<char>>, d: nat, levels: nat)
    requires d <= HASH_LEN && levels <= HASH_LEN && InTree(place, d) && AtHash(place, d)
    ensures Migrated(Migrated(place, d, levels), levels, d) == place
       <==> forall n :: n in place && DotName(n) ==> |place[n]| <= levels
  {
    var back := Migrated(Migrated(place, d, levels), levels, d);
    forall n | n in place
      ensures back[n] == place[n] <==> !DotName(n) || |place[n]| <= levels
    {
      if !DotName(n) {
        HashMoved(HashOf(n), d, levels);
        HashMoved(HashOf(n), levels, d);
      }
    }
    assert back.Keys == place.Keys;
  }

  /** The same names and contents: the file systems are the same exactly if the places are. */
  lemma SameFilesIff(f: Files, g: Files, c: map<string, Content>, p: map<string, seq<char>>, q: map<string, seq<char>>)
    requires Layout(f, c, p) && Layout(g, c, q)
    ensures f == g <==> p == q
  {
    if p == q {
      LayoutUnique(f, g, c, p);
    }
    if f == g {
      assert forall n :: n in p ==> Loc(p[n], n) in g;
    }
  }

  lemma FullUnique(a: set<seq<char>>, b: set<seq<char>>, d: nat)
    requires FullUnder(a, [], d) && FullUnder(b, [], d)
    ensures a == b
  {
    forall p: seq<char>
      ensures p in a <==> p in b
    {
      assert [] <= p;
    }
  }

  lemma OnlyDepth(t: FileTree, c: map<string, Content>, place: map<string, seq<char>>, d: nat)
    requires Repository(t, c, place, d)
    ensures forall e: nat :: e <= HASH_LEN && FullUnder(t.dirs, [], e) ==> Repository(t, c, place, e)
  {
    forall e: nat | e <= HASH_LEN && FullUnder(t.dirs, [], e)
      ensures e == d
    {
      SameDepth(t.dirs, d, e);
    }
  }

  lemma FullIsTree(dirs: set<seq<char>>, d: nat)
    requires d <= HASH_LEN && FullUnder(dirs, [], d)
    ensures Tree(dirs)
  {
    forall p: seq<char>
      ensures p in dirs <==> IsLetters(p) && |p| <= d
    {
      assert [] <= p;
    }
  }
}
