/** Removing one level of directories from the image repository (src/SipiFilenameHash.cpp, `remove_level`). */
module LevelRemoval {
  import opened FilenameHash
  import opened HashTree

  /** Placement after every file of depth `d` below `path` went one level up. */
  ghost function Raised(place: map<string, seq<char>>, path: seq<char>, d: nat): map<string, seq<char>>
    requires d >= 1
  {
    map n | n in place :: if path <= place[n] && |place[n]| == d then place[n][..d - 1] else place[n]
  }

  /** The same, only through the subdirectories of `path` named in `s`. */
  ghost function RaisedIn(place: map<string, seq<char>>, path: seq<char>, d: nat, s: set<char>): map<string, seq<char>>
    requires |path| < d
  {
    map n | n in place ::
      if path <= place[n] && |place[n]| == d && place[n][|path|] in s then place[n][..d - 1] else place[n]
  }

  /** The same, only for the files of `path` named in `s`. */
  ghost function RaisedFiles(place: map<string, seq<char>>, path: seq<char>, s: set<string>): map<string, seq<char>>
    requires |path| >= 1
  {
    map n | n in place :: if n in s then path[..|path| - 1] else place[n]
  }

  // ---------------------------------------------------------------- a leaf

  /** From `files` to `files'` the files of `path` named in `s` moved to `parent`. */
  ghost predicate MovedTo(files: Files, files': Files, path: seq<char>, parent: seq<char>, s: set<string>)
    requires forall n :: n in s ==> Loc(path, n) in files
  {
    && (forall k ::
          k in files' <==> if k.name in s then k.dir == parent || (k.dir != path && k in files) else k in files)
    && (forall k :: k in files' ==>
          files'[k] == if k.name in s && k.dir == parent then files[Loc(path, k.name)] else files[k])
  }

  /** The names of `s` that `dir` holds already. */
  ghost function Taken(files: Files, dir: seq<char>, s: set<string>): set<string>
  {
    set n | n in s && Loc(dir, n) in files
  }

  /**
   Moves the files of a leaf up, until one of them has the name of a sibling directory. Each replaces
   the file of its name in the parent directory, if there is one.
   */
  method MoveFilesUp(t: FileTree, path: seq<char>, filelist: set<string>) returns (ok: bool, ghost moved: set<string>)
    requires |path| >= 1 && forall n :: n in filelist ==> Loc(path, n) in t.files
    requires forall x: char :: IsLetter(x) ==> path[..|path| - 1] + [x] in t.dirs
    modifies t`files, t`overwritten
    ensures moved <= filelist && (ok ==> moved == filelist)
    ensures ok <==> forall n :: n in filelist ==> !LetterName(n)
    ensures MovedTo(old(t.files), t.files, path, path[..|path| - 1], moved)
    ensures t.overwritten == old(t.overwritten) + |Taken(old(t.files), path[..|path| - 1], moved)|
  {
    var parent := path[..|path| - 1];
    var todo := filelist;
    moved := {};
    while todo != {}
      invariant todo <= filelist && moved == filelist - todo
      invariant forall n :: n in moved ==> !LetterName(n)
      invariant MovedTo(old(t.files), t.files, path, parent, moved)
      invariant t.overwritten == old(t.overwritten) + |Taken(old(t.files), parent, moved)|
    {
      var n :| n in todo;
      TakenStep(old(t.files), parent, moved, n);
      ok := MoveOneUp(t, path, n, old(t.files), moved);
      if !ok { return; }
      todo := todo - {n};
      moved := moved + {n};
    }
    ok := true;
  }

  method MoveOneUp(t: FileTree, path: seq<char>, n: string, ghost files: Files, ghost moved: set<string>)
    returns (ok: bool)
    requires |path| >= 1 && n !in moved && Loc(path, n) in files && forall m :: m in moved ==> Loc(path, m) in files
    requires forall x: char :: IsLetter(x) ==> path[..|path| - 1] + [x] in t.dirs
    requires MovedTo(files, t.files, path, path[..|path| - 1], moved)
    modifies t`files, t`overwritten
    ensures ok <==> !LetterName(n)
    ensures !ok ==> t.files == old(t.files) && t.overwritten == old(t.overwritten)
    ensures ok ==> MovedTo(files, t.files, path, path[..|path| - 1], moved + {n})
    ensures ok ==> t.overwritten == old(t.overwritten) + if Loc(path[..|path| - 1], n) in files then 1 else 0
  {
    var parent := path[..|path| - 1];
    LetterIsDir(t.dirs, parent, n);
    MovedStep(files, t.files, path, parent, moved, n);
    ok := t.Rename(path, n, parent);
  }

  lemma TakenStep(files: Files, dir: seq<char>, s: set<string>, n: string)
    requires n !in s
    ensures |Taken(files, dir, s + {n})| == |Taken(files, dir, s)| + if Loc(dir, n) in files then 1 else 0
  {
    assert Taken(files, dir, s + {n}) == Taken(files, dir, s) + if Loc(dir, n) in files then {n} else {};
  }

  /** Moving one more file. */
  lemma MovedStep(files: Files, now: Files, path: seq<char>, parent: seq<char>, s: set<string>, n: string)
    requires n !in s && path != parent && Loc(path, n) in files && forall m :: m in s ==> Loc(path, m) in files
    requires MovedTo(files, now, path, parent, s)
    ensures Loc(path, n) in now && (Loc(parent, n) in now <==> Loc(parent, n) in files)
    ensures MovedTo(files, (now - {Loc(path, n)})[Loc(parent, n) := now[Loc(path, n)]], path, parent, s + {n})
  {
  }

  /** Where each name is kept once, nothing is replaced. */
  lemma MovedLayout(files: Files, files': Files, c: map<string, Content>, place: map<string, seq<char>>,
                    path: seq<char>, s: set<string>)
    requires |path| >= 1 && Layout(files, c, place)
    requires forall n :: n in s ==> n in place && place[n] == path && Loc(path, n) in files
    requires MovedTo(files, files', path, path[..|path| - 1], s)
    ensures Layout(files', c, RaisedFiles(place, path, s)) && Taken(files, path[..|path| - 1], s) == {}
  {
    var place' := RaisedFiles(place, path, s);
    forall n | n in place'
      ensures Loc(place'[n], n) in files' && files'[Loc(place'[n], n)] == c[n]
    {
      assert Loc(place[n], n) in files;
    }
  }

  lemma LetterIsDir(dirs: set<seq<char>>, parent: seq<char>, n: string)
    requires forall x: char :: IsLetter(x) ==> parent + [x] in dirs
    ensures LetterName(n) ==> parent + n in dirs
  {
    if LetterName(n) {
      assert n == [n[0]];
    }
  }

  lemma LeafRaised(files: Files, c: map<string, Content>, place: map<string, seq<char>>, path: seq<char>,
                   list: set<string>)
    requires |path| >= 1 && Layout(files, c, place)
    requires list == set k | k in files && k.dir == path :: k.name
    ensures forall n :: n in list ==> n in place && place[n] == path && Loc(path, n) in files
    ensures RaisedFiles(place, path, list) == Raised(place, path, |path|)
    ensures (forall n :: n in list ==> !LetterName(n)) <==> !LetterBelow(place, path, |path|)
  {
    forall n | n in place
      ensures n in list <==> path <= place[n] && |place[n]| == |path|
    {
      if path <= place[n] && |place[n]| == |path| {
        assert place[n] == path;
        assert Loc(path, n) in files;
      }
    }
    forall n | n in place && path <= place[n] && |place[n]| == |path|
      ensures RaisedFiles(place, path, list)[n] == Raised(place, path, |path|)[n]
    {
      assert place[n] == path;
    }
  }

  // ---------------------------------------------------------------- the recursion

  /** The last level below `path` is gone through the letters of `s`, when it is not the next level. */
  ghost predicate ShrunkIn(dirs: set<seq<char>>, path: seq<char>, d: nat, s: set<char>)
    requires |path| < d
  {
    forall p: seq<char> :: path <= p ==>
      (p in dirs <==> IsLetters(p) && |p| <= d && !(|p| == d && |path| + 1 < d && p[|path|] in s))
  }

  /** No file of depth `d` below `path`, through the letters of `s`, is named like a letter directory. */
  ghost predicate NoLetterIn(place: map<string, seq<char>>, path: seq<char>, d: nat, s: set<char>)
    requires |path| < d
  {
    forall n :: n in place && path <= place[n] && |place[n]| == d && place[n][|path|] in s ==> !LetterName(n)
  }

  /** No file below `path` is deeper than the tree. */
  ghost predicate DepthAtMost(place: map<string, seq<char>>, path: seq<char>, d: nat) {
    forall n :: n in place && path <= place[n] ==> |place[n]| <= d
  }

  /** Part way through `remove_level`: the subtrees through the letters of `s` are done. */
  ghost predicate Shrinking(dirs: set<seq<char>>, files: Files, c: map<string, Content>, place: map<string, seq<char>>,
                            path: seq<char>, d: nat, s: set<char>)
    requires |path| < d
  {
    ShrunkIn(dirs, path, d, s) && Layout(files, c, RaisedIn(place, path, d, s)) && NoLetterIn(place, path, d, s)
  }

  /** `remove_level` at a directory without subdirectories. */
  method RemoveLevelLeaf(t: FileTree, path: seq<char>, ghost c: map<string, Content>,
                         ghost place: map<string, seq<char>>)
    returns (ok: bool)
    requires |path| >= 1 && Layout(t.files, c, place)
    requires forall x: char :: IsLetter(x) ==> path[..|path| - 1] + [x] in t.dirs
    modifies t`files, t`overwritten
    ensures t.overwritten == old(t.overwritten) && Kept(t.files, c)
    ensures ok <==> !LetterBelow(place, path, |path|)
    ensures ok ==> Layout(t.files, c, Raised(place, path, |path|))
  {
    var filelist := set k | k in t.files && k.dir == path :: k.name;
    LeafRaised(t.files, c, place, path, filelist);
    ghost var moved;
    ok, moved := MoveFilesUp(t, path, filelist);
    MovedLayout(old(t.files), t.files, c, place, path, moved);
  }

  /**
   `remove_level`: in a tree of depth `d` every file of the last level moves up one level and
   that level's directories go. It fails exactly when such a file has a letter directory's name.
   */
  method RemoveLevel(t: FileTree, path: seq<char>, curLevel: nat, ghost d: nat, ghost c: map<string, Content>,
                     ghost place: map<string, seq<char>>) returns (ok: bool, emptied: bool)
    requires IsLetters(path) && |path| == curLevel <= d
    requires FullUnder(t.dirs, path, d) && Layout(t.files, c, place) && LetterPlaces(place) &&
      DepthAtMost(place, path, d)
    requires curLevel == d >= 1 ==> forall x: char :: IsLetter(x) ==> path[..d - 1] + [x] in t.dirs
    modifies t
    ensures t.overwritten == old(t.overwritten) && Kept(t.files, c)
    ensures d == 0 ==> ok && t.dirs == old(t.dirs) && t.files == old(t.files)
    ensures d >= 1 ==> (ok <==> !LetterBelow(place, path, d))
    ensures ok && d >= 1 ==> Layout(t.files, c, Raised(place, path, d))
    ensures ok ==> emptied == (curLevel == d)
    ensures ok && curLevel == d ==> t.dirs == old(t.dirs)
    ensures ok && curLevel < d ==> FullUnder(t.dirs, path, d - 1) && SameOutside(old(t.dirs), t.dirs, path)
    decreases d - curLevel, 2
  {
    SubdirsOf(t.dirs, path, d);
    var todo := set x: char | IsLetter(x) && path + [x] in t.dirs;
    if todo == {} {
      ok, emptied := true, true;
      if curLevel > 0 {
        ok := RemoveLevelLeaf(t, path, c, place);
      }
      return;
    }
    emptied := false;
    var nEmptied;
    ok, nEmptied := RemoveLevelBelow(t, path, curLevel, todo, d, c, place);
    if ok && nEmptied == 26 {
      NothingBelow(t.files, c, place, path, d);
      ghost var before := t.dirs;
      ok := RemoveLetterDirs(t, path, d);
      SameOutsideTrans(old(t.dirs), before, t.dirs, path);
    }
  }

  lemma SameOutsideTrans(a: set<seq<char>>, b: set<seq<char>>, c: set<seq<char>>, path: seq<char>)
    requires SameOutside(a, b, path) && SameOutside(b, c, path)
    ensures SameOutside(a, c, path)
  {
  }

  /** The loop of `remove_level` over the subdirectories, counting the emptied ones. */
  method RemoveLevelBelow(t: FileTree, path: seq<char>, curLevel: nat, subdirs: set<char>, ghost d: nat,
                          ghost c: map<string, Content>, ghost place: map<string, seq<char>>)
    returns (ok: bool, nEmptied: nat)
    requires IsLetters(path) && |path| == curLevel < d && subdirs == LETTERS
    requires FullUnder(t.dirs, path, d) && Layout(t.files, c, place) && LetterPlaces(place) &&
      DepthAtMost(place, path, d)
    modifies t
    ensures t.overwritten == old(t.overwritten) && Kept(t.files, c)
    ensures ok <==> !LetterBelow(place, path, d)
    ensures ok ==> nEmptied == if curLevel + 1 == d then 26 else 0
    ensures ok ==> FullUnder(t.dirs, path, if curLevel + 1 == d then d else d - 1)
    ensures ok ==> SameOutside(old(t.dirs), t.dirs, path)
    ensures ok ==> Layout(t.files, c, Raised(place, path, d))
    decreases d - curLevel, 1
  {
    var todo := subdirs;
    nEmptied := 0;
    ghost var seen: set<char> := {};
    ShrinkStart(t.dirs, t.files, c, place, path, d);
    while todo != {}
      invariant todo <= LETTERS && seen == LETTERS - todo && t.overwritten == old(t.overwritten)
      invariant nEmptied == if curLevel + 1 == d then |seen| else 0
      invariant SameOutside(old(t.dirs), t.dirs, path) && Shrinking(t.dirs, t.files, c, place, path, d, seen)
    {
      var x :| x in todo;
      var e;
      ok, e := RemoveLevelChild(t, path, curLevel, x, d, c, place, seen);
      if !ok { return; }
      if e { nEmptied := nEmptied + 1; }
      todo := todo - {x};
      seen := seen + {x};
    }
    assert seen == LETTERS;
    LetterCount();
    ShrinkDone(t.dirs, t.files, c, place, path, d);
    ok := true;
  }

  /** The recursive call of `remove_level` for subdirectory `x`, the subdirectories of `seen` being done. */
  method RemoveLevelChild(t: FileTree, path: seq<char>, curLevel: nat, x: char, ghost d: nat,
                          ghost c: map<string, Content>, ghost place: map<string, seq<char>>, ghost seen: set<char>)
    returns (ok: bool, e: bool)
    requires IsLetters(path) && |path| == curLevel < d && IsLetter(x) && x !in seen
    requires Shrinking(t.dirs, t.files, c, place, path, d, seen) && LetterPlaces(place) && DepthAtMost(place, path, d)
    modifies t
    ensures t.overwritten == old(t.overwritten)
    ensures !ok ==> Kept(t.files, c) && LetterBelow(place, path, d)
    ensures ok ==> e == (curLevel + 1 == d) && SameOutside(old(t.dirs), t.dirs, path)
    ensures ok ==> Shrinking(t.dirs, t.files, c, place, path, d, seen + {x})
    decreases d - curLevel, 0
  {
    ShrunkInChild(t.dirs, path, d, seen, x);
    ghost var now := RaisedIn(place, path, d, seen);
    RaisedInFacts(place, path, d, seen, x);
    ok, e := RemoveLevel(t, path + [x], curLevel + 1, d, c, now);
    ChildUntouched(place, path, d, seen, x);
    if !ok {
      ChildFails(place, path, d, x);
    } else {
      ShrunkInStep(old(t.dirs), t.dirs, path, d, seen, x);
      RaisedInStep(place, path, d, seen, x);
      NoLetterStep(place, path, d, seen, x);
    }
  }

  /** Removes the 26 emptied subdirectories. */
  method RemoveLetterDirs(t: FileTree, path: seq<char>, ghost d: nat) returns (ok: bool)
    requires IsLetters(path) && d == |path| + 1 && FullUnder(t.dirs, path, d)
    requires forall k :: k in t.files ==> !(path < k.dir)
    modifies t`dirs
    ensures ok && FullUnder(t.dirs, path, d - 1) && SameOutside(old(t.dirs), t.dirs, path)
  {
    var c := 'A';
    while true
      invariant 'A' <= c <= 'Z'
      invariant forall p: seq<char> ::
        p in t.dirs <==> p in old(t.dirs) && !(|p| == d && path <= p && 'A' <= p[|path|] < c)
      decreases 'Z' as int - c as int
    {
      StillEmpty(old(t.dirs), t.dirs, t.files, path, c);
      ok := t.RemoveDir(path + [c]);
      forall p: seq<char>
        ensures p == path + [c] <==> |p| == d && path <= p && p[|path|] == c
      {
        PrefixLetter(path, p, c);
      }
      if c == 'Z' { break; }
      c := c + 1 as char;
    }
    LevelGone(old(t.dirs), t.dirs, path);
  }

  lemma StillEmpty(dirs: set<seq<char>>, dirs': set<seq<char>>, files: Files, path: seq<char>, c: char)
    requires IsLetters(path) && FullUnder(dirs, path, |path| + 1) && IsLetter(c)
    requires forall k :: k in files ==> !(path < k.dir)
    requires forall p: seq<char> ::
      p in dirs' <==> p in dirs && !(|p| == |path| + 1 && path <= p && 'A' <= p[|path|] < c)
    ensures path + [c] in dirs'
    ensures forall k :: k in files ==> k.dir != path + [c]
    ensures forall p :: p in dirs' ==> |p| == 0 || p[..|p| - 1] != path + [c]
  {
    assert path <= path + [c] && IsLetters(path + [c]);
    forall p: seq<char> | |p| > 0 && p[..|p| - 1] == path + [c]
      ensures path <= p && |p| == |path| + 2
    {
      assert p[..|path|] == (path + [c])[..|path|];
    }
  }

  lemma LevelGone(dirs: set<seq<char>>, dirs': set<seq<char>>, path: seq<char>)
    requires FullUnder(dirs, path, |path| + 1)
    requires forall p: seq<char> ::
      p in dirs' <==> p in dirs && !(|p| == |path| + 1 && path <= p && 'A' <= p[|path|] <= 'Z')
    ensures FullUnder(dirs', path, |path|) && SameOutside(dirs, dirs', path)
  {
  }

  lemma LetterCount()
    ensures |LETTERS| == 26
  {
    LettersUpTo(26);
    assert LETTERS == FirstLetters(26);
  }

  ghost function FirstLetters(n: nat): set<char> {
    set c: char | IsLetter(c) && c as int - 'A' as int < n
  }

  lemma {:induction false} LettersUpTo(n: nat)
    requires n <= 26
    ensures |FirstLetters(n)| == n
  {
    if n == 0 {
      assert FirstLetters(n) == {};
    } else {
      LettersUpTo(n - 1);
      assert FirstLetters(n) == FirstLetters(n - 1) + {'A' + (n - 1) as char};
    }
  }

  // ---------------------------------------------------------------- steps of the recursion

  lemma ShrinkStart(dirs: set<seq<char>>, files: Files, c: map<string, Content>, place: map<string, seq<char>>,
                    path: seq<char>, d: nat)
    requires |path| < d && FullUnder(dirs, path, d) && Layout(files, c, place)
    ensures Shrinking(dirs, files, c, place, path, d, {})
  {
    assert RaisedIn(place, path, d, {}) == place;
  }

  lemma ShrinkDone(dirs: set<seq<char>>, files: Files, c: map<string, Content>, place: map<string, seq<char>>,
                   path: seq<char>, d: nat)
    requires |path| < d && Shrinking(dirs, files, c, place, path, d, LETTERS) && LetterPlaces(place)
    ensures Layout(files, c, Raised(place, path, d)) && !LetterBelow(place, path, d)
    ensures FullUnder(dirs, path, if |path| + 1 == d then d else d - 1)
  {
    RaisedInAll(place, path, d);
  }

  lemma RaisedInAll(place: map<string, seq<char>>, path: seq<char>, d: nat)
    requires |path| < d && LetterPlaces(place)
    ensures RaisedIn(place, path, d, LETTERS) == Raised(place, path, d)
  {
    forall n | n in place && path <= place[n] && |place[n]| == d
      ensures place[n][|path|] in LETTERS
    {
      assert IsLetters(place[n]);
    }
  }

  /** With the last level raised no file is left strictly below `path`. */
  lemma NothingBelow(files: Files, c: map<string, Content>, place: map<string, seq<char>>, path: seq<char>, d: nat)
    requires d == |path| + 1 && Layout(files, c, Raised(place, path, d)) && DepthAtMost(place, path, d)
    ensures forall k :: k in files ==> !(path < k.dir)
  {
    forall k | k in files
      ensures !(path < k.dir)
    {
      var n := k.name;
      assert k.dir == Raised(place, path, d)[n];
      if path <= place[n] && |place[n]| == d {
        assert |k.dir| == |path|;
      }
    }
  }

  lemma ShrunkInChild(dirs: set<seq<char>>, path: seq<char>, d: nat, s: set<char>, x: char)
    requires IsLetters(path) && |path| < d && IsLetter(x) && x !in s && ShrunkIn(dirs, path, d, s)
    ensures IsLetters(path + [x]) && FullUnder(dirs, path + [x], d)
    ensures |path| + 1 == d ==> forall y: char :: IsLetter(y) ==> (path + [x])[..d - 1] + [y] in dirs
  {
    forall p: seq<char> | path + [x] <= p
      ensures p in dirs <==> IsLetters(p) && |p| <= d
    {
      PrefixLetter(path, p, x);
    }
    forall y: char | IsLetter(y) && |path| + 1 == d
      ensures (path + [x])[..d - 1] + [y] in dirs
    {
      assert (path + [x])[..d - 1] == path;
      assert path <= path + [y] && IsLetters(path + [y]);
    }
  }

  lemma ShrunkInStep(dirs: set<seq<char>>, dirs': set<seq<char>>, path: seq<char>, d: nat, s: set<char>, x: char)
    requires |path| < d && x !in s && ShrunkIn(dirs, path, d, s)
    requires |path| + 1 == d ==> dirs' == dirs
    requires |path| + 1 < d ==> FullUnder(dirs', path + [x], d - 1) && SameOutside(dirs, dirs', path + [x])
    ensures ShrunkIn(dirs', path, d, s + {x}) && SameOutside(dirs, dirs', path)
  {
    forall p: seq<char>
      ensures path + [x] <= p <==> path <= p && |p| > |path| && p[|path|] == x
    {
      PrefixLetter(path, p, x);
    }
  }

  lemma RaisedInStep(place: map<string, seq<char>>, path: seq<char>, d: nat, s: set<char>, x: char)
    requires |path| < d && x !in s
    ensures Raised(RaisedIn(place, path, d, s), path + [x], d) == RaisedIn(place, path, d, s + {x})
  {
    forall n | n in place
      ensures Raised(RaisedIn(place, path, d, s), path + [x], d)[n] == RaisedIn(place, path, d, s + {x})[n]
    {
      RaisedAt(place[n], RaisedIn(place, path, d, s)[n], path, d, s, x);
    }
  }

  lemma RaisedAt(p: seq<char>, q: seq<char>, path: seq<char>, d: nat, s: set<char>, x: char)
    requires |path| < d && x !in s
    requires q == if path <= p && |p| == d && p[|path|] in s then p[..d - 1] else p
    ensures (if path + [x] <= q && |q| == d then q[..d - 1] else q)
         == (if path <= p && |p| == d && p[|path|] in s + {x} then p[..d - 1] else p)
  {
    PrefixLetter(path, p, x);
  }

  lemma RaisedInFacts(place: map<string, seq<char>>, path: seq<char>, d: nat, s: set<char>, x: char)
    requires |path| < d && LetterPlaces(place) && DepthAtMost(place, path, d)
    ensures LetterPlaces(RaisedIn(place, path, d, s)) && DepthAtMost(RaisedIn(place, path, d, s), path + [x], d)
  {
    var now := RaisedIn(place, path, d, s);
    forall n | n in place
      ensures IsLetters(now[n]) && (path + [x] <= now[n] ==> |now[n]| <= d)
    {
      PrefixLetter(path, now[n], x);
    }
  }

  lemma ChildUntouched(place: map<string, seq<char>>, path: seq<char>, d: nat, s: set<char>, x: char)
    requires |path| < d && x !in s
    ensures LetterBelow(RaisedIn(place, path, d, s), path + [x], d) <==> LetterBelow(place, path + [x], d)
  {
    var now := RaisedIn(place, path, d, s);
    forall n | n in place
      ensures path + [x] <= now[n] && |now[n]| == d <==> path + [x] <= place[n] && |place[n]| == d
    {
      PrefixLetter(path, place[n], x);
    }
  }

  lemma ChildFails(place: map<string, seq<char>>, path: seq<char>, d: nat, x: char)
    requires LetterBelow(place, path + [x], d)
    ensures LetterBelow(place, path, d)
  {
    var n :| n in place && path + [x] <= place[n] && |place[n]| == d && LetterName(n);
    PrefixLetter(path, place[n], x);
  }

  lemma NoLetterStep(place: map<string, seq<char>>, path: seq<char>, d: nat, s: set<char>, x: char)
    requires |path| < d && NoLetterIn(place, path, d, s) && !LetterBelow(place, path + [x], d)
    ensures NoLetterIn(place, path, d, s + {x})
  {
    forall n | n in place
      ensures path + [x] <= place[n] <==> path <= place[n] && |place[n]| > |path| && place[n][|path|] == x
    {
      PrefixLetter(path, place[n], x);
    }
  }
}
