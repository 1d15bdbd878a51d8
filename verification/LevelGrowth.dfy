/** Adding one level of directories to the image repository (src/SipiFilenameHash.cpp, `add_level`). */
module LevelGrowth {
  import opened FilenameHash
  import opened HashTree

  /** Placement after every non-dot file of depth `d` below `path` went one level down. */
  ghost function Lowered(place: map<string, seq<char>>, path: seq<char>, d: nat): map<string, seq<char>>
    requires d < HASH_LEN
  {
    map n | n in place ::
      if path <= place[n] && |place[n]| == d && !DotName(n) then place[n] + [HashOf(n)[d]] else place[n]
  }

  /** The same, only through the subdirectories of `path` named in `s`. */
  ghost function LoweredIn(place: map<string, seq<char>>, path: seq<char>, d: nat, s: set<char>): map<string, seq<char>>
    requires |path| < d < HASH_LEN
  {
    map n | n in place ::
      if path <= place[n] && |place[n]| == d && place[n][|path|] in s && !DotName(n)
      then place[n] + [HashOf(n)[d]] else place[n]
  }

  /** The same, only for the files of `path` named in `s`. */
  ghost function LoweredFiles(place: map<string, seq<char>>, path: seq<char>, s: set<string>): map<string, seq<char>>
    requires |path| < HASH_LEN
  {
    map n | n in place :: if n in s then path + [HashOf(n)[|path|]] else place[n]
  }

  lemma LoweredInStep(place: map<string, seq<char>>, path: seq<char>, d: nat, s: set<char>, c: char)
    requires |path| < d < HASH_LEN && c !in s
    ensures Lowered(LoweredIn(place, path, d, s), path + [c], d) == LoweredIn(place, path, d, s + {c})
  {
    forall n | n in place
      ensures Lowered(LoweredIn(place, path, d, s), path + [c], d)[n] == LoweredIn(place, path, d, s + {c})[n]
    {
      LoweredAt(place[n], LoweredIn(place, path, d, s)[n], path, d, s, c, HashOf(n)[d], DotName(n));
    }
  }

  lemma LoweredAt(p: seq<char>, q: seq<char>, path: seq<char>, d: nat, s: set<char>, c: char, h: char, dot: bool)
    requires |path| < d && c !in s
    requires q == if path <= p && |p| == d && p[|path|] in s && !dot then p + [h] else p
    ensures (if path + [c] <= q && |q| == d && !dot then q + [h] else q)
         == (if path <= p && |p| == d && p[|path|] in s + {c} && !dot then p + [h] else p)
  {
    PrefixLetter(path, p, c);
    PrefixLetter(path, q, c);
  }

  lemma LoweredInPlaces(place: map<string, seq<char>>, path: seq<char>, d: nat, s: set<char>)
    requires |path| < d < HASH_LEN && LetterPlaces(place)
    ensures LetterPlaces(LoweredIn(place, path, d, s))
  {
    forall n | n in place
      ensures IsLetters(LoweredIn(place, path, d, s)[n])
    {
      assert IsLetters(place[n]) && IsLetter(HashOf(n)[d]);
    }
  }

  lemma LoweredInAll(place: map<string, seq<char>>, path: seq<char>, d: nat)
    requires |path| < d < HASH_LEN
    requires forall n :: n in place ==> IsLetters(place[n])
    ensures LoweredIn(place, path, d, LETTERS) == Lowered(place, path, d)
  {
  }

  /** Only dot files are kept above depth `d` below `path`. */
  ghost predicate CleanAbove(place: map<string, seq<char>>, path: seq<char>, d: nat) {
    forall n :: n in place && path <= place[n] && |place[n]| < d ==> DotName(n)
  }

  /** Creates the 26 subdirectories of a leaf; a file named like one of them makes it fail. */
  method MakeLetterDirs(t: FileTree, path: seq<char>) returns (ok: bool)
    requires forall c: char :: path + [c] !in t.dirs
    modifies t`dirs
    ensures ok <==> forall c :: IsLetter(c) ==> Loc(path, [c]) !in t.files
    ensures ok ==> forall p: seq<char> ::
      p in t.dirs <==> p in old(t.dirs) || (|p| == |path| + 1 && path <= p && IsLetter(p[|path|]))
  {
    var c := 'A';
    while true
      invariant 'A' <= c <= 'Z'
      invariant forall x: char :: 'A' <= x < c ==> Loc(path, [x]) !in t.files
      invariant forall p: seq<char> ::
        p in t.dirs <==> p in old(t.dirs) || (|p| == |path| + 1 && path <= p && 'A' <= p[|path|] < c)
      decreases 'Z' as int - c as int
    {
      assert path + [c] !in old(t.dirs);
      ok := t.MakeDir(path, c);
      if !ok { return; }
      forall p: seq<char>
        ensures p == path + [c] <==> |p| == |path| + 1 && path <= p && p[|path|] == c
      {
        PrefixLetter(path, p, c);
      }
      if c == 'Z' { return; }
      c := c + 1 as char;
    }
  }

  /** Moves the listed files of a leaf into its new subdirectories. */
  method MoveFilesDown(t: FileTree, path: seq<char>, filelist: set<string>, ghost c: map<string, Content>,
                       ghost place: map<string, seq<char>>)
    returns (ok: bool)
    requires |path| < HASH_LEN && Layout(t.files, c, place)
    requires forall n :: n in filelist ==> n in place && place[n] == path && !LetterName(n)
    modifies t`files, t`overwritten
    ensures ok && t.overwritten == old(t.overwritten) && Layout(t.files, c, LoweredFiles(place, path, filelist))
  {
    var todo := filelist;
    ghost var now := place;
    while todo != {}
      invariant todo <= filelist && t.overwritten == old(t.overwritten)
      invariant Layout(t.files, c, now) && PartDown(place, now, path, filelist, todo)
    {
      var n :| n in todo;
      ok, now := MoveDown(t, path, n, c, place, now, filelist, todo);
      todo := todo - {n};
    }
    ok := true;
    PartIsAll(place, now, path, filelist);
  }

  /** The listed files are in the subdirectories, but for those of `todo`. */
  ghost predicate PartDown(place: map<string, seq<char>>, now: map<string, seq<char>>, path: seq<char>,
                           list: set<string>, todo: set<string>)
    requires |path| < HASH_LEN
  {
    && now.Keys == place.Keys
    && (forall n :: n in place ==> now[n] == if n in list && n !in todo then path + [HashOf(n)[|path|]] else place[n])
  }

  lemma PartIsAll(place: map<string, seq<char>>, now: map<string, seq<char>>, path: seq<char>, list: set<string>)
    requires |path| < HASH_LEN && PartDown(place, now, path, list, {})
    ensures now == LoweredFiles(place, path, list)
  {
  }

  /** Moves one more file down; nothing is replaced. */
  method MoveDown(t: FileTree, path: seq<char>, n: string, ghost c: map<string, Content>,
                  ghost place: map<string, seq<char>>, ghost now: map<string, seq<char>>, ghost list: set<string>,
                  ghost todo: set<string>)
    returns (ok: bool, ghost next: map<string, seq<char>>)
    requires |path| < HASH_LEN && n in place && place[n] == path && !LetterName(n) && n in list && n in todo
    requires Layout(t.files, c, now) && PartDown(place, now, path, list, todo)
    modifies t`files, t`overwritten
    ensures ok && t.overwritten == old(t.overwritten)
    ensures Layout(t.files, c, next) && PartDown(place, next, path, list, todo - {n})
  {
    var child := path + [HashOf(n)[|path|]];
    LayoutMove(t.files, c, now, n, child);
    ok := t.Rename(path, n, child);
    next := now[n := child];
  }

  /** `add_level` at a directory without subdirectories. */
  method AddLevelLeaf(t: FileTree, path: seq<char>, ghost c: map<string, Content>, ghost place: map<string, seq<char>>)
    returns (ok: bool)
    requires |path| < HASH_LEN && IsLetters(path) && FullUnder(t.dirs, path, |path|) && Layout(t.files, c, place)
    modifies t
    ensures t.overwritten == old(t.overwritten)
    ensures Kept(t.files, c)
    ensures ok <==> !LetterBelow(place, path, |path|)
    ensures ok ==> FullUnder(t.dirs, path, |path| + 1) && SameOutside(old(t.dirs), t.dirs, path)
    ensures ok ==> Layout(t.files, c, Lowered(place, path, |path|))
  {
    var filelist := set k | k in t.files && k.dir == path && !DotName(k.name) :: k.name;
    assert forall c: char :: path <= path + [c] && |path + [c]| > |path|;
    ok := MakeLetterDirs(t, path);
    LetterFiles(t.files, c, place, path);
    if !ok { return; }
    LeafGrown(old(t.dirs), t.dirs, path);
    LeafLowered(t.files, c, place, path, filelist);
    ok := MoveFilesDown(t, path, filelist, c, place);
  }

  /**
   `add_level`: in a tree of depth `d`, every leaf gets its 26 subdirectories and its non-dot
   files move into them. It fails exactly when a file to be split off has a letter directory's
   name, or a non-dot file sits above the leaves.
   */
  method AddLevel(t: FileTree, path: seq<char>, curLevel: nat, ghost d: nat, ghost c: map<string, Content>,
                  ghost place: map<string, seq<char>>)
    returns (ok: bool)
    requires IsLetters(path) && |path| == curLevel <= d < HASH_LEN
    requires FullUnder(t.dirs, path, d) && Layout(t.files, c, place) && LetterPlaces(place)
    modifies t
    ensures t.overwritten == old(t.overwritten) && Kept(t.files, c)
    ensures ok <==> !LetterBelow(place, path, d) && CleanAbove(place, path, d)
    ensures ok ==> FullUnder(t.dirs, path, d + 1) && SameOutside(old(t.dirs), t.dirs, path)
    ensures ok ==> Layout(t.files, c, Lowered(place, path, d))
    decreases d - curLevel, 2
  {
    SubdirsOf(t.dirs, path, d);
    var todo := set x: char | IsLetter(x) && path + [x] in t.dirs;
    if todo == {} {
      assert |path| == d;
      ok := AddLevelLeaf(t, path, c, place);
    } else {
      assert |path| < d && todo == LETTERS;
      ok := AddLevelBelow(t, path, curLevel, todo, d, c, place);
    }
  }

  /** `add_level` at a directory with subdirectories: all of them first, then the directory's own files. */
  method AddLevelBelow(t: FileTree, path: seq<char>, curLevel: nat, subdirs: set<char>, ghost d: nat,
                       ghost c: map<string, Content>, ghost place: map<string, seq<char>>) returns (ok: bool)
    requires IsLetters(path) && |path| == curLevel < d < HASH_LEN && subdirs == LETTERS
    requires FullUnder(t.dirs, path, d) && Layout(t.files, c, place) && LetterPlaces(place)
    modifies t
    ensures t.overwritten == old(t.overwritten) && Kept(t.files, c)
    ensures ok <==> !LetterBelow(place, path, d) && CleanAbove(place, path, d)
    ensures ok ==> FullUnder(t.dirs, path, d + 1) && SameOutside(old(t.dirs), t.dirs, path)
    ensures ok ==> Layout(t.files, c, Lowered(place, path, d))
    decreases d - curLevel, 1
  {
    var todo := subdirs;
    ok := true;
    ghost var seen: set<char> := {};
    GrowthStart(t.dirs, t.files, c, place, path, d);
    while todo != {}
      invariant seen + todo == LETTERS && seen !! todo && t.overwritten == old(t.overwritten)
      invariant SameOutside(old(t.dirs), t.dirs, path) && Growing(t.dirs, t.files, c, place, path, d, seen)
    {
      var x :| x in todo;
      ok := AddLevelChild(t, path, curLevel, x, d, c, place, seen);
      if !ok { return; }
      todo := todo - {x};
      seen := seen + {x};
    }
    assert seen == LETTERS;
    GrowthDone(t.dirs, t.files, c, place, path, d);
    ok := forall k | k in t.files :: k.dir != path || DotName(k.name);
  }

  /** The recursive call of `add_level` for subdirectory `x`, the subdirectories of `seen` being done. */
  method AddLevelChild(t: FileTree, path: seq<char>, curLevel: nat, x: char, ghost d: nat,
                       ghost c: map<string, Content>, ghost place: map<string, seq<char>>, ghost seen: set<char>)
    returns (ok: bool)
    requires IsLetters(path) && |path| == curLevel < d < HASH_LEN && IsLetter(x) && x !in seen
    requires Growing(t.dirs, t.files, c, place, path, d, seen) && LetterPlaces(place)
    modifies t
    ensures t.overwritten == old(t.overwritten)
    ensures !ok ==> Kept(t.files, c) && (LetterBelow(place, path, d) || !CleanAbove(place, path, d))
    ensures ok ==> SameOutside(old(t.dirs), t.dirs, path) && Growing(t.dirs, t.files, c, place, path, d, seen + {x})
    decreases d - curLevel, 0
  {
    GrownInChild(t.dirs, path, d, seen, x);
    LoweredInPlaces(place, path, d, seen);
    ok := AddLevel(t, path + [x], curLevel + 1, d, c, LoweredIn(place, path, d, seen));
    ChildUntouched(place, path, d, seen, x);
    if !ok {
      ChildFails(place, path, d, x);
    } else {
      GrownInStep(old(t.dirs), t.dirs, path, d, seen, x);
      LoweredInStep(place, path, d, seen, x);
      ChildrenFineStep(place, path, d, seen, x);
    }
  }

  /** Part way through `add_level`: the subtrees through the letters of `s` are done, and were fine. */
  ghost predicate Growing(dirs: set<seq<char>>, files: Files, c: map<string, Content>, place: map<string, seq<char>>,
                          path: seq<char>, d: nat, s: set<char>)
    requires |path| < d < HASH_LEN
  {
    GrownIn(dirs, path, d, s) && Layout(files, c, LoweredIn(place, path, d, s)) && ChildrenFine(place, path, d, s)
  }

  /** Below `path` the tree has depth `d`, and `d + 1` through the letters of `s`. */
  ghost predicate GrownIn(dirs: set<seq<char>>, path: seq<char>, d: nat, s: set<char>)
    requires |path| < d
  {
    forall p: seq<char> :: path <= p ==> (p in dirs <==> IsLetters(p) && (|p| <= d || (|p| == d + 1 && p[|path|] in s)))
  }

  lemma GrownInChild(dirs: set<seq<char>>, path: seq<char>, d: nat, s: set<char>, x: char)
    requires IsLetters(path) && |path| < d && IsLetter(x) && x !in s && GrownIn(dirs, path, d, s)
    ensures IsLetters(path + [x]) && FullUnder(dirs, path + [x], d)
  {
    forall p: seq<char> | path + [x] <= p
      ensures p in dirs <==> IsLetters(p) && |p| <= d
    {
      PrefixLetter(path, p, x);
    }
  }

  lemma GrownInStep(dirs: set<seq<char>>, dirs': set<seq<char>>, path: seq<char>, d: nat, s: set<char>, x: char)
    requires |path| < d && x !in s && GrownIn(dirs, path, d, s)
    requires FullUnder(dirs', path + [x], d + 1) && SameOutside(dirs, dirs', path + [x])
    ensures GrownIn(dirs', path, d, s + {x}) && SameOutside(dirs, dirs', path)
  {
    forall p: seq<char> | path <= p
      ensures p in dirs' <==> IsLetters(p) && (|p| <= d || (|p| == d + 1 && p[|path|] in s + {x}))
    {
      PrefixLetter(path, p, x);
    }
    forall p: seq<char> | !(path <= p)
      ensures p in dirs <==> p in dirs'
    {
      PrefixLetter(path, p, x);
    }
  }

  lemma GrownInAll(dirs: set<seq<char>>, path: seq<char>, d: nat)
    requires |path| < d && GrownIn(dirs, path, d, LETTERS)
    ensures FullUnder(dirs, path, d + 1)
  {
  }

  /** The subtrees through the letters of `s` can be grown. */
  ghost predicate ChildrenFine(place: map<string, seq<char>>, path: seq<char>, d: nat, s: set<char>)
    requires |path| < d
  {
    forall n :: n in place && path <= place[n] && |place[n]| > |path| && place[n][|path|] in s ==>
      (|place[n]| < d ==> DotName(n)) && (|place[n]| == d ==> !LetterName(n))
  }

  /** Growing other subtrees first changes nothing below `path + [x]`. */
  lemma ChildUntouched(place: map<string, seq<char>>, path: seq<char>, d: nat, s: set<char>, x: char)
    requires |path| < d < HASH_LEN && x !in s
    ensures LetterBelow(LoweredIn(place, path, d, s), path + [x], d) <==> LetterBelow(place, path + [x], d)
    ensures CleanAbove(LoweredIn(place, path, d, s), path + [x], d) <==> CleanAbove(place, path + [x], d)
  {
    var now := LoweredIn(place, path, d, s);
    forall n | n in place
      ensures path + [x] <= now[n] <==> path + [x] <= place[n]
      ensures path + [x] <= place[n] ==> now[n] == place[n]
    {
      PrefixLetter(path, place[n], x);
      PrefixLetter(path, now[n], x);
    }
  }

  lemma ChildFails(place: map<string, seq<char>>, path: seq<char>, d: nat, x: char)
    requires |path| < d
    requires LetterBelow(place, path + [x], d) || !CleanAbove(place, path + [x], d)
    ensures LetterBelow(place, path, d) || !CleanAbove(place, path, d)
  {
    forall n | n in place && path + [x] <= place[n]
      ensures path <= place[n]
    {
      PrefixLetter(path, place[n], x);
    }
  }

  lemma ChildrenFineStep(place: map<string, seq<char>>, path: seq<char>, d: nat, s: set<char>, x: char)
    requires |path| < d && ChildrenFine(place, path, d, s)
    requires !LetterBelow(place, path + [x], d) && CleanAbove(place, path + [x], d)
    ensures ChildrenFine(place, path, d, s + {x})
  {
    forall n | n in place
      ensures path + [x] <= place[n] <==> path <= place[n] && |place[n]| > |path| && place[n][|path|] == x
    {
      PrefixLetter(path, place[n], x);
    }
  }

  /** With every subtree fine, all that can be wrong is a non-dot file in `path` itself. */
  lemma AllChildrenFine(place: map<string, seq<char>>, path: seq<char>, d: nat)
    requires |path| < d && ChildrenFine(place, path, d, LETTERS) && LetterPlaces(place)
    ensures !LetterBelow(place, path, d)
    ensures CleanAbove(place, path, d) <==> forall n :: n in place && place[n] == path ==> DotName(n)
  {
    forall n | n in place && path <= place[n] && |place[n]| < d && !DotName(n)
      ensures place[n] == path
    {
    }
  }

  lemma OwnFiles(files: Files, c: map<string, Content>, place: map<string, seq<char>>, path: seq<char>, d: nat)
    requires |path| < d < HASH_LEN && Layout(files, c, Lowered(place, path, d))
    ensures (forall k :: k in files ==> k.dir != path || DotName(k.name))
       <==> (forall n :: n in place && place[n] == path ==> DotName(n))
  {
    var now := Lowered(place, path, d);
    assert forall n :: n in place ==> (now[n] == path <==> place[n] == path);
    assert forall n :: n in now ==> Loc(now[n], n) in files;
  }

  lemma GrowthStart(dirs: set<seq<char>>, files: Files, c: map<string, Content>, place: map<string, seq<char>>,
                    path: seq<char>, d: nat)
    requires |path| < d < HASH_LEN && FullUnder(dirs, path, d) && Layout(files, c, place)
    ensures Growing(dirs, files, c, place, path, d, {})
  {
    assert LoweredIn(place, path, d, {}) == place;
  }

  lemma GrowthDone(dirs: set<seq<char>>, files: Files, c: map<string, Content>, place: map<string, seq<char>>,
                   path: seq<char>, d: nat)
    requires |path| < d < HASH_LEN && Growing(dirs, files, c, place, path, d, LETTERS) && LetterPlaces(place)
    ensures FullUnder(dirs, path, d + 1) && Layout(files, c, Lowered(place, path, d)) && !LetterBelow(place, path, d)
    ensures CleanAbove(place, path, d) <==> forall k :: k in files ==> k.dir != path || DotName(k.name)
  {
    LoweredInAll(place, path, d);
    GrownInAll(dirs, path, d);
    AllChildrenFine(place, path, d);
    OwnFiles(files, c, place, path, d);
  }

  lemma LetterFiles(files: Files, c: map<string, Content>, place: map<string, seq<char>>, path: seq<char>)
    requires Layout(files, c, place)
    ensures (forall x :: IsLetter(x) ==> Loc(path, [x]) !in files) <==> !LetterBelow(place, path, |path|)
  {
    if LetterBelow(place, path, |path|) {
      var n :| n in place && path <= place[n] && |place[n]| == |path| && LetterName(n);
      assert place[n] == path && n == [n[0]];
      assert Loc(path, [n[0]]) in files;
    }
    forall x | IsLetter(x) && Loc(path, [x]) in files
      ensures LetterBelow(place, path, |path|)
    {
      assert [x] in place && place[[x]] == path;
    }
  }

  lemma LeafGrown(dirs: set<seq<char>>, dirs': set<seq<char>>, path: seq<char>)
    requires IsLetters(path) && FullUnder(dirs, path, |path|)
    requires forall p: seq<char> :: p in dirs' <==> p in dirs || (|p| == |path| + 1 && path <= p && IsLetter(p[|path|]))
    ensures FullUnder(dirs', path, |path| + 1) && SameOutside(dirs, dirs', path)
  {
    forall p: seq<char> | path <= p && |p| == |path| + 1
      ensures IsLetter(p[|path|]) <==> IsLetters(p)
    {
      assert forall i :: 0 <= i < |path| ==> p[i] == path[i];
    }
  }

  lemma LeafLowered(files: Files, c: map<string, Content>, place: map<string, seq<char>>, path: seq<char>,
                    list: set<string>)
    requires |path| < HASH_LEN && Layout(files, c, place)
    requires list == set k | k in files && k.dir == path && !DotName(k.name) :: k.name
    ensures forall n :: n in list ==> n in place && place[n] == path
    ensures LoweredFiles(place, path, list) == Lowered(place, path, |path|)
  {
    forall n | n in place
      ensures n in list <==> path <= place[n] && |place[n]| == |path| && !DotName(n)
    {
      if path <= place[n] && |place[n]| == |path| && !DotName(n) {
        assert place[n] == path;
        assert Loc(path, n) in files;
      }
    }
  }
}
