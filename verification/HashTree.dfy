/**
 The image repository as a mutable file system, with the recursive procedures of
 src/SipiFilenameHash.cpp that count, add and remove directory levels.

 Directories are the A-Z ones below the image root, named by their letters; the root is
 the empty sequence. A thrown error is a `false` result. The order in which `readdir`
 delivers entries is arbitrary.
 */
module HashTree {
  import opened FilenameHash

  type Content = seq<bv8>

  /** Where a file is: its directory and its name. */
  datatype Loc = Loc(dir: seq<char>, name: string)

  /** The path of `n` would be that of a letter directory. */
  predicate LetterName(n: string) { |n| == 1 && IsLetter(n[0]) }

  predicate DotName(n: string) { |n| >= 1 && n[0] == '.' }

  /** The directory of a file of name `n` in a repository of `l` levels. */
  function HashDir(n: string, l: nat): (d: seq<char>)
    requires l <= HASH_LEN
    ensures |d| == l && IsLetters(d)
  {
    HashOf(n)[..l]
  }

  type Files = map<Loc, Content>

  /** Each name is kept in exactly one directory, `place`, with its content, and there is no other file. */
  ghost predicate Layout(files: Files, c: map<string, Content>, place: map<string, seq<char>>) {
    && place.Keys == c.Keys
    && (forall n :: n in place ==> Loc(place[n], n) in files && files[Loc(place[n], n)] == c[n])
    && (forall k :: k in files ==> k.name in place && k.dir == place[k.name])
  }

  /** Every file is still there, once, with its content, wherever it is. */
  ghost predicate Kept(files: Files, c: map<string, Content>) { exists place :: Layout(files, c, place) }

  /** Below `path` the tree has all A-Z directories down to depth `d` and none deeper. */
  ghost predicate FullUnder(dirs: set<seq<char>>, path: seq<char>, d: nat) {
    forall p: seq<char> :: path <= p ==> (p in dirs <==> IsLetters(p) && |p| <= d)
  }

  /** `dirs` and `dirs'` agree except below `path`. */
  ghost predicate SameOutside(dirs: set<seq<char>>, dirs': set<seq<char>>, path: seq<char>) {
    forall p: seq<char> :: !(path <= p) ==> (p in dirs <==> p in dirs')
  }

  const LETTERS: set<char> := set c: char | IsLetter(c)

  /** The name of a file of depth `d` below `path` is that of a letter directory. */
  ghost predicate LetterBelow(place: map<string, seq<char>>, path: seq<char>, d: nat) {
    exists n :: n in place && path <= place[n] && |place[n]| == d && LetterName(n)
  }

  ghost predicate LetterPlaces(place: map<string, seq<char>>) {
    forall n :: n in place ==> IsLetters(place[n])
  }

  class FileTree {
    var dirs: set<seq<char>>
    var files: Files
    /** How many files a rename has replaced so far. */
    var overwritten: nat

    /** `mkdir`: fails when the path exists, as a directory or as a file. */
    method MakeDir(d: seq<char>, c: char) returns (ok: bool)
      modifies this`dirs
      ensures ok <==> old(d + [c] !in dirs && Loc(d, [c]) !in files)
      ensures dirs == if ok then old(dirs) + {d + [c]} else old(dirs)
    {
      ok := d + [c] !in dirs && Loc(d, [c]) !in files;
      if ok { dirs := dirs + {d + [c]}; }
    }

    /** `rmdir`: fails unless the directory exists and is empty. */
    method RemoveDir(d: seq<char>) returns (ok: bool)
      modifies this`dirs
      ensures ok <==> old(EmptyDir(d))
      ensures dirs == if ok then old(dirs) - {d} else old(dirs)
    {
      ok := d in dirs && (forall k | k in files :: k.dir != d) &&
        (forall p | p in dirs :: |p| == 0 || p[..|p| - 1] != d);
      if ok { dirs := dirs - {d}; }
    }

    ghost predicate EmptyDir(d: seq<char>)
      reads this
    {
      d in dirs && (forall k :: k in files ==> k.dir != d) && (forall p :: p in dirs ==> |p| == 0 || p[..|p| - 1] != d)
    }

    /** `rename` of a file into another directory: fails on a directory of that name, replaces a file. */
    method Rename(d: seq<char>, n: string, d': seq<char>) returns (ok: bool)
      requires Loc(d, n) in files && d != d'
      modifies this`files, this`overwritten
      ensures ok <==> !(LetterName(n) && d' + n in dirs)
      ensures files == if ok then (old(files) - {Loc(d, n)})[Loc(d', n) := old(files)[Loc(d, n)]] else old(files)
      ensures overwritten == old(overwritten) + (if ok && Loc(d', n) in old(files) then 1 else 0)
    {
      ok := !(LetterName(n) && d' + n in dirs);
      if ok {
        if Loc(d', n) in files { overwritten := overwritten + 1; }
        files := (files - {Loc(d, n)})[Loc(d', n) := files[Loc(d, n)]];
      }
    }
  }

  lemma PrefixLetter(path: seq<char>, p: seq<char>, c: char)
    ensures path + [c] <= p <==> path <= p && |p| > |path| && p[|path|] == c
  {
    if path <= p && |p| > |path| && p[|path|] == c {
      assert p[..|path| + 1] == path + [c];
    }
    if path + [c] <= p {
      assert path == (path + [c])[..|path|];
    }
  }

  /** Which subdirectories a directory of a full tree has. */
  lemma SubdirsOf(dirs: set<seq<char>>, path: seq<char>, d: nat)
    requires IsLetters(path) && |path| <= d && FullUnder(dirs, path, d)
    ensures forall x: char :: IsLetter(x) ==> (path + [x] in dirs <==> |path| < d)
    ensures (set x: char | IsLetter(x) && path + [x] in dirs) == (if |path| < d then LETTERS else {}) && LETTERS != {}
  {
    forall x: char | IsLetter(x)
      ensures path + [x] in dirs <==> |path| < d
    {
      assert path <= path + [x] && IsLetters(path + [x]);
    }
    assert 'A' in LETTERS;
  }

  /** Moving one file of a layout changes its place only, and replaces nothing. */
  lemma LayoutMove(files: Files, c: map<string, Content>, place: map<string, seq<char>>, n: string, d: seq<char>)
    requires Layout(files, c, place) && n in place && d != place[n]
    ensures Loc(d, n) !in files
    ensures Layout((files - {Loc(place[n], n)})[Loc(d, n) := files[Loc(place[n], n)]], c, place[n := d])
  {
    var files' := (files - {Loc(place[n], n)})[Loc(d, n) := files[Loc(place[n], n)]];
    var place' := place[n := d];
    assert place'.Keys == c.Keys;
    forall m | m in place'
      ensures Loc(place'[m], m) in files' && files'[Loc(place'[m], m)] == c[m]
    {
      assert m != n ==> Loc(place[m], m) in files;
    }
  }
}
