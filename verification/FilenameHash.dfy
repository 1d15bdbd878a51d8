/** The filename hash and the path it gives a file (src/SipiFilenameHash.cpp). */
module FilenameHash {
  import Grid

  const SEED: nat := 137
  const NUMCHARS: nat := 26
  const HASH_LEN: nat := 6
  /** 26^6 */
  const MODVAL: nat := 308915776
  const WORD: nat := 0x1_0000_0000

  /** A name byte as `char` promoted to `unsigned int`: bytes from 128 on are negative chars. */
  function CharBits(c: char): (b: nat)
    ensures b < WORD
  {
    var b := c as int % 256;
    if b < 128 then b else WORD - 256 + b
  }

  /** One round of the hash; the product wraps in 32 bits before the modulus is taken. */
  function HashStep(h: nat, c: char): (r: nat)
    ensures r < MODVAL
  {
    ((h * SEED + CharBits(c)) % WORD) % MODVAL
  }

  function HashVal(name: string): (h: nat)
    ensures h < MODVAL
  {
    if |name| == 0 then 0 else HashStep(HashVal(name[..|name| - 1]), name[|name| - 1])
  }

  function Pow26(n: nat): (r: nat)
    ensures r >= 1
  {
    if n == 0 then 1 else 26 * Pow26(n - 1)
  }

  predicate IsLetter(c: char) { 'A' <= c <= 'Z' }

  predicate IsLetters(p: seq<char>) { forall i :: 0 <= i < |p| ==> IsLetter(p[i]) }

  /** The `n` low base-26 digits of `v`, lowest first, as letters. */
  function Digits(v: nat, n: nat): (d: seq<char>)
    ensures |d| == n && IsLetters(d)
  {
    if n == 0 then [] else ['A' + (v % NUMCHARS) as char] + Digits(v / NUMCHARS, n - 1)
  }

  function Value(d: seq<char>): nat
    requires IsLetters(d)
  {
    if |d| == 0 then 0 else (d[0] as nat - 'A' as nat) + 26 * Value(d[1..])
  }

  /** The letters lose nothing: the number they spell is the value they came from. */
  lemma {:induction false} DigitsRoundTrip(v: nat, n: nat)
    requires v < Pow26(n)
    ensures Value(Digits(v, n)) == v
  {
    if n > 0 {
      DigitsRoundTrip(v / NUMCHARS, n - 1);
      assert Digits(v, n)[1..] == Digits(v / NUMCHARS, n - 1);
    }
  }

  /** The base-26 digit of weight 26^i, as a letter. */
  function Letter(v: nat, i: nat): (c: char)
    ensures IsLetter(c)
  {
    'A' + ((v / Pow26(i)) % NUMCHARS) as char
  }

  /** The six directory letters of a name. */
  function HashOf(name: string): (d: seq<char>)
    ensures |d| == HASH_LEN && IsLetters(d)
  {
    seq(HASH_LEN, i requires 0 <= i < HASH_LEN => Letter(HashVal(name), i))
  }

  lemma DivDiv(v: nat, m: nat)
    requires m >= 1
    ensures (v / 26) / m == v / (26 * m)
  {
    var q, r := v / (26 * m), v % (26 * m);
    Grid.DivModBasic(v, 26 * m);
    var x := q * m;
    assert q * (26 * m) == 26 * x;
    Grid.DivModUnique(v / 26, q, m, r / 26);
  }

  lemma {:induction false} DigitIsLetter(v: nat, n: nat, i: nat)
    requires i < n
    ensures Digits(v, n)[i] == Letter(v, i)
  {
    if i > 0 {
      DigitIsLetter(v / NUMCHARS, n - 1, i - 1);
      DivDiv(v, Pow26(i - 1));
    }
  }

  lemma HashIsDigits(name: string)
    ensures HashOf(name) == Digits(HashVal(name), HASH_LEN)
  {
    forall i | 0 <= i < HASH_LEN
      ensures HashOf(name)[i] == Digits(HashVal(name), HASH_LEN)[i]
    {
      DigitIsLetter(HashVal(name), HASH_LEN, i);
    }
  }

  /** Two names share all six letters exactly when their hash values agree. */
  lemma HashLettersIffValue(a: string, b: string)
    ensures HashOf(a) == HashOf(b) <==> HashVal(a) == HashVal(b)
  {
    assert Pow26(6) == MODVAL by {
      assert Pow26(1) == 26 && Pow26(2) == 676 && Pow26(3) == 17576;
      assert Pow26(4) == 456976 && Pow26(5) == 11881376;
    }
    HashIsDigits(a);
    HashIsDigits(b);
    DigitsRoundTrip(HashVal(a), HASH_LEN);
    DigitsRoundTrip(HashVal(b), HASH_LEN);
  }

  // ---------------------------------------------------------------- the constructor and filepath()

  /** `name` is the end of `path`, has no slash, and is all of it or follows a slash. */
  ghost predicate AfterSlash(path: string, name: string) {
    && '/' !in name && |name| <= |path| && path[|path| - |name|..] == name
    && (|name| < |path| ==> path[|path| - |name| - 1] == '/')
  }

  lemma AfterSlashAppend(front: string, name: string, c: char, path: string)
    requires AfterSlash(front, name) && c != '/' && path == front + [c]
    ensures AfterSlash(path, name + [c])
  {
    assert path[|front| - |name|..] == front[|front| - |name|..] + [c];
  }

  lemma AfterSlashNone(path: string)
    requires |path| > 0 ==> path[|path| - 1] == '/'
    ensures AfterSlash(path, "")
  {
  }

  function BaseName(path: string): string {
    if |path| == 0 || path[|path| - 1] == '/' then "" else BaseName(path[..|path| - 1]) + [path[|path| - 1]]
  }

  /** It is everything after the last slash. */
  lemma {:induction false} BaseNameIs(path: string)
    ensures AfterSlash(path, BaseName(path))
  {
    if |path| == 0 || path[|path| - 1] == '/' {
      AfterSlashNone(path);
    } else {
      var n := |path| - 1;
      BaseNameIs(path[..n]);
      AfterSlashAppend(path[..n], BaseName(path[..n]), path[n], path);
    }
  }

  method HashLoop(name: string) returns (hashval: nat)
    ensures hashval == HashVal(name)
  {
    hashval := 0;
    for i := 0 to |name|
      invariant hashval == HashVal(name[..i])
    {
      assert name[..i + 1][..i] == name[..i];
      hashval := ((hashval * SEED + CharBits(name[i])) % WORD) % MODVAL;
    }
    assert name[..|name|] == name;
  }

  method LetterLoop(v: nat, len: nat) returns (hash: seq<char>)
    ensures hash == Digits(v, len)
  {
    hash := [];
    var hashval: nat := v;
    for i := 0 to len
      invariant Digits(v, len) == hash + Digits(hashval, len - i)
    {
      NextDigit(hash, hashval, len - i);
      hash := hash + ['A' + (hashval % NUMCHARS) as char];
      hashval := hashval / NUMCHARS;
    }
  }

  lemma NextDigit(hash: seq<char>, v: nat, n: nat)
    requires n >= 1
    ensures hash + Digits(v, n) == hash + ['A' + (v % NUMCHARS) as char] + Digits(v / NUMCHARS, n - 1)
  {
  }

  class Hasher {
    const path: string
    const name: string
    var hash: seq<char>

    /** Hashes the file name of `path_p`; the directories in front of it do not matter. */
    constructor (path_p: string)
      ensures path == path_p && name == BaseName(path_p)
      ensures hash == HashOf(BaseName(path_p))
    {
      path := path_p;
      name := BaseName(path_p);
      var hashval := HashLoop(BaseName(path_p));
      var letters := LetterLoop(hashval, HASH_LEN);
      hash := letters;
      HashIsDigits(BaseName(path_p));
    }

    /** The path below the image root at which a file of this name is kept with `levels` levels. */
    method FilePath(levels: nat) returns (outfname: string)
      requires levels <= |hash|
      ensures outfname == PathString(hash[..levels], name)
    {
      outfname := "";
      for i := 0 to levels
        invariant outfname == PathString(hash[..i], "")
      {
        assert hash[..i + 1][..i] == hash[..i];
        PathStringAppend(hash[..i + 1]);
        outfname := outfname + [hash[i], '/'];
      }
      PathStringName(hash[..levels], name);
      outfname := outfname + name;
    }
  }

  /** A file's path below the image root: its directories, each followed by a slash, and its name. */
  function PathString(dirs: seq<char>, name: string): string {
    if |dirs| == 0 then name else [dirs[0], '/'] + PathString(dirs[1..], name)
  }

  lemma {:induction false} PathStringName(dirs: seq<char>, name: string)
    ensures PathString(dirs, name) == PathString(dirs, "") + name
  {
    if |dirs| > 0 {
      PathStringName(dirs[1..], name);
    }
  }

  lemma {:induction false} PathStringAppend(dirs: seq<char>)
    requires |dirs| >= 1
    ensures PathString(dirs, "") == PathString(dirs[..|dirs| - 1], "") + [dirs[|dirs| - 1], '/']
  {
    var n := |dirs| - 1;
    if n > 0 {
      PathStringAppend(dirs[1..]);
      assert dirs[1..][..n - 1] == dirs[..n][1..];
    }
  }

  /** Different places have different paths: with '/'-free names a path determines directory and name. */
  lemma {:induction false} PathStringInjective(d1: seq<char>, n1: string, d2: seq<char>, n2: string)
    requires '/' !in n1 && '/' !in n2 && '/' !in d1 && '/' !in d2
    requires PathString(d1, n1) == PathString(d2, n2)
    ensures d1 == d2 && n1 == n2
  {
    var p := PathString(d1, n1);
    assert |d1| > 0 ==> p[1] == '/';
    assert |d2| > 0 ==> p[1] == '/';
    if |d1| > 0 && |d2| > 0 {
      assert p[2..] == PathString(d1[1..], n1) && p[2..] == PathString(d2[1..], n2);
      assert p[0] == d1[0] && p[0] == d2[0];
      PathStringInjective(d1[1..], n1, d2[1..], n2);
      assert d1 == [d1[0]] + d1[1..] && d2 == [d2[0]] + d2[1..];
    }
  }
}
