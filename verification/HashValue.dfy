/** What the filename hash of a name is, as a number (src/SipiFilenameHash.cpp), and where it puts files. */
module HashValue {
  import Wrap
  import opened FilenameHash

  // ---------------------------------------------------------------- the number a name spells

  /** A name byte as a signed `char`. */
  function SignedByte(c: char): int {
    var b := c as int % 256;
    if b < 128 then b else b - 256
  }

  /** The number whose base-137 digits are the signed bytes of the name. */
  function Number(name: string): int {
    if |name| == 0 then 0
    else 137 * Number(name[..|name| - 1]) + SignedByte(name[|name| - 1])
  }

  /** What the last round computes before it wraps. */
  function Unwrapped(name: string): int
    requires |name| >= 1
  {
    137 * HashVal(name[..|name| - 1]) + SignedByte(name[|name| - 1])
  }

  /** How often 2^32 was lost, each loss carried through the later rounds. */
  function Turns(name: string): int {
    if |name| == 0 then 0
    else 137 * Turns(name[..|name| - 1]) + Unwrapped(name) / 0x1_0000_0000
  }

  lemma SignedBits(h: nat, c: char)
    ensures (h * 137 + CharBits(c)) % WORD == (137 * h + SignedByte(c)) % WORD
  {
    if c as int % 256 >= 128 {
      Wrap.ModShift(137 * h + SignedByte(c), 1, WORD);
    }
  }

  lemma RoundIs(name: string)
    requires |name| >= 1
    ensures HashVal(name) == (Unwrapped(name) - WORD * (Unwrapped(name) / WORD)) % MODVAL
  {
    SignedBits(HashVal(name[..|name| - 1]), name[|name| - 1]);
  }

  /** A round on the value modulo 26^6, in terms of the value before reduction. */
  lemma RoundModulo(h: int, v: int, s: int, u: int)
    requires h == v % MODVAL
    ensures (137 * h + s - u) % MODVAL == (137 * v + s - u) % MODVAL
  {
    var q := v / MODVAL;
    assert 137 * v + s - u == (137 * h + s - u) + (137 * q) * MODVAL;
    Wrap.ModShift(137 * h + s - u, 137 * q, MODVAL);
  }

  /** For every name: the number it spells, less the lost multiples of 2^32, modulo 26^6. */
  lemma {:induction false} HashIsNumber(name: string)
    ensures HashVal(name) == (Number(name) - 0x1_0000_0000 * Turns(name)) % 308915776
  {
    if |name| > 0 {
      var front := name[..|name| - 1];
      HashIsNumber(front);
      RoundIs(name);
      RoundModulo(HashVal(front), Number(front) - WORD * Turns(front), SignedByte(name[|name| - 1]),
                  WORD * (Unwrapped(name) / WORD));
    }
  }

  /** The hash is the plain residue of the number exactly if the losses come to a multiple of 26^6. */
  lemma PlainResidueIff(name: string)
    ensures HashVal(name) == Number(name) % 308915776 <==> (0x1_0000_0000 * Turns(name)) % 308915776 == 0
  {
    var n, lost := Number(name), 0x1_0000_0000 * Turns(name);
    assert HashVal(name) == (n - lost) % 308915776 by { HashIsNumber(name); }
    PlainIff(HashVal(name), n, lost, 308915776);
  }

  lemma PlainIff(h: nat, n: int, lost: int, w: nat)
    requires w > 0 && h == (n - lost) % w
    ensures h == n % w <==> lost % w == 0
  {
    SameResidueIff(n, lost, w);
  }

  lemma SameResidueIff(a: int, b: int, w: nat)
    requires w > 0
    ensures (a - b) % w == a % w <==> b % w == 0
  {
    ShiftedResidueIff(a, b, a % w, w);
  }

  lemma ShiftedResidueIff(a: int, b: int, r: nat, w: nat)
    requires w > 0 && a % w == r
    ensures (a - b) % w == r <==> b % w == 0
  {
    Wrap.ToMultiple(a, r, w);
    Wrap.ResidueIff(a - b, r, w);
    Wrap.MultipleSub(a - r, b, w);
    assert a - b - r == a - r - b;
  }

  /** No round reaches 2^32 or falls below zero. */
  ghost predicate WithinWord(name: string) {
    forall n :: 1 <= n <= |name| ==> 0 <= Unwrapped(name[..n]) < 0x1_0000_0000
  }

  /** A name whose partial values stay within 32 bits hashes to its number modulo 26^6. */
  lemma {:induction false} ShortNames(name: string)
    requires WithinWord(name)
    ensures Turns(name) == 0 && HashVal(name) == Number(name) % 308915776
  {
    if |name| > 0 {
      var front := name[..|name| - 1];
      forall n | 1 <= n <= |front|
        ensures 0 <= Unwrapped(front[..n]) < WORD
      {
        assert front[..n] == name[..n];
      }
      ShortNames(front);
      assert name[..|name|] == name;
      assert Unwrapped(name) / WORD == 0;
    }
    PlainResidueIff(name);
  }

  // ---------------------------------------------------------------- names whose rounds wrap

  /** Round `i` of a name, on a plain character in 32-bit arithmetic, goes from h[i] to h[i + 1]. */
  ghost predicate Round(name: string, h: seq<nat>, i: nat)
    requires i < |name| < |h|
  {
    name[i] as int < 128 && h[i + 1] == (137 * h[i] + name[i] as int) % 0x1_0000_0000 % 308915776
  }

  lemma PlainStep(h: nat, c: char)
    requires c as int < 128
    ensures HashStep(h, c) == (137 * h + c as int) % 0x1_0000_0000 % 308915776
  {
  }

  lemma {:induction false} HashByRounds(name: string, h: seq<nat>)
    requires |h| == |name| + 1 && h[0] == 0 && forall i :: 0 <= i < |name| ==> Round(name, h, i)
    ensures HashVal(name) == h[|name|]
  {
    if |name| > 0 {
      var n := |name| - 1;
      var front, before := name[..n], h[..n + 1];
      forall i | 0 <= i < n
        ensures Round(front, before, i)
      {
        assert Round(name, h, i);
      }
      HashByRounds(front, before);
      assert Round(name, h, n);
      PlainStep(h[n], name[n]);
    }
  }

  /** The letters of a value, one division for each. */
  ghost predicate Spells(v: nat, d: seq<char>) {
    && |d| == 6 && d[0] as int == 65 + v % 26 && d[1] as int == 65 + v / 26 % 26
    && d[2] as int == 65 + v / 676 % 26 && d[3] as int == 65 + v / 17576 % 26
    && d[4] as int == 65 + v / 456976 % 26 && d[5] as int == 65 + v / 11881376 % 26
  }

  lemma LettersOf(name: string, v: nat, d: seq<char>)
    requires HashVal(name) == v && Spells(v, d)
    ensures HashOf(name) == d
  {
    LettersAre(v, d);
  }

  lemma LettersAre(v: nat, d: seq<char>)
    requires Spells(v, d)
    ensures forall i :: 0 <= i < 6 ==> Letter(v, i) == d[i]
  {
    assert Pow26(0) == 1 && Pow26(1) == 26 && Pow26(2) == 676 && Pow26(3) == 17576;
    assert Pow26(4) == 456976 && Pow26(5) == 11881376;
    forall i | 0 <= i < 6
      ensures Letter(v, i) == d[i]
    {
      if i == 0 {
      } else if i == 1 {
      } else if i == 2 {
      } else if i == 3 {
      } else if i == 4 {
      }
    }
  }

  const A_TIF: seq<nat> := [0, 97, 13335, 1827011, 250300612, 210507786]

  lemma ATifRound(name: string, h: seq<nat>, i: nat)
    requires name == "a.tif" && h == A_TIF && i < 5
    ensures Round(name, h, i)
  {
    if i == 0 {
    } else if i == 1 {
    } else if i == 2 {
    } else if i == 3 {
    }
  }

  lemma ATif(name: string, h: seq<nat>)
    requires name == "a.tif" && h == A_TIF
    ensures HashVal(name) == h[5]
  {
    forall i | 0 <= i < 5
      ensures Round(name, h, i)
    {
      ATifRound(name, h, i);
    }
    HashByRounds(name, h);
  }

  /** "a.tif" wraps in its last round. */
  lemma HashOfATif(name: string)
    requires name == "a.tif"
    ensures HashVal(name) == 210507786 && HashOf(name) == "IBARSR"
  {
    ATif(name, A_TIF);
    SpellsIbarsr(A_TIF[5]);
    LettersOf(name, A_TIF[5], "IBARSR");
  }

  lemma SpellsIbarsr(v: nat)
    requires v == 210507786
    ensures Spells(v, "IBARSR")
  {
  }

  const TEST_IMAGE: seq<nat> := [
    0, 116, 15993, 2191156, 300188488, 308706855, 240060040, 43212533, 80570942, 285874133, 201134882, 241096224,
    185169738, 186428426, 49952844]

  lemma RoundsOfTest(name: string, h: seq<nat>, i: nat)
    requires name == "test_image.jp2" && h == TEST_IMAGE && i < 4
    ensures Round(name, h, i)
  {
    if i == 0 {
    } else if i == 1 {
    } else if i == 2 {
    }
  }

  lemma RoundsOfIma(name: string, h: seq<nat>, i: nat)
    requires name == "test_image.jp2" && h == TEST_IMAGE && 4 <= i < 8
    ensures Round(name, h, i)
  {
    if i == 4 {
    } else if i == 5 {
    } else if i == 6 {
    }
  }

  lemma RoundsOfGe(name: string, h: seq<nat>, i: nat)
    requires name == "test_image.jp2" && h == TEST_IMAGE && 8 <= i < 11
    ensures Round(name, h, i)
  {
    if i == 8 {
    } else if i == 9 {
    }
  }

  lemma RoundsOfJp2(name: string, h: seq<nat>, i: nat)
    requires name == "test_image.jp2" && h == TEST_IMAGE && 11 <= i < 14
    ensures Round(name, h, i)
  {
    if i == 11 {
    } else if i == 12 {
    }
  }

  lemma TestImage(name: string, h: seq<nat>)
    requires name == "test_image.jp2" && h == TEST_IMAGE
    ensures HashVal(name) == h[14]
  {
    forall i | 0 <= i < 14
      ensures Round(name, h, i)
    {
      if i < 4 {
        RoundsOfTest(name, h, i);
      } else if i < 8 {
        RoundsOfIma(name, h, i);
      } else if i < 11 {
        RoundsOfGe(name, h, i);
      } else {
        RoundsOfJp2(name, h, i);
      }
    }
    HashByRounds(name, h);
  }

  /** The name of the unit tests, most of whose rounds wrap. */
  lemma HashOfTestImage(name: string)
    requires name == "test_image.jp2"
    ensures HashVal(name) == 49952844 && HashOf(name) == "GTCIFE"
  {
    TestImage(name, TEST_IMAGE);
    SpellsGtcife(TEST_IMAGE[14]);
    LettersOf(name, TEST_IMAGE[14], "GTCIFE");
  }

  lemma SpellsGtcife(v: nat)
    requires v == 49952844
    ensures Spells(v, "GTCIFE")
  {
  }

  /** A byte above 127 is a negative char: 0xE9 alone is 2^32 - 23, reduced. */
  lemma HashOfHighByte(name: string)
    requires |name| == 1 && name[0] as int == 0xE9
    ensures HashVal(name) == 279062185 && HashOf(name) == "ZWLRMX"
  {
    assert HashVal(name[..0]) == 0;
    LettersOf(name, 279062185, "ZWLRMX");
  }

  // ---------------------------------------------------------------- paths

  /** With three levels, "images/a.tif" is kept at "I/B/A/a.tif". */
  method PathOfATif(path: string) returns (p: string)
    requires path == "images/a.tif"
    ensures p == "I/B/A/a.tif"
  {
    var h := new Hasher(path);
    NameOfATif(path);
    HashOfATif(h.name);
    p := h.FilePath(3);
    ThreeLevels(h.hash[..3], h.name);
  }

  lemma ThreeLevels(dirs: seq<char>, name: string)
    requires dirs == "IBA" && name == "a.tif"
    ensures PathString(dirs, name) == "I/B/A/a.tif"
  {
    assert dirs[1..][1..][1..] == [];
    assert PathString(dirs[1..][1..], name) == ['A', '/'] + name;
    assert PathString(dirs[1..], name) == ['B', '/'] + (['A', '/'] + name);
  }

  /** Everything from `k` on, if a slash is in front of it and none in it. */
  lemma {:induction false} BaseNameFrom(path: string, k: nat)
    requires k <= |path| && (k > 0 ==> path[k - 1] == '/') && forall i :: k <= i < |path| ==> path[i] != '/'
    ensures BaseName(path) == path[k..]
  {
    if |path| > k {
      var n := |path| - 1;
      BaseNameFrom(path[..n], k);
      assert path[..n][k..] + [path[n]] == path[k..];
    }
  }

  lemma NameOfATif(path: string)
    requires path == "images/a.tif"
    ensures BaseName(path) == "a.tif"
  {
    BaseNameFrom(path, 7);
    assert path[7..] == "a.tif";
  }
}
