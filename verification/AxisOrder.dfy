/**
 Which source samples an output of a scaled axis reads, and with what weights, in whole numbers
 (src/SipiImage.cpp, `build_axis_weights`): said without the kernels the weights are built from.
 */
module AxisOrder {
  import opened Sums
  import opened Grid
  import opened AxisWeights

  // ---------------------------------------------------------------- enlarging

  /** The whole number nearest to a / n, halves up. */
  function Nearest(a: nat, n: nat): nat
    requires n >= 1
  {
    (2 * a + n) / (2 * n)
  }

  /** The fixed-point part of r / n of one; the larger of two parts takes what the smaller leaves. */
  function Part(r: nat, n: nat): int
    requires n >= 1 && r <= n
  {
    if 2 * r <= n then Nearest(ONE * r, n) else ONE - Nearest(ONE * (n - r), n)
  }

  /** The source sample at or left of output `i` when `src` samples are spread over `dst`. */
  function LeftSample(src: nat, dst: nat, i: nat): nat
    requires src >= 1 && dst >= 2
  {
    Multiple(i, src - 1);
    i * (src - 1) / (dst - 1)
  }

  /** What sample `s` contributes to output `i`: the ends fall on the ends, and the rest evenly between. */
  function EnlargeWeight(src: nat, dst: nat, i: nat, s: nat): int
    requires src >= 1 && dst >= 2
  {
    Multiple(i, src - 1);
    var right := RightPart(src, dst, i);
    if s == LeftSample(src, dst, i) then ONE - right
    else if s == LeftSample(src, dst, i) + 1 then right
    else 0
  }

  lemma FloorOfQuotient(v: real, a: nat, n: nat)
    requires n >= 1 && v * (n as real) == a as real
    ensures v.Floor == a / n
  {
    var q := a / n;
    DivModBasic(a, n);
    ProductCast(q, n);
    ProductCast(q + 1, n);
    assert (q + 1) * n == q * n + n;
    TimesLess(q as real, (q + 1) as real, v, n as real);
  }

  lemma TimesLess(a: real, b: real, v: real, c: real)
    requires c > 0.0 && a * c <= v * c < b * c
    ensures a <= v < b
  {
    if v < a { LessTimes(v, a, c); }
    if b < v { LessTimes(b, v, c); }
  }

  lemma LessTimes(a: real, b: real, c: real)
    requires a < b && c > 0.0
    ensures a * c < b * c
  {
    assert (b - a) * c > 0.0;
  }

  lemma QuotientTimes(a: real, b: real)
    requires b > 0.0
    ensures a / b * b == a
  {
  }

  lemma HalfUp(f: real, n: real)
    ensures (f * 16384.0 + 0.5) * (2.0 * n) == 32768.0 * (f * n) + n
  {
  }

  lemma FixedIsNearest(f: real, r: nat, n: nat)
    requires n >= 1 && f >= 0.0 && f * (n as real) == r as real
    ensures Fixed(f) == Nearest(ONE * r, n)
  {
    HalfUp(f, n as real);
    FloorOfQuotient(f * 16384.0 + 0.5, 2 * (ONE * r) + n, 2 * n);
  }

  /** The tent around s0 + f. */
  lemma TentAt(pos: real, s0: nat, f: real, s: nat)
    requires 0.0 <= f < 1.0 && pos == s0 as real + f
    ensures Tent(pos, s) == if s == s0 then 1.0 - f else if s == s0 + 1 then f else 0.0
  {
  }

  lemma FractionRange(r: nat, n: nat)
    requires r < n
    ensures 0.0 <= (r as real) / (n as real) < 1.0
  {
  }

  lemma SplitQuotient(x: nat, q: nat, r: nat, n: nat)
    requires n >= 1 && x == q * n + r
    ensures (x as real) / (n as real) == q as real + (r as real) / (n as real)
  {
    ProductCast(q, n);
    DivProduct(q as real, n as real);
    DivSum((q * n) as real, r as real, n as real);
  }

  lemma DivSum(a: real, b: real, c: real)
    requires c > 0.0
    ensures (a + b) / c == a / c + b / c
  {
  }

  lemma PairSum(x: real, y: real)
    ensures SumReal([x, y]) == x + y && SumReal([x]) == x
  {
    SumRealAppend([], x);
    SumRealAppend([x], y);
    assert [] + [x] == [x] && [x] + [y] == [x, y];
  }

  /** Two weights: the smaller is rounded, the larger takes the rest. */
  lemma QuantisedPair(x: real, y: real)
    ensures Quantised([x, y]) == if y > x then [Fixed(x), ONE - Fixed(x)] else [ONE - Fixed(y), Fixed(y)]
  {
    var r := Rounded([x, y]);
    assert r == [Fixed(x), Fixed(y)];
    SumAppend([], Fixed(x));
    SumAppend([Fixed(x)], Fixed(y));
    assert [] + [Fixed(x)] == [Fixed(x)] && [Fixed(x)] + [Fixed(y)] == r;
    var m := ArgMax([x, y]);
    assert [x, y][m] >= [x, y][0] && [x, y][m] >= [x, y][1];
  }

  lemma QuantisedOne(x: real)
    ensures Quantised([x]) == [ONE]
  {
    var r := Rounded([x]);
    assert r == [] + [r[0]];
    SumAppend([], r[0]);
    assert ArgMax([x]) == 0;
  }

  lemma FixedZero()
    ensures Fixed(0.0) == 0
  {
  }

  /** What the tent around s0 + f gives sample `s`, and what is stored for it when f = r / n. */
  ghost function TentPart(s0: nat, f: real, s: nat): real {
    if s == s0 then 1.0 - f else if s == s0 + 1 then f else 0.0
  }

  function StoredPart(s0: nat, r: nat, n: nat, s: nat): int
    requires n >= 1 && r <= n
  {
    if s == s0 then ONE - Part(r, n) else if s == s0 + 1 then Part(r, n) else 0
  }

  /** Taps that give `p` to sample s0 + 1 and the rest of one to s0. */
  ghost predicate PairTaps(ids: seq<nat>, wts: seq<int>, s0: nat, p: int) {
    || (ids == [s0] && wts == [ONE] && p == 0)
    || (ids == [s0, s0 + 1] && wts == [ONE - p, p])
    || (s0 >= 1 && ids == [s0 - 1, s0] && wts == [0, ONE] && p == 0)
  }

  /** f = r / n, with the two roundings that matter. */
  ghost predicate Fraction(f: real, r: nat, n: nat) {
    && r < n && 0.0 <= f < 1.0 && (f > 1.0 - f <==> 2 * r > n) && (f == 0.0 <==> r == 0)
    && Fixed(f) == Nearest(ONE * r, n) && Fixed(1.0 - f) == Nearest(ONE * (n - r), n)
  }

  lemma IsFraction(f: real, r: nat, n: nat)
    requires r < n && 0.0 <= f < 1.0 && f * (n as real) == r as real
    ensures Fraction(f, r, n)
  {
    FixedIsNearest(f, r, n);
    assert (1.0 - f) * (n as real) == n as real - f * (n as real);
    FixedIsNearest(1.0 - f, n - r, n);
    HalfIff(f, r, n);
  }

  lemma HalfIff(f: real, r: nat, n: nat)
    requires n >= 1 && f * (n as real) == r as real && f >= 0.0
    ensures f > 1.0 - f <==> 2 * r > n
    ensures f == 0.0 <==> r == 0
  {
    var m := n as real;
    if f > 0.5 {
      LessTimes(0.5, f, m);
      assert r as real > 0.5 * m;
    } else if f < 0.5 {
      LessTimes(f, 0.5, m);
      assert (r as real) < 0.5 * m;
    } else {
      assert r as real == 0.5 * m;
    }
    if f > 0.0 { LessTimes(0.0, f, m); }
  }

  lemma TwoTaps(a: nat, s0: nat, f: real, r: nat, n: nat)
    requires Fraction(f, r, n) && TentPart(s0, f, a) + TentPart(s0, f, a + 1) == 1.0
    ensures Quantised([TentPart(s0, f, a), TentPart(s0, f, a + 1)])
         == [StoredPart(s0, r, n, a), StoredPart(s0, r, n, a + 1)]
    ensures a == s0 || (a + 1 == s0 && r == 0)
  {
    QuantisedPair(TentPart(s0, f, a), TentPart(s0, f, a + 1));
    FixedZero();
    PartZero(n);
  }

  lemma OneTap(a: nat, s0: nat, f: real, r: nat, n: nat)
    requires Fraction(f, r, n) && TentPart(s0, f, a) == 1.0
    ensures Quantised([TentPart(s0, f, a)]) == [StoredPart(s0, r, n, a)] && a == s0 && r == 0
  {
    QuantisedOne(TentPart(s0, f, a));
    PartZero(n);
  }

  lemma TentGroup(k: Kernel, s0: nat, f: real, ids: seq<nat>)
    requires 0.0 <= f < 1.0 && k.Linear? && k.pos == s0 as real + f
    ensures RealGroup(k, ids) == seq(|ids|, t requires 0 <= t < |ids| => TentPart(s0, f, ids[t]))
  {
    forall t | 0 <= t < |ids|
      ensures Tent(k.pos, ids[t]) == TentPart(s0, f, ids[t])
    {
      TentAt(k.pos, s0, f, ids[t]);
    }
  }

  /** Position and remainder of output `i`, as numbers. */
  lemma PositionSplits(src: nat, dst: nat, i: nat) returns (f: real)
    requires 1 <= src < dst && i < dst
    ensures 0 <= i * (src - 1) && Fraction(f, i * (src - 1) % (dst - 1), dst - 1)
    ensures KernelOf(src, dst, i) == Linear(LeftSample(src, dst, i) as real + f)
  {
    Multiple(i, src - 1);
    f := SplitPosition(i * (src - 1), dst - 1);
    LinearKernel(src, dst, i, i * (src - 1));
  }

  lemma LinearKernel(src: nat, dst: nat, i: nat, x: nat)
    requires 1 <= src < dst && i < dst && x == i * (src - 1)
    ensures KernelOf(src, dst, i) == Linear((x as real) / ((dst - 1) as real))
  {
    ProductCast(i, src - 1);
  }

  lemma SplitPosition(x: nat, n: nat) returns (f: real)
    requires n >= 1
    ensures 0 <= x / n && Fraction(f, x % n, n) && (x as real) / (n as real) == (x / n) as real + f
  {
    DivModBasic(x, n);
    f := (x % n) as real / (n as real);
    QuotientTimes((x % n) as real, n as real);
    FractionRange(x % n, n);
    IsFraction(f, x % n, n);
    SplitQuotient(x, x / n, x % n, n);
  }

  lemma TapShape(k: Kernel, src: nat, ids: seq<nat>)
    requires k.Linear? && GroupOk(k, src, ids)
    ensures (ids == [ids[0]] || ids == [ids[0], ids[0] + 1]) && SumReal(RealGroup(k, ids)) == 1.0
  {
  }

  lemma PairShape(ws: seq<real>, ids: seq<nat>, wts: seq<int>, s0: nat, f: real, r: nat, n: nat)
    requires Fraction(f, r, n) && |ids| >= 1 && (ids == [ids[0]] || ids == [ids[0], ids[0] + 1])
    requires ws == seq(|ids|, t requires 0 <= t < |ids| => TentPart(s0, f, ids[t]))
    requires SumReal(ws) == 1.0 && wts == Quantised(ws)
    ensures PairTaps(ids, wts, s0, Part(r, n))
  {
    PartZero(n);
    var a := ids[0];
    if |ids| == 1 {
      assert ws == [TentPart(s0, f, a)];
      PairSum(ws[0], 0.0);
      OneTap(a, s0, f, r, n);
    } else {
      assert ws == [TentPart(s0, f, a), TentPart(s0, f, a + 1)];
      PairSum(ws[0], ws[1]);
      TwoTaps(a, s0, f, r, n);
    }
  }

  lemma DivMono(x: nat, y: nat, m: nat)
    requires x <= y && m >= 1
    ensures 0 <= x / m <= y / m
    ensures x / m == y / m ==> x % m <= y % m
  {
    DivModBasic(x, m);
    DivModBasic(y, m);
    Multiple(y / m - x / m, m);
    assert (y / m - x / m) * m == (y / m) * m - (x / m) * m;
  }

  lemma SmallPart(r: nat, n: nat)
    requires n >= 1 && 2 * r <= n
    ensures 0 <= Nearest(ONE * r, n) <= 8192
  {
    DivMono(2 * (ONE * r) + n, 16385 * n, 2 * n);
    DivModUnique(16385 * n, 8192, 2 * n, n);
  }

  lemma PartRange(r: nat, n: nat)
    requires n >= 1 && r <= n
    ensures 0 <= Part(r, n) <= ONE
  {
    if 2 * r <= n { SmallPart(r, n); } else { SmallPart(n - r, n); }
  }

  lemma PartMonotone(r: nat, r': nat, n: nat)
    requires n >= 1 && r <= r' <= n
    ensures Part(r, n) <= Part(r', n)
  {
    if 2 * r' <= n {
      DivMono(2 * (ONE * r) + n, 2 * (ONE * r') + n, 2 * n);
    } else if 2 * r <= n {
      SmallPart(r, n);
      SmallPart(n - r', n);
    } else {
      DivMono(2 * (ONE * (n - r')) + n, 2 * (ONE * (n - r)) + n, 2 * n);
    }
  }

  /** A later output is not further left, and within one gap takes no less from the right. */
  lemma OutputsOrdered(src: nat, dst: nat, i: nat, j: nat)
    requires src >= 1 && dst >= 2 && i <= j
    ensures LeftSample(src, dst, i) <= LeftSample(src, dst, j)
    ensures LeftSample(src, dst, i) == LeftSample(src, dst, j) ==> RightPart(src, dst, i) <= RightPart(src, dst, j)
    ensures 0 <= RightPart(src, dst, i) <= ONE
  {
    Multiple(i, src - 1);
    MulMono(i, j, src - 1);
    var x, y, n := i * (src - 1), j * (src - 1), dst - 1;
    DivMono(x, y, n);
    PartRange(x % n, n);
    if x / n == y / n { PartMonotone(x % n, y % n, n); }
  }

  /** The share of the sample to the right of output `i`. */
  function RightPart(src: nat, dst: nat, i: nat): int
    requires src >= 1 && dst >= 2
  {
    Multiple(i, src - 1);
    Part(i * (src - 1) % (dst - 1), dst - 1)
  }

  /** Every output of an enlarged axis reads the sample to its left and the one to its right. */
  lemma EnlargePair(w: Weights, src: nat, dst: nat, i: nat)
    requires 1 <= src < dst && i < dst && BuiltFor(w, src, dst)
    ensures PairTaps(Ids(w, i), Wts(w, i), LeftSample(src, dst, i), RightPart(src, dst, i))
  {
    assert OutputOk(KernelOf(src, dst, i), src, Ids(w, i), Wts(w, i));
    KernelPair(src, dst, i, Ids(w, i), Wts(w, i));
  }

  lemma KernelPair(src: nat, dst: nat, i: nat, ids: seq<nat>, wts: seq<int>)
    requires 1 <= src < dst && i < dst && OutputOk(KernelOf(src, dst, i), src, ids, wts)
    ensures PairTaps(ids, wts, LeftSample(src, dst, i), RightPart(src, dst, i))
  {
    var f := PositionSplits(src, dst, i);
    var k := KernelOf(src, dst, i);
    TentGroup(k, LeftSample(src, dst, i), f, ids);
    TapShape(k, src, ids);
    PairShape(RealGroup(k, ids), ids, wts, LeftSample(src, dst, i), f, i * (src - 1) % (dst - 1), dst - 1);
  }

  /** The exact weights of every output of an enlarged axis. */
  lemma EnlargeTaps(w: Weights, src: nat, dst: nat, i: nat)
    requires 1 <= src < dst && i < dst && BuiltFor(w, src, dst)
    ensures |Ids(w, i)| == |Wts(w, i)|
    ensures forall t :: 0 <= t < |Ids(w, i)| ==> Wts(w, i)[t] == EnlargeWeight(src, dst, i, Ids(w, i)[t])
    ensures forall s: nat :: s < src && EnlargeWeight(src, dst, i, s) != 0 ==> s in Ids(w, i)
  {
    EnlargePair(w, src, dst, i);
    PairIsEnlarge(src, dst, i, Ids(w, i), Wts(w, i));
  }

  lemma PairIsEnlarge(src: nat, dst: nat, i: nat, ids: seq<nat>, wts: seq<int>)
    requires src >= 1 && dst >= 2 && PairTaps(ids, wts, LeftSample(src, dst, i), RightPart(src, dst, i))
    ensures |ids| == |wts| && (forall t :: 0 <= t < |ids| ==> wts[t] == EnlargeWeight(src, dst, i, ids[t]))
    ensures forall s: nat :: s < src && EnlargeWeight(src, dst, i, s) != 0 ==> s in ids
  {
    PairWeights(ids, wts, LeftSample(src, dst, i), RightPart(src, dst, i));
  }

  lemma PairWeights(ids: seq<nat>, wts: seq<int>, s0: nat, p: int)
    requires PairTaps(ids, wts, s0, p)
    ensures |ids| == |wts| && s0 in ids && (p != 0 ==> s0 + 1 in ids)
    ensures forall t :: 0 <= t < |ids| ==>
      wts[t] == if ids[t] == s0 then ONE - p else if ids[t] == s0 + 1 then p else 0
  {
    if ids == [s0 - 1, s0] {
      assert ids[1] == s0;
    } else {
      assert ids[0] == s0;
      if p != 0 { assert ids[1] == s0 + 1; }
    }
  }

  lemma PartZero(n: nat)
    requires n >= 1
    ensures Part(0, n) == 0
  {
    DivModUnique(n, 0, 2 * n, n);
  }

  // ---------------------------------------------------------------- copies

  /** These taps are source sample `s`, and nothing else. */
  ghost predicate Copies(ids: seq<nat>, wts: seq<int>, s: nat) {
    && |ids| == |wts| && s in ids
    && (forall t, u :: 0 <= t < u < |ids| ==> ids[t] != ids[u])
    && forall t :: 0 <= t < |ids| ==> wts[t] == if ids[t] == s then ONE else 0
  }

  lemma OneCopies(s: nat)
    ensures Copies([s], [ONE], s)
  {
    assert [s][0] == s;
  }

  /** Where output `i` of an enlarged axis falls on a sample, it copies it. */
  lemma OnSample(w: Weights, src: nat, dst: nat, i: nat, s: nat)
    requires 1 <= src < dst && i < dst && s < src && BuiltFor(w, src, dst) && i * (src - 1) == s * (dst - 1)
    ensures Copies(Ids(w, i), Wts(w, i), s)
  {
    EnlargePair(w, src, dst, i);
    FallsOn(src, dst, i, s);
    PairCopies(Ids(w, i), Wts(w, i), s);
  }

  lemma PairCopies(ids: seq<nat>, wts: seq<int>, s: nat)
    requires PairTaps(ids, wts, s, 0)
    ensures Copies(ids, wts, s)
  {
    PairWeights(ids, wts, s, 0);
  }

  lemma FallsOn(src: nat, dst: nat, i: nat, s: nat)
    requires src >= 1 && dst >= 2 && i * (src - 1) == s * (dst - 1)
    ensures LeftSample(src, dst, i) == s && RightPart(src, dst, i) == 0
  {
    Multiple(i, src - 1);
    DivModUnique(i * (src - 1), s, dst - 1, 0);
    PartZero(dst - 1);
  }

  lemma SameCopies(w: Weights, src: nat, i: nat)
    requires src >= 1 && i < src && BuiltFor(w, src, src)
    ensures Copies(Ids(w, i), Wts(w, i), i)
  {
    AxisSame(w, src, i);
    OneCopies(i);
  }

  /** The first and the last output of an axis that does not shrink are the first and the last sample. */
  lemma EndKept(w: Weights, src: nat, dst: nat, i: nat, s: nat)
    requires 1 <= src <= dst && BuiltFor(w, src, dst) && ((i == 0 && s == 0) || (i == dst - 1 && s == src - 1))
    ensures Copies(Ids(w, i), Wts(w, i), s)
  {
    if src == dst {
      SameCopies(w, src, i);
    } else {
      AtEnd(src, dst, i, s);
      OnSample(w, src, dst, i, s);
    }
  }

  lemma AtEnd(src: nat, dst: nat, i: nat, s: nat)
    requires (i == 0 && s == 0) || (i == dst - 1 && s == src - 1)
    ensures i * (src - 1) == s * (dst - 1)
  {
  }

  /** A whole factor `q` between the samples: output q * s is sample s. */
  lemma GridKept(w: Weights, src: nat, dst: nat, q: nat, s: nat)
    requires src >= 1 && q >= 1 && dst - 1 == q * (src - 1) && s < src && BuiltFor(w, src, dst)
    ensures 0 <= q * s < dst && Copies(Ids(w, q * s), Wts(w, q * s), s)
  {
    OnGrid(src, dst, q, s);
    if src == dst {
      SameCopies(w, src, s);
    } else {
      OnSample(w, src, dst, q * s, s);
    }
  }

  lemma OnGrid(src: nat, dst: nat, q: nat, s: nat)
    requires src >= 1 && q >= 1 && dst - 1 == q * (src - 1) && s < src
    ensures src <= dst && 0 <= q * s < dst && (q * s) * (src - 1) == s * (dst - 1)
    ensures src == dst ==> q * s == s
  {
    MulMono(1, q, src - 1);
    MulMono(s, src - 1, q);
    Multiple(q, s);
    assert s * q == q * s && (src - 1) * q == q * (src - 1);
    Regrouped(q, s, src - 1);
    if q >= 2 {
      MulMono(2, q, src - 1);
    }
  }

  lemma Regrouped(q: int, s: int, m: int)
    ensures (q * s) * m == s * (q * m)
  {
  }

  // ---------------------------------------------------------------- shrinking

  /** The length of the overlap of [a, b) and [c, d). */
  function Common(a: int, b: int, c: int, d: int): nat {
    var lo := if a < c then c else a;
    var hi := if b < d then b else d;
    if lo < hi then hi - lo else 0
  }

  /** dst times the overlap of source cell `s` with the share of output `i`, a whole number. */
  function Overlap(src: nat, dst: nat, i: nat, s: nat): nat { Common(i * src, (i + 1) * src, s * dst, (s + 1) * dst) }

  /** `x` is `p` in units of 1 / d. */
  ghost predicate Units(x: real, d: real, p: int) { d > 0.0 && x * d == p as real }

  lemma UnitsOrdered(x: real, y: real, d: real, p: int, q: int)
    requires Units(x, d, p) && Units(y, d, q)
    ensures x < y <==> p < q
  {
    if x < y { LessTimes(x, y, d); } else if y < x { LessTimes(y, x, d); }
  }

  lemma UnitsDiffer(x: real, y: real, d: real, p: int, q: int)
    requires Units(x, d, p) && Units(y, d, q)
    ensures Units(y - x, d, q - p) && Units(0.0, d, 0)
  {
    assert (y - x) * d == y * d - x * d;
  }

  /** A cover in units of 1 / d. */
  lemma CoverAmount(start: real, end: real, s: nat, d: real, a: int, b: int, c: int, e: int)
    requires Units(start, d, a) && Units(end, d, b) && Units(s as real, d, c) && Units((s + 1) as real, d, e)
    ensures Units(Cover(start, end, s), d, Common(a, b, c, e))
  {
    UnitsOrdered(start, s as real, d, a, c);
    UnitsOrdered(end, (s + 1) as real, d, b, e);
    var lo, p := if a < c then s as real else start, if a < c then c else a;
    var hi, q := if b < e then end else (s + 1) as real, if b < e then b else e;
    BetweenUnits(lo, hi, d, p, q);
    CoverIs(start, end, s, lo, hi);
  }

  lemma BetweenUnits(lo: real, hi: real, d: real, p: int, q: int)
    requires Units(lo, d, p) && Units(hi, d, q)
    ensures Units(MaxReal(0.0, hi - lo), d, if p < q then q - p else 0)
  {
    UnitsOrdered(lo, hi, d, p, q);
    UnitsDiffer(lo, hi, d, p, q);
  }

  lemma CoverIs(start: real, end: real, s: nat, lo: real, hi: real)
    requires lo == (if start < s as real then s as real else start)
    requires hi == (if end < (s + 1) as real then end else (s + 1) as real)
    ensures Cover(start, end, s) == MaxReal(0.0, hi - lo)
  {
  }

  /** An output of a shrunk axis takes from each sample exactly its overlap: Overlap / src of one. */
  lemma ShrinkWeight(src: nat, dst: nat, i: nat, s: nat)
    requires 1 <= dst < src && i < dst
    ensures Weight(KernelOf(src, dst, i), s) == Overlap(src, dst, i, s) as real / (src as real)
  {
    KernelUnits(src, dst, i);
    CellUnits(s, dst);
    CellUnits(s + 1, dst);
    AreaShare(KernelOf(src, dst, i), s, dst as real, i * src, (i + 1) * src, s * dst, (s + 1) * dst, src);
  }

  lemma CellUnits(s: nat, dst: nat)
    requires dst >= 1
    ensures Units(s as real, dst as real, s * dst)
  {
    ProductCast(s, dst);
  }

  lemma KernelUnits(src: nat, dst: nat, i: nat)
    requires 1 <= dst < src && i < dst
    ensures var k, d := KernelOf(src, dst, i), dst as real;
            k.Area? && k.ratio > 0.0 && Units(k.ratio, d, src) && Units(k.start, d, i * src)
            && Units(k.end, d, (i + 1) * src)
  {
    var r, d := Ratio(src, dst), dst as real;
    RatioTimes(src, dst, r);
    assert Units((i as real) * r, d, i * src) by { ScaledBound(src, i, r, d); }
    assert Units(((i + 1) as real) * r, d, (i + 1) * src) by { ScaledBound(src, i + 1, r, d); }
  }

  lemma RatioTimes(src: nat, dst: nat, r: real)
    requires 1 <= dst < src && r == Ratio(src, dst)
    ensures r > 0.0 && r * (dst as real) == src as real
  {
    QuotientTimes(src as real, dst as real);
    PositiveQuotient(src as real, dst as real);
  }

  lemma ScaledBound(src: nat, i: nat, r: real, d: real)
    requires r * d == src as real
    ensures ((i as real) * r) * d == (i * src) as real
  {
    Reassociate(i as real, r, d);
    ProductCast(i, src);
  }

  lemma AreaShare(k: Kernel, s: nat, d: real, a: int, b: int, c: int, e: int, src: nat)
    requires k.Area? && k.ratio > 0.0 && Units(k.ratio, d, src) && Units(k.start, d, a) && Units(k.end, d, b)
    requires Units(s as real, d, c) && Units((s + 1) as real, d, e)
    ensures src >= 1 && Weight(k, s) == Common(a, b, c, e) as real / (src as real)
  {
    CoverAmount(k.start, k.end, s, d, a, b, c, e);
    WeightIs(k, s, Cover(k.start, k.end, s), d, Common(a, b, c, e) as real, src as real);
  }

  lemma WeightIs(k: Kernel, s: nat, cover: real, d: real, x: real, y: real)
    requires k.Area? && k.ratio > 0.0 && d > 0.0 && cover == Cover(k.start, k.end, s)
    requires cover * d == x && k.ratio * d == y
    ensures y > 0.0 && Weight(k, s) == x / y
  {
    SameQuotient(cover, k.ratio, d, x, y);
  }

  lemma Reassociate(a: real, b: real, c: real)
    ensures (a * b) * c == a * (b * c)
  {
  }

  lemma SameQuotient(c: real, r: real, d: real, x: real, y: real)
    requires r > 0.0 && d > 0.0 && c * d == x && r * d == y
    ensures y > 0.0 && c / r == x / y
  {
    LessTimes(0.0, r, d);
    QuotientTimes(c, r);
    Reassociate(c / r, r, d);
    DivProduct(c / r, y);
  }

  function OverlapTotal(src: nat, dst: nat, n: nat, s: nat): nat {
    if n == 0 then 0 else OverlapTotal(src, dst, n - 1, s) + Overlap(src, dst, n - 1, s)
  }

  /** What of cell `s` the first `n` outputs have taken, in units of 1 / dst. */
  function Spent(src: nat, dst: nat, n: nat, s: nat): nat {
    if n * src <= s * dst then 0 else if n * src >= (s + 1) * dst then dst else n * src - s * dst
  }

  lemma {:induction false} OverlapsAreSpent(src: nat, dst: nat, n: nat, s: nat)
    ensures OverlapTotal(src, dst, n, s) == Spent(src, dst, n, s)
  {
    assert (s + 1) * dst == s * dst + dst;
    if n == 0 {
      Multiple(s, dst);
    } else {
      OverlapsAreSpent(src, dst, n - 1, s);
      assert n * src == (n - 1) * src + src;
    }
  }

  /** No sample is counted too much or too little: the outputs together take every cell once. */
  lemma EveryCellSpent(src: nat, dst: nat, s: nat)
    requires 1 <= dst < src && s < src
    ensures OverlapTotal(src, dst, dst, s) == dst
  {
    OverlapsAreSpent(src, dst, dst, s);
    MulMono(s + 1, src, dst);
    assert src * dst == dst * src && (s + 1) * dst == s * dst + dst;
  }

  /** A later output of a shrunk axis reads no sample left of what an earlier one reads. */
  lemma ShrinkOrdered(w: Weights, src: nat, dst: nat, i: nat, j: nat)
    requires 1 <= dst < src && i < j < dst && BuiltFor(w, src, dst)
    ensures forall t, u :: 0 <= t < |Ids(w, i)| && 0 <= u < |Ids(w, j)| ==> Ids(w, i)[t] <= Ids(w, j)[u]
  {
    assert OutputOk(KernelOf(src, dst, i), src, Ids(w, i), Wts(w, i));
    assert OutputOk(KernelOf(src, dst, j), src, Ids(w, j), Wts(w, j));
    KernelsOrdered(src, dst, i, j);
    GroupsOrdered(KernelOf(src, dst, i), KernelOf(src, dst, j), src, Ids(w, i), Ids(w, j));
  }

  ghost predicate Box(k: Kernel) { k.Area? && k.ratio > 0.0 && 0.0 <= k.start && k.end == k.start + k.ratio }

  lemma KernelsOrdered(src: nat, dst: nat, i: nat, j: nat)
    requires 1 <= dst < src && i < j < dst
    ensures Box(KernelOf(src, dst, i)) && Box(KernelOf(src, dst, j))
    ensures KernelOf(src, dst, i).end <= KernelOf(src, dst, j).start
  {
    IsBox(src, dst, i);
    IsBox(src, dst, j);
    EndBeforeStart(src, dst, i, j);
  }

  lemma IsBox(src: nat, dst: nat, i: nat)
    requires 1 <= dst < src && i < dst
    ensures Box(KernelOf(src, dst, i))
  {
    RatioFacts(src, dst, i);
  }

  lemma EndBeforeStart(src: nat, dst: nat, i: nat, j: nat)
    requires 1 <= dst < src && i < j < dst
    ensures KernelOf(src, dst, i).Area? && KernelOf(src, dst, j).Area?
    ensures KernelOf(src, dst, i).end <= KernelOf(src, dst, j).start
  {
    assert Ratio(src, dst) >= 1.0 by { RatioFacts(src, dst, i); }
    StepsOrdered(i, j, Ratio(src, dst));
  }

  lemma StepsOrdered(i: nat, j: nat, r: real)
    requires i < j && r >= 1.0
    ensures ((i + 1) as real) * r <= (j as real) * r
  {
    MulMonotone((i + 1) as real, j as real, r);
  }

  lemma GroupsOrdered(k: Kernel, l: Kernel, src: nat, a: seq<nat>, b: seq<nat>)
    requires Box(k) && Box(l) && k.end <= l.start && GroupOk(k, src, a) && GroupOk(l, src, b)
    ensures forall t, u :: 0 <= t < |a| && 0 <= u < |b| ==> a[t] <= b[u]
  {
    forall t, u | 0 <= t < |a| && 0 <= u < |b|
      ensures a[t] <= b[u]
    {
      CoveredCell(k.start, k.end, k.ratio, a[t]);
      CoveredCell(l.start, l.end, l.ratio, b[u]);
    }
  }
}
