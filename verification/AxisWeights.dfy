/**
 Separable resample weights for one axis (src/SipiImage.cpp, `build_axis_weights`).

 Real weights are exact reals here; the source computes them in `double`.
 */
module AxisWeights {
  import opened Sums

  newtype Int32 = x: int | -0x8000_0000 <= x < 0x8000_0000

  /** Fixed-point one: each output's weights sum to 2^14. */
  const ONE: int := 16384

  /** Compressed rows: output `i` reads the taps `offset[i] .. offset[i+1]`. */
  datatype Weights = Weights(offset: seq<nat>, idx: seq<nat>, wt: seq<int>)

  // ---------------------------------------------------------------- reference weights

  /** `std::lround`: nearest integer, halves away from zero. */
  function LRound(x: real): int {
    if x >= 0.0 then (x + 0.5).Floor else -((-x + 0.5).Floor)
  }

  /** A real weight in fixed point. */
  function Fixed(w: real): int { LRound(w * 16384.0) }

  function MinReal(a: real, b: real): real { if b < a then b else a }

  function MaxReal(a: real, b: real): real { if a < b then b else a }

  function Ratio(src: nat, dst: nat): real
    requires dst >= 1
  {
    (src as real) / (dst as real)
  }

  /** Length of the overlap of the source cell [s, s+1) with the interval [start, end). */
  function Cover(start: real, end: real, s: nat): real {
    MaxReal(0.0, MinReal(end, (s + 1) as real) - MaxReal(start, s as real))
  }

  /** The tent kernel of linear interpolation. */
  function Tent(pos: real, s: nat): real {
    var d := pos - (s as real);
    MaxReal(0.0, 1.0 - (if d < 0.0 then -d else d))
  }

  /** How one output sample weighs the source axis. */
  datatype Kernel = Same(i: nat) | Area(start: real, end: real, ratio: real) | Linear(pos: real) {
    ghost predicate Legal() { Area? ==> ratio > 0.0 }
  }

  /** The kernel of output `i`: copy, box of width src/dst, or tent around i*(src-1)/(dst-1). */
  function KernelOf(src: nat, dst: nat, i: nat): (k: Kernel)
    requires src >= 1 && i < dst
    ensures k.Legal()
  {
    if dst == src then Same(i)
    else if dst < src then
      var r := Ratio(src, dst);
      Area((i as real) * r, ((i + 1) as real) * r, r)
    else Linear((i as real) * ((src - 1) as real) / ((dst - 1) as real))
  }

  /** The weight of source sample `s`, said without any tap list. */
  function Weight(k: Kernel, s: nat): real
    requires k.Legal()
  {
    match k
    case Same(i) => if s == i then 1.0 else 0.0
    case Area(start, end, ratio) => Cover(start, end, s) / ratio
    case Linear(pos) => Tent(pos, s)
  }

  function RealGroup(k: Kernel, ids: seq<nat>): seq<real>
    requires k.Legal()
  {
    seq(|ids|, t requires 0 <= t < |ids| => Weight(k, ids[t]))
  }

  /** No tap is wasted: one to copy, at most two to interpolate, and every averaged cell is covered. */
  ghost predicate Frugal(k: Kernel, ids: seq<nat>)
    requires k.Legal()
  {
    match k
    case Same(_) => |ids| == 1
    case Area(_, _, _) => forall t :: 0 <= t < |ids| ==> Weight(k, ids[t]) > 0.0
    case Linear(_) => |ids| <= 2
  }

  /**
   `ids` is a correct tap set for kernel `k`: not empty, consecutive source samples,
   none missing that has weight, and the real weights form a partition of unity.
   */
  ghost predicate GroupOk(k: Kernel, src: nat, ids: seq<nat>)
    requires k.Legal()
  {
    && |ids| >= 1
    && (forall t :: 0 <= t < |ids| ==> ids[t] == ids[0] + t && ids[t] < src)
    && (forall t :: 0 <= t < |ids| ==> Weight(k, ids[t]) >= 0.0)
    && Frugal(k, ids)
    && (forall s: nat :: s < src && s !in ids ==> Weight(k, s) == 0.0)
    && SumReal(RealGroup(k, ids)) == 1.0
  }

  // ---------------------------------------------------------------- real taps, one output

  lemma MulMonotone(a: real, b: real, r: real)
    requires a <= b && r >= 0.0
    ensures a * r <= b * r
  {
  }

  lemma RatioFacts(src: nat, dst: nat, i: nat)
    requires 1 <= dst <= src && i < dst
    ensures Ratio(src, dst) >= 1.0
    ensures 0.0 <= (i as real) * Ratio(src, dst)
    ensures ((i + 1) as real) * Ratio(src, dst) == (i as real) * Ratio(src, dst) + Ratio(src, dst)
    ensures ((i + 1) as real) * Ratio(src, dst) <= src as real
  {
    var r := Ratio(src, dst);
    assert r * (dst as real) == src as real;
    MulMonotone((i + 1) as real, dst as real, r);
  }

  /** The covers `cs` of consecutive cells from `start` on. */
  ghost predicate CoversFrom(start: real, end: real, src: nat, ids: seq<nat>, cs: seq<real>) {
    && |ids| == |cs|
    && (forall t :: 0 <= t < |ids| ==> ids[t] == start.Floor + t && ids[t] < src)
    && (forall t :: 0 <= t < |ids| ==> cs[t] == Cover(start, end, ids[t]) && cs[t] > 0.0)
  }

  function Divided(cs: seq<real>, ratio: real): seq<real>
    requires ratio > 0.0
  {
    seq(|cs|, t requires 0 <= t < |cs| => cs[t] / ratio)
  }

  lemma {:induction false} SumDivided(cs: seq<real>, ratio: real)
    requires ratio > 0.0
    ensures SumReal(Divided(cs, ratio)) == SumReal(cs) / ratio
  {
    if |cs| > 0 {
      var n := |cs| - 1;
      SumDivided(cs[..n], ratio);
      assert Divided(cs, ratio)[..n] == Divided(cs[..n], ratio);
    }
  }

  lemma CoversAppend(start: real, end: real, src: nat, ids: seq<nat>, cs: seq<real>, s: nat, ratio: real)
    requires CoversFrom(start, end, src, ids, cs) && ratio > 0.0
    requires s == start.Floor + |ids| && s < src && Cover(start, end, s) > 0.0
    ensures CoversFrom(start, end, src, ids + [s], cs + [Cover(start, end, s)])
    ensures Divided(cs + [Cover(start, end, s)], ratio) == Divided(cs, ratio) + [Cover(start, end, s) / ratio]
  {
  }

  /** How much of [start, end) lies below cell `s`. */
  ghost function CoveredBelow(start: real, end: real, s: nat): real {
    if s == start.Floor then 0.0 else MinReal(end, s as real) - start
  }

  lemma CoverGrows(start: real, end: real, s: nat)
    requires start.Floor <= s && start < end && s as real < end
    ensures Cover(start, end, s) > 0.0 &&
      CoveredBelow(start, end, s) + Cover(start, end, s) == CoveredBelow(start, end, s + 1)
  {
  }

  /** Walks the source cells under [start, end); their covers add up to its whole length. */
  method CoverTaps(start: real, end: real, ratio: real, src: nat)
    returns (ids: seq<nat>, ws: seq<real>, ghost cs: seq<real>)
    requires 0.0 <= start < end <= src as real && ratio > 0.0
    ensures |ids| >= 1 && CoversFrom(start, end, src, ids, cs)
    ensures ws == Divided(cs, ratio) && SumReal(cs) == end - start
    ensures forall x: nat :: x < src && x !in ids ==> Cover(start, end, x) == 0.0
  {
    var first := start.Floor;
    var s := first;
    ids, ws, cs := [], [], [];
    while (s as real) < end && s < src
      invariant first <= s <= src && |ids| == s - first
      invariant s > first ==> ((s - 1) as real) < end
      invariant CoversFrom(start, end, src, ids, cs) && ws == Divided(cs, ratio)
      invariant forall x: nat :: first <= x < s ==> x in ids
      invariant SumReal(cs) == CoveredBelow(start, end, s)
    {
      CoverGrows(start, end, s);
      var lo := MaxReal(start, s as real);
      var hi := MinReal(end, (s + 1) as real);
      var cover := hi - lo;
      if cover > 0.0 {
        SumRealAppend(cs, cover);
        CoversAppend(start, end, src, ids, cs, s, ratio);
        ids := ids + [s];
        cs := cs + [cover];
        ws := ws + [cover / ratio];
      }
      s := s + 1;
    }
  }

  /** The taps of one output of a shrinking axis: area averaging over [start, end). */
  method AreaTaps(src: nat, dst: nat, i: nat) returns (ids: seq<nat>, ws: seq<real>)
    requires 1 <= dst < src && i < dst
    ensures GroupOk(KernelOf(src, dst, i), src, ids) && ws == RealGroup(KernelOf(src, dst, i), ids)
  {
    ghost var k := KernelOf(src, dst, i);
    var ratio := Ratio(src, dst);
    var start := (i as real) * ratio;
    var end := ((i + 1) as real) * ratio;
    assert k == Area(start, end, ratio);
    RatioFacts(src, dst, i);
    ids, ws := AreaGroup(start, end, ratio, src);
  }

  method AreaGroup(start: real, end: real, ratio: real, src: nat) returns (ids: seq<nat>, ws: seq<real>)
    requires 0.0 <= start < end <= src as real && ratio > 0.0 && end - start == ratio
    ensures GroupOk(Area(start, end, ratio), src, ids) && ws == RealGroup(Area(start, end, ratio), ids)
  {
    ghost var cs;
    ids, ws, cs := CoverTaps(start, end, ratio, src);
    AreaGroupOk(start, end, ratio, src, ids, cs);
  }

  lemma DivSelf(r: real)
    requires r > 0.0
    ensures r / r == 1.0 && 0.0 / r == 0.0
  {
  }

  lemma AreaGroupOk(start: real, end: real, r: real, src: nat, ids: seq<nat>, cs: seq<real>)
    requires |ids| >= 1 && r > 0.0 && start >= 0.0
    requires CoversFrom(start, end, src, ids, cs)
    requires SumReal(cs) == r
    requires forall x: nat :: x < src && x !in ids ==> Cover(start, end, x) == 0.0
    ensures GroupOk(Area(start, end, r), src, ids)
    ensures Divided(cs, r) == RealGroup(Area(start, end, r), ids)
  {
    var k := Area(start, end, r);
    SumDivided(cs, r);
    DivSelf(r);
    assert Divided(cs, r) == RealGroup(k, ids);
    forall t | 0 <= t < |ids|
      ensures Weight(k, ids[t]) > 0.0
    {
      PositiveQuotient(cs[t], r);
    }
  }

  lemma PositionInRange(src: nat, dst: nat, i: nat)
    requires 1 <= src < dst && i < dst
    ensures 0.0 <= (i as real) * ((src - 1) as real) / ((dst - 1) as real) <= (src - 1) as real
  {
    var a, b, c := i as real, (src - 1) as real, (dst - 1) as real;
    MulMonotone(a, c, b);
    DivideBound(a * b, b, c);
  }

  lemma DivideBound(p: real, b: real, c: real)
    requires c > 0.0 && 0.0 <= p <= c * b
    ensures 0.0 <= p / c <= b
  {
  }

  /** The one or two taps of one output of an enlarging axis: linear interpolation. */
  method LinearTaps(src: nat, dst: nat, i: nat) returns (ids: seq<nat>, ws: seq<real>)
    requires 1 <= src < dst && i < dst
    ensures GroupOk(KernelOf(src, dst, i), src, ids) && ws == RealGroup(KernelOf(src, dst, i), ids)
  {
    var pos := if dst > 1 then (i as real) * ((src - 1) as real) / ((dst - 1) as real) else 0.0;
    PositionInRange(src, dst, i);
    ids, ws := TentTaps(pos, src);
    assert ws == RealGroup(Linear(pos), ids);
  }

  /** The source samples on either side of `pos`, weighted by the tent kernel. */
  method TentTaps(pos: real, src: nat) returns (ids: seq<nat>, ws: seq<real>)
    requires src >= 1 && 0.0 <= pos <= (src - 1) as real
    ensures 1 <= |ids| == |ws| <= 2
    ensures forall t :: 0 <= t < |ids| ==> ids[t] == ids[0] + t && ids[t] < src
    ensures forall t :: 0 <= t < |ids| ==> ws[t] == Tent(pos, ids[t]) >= 0.0
    ensures forall x: nat :: x < src && x !in ids ==> Tent(pos, x) == 0.0
    ensures SumReal(ws) == 1.0
  {
    var s0 := pos.Floor;
    var frac := pos - (s0 as real);
    var s1 := if s0 + 1 < src - 1 then s0 + 1 else src - 1;
    ids := [s0];
    ws := [1.0 - frac];
    SumRealAppend([], 1.0 - frac);
    assert [] + [1.0 - frac] == ws;
    if s1 != s0 {
      SumRealAppend(ws, frac);
      ids := ids + [s1];
      ws := ws + [frac];
    }
    forall x: nat | x < src && x !in ids
      ensures Tent(pos, x) == 0.0
    {
      assert x != ids[0];
      assert s1 != s0 ==> x != ids[1];
    }
  }

  // ---------------------------------------------------------------- quantisation, one output

  /** The first position of the largest weight, as the scan with a strict comparison finds it. */
  function ArgMax(ws: seq<real>): (m: nat)
    requires |ws| >= 1
    ensures m < |ws|
    ensures forall t :: 0 <= t < |ws| ==> ws[t] <= ws[m]
    ensures forall t :: 0 <= t < m ==> ws[t] < ws[m]
  {
    if |ws| == 1 then 0
    else
      var n := |ws| - 1;
      var m := ArgMax(ws[..n]);
      assert forall t :: 0 <= t < n ==> ws[t] == ws[..n][t];
      if ws[n] > ws[m] then n else m
  }

  function Rounded(ws: seq<real>): seq<int> {
    seq(|ws|, t requires 0 <= t < |ws| => Fixed(ws[t]))
  }

  /** Rounded weights with the rounding residual folded into the largest tap. */
  function Quantised(ws: seq<real>): (q: seq<int>)
    requires |ws| >= 1
  {
    var r := Rounded(ws);
    var m := ArgMax(ws);
    r[m := r[m] + ONE - Sum(r)]
  }

  ghost predicate UnitWeights(ws: seq<real>) {
    && |ws| >= 1
    && (forall t :: 0 <= t < |ws| ==> ws[t] >= 0.0)
    && SumReal(ws) == 1.0
  }

  /** Rounding at most doubles a non-negative weight, so a prefix rounds to at most twice its sum. */
  lemma {:induction false} RoundedSumBound(ws: seq<real>)
    requires forall t :: 0 <= t < |ws| ==> ws[t] >= 0.0
    ensures 0 <= Sum(Rounded(ws))
    ensures (Sum(Rounded(ws)) as real) <= 32768.0 * SumReal(ws)
    ensures SumReal(ws) >= 0.0
  {
    if |ws| > 0 {
      var n := |ws| - 1;
      RoundedSumBound(ws[..n]);
      assert Rounded(ws)[..n] == Rounded(ws[..n]);
    }
  }

  lemma {:induction false} SumRealPrefix(ws: seq<real>, m: nat)
    requires m <= |ws|
    requires forall t :: 0 <= t < |ws| ==> ws[t] >= 0.0
    ensures 0.0 <= SumReal(ws[..m]) <= SumReal(ws)
  {
    if m == |ws| {
      assert ws[..m] == ws;
      if m > 0 {
        SumRealPrefix(ws[..m - 1], m - 1);
        assert ws[..m - 1][..m - 1] == ws[..m - 1];
      }
    } else {
      SumRealPrefix(ws[..|ws| - 1], m);
      assert ws[..|ws| - 1][..m] == ws[..m];
    }
  }

  /** One step of the quantising scan, and that its running sum never nears the int32 limits. */
  lemma QuantiseStep(ws: seq<real>, t: nat)
    requires UnitWeights(ws) && t < |ws|
    ensures Rounded(ws[..t + 1]) == Rounded(ws[..t]) + [Fixed(ws[t])]
    ensures Sum(Rounded(ws[..t + 1])) == Sum(Rounded(ws[..t])) + Fixed(ws[t])
    ensures 0 <= Sum(Rounded(ws[..t])) <= 2 * ONE && 0 <= Sum(Rounded(ws[..t + 1])) <= 2 * ONE
  {
    RoundedSumBound(ws[..t]);
    RoundedSumBound(ws[..t + 1]);
    SumRealPrefix(ws, t);
    SumRealPrefix(ws, t + 1);
    assert ws[..t + 1][..t] == ws[..t];
    var w := Fixed(ws[t]);
    assert Rounded(ws[..t + 1]) == Rounded(ws[..t]) + [w];
    SumAppend(Rounded(ws[..t]), w);
  }

  /** `m` is the first position of the largest of the first `t` weights, or zero. */
  ghost predicate FirstMax(ws: seq<real>, t: nat, m: nat)
    requires t <= |ws| && m < |ws|
  {
    && (t == 0 ==> m == 0) && (t > 0 ==> m < t)
    && (forall u :: 0 <= u < t ==> ws[u] <= ws[m]) && forall u :: 0 <= u < m ==> ws[u] < ws[m]
  }

  lemma {:induction false} FirstMaxIsArgMax(ws: seq<real>, m: nat)
    requires |ws| >= 1 && m < |ws| && FirstMax(ws, |ws|, m)
    ensures m == ArgMax(ws)
  {
  }

  /** The scan over one group of real weights: rounded weights, their sum, the place of the largest. */
  method Scan(ws: seq<real>) returns (q: seq<int>, sum: Int32, max: nat)
    requires UnitWeights(ws)
    ensures q == Rounded(ws) && sum as int == Sum(Rounded(ws)) && 0 <= sum <= 2 * ONE as Int32 && max == ArgMax(ws)
  {
    sum, max := 0, 0;
    q := [];
    var t := 0;
    while t < |ws|
      invariant 0 <= t <= |ws| && q == Rounded(ws[..t])
      invariant sum as int == Sum(Rounded(ws[..t])) && 0 <= sum <= 2 * ONE as Int32
      invariant max < |ws| && FirstMax(ws, t, max)
    {
      QuantiseStep(ws, t);
      var w := Fixed(ws[t]);
      q := q + [w];
      sum := sum + w as Int32;
      if ws[t] > ws[max] { max := t; }
      t := t + 1;
    }
    assert ws[..t] == ws;
    FirstMaxIsArgMax(ws, max);
  }

  /** One group of weights in fixed point, the rounding error folded into its largest tap. */
  method Quantise(ws: seq<real>) returns (q: seq<int>)
    requires UnitWeights(ws)
    ensures q == Quantised(ws)
  {
    var sum, max;
    q, sum, max := Scan(ws);
    q := q[max := q[max] + (ONE as Int32 - sum) as int];
  }

  /** Every group of quantised weights sums to exactly 2^14. */
  lemma QuantisedSum(ws: seq<real>)
    requires |ws| >= 1
    ensures |Quantised(ws)| == |ws| && Sum(Quantised(ws)) == ONE
  {
    var r := Rounded(ws);
    SumUpdate(r, ArgMax(ws), r[ArgMax(ws)] + ONE - Sum(r));
  }

  /** Positive weights stay below 2 * 2^14, even when folding makes the largest tap negative. */
  lemma QuantisedPosSum(ws: seq<real>)
    requires UnitWeights(ws)
    ensures 0 <= PosSum(Quantised(ws)) <= 2 * ONE
  {
    var r := Rounded(ws);
    var q := Quantised(ws);
    RoundedSumBound(ws);
    QuantisedSum(ws);
    PosSumMonotone(q, 0);
    if Sum(r) >= ONE {
      PosSumDominated(q, r);
    } else {
      PosSumOfNonNegative(q);
    }
  }

  // ---------------------------------------------------------------- when no weight is negative

  /** The rounded weights other than the one at `m` exceed the real ones by at most a half each. */
  lemma {:induction false} RoundedExcess(ws: seq<real>, m: nat)
    requires m < |ws|
    requires forall t :: 0 <= t < |ws| ==> ws[t] >= 0.0
    ensures (Sum(Rounded(ws)) - Rounded(ws)[m]) as real
         <= (SumReal(ws) - ws[m]) * 16384.0 + ((|ws| - 1) as real) * 0.5
  {
    var n := |ws| - 1;
    assert Rounded(ws)[..n] == Rounded(ws[..n]);
    if m < n {
      RoundedExcess(ws[..n], m);
    } else {
      RoundedExcessAll(ws[..n]);
    }
  }

  lemma {:induction false} RoundedExcessAll(ws: seq<real>)
    requires forall t :: 0 <= t < |ws| ==> ws[t] >= 0.0
    ensures Sum(Rounded(ws)) as real <= SumReal(ws) * 16384.0 + (|ws| as real) * 0.5
  {
    if |ws| > 0 {
      var n := |ws| - 1;
      RoundedExcessAll(ws[..n]);
      assert Rounded(ws)[..n] == Rounded(ws[..n]);
    }
  }

  lemma {:induction false} MaxAtLeastMean(ws: seq<real>, top: real)
    requires forall t :: 0 <= t < |ws| ==> ws[t] <= top
    ensures SumReal(ws) <= (|ws| as real) * top
  {
    if |ws| > 0 {
      MaxAtLeastMean(ws[..|ws| - 1], top);
    }
  }

  /** Up to 182 taps the largest tap absorbs the whole residual and stays non-negative. */
  lemma QuantisedNonNegative(ws: seq<real>)
    requires UnitWeights(ws) && |ws| <= 182
    ensures forall t :: 0 <= t < |ws| ==> Quantised(ws)[t] >= 0
  {
    var m := ArgMax(ws);
    RoundedExcess(ws, m);
    MaxAtLeastMean(ws, ws[m]);
    LargeShare(|ws|, ws[m]);
    assert Quantised(ws)[m] as real > -1.0;
  }

  lemma LargeShare(n: nat, w: real)
    requires 1 <= n <= 182 && 1.0 <= (n as real) * w
    ensures w * 16384.0 > ((n as real) - 3.0) * 0.5
  {
    var x := n as real;
    var d := w * 16384.0 - (x - 3.0) * 0.5;
    assert n * (n - 3) <= 182 * 179 by {
      MulBound(n, n - 3);
    }
    assert x * (x - 3.0) <= 32578.0 by {
      assert (n * (n - 3)) as real == x * (x - 3.0);
    }
    assert x * d == (x * w) * 16384.0 - (x * (x - 3.0)) * 0.5;
    PositiveFactor(x, d);
  }

  lemma MulBound(a: int, b: int)
    requires 1 <= a <= 182 && b <= 179
    ensures a * b <= 182 * 179
  {
    assert a * b <= a * 179;
  }

  lemma PositiveFactor(x: real, d: real)
    requires x > 0.0 && x * d > 0.0
    ensures d > 0.0
  {
  }

  // ---------------------------------------------------------------- the whole axis

  /** `offs` cuts two parallel flat lists into `n` groups, group `j` of which satisfies `p`. */
  ghost predicate Grouped<A, B>(p: (nat, seq<A>, seq<B>) -> bool, n: nat, offs: seq<nat>, a: seq<A>, b: seq<B>) {
    && |offs| == n + 1 && offs[0] == 0 && offs[n] == |a| == |b|
    && (forall j, k :: 0 <= j <= k <= n ==> offs[j] <= offs[k])
    && (forall j :: 0 <= j < n ==> p(j, a[offs[j]..offs[j + 1]], b[offs[j]..offs[j + 1]]))
  }

  lemma SliceLeft<A>(a: seq<A>, b: seq<A>, lo: nat, hi: nat)
    requires lo <= hi <= |a|
    ensures (a + b)[lo..hi] == a[lo..hi]
  {
  }

  lemma SliceRight<A>(a: seq<A>, b: seq<A>)
    ensures (a + b)[|a|..|a| + |b|] == b
  {
  }

  lemma GroupedExtend<A, B>(p: (nat, seq<A>, seq<B>) -> bool, n: nat, offs: seq<nat>, a: seq<A>, b: seq<B>,
                            a': seq<A>, b': seq<B>)
    requires Grouped(p, n, offs, a, b) && |a'| == |b'| && p(n, a', b')
    ensures Grouped(p, n + 1, offs + [|a| + |a'|], a + a', b + b')
  {
    var offs' := offs + [|a| + |a'|];
    forall j | 0 <= j < n + 1
      ensures p(j, (a + a')[offs'[j]..offs'[j + 1]], (b + b')[offs'[j]..offs'[j + 1]])
    {
      if j < n {
        assert offs[j] <= offs[j + 1] <= offs[n];
        SliceLeft(a, a', offs[j], offs[j + 1]);
        SliceLeft(b, b', offs[j], offs[j + 1]);
      } else {
        SliceRight(a, a');
        SliceRight(b, b');
      }
    }
  }

  /** Group `j` holds the right taps of output `j` with their real weights. */
  ghost function TapSpec(src: nat, dst: nat): (nat, seq<nat>, seq<real>) -> bool
    requires src >= 1
  {
    (j: nat, ids: seq<nat>, ws: seq<real>) =>
      j < dst && GroupOk(KernelOf(src, dst, j), src, ids) && ws == RealGroup(KernelOf(src, dst, j), ids)
  }

  /** Group `j` holds non-negative real weights of sum one. */
  ghost function UnitSpec(): (nat, seq<real>, seq<real>) -> bool {
    (j: nat, ws: seq<real>, _: seq<real>) => UnitWeights(ws)
  }

  /** Group `j` holds the quantised form of its real weights. */
  ghost function QuantSpec(): (nat, seq<real>, seq<int>) -> bool {
    (j: nat, ws: seq<real>, q: seq<int>) => |ws| >= 1 && q == Quantised(ws)
  }

  /** The taps `[i]` with weight one of an unchanged axis. */
  lemma SameGroupOk(src: nat, i: nat)
    requires i < src
    ensures GroupOk(Same(i), src, [i]) && RealGroup(Same(i), [i]) == [1.0]
  {
    assert RealGroup(Same(i), [i]) == [] + [1.0];
    SumRealAppend([], 1.0);
  }

  /** The compressed-row shape the kernel relies on. */
  ghost predicate Csr(w: Weights, src: nat, dst: nat) {
    && |w.offset| == dst + 1 && w.offset[0] == 0 && w.offset[dst] == |w.idx| == |w.wt|
    && (forall j, k :: 0 <= j <= k <= dst ==> w.offset[j] <= w.offset[k])
    && (forall t :: 0 <= t < |w.idx| ==> w.idx[t] < src)
  }

  function Ids(w: Weights, i: nat): seq<nat>
    requires i + 1 < |w.offset| && w.offset[i] <= w.offset[i + 1] <= |w.idx|
  {
    w.idx[w.offset[i]..w.offset[i + 1]]
  }

  function Wts(w: Weights, i: nat): seq<int>
    requires i + 1 < |w.offset| && w.offset[i] <= w.offset[i + 1] <= |w.wt|
  {
    w.wt[w.offset[i]..w.offset[i + 1]]
  }

  /** Right taps for one output, and their quantised weights. */
  ghost predicate OutputOk(k: Kernel, src: nat, ids: seq<nat>, wts: seq<int>)
    requires k.Legal()
  {
    GroupOk(k, src, ids) && wts == Quantised(RealGroup(k, ids))
  }

  /** What `build_axis_weights` delivers: right taps, quantised, for every output. */
  ghost predicate BuiltFor(w: Weights, src: nat, dst: nat)
    requires src >= 1
  {
    Csr(w, src, dst) && forall i :: 0 <= i < dst ==> OutputOk(KernelOf(src, dst, i), src, Ids(w, i), Wts(w, i))
  }

  method BuildAxisWeights(src: nat, dst: nat) returns (w: Weights)
    requires src >= 1 && dst >= 1
    ensures BuiltFor(w, src, dst)
  {
    var offs: seq<nat>, idx: seq<nat>, dwt: seq<real> := [0], [], [];
    for i := 0 to dst
      invariant Grouped(TapSpec(src, dst), i, offs, idx, dwt)
    {
      var ids, ws;
      if dst == src {
        SameGroupOk(src, i);
        ids, ws := [i], [1.0];
      } else if dst < src {
        ids, ws := AreaTaps(src, dst, i);
      } else {
        ids, ws := LinearTaps(src, dst, i);
      }
      GroupedExtend(TapSpec(src, dst), i, offs, idx, dwt, ids, ws);
      offs, idx, dwt := offs + [|idx| + |ids|], idx + ids, dwt + ws;
    }
    UnitGroups(src, dst, offs, idx, dwt);
    var wt := QuantiseAll(dst, offs, dwt);
    w := Weights(offs, idx, wt);
    BuiltForGroups(src, dst, w, dwt);
  }

  /** The second loop: quantise group by group. */
  method QuantiseAll(n: nat, offs: seq<nat>, dwt: seq<real>) returns (wt: seq<int>)
    requires Grouped(UnitSpec(), n, offs, dwt, dwt)
    ensures Grouped(QuantSpec(), n, offs, dwt, wt)
  {
    wt := [];
    QuantisedNone(offs, dwt);
    for i := 0 to n
      invariant QuantisedTo(offs, dwt, wt, i)
    {
      UnitAt(n, offs, dwt, i);
      var q := Quantise(dwt[offs[i]..offs[i + 1]]);
      QuantisedSum(dwt[offs[i]..offs[i + 1]]);
      QuantisedGroup(offs, dwt, i, wt, q);
      wt := wt + q;
    }
    assert offs[..n + 1] == offs && dwt[..offs[n]] == dwt;
  }

  /** The first `i` groups are quantised. */
  ghost predicate QuantisedTo(offs: seq<nat>, dwt: seq<real>, wt: seq<int>, i: nat) {
    i < |offs| && offs[i] <= |dwt| && Grouped(QuantSpec(), i, offs[..i + 1], dwt[..offs[i]], wt)
  }

  lemma QuantisedNone(offs: seq<nat>, dwt: seq<real>)
    requires |offs| >= 1 && offs[0] == 0
    ensures QuantisedTo(offs, dwt, [], 0)
  {
    assert dwt[..offs[0]] == [] && offs[..1] == [0];
  }

  lemma UnitAt(n: nat, offs: seq<nat>, dwt: seq<real>, i: nat)
    requires Grouped(UnitSpec(), n, offs, dwt, dwt) && i < n
    ensures offs[i] <= offs[i + 1] <= |dwt| && UnitWeights(dwt[offs[i]..offs[i + 1]])
  {
    assert offs[i] <= offs[i + 1] <= offs[n];
    var ws := dwt[offs[i]..offs[i + 1]];
    assert UnitSpec()(i, ws, ws);
  }

  lemma QuantisedGroup(offs: seq<nat>, dwt: seq<real>, i: nat, wt: seq<int>, q: seq<int>)
    requires i + 1 < |offs| && offs[i] <= offs[i + 1] <= |dwt|
    requires |q| == offs[i + 1] - offs[i] && QuantSpec()(i, dwt[offs[i]..offs[i + 1]], q)
    requires QuantisedTo(offs, dwt, wt, i)
    ensures QuantisedTo(offs, dwt, wt + q, i + 1)
  {
    var ws := dwt[offs[i]..offs[i + 1]];
    GroupedExtend(QuantSpec(), i, offs[..i + 1], dwt[..offs[i]], wt, ws, q);
    assert dwt[..offs[i]] + ws == dwt[..offs[i + 1]];
    assert offs[..i + 1] + [offs[i] + |ws|] == offs[..i + 2];
  }

  lemma UnitGroups(src: nat, dst: nat, offs: seq<nat>, idx: seq<nat>, dwt: seq<real>)
    requires src >= 1 && Grouped(TapSpec(src, dst), dst, offs, idx, dwt)
    ensures Grouped(UnitSpec(), dst, offs, dwt, dwt)
  {
    forall j | 0 <= j < dst
      ensures UnitSpec()(j, dwt[offs[j]..offs[j + 1]], dwt[offs[j]..offs[j + 1]])
    {
      assert TapSpec(src, dst)(j, idx[offs[j]..offs[j + 1]], dwt[offs[j]..offs[j + 1]]);
      UnitGroup(KernelOf(src, dst, j), src, idx[offs[j]..offs[j + 1]]);
    }
  }

  /** A correct tap set has unit weights. */
  lemma UnitGroup(k: Kernel, src: nat, ids: seq<nat>)
    requires k.Legal() && GroupOk(k, src, ids)
    ensures UnitWeights(RealGroup(k, ids))
  {
  }

  /** Any flat position falls into one of the groups. */
  lemma {:induction false} GroupOfPosition(offs: seq<nat>, n: nat, t: nat) returns (j: nat)
    requires |offs| == n + 1 && offs[0] == 0 && t < offs[n]
    ensures j < n && offs[j] <= t < offs[j + 1]
    decreases n
  {
    if offs[n - 1] <= t {
      j := n - 1;
    } else {
      j := GroupOfPosition(offs[..n], n - 1, t);
    }
  }

  lemma BuiltForGroups(src: nat, dst: nat, w: Weights, dwt: seq<real>)
    requires src >= 1
    requires Grouped(TapSpec(src, dst), dst, w.offset, w.idx, dwt)
    requires Grouped(QuantSpec(), dst, w.offset, dwt, w.wt)
    ensures BuiltFor(w, src, dst)
  {
    forall t | 0 <= t < |w.idx|
      ensures w.idx[t] < src
    {
      IndexInRange(src, dst, w.offset, w.idx, dwt, t);
    }
    forall i | 0 <= i < dst
      ensures OutputOk(KernelOf(src, dst, i), src, Ids(w, i), Wts(w, i))
    {
      OutputOfGroups(src, dst, w, dwt, i);
    }
  }

  lemma IndexInRange(src: nat, dst: nat, offs: seq<nat>, idx: seq<nat>, dwt: seq<real>, t: nat)
    requires src >= 1 && t < |idx| && Grouped(TapSpec(src, dst), dst, offs, idx, dwt)
    ensures idx[t] < src
  {
    var j := GroupOfPosition(offs, dst, t);
    TapsAt(src, dst, offs, idx, dwt, j);
    assert idx[offs[j]..offs[j + 1]][t - offs[j]] == idx[t];
  }

  lemma OutputOfGroups(src: nat, dst: nat, w: Weights, dwt: seq<real>, i: nat)
    requires src >= 1 && i < dst && Grouped(TapSpec(src, dst), dst, w.offset, w.idx, dwt)
    requires Grouped(QuantSpec(), dst, w.offset, dwt, w.wt)
    ensures OutputOk(KernelOf(src, dst, i), src, Ids(w, i), Wts(w, i))
  {
    TapsAt(src, dst, w.offset, w.idx, dwt, i);
    var lo, hi := w.offset[i], w.offset[i + 1];
    assert QuantSpec()(i, dwt[lo..hi], w.wt[lo..hi]);
  }

  lemma TapsAt(src: nat, dst: nat, offs: seq<nat>, idx: seq<nat>, dwt: seq<real>, j: nat)
    requires src >= 1 && j < dst && Grouped(TapSpec(src, dst), dst, offs, idx, dwt)
    ensures offs[j] <= offs[j + 1] <= |idx| == |dwt|
    ensures GroupOk(KernelOf(src, dst, j), src, idx[offs[j]..offs[j + 1]])
    ensures dwt[offs[j]..offs[j + 1]] == RealGroup(KernelOf(src, dst, j), idx[offs[j]..offs[j + 1]])
  {
    assert offs[j] <= offs[j + 1] <= offs[dst];
    assert TapSpec(src, dst)(j, idx[offs[j]..offs[j + 1]], dwt[offs[j]..offs[j + 1]]);
  }

  // ---------------------------------------------------------------- what every built axis satisfies

  /** One output's weights as the resampling kernel needs them. */
  ghost predicate SafeGroup(wts: seq<int>) {
    Sum(wts) == ONE && 0 <= PosSum(wts) <= 2 * ONE
  }

  /**
   For every pair of sizes each output has taps, all in range, and their fixed-point
   weights sum to exactly 2^14 with the positive ones below 2 * 2^14.
   */
  lemma AxisSafe(w: Weights, src: nat, dst: nat, i: nat)
    requires src >= 1 && BuiltFor(w, src, dst) && i < dst
    ensures |Ids(w, i)| == |Wts(w, i)| >= 1
    ensures forall t :: 0 <= t < |Ids(w, i)| ==> Ids(w, i)[t] < src
    ensures SafeGroup(Wts(w, i))
  {
    OutputSafe(KernelOf(src, dst, i), src, Ids(w, i), Wts(w, i));
  }

  lemma OutputSafe(k: Kernel, src: nat, ids: seq<nat>, wts: seq<int>)
    requires k.Legal() && OutputOk(k, src, ids, wts)
    ensures |ids| == |wts| >= 1
    ensures forall t :: 0 <= t < |ids| ==> ids[t] < src
    ensures SafeGroup(wts)
  {
    UnitGroup(k, src, ids);
    QuantisedSum(RealGroup(k, ids));
    QuantisedPosSum(RealGroup(k, ids));
  }

  /** An unchanged axis copies: the only tap of output `i` is `i`, with weight one. */
  lemma AxisSame(w: Weights, src: nat, i: nat)
    requires src >= 1 && BuiltFor(w, src, src) && i < src
    ensures Ids(w, i) == [i] && Wts(w, i) == [ONE]
  {
    var ids := Ids(w, i);
    assert OutputOk(KernelOf(src, src, i), src, ids, Wts(w, i));
    assert i !in ids ==> Weight(Same(i), i) == 0.0;
    assert ids == [i];
    QuantisedSum(RealGroup(Same(i), ids));
    var q := Quantised(RealGroup(Same(i), ids));
    assert q == [] + [q[0]];
    SumAppend([], q[0]);
  }

  /** A box of width `r` meets fewer than r + 2 source cells. */
  lemma AreaTapCount(start: real, end: real, r: real, src: nat, ids: seq<nat>)
    requires r > 0.0 && 0.0 <= start && end == start + r
    requires GroupOk(Area(start, end, r), src, ids)
    ensures (|ids| as real) < r + 2.0
  {
    var k := Area(start, end, r);
    CoveredCell(start, end, r, ids[0]);
    CoveredCell(start, end, r, ids[|ids| - 1]);
    assert ids[|ids| - 1] == ids[0] + (|ids| - 1);
    assert Weight(k, ids[0]) > 0.0 && Weight(k, ids[|ids| - 1]) > 0.0;
  }

  lemma CoveredCell(start: real, end: real, r: real, s: nat)
    requires r > 0.0 && 0.0 <= start && end == start + r
    requires Weight(Area(start, end, r), s) > 0.0
    ensures (s as real) < end && start < (s + 1) as real
  {
    DivSelf(r);
  }

  /**
   An axis that shrinks at most 181 times, keeps its size or enlarges has no negative weight:
   its outputs have at most 182 taps.
   */
  lemma AxisNonNegative(w: Weights, src: nat, dst: nat, i: nat)
    requires src >= 1 && BuiltFor(w, src, dst) && i < dst && src <= 181 * dst
    ensures forall t :: 0 <= t < |Wts(w, i)| ==> Wts(w, i)[t] >= 0
  {
    if dst < src {
      AreaKernelFacts(src, dst, i);
    }
    KernelNonNegative(KernelOf(src, dst, i), src, Ids(w, i), Wts(w, i));
  }

  lemma KernelNonNegative(k: Kernel, src: nat, ids: seq<nat>, wts: seq<int>)
    requires k.Legal() && OutputOk(k, src, ids, wts)
    requires k.Area? ==> 0.0 <= k.start && k.end == k.start + k.ratio && k.ratio <= 181.0
    ensures forall t :: 0 <= t < |wts| ==> wts[t] >= 0
  {
    if k.Area? {
      AreaTapCount(k.start, k.end, k.ratio, src, ids);
    }
    UnitGroup(k, src, ids);
    QuantisedNonNegative(RealGroup(k, ids));
  }

  lemma AreaKernelFacts(src: nat, dst: nat, i: nat)
    requires 1 <= dst < src <= 181 * dst && i < dst
    ensures var k := KernelOf(src, dst, i);
            k.Area? && 0.0 <= k.start && k.end == k.start + k.ratio && k.ratio <= 181.0
  {
    RatioFacts(src, dst, i);
    RatioBound(src, dst);
  }

  lemma RatioBound(src: nat, dst: nat)
    requires dst >= 1 && src <= 181 * dst
    ensures Ratio(src, dst) <= 181.0
  {
  }

  // ---------------------------------------------------------------- integer shrink factors

  lemma {:induction false} SumOfEqual(s: seq<int>, x: int)
    requires forall t :: 0 <= t < |s| ==> s[t] == x
    ensures Sum(s) == |s| * x
  {
    if |s| > 0 {
      SumOfEqual(s[..|s| - 1], x);
      assert |s| * x == (|s| - 1) * x + x;
    }
  }

  /** `q` equal weights: the first tap gets what the other q - 1 rounded ones leave of 2^14. */
  lemma QuantisedEqual(ws: seq<real>, q: nat, x: real)
    requires q >= 1 && |ws| == q && forall t :: 0 <= t < q ==> ws[t] == x
    ensures Quantised(ws)[0] == ONE - (q - 1) * Fixed(x)
    ensures forall t :: 1 <= t < q ==> Quantised(ws)[t] == Fixed(x)
  {
    var r := Rounded(ws);
    assert forall t :: 0 <= t < q ==> r[t] == Fixed(x);
    SumOfEqual(r, Fixed(x));
    assert ws[0] == x && ws[ArgMax(ws)] == x;
    assert q * Fixed(x) == (q - 1) * Fixed(x) + Fixed(x);
  }

  /** When the shrink factor is an integer `q`, output `i` averages the cells iq .. iq + q - 1 evenly. */
  lemma IntegerShrinkTaps(w: Weights, src: nat, dst: nat, q: nat, i: nat)
    requires q >= 2 && dst >= 1 && src == q * dst && i < dst && dst < src && BuiltFor(w, src, dst)
    ensures |Wts(w, i)| == q && Wts(w, i)[0] == ONE - (q - 1) * Fixed(1.0 / (q as real))
    ensures forall t :: 1 <= t < q ==> Wts(w, i)[t] == Fixed(1.0 / (q as real))
  {
    IntegerKernel(src, dst, q, i);
    EvenGroup(KernelOf(src, dst, i), i * q, q, src, Ids(w, i), Wts(w, i));
  }

  lemma EvenGroup(k: Kernel, base: nat, q: nat, src: nat, ids: seq<nat>, wts: seq<int>)
    requires q >= 1 && base + q <= src && k == Area(base as real, (base + q) as real, q as real)
    requires OutputOk(k, src, ids, wts)
    ensures |wts| == q && wts[0] == ONE - (q - 1) * Fixed(1.0 / (q as real))
    ensures forall t :: 1 <= t < q ==> wts[t] == Fixed(1.0 / (q as real))
  {
    IntegerCells(k, base, q, src, ids);
    var ws := RealGroup(k, ids);
    assert forall t :: 0 <= t < q ==> ws[t] == Weight(k, ids[t]);
    QuantisedEqual(ws, q, 1.0 / (q as real));
    QuantisedSum(ws);
  }

  lemma IntegerKernel(src: nat, dst: nat, q: nat, i: nat)
    requires q >= 2 && dst >= 1 && src == q * dst && i < dst && dst < src
    ensures 0 <= i * q && i * q + q <= src
    ensures KernelOf(src, dst, i) == Area((i * q) as real, (i * q + q) as real, q as real)
  {
    RatioInteger(src, dst, q);
    ProductCast(i, q);
    ProductCast(i + 1, q);
    NextMultiple(i, dst, q);
  }

  lemma NextMultiple(i: nat, dst: nat, q: nat)
    requires i < dst
    ensures 0 <= i * q && (i + 1) * q == i * q + q <= q * dst
  {
    MulMonotoneInt(0, i, q);
    MulMonotoneInt(i + 1, dst, q);
  }

  lemma ProductCast(a: nat, b: nat)
    ensures (a as real) * (b as real) == (a * b) as real
  {
  }

  lemma MulMonotoneInt(a: nat, b: nat, q: nat)
    requires a <= b
    ensures a * q <= b * q
  {
  }

  lemma RatioInteger(src: nat, dst: nat, q: nat)
    requires dst >= 1 && src == q * dst
    ensures Ratio(src, dst) == q as real
  {
    ProductCast(q, dst);
    DivProduct(q as real, dst as real);
  }

  lemma DivProduct(a: real, b: real)
    requires b > 0.0
    ensures a * b / b == a
  {
  }

  lemma IntegerCells(k: Kernel, base: nat, q: nat, src: nat, ids: seq<nat>)
    requires q >= 1 && base + q <= src && k == Area(base as real, (base + q) as real, q as real)
    requires GroupOk(k, src, ids)
    ensures |ids| == q && ids[0] == base
    ensures forall t :: 0 <= t < q ==> Weight(k, ids[t]) == 1.0 / (q as real)
  {
    PositiveQuotient(1.0, q as real);
    forall s: nat | base <= s < base + q
      ensures s in ids && Weight(k, s) == 1.0 / (q as real)
    {
      assert Cover(k.start, k.end, s) == 1.0;
    }
    CoveredCell(k.start, k.end, k.ratio, ids[0]);
    CoveredCell(k.start, k.end, k.ratio, ids[|ids| - 1]);
    assert ids[|ids| - 1] == ids[0] + (|ids| - 1);
    assert base in ids && base + q - 1 in ids;
  }

  lemma PositiveQuotient(a: real, b: real)
    requires a > 0.0 && b > 0.0
    ensures a / b > 0.0
  {
  }

  /**
   An axis shrunk by an integer factor `q` has only non-negative weights exactly when
   q - 1 times the rounded weight 2^14/q does not exceed 2^14.
   */
  lemma IntegerShrinkNonNegativeIff(w: Weights, src: nat, dst: nat, q: nat)
    requires q >= 2 && dst >= 1 && src == q * dst && BuiltFor(w, src, dst)
    ensures (forall i, t :: 0 <= i < dst && 0 <= t < |Wts(w, i)| ==> Wts(w, i)[t] >= 0)
       <==> (q - 1) * Fixed(1.0 / (q as real)) <= ONE
  {
    var rest := (q - 1) * Fixed(1.0 / (q as real));
    PositiveQuotient(1.0, q as real);
    assert dst < src by { assert (q - 1) * dst >= dst; }
    forall i | 0 <= i < dst
      ensures OneSpecial(Wts(w, i), q, ONE - rest)
    {
      IntegerShrinkTaps(w, src, dst, q, i);
    }
    SpecialIff(w, src, dst, q, ONE - rest);
  }

  /** `q` weights, the first of them `first` and no other negative. */
  ghost predicate OneSpecial(wts: seq<int>, q: nat, first: int) {
    |wts| == q >= 1 && wts[0] == first && forall t :: 1 <= t < q ==> wts[t] >= 0
  }

  lemma SpecialIff(w: Weights, src: nat, dst: nat, q: nat, first: int)
    requires dst >= 1 && Csr(w, src, dst) && forall i :: 0 <= i < dst ==> OneSpecial(Wts(w, i), q, first)
    ensures (forall i, t :: 0 <= i < dst && 0 <= t < |Wts(w, i)| ==> Wts(w, i)[t] >= 0) <==> first >= 0
  {
    assert OneSpecial(Wts(w, 0), q, first);
  }

  lemma Fixed258()
    ensures Fixed(1.0 / (258 as real)) == 64
  {
  }

  /** Shrinking 258 times already makes the largest tap negative. */
  lemma NegativeWeightExample(w: Weights)
    requires BuiltFor(w, 516, 2)
    ensures exists t :: 0 <= t < |Wts(w, 0)| && Wts(w, 0)[t] == -64
  {
    Fixed258();
    IntegerShrinkTaps(w, 516, 2, 258, 0);
    assert Wts(w, 0)[0] == -64;
  }
}
