/**
 How far a fixed-point resample can be from the exact weighted average of the source samples
 (src/resample.cc, src/SipiImage.cpp `build_axis_weights`).
 */
module ResampleError {
  import opened Sums
  import opened AxisWeights
  import opened Grid
  import opened Resampler
  import opened ResampleLaws

  function Abs(x: real): real { if x < 0.0 then -x else x }

  // ---------------------------------------------------------------- sums of products

  function IntDot(q: seq<int>, s: seq<int>): int
    requires |q| == |s|
  {
    if |q| == 0 then 0 else var n := |q| - 1; IntDot(q[..n], s[..n]) + q[n] * s[n]
  }

  function RealDot(ws: seq<real>, xs: seq<real>): real
    requires |ws| == |xs|
  {
    if |ws| == 0 then 0.0 else var n := |ws| - 1; RealDot(ws[..n], xs[..n]) + ws[n] * xs[n]
  }

  function Reals(s: seq<int>): seq<real> { seq(|s|, t requires 0 <= t < |s| => s[t] as real) }

  ghost function Reads(ids: seq<nat>, buf: seq<int>, base: nat, stride: nat): seq<int> {
    seq(|ids|, t requires 0 <= t < |ids| => At(buf, base + ids[t] * stride))
  }

  lemma {:induction false} DotIsIntDot(ids: seq<nat>, wts: seq<int>, buf: seq<int>, base: nat, stride: nat)
    requires |ids| == |wts|
    ensures Dot(ids, wts, buf, base, stride) == IntDot(wts, Reads(ids, buf, base, stride))
  {
    if |ids| > 0 {
      var n := |ids| - 1;
      DotIsIntDot(ids[..n], wts[..n], buf, base, stride);
      assert Reads(ids, buf, base, stride)[..n] == Reads(ids[..n], buf, base, stride);
    }
  }

  lemma {:induction false} IntDotUpdate(q: seq<int>, s: seq<int>, m: nat, x: int)
    requires |q| == |s| && m < |q|
    ensures IntDot(q[m := x], s) == IntDot(q, s) + (x - q[m]) * s[m]
  {
    var n := |q| - 1;
    if m == n {
      assert q[m := x][..n] == q[..n];
      DistributeSub(x, q[m], s[m]);
    } else {
      assert q[m := x][..n] == q[..n][m := x];
      IntDotUpdate(q[..n], s[..n], m, x);
    }
  }

  lemma {:induction false} DistributeSub(a: int, b: int, s: int)
    ensures (a - b) * s == a * s - b * s
  {
  }

  // ---------------------------------------------------------------- quantising

  lemma {:induction false} FixedError(w: real)
    requires w >= 0.0
    ensures Abs(Fixed(w) as real - 16384.0 * w) <= 0.5
  {
  }

  lemma {:induction false} ProductError(e: real, y: real, d: real)
    requires Abs(e) <= 0.5 && Abs(y) <= d
    ensures Abs(e * y) <= 0.5 * d
  {
    if e * y >= 0.0 {
      AbsProduct(e, y, d);
    } else {
      AbsProduct(-e, y, d);
      assert (-e) * y == -(e * y);
    }
  }

  lemma {:induction false} AbsProduct(e: real, y: real, d: real)
    requires -0.5 <= e <= 0.5 && -d <= y <= d && e * y >= 0.0
    ensures e * y <= 0.5 * d
  {
    if e >= 0.0 {
      HalfProduct(e, y, d);
    } else {
      HalfProduct(-e, -y, d);
      assert (-e) * (-y) == e * y;
    }
  }

  lemma {:induction false} HalfProduct(a: real, b: real, d: real)
    requires 0.0 <= a <= 0.5 && b <= d && 0.0 <= d
    ensures a * b <= 0.5 * d
  {
    assert a * (d - b) >= 0.0 && (0.5 - a) * d >= 0.0;
    assert a * (d - b) == a * d - a * b && (0.5 - a) * d == 0.5 * d - a * d;
  }

  /** The rounding error of one weight, on a sample measured from `x`. */
  ghost function Term(w: real, y: int, x: real): real { (Fixed(w) as real - 16384.0 * w) * (y as real - x) }

  lemma {:induction false} TermBound(w: real, y: int, x: real, d: real)
    requires w >= 0.0 && Abs(y as real - x) <= d
    ensures Abs(Term(w, y, x)) <= 0.5 * d
  {
    var e, z := Fixed(w) as real - 16384.0 * w, y as real - x;
    FixedError(w);
    ProductError(e, z, d);
    assert Term(w, y, x) == e * z;
  }

  ghost function Terms(ws: seq<real>, s: seq<int>, x: real): seq<real>
    requires |ws| == |s|
  {
    seq(|ws|, t requires 0 <= t < |ws| => Term(ws[t], s[t], x))
  }

  /** The part of the error that rounding makes, with every sample measured from `x`. */
  ghost function Rounding(ws: seq<real>, s: seq<int>, x: real): real
    requires |ws| == |s|
  {
    SumReal(Terms(ws, s, x))
  }

  lemma {:induction false} RoundingLast(ws: seq<real>, s: seq<int>, x: real) returns (dr: real)
    requires |ws| == |s| > 0
    ensures var n := |ws| - 1; dr == Term(ws[n], s[n], x) && Rounding(ws, s, x) == Rounding(ws[..n], s[..n], x) + dr
  {
    var n := |ws| - 1;
    dr := Term(ws[n], s[n], x);
    assert Terms(ws, s, x)[..n] == Terms(ws[..n], s[..n], x);
  }

  lemma {:induction false} RoundedLast(ws: seq<real>, s: seq<int>) returns (da: real)
    requires |ws| == |s| > 0
    ensures var n := |ws| - 1;
            && da == (Fixed(ws[n]) as real) * (s[n] as real)
            && IntDot(Rounded(ws), s) as real == IntDot(Rounded(ws[..n]), s[..n]) as real + da
  {
    var n := |ws| - 1;
    assert Rounded(ws)[..n] == Rounded(ws[..n]);
    var f, y := Fixed(ws[n]), s[n];
    da := (f as real) * (y as real);
    assert (f * y) as real == da;
  }

  lemma {:induction false} SumsLast(ws: seq<real>)
    requires |ws| > 0
    ensures var n := |ws| - 1;
            Sum(Rounded(ws)) == Sum(Rounded(ws[..n])) + Fixed(ws[n]) && SumReal(ws) == SumReal(ws[..n]) + ws[n]
  {
    assert Rounded(ws)[..|ws| - 1] == Rounded(ws[..|ws| - 1]);
  }

  lemma {:induction false} RealsLast(ws: seq<real>, s: seq<int>) returns (db: real)
    requires |ws| == |s| > 0
    ensures var n := |ws| - 1;
            db == ws[n] * (s[n] as real) && RealDot(ws, Reals(s)) == RealDot(ws[..n], Reals(s[..n])) + db
  {
    db := ws[|ws| - 1] * (s[|ws| - 1] as real);
    assert Reals(s)[..|ws| - 1] == Reals(s[..|ws| - 1]);
  }

  /** Five sums over the taps: the error, the fixed-point sum, the real sum, and both sums of weights. */
  datatype Sums5 = Sums5(r: real, a: real, b: real, f: real, w: real)

  ghost function SumsOf(ws: seq<real>, s: seq<int>, x: real): Sums5
    requires |ws| == |s|
  {
    Sums5(Rounding(ws, s, x), IntDot(Rounded(ws), s) as real, RealDot(ws, Reals(s)), Sum(Rounded(ws)) as real,
          SumReal(ws))
  }

  /** The error in closed form. */
  ghost predicate Splits(u: Sums5, x: real) { u.r == u.a - 16384.0 * u.b - (u.f - 16384.0 * u.w) * x }

  /** What a tap of fixed weight `g` and real weight `v` adds, reading `y`. */
  ghost predicate Adds(g: real, v: real, y: real, x: real, u: Sums5, t: Sums5) {
    && t.r == u.r + (g - 16384.0 * v) * (y - x) && t.a == u.a + g * y && t.b == u.b + v * y
    && t.f == u.f + g && t.w == u.w + v
  }

  lemma {:induction false} SplitsStep(g: real, v: real, y: real, x: real, u: Sums5, t: Sums5)
    requires Splits(u, x) && Adds(g, v, y, x, u, t)
    ensures Splits(t, x)
  {
  }

  lemma {:induction false} LastAdds(ws: seq<real>, s: seq<int>, x: real)
    requires |ws| == |s| > 0
    ensures var n := |ws| - 1;
            Adds(Fixed(ws[n]) as real, ws[n], s[n] as real, x, SumsOf(ws[..n], s[..n], x), SumsOf(ws, s, x))
  {
    var dr := RoundingLast(ws, s, x);
    var da := RoundedLast(ws, s);
    var db := RealsLast(ws, s);
    SumsLast(ws);
  }

  lemma {:induction false} RoundingIs(ws: seq<real>, s: seq<int>, x: real)
    requires |ws| == |s|
    ensures Splits(SumsOf(ws, s, x), x)
  {
    if |ws| > 0 {
      var n := |ws| - 1;
      RoundingIs(ws[..n], s[..n], x);
      LastAdds(ws, s, x);
      SplitsStep(Fixed(ws[n]) as real, ws[n], s[n] as real, x, SumsOf(ws[..n], s[..n], x), SumsOf(ws, s, x));
    }
  }

  /** `n` times half of `d`. */
  ghost function Halves(n: nat, d: real): real { if n == 0 then 0.0 else Halves(n - 1, d) + 0.5 * d }

  lemma {:induction false} HalvesIs(n: nat, d: real)
    ensures Halves(n, d) == (n as real) * d / 2.0
  {
    if n > 0 {
      HalvesIs(n - 1, d);
      assert (n as real) * d == ((n - 1) as real) * d + d;
    }
  }

  lemma {:induction false} SumOfSmall(ts: seq<real>, d: real)
    requires forall t :: 0 <= t < |ts| ==> Abs(ts[t]) <= 0.5 * d
    ensures Abs(SumReal(ts)) <= Halves(|ts|, d)
  {
    if |ts| > 0 {
      SumOfSmall(ts[..|ts| - 1], d);
    }
  }

  lemma {:induction false} RoundingBound(ws: seq<real>, s: seq<int>, x: real, d: real)
    requires |ws| == |s| && (forall t :: 0 <= t < |ws| ==> ws[t] >= 0.0)
    requires forall t :: 0 <= t < |s| ==> Abs(s[t] as real - x) <= d
    ensures Abs(Rounding(ws, s, x)) <= Halves(|ws|, d)
  {
    forall t | 0 <= t < |ws|
      ensures Abs(Terms(ws, s, x)[t]) <= 0.5 * d
    {
      TermBound(ws[t], s[t], x, d);
    }
    SumOfSmall(Terms(ws, s, x), d);
  }

  /** Quantised weights are off the real ones by at most half a unit per tap and sample step. */
  lemma {:induction false} GroupError(ws: seq<real>, s: seq<int>, maxval: int)
    requires UnitWeights(ws) && |ws| == |s| && forall t :: 0 <= t < |s| ==> 0 <= s[t] <= maxval
    ensures |Quantised(ws)| == |s|
    ensures Abs(IntDot(Quantised(ws), s) as real - 16384.0 * RealDot(ws, Reals(s))) <= Halves(|ws|, maxval as real)
  {
    var m := ArgMax(ws);
    FoldedDot(ws, s);
    RoundingBound(ws, s, s[m] as real, maxval as real);
  }

  /** Folding the residual into the largest tap measures every sample from the one that tap reads. */
  lemma {:induction false} FoldedDot(ws: seq<real>, s: seq<int>)
    requires |ws| == |s| >= 1 && SumReal(ws) == 1.0
    ensures |Quantised(ws)| == |s|
    ensures IntDot(Quantised(ws), s) as real - 16384.0 * RealDot(ws, Reals(s)) == Rounding(ws, s, s[ArgMax(ws)] as real)
  {
    var r, m := Rounded(ws), ArgMax(ws);
    var x := r[m] + ONE - Sum(r);
    IntDotUpdate(r, s, m, x);
    assert Quantised(ws) == r[m := x];
    RoundingIs(ws, s, s[m] as real);
    FoldTerm(SumsOf(ws, s, s[m] as real), IntDot(r, s), Sum(r), s[m], IntDot(Quantised(ws), s), x - r[m]);
  }

  lemma {:induction false} FoldTerm(u: Sums5, a: int, f: int, y: int, a': int, c: int)
    requires Splits(u, y as real) && u.a == a as real && u.f == f as real && u.w == 1.0 && c == ONE - f &&
      a' == a + c * y
    ensures a' as real - 16384.0 * u.b == u.r
  {
    assert (c * y) as real == (c as real) * (y as real);
  }

  lemma {:induction false} NarrowError(d: int, a: real, e: real, maxval: int)
    requires Abs(d as real - 16384.0 * a) <= e && 0.0 <= a <= maxval as real
    ensures Abs(Narrow(ROUND + d, maxval) as real - a) <= 0.5 + e / 16384.0
  {
    var f := (ROUND + d) / ONE;
    assert 16384 * f <= ROUND + d < 16384 * f + 16384;
    ShiftError(f, d, a, e);
    ClampError(f, a, 0.5 + e / 16384.0, maxval);
  }

  lemma {:induction false} ShiftError(f: int, d: int, a: real, e: real)
    requires Abs(d as real - 16384.0 * a) <= e && 16384 * f <= 8192 + d < 16384 * f + 16384
    ensures Abs(f as real - a) <= 0.5 + e / 16384.0
  {
    var x, y := f as real, d as real;
    assert 16384.0 * x <= 8192.0 + y && 8192.0 + y < 16384.0 * x + 16384.0;
    assert -8192.0 - e <= 16384.0 * (x - a) <= 8192.0 + e;
  }

  /** Clamping to the range of samples does not move away from a value in it. */
  lemma {:induction false} ClampError(f: int, a: real, e: real, maxval: int)
    requires 0.0 <= a <= maxval as real && Abs(f as real - a) <= e
    ensures Abs(Clamp(f, 0, maxval) as real - a) <= e
  {
  }

  // ---------------------------------------------------------------- real averages

  /** `d` is between `w` times `lo` and `w` times `hi`. */
  ghost predicate Within(w: real, d: real, lo: real, hi: real) { w * lo <= d <= w * hi }

  lemma {:induction false} WithinStep(w: real, d: real, lo: real, hi: real, v: real, x: real)
    requires Within(w, d, lo, hi) && v >= 0.0 && lo <= x <= hi
    ensures Within(w + v, d + v * x, lo, hi)
  {
    Scaled(v, lo, x, hi);
    Spread(w, v, lo);
    Spread(w, v, hi);
  }

  lemma {:induction false} RealDotBetween(ws: seq<real>, xs: seq<real>, lo: real, hi: real)
    requires |ws| == |xs| && (forall t :: 0 <= t < |ws| ==> ws[t] >= 0.0 && lo <= xs[t] <= hi)
    ensures Within(SumReal(ws), RealDot(ws, xs), lo, hi)
  {
    if |ws| > 0 {
      var n := |ws| - 1;
      RealDotBetween(ws[..n], xs[..n], lo, hi);
      var w, d := SumReal(ws[..n]), RealDot(ws[..n], xs[..n]);
      WithinStep(w, d, lo, hi, ws[n], xs[n]);
      SameWithin(w + ws[n], d + ws[n] * xs[n], SumReal(ws), RealDot(ws, xs), lo, hi);
    } else {
      NoneWithin(lo, hi);
    }
  }

  lemma {:induction false} SameWithin(w: real, d: real, w': real, d': real, lo: real, hi: real)
    requires Within(w, d, lo, hi) && w' == w && d' == d
    ensures Within(w', d', lo, hi)
  {
  }

  lemma {:induction false} NoneWithin(lo: real, hi: real)
    ensures Within(0.0, 0.0, lo, hi)
  {
  }

  lemma {:induction false} Scaled(w: real, lo: real, x: real, hi: real)
    requires w >= 0.0 && lo <= x <= hi
    ensures w * lo <= w * x <= w * hi
  {
  }

  lemma {:induction false} Spread(a: real, b: real, x: real)
    ensures (a + b) * x == a * x + b * x
  {
  }

  lemma {:induction false} RealDotSub(ws: seq<real>, xs: seq<real>, ys: seq<real>, zs: seq<real>)
    requires |ws| == |xs| == |ys| == |zs| && forall t :: 0 <= t < |ws| ==> zs[t] == xs[t] - ys[t]
    ensures RealDot(ws, zs) == RealDot(ws, xs) - RealDot(ws, ys)
  {
    if |ws| > 0 {
      var n := |ws| - 1;
      RealDotSub(ws[..n], xs[..n], ys[..n], zs[..n]);
      assert ws[n] * zs[n] == ws[n] * xs[n] - ws[n] * ys[n];
    }
  }

  /** Averaging does not increase an error. */
  lemma {:induction false} RealDotClose(ws: seq<real>, xs: seq<real>, ys: seq<real>, e: real)
    requires UnitWeights(ws) && |ws| == |xs| == |ys| && forall t :: 0 <= t < |ws| ==> Abs(xs[t] - ys[t]) <= e
    ensures Abs(RealDot(ws, xs) - RealDot(ws, ys)) <= e
  {
    var zs := seq(|ws|, t requires 0 <= t < |ws| => xs[t] - ys[t]);
    RealDotSub(ws, xs, ys, zs);
    RealDotBetween(ws, zs, -e, e);
  }

  /** What one pass over `n` taps can be off: half a step of rounding, and half of 2^-14 per tap and sample step. */
  ghost function PassError(n: nat, maxval: int): real { 0.5 + Halves(n, maxval as real) / 16384.0 }

  lemma {:induction false} PassErrorIs(n: nat, maxval: int)
    ensures PassError(n, maxval) == 0.5 + (n as real) * (maxval as real) / 32768.0
  {
    HalvesIs(n, maxval as real);
  }

  lemma {:induction false} UnitSampleError(ws: seq<real>, wts: seq<int>, s: seq<int>, maxval: int)
    requires UnitWeights(ws) && wts == Quantised(ws) && |wts| == |ws| == |s|
    requires forall t :: 0 <= t < |s| ==> 0 <= s[t] <= maxval
    ensures Abs(Narrow(ROUND + IntDot(wts, s), maxval) as real - RealDot(ws, Reals(s))) <= PassError(|ws|, maxval)
  {
    GroupError(ws, s, maxval);
    AverageInRange(ws, s, maxval);
    NarrowError(IntDot(wts, s), RealDot(ws, Reals(s)), Halves(|ws|, maxval as real), maxval);
  }

  lemma {:induction false} AverageInRange(ws: seq<real>, s: seq<int>, maxval: int)
    requires UnitWeights(ws) && |ws| == |s| && forall t :: 0 <= t < |s| ==> 0 <= s[t] <= maxval
    ensures 0.0 <= RealDot(ws, Reals(s)) <= maxval as real
  {
    RealDotBetween(ws, Reals(s), 0.0, maxval as real);
  }

  // ---------------------------------------------------------------- against the whole source

  /** The sum of the first `n` source values weighted by `g`, said without any tap list. */
  ghost function Average(g: nat -> real, n: nat, f: nat -> real): real {
    if n == 0 then 0.0 else Average(g, n - 1, f) + g(n - 1) * f(n - 1)
  }

  ghost function WeightsOf(k: Kernel): nat -> real
    requires k.Legal()
  {
    (x: nat) => Weight(k, x)
  }

  ghost function Values(ids: seq<nat>, f: nat -> real): seq<real> {
    seq(|ids|, t requires 0 <= t < |ids| => f(ids[t]))
  }

  /** Consecutive taps outside which `g` is zero. */
  ghost predicate Covers(g: nat -> real, src: nat, ids: seq<nat>) {
    && |ids| >= 1 && (forall t :: 0 <= t < |ids| ==> ids[t] == ids[0] + t && ids[t] < src)
    && forall x: nat :: x < src && !(ids[0] <= x < ids[0] + |ids|) ==> g(x) == 0.0
  }

  /** How many of the taps are among the first `n` source samples. */
  ghost function Among(ids: seq<nat>, n: nat): nat
    requires |ids| >= 1
  {
    if n <= ids[0] then 0 else if n - ids[0] <= |ids| then n - ids[0] else |ids|
  }

  lemma {:induction false} AverageTo(g: nat -> real, src: nat, ids: seq<nat>, f: nat -> real, n: nat)
    requires Covers(g, src, ids) && n <= src
    ensures Average(g, n, f) == RealDot(Values(ids, g)[..Among(ids, n)], Values(ids, f)[..Among(ids, n)])
  {
    if n > 0 {
      AverageTo(g, src, ids, f, n - 1);
      var c := Among(ids, n - 1);
      if Among(ids, n) == c {
        assert g(n - 1) == 0.0;
      } else {
        assert ids[c] == n - 1;
        LastTap(Values(ids, g), Values(ids, f), c);
      }
    }
  }

  lemma {:induction false} LastTap(ws: seq<real>, xs: seq<real>, c: nat)
    requires |ws| == |xs| && c < |ws|
    ensures RealDot(ws[..c + 1], xs[..c + 1]) == RealDot(ws[..c], xs[..c]) + ws[c] * xs[c]
  {
    assert ws[..c + 1][..c] == ws[..c] && xs[..c + 1][..c] == xs[..c];
  }

  lemma {:induction false} GroupCovers(k: Kernel, src: nat, ids: seq<nat>)
    requires k.Legal() && GroupOk(k, src, ids)
    ensures Covers(WeightsOf(k), src, ids) && Values(ids, WeightsOf(k)) == RealGroup(k, ids)
  {
    forall x: nat | x < src && !(ids[0] <= x < ids[0] + |ids|)
      ensures WeightsOf(k)(x) == 0.0
    {
      assert x !in ids;
    }
  }

  /** Source row `y`, channel and column offset `k`, as a function of the column. */
  ghost function RowValues(buf: seq<int>, base: nat, stride: nat): nat -> real {
    (x: nat) => At(buf, base + x * stride) as real
  }

  lemma {:induction false} ReadsAreValues(ids: seq<nat>, buf: seq<int>, base: nat, stride: nat)
    ensures Reals(Reads(ids, buf, base, stride)) == Values(ids, RowValues(buf, base, stride))
  {
  }

  /** Taps with unit real weights `g`, and their quantised form. */
  ghost predicate Quantises(g: nat -> real, src: nat, ids: seq<nat>, wts: seq<int>) {
    && Covers(g, src, ids) && UnitWeights(Values(ids, g))
    && |wts| == |ids| && wts == Quantised(Values(ids, g))
  }

  lemma {:induction false} OutputQuantises(k: Kernel, src: nat, ids: seq<nat>, wts: seq<int>)
    requires k.Legal() && OutputOk(k, src, ids, wts)
    ensures Quantises(WeightsOf(k), src, ids, wts)
  {
    GroupCovers(k, src, ids);
    UnitGroup(k, src, ids);
    QuantisedSum(RealGroup(k, ids));
  }

  lemma {:induction false} AverageIsDot(g: nat -> real, src: nat, ids: seq<nat>, f: nat -> real)
    requires Covers(g, src, ids)
    ensures Average(g, src, f) == RealDot(Values(ids, g), Values(ids, f))
  {
    AverageTo(g, src, ids, f, src);
    assert ids[|ids| - 1] < src;
    assert Values(ids, g)[..|ids|] == Values(ids, g) && Values(ids, f)[..|ids|] == Values(ids, f);
  }

  /** One pass: the narrowed fixed-point sum against the average over the whole source line. */
  lemma {:induction false} LineError(g: nat -> real, src: nat, ids: seq<nat>, wts: seq<int>, buf: seq<int>, base: nat,
                                     stride: nat, maxval: int)
    requires Quantises(g, src, ids, wts) && Samples(buf, maxval) && maxval >= 0
    ensures Abs(Narrow(ROUND + Dot(ids, wts, buf, base, stride), maxval) as real -
          Average(g, src, RowValues(buf, base, stride)))
         <= PassError(|ids|, maxval)
  {
    var s := Reads(ids, buf, base, stride);
    DotIsIntDot(ids, wts, buf, base, stride);
    ReadsAreSamples(ids, buf, base, stride, maxval);
    UnitSampleError(Values(ids, g), wts, s, maxval);
    AverageIsDot(g, src, ids, RowValues(buf, base, stride));
    ReadsAreValues(ids, buf, base, stride);
  }

  lemma {:induction false} ReadsAreSamples(ids: seq<nat>, buf: seq<int>, base: nat, stride: nat, maxval: int)
    requires Samples(buf, maxval) && maxval >= 0
    ensures forall t :: 0 <= t < |ids| ==> 0 <= Reads(ids, buf, base, stride)[t] <= maxval
  {
  }

  // ---------------------------------------------------------------- both passes

  /** Whatever the line, the fixed-point sum of the taps is close to the exact average under kernel `k`. */
  ghost predicate PassClose(g: nat -> real, src: nat, ids: seq<nat>, wts: seq<int>, maxval: int)
    requires |ids| == |wts|
  {
    forall buf: seq<int>, base: nat, stride: nat :: Samples(buf, maxval) ==>
      Abs(Narrow(ROUND + Dot(ids, wts, buf, base, stride), maxval) as real -
          Average(g, src, RowValues(buf, base, stride)))
      <= PassError(|ids|, maxval)
  }

  lemma {:induction false} PassIsClose(g: nat -> real, src: nat, ids: seq<nat>, wts: seq<int>, maxval: int)
    requires Quantises(g, src, ids, wts) && maxval >= 0
    ensures PassClose(g, src, ids, wts, maxval)
  {
    forall buf: seq<int>, base: nat, stride: nat | Samples(buf, maxval)
      ensures Abs(Narrow(ROUND + Dot(ids, wts, buf, base, stride), maxval) as real -
          Average(g, src, RowValues(buf, base, stride)))
           <= PassError(|ids|, maxval)
    {
      LineError(g, src, ids, wts, buf, base, stride, maxval);
    }
  }

  /** Values that are close to the exact ones. */
  ghost predicate Near(g: nat -> real, f: nat -> real, n: nat, e: real) {
    forall y: nat :: y < n ==> Abs(g(y) - f(y)) <= e
  }

  /** Averages of close values are as close. */
  ghost predicate Stable(g: nat -> real, src: nat) {
    forall a: nat -> real, b: nat -> real, e: real :: Near(a, b, src, e) ==>
      Abs(Average(g, src, a) - Average(g, src, b)) <= e
  }

  lemma {:induction false} UnitIsStable(g: nat -> real, src: nat, ids: seq<nat>)
    requires Covers(g, src, ids) && UnitWeights(Values(ids, g))
    ensures Stable(g, src)
  {
    forall a: nat -> real, b: nat -> real, e: real | Near(a, b, src, e)
      ensures Abs(Average(g, src, a) - Average(g, src, b)) <= e
    {
      AverageClose(g, src, ids, a, b, e);
    }
  }

  lemma {:induction false} AverageClose(g: nat -> real, src: nat, ids: seq<nat>, a: nat -> real, b: nat -> real,
                                        e: real)
    requires Covers(g, src, ids) && UnitWeights(Values(ids, g)) && Near(a, b, src, e)
    ensures Abs(Average(g, src, a) - Average(g, src, b)) <= e
  {
    AverageIsDot(g, src, ids, a);
    AverageIsDot(g, src, ids, b);
    RealDotClose(Values(ids, g), Values(ids, a), Values(ids, b), e);
  }

  /** The exact average, under the weights `g`, of channel `c` of source row `y`. */
  ghost function IdealRow(g: nat -> real, buf: seq<int>, nx: nat, nc: nat, c: nat, y: nat): real {
    Multiple(y, nx * nc);
    Average(g, nx, RowValues(buf, y * (nx * nc) + c, nc))
  }

  ghost function IdealRows(g: nat -> real, buf: seq<int>, nx: nat, nc: nat, c: nat): nat -> real {
    (y: nat) => IdealRow(g, buf, nx, nc, c, y)
  }

  /** The exact two-dimensional average of channel `c` under the weights of a column and a row. */
  ghost function Ideal(gx: nat -> real, gy: nat -> real, buf: seq<int>, nx: nat, ny: nat, nc: nat, c: nat): real {
    Average(gy, ny, IdealRows(gx, buf, nx, nc, c))
  }

  /** Sample `c` of scratch pixel (col, y). */
  lemma {:induction false} ScratchAt(buf: seq<int>, nx: nat, ny: nat, nc: nat, nnx: nat, h: Weights, maxval: int,
                                     col: nat, c: nat, y: nat, p: nat)
    requires nc >= 1 && col < nnx && c < nc && y < ny && Csr(h, nx, nnx) && p == col * nc + c + y * (nnx * nc)
    ensures 0 <= y * (nx * nc)
    ensures At(HPass(buf, nx, ny, nc, nnx, h, maxval), p)
         == Narrow(ROUND + Dot(Ids(h, col), Wts(h, col), buf, y * (nx * nc) + c, nc), maxval)
  {
    CellInRange(col, nnx, nc, c);
    CellInRange(y, ny, nnx * nc, col * nc + c);
    Multiple(nx, nc);
    Multiple(y, nx * nc);
    ScratchPosition(y, col, c, nnx, nc, p);
  }

  /** A scratch column is close to the exact row averages. */
  lemma {:induction false} ScratchNear(gx: nat -> real, buf: seq<int>, nx: nat, ny: nat, nc: nat, nnx: nat, h: Weights,
                                       maxval: int, col: nat, c: nat, f: nat, rowLen: nat)
    requires nc >= 1 && col < nnx && c < nc && Csr(h, nx, nnx) && Samples(buf, maxval)
    requires |Ids(h, col)| == |Wts(h, col)| && PassClose(gx, nx, Ids(h, col), Wts(h, col), maxval)
    requires f == col * nc + c && rowLen == nnx * nc
    ensures Near(RowValues(HPass(buf, nx, ny, nc, nnx, h, maxval), f, rowLen), IdealRows(gx, buf, nx, nc, c), ny,
                 PassError(|Ids(h, col)|, maxval))
  {
    var tmp, e := HPass(buf, nx, ny, nc, nnx, h, maxval), PassError(|Ids(h, col)|, maxval);
    forall y: nat | y < ny
      ensures RowClose(gx, buf, nx, nc, c, tmp, f, rowLen, e, y)
    {
      ScratchRow(gx, buf, nx, ny, nc, nnx, h, maxval, col, c, y, f + y * rowLen);
    }
    RowsNear(gx, buf, nx, ny, nc, c, tmp, f, rowLen, e);
  }

  /** The scratch value of row `y` is close to the exact average of that row. */
  ghost predicate RowClose(gx: nat -> real, buf: seq<int>, nx: nat, nc: nat, c: nat, tmp: seq<int>, f: nat, rowLen: nat,
                           e: real, y: nat)
  {
    Multiple(y, rowLen);
    Abs(At(tmp, f + y * rowLen) as real - IdealRow(gx, buf, nx, nc, c, y)) <= e
  }

  lemma {:induction false} RowsNear(gx: nat -> real, buf: seq<int>, nx: nat, ny: nat, nc: nat, c: nat, tmp: seq<int>,
                                    f: nat, rowLen: nat, e: real)
    requires forall y: nat :: y < ny ==> RowClose(gx, buf, nx, nc, c, tmp, f, rowLen, e, y)
    ensures Near(RowValues(tmp, f, rowLen), IdealRows(gx, buf, nx, nc, c), ny, e)
  {
    forall y: nat | y < ny
      ensures Abs(RowValues(tmp, f, rowLen)(y) - IdealRows(gx, buf, nx, nc, c)(y)) <= e
    {
      assert RowClose(gx, buf, nx, nc, c, tmp, f, rowLen, e, y);
    }
  }

  lemma {:induction false} ScratchRow(gx: nat -> real, buf: seq<int>, nx: nat, ny: nat, nc: nat, nnx: nat, h: Weights,
                                      maxval: int, col: nat, c: nat, y: nat, p: nat)
    requires nc >= 1 && col < nnx && c < nc && y < ny && Csr(h, nx, nnx) && Samples(buf, maxval)
    requires |Ids(h, col)| == |Wts(h, col)| && PassClose(gx, nx, Ids(h, col), Wts(h, col), maxval)
    requires p == col * nc + c + y * (nnx * nc)
    ensures Abs(At(HPass(buf, nx, ny, nc, nnx, h, maxval), p) as real - IdealRow(gx, buf, nx, nc, c, y)) <=
      PassError(|Ids(h, col)|, maxval)
  {
    ScratchAt(buf, nx, ny, nc, nnx, h, maxval, col, c, y, p);
    PassAt(gx, nx, Ids(h, col), Wts(h, col), maxval, buf, y * (nx * nc) + c, nc);
  }

  /** An output sample, from values each close to the exact one. */
  lemma {:induction false} SecondPass(g: nat -> real, src: nat, ids: seq<nat>, wts: seq<int>, tmp: seq<int>, base: nat,
                                      stride: nat, maxval: int, f: nat -> real, e: real)
    requires |ids| == |wts| && PassClose(g, src, ids, wts, maxval) && Stable(g, src)
    requires Samples(tmp, maxval) && Near(RowValues(tmp, base, stride), f, src, e)
    ensures Abs(Narrow(ROUND + Dot(ids, wts, tmp, base, stride), maxval) as real - Average(g, src, f)) <=
      PassError(|ids|, maxval) + e
  {
    var r := RowValues(tmp, base, stride);
    PassAt(g, src, ids, wts, maxval, tmp, base, stride);
    StableAt(g, src, r, f, e);
    Triangle(Narrow(ROUND + Dot(ids, wts, tmp, base, stride), maxval) as real, Average(g, src, r), Average(g, src, f),
             PassError(|ids|, maxval), e);
  }

  lemma {:induction false} Triangle(a: real, b: real, c: real, d: real, e: real)
    requires Abs(a - b) <= d && Abs(b - c) <= e
    ensures Abs(a - c) <= d + e
  {
  }

  lemma {:induction false} PassAt(g: nat -> real, src: nat, ids: seq<nat>, wts: seq<int>, maxval: int, buf: seq<int>,
                                  base: nat, stride: nat)
    requires |ids| == |wts| && PassClose(g, src, ids, wts, maxval) && Samples(buf, maxval)
    ensures Abs(Narrow(ROUND + Dot(ids, wts, buf, base, stride), maxval) as real -
          Average(g, src, RowValues(buf, base, stride)))
         <= PassError(|ids|, maxval)
  {
  }

  lemma {:induction false} StableAt(g: nat -> real, src: nat, a: nat -> real, b: nat -> real, e: real)
    requires Stable(g, src) && Near(a, b, src, e)
    ensures Abs(Average(g, src, a) - Average(g, src, b)) <= e
  {
  }

  lemma {:induction false} OutputError(gx: nat -> real, gy: nat -> real, buf: seq<int>, nx: nat, ny: nat, nc: nat,
                                       nnx: nat, nny: nat, h: Weights, v: Weights, maxval: int, col: nat, row: nat,
                                       c: nat, f: nat, rowLen: nat, p: nat)
    requires nc >= 1 && col < nnx && row < nny && c < nc && maxval >= 0 && Samples(buf, maxval)
    requires Csr(h, nx, nnx) && |Ids(h, col)| == |Wts(h, col)| && PassClose(gx, nx, Ids(h, col), Wts(h, col), maxval)
    requires Csr(v, ny, nny) && |Ids(v, row)| == |Wts(v, row)| && PassClose(gy, ny, Ids(v, row), Wts(v, row), maxval)
    requires Stable(gy, ny) && f == col * nc + c < rowLen == nnx * nc && p == row * rowLen + f
    ensures p < |Resampled(buf, nx, ny, nc, nnx, nny, h, v, maxval)|
    ensures Abs(Resampled(buf, nx, ny, nc, nnx, nny, h, v, maxval)[p] as real - Ideal(gx, gy, buf, nx, ny, nc, c))
         <= PassError(|Ids(v, row)|, maxval) + PassError(|Ids(h, col)|, maxval)
  {
    var tmp := HPass(buf, nx, ny, nc, nnx, h, maxval);
    HPassSamples(buf, nx, ny, nc, nnx, h, maxval);
    ScratchNear(gx, buf, nx, ny, nc, nnx, h, maxval, col, c, f, rowLen);
    OutputNear(gy, tmp, ny, rowLen, nny, v, maxval, row, f, p, IdealRows(gx, buf, nx, nc, c),
      PassError(|Ids(h, col)|, maxval));
    assert Resampled(buf, nx, ny, nc, nnx, nny, h, v, maxval) == VPass(tmp, ny, rowLen, nny, v, maxval);
  }

  lemma {:induction false} OutputNear(gy: nat -> real, tmp: seq<int>, ny: nat, rowLen: nat, nny: nat, v: Weights,
                                      maxval: int, row: nat, f: nat, p: nat, rows: nat -> real, e: real)
    requires row < nny && f < rowLen && p == row * rowLen + f && Samples(tmp, maxval)
    requires Csr(v, ny, nny) && |Ids(v, row)| == |Wts(v, row)| && PassClose(gy, ny, Ids(v, row), Wts(v, row), maxval)
    requires Stable(gy, ny) && Near(RowValues(tmp, f, rowLen), rows, ny, e)
    ensures p < |VPass(tmp, ny, rowLen, nny, v, maxval)|
    ensures Abs(VPass(tmp, ny, rowLen, nny, v, maxval)[p] as real - Average(gy, ny, rows)) <=
      PassError(|Ids(v, row)|, maxval) + e
  {
    SecondPass(gy, ny, Ids(v, row), Wts(v, row), tmp, f, rowLen, maxval, rows, e);
    OutputAt(tmp, ny, rowLen, nny, v, maxval, row, f, p);
  }

  lemma {:induction false} OutputAt(tmp: seq<int>, ny: nat, rowLen: nat, nny: nat, v: Weights, maxval: int, j: nat,
                                    f: nat, p: nat)
    requires j < nny && f < rowLen && Csr(v, ny, nny) && p == j * rowLen + f
    ensures 0 <= p < nny * rowLen
    ensures VPass(tmp, ny, rowLen, nny, v, maxval)[p] ==
      Narrow(ROUND + Dot(Ids(v, j), Wts(v, j), tmp, f, rowLen), maxval)
  {
    CellInRange(j, nny, rowLen, f);
    DivModUnique(p, j, rowLen, f);
  }

  /** What a built axis gives one output. */
  lemma {:induction false} BuiltClose(w: Weights, src: nat, dst: nat, i: nat, maxval: int)
    requires src >= 1 && BuiltFor(w, src, dst) && i < dst && maxval >= 0
    ensures Csr(w, src, dst) && |Ids(w, i)| == |Wts(w, i)|
    ensures PassClose(WeightsOf(KernelOf(src, dst, i)), src, Ids(w, i), Wts(w, i), maxval)
    ensures Stable(WeightsOf(KernelOf(src, dst, i)), src)
  {
    var k := KernelOf(src, dst, i);
    assert OutputOk(k, src, Ids(w, i), Wts(w, i));
    OutputQuantises(k, src, Ids(w, i), Wts(w, i));
    PassIsClose(WeightsOf(k), src, Ids(w, i), Wts(w, i), maxval);
    UnitIsStable(WeightsOf(k), src, Ids(w, i));
  }

  /** What both passes together can be off, for `n` and `m` taps. */
  ghost function TotalError(n: nat, m: nat, maxval: int): real { PassError(m, maxval) + PassError(n, maxval) }

  /** That is 1 + (n + m) * maxval / 2^15. */
  lemma {:induction false} TotalErrorIs(n: nat, m: nat, maxval: int)
    ensures TotalError(n, m, maxval) == 1.0 + ((n + m) as real) * (maxval as real) / 32768.0
  {
    PassErrorIs(n, maxval);
    PassErrorIs(m, maxval);
    BothErrors(n as real, m as real, maxval as real);
  }

  lemma {:induction false} BothErrors(n: real, m: real, s: real)
    ensures (0.5 + n * s / 32768.0) + (0.5 + m * s / 32768.0) == 1.0 + (n + m) * s / 32768.0
  {
  }

  /**
   Every output sample of a resample is within `TotalError` of the exact two-dimensional average of
   the source under the kernels of its column and row.
   */
  lemma {:induction false} ResampleAccuracy(buf: seq<int>, nx: nat, ny: nat, nc: nat, nnx: nat, nny: nat, h: Weights,
                                            v: Weights, maxval: int, col: nat, row: nat, c: nat, p: nat)
    requires nc >= 1 && nx >= 1 && ny >= 1 && col < nnx && row < nny && c < nc && maxval >= 0
    requires BuiltFor(h, nx, nnx) && BuiltFor(v, ny, nny) && Samples(buf, maxval)
    requires p == row * (nnx * nc) + (col * nc + c)
    ensures p < |Resampled(buf, nx, ny, nc, nnx, nny, h, v, maxval)|
    ensures Abs(Resampled(buf, nx, ny, nc, nnx, nny, h, v, maxval)[p] as real
                - Ideal(WeightsOf(KernelOf(nx, nnx, col)), WeightsOf(KernelOf(ny, nny, row)), buf, nx, ny, nc, c))
         <= TotalError(|Ids(h, col)|, |Ids(v, row)|, maxval)
  {
    BuiltClose(h, nx, nnx, col, maxval);
    BuiltClose(v, ny, nny, row, maxval);
    CellInRange(col, nnx, nc, c);
    OutputError(WeightsOf(KernelOf(nx, nnx, col)), WeightsOf(KernelOf(ny, nny, row)), buf, nx, ny, nc, nnx, nny, h, v,
                maxval, col, row, c,
                col * nc + c, nnx * nc, p);
  }
}
