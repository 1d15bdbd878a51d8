/**
 What the resampler promises about images (src/resample.h, src/SipiImage.cpp `scale`):
 weights from `BuildAxisWeights` fed to `ResampleSeparable`, for every pair of sizes.
 */
module ResampleLaws {
  import opened Sums
  import opened AxisWeights
  import opened Grid
  import opened Resampler

  /** The weights of a built axis are what the kernel needs. */
  lemma BuiltIsSafe(w: Weights, src: nat, dst: nat)
    requires src >= 1 && BuiltFor(w, src, dst)
    ensures SafeAxis(w, src, dst)
  {
    forall i | 0 <= i < dst
      ensures SafeGroup(Wts(w, i))
    {
      AxisSafe(w, src, dst, i);
    }
  }

  /** All samples of channel `k` lie between `lo` and `hi`. */
  ghost predicate ChannelBetween(buf: seq<int>, nc: nat, k: nat, lo: int, hi: int)
    requires nc >= 1
  {
    forall p :: 0 <= p < |buf| && p % nc == k ==> lo <= buf[p] <= hi
  }

  ghost predicate NonNegative(wts: seq<int>) { forall t :: 0 <= t < |wts| ==> wts[t] >= 0 }

  ghost predicate ReadsBetween(ids: seq<nat>, buf: seq<int>, base: nat, stride: nat, lo: int, hi: int) {
    forall t :: 0 <= t < |ids| ==> lo <= At(buf, base + ids[t] * stride) <= hi
  }

  /** What the negative weights amount to. */
  ghost function Negative(wts: seq<int>): int { PosSum(wts) - Sum(wts) }

  /** The negative weights are too small to move a result out of [lo, hi] past the rounding. */
  ghost predicate Keeps(wts: seq<int>, lo: int, hi: int) { Negative(wts) * (hi - lo) < ROUND }

  /** A weighted sum of samples in [lo, hi] leaves the range by at most the negative weights times its width. */
  lemma {:induction false} DotBetween(ids: seq<nat>, wts: seq<int>, buf: seq<int>, base: nat, stride: nat, lo: int,
                                      hi: int)
    requires |ids| == |wts| && ReadsBetween(ids, buf, base, stride, lo, hi) && lo <= hi
    ensures 0 <= Negative(wts) * (hi - lo)
    ensures Sum(wts) * lo - Negative(wts) * (hi - lo) <= Dot(ids, wts, buf, base, stride)
         <= Sum(wts) * hi + Negative(wts) * (hi - lo)
  {
    if |ids| > 0 {
      var n := |ids| - 1;
      assert forall t :: 0 <= t < n ==> ids[..n][t] == ids[t];
      DotBetween(ids[..n], wts[..n], buf, base, stride, lo, hi);
      var s := At(buf, base + ids[n] * stride);
      var neg := if wts[n] > 0 then 0 else -wts[n];
      WeightBetween(wts[n], neg, s, lo, hi);
      Distribute(Sum(wts[..n]), wts[n], lo);
      Distribute(Sum(wts[..n]), wts[n], hi);
      Distribute(Negative(wts[..n]), neg, hi - lo);
    }
  }

  lemma WeightBetween(w: int, neg: int, s: int, lo: int, hi: int)
    requires lo <= s <= hi && neg == if w > 0 then 0 else -w
    ensures 0 <= neg * (hi - lo) && w * lo - neg * (hi - lo) <= w * s <= w * hi + neg * (hi - lo)
  {
    if w > 0 {
      assert w * (s - lo) >= 0 && w * (hi - s) >= 0;
    } else {
      assert neg * (s - lo) >= 0 && neg * (hi - s) >= 0;
    }
  }

  lemma NarrowBetween(d: int, e: int, lo: int, hi: int, maxval: int)
    requires 0 <= e < ROUND && ONE * lo - e <= d <= ONE * hi + e && 0 <= lo <= hi <= maxval
    ensures lo <= Narrow(ROUND + d, maxval) <= hi
  {
  }

  /** One output sample of either pass stays within the range of the samples it reads. */
  lemma SampleBetween(ids: seq<nat>, wts: seq<int>, buf: seq<int>, base: nat, stride: nat, lo: int, hi: int,
                      maxval: int)
    requires |ids| == |wts| && Sum(wts) == ONE && ReadsBetween(ids, buf, base, stride, lo, hi)
    requires Keeps(wts, lo, hi) && 0 <= lo <= hi <= maxval
    ensures lo <= Narrow(ROUND + Dot(ids, wts, buf, base, stride), maxval) <= hi
  {
    DotBetween(ids, wts, buf, base, stride, lo, hi);
    NarrowBetween(Dot(ids, wts, buf, base, stride), Negative(wts) * (hi - lo), lo, hi, maxval);
  }

  // ---------------------------------------------------------------- channels

  lemma ChannelOfSum(a: nat, nc: nat, k: nat)
    requires k < nc
    ensures 0 <= a * nc && (a * nc + k) % nc == k
  {
    Multiple(a, nc);
    DivModUnique(a * nc + k, a, nc, k);
  }

  /** The horizontal pass reads, for scratch position `p`, only samples of channel p % nc. */
  lemma HorizontalChannel(p: nat, nx: nat, ny: nat, nc: nat, nnx: nat, q: nat)
    requires nc >= 1 && nnx >= 1 && p < ny * (nnx * nc) && q < nx
    ensures var base := (p / (nnx * nc)) * (nx * nc) + p % (nnx * nc) % nc;
            0 <= base && base + q * nc < ny * (nx * nc) && (base + q * nc) % nc == p % nc
            && p % (nnx * nc) % nc == p % nc
  {
    ColumnInRange(p, nnx, nc);
    var y, r := p / (nnx * nc), p % (nnx * nc);
    QuotientBelow(p, ny, nnx * nc);
    DivModBasic(p, nnx * nc);
    DivModBasic(r, nc);
    var k := r % nc;
    SourceInRange(y, ny, nx, nc, k);
    Regroup(y, nnx, nc, r / nc);
    ChannelOfSum(y * nnx + r / nc, nc, k);
    Regroup(y, nx, nc, q);
    ChannelOfSum(y * nx + q, nc, k);
  }

  lemma Regroup(y: nat, n: nat, nc: nat, c: nat)
    ensures 0 <= y * n + c && y * (n * nc) + c * nc == (y * n + c) * nc
  {
    Multiple(y, n);
  }

  /** The vertical pass reads, for output position `p`, only scratch samples of channel p % nc. */
  lemma VerticalChannel(p: nat, ny: nat, nc: nat, nnx: nat, q: nat)
    requires nc >= 1 && nnx >= 1 && q < ny
    ensures nnx * nc >= 1
    ensures var f := p % (nnx * nc);
            f + q * (nnx * nc) < ny * (nnx * nc) && (f + q * (nnx * nc)) % nc == p % nc
  {
    ColumnInRange(p, nnx, nc);
    var f := p % (nnx * nc);
    CellInRange(q, ny, nnx * nc, f);
    DivModBasic(p, nnx * nc);
    RowChannel(p / (nnx * nc), nnx, nc, f, p);
    RowChannel(q, nnx, nc, f, f + q * (nnx * nc));
  }

  /** Whole rows do not change the channel. */
  lemma RowChannel(y: nat, nnx: nat, nc: nat, f: nat, p: nat)
    requires nc >= 1 && p == y * (nnx * nc) + f
    ensures p % nc == f % nc
  {
    DivModBasic(f, nc);
    Regroup(y, nnx, nc, f / nc);
    ChannelOfSum(y * nnx + f / nc, nc, f % nc);
  }

  /** No weight of this axis is negative, by the size test a caller can make. */
  ghost predicate Gentle(src: nat, dst: nat) { src <= 181 * dst }

  ghost predicate NonNegativeAxis(w: Weights, src: nat, dst: nat)
    requires Csr(w, src, dst)
  {
    forall i :: 0 <= i < dst ==> NonNegative(Wts(w, i))
  }

  lemma GentleIsNonNegative(w: Weights, src: nat, dst: nat)
    requires src >= 1 && BuiltFor(w, src, dst) && Gentle(src, dst)
    ensures NonNegativeAxis(w, src, dst)
  {
    forall i | 0 <= i < dst
      ensures NonNegative(Wts(w, i))
    {
      AxisNonNegative(w, src, dst, i);
    }
  }

  /** Every output of the axis keeps the range [lo, hi]. */
  ghost predicate SteadyAxis(w: Weights, src: nat, dst: nat, lo: int, hi: int)
    requires Csr(w, src, dst)
  {
    forall i :: 0 <= i < dst ==> Keeps(Wts(w, i), lo, hi)
  }

  /** An axis without negative weights keeps every range, and every axis keeps a single value. */
  lemma SteadyIfGentle(w: Weights, src: nat, dst: nat, lo: int, hi: int)
    requires src >= 1 && BuiltFor(w, src, dst) && (lo == hi || Gentle(src, dst))
    ensures SteadyAxis(w, src, dst, lo, hi)
  {
    if lo != hi {
      GentleIsNonNegative(w, src, dst);
      forall i | 0 <= i < dst
        ensures Keeps(Wts(w, i), lo, hi)
      {
        KeepsIfNonNegative(Wts(w, i), lo, hi);
      }
    }
  }

  lemma KeepsIfNonNegative(wts: seq<int>, lo: int, hi: int)
    requires NonNegative(wts)
    ensures Keeps(wts, lo, hi)
  {
    PosSumOfNonNegative(wts);
  }

  lemma TapsInRange(w: Weights, src: nat, dst: nat, i: nat)
    requires SafeAxis(w, src, dst) && i < dst
    ensures |Ids(w, i)| == |Wts(w, i)| >= 1 && Sum(Wts(w, i)) == ONE
    ensures forall t :: 0 <= t < |Ids(w, i)| ==> Ids(w, i)[t] < src
  {
    assert w.offset[i] <= w.offset[i + 1] <= w.offset[dst];
    assert SafeGroup(Wts(w, i));
  }

  lemma HSampleBetween(buf: seq<int>, nx: nat, ny: nat, nc: nat, nnx: nat, h: Weights, maxval: int, p: nat, lo: int,
                       hi: int)
    requires nc >= 1 && nnx >= 1 && |buf| == ny * (nx * nc) && SafeAxis(h, nx, nnx) && p < ny * (nnx * nc)
    requires SteadyAxis(h, nx, nnx, lo, hi)
    requires 0 <= lo <= hi <= maxval && ChannelBetween(buf, nc, p % nc, lo, hi)
    ensures lo <= HSample(buf, nx, nc, nnx, h, maxval, p) <= hi
  {
    ColumnInRange(p, nnx, nc);
    var col := p % (nnx * nc) / nc;
    TapsInRange(h, nx, nnx, col);
    var ids := Ids(h, col);
    HorizontalChannel(p, nx, ny, nc, nnx, ids[0]);
    var base := (p / (nnx * nc)) * (nx * nc) + p % (nnx * nc) % nc;
    forall t | 0 <= t < |ids|
      ensures lo <= At(buf, base + ids[t] * nc) <= hi
    {
      HorizontalChannel(p, nx, ny, nc, nnx, ids[t]);
      Multiple(ids[t], nc);
    }
    SampleBetween(ids, Wts(h, col), buf, base, nc, lo, hi, maxval);
  }

  lemma HPassBetween(buf: seq<int>, nx: nat, ny: nat, nc: nat, nnx: nat, h: Weights, maxval: int, k: nat, lo: int,
                     hi: int)
    requires nc >= 1 && nnx >= 1 && |buf| == ny * (nx * nc) && SafeAxis(h, nx, nnx)
    requires SteadyAxis(h, nx, nnx, lo, hi)
    requires 0 <= lo <= hi <= maxval && ChannelBetween(buf, nc, k, lo, hi)
    ensures ChannelBetween(HPass(buf, nx, ny, nc, nnx, h, maxval), nc, k, lo, hi)
  {
    forall p | 0 <= p < ny * (nnx * nc) && p % nc == k
      ensures lo <= HSample(buf, nx, nc, nnx, h, maxval, p) <= hi
    {
      HSampleBetween(buf, nx, ny, nc, nnx, h, maxval, p, lo, hi);
    }
  }

  lemma VSampleBetween(tmp: seq<int>, ny: nat, nc: nat, nnx: nat, rowLen: nat, nny: nat, v: Weights, maxval: int,
                       p: nat, lo: int, hi: int)
    requires nc >= 1 && nnx >= 1 && rowLen == nnx * nc && |tmp| == ny * rowLen && SafeAxis(v, ny, nny)
    requires SteadyAxis(v, ny, nny, lo, hi)
    requires rowLen >= 1 && p < nny * rowLen
    requires 0 <= lo <= hi <= maxval && ChannelBetween(tmp, nc, p % nc, lo, hi)
    ensures lo <= VSample(tmp, ny, rowLen, nny, v, maxval, p) <= hi
  {
    QuotientBelow(p, nny, rowLen);
    var j := p / rowLen;
    TapsInRange(v, ny, nny, j);
    var ids := Ids(v, j);
    forall t | 0 <= t < |ids|
      ensures lo <= At(tmp, p % rowLen + ids[t] * rowLen) <= hi
    {
      VerticalChannel(p, ny, nc, nnx, ids[t]);
      Multiple(ids[t], rowLen);
    }
    SampleBetween(ids, Wts(v, j), tmp, p % rowLen, rowLen, lo, hi, maxval);
  }

  lemma VPassBetween(tmp: seq<int>, ny: nat, nc: nat, nnx: nat, rowLen: nat, nny: nat, v: Weights, maxval: int,
                     k: nat, lo: int, hi: int)
    requires nc >= 1 && nnx >= 1 && rowLen == nnx * nc >= 1 && |tmp| == ny * rowLen && SafeAxis(v, ny, nny)
    requires SteadyAxis(v, ny, nny, lo, hi)
    requires 0 <= lo <= hi <= maxval && ChannelBetween(tmp, nc, k, lo, hi)
    ensures ChannelBetween(VPass(tmp, ny, rowLen, nny, v, maxval), nc, k, lo, hi)
  {
    forall p | 0 <= p < nny * rowLen && p % nc == k
      ensures lo <= VSample(tmp, ny, rowLen, nny, v, maxval, p) <= hi
    {
      VSampleBetween(tmp, ny, nc, nnx, rowLen, nny, v, maxval, p, lo, hi);
    }
  }

  /** Every output sample lies in any range that holds its channel's source samples and that both axes keep. */
  lemma ResampledKept(buf: seq<int>, nx: nat, ny: nat, nc: nat, nnx: nat, nny: nat, h: Weights, v: Weights,
                      maxval: int, k: nat, lo: int, hi: int)
    requires nc >= 1 && nx >= 1 && ny >= 1 && nnx >= 1 && |buf| == ny * (nx * nc)
    requires SafeAxis(h, nx, nnx) && SafeAxis(v, ny, nny)
    requires SteadyAxis(h, nx, nnx, lo, hi) && SteadyAxis(v, ny, nny, lo, hi)
    requires 0 <= lo <= hi <= maxval && ChannelBetween(buf, nc, k, lo, hi)
    ensures ChannelBetween(Resampled(buf, nx, ny, nc, nnx, nny, h, v, maxval), nc, k, lo, hi)
  {
    ColumnInRange(0, nnx, nc);
    HPassBetween(buf, nx, ny, nc, nnx, h, maxval, k, lo, hi);
    VPassBetween(HPass(buf, nx, ny, nc, nnx, h, maxval), ny, nc, nnx, nnx * nc, nny, v, maxval, k, lo, hi);
  }

  /**
   Every output sample lies between the least and the greatest source sample of its channel,
   when neither axis shrinks more than 181 times; a flat channel stays exactly flat at any sizes.
   */
  lemma ResampledBetween(buf: seq<int>, nx: nat, ny: nat, nc: nat, nnx: nat, nny: nat, h: Weights, v: Weights,
                         maxval: int, k: nat, lo: int, hi: int)
    requires nc >= 1 && nx >= 1 && ny >= 1 && nnx >= 1 && |buf| == ny * (nx * nc)
    requires BuiltFor(h, nx, nnx) && BuiltFor(v, ny, nny)
    requires lo == hi || (Gentle(nx, nnx) && Gentle(ny, nny))
    requires 0 <= lo <= hi <= maxval && ChannelBetween(buf, nc, k, lo, hi)
    ensures ChannelBetween(Resampled(buf, nx, ny, nc, nnx, nny, h, v, maxval), nc, k, lo, hi)
  {
    BuiltIsSafe(h, nx, nnx);
    BuiltIsSafe(v, ny, nny);
    SteadyIfGentle(h, nx, nnx, lo, hi);
    SteadyIfGentle(v, ny, nny, lo, hi);
    ResampledKept(buf, nx, ny, nc, nnx, nny, h, v, maxval, k, lo, hi);
  }

  // ---------------------------------------------------------------- monotone

  ghost predicate Below(a: seq<int>, b: seq<int>) {
    |a| == |b| && forall p :: 0 <= p < |a| ==> a[p] <= b[p]
  }

  /** What taps `ids` read of `a` from `x` on is nowhere above what they read of `b` from `y` on. */
  ghost predicate ReadsBelow(ids: seq<nat>, a: seq<int>, x: nat, b: seq<int>, y: nat, stride: nat) {
    forall t :: 0 <= t < |ids| ==> At(a, x + ids[t] * stride) <= At(b, y + ids[t] * stride)
  }

  lemma {:induction false} DotMonotone(ids: seq<nat>, wts: seq<int>, a: seq<int>, x: nat, b: seq<int>, y: nat,
                                       stride: nat)
    requires |ids| == |wts| && NonNegative(wts) && ReadsBelow(ids, a, x, b, y, stride)
    ensures Dot(ids, wts, a, x, stride) <= Dot(ids, wts, b, y, stride)
  {
    if |ids| > 0 {
      var n := |ids| - 1;
      assert forall t :: 0 <= t < n ==> ids[..n][t] == ids[t];
      DotMonotone(ids[..n], wts[..n], a, x, b, y, stride);
      ProductMonotone(wts[n], At(a, x + ids[n] * stride), At(b, y + ids[n] * stride));
    }
  }

  lemma BelowReads(ids: seq<nat>, a: seq<int>, b: seq<int>, base: nat, stride: nat)
    requires Below(a, b)
    ensures ReadsBelow(ids, a, base, b, base, stride)
  {
  }

  lemma ProductMonotone(w: int, x: int, y: int)
    requires w >= 0 && x <= y
    ensures w * x <= w * y
  {
  }

  lemma HPassMonotone(a: seq<int>, b: seq<int>, nx: nat, ny: nat, nc: nat, nnx: nat, h: Weights, maxval: int)
    requires nc >= 1 && nnx >= 1 && SafeAxis(h, nx, nnx) && NonNegativeAxis(h, nx, nnx) && 0 <= maxval && Below(a, b)
    ensures Below(HPass(a, nx, ny, nc, nnx, h, maxval), HPass(b, nx, ny, nc, nnx, h, maxval))
  {
    forall p | 0 <= p < ny * (nnx * nc)
      ensures HSample(a, nx, nc, nnx, h, maxval, p) <= HSample(b, nx, nc, nnx, h, maxval, p)
    {
      ColumnInRange(p, nnx, nc);
      var col := p % (nnx * nc) / nc;
      TapsInRange(h, nx, nnx, col);
      assert 0 <= (p / (nnx * nc)) * (nx * nc) by {
        Multiple(nx, nc);
        Multiple(p / (nnx * nc), nx * nc);
      }
      var base := (p / (nnx * nc)) * (nx * nc) + p % (nnx * nc) % nc;
      BelowReads(Ids(h, col), a, b, base, nc);
      DotMonotone(Ids(h, col), Wts(h, col), a, base, b, base, nc);
    }
  }

  lemma VPassMonotone(a: seq<int>, b: seq<int>, ny: nat, rowLen: nat, nny: nat, v: Weights, maxval: int)
    requires rowLen >= 1 && SafeAxis(v, ny, nny) && NonNegativeAxis(v, ny, nny) && 0 <= maxval && Below(a, b)
    ensures Below(VPass(a, ny, rowLen, nny, v, maxval), VPass(b, ny, rowLen, nny, v, maxval))
  {
    forall p | 0 <= p < nny * rowLen
      ensures VSample(a, ny, rowLen, nny, v, maxval, p) <= VSample(b, ny, rowLen, nny, v, maxval, p)
    {
      QuotientBelow(p, nny, rowLen);
      TapsInRange(v, ny, nny, p / rowLen);
      BelowReads(Ids(v, p / rowLen), a, b, p % rowLen, rowLen);
      DotMonotone(Ids(v, p / rowLen), Wts(v, p / rowLen), a, p % rowLen, b, p % rowLen, rowLen);
    }
  }

  /** A brighter image resamples to a brighter image, when neither axis shrinks more than 181 times. */
  lemma ResampledMonotone(a: seq<int>, b: seq<int>, nx: nat, ny: nat, nc: nat, nnx: nat, nny: nat, h: Weights,
                          v: Weights, maxval: int)
    requires nc >= 1 && nx >= 1 && ny >= 1 && nnx >= 1 && 0 <= maxval
    requires BuiltFor(h, nx, nnx) && BuiltFor(v, ny, nny) && Gentle(nx, nnx) && Gentle(ny, nny) && Below(a, b)
    ensures Below(Resampled(a, nx, ny, nc, nnx, nny, h, v, maxval), Resampled(b, nx, ny, nc, nnx, nny, h, v, maxval))
  {
    ColumnInRange(0, nnx, nc);
    BuiltIsSafe(h, nx, nnx);
    BuiltIsSafe(v, ny, nny);
    GentleIsNonNegative(h, nx, nnx);
    GentleIsNonNegative(v, ny, nny);
    HPassMonotone(a, b, nx, ny, nc, nnx, h, maxval);
    VPassMonotone(HPass(a, nx, ny, nc, nnx, h, maxval), HPass(b, nx, ny, nc, nnx, h, maxval), ny, nnx * nc, nny, v,
      maxval);
  }

  // ---------------------------------------------------------------- unchanged size

  ghost predicate CopyAxis(w: Weights, n: nat)
    requires Csr(w, n, n)
  {
    forall i :: 0 <= i < n ==> Ids(w, i) == [i] && Wts(w, i) == [ONE]
  }

  lemma SameIsCopy(w: Weights, n: nat)
    requires n >= 1 && BuiltFor(w, n, n)
    ensures CopyAxis(w, n)
  {
    forall i | 0 <= i < n
      ensures Ids(w, i) == [i] && Wts(w, i) == [ONE]
    {
      AxisSame(w, n, i);
    }
  }

  lemma CopySample(i: nat, buf: seq<int>, base: nat, stride: nat, p: nat, maxval: int)
    requires p == base + i * stride && p < |buf| && 0 <= buf[p] <= maxval
    ensures Narrow(ROUND + Dot([i], [ONE], buf, base, stride), maxval) == buf[p]
  {
    assert [i][..0] == [] && [ONE][..0] == [];
    assert Dot([], [], buf, base, stride) == 0;
    assert Dot([i], [ONE], buf, base, stride) == ONE * buf[p];
  }

  lemma HPassIdentity(buf: seq<int>, nx: nat, ny: nat, nc: nat, h: Weights, maxval: int)
    requires nc >= 1 && nx >= 1 && |buf| == ny * (nx * nc) && Csr(h, nx, nx) && CopyAxis(h, nx)
    requires Samples(buf, maxval)
    ensures HPass(buf, nx, ny, nc, nx, h, maxval) == buf
  {
    forall p | 0 <= p < ny * (nx * nc)
      ensures HSample(buf, nx, nc, nx, h, maxval, p) == buf[p]
    {
      ColumnInRange(p, nx, nc);
      var r := p % (nx * nc);
      DivModBasic(p, nx * nc);
      DivModBasic(r, nc);
      Multiple(p / (nx * nc), nx * nc);
      CopySample(r / nc, buf, (p / (nx * nc)) * (nx * nc) + r % nc, nc, p, maxval);
    }
  }

  lemma VPassIdentity(tmp: seq<int>, ny: nat, rowLen: nat, v: Weights, maxval: int)
    requires rowLen >= 1 && |tmp| == ny * rowLen && Csr(v, ny, ny) && CopyAxis(v, ny)
    requires Samples(tmp, maxval)
    ensures VPass(tmp, ny, rowLen, ny, v, maxval) == tmp
  {
    forall p | 0 <= p < ny * rowLen
      ensures VSample(tmp, ny, rowLen, ny, v, maxval, p) == tmp[p]
    {
      QuotientBelow(p, ny, rowLen);
      DivModBasic(p, rowLen);
      CopySample(p / rowLen, tmp, p % rowLen, rowLen, p, maxval);
    }
  }

  /** Resampling to the same size is the identity. */
  lemma ResampledIdentity(buf: seq<int>, nx: nat, ny: nat, nc: nat, h: Weights, v: Weights, maxval: int)
    requires nc >= 1 && nx >= 1 && ny >= 1 && |buf| == ny * (nx * nc)
    requires BuiltFor(h, nx, nx) && BuiltFor(v, ny, ny) && Samples(buf, maxval)
    ensures Resampled(buf, nx, ny, nc, nx, ny, h, v, maxval) == buf
  {
    ColumnInRange(0, nx, nc);
    SameIsCopy(h, nx);
    SameIsCopy(v, ny);
    HPassIdentity(buf, nx, ny, nc, h, maxval);
    VPassIdentity(buf, ny, nx * nc, v, maxval);
  }
}
