/**
 Exactly when a resample keeps every channel of every image within its range
 (src/resample.cc, src/SipiImage.cpp `build_axis_weights`).
 */
module ResampleRange {
  import opened Sums
  import opened AxisWeights
  import opened Grid
  import opened Resampler
  import opened ResampleLaws

  /** The negative weights of no output can outweigh the rounding, for samples up to `maxval`. */
  ghost predicate Firm(w: Weights, src: nat, dst: nat, maxval: int)
    requires Csr(w, src, dst)
  {
    forall i :: 0 <= i < dst ==> Negative(Wts(w, i)) * (maxval - 1) < ROUND
  }

  /** Whatever the image, no channel leaves a range that holds all its samples. */
  ghost predicate RangeKept(nx: nat, ny: nat, nc: nat, nnx: nat, nny: nat, h: Weights, v: Weights, maxval: int)
    requires nc >= 1 && nnx >= 1 && Csr(h, nx, nnx) && Csr(v, ny, nny)
  {
    forall buf: seq<int>, k: nat, lo: int, hi: int ::
      |buf| == ny * (nx * nc) && 0 <= lo <= hi <= maxval && ChannelBetween(buf, nc, k, lo, hi) ==>
        ChannelBetween(Resampled(buf, nx, ny, nc, nnx, nny, h, v, maxval), nc, k, lo, hi)
  }

  // ---------------------------------------------------------------- enough

  lemma {:induction false} NegativeIsNatural(wts: seq<int>)
    ensures Negative(wts) >= 0
  {
    PosSumMonotone(wts, 0);
    assert wts[..0] == [];
  }

  lemma {:induction false} FirmIsSteady(w: Weights, src: nat, dst: nat, maxval: int, lo: int, hi: int)
    requires Csr(w, src, dst) && Firm(w, src, dst, maxval) && hi - lo <= maxval - 1
    ensures SteadyAxis(w, src, dst, lo, hi)
  {
    forall i | 0 <= i < dst
      ensures Keeps(Wts(w, i), lo, hi)
    {
      NegativeIsNatural(Wts(w, i));
      Product(Negative(Wts(w, i)), hi - lo, maxval - 1);
    }
  }

  lemma {:induction false} Product(a: int, x: int, y: int)
    requires a >= 0 && x <= y
    ensures a * x <= a * y
  {
  }

  lemma {:induction false} AlwaysSamples(buf: seq<int>, nx: nat, ny: nat, nc: nat, nnx: nat, nny: nat, h: Weights,
                                         v: Weights, maxval: int, k: nat)
    requires nc >= 1 && nnx >= 1 && Csr(h, nx, nnx) && Csr(v, ny, nny) && maxval >= 0
    ensures ChannelBetween(Resampled(buf, nx, ny, nc, nnx, nny, h, v, maxval), nc, k, 0, maxval)
  {
    ColumnInRange(0, nnx, nc);
  }

  // ---------------------------------------------------------------- needed

  /** Taps that read `val` where the weight is positive and zero elsewhere. */
  ghost predicate ReadsPositive(ids: seq<nat>, wts: seq<int>, buf: seq<int>, base: nat, stride: nat, val: int)
    requires |ids| == |wts|
  {
    forall t :: 0 <= t < |ids| ==> At(buf, base + ids[t] * stride) == if wts[t] > 0 then val else 0
  }

  lemma {:induction false} DotPositive(ids: seq<nat>, wts: seq<int>, buf: seq<int>, base: nat, stride: nat, val: int)
    requires |ids| == |wts| && ReadsPositive(ids, wts, buf, base, stride, val)
    ensures Dot(ids, wts, buf, base, stride) == PosSum(wts) * val
  {
    if |ids| > 0 {
      var n := |ids| - 1;
      assert forall t :: 0 <= t < n ==> ids[..n][t] == ids[t] && wts[..n][t] == wts[t];
      DotPositive(ids[..n], wts[..n], buf, base, stride, val);
      Distribute(PosSum(wts[..n]), if wts[n] > 0 then wts[n] else 0, val);
    }
  }

  /** Such a sum leaves the range [0, maxval - 1] when the group is not firm. */
  lemma {:induction false} PeakEscapes(ids: seq<nat>, wts: seq<int>, buf: seq<int>, base: nat, stride: nat, maxval: int)
    requires |ids| == |wts| && Sum(wts) == ONE && maxval >= 1
    requires ReadsPositive(ids, wts, buf, base, stride, maxval - 1) && Negative(wts) * (maxval - 1) >= ROUND
    ensures Narrow(ROUND + Dot(ids, wts, buf, base, stride), maxval) == maxval
  {
    DotPositive(ids, wts, buf, base, stride, maxval - 1);
    Distribute(ONE, Negative(wts), maxval - 1);
  }

  /** The image whose sample depends on its column or row only. */
  ghost function Columns(nx: nat, ny: nat, nc: nat, f: nat -> int): seq<int>
    requires nx >= 1 && nc >= 1
  {
    seq(ny * (nx * nc), p requires 0 <= p < ny * (nx * nc) => (ColumnInRange(p, nx, nc); f(p % (nx * nc) / nc)))
  }

  ghost function Rows(nx: nat, ny: nat, nc: nat, f: nat -> int): seq<int>
    requires nx >= 1 && nc >= 1
  {
    seq(ny * (nx * nc), p requires 0 <= p < ny * (nx * nc) => (ColumnInRange(p, nx, nc); f(p / (nx * nc))))
  }

  lemma {:induction false} CellPosition(y: nat, x: nat, k: nat, nx: nat, ny: nat, nc: nat)
    requires x < nx && k < nc && y < ny
    ensures var p := y * (nx * nc) + k + x * nc;
            0 <= p < ny * (nx * nc) && p % (nx * nc) / nc == x && p / (nx * nc) == y
  {
    var p := y * (nx * nc) + x * nc + k;
    Multiple(y, nx * nc);
    Multiple(x, nc);
    ScratchPosition(y, x, k, nx, nc, p);
    CellInRange(x, nx, nc, k);
    CellInRange(y, ny, nx * nc, x * nc + k);
  }

  /** The brightness pattern of the taps of one output: `val` under its positive weights. */
  ghost function Pattern(ids: seq<nat>, wts: seq<int>, val: int): nat -> int
    requires |ids| == |wts| >= 1
  {
    (x: nat) => if ids[0] <= x < ids[0] + |ids| && wts[x - ids[0]] > 0 then val else 0
  }

  lemma {:induction false} PatternRead(ids: seq<nat>, wts: seq<int>, val: int, t: nat)
    requires |ids| == |wts| && t < |ids| && forall u :: 0 <= u < |ids| ==> ids[u] == ids[0] + u
    ensures Pattern(ids, wts, val)(ids[t]) == if wts[t] > 0 then val else 0
  {
  }

  /** Taps of one output: consecutive, in range, weights of sum one. */
  ghost predicate TapsOk(ids: seq<nat>, wts: seq<int>, src: nat) {
    && |ids| == |wts| >= 1 && Sum(wts) == ONE
    && forall t :: 0 <= t < |ids| ==> ids[t] == ids[0] + t && ids[t] < src
  }

  ghost predicate TapsAll(w: Weights, src: nat, dst: nat) {
    Csr(w, src, dst) && forall i :: 0 <= i < dst ==> TapsOk(Ids(w, i), Wts(w, i), src)
  }

  lemma {:induction false} BuiltTaps(w: Weights, src: nat, dst: nat)
    requires src >= 1 && BuiltFor(w, src, dst)
    ensures TapsAll(w, src, dst)
  {
    forall i | 0 <= i < dst
      ensures TapsOk(Ids(w, i), Wts(w, i), src)
    {
      AxisSafe(w, src, dst, i);
      assert OutputOk(KernelOf(src, dst, i), src, Ids(w, i), Wts(w, i));
    }
  }

  lemma {:induction false} ColumnAt(nx: nat, ny: nat, nc: nat, f: nat -> int, y: nat, x: nat)
    requires nc >= 1 && x < nx && y < ny
    ensures At(Columns(nx, ny, nc, f), y * (nx * nc) + x * nc) == f(x)
  {
    CellPosition(y, x, 0, nx, ny, nc);
  }

  lemma {:induction false} RowAt(nx: nat, ny: nat, nc: nat, f: nat -> int, y: nat, x: nat)
    requires nc >= 1 && x < nx && y < ny
    ensures At(Rows(nx, ny, nc, f), y * (nx * nc) + x * nc) == f(y)
  {
    CellPosition(y, x, 0, nx, ny, nc);
  }

  /** The first sample of scratch pixel (i, y). */
  lemma {:induction false} HSampleAt(buf: seq<int>, nx: nat, nc: nat, nnx: nat, h: Weights, maxval: int, y: nat, i: nat,
                                     p: nat)
    requires nc >= 1 && i < nnx && Csr(h, nx, nnx) && p == y * (nnx * nc) + i * nc
    ensures 0 <= y * (nx * nc)
    ensures HSample(buf, nx, nc, nnx, h, maxval, p)
         == Narrow(ROUND + Dot(Ids(h, i), Wts(h, i), buf, y * (nx * nc), nc), maxval)
  {
    Multiple(y, nx * nc) by { Multiple(nx, nc); }
    ScratchPosition(y, i, 0, nnx, nc, p);
  }

  /** Sample `f` of output row `j`. */
  lemma {:induction false} VSampleAt(tmp: seq<int>, ny: nat, rowLen: nat, nny: nat, v: Weights, maxval: int, j: nat,
                                     f: nat, p: nat)
    requires j < nny && f < rowLen && Csr(v, ny, nny) && p == j * rowLen + f
    ensures p < nny * rowLen
    ensures VSample(tmp, ny, rowLen, nny, v, maxval, p)
         == Narrow(ROUND + Dot(Ids(v, j), Wts(v, j), tmp, f, rowLen), maxval)
  {
    CellInRange(j, nny, rowLen, f);
    DivModUnique(p, j, rowLen, f);
  }

  lemma {:induction false} PatternReads(nx: nat, ny: nat, nc: nat, ids: seq<nat>, wts: seq<int>, val: int, y: nat,
                                        base: nat)
    requires nc >= 1 && nx >= 1 && y < ny && TapsOk(ids, wts, nx) && base == y * (nx * nc)
    ensures ReadsPositive(ids, wts, Columns(nx, ny, nc, Pattern(ids, wts, val)), base, nc, val)
  {
    forall t | 0 <= t < |ids|
      ensures At(Columns(nx, ny, nc, Pattern(ids, wts, val)), base + ids[t] * nc) == if wts[t] > 0 then val else 0
    {
      ColumnAt(nx, ny, nc, Pattern(ids, wts, val), y, ids[t]);
      PatternRead(ids, wts, val, t);
    }
  }

  /** Columns bright under the positive weights of output column `i` make that column too bright, in every row. */
  lemma {:induction false} HorizontalPeak(nx: nat, ny: nat, nc: nat, nnx: nat, h: Weights, maxval: int, i: nat, y: nat,
                                          p: nat)
    requires nc >= 1 && nx >= 1 && Csr(h, nx, nnx) && i < nnx && y < ny && maxval >= 1
    requires TapsOk(Ids(h, i), Wts(h, i), nx) && Negative(Wts(h, i)) * (maxval - 1) >= ROUND
    requires p == y * (nnx * nc) + i * nc
    ensures HSample(Columns(nx, ny, nc, Pattern(Ids(h, i), Wts(h, i), maxval - 1)), nx, nc, nnx, h, maxval, p) == maxval
  {
    HSampleAt(Columns(nx, ny, nc, Pattern(Ids(h, i), Wts(h, i), maxval - 1)), nx, nc, nnx, h, maxval, y, i, p);
    PeakValue(nx, ny, nc, Ids(h, i), Wts(h, i), maxval, y, y * (nx * nc));
  }

  lemma {:induction false} PeakValue(nx: nat, ny: nat, nc: nat, ids: seq<nat>, wts: seq<int>, maxval: int, y: nat,
                                     base: nat)
    requires nc >= 1 && nx >= 1 && y < ny && maxval >= 1 && TapsOk(ids, wts, nx) && base == y * (nx * nc)
    requires Negative(wts) * (maxval - 1) >= ROUND
    ensures Narrow(ROUND + Dot(ids, wts, Columns(nx, ny, nc, Pattern(ids, wts, maxval - 1)), base, nc), maxval)
         == maxval
  {
    PatternReads(nx, ny, nc, ids, wts, maxval - 1, y, base);
    PeakEscapes(ids, wts, Columns(nx, ny, nc, Pattern(ids, wts, maxval - 1)), base, nc, maxval);
  }

  /** A weighted sum of equal samples is that sample. */
  lemma {:induction false} FlatSample(ids: seq<nat>, wts: seq<int>, src: nat, buf: seq<int>, base: nat, stride: nat,
                                      val: int, maxval: int)
    requires TapsOk(ids, wts, src) && 0 <= val <= maxval
    requires forall t :: 0 <= t < |ids| ==> At(buf, base + ids[t] * stride) == val
    ensures Narrow(ROUND + Dot(ids, wts, buf, base, stride), maxval) == val
  {
    SampleBetween(ids, wts, buf, base, stride, val, val, maxval);
  }

  lemma {:induction false} PatternBetween(buf: seq<int>, nc: nat, maxval: int)
    requires nc >= 1 && maxval >= 1 && forall p :: 0 <= p < |buf| ==> buf[p] == 0 || buf[p] == maxval - 1
    ensures ChannelBetween(buf, nc, 0, 0, maxval - 1)
  {
  }

  /** A scratch buffer whose column starting at `f` is `val` in every row. */
  ghost predicate FlatColumn(tmp: seq<int>, ny: nat, rowLen: nat, f: nat, val: int) {
    forall q: nat :: q < ny ==> At(tmp, f + q * rowLen) == val
  }

  lemma {:induction false} FlatColumnSample(ids: seq<nat>, wts: seq<int>, ny: nat, tmp: seq<int>, f: nat, rowLen: nat,
                                            val: int, maxval: int)
    requires TapsOk(ids, wts, ny) && 0 <= val <= maxval && FlatColumn(tmp, ny, rowLen, f, val)
    ensures Narrow(ROUND + Dot(ids, wts, tmp, f, rowLen), maxval) == val
  {
    forall t | 0 <= t < |ids|
      ensures At(tmp, f + ids[t] * rowLen) == val
    {
      assert ids[t] < ny;
    }
    FlatSample(ids, wts, ny, tmp, f, rowLen, val, maxval);
  }

  lemma {:induction false} PeakColumn(nx: nat, ny: nat, nc: nat, nnx: nat, h: Weights, maxval: int, i: nat,
                                      buf: seq<int>)
    requires nc >= 1 && nx >= 1 && TapsAll(h, nx, nnx) && i < nnx && maxval >= 1
    requires Negative(Wts(h, i)) * (maxval - 1) >= ROUND && TapsOk(Ids(h, i), Wts(h, i), nx)
    requires buf == Columns(nx, ny, nc, Pattern(Ids(h, i), Wts(h, i), maxval - 1))
    ensures FlatColumn(HPass(buf, nx, ny, nc, nnx, h, maxval), ny, nnx * nc, i * nc, maxval)
  {
    forall q: nat | q < ny
      ensures At(HPass(buf, nx, ny, nc, nnx, h, maxval), i * nc + q * (nnx * nc)) == maxval
    {
      CellPosition(q, i, 0, nnx, ny, nc);
      HorizontalPeak(nx, ny, nc, nnx, h, maxval, i, q, q * (nnx * nc) + i * nc);
    }
  }

  /** An image that leaves its range because an output column is not firm. */
  lemma {:induction false} HorizontalEscape(nx: nat, ny: nat, nc: nat, nnx: nat, nny: nat, h: Weights, v: Weights,
                                            maxval: int, i: nat)
    requires nc >= 1 && nx >= 1 && ny >= 1 && nny >= 1 && maxval >= 1 && i < nnx && TapsAll(h, nx, nnx) &&
      TapsAll(v, ny, nny)
    requires Negative(Wts(h, i)) * (maxval - 1) >= ROUND
    ensures !RangeKept(nx, ny, nc, nnx, nny, h, v, maxval)
  {
    var buf := Columns(nx, ny, nc, Pattern(Ids(h, i), Wts(h, i), maxval - 1));
    PeakColumn(nx, ny, nc, nnx, h, maxval, i, buf);
    CellInRange(i, nnx, nc, 0);
    ChannelOfSum(i, nc, 0);
    PatternBetween(buf, nc, maxval);
    ColumnEscapes(buf, nx, ny, nc, nnx, nny, h, v, maxval, i * nc, nnx * nc);
  }

  lemma {:induction false} ColumnEscapes(buf: seq<int>, nx: nat, ny: nat, nc: nat, nnx: nat, nny: nat, h: Weights,
                                         v: Weights, maxval: int, p: nat, rowLen: nat)
    requires nc >= 1 && nnx >= 1 && ny >= 1 && nny >= 1 && Csr(h, nx, nnx) && TapsAll(v, ny, nny) && maxval >= 1
    requires |buf| == ny * (nx * nc) && ChannelBetween(buf, nc, 0, 0, maxval - 1)
    requires rowLen == nnx * nc && p < rowLen && p % nc == 0
    requires FlatColumn(HPass(buf, nx, ny, nc, nnx, h, maxval), ny, rowLen, p, maxval)
    ensures !RangeKept(nx, ny, nc, nnx, nny, h, v, maxval)
  {
    var tmp := HPass(buf, nx, ny, nc, nnx, h, maxval);
    FlatOutput(tmp, ny, rowLen, nny, v, maxval, p);
    assert Resampled(buf, nx, ny, nc, nnx, nny, h, v, maxval) == VPass(tmp, ny, rowLen, nny, v, maxval);
    Escapes(buf, nx, ny, nc, nnx, nny, h, v, maxval, p);
  }

  lemma {:induction false} FlatOutput(tmp: seq<int>, ny: nat, rowLen: nat, nny: nat, v: Weights, maxval: int, p: nat)
    requires ny >= 1 && nny >= 1 && TapsAll(v, ny, nny) && maxval >= 0 && p < rowLen &&
      FlatColumn(tmp, ny, rowLen, p, maxval)
    ensures p < |VPass(tmp, ny, rowLen, nny, v, maxval)| && VPass(tmp, ny, rowLen, nny, v, maxval)[p] == maxval
  {
    VSampleAt(tmp, ny, rowLen, nny, v, maxval, 0, p, p);
    FlatColumnSample(Ids(v, 0), Wts(v, 0), ny, tmp, p, rowLen, maxval, maxval);
  }

  lemma {:induction false} Escapes(buf: seq<int>, nx: nat, ny: nat, nc: nat, nnx: nat, nny: nat, h: Weights, v: Weights,
                                   maxval: int, p: nat)
    requires nc >= 1 && nnx >= 1 && Csr(h, nx, nnx) && Csr(v, ny, nny) && maxval >= 1
    requires |buf| == ny * (nx * nc) && ChannelBetween(buf, nc, 0, 0, maxval - 1)
    requires var r := Resampled(buf, nx, ny, nc, nnx, nny, h, v, maxval); p < |r| && p % nc == 0 && r[p] == maxval
    ensures !RangeKept(nx, ny, nc, nnx, nny, h, v, maxval)
  {
    var r := Resampled(buf, nx, ny, nc, nnx, nny, h, v, maxval);
    assert !ChannelBetween(r, nc, 0, 0, maxval - 1);
  }

  /** A row of equal samples stays as it is in the horizontal pass. */
  lemma {:induction false} RowsKept(nx: nat, ny: nat, nc: nat, nnx: nat, h: Weights, maxval: int, f: nat -> int, y: nat,
                                    p: nat)
    requires nc >= 1 && nx >= 1 && nnx >= 1 && TapsAll(h, nx, nnx) && y < ny && 0 <= f(y) <= maxval &&
      p == y * (nnx * nc)
    ensures HSample(Rows(nx, ny, nc, f), nx, nc, nnx, h, maxval, p) == f(y)
  {
    var buf := Rows(nx, ny, nc, f);
    HSampleAt(buf, nx, nc, nnx, h, maxval, y, 0, p);
    forall t | 0 <= t < |Ids(h, 0)|
      ensures At(buf, y * (nx * nc) + Ids(h, 0)[t] * nc) == f(y)
    {
      RowAt(nx, ny, nc, f, y, Ids(h, 0)[t]);
    }
    FlatSample(Ids(h, 0), Wts(h, 0), nx, buf, y * (nx * nc), nc, f(y), maxval);
  }

  lemma {:induction false} PeakRows(nx: nat, ny: nat, nc: nat, nnx: nat, h: Weights, maxval: int, ids: seq<nat>,
                                    wts: seq<int>, buf: seq<int>)
    requires nc >= 1 && nx >= 1 && nnx >= 1 && TapsAll(h, nx, nnx) && maxval >= 1 && TapsOk(ids, wts, ny)
    requires buf == Rows(nx, ny, nc, Pattern(ids, wts, maxval - 1))
    ensures ReadsPositive(ids, wts, HPass(buf, nx, ny, nc, nnx, h, maxval), 0, nnx * nc, maxval - 1)
  {
    forall t | 0 <= t < |ids|
      ensures At(HPass(buf, nx, ny, nc, nnx, h, maxval), 0 + ids[t] * (nnx * nc)) ==
        if wts[t] > 0 then maxval - 1 else 0
    {
      PatternRead(ids, wts, maxval - 1, t);
      CellPosition(ids[t], 0, 0, nnx, ny, nc);
      RowsKept(nx, ny, nc, nnx, h, maxval, Pattern(ids, wts, maxval - 1), ids[t], ids[t] * (nnx * nc));
    }
  }

  /** An image that leaves its range because an output row is not firm. */
  lemma {:induction false} VerticalEscape(nx: nat, ny: nat, nc: nat, nnx: nat, nny: nat, h: Weights, v: Weights,
                                          maxval: int, j: nat)
    requires nc >= 1 && nx >= 1 && ny >= 1 && nnx >= 1 && maxval >= 1 && j < nny && TapsAll(h, nx, nnx) &&
      TapsAll(v, ny, nny)
    requires Negative(Wts(v, j)) * (maxval - 1) >= ROUND
    ensures !RangeKept(nx, ny, nc, nnx, nny, h, v, maxval)
  {
    var ids, wts := Ids(v, j), Wts(v, j);
    var buf := Rows(nx, ny, nc, Pattern(ids, wts, maxval - 1));
    PeakRows(nx, ny, nc, nnx, h, maxval, ids, wts, buf);
    Multiple(nnx, nc);
    Multiple(j, nnx * nc);
    RowChannel(j, nnx, nc, 0, j * (nnx * nc));
    PatternBetween(buf, nc, maxval);
    RowEscapes(buf, nx, ny, nc, nnx, nny, h, v, maxval, j, j * (nnx * nc), nnx * nc);
  }

  lemma {:induction false} RowEscapes(buf: seq<int>, nx: nat, ny: nat, nc: nat, nnx: nat, nny: nat, h: Weights,
                                      v: Weights, maxval: int, j: nat, p: nat, rowLen: nat)
    requires nc >= 1 && nnx >= 1 && Csr(h, nx, nnx) && Csr(v, ny, nny) && maxval >= 1 && j < nny &&
      TapsOk(Ids(v, j), Wts(v, j), ny)
    requires |buf| == ny * (nx * nc) && ChannelBetween(buf, nc, 0, 0, maxval - 1)
    requires rowLen == nnx * nc >= 1 && p == j * rowLen && p % nc == 0 && Negative(Wts(v, j)) * (maxval - 1) >= ROUND
    requires ReadsPositive(Ids(v, j), Wts(v, j), HPass(buf, nx, ny, nc, nnx, h, maxval), 0, rowLen, maxval - 1)
    ensures !RangeKept(nx, ny, nc, nnx, nny, h, v, maxval)
  {
    var tmp := HPass(buf, nx, ny, nc, nnx, h, maxval);
    VSampleAt(tmp, ny, rowLen, nny, v, maxval, j, 0, p);
    PeakEscapes(Ids(v, j), Wts(v, j), tmp, 0, rowLen, maxval);
    assert Resampled(buf, nx, ny, nc, nnx, nny, h, v, maxval) == VPass(tmp, ny, rowLen, nny, v, maxval);
    Escapes(buf, nx, ny, nc, nnx, nny, h, v, maxval, p);
  }

  /**
   A resample between two sizes keeps every channel of every image within its range if and only if
   on neither axis the negative weights of an output, times the largest sample less one, reach half
   of the fixed-point one.
   */
  lemma {:induction false} RangeKeptIff(nx: nat, ny: nat, nc: nat, nnx: nat, nny: nat, h: Weights, v: Weights,
                                        maxval: int)
    requires nc >= 1 && nx >= 1 && ny >= 1 && nnx >= 1 && nny >= 1 && maxval >= 1 && BuiltFor(h, nx, nnx) &&
      BuiltFor(v, ny, nny)
    ensures RangeKept(nx, ny, nc, nnx, nny, h, v, maxval) <==> Firm(h, nx, nnx, maxval) && Firm(v, ny, nny, maxval)
  {
    BuiltTaps(h, nx, nnx);
    BuiltTaps(v, ny, nny);
    if Firm(h, nx, nnx, maxval) && Firm(v, ny, nny, maxval) {
      FirmKeeps(nx, ny, nc, nnx, nny, h, v, maxval);
    } else if !Firm(h, nx, nnx, maxval) {
      var i: nat :| i < nnx && Negative(Wts(h, i)) * (maxval - 1) >= ROUND;
      HorizontalEscape(nx, ny, nc, nnx, nny, h, v, maxval, i);
    } else {
      var j: nat :| j < nny && Negative(Wts(v, j)) * (maxval - 1) >= ROUND;
      VerticalEscape(nx, ny, nc, nnx, nny, h, v, maxval, j);
    }
  }

  lemma {:induction false} FirmKeeps(nx: nat, ny: nat, nc: nat, nnx: nat, nny: nat, h: Weights, v: Weights, maxval: int)
    requires nc >= 1 && nx >= 1 && ny >= 1 && nnx >= 1 && maxval >= 1 && BuiltFor(h, nx, nnx) && BuiltFor(v, ny, nny)
    requires Firm(h, nx, nnx, maxval) && Firm(v, ny, nny, maxval)
    ensures RangeKept(nx, ny, nc, nnx, nny, h, v, maxval)
  {
    BuiltIsSafe(h, nx, nnx);
    BuiltIsSafe(v, ny, nny);
    forall buf: seq<int>, k: nat, lo: int, hi: int
      | |buf| == ny * (nx * nc) && 0 <= lo <= hi <= maxval && ChannelBetween(buf, nc, k, lo, hi)
      ensures ChannelBetween(Resampled(buf, nx, ny, nc, nnx, nny, h, v, maxval), nc, k, lo, hi)
    {
      if hi - lo == maxval {
        AlwaysSamples(buf, nx, ny, nc, nnx, nny, h, v, maxval, k);
      } else {
        FirmIsSteady(h, nx, nnx, maxval, lo, hi);
        FirmIsSteady(v, ny, nny, maxval, lo, hi);
        ResampledKept(buf, nx, ny, nc, nnx, nny, h, v, maxval, k, lo, hi);
      }
    }
  }

  // ---------------------------------------------------------------- whole factors

  /** A sequence with no negative element but perhaps the first. */
  lemma {:induction false} PosSumHead(s: seq<int>)
    requires |s| >= 1 && forall t :: 1 <= t < |s| ==> s[t] >= 0
    ensures Negative(s) == if s[0] < 0 then -s[0] else 0
  {
    if |s| == 1 {
      assert s[..0] == [];
    } else {
      PosSumHead(s[..|s| - 1]);
    }
  }

  /** An axis shrunk by a whole factor `q` is firm if and only if what folding takes off its first tap is small. */
  lemma {:induction false} WholeFactorFirmIff(w: Weights, src: nat, dst: nat, q: nat, maxval: int)
    requires q >= 2 && dst >= 1 && src == q * dst && BuiltFor(w, src, dst) && maxval >= 1
    ensures Firm(w, src, dst, maxval) <==> ((q - 1) * Fixed(1.0 / (q as real)) - ONE) * (maxval - 1) < ROUND
  {
    var excess := (q - 1) * Fixed(1.0 / (q as real)) - ONE;
    PositiveQuotient(1.0, q as real);
    assert dst < src by { assert (q - 1) * dst >= dst; }
    forall i | 0 <= i < dst
      ensures Negative(Wts(w, i)) == if excess > 0 then excess else 0
    {
      IntegerShrinkTaps(w, src, dst, q, i);
      PosSumHead(Wts(w, i));
    }
    FirmOne(w, src, dst, maxval, excess);
  }

  lemma {:induction false} FirmOne(w: Weights, src: nat, dst: nat, maxval: int, excess: int)
    requires Csr(w, src, dst) && dst >= 1 && maxval >= 1
    requires forall i :: 0 <= i < dst ==> Negative(Wts(w, i)) == if excess > 0 then excess else 0
    ensures Firm(w, src, dst, maxval) <==> excess * (maxval - 1) < ROUND
  {
    assert excess <= 0 ==> excess * (maxval - 1) <= 0;
    assert Negative(Wts(w, 0)) == if excess > 0 then excess else 0;
  }

  /** Some 8-bit image of 516 x 2 pixels loses its range when it becomes 2 x 2; no image of 402 x 2 does. */
  lemma {:induction false} RangeExamples(a: Weights, b: Weights, v: Weights)
    requires BuiltFor(a, 516, 2) && BuiltFor(b, 402, 2) && BuiltFor(v, 2, 2)
    ensures !RangeKept(516, 2, 1, 2, 2, a, v, 255)
    ensures RangeKept(402, 2, 1, 2, 2, b, v, 255) && Wts(b, 0) != [] && Wts(b, 0)[0] < 0
  {
    AxesExamples(a, b);
    RangeKeptIff(516, 2, 1, 2, 2, a, v, 255);
    RangeKeptIff(402, 2, 1, 2, 2, b, v, 255);
    CopyFirm(v, 2, 255);
  }

  /** An axis that keeps its size is firm. */
  lemma {:induction false} CopyFirm(w: Weights, n: nat, maxval: int)
    requires n >= 1 && BuiltFor(w, n, n)
    ensures Firm(w, n, n, maxval)
  {
    SameIsCopy(w, n);
    forall i | 0 <= i < n
      ensures Negative(Wts(w, i)) == 0
    {
      PosSumHead(Wts(w, i));
    }
  }

  lemma {:induction false} AxesExamples(a: Weights, b: Weights)
    requires BuiltFor(a, 516, 2) && BuiltFor(b, 402, 2)
    ensures !Firm(a, 516, 2, 255) && Firm(b, 402, 2, 255) && Wts(b, 0) != [] && Wts(b, 0)[0] < 0
  {
    Fixed258();
    WholeFactorFirmIff(a, 516, 2, 258, 255);
    Fixed201();
    WholeFactorFirmIff(b, 402, 2, 201, 255);
    IntegerShrinkTaps(b, 402, 2, 201, 0);
  }

  lemma {:induction false} Fixed201()
    ensures Fixed(1.0 / (201 as real)) == 82
  {
  }
}
