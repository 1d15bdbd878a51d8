/**
 The fixed-point separable resampler (src/resample.cc, `ResampleSeparable`): a scalar
 horizontal pass into a scratch buffer, then a vertical pass that accumulates whole rows
 in blocks of `lanes` samples with a scalar tail. Accumulators are `Int32`, so every
 addition and product below carries the proof that it does not overflow.
 */
module Resampler {
  import opened Sums
  import opened AxisWeights
  import opened Grid

  const ROUND: int := 8192

  // ---------------------------------------------------------------- specification

  function At(buf: seq<int>, p: int): int {
    if 0 <= p < |buf| then buf[p] else 0
  }

  /** The weighted sum of the samples at `base + idx[t] * stride`. */
  function Dot(ids: seq<nat>, wts: seq<int>, buf: seq<int>, base: nat, stride: nat): int
    requires |ids| == |wts|
  {
    if |ids| == 0 then 0
    else
      var n := |ids| - 1;
      Dot(ids[..n], wts[..n], buf, base, stride) + wts[n] * At(buf, base + ids[n] * stride)
  }

  function Clamp(x: int, lo: int, hi: int): int {
    if x < lo then lo else if hi < x then hi else x
  }

  /** Round, shift back to the sample scale, clamp; the shift rounds towards minus infinity. */
  function Narrow(acc: int, maxval: int): int { Clamp(acc / ONE, 0, maxval) }

  /** Sample `p` of the scratch buffer: row p / rowLen, column (p % rowLen) / nc, channel p % rowLen % nc. */
  ghost function HSample(buf: seq<int>, nx: nat, nc: nat, nnx: nat, h: Weights, maxval: int, p: nat): int
    requires nc >= 1 && nnx >= 1 && Csr(h, nx, nnx)
  {
    var rowLen := nnx * nc;
    var col := (p % rowLen) / nc;
    ColumnInRange(p, nnx, nc);
    Narrow(ROUND + Dot(Ids(h, col), Wts(h, col), buf, (p / rowLen) * (nx * nc) + p % rowLen % nc, nc), maxval)
  }

  ghost function HPass(buf: seq<int>, nx: nat, ny: nat, nc: nat, nnx: nat, h: Weights, maxval: int): seq<int>
    requires nc >= 1 && nnx >= 1 && Csr(h, nx, nnx)
  {
    seq(ny * (nnx * nc), p requires 0 <= p < ny * (nnx * nc) => HSample(buf, nx, nc, nnx, h, maxval, p))
  }

  /** Sample `p` of the result: output row p / rowLen, every column with the same taps. */
  ghost function VSample(tmp: seq<int>, ny: nat, rowLen: nat, nny: nat, v: Weights, maxval: int, p: nat): int
    requires rowLen >= 1 && Csr(v, ny, nny) && p < nny * rowLen
  {
    QuotientBelow(p, nny, rowLen);
    Narrow(ROUND + Dot(Ids(v, p / rowLen), Wts(v, p / rowLen), tmp, p % rowLen, rowLen), maxval)
  }

  ghost function VPass(tmp: seq<int>, ny: nat, rowLen: nat, nny: nat, v: Weights, maxval: int): seq<int>
    requires rowLen >= 1 && Csr(v, ny, nny)
  {
    seq(nny * rowLen, p requires 0 <= p < nny * rowLen => VSample(tmp, ny, rowLen, nny, v, maxval, p))
  }

  ghost predicate SafeAxis(w: Weights, src: nat, dst: nat) {
    Csr(w, src, dst) && forall i :: 0 <= i < dst ==> SafeGroup(Wts(w, i))
  }

  ghost predicate Samples(buf: seq<int>, maxval: int) {
    forall p :: 0 <= p < |buf| ==> 0 <= buf[p] <= maxval
  }

  // ---------------------------------------------------------------- index arithmetic

  lemma ColumnInRange(p: nat, n: nat, nc: nat)
    requires n >= 1 && nc >= 1
    ensures n * nc >= 1 && 0 <= p % (n * nc) < n * nc && 0 <= p % (n * nc) / nc < n
    ensures 0 <= p / (n * nc) && 0 <= p % (n * nc) % nc < nc
  {
    Multiple(n, nc);
    DivModBasic(p, n * nc);
    QuotientBelow(p % (n * nc), n, nc);
  }

  // ---------------------------------------------------------------- no overflow

  lemma {:induction false} DotBounds(ids: seq<nat>, wts: seq<int>, buf: seq<int>, base: nat, stride: nat, maxval: int)
    requires |ids| == |wts| && Samples(buf, maxval) && 0 <= maxval
    ensures (Sum(wts) - PosSum(wts)) * maxval <= Dot(ids, wts, buf, base, stride) <= PosSum(wts) * maxval
  {
    if |ids| > 0 {
      var n := |ids| - 1;
      DotBounds(ids[..n], wts[..n], buf, base, stride, maxval);
      var s := At(buf, base + ids[n] * stride);
      ProductBounds(wts[n], s, maxval);
      var pos := if wts[n] > 0 then wts[n] else 0;
      Distribute(PosSum(wts[..n]), pos, maxval);
      Distribute(Sum(wts[..n]) - PosSum(wts[..n]), wts[n] - pos, maxval);
    }
  }

  lemma ProductBounds(w: int, s: int, maxval: int)
    requires 0 <= s <= maxval
    ensures (if w > 0 then 0 else w) * maxval <= w * s <= (if w > 0 then w else 0) * maxval
  {
  }

  lemma Distribute(a: int, b: int, m: int)
    ensures (a + b) * m == a * m + b * m
  {
  }

  /**
   For 8- and 16-bit samples no partial accumulation, and no single product, leaves int32:
   every prefix of a safe group stays in [-16384 * 65535 + 8192, 32768 * 65535 + 8192].
   */
  lemma AccumulatorInRange(ids: seq<nat>, wts: seq<int>, buf: seq<int>, base: nat, stride: nat, maxval: int, m: nat)
    requires |ids| == |wts| && m <= |ids| && SafeGroup(wts) && Samples(buf, maxval) && 0 <= maxval <= 65535
    ensures -16384 * 65535 + ROUND <= ROUND + Dot(ids[..m], wts[..m], buf, base, stride) <= 32768 * 65535 + ROUND
    ensures m < |ids| ==> -16384 * 65535 <= wts[m] * At(buf, base + ids[m] * stride) <= 32768 * 65535
    ensures m < |ids| ==> (Dot(ids[..m + 1], wts[..m + 1], buf, base, stride)
                           == Dot(ids[..m], wts[..m], buf, base, stride) + wts[m] * At(buf, base + ids[m] * stride))
    ensures m < |ids| ==> -16384 <= wts[m] <= 32768
  {
    DotBounds(ids[..m], wts[..m], buf, base, stride, maxval);
    PosSumMonotone(wts, m);
    ScaleBounds(PosSum(wts[..m]), Sum(wts[..m]) - PosSum(wts[..m]), maxval);
    if m < |ids| {
      assert ids[..m + 1][..m] == ids[..m] && wts[..m + 1][..m] == wts[..m];
      PosSumMonotone(wts, m + 1);
      PosSumMonotone(wts[..m + 1], m);
      var s := At(buf, base + ids[m] * stride);
      ProductBounds(wts[m], s, maxval);
      ScaleBounds(if wts[m] > 0 then wts[m] else 0, if wts[m] > 0 then 0 else wts[m], maxval);
    }
  }

  lemma ScaleBounds(pos: int, neg: int, maxval: int)
    requires 0 <= pos <= 2 * ONE && -ONE <= neg <= 0 && 0 <= maxval <= 65535
    ensures pos * maxval <= 32768 * 65535 && neg * maxval >= -16384 * 65535
  {
    assert pos * maxval <= 32768 * maxval;
    assert neg * maxval >= -16384 * maxval;
  }

  // ---------------------------------------------------------------- horizontal pass

  /** The taps lo, ..., hi - 1 of one output. */
  method Accumulate(buf: seq<int>, base: nat, stride: nat, idx: seq<nat>, wt: seq<int>, lo: nat, hi: nat, maxval: int)
    returns (acc: Int32)
    requires lo <= hi <= |idx| == |wt| && SafeGroup(wt[lo..hi]) && Samples(buf, maxval) && 0 <= maxval <= 65535
    requires forall t :: lo <= t < hi ==> 0 <= base + idx[t] * stride < |buf|
    ensures acc as int == ROUND + Dot(idx[lo..hi], wt[lo..hi], buf, base, stride)
  {
    ghost var ids, wts := idx[lo..hi], wt[lo..hi];
    acc := ROUND as Int32;
    for t := lo to hi
      invariant acc as int == ROUND + Dot(ids[..t - lo], wts[..t - lo], buf, base, stride)
    {
      AccumulatorInRange(ids, wts, buf, base, stride, maxval, t - lo);
      AccumulatorInRange(ids, wts, buf, base, stride, maxval, t - lo + 1);
      assert ids[t - lo] == idx[t] && wts[t - lo] == wt[t];
      acc := acc + (wt[t] as Int32) * (buf[base + idx[t] * stride] as Int32);
    }
    assert ids[..hi - lo] == ids && wts[..hi - lo] == wts;
  }

  /** One output sample of the horizontal pass. */
  method HorizontalSample(buf: seq<int>, base: nat, stride: nat, h: Weights, nx: nat, nnx: nat, i: nat, maxval: int)
    returns (s: int)
    requires SafeAxis(h, nx, nnx) && i < nnx && Samples(buf, maxval) && 0 <= maxval <= 65535
    requires forall q: nat :: q < nx ==> 0 <= base + q * stride < |buf|
    ensures s == Narrow(ROUND + Dot(Ids(h, i), Wts(h, i), buf, base, stride), maxval)
  {
    assert h.offset[i] <= h.offset[i + 1] <= h.offset[nnx];
    assert SafeGroup(Wts(h, i));
    var acc := Accumulate(buf, base, stride, h.idx, h.wt, h.offset[i], h.offset[i + 1], maxval);
    s := Clamp(acc as int / ONE, 0, maxval);
  }

  /** Where position (y, i, k) of the scratch buffer sits, and which taps it uses. */
  lemma ScratchPosition(y: nat, i: nat, k: nat, nnx: nat, nc: nat, p: nat)
    requires i < nnx && k < nc && p == y * (nnx * nc) + i * nc + k
    ensures nnx * nc >= 1 && p / (nnx * nc) == y && p % (nnx * nc) == i * nc + k
    ensures (i * nc + k) / nc == i && (i * nc + k) % nc == k
  {
    CellInRange(i, nnx, nc, k);
    DivModUnique(p, y, nnx * nc, i * nc + k);
    DivModUnique(i * nc + k, i, nc, k);
  }

  /** Source row `y` read at channel `k` with stride `nc` stays inside the image. */
  lemma SourceInRange(y: nat, ny: nat, nx: nat, nc: nat, k: nat)
    requires y < ny && k < nc
    ensures 0 <= y * (nx * nc)
    ensures forall q: nat :: q < nx ==> 0 <= y * (nx * nc) + k + q * nc < ny * (nx * nc)
  {
    Multiple(nx, nc);
    Multiple(y, nx * nc);
    forall q: nat | q < nx
      ensures 0 <= y * (nx * nc) + k + q * nc < ny * (nx * nc)
    {
      CellInRange(q, nx, nc, k);
      CellInRange(y, ny, nx * nc, q * nc + k);
    }
  }

  /** Column `i`, channel `k` of row `y`: position `p` of the scratch buffer. */
  method HorizontalCell(buf: seq<int>, nx: nat, ny: nat, nc: nat, nnx: nat, h: Weights, maxval: int,
                        y: nat, i: nat, k: nat, ghost p: nat) returns (s: int)
    requires |buf| == ny * (nx * nc) && SafeAxis(h, nx, nnx)
    requires Samples(buf, maxval) && 0 <= maxval <= 65535
    requires y < ny && i < nnx && k < nc && p == y * (nnx * nc) + i * nc + k
    ensures s == HSample(buf, nx, nc, nnx, h, maxval, p)
  {
    SourceInRange(y, ny, nx, nc, k);
    ScratchPosition(y, i, k, nnx, nc, p);
    s := HorizontalSample(buf, y * (nx * nc) + k, nc, h, nx, nnx, i, maxval);
  }

  /** The scratch buffer is right up to position `n`. */
  ghost predicate ScratchDone(scratch: seq<int>, n: nat, buf: seq<int>, nx: nat, nc: nat, nnx: nat, h: Weights,
                              maxval: int)
    requires nc >= 1 && nnx >= 1 && Csr(h, nx, nnx)
  {
    n <= |scratch| && forall q :: 0 <= q < n ==> scratch[q] == HSample(buf, nx, nc, nnx, h, maxval, q)
  }

  /** All channels of column `i` of row `y`, written from position `at` on. */
  method HorizontalPixel(scratch: array<int>, buf: seq<int>, nx: nat, ny: nat, nc: nat, nnx: nat, h: Weights,
                         maxval: int, y: nat, i: nat, at: nat)
    requires nc >= 1 && |buf| == ny * (nx * nc) && SafeAxis(h, nx, nnx) && y < ny && i < nnx
    requires Samples(buf, maxval) && 0 <= maxval <= 65535
    requires at == y * (nnx * nc) + i * nc && at + nc <= scratch.Length
    requires ScratchDone(scratch[..], at, buf, nx, nc, nnx, h, maxval)
    modifies scratch
    ensures ScratchDone(scratch[..], at + nc, buf, nx, nc, nnx, h, maxval)
  {
    for k := 0 to nc
      invariant ScratchDone(scratch[..], at + k, buf, nx, nc, nnx, h, maxval)
    {
      var s := HorizontalCell(buf, nx, ny, nc, nnx, h, maxval, y, i, k, at + k);
      scratch[at + k] := s;
    }
  }

  /** Row `y` of the scratch buffer. */
  method HorizontalRow(scratch: array<int>, buf: seq<int>, nx: nat, ny: nat, nc: nat, nnx: nat, h: Weights, maxval: int,
                       y: nat, orow: nat)
    requires nc >= 1 && nnx >= 1 && |buf| == ny * (nx * nc) && SafeAxis(h, nx, nnx) && y < ny
    requires Samples(buf, maxval) && 0 <= maxval <= 65535
    requires orow == y * (nnx * nc) && 0 <= nnx * nc && orow + nnx * nc <= scratch.Length
    requires ScratchDone(scratch[..], orow, buf, nx, nc, nnx, h, maxval)
    modifies scratch
    ensures ScratchDone(scratch[..], orow + nnx * nc, buf, nx, nc, nnx, h, maxval)
  {
    for i := 0 to nnx
      invariant 0 <= i * nc && ScratchDone(scratch[..], orow + i * nc, buf, nx, nc, nnx, h, maxval)
    {
      MulMono(i + 1, nnx, nc);
      assert (i + 1) * nc == i * nc + nc;
      HorizontalPixel(scratch, buf, nx, ny, nc, nnx, h, maxval, y, i, orow + i * nc);
    }
  }

  method HorizontalPass(buf: seq<int>, nx: nat, ny: nat, nc: nat, nnx: nat, h: Weights, maxval: int)
    returns (tmp: seq<int>)
    requires nc >= 1 && nnx >= 1 && |buf| == ny * (nx * nc) && SafeAxis(h, nx, nnx)
    requires Samples(buf, maxval) && 0 <= maxval <= 65535
    ensures tmp == HPass(buf, nx, ny, nc, nnx, h, maxval)
  {
    Multiple(nnx, nc);
    Multiple(ny, nnx * nc);
    var scratch := new int[ny * (nnx * nc)];
    for y := 0 to ny
      invariant 0 <= y * (nnx * nc) && ScratchDone(scratch[..], y * (nnx * nc), buf, nx, nc, nnx, h, maxval)
    {
      MulMono(y + 1, ny, nnx * nc);
      assert (y + 1) * (nnx * nc) == y * (nnx * nc) + nnx * nc;
      HorizontalRow(scratch, buf, nx, ny, nc, nnx, h, maxval, y, y * (nnx * nc));
    }
    tmp := scratch[..];
  }

  // ---------------------------------------------------------------- vertical pass

  /** Every accumulator of the row starts at the rounding constant: lane blocks, then the tail. */
  method FillRow(acc: array<int>, lanes: nat)
    requires lanes >= 1
    modifies acc
    ensures forall f :: 0 <= f < acc.Length ==> acc[f] == ROUND
  {
    var f := 0;
    while f + lanes <= acc.Length
      invariant 0 <= f <= acc.Length
      invariant forall q :: 0 <= q < f ==> acc[q] == ROUND
    {
      forall l | 0 <= l < lanes { acc[f + l] := ROUND; }
      f := f + lanes;
    }
    while f < acc.Length
      invariant 0 <= f <= acc.Length
      invariant forall q :: 0 <= q < f ==> acc[q] == ROUND
    {
      acc[f] := ROUND;
      f := f + 1;
    }
  }

  ghost predicate Fits(a: int, w: int, s: int) {
    && -0x8000_0000 <= a < 0x8000_0000 && -0x8000_0000 <= w < 0x8000_0000 && -0x8000_0000 <= s < 0x8000_0000
    && -0x8000_0000 <= w * s < 0x8000_0000 && -0x8000_0000 <= a + w * s < 0x8000_0000
  }

  function MulAdd(a: int, w: int, s: int): int
    requires Fits(a, w, s)
  {
    ((a as Int32) + (w as Int32) * (s as Int32)) as int
  }

  /** acc += w * src over one row: each lane block is loaded, multiplied, added and stored at once. */
  method AddScaledRow(acc: array<int>, src: seq<int>, w: int, lanes: nat)
    requires lanes >= 1 && |src| == acc.Length
    requires forall f :: 0 <= f < acc.Length ==> Fits(acc[f], w, src[f])
    modifies acc
    ensures forall f :: 0 <= f < acc.Length ==> acc[f] == old(acc[f]) + w * src[f]
  {
    var f := 0;
    while f + lanes <= acc.Length
      invariant 0 <= f <= acc.Length
      invariant forall q :: 0 <= q < f ==> acc[q] == old(acc[q]) + w * src[q]
      invariant forall q :: f <= q < acc.Length ==> acc[q] == old(acc[q])
    {
      forall l | 0 <= l < lanes { acc[f + l] := MulAdd(acc[f + l], w, src[f + l]); }
      f := f + lanes;
    }
    while f < acc.Length
      invariant 0 <= f <= acc.Length
      invariant forall q :: 0 <= q < f ==> acc[q] == old(acc[q]) + w * src[q]
      invariant forall q :: f <= q < acc.Length ==> acc[q] == old(acc[q])
    {
      acc[f] := MulAdd(acc[f], w, src[f]);
      f := f + 1;
    }
  }

  /** The accumulators hold the rounding constant plus the first `m` taps. */
  ghost predicate Accumulated(acc: seq<int>, ids: seq<nat>, wts: seq<int>, m: nat, tmp: seq<int>, rowLen: nat)
    requires |ids| == |wts|
  {
    m <= |ids| && |acc| == rowLen
    && forall f :: 0 <= f < rowLen ==> acc[f] == ROUND + Dot(ids[..m], wts[..m], tmp, f, rowLen)
  }

  /** One tap added to a whole row, whatever the lane width. */
  method AddTap(acc: array<int>, ghost ids: seq<nat>, ghost wts: seq<int>, ghost m: nat, tmp: seq<int>, rowLen: nat,
                w: int, row: nat, lanes: nat, ghost maxval: int)
    requires lanes >= 1 && |ids| == |wts| && m < |ids| && w == wts[m] && row == ids[m] * rowLen
    requires row + rowLen <= |tmp| && SafeGroup(wts) && Samples(tmp, maxval) && 0 <= maxval <= 65535
    requires Accumulated(acc[..], ids, wts, m, tmp, rowLen)
    modifies acc
    ensures Accumulated(acc[..], ids, wts, m + 1, tmp, rowLen)
  {
    var src := tmp[row..row + rowLen];
    forall f | 0 <= f < rowLen
      ensures Fits(acc[f], w, src[f]) && src[f] == At(tmp, f + ids[m] * rowLen)
      ensures Dot(ids[..m + 1], wts[..m + 1], tmp, f, rowLen) == Dot(ids[..m], wts[..m], tmp, f, rowLen) + w * src[f]
    {
      AccumulatorInRange(ids, wts, tmp, f, rowLen, maxval, m);
      AccumulatorInRange(ids, wts, tmp, f, rowLen, maxval, m + 1);
    }
    AddScaledRow(acc, src, w, lanes);
  }

  /** Accumulates output row `j`. */
  method AccumulateRow(acc: array<int>, tmp: seq<int>, ny: nat, rowLen: nat, nny: nat, v: Weights, j: nat,
                       lanes: nat, ghost maxval: int)
    requires lanes >= 1 && acc.Length == rowLen && SafeAxis(v, ny, nny) && j < nny && |tmp| == ny * rowLen
    requires Samples(tmp, maxval) && 0 <= maxval <= 65535
    modifies acc
    ensures forall f :: 0 <= f < rowLen ==> acc[f] == ROUND + Dot(Ids(v, j), Wts(v, j), tmp, f, rowLen)
  {
    ghost var ids, wts := Ids(v, j), Wts(v, j);
    FillRow(acc, lanes);
    var t := v.offset[j];
    assert v.offset[j] <= v.offset[j + 1] <= v.offset[nny];
    while t < v.offset[j + 1]
      invariant v.offset[j] <= t <= v.offset[j + 1]
      invariant Accumulated(acc[..], ids, wts, t - v.offset[j], tmp, rowLen)
    {
      ghost var m := t - v.offset[j];
      assert ids[m] == v.idx[v.offset[j] + m] && wts[m] == v.wt[v.offset[j] + m];
      Multiple(v.idx[t], rowLen);
      MulMono(v.idx[t] + 1, ny, rowLen);
      assert (v.idx[t] + 1) * rowLen == v.idx[t] * rowLen + rowLen;
      AddTap(acc, ids, wts, m, tmp, rowLen, v.wt[t], v.idx[t] * rowLen, lanes, maxval);
      t := t + 1;
    }
    assert ids[..|ids|] == ids && wts[..|ids|] == wts;
    assert acc[..] == acc[..rowLen];
  }

  ghost predicate OutDone(out: seq<int>, n: nat, tmp: seq<int>, ny: nat, rowLen: nat, nny: nat, v: Weights, maxval: int)
    requires rowLen >= 1 && Csr(v, ny, nny) && n <= nny * rowLen
  {
    n <= |out| && forall q :: 0 <= q < n ==> out[q] == VSample(tmp, ny, rowLen, nny, v, maxval, q)
  }

  /** The round-shift-clamp loop that writes output row `j` from position `orow` on. */
  method NarrowRow(out: array<int>, acc: array<int>, tmp: seq<int>, ny: nat, rowLen: nat, nny: nat, v: Weights,
                   maxval: int, ghost j: nat, orow: nat)
    requires out != acc && acc.Length == rowLen >= 1 && Csr(v, ny, nny) && j < nny
    requires orow == j * rowLen && orow + rowLen <= nny * rowLen <= out.Length
    requires forall f :: 0 <= f < rowLen ==> acc[f] == ROUND + Dot(Ids(v, j), Wts(v, j), tmp, f, rowLen)
    requires OutDone(out[..], orow, tmp, ny, rowLen, nny, v, maxval)
    modifies out
    ensures OutDone(out[..], orow + rowLen, tmp, ny, rowLen, nny, v, maxval)
  {
    for f := 0 to rowLen
      invariant OutDone(out[..], orow + f, tmp, ny, rowLen, nny, v, maxval)
    {
      DivModUnique(orow + f, j, rowLen, f);
      out[orow + f] := Clamp(acc[f] / ONE, 0, maxval);
    }
  }

  /** The vertical pass. The result does not mention `lanes`: every lane width gives the same samples. */
  method VerticalPass(tmp: seq<int>, ny: nat, rowLen: nat, nny: nat, v: Weights, maxval: int, lanes: nat)
    returns (res: seq<int>)
    requires lanes >= 1 && rowLen >= 1 && SafeAxis(v, ny, nny) && |tmp| == ny * rowLen
    requires Samples(tmp, maxval) && 0 <= maxval <= 65535
    ensures res == VPass(tmp, ny, rowLen, nny, v, maxval)
  {
    Multiple(nny, rowLen);
    var out := new int[nny * rowLen];
    var acc := new int[rowLen];
    for j := 0 to nny
      invariant 0 <= j * rowLen <= nny * rowLen && OutDone(out[..], j * rowLen, tmp, ny, rowLen, nny, v, maxval)
    {
      MulMono(j + 1, nny, rowLen);
      assert (j + 1) * rowLen == j * rowLen + rowLen;
      AccumulateRow(acc, tmp, ny, rowLen, nny, v, j, lanes, maxval);
      NarrowRow(out, acc, tmp, ny, rowLen, nny, v, maxval, j, j * rowLen);
    }
    res := out[..];
  }

  lemma HPassSamples(buf: seq<int>, nx: nat, ny: nat, nc: nat, nnx: nat, h: Weights, maxval: int)
    requires nc >= 1 && nnx >= 1 && Csr(h, nx, nnx) && 0 <= maxval
    ensures Samples(HPass(buf, nx, ny, nc, nnx, h, maxval), maxval)
  {
  }

  /** What a resample computes, as one function of the image and the weights. */
  ghost function Resampled(buf: seq<int>, nx: nat, ny: nat, nc: nat, nnx: nat, nny: nat, h: Weights, v: Weights,
                           maxval: int)
    : seq<int>
    requires nc >= 1 && nnx >= 1 && Csr(h, nx, nnx) && Csr(v, ny, nny)
  {
    ColumnInRange(0, nnx, nc);
    VPass(HPass(buf, nx, ny, nc, nnx, h, maxval), ny, nnx * nc, nny, v, maxval)
  }

  method ResampleSeparable(buf: seq<int>, nx: nat, ny: nat, nc: nat, nnx: nat, nny: nat, h: Weights, v: Weights,
                           maxval: int, lanes: nat) returns (out: seq<int>)
    requires nc >= 1 && nnx >= 1 && lanes >= 1 && |buf| == ny * (nx * nc)
    requires SafeAxis(h, nx, nnx) && SafeAxis(v, ny, nny)
    requires Samples(buf, maxval) && 0 <= maxval <= 65535
    ensures out == Resampled(buf, nx, ny, nc, nnx, nny, h, v, maxval)
  {
    ColumnInRange(0, nnx, nc);
    var tmp := HorizontalPass(buf, nx, ny, nc, nnx, h, maxval);
    HPassSamples(buf, nx, ny, nc, nnx, h, maxval);
    out := VerticalPass(tmp, ny, nnx * nc, nny, v, maxval, lanes);
  }
}
