/**
 Where things are in a scaled image (src/SipiImage.cpp, `scale`): corners and grid points stay, and what
 rises from left to right or from top to bottom still does.
 */
module ResamplePlaces {
  import opened Sums
  import opened Grid
  import opened AxisWeights
  import opened AxisOrder
  import opened Resampler
  import opened ResampleLaws
  import ResampleError

  // ---------------------------------------------------------------- one line of samples

  /** The samples from `base` on, `stride` apart, do not fall. */
  ghost predicate LineRises(buf: seq<int>, base: nat, stride: nat, n: nat) {
    forall s: nat, t: nat :: s <= t < n ==> Value(buf, base, stride, s) <= Value(buf, base, stride, t)
  }

  function Value(buf: seq<int>, base: nat, stride: nat, s: nat): int { At(buf, base + s * stride) }

  lemma DotOne(a: nat, x: int, buf: seq<int>, base: nat, stride: nat)
    ensures Dot([a], [x], buf, base, stride) == x * Value(buf, base, stride, a)
  {
    assert [a][..0] == [] && [x][..0] == [];
  }

  lemma DotTwo(a: nat, b: nat, x: int, y: int, buf: seq<int>, base: nat, stride: nat)
    ensures Dot([a, b], [x, y], buf, base, stride) == x * Value(buf, base, stride, a) + y * Value(buf, base, stride, b)
  {
    assert [a, b][..1] == [a] && [x, y][..1] == [x];
    DotOne(a, x, buf, base, stride);
  }

  /** One part in 2^14 of `x` and the rest of `y`, unshifted. */
  function Mix(p: int, x: int, y: int): int { ONE * x + p * (y - x) }

  lemma MixIs(p: int, x: int, y: int)
    ensures Mix(p, x, y) == (ONE - p) * x + p * y
    ensures p == 0 ==> Mix(p, x, y) == ONE * x
  {
    assert (ONE - p) * x == ONE * x - p * x && p * (y - x) == p * y - p * x;
  }

  /** Linear interpolation of the two samples. */
  lemma DotPair(ids: seq<nat>, wts: seq<int>, s0: nat, p: int, buf: seq<int>, base: nat, stride: nat)
    requires PairTaps(ids, wts, s0, p)
    ensures |ids| == |wts|
    ensures Dot(ids, wts, buf, base, stride)
         == Mix(p, Value(buf, base, stride, s0), Value(buf, base, stride, s0 + 1))
  {
    var x, y := Value(buf, base, stride, s0), Value(buf, base, stride, s0 + 1);
    MixIs(p, x, y);
    if ids == [s0] {
      assert Dot(ids, wts, buf, base, stride) == ONE * x by { DotOne(s0, ONE, buf, base, stride); }
    } else if ids == [s0, s0 + 1] {
      assert Dot(ids, wts, buf, base, stride) == (ONE - p) * x + p * y by {
        DotTwo(s0, s0 + 1, ONE - p, p, buf, base, stride);
      }
    } else {
      assert Dot(ids, wts, buf, base, stride) == ONE * x by { DotTwo(s0 - 1, s0, 0, ONE, buf, base, stride); }
    }
  }

  /** Between the two samples, and further right with more of the right one. */
  lemma MixBetween(p: int, q: int, lo: int, hi: int)
    requires 0 <= p <= q <= ONE && lo <= hi
    ensures ONE * lo <= Mix(p, lo, hi) <= Mix(q, lo, hi) <= ONE * hi
  {
    MulMono(0, p, hi - lo);
    MulMono(p, q, hi - lo);
    MulMono(q, ONE, hi - lo);
  }

  /** Two mixes of neighbours on a line that rises. */
  lemma MixesRise(s: nat, t: nat, src: nat, p: int, q: int, x: int, x': int, y: int, y': int)
    requires s <= t < src && 0 <= p <= ONE && 0 <= q <= ONE && (s + 1 < src || p == 0) && (t + 1 < src || q == 0)
    requires s == t ==> x == y && x' == y' && p <= q
    requires s < t ==> x' <= y
    requires (s + 1 < src ==> x <= x') && (t + 1 < src ==> y <= y')
    ensures Mix(p, x, x') <= Mix(q, y, y')
  {
    MixIs(p, x, x');
    MixIs(q, y, y');
    if s + 1 < src { MixBetween(p, if s == t then q else ONE, x, x'); }
    if t + 1 < src { MixBetween(0, q, y, y'); }
  }

  /** The right neighbour exists wherever it has a share. */
  lemma PairInside(ids: seq<nat>, wts: seq<int>, s0: nat, p: int, src: nat)
    requires PairTaps(ids, wts, s0, p) && forall t :: 0 <= t < |ids| ==> ids[t] < src
    ensures s0 < src && (s0 + 1 < src || p == 0)
  {
    PairWeights(ids, wts, s0, p);
  }

  lemma EnlargeRises(w: Weights, src: nat, dst: nat, i: nat, j: nat, buf: seq<int>, base: nat, stride: nat)
    requires 1 <= src < dst && i <= j < dst && BuiltFor(w, src, dst) && LineRises(buf, base, stride, src)
    ensures |Ids(w, i)| == |Wts(w, i)| && |Ids(w, j)| == |Wts(w, j)|
    ensures Dot(Ids(w, i), Wts(w, i), buf, base, stride) <= Dot(Ids(w, j), Wts(w, j), buf, base, stride)
  {
    EnlargePair(w, src, dst, i);
    EnlargePair(w, src, dst, j);
    AxisSafe(w, src, dst, i);
    AxisSafe(w, src, dst, j);
    OutputsOrdered(src, dst, i, j);
    OutputsOrdered(src, dst, j, j);
    PairsRise(Ids(w, i), Wts(w, i), LeftSample(src, dst, i), RightPart(src, dst, i),
              Ids(w, j), Wts(w, j), LeftSample(src, dst, j), RightPart(src, dst, j), src, buf, base, stride);
  }

  lemma PairsRise(a: seq<nat>, wa: seq<int>, s: nat, p: int, b: seq<nat>, wb: seq<int>, t: nat, q: int, src: nat,
                  buf: seq<int>, base: nat, stride: nat)
    requires PairTaps(a, wa, s, p) && PairTaps(b, wb, t, q) && 0 <= p <= ONE && 0 <= q <= ONE
    requires (forall x :: 0 <= x < |a| ==> a[x] < src) && (forall x :: 0 <= x < |b| ==> b[x] < src)
    requires s <= t && (s == t ==> p <= q) && LineRises(buf, base, stride, src)
    ensures |a| == |wa| && |b| == |wb| && Dot(a, wa, buf, base, stride) <= Dot(b, wb, buf, base, stride)
  {
    DotPair(a, wa, s, p, buf, base, stride);
    DotPair(b, wb, t, q, buf, base, stride);
    PairInside(a, wa, s, p, src);
    PairInside(b, wb, t, q, src);
    Neighbours(s, t, src, buf, base, stride);
    MixesRise(s, t, src, p, q, Value(buf, base, stride, s), Value(buf, base, stride, s + 1),
              Value(buf, base, stride, t), Value(buf, base, stride, t + 1));
  }

  lemma Neighbours(s: nat, t: nat, src: nat, buf: seq<int>, base: nat, stride: nat)
    requires s <= t < src && LineRises(buf, base, stride, src)
    ensures s < t ==> Value(buf, base, stride, s + 1) <= Value(buf, base, stride, t)
    ensures s + 1 < src ==> Value(buf, base, stride, s) <= Value(buf, base, stride, s + 1)
    ensures t + 1 < src ==> Value(buf, base, stride, t) <= Value(buf, base, stride, t + 1)
  {
  }

  /** Averages of one box and of a later one. */
  lemma BoxesRise(a: seq<nat>, wa: seq<int>, b: seq<nat>, wb: seq<int>, src: nat, buf: seq<int>, base: nat, stride: nat)
    requires |a| == |wa| >= 1 && |b| == |wb| >= 1 && Sum(wa) == ONE && Sum(wb) == ONE
    requires NonNegative(wa) && NonNegative(wb)
    requires (forall t :: 0 <= t < |a| ==> a[t] < src) && (forall t :: 0 <= t < |b| ==> b[t] < src)
    requires forall t, u :: 0 <= t < |a| && 0 <= u < |b| ==> a[t] <= b[u]
    requires LineRises(buf, base, stride, src)
    ensures Dot(a, wa, buf, base, stride) <= Dot(b, wb, buf, base, stride)
  {
    var g := Greatest(a);
    LineBetween(a, buf, base, stride, src, 0, g);
    Averages(a, wa, buf, base, stride, Value(buf, base, stride, 0), Value(buf, base, stride, g));
    LineBetween(b, buf, base, stride, src, g, src - 1);
    Averages(b, wb, buf, base, stride, Value(buf, base, stride, g), Value(buf, base, stride, src - 1));
  }

  lemma LineBetween(ids: seq<nat>, buf: seq<int>, base: nat, stride: nat, src: nat, first: nat, last: nat)
    requires LineRises(buf, base, stride, src) && first <= last < src
    requires forall t :: 0 <= t < |ids| ==> first <= ids[t] <= last
    ensures ReadsBetween(ids, buf, base, stride, Value(buf, base, stride, first), Value(buf, base, stride, last))
    ensures Value(buf, base, stride, first) <= Value(buf, base, stride, last)
  {
    forall t | 0 <= t < |ids|
      ensures Value(buf, base, stride, first) <= At(buf, base + ids[t] * stride) <= Value(buf, base, stride, last)
    {
      assert Value(buf, base, stride, first) <= Value(buf, base, stride, ids[t]) <= Value(buf, base, stride, last);
    }
  }

  lemma Averages(ids: seq<nat>, wts: seq<int>, buf: seq<int>, base: nat, stride: nat, lo: int, hi: int)
    requires |ids| == |wts| && Sum(wts) == ONE && NonNegative(wts) && ReadsBetween(ids, buf, base, stride, lo, hi)
    requires lo <= hi
    ensures ONE * lo <= Dot(ids, wts, buf, base, stride) <= ONE * hi
  {
    PosSumOfNonNegative(wts);
    assert Negative(wts) == 0;
    DotBetween(ids, wts, buf, base, stride, lo, hi);
  }

  function Greatest(a: seq<nat>): (m: nat)
    requires |a| >= 1
    ensures m in a && forall t :: 0 <= t < |a| ==> a[t] <= m
  {
    if |a| == 1 then a[0]
    else
      var m := Greatest(a[..|a| - 1]);
      assert m in a[..|a| - 1] && a[..|a| - 1] + [a[|a| - 1]] == a;
      assert forall t :: 0 <= t < |a| - 1 ==> a[t] == a[..|a| - 1][t];
      if a[|a| - 1] > m then a[|a| - 1] else m
  }

  /** A line that rises is scaled to a line that rises, if the axis shrinks at most 181 times. */
  lemma AxisRises(w: Weights, src: nat, dst: nat, i: nat, j: nat, buf: seq<int>, base: nat, stride: nat)
    requires src >= 1 && i <= j < dst && BuiltFor(w, src, dst) && Gentle(src, dst) && LineRises(buf, base, stride, src)
    ensures |Ids(w, i)| == |Wts(w, i)| && |Ids(w, j)| == |Wts(w, j)|
    ensures Dot(Ids(w, i), Wts(w, i), buf, base, stride) <= Dot(Ids(w, j), Wts(w, j), buf, base, stride)
  {
    if i == j {
      AxisSafe(w, src, dst, i);
    } else if src < dst {
      EnlargeRises(w, src, dst, i, j, buf, base, stride);
    } else {
      ShrinkRises(w, src, dst, i, j, buf, base, stride);
    }
  }

  lemma ShrinkRises(w: Weights, src: nat, dst: nat, i: nat, j: nat, buf: seq<int>, base: nat, stride: nat)
    requires 1 <= dst <= src && i < j < dst && BuiltFor(w, src, dst) && Gentle(src, dst)
    requires LineRises(buf, base, stride, src)
    ensures |Ids(w, i)| == |Wts(w, i)| && |Ids(w, j)| == |Wts(w, j)|
    ensures Dot(Ids(w, i), Wts(w, i), buf, base, stride) <= Dot(Ids(w, j), Wts(w, j), buf, base, stride)
  {
    AxisSafe(w, src, dst, i);
    AxisSafe(w, src, dst, j);
    AxisNonNegative(w, src, dst, i);
    AxisNonNegative(w, src, dst, j);
    LaterReads(w, src, dst, i, j);
    BoxesRise(Ids(w, i), Wts(w, i), Ids(w, j), Wts(w, j), src, buf, base, stride);
  }

  lemma LaterReads(w: Weights, src: nat, dst: nat, i: nat, j: nat)
    requires 1 <= dst <= src && i < j < dst && BuiltFor(w, src, dst)
    ensures forall t, u :: 0 <= t < |Ids(w, i)| && 0 <= u < |Ids(w, j)| ==> Ids(w, i)[t] <= Ids(w, j)[u]
  {
    if dst < src {
      ShrinkOrdered(w, src, dst, i, j);
    } else {
      AxisSame(w, src, i);
      AxisSame(w, src, j);
    }
  }

  // ---------------------------------------------------------------- copied samples

  lemma {:induction false} DotCopies(ids: seq<nat>, wts: seq<int>, s: nat, buf: seq<int>, base: nat, stride: nat)
    requires |ids| == |wts| && (forall t, u :: 0 <= t < u < |ids| ==> ids[t] != ids[u])
    requires forall t :: 0 <= t < |ids| ==> wts[t] == if ids[t] == s then ONE else 0
    ensures Dot(ids, wts, buf, base, stride) == if s in ids then ONE * Value(buf, base, stride, s) else 0
  {
    if |ids| > 0 {
      var n := |ids| - 1;
      DotCopies(ids[..n], wts[..n], s, buf, base, stride);
      assert ids == ids[..n] + [ids[n]];
      assert forall t :: 0 <= t < n ==> ids[..n][t] == ids[t];
    }
  }

  lemma CopiedSample(ids: seq<nat>, wts: seq<int>, s: nat, buf: seq<int>, base: nat, stride: nat, maxval: int)
    requires Copies(ids, wts, s) && 0 <= Value(buf, base, stride, s) <= maxval
    ensures Narrow(ROUND + Dot(ids, wts, buf, base, stride), maxval) == Value(buf, base, stride, s)
  {
    DotCopies(ids, wts, s, buf, base, stride);
  }

  // ---------------------------------------------------------------- images

  /** Sample `k` of pixel (x, y). */
  function Sample(buf: seq<int>, nx: nat, nc: nat, x: nat, y: nat, k: nat): int { At(buf, y * (nx * nc) + x * nc + k) }

  lemma RowIsLine(buf: seq<int>, nx: nat, nc: nat, y: nat, k: nat)
    ensures 0 <= y * (nx * nc)
    ensures forall x: nat :: Value(buf, y * (nx * nc) + k, nc, x) == Sample(buf, nx, nc, x, y, k)
  {
    Multiple(nx, nc);
    Multiple(y, nx * nc);
  }

  lemma ColumnIsLine(buf: seq<int>, nx: nat, nc: nat, x: nat, k: nat)
    ensures 0 <= x * nc && 0 <= nx * nc
    ensures forall y: nat :: Value(buf, x * nc + k, nx * nc, y) == Sample(buf, nx, nc, x, y, k)
  {
    Multiple(nx, nc);
    Multiple(x, nc);
  }

  /** Sample `k` of scratch pixel (col, y). */
  lemma ScratchSample(buf: seq<int>, nx: nat, ny: nat, nc: nat, nnx: nat, h: Weights, maxval: int, col: nat, y: nat,
                      k: nat)
    requires nc >= 1 && col < nnx && k < nc && y < ny && Csr(h, nx, nnx)
    ensures 0 <= y * (nx * nc)
    ensures Sample(HPass(buf, nx, ny, nc, nnx, h, maxval), nnx, nc, col, y, k)
         == Narrow(ROUND + Dot(Ids(h, col), Wts(h, col), buf, y * (nx * nc) + k, nc), maxval)
  {
    var p := y * (nnx * nc) + col * nc + k;
    CellInRange(col, nnx, nc, k);
    Multiple(y, nnx * nc);
    ResampleError.ScratchAt(buf, nx, ny, nc, nnx, h, maxval, col, k, y, p);
  }

  /** Sample `k` of output pixel (col, row). */
  lemma OutputSample(tmp: seq<int>, ny: nat, nc: nat, nnx: nat, nny: nat, v: Weights, maxval: int, col: nat, row: nat,
                     k: nat)
    requires nc >= 1 && col < nnx && row < nny && k < nc && Csr(v, ny, nny)
    ensures nnx * nc >= 1 && 0 <= col * nc
    ensures Sample(VPass(tmp, ny, nnx * nc, nny, v, maxval), nnx, nc, col, row, k)
         == Narrow(ROUND + Dot(Ids(v, row), Wts(v, row), tmp, col * nc + k, nnx * nc), maxval)
  {
    CellInRange(col, nnx, nc, k);
    ResampleError.OutputAt(tmp, ny, nnx * nc, nny, v, maxval, row, col * nc + k, row * (nnx * nc) + (col * nc + k));
  }

  lemma SampleInRange(buf: seq<int>, nx: nat, nc: nat, x: nat, y: nat, k: nat, maxval: int)
    requires Samples(buf, maxval) && maxval >= 0
    ensures 0 <= Sample(buf, nx, nc, x, y, k) <= maxval
  {
  }

  /** A sample that both axes copy is kept. */
  lemma PointKept(buf: seq<int>, nx: nat, ny: nat, nc: nat, nnx: nat, nny: nat, h: Weights, v: Weights, maxval: int,
                  col: nat, row: nat, x: nat, y: nat, k: nat)
    requires nc >= 1 && col < nnx && row < nny && y < ny && k < nc && Csr(h, nx, nnx) && Csr(v, ny, nny)
    requires Samples(buf, maxval) && maxval >= 0
    requires Copies(Ids(h, col), Wts(h, col), x) && Copies(Ids(v, row), Wts(v, row), y)
    ensures Sample(Resampled(buf, nx, ny, nc, nnx, nny, h, v, maxval), nnx, nc, col, row, k)
         == Sample(buf, nx, nc, x, y, k)
  {
    ScratchKept(buf, nx, ny, nc, nnx, h, maxval, col, x, y, k);
    OutputKept(HPass(buf, nx, ny, nc, nnx, h, maxval), ny, nc, nnx, nny, v, maxval, col, row, y, k);
  }

  lemma ScratchKept(buf: seq<int>, nx: nat, ny: nat, nc: nat, nnx: nat, h: Weights, maxval: int, col: nat, x: nat,
                    y: nat, k: nat)
    requires nc >= 1 && col < nnx && y < ny && k < nc && Csr(h, nx, nnx) && Samples(buf, maxval) && maxval >= 0
    requires Copies(Ids(h, col), Wts(h, col), x)
    ensures Sample(HPass(buf, nx, ny, nc, nnx, h, maxval), nnx, nc, col, y, k) == Sample(buf, nx, nc, x, y, k)
    ensures 0 <= Sample(buf, nx, nc, x, y, k) <= maxval
  {
    SampleInRange(buf, nx, nc, x, y, k, maxval);
    RowIsLine(buf, nx, nc, y, k);
    ScratchSample(buf, nx, ny, nc, nnx, h, maxval, col, y, k);
    CopiedSample(Ids(h, col), Wts(h, col), x, buf, y * (nx * nc) + k, nc, maxval);
  }

  lemma OutputKept(tmp: seq<int>, ny: nat, nc: nat, nnx: nat, nny: nat, v: Weights, maxval: int, col: nat, row: nat,
                   y: nat, k: nat)
    requires nc >= 1 && col < nnx && row < nny && k < nc && Csr(v, ny, nny) && Copies(Ids(v, row), Wts(v, row), y)
    requires 0 <= Sample(tmp, nnx, nc, col, y, k) <= maxval
    ensures nnx * nc >= 1
    ensures Sample(VPass(tmp, ny, nnx * nc, nny, v, maxval), nnx, nc, col, row, k) == Sample(tmp, nnx, nc, col, y, k)
  {
    ColumnIsLine(tmp, nnx, nc, col, k);
    OutputSample(tmp, ny, nc, nnx, nny, v, maxval, col, row, k);
    CopiedSample(Ids(v, row), Wts(v, row), y, tmp, col * nc + k, nnx * nc, maxval);
  }

  /** Pixel (col, row) of the result is pixel (x, y) of the source. */
  ghost predicate SamePixel(res: seq<int>, nnx: nat, col: nat, row: nat, buf: seq<int>, nx: nat, x: nat, y: nat,
                            nc: nat)
  {
    forall k: nat :: k < nc ==> Sample(res, nnx, nc, col, row, k) == Sample(buf, nx, nc, x, y, k)
  }

  lemma PixelKept(buf: seq<int>, nx: nat, ny: nat, nc: nat, nnx: nat, nny: nat, h: Weights, v: Weights, maxval: int,
                  col: nat, row: nat, x: nat, y: nat)
    requires nc >= 1 && col < nnx && row < nny && y < ny && Csr(h, nx, nnx) && Csr(v, ny, nny)
    requires Samples(buf, maxval) && maxval >= 0
    requires Copies(Ids(h, col), Wts(h, col), x) && Copies(Ids(v, row), Wts(v, row), y)
    ensures SamePixel(Resampled(buf, nx, ny, nc, nnx, nny, h, v, maxval), nnx, col, row, buf, nx, x, y, nc)
  {
    forall k: nat | k < nc
      ensures Sample(Resampled(buf, nx, ny, nc, nnx, nny, h, v, maxval), nnx, nc, col, row, k)
           == Sample(buf, nx, nc, x, y, k)
    {
      PointKept(buf, nx, ny, nc, nnx, nny, h, v, maxval, col, row, x, y, k);
    }
  }

  /** The end of an axis: its first or its last sample. */
  function End(n: nat, last: bool): nat
    requires n >= 1
  {
    if last then n - 1 else 0
  }

  /** An image that shrinks on no axis keeps its four corner pixels in their corners. */
  lemma CornersKept(buf: seq<int>, nx: nat, ny: nat, nc: nat, nnx: nat, nny: nat, h: Weights, v: Weights, maxval: int,
                    right: bool, bottom: bool)
    requires nc >= 1 && 1 <= nx <= nnx && 1 <= ny <= nny && BuiltFor(h, nx, nnx) && BuiltFor(v, ny, nny)
    requires Samples(buf, maxval) && maxval >= 0
    ensures SamePixel(Resampled(buf, nx, ny, nc, nnx, nny, h, v, maxval), nnx, End(nnx, right), End(nny, bottom),
                      buf, nx, End(nx, right), End(ny, bottom), nc)
  {
    EndKept(h, nx, nnx, End(nnx, right), End(nx, right));
    EndKept(v, ny, nny, End(nny, bottom), End(ny, bottom));
    PixelKept(buf, nx, ny, nc, nnx, nny, h, v, maxval, End(nnx, right), End(nny, bottom), End(nx, right),
              End(ny, bottom));
  }

  /** With whole factors q and r between the samples of the axes, pixel (q x, r y) is the source's (x, y). */
  lemma GridPixelsKept(buf: seq<int>, nx: nat, ny: nat, nc: nat, nnx: nat, nny: nat, h: Weights, v: Weights,
                       maxval: int, q: nat, r: nat, x: nat, y: nat)
    requires nc >= 1 && 1 <= nx && 1 <= ny && BuiltFor(h, nx, nnx) && BuiltFor(v, ny, nny) && q >= 1 && r >= 1
    requires nnx - 1 == q * (nx - 1) && nny - 1 == r * (ny - 1) && x < nx && y < ny
    requires Samples(buf, maxval) && maxval >= 0
    ensures 0 <= q * x < nnx && 0 <= r * y < nny
    ensures SamePixel(Resampled(buf, nx, ny, nc, nnx, nny, h, v, maxval), nnx, q * x, r * y, buf, nx, x, y, nc)
  {
    GridKept(h, nx, nnx, q, x);
    GridKept(v, ny, nny, r, y);
    PixelKept(buf, nx, ny, nc, nnx, nny, h, v, maxval, q * x, r * y, x, y);
  }

  // ---------------------------------------------------------------- what rises

  /** From left to right no sample falls. */
  ghost predicate RowsRise(buf: seq<int>, nx: nat, ny: nat, nc: nat) {
    forall x: nat, x': nat, y: nat, k: nat :: x <= x' < nx && y < ny && k < nc ==>
      Sample(buf, nx, nc, x, y, k) <= Sample(buf, nx, nc, x', y, k)
  }

  /** From top to bottom no sample falls. */
  ghost predicate ColumnsRise(buf: seq<int>, nx: nat, ny: nat, nc: nat) {
    forall x: nat, y: nat, y': nat, k: nat :: x < nx && y <= y' < ny && k < nc ==>
      Sample(buf, nx, nc, x, y, k) <= Sample(buf, nx, nc, x, y', k)
  }

  /** One narrowed output sample. */
  function Narrowed(ids: seq<nat>, wts: seq<int>, buf: seq<int>, base: nat, stride: nat, maxval: int): int
    requires |ids| == |wts|
  {
    Narrow(ROUND + Dot(ids, wts, buf, base, stride), maxval)
  }

  lemma NarrowMonotone(a: int, b: int, maxval: int)
    requires a <= b && maxval >= 0
    ensures Narrow(ROUND + a, maxval) <= Narrow(ROUND + b, maxval)
  {
  }

  /** Outputs of a line that rises rise. */
  ghost predicate KeepsRising(w: Weights, src: nat, dst: nat, maxval: int)
    requires Csr(w, src, dst)
  {
    forall i: nat, j: nat, buf: seq<int>, base: nat, stride: nat ::
      i <= j < dst && LineRises(buf, base, stride, src) ==>
        Narrowed(Ids(w, i), Wts(w, i), buf, base, stride, maxval)
        <= Narrowed(Ids(w, j), Wts(w, j), buf, base, stride, maxval)
  }

  /** The line from `x` on is nowhere above the one from `y` on. */
  ghost predicate LineBelow(buf: seq<int>, x: nat, y: nat, stride: nat, n: nat) {
    forall s: nat :: s < n ==> Value(buf, x, stride, s) <= Value(buf, y, stride, s)
  }

  /** The same output of a lower line is lower. */
  ghost predicate KeepsBelow(w: Weights, src: nat, dst: nat, maxval: int)
    requires Csr(w, src, dst)
  {
    forall i: nat, buf: seq<int>, x: nat, y: nat, stride: nat :: i < dst && LineBelow(buf, x, y, stride, src) ==>
      Narrowed(Ids(w, i), Wts(w, i), buf, x, stride, maxval) <= Narrowed(Ids(w, i), Wts(w, i), buf, y, stride, maxval)
  }

  lemma GentleKeepsRising(w: Weights, src: nat, dst: nat, maxval: int)
    requires src >= 1 && BuiltFor(w, src, dst) && Gentle(src, dst) && maxval >= 0
    ensures KeepsRising(w, src, dst, maxval)
  {
    forall i: nat, j: nat, buf: seq<int>, base: nat, stride: nat | i <= j < dst && LineRises(buf, base, stride, src)
      ensures Narrowed(Ids(w, i), Wts(w, i), buf, base, stride, maxval)
           <= Narrowed(Ids(w, j), Wts(w, j), buf, base, stride, maxval)
    {
      OutputsRise(w, src, dst, maxval, i, j, buf, base, stride);
    }
  }

  lemma OutputsRise(w: Weights, src: nat, dst: nat, maxval: int, i: nat, j: nat, buf: seq<int>, base: nat, stride: nat)
    requires src >= 1 && BuiltFor(w, src, dst) && Gentle(src, dst) && maxval >= 0
    requires i <= j < dst && LineRises(buf, base, stride, src)
    ensures |Ids(w, i)| == |Wts(w, i)| && |Ids(w, j)| == |Wts(w, j)|
    ensures Narrowed(Ids(w, i), Wts(w, i), buf, base, stride, maxval)
         <= Narrowed(Ids(w, j), Wts(w, j), buf, base, stride, maxval)
  {
    AxisRises(w, src, dst, i, j, buf, base, stride);
    TapsRise(Ids(w, i), Wts(w, i), Ids(w, j), Wts(w, j), buf, base, stride, maxval);
  }

  lemma TapsRise(a: seq<nat>, wa: seq<int>, b: seq<nat>, wb: seq<int>, buf: seq<int>, base: nat, stride: nat,
                 maxval: int)
    requires |a| == |wa| && |b| == |wb| && maxval >= 0
    requires Dot(a, wa, buf, base, stride) <= Dot(b, wb, buf, base, stride)
    ensures Narrowed(a, wa, buf, base, stride, maxval) <= Narrowed(b, wb, buf, base, stride, maxval)
  {
    NarrowMonotone(Dot(a, wa, buf, base, stride), Dot(b, wb, buf, base, stride), maxval);
  }

  lemma GentleKeepsBelow(w: Weights, src: nat, dst: nat, maxval: int)
    requires src >= 1 && BuiltFor(w, src, dst) && Gentle(src, dst) && maxval >= 0
    ensures KeepsBelow(w, src, dst, maxval)
  {
    forall i: nat, buf: seq<int>, x: nat, y: nat, stride: nat | i < dst && LineBelow(buf, x, y, stride, src)
      ensures Narrowed(Ids(w, i), Wts(w, i), buf, x, stride, maxval)
           <= Narrowed(Ids(w, i), Wts(w, i), buf, y, stride, maxval)
    {
      AxisSafe(w, src, dst, i);
      AxisNonNegative(w, src, dst, i);
      TapsBelow(Ids(w, i), Wts(w, i), buf, x, y, stride, src, maxval);
    }
  }

  lemma TapsBelow(ids: seq<nat>, wts: seq<int>, buf: seq<int>, x: nat, y: nat, stride: nat, src: nat, maxval: int)
    requires |ids| == |wts| && NonNegative(wts) && (forall t :: 0 <= t < |ids| ==> ids[t] < src) && maxval >= 0
    requires LineBelow(buf, x, y, stride, src)
    ensures Narrowed(ids, wts, buf, x, stride, maxval) <= Narrowed(ids, wts, buf, y, stride, maxval)
  {
    forall t | 0 <= t < |ids|
      ensures At(buf, x + ids[t] * stride) <= At(buf, y + ids[t] * stride)
    {
      assert Value(buf, x, stride, ids[t]) <= Value(buf, y, stride, ids[t]);
    }
    DotMonotone(ids, wts, buf, x, buf, y, stride);
    NarrowMonotone(Dot(ids, wts, buf, x, stride), Dot(ids, wts, buf, y, stride), maxval);
  }

  lemma RowLineRises(buf: seq<int>, nx: nat, ny: nat, nc: nat, y: nat, k: nat)
    requires RowsRise(buf, nx, ny, nc) && y < ny && k < nc
    ensures 0 <= y * (nx * nc) && LineRises(buf, y * (nx * nc) + k, nc, nx)
  {
    RowIsLine(buf, nx, nc, y, k);
    var base := y * (nx * nc) + k;
    forall s: nat, t: nat | s <= t < nx
      ensures Value(buf, base, nc, s) <= Value(buf, base, nc, t)
    {
      assert Sample(buf, nx, nc, s, y, k) <= Sample(buf, nx, nc, t, y, k);
    }
  }

  lemma ColumnLineBelow(buf: seq<int>, nx: nat, ny: nat, nc: nat, x: nat, x': nat, k: nat)
    requires RowsRise(buf, nx, ny, nc) && x <= x' < nx && k < nc
    ensures 0 <= x * nc && 0 <= x' * nc && 0 <= nx * nc && LineBelow(buf, x * nc + k, x' * nc + k, nx * nc, ny)
  {
    ColumnIsLine(buf, nx, nc, x, k);
    ColumnIsLine(buf, nx, nc, x', k);
    var a, b, n := x * nc + k, x' * nc + k, nx * nc;
    forall s: nat | s < ny
      ensures Value(buf, a, n, s) <= Value(buf, b, n, s)
    {
      assert Sample(buf, nx, nc, x, s, k) <= Sample(buf, nx, nc, x', s, k);
    }
  }

  lemma ColumnLineRises(buf: seq<int>, nx: nat, ny: nat, nc: nat, x: nat, k: nat)
    requires ColumnsRise(buf, nx, ny, nc) && x < nx && k < nc
    ensures 0 <= x * nc && 0 <= nx * nc && LineRises(buf, x * nc + k, nx * nc, ny)
  {
    ColumnIsLine(buf, nx, nc, x, k);
    var base, n := x * nc + k, nx * nc;
    forall s: nat, t: nat | s <= t < ny
      ensures Value(buf, base, n, s) <= Value(buf, base, n, t)
    {
      assert Sample(buf, nx, nc, x, s, k) <= Sample(buf, nx, nc, x, t, k);
    }
  }

  lemma RowLineBelow(buf: seq<int>, nx: nat, ny: nat, nc: nat, y: nat, y': nat, k: nat)
    requires ColumnsRise(buf, nx, ny, nc) && y <= y' < ny && k < nc
    ensures 0 <= y * (nx * nc) && 0 <= y' * (nx * nc)
    ensures LineBelow(buf, y * (nx * nc) + k, y' * (nx * nc) + k, nc, nx)
  {
    RowIsLine(buf, nx, nc, y, k);
    RowIsLine(buf, nx, nc, y', k);
    var a, b := y * (nx * nc) + k, y' * (nx * nc) + k;
    forall s: nat | s < nx
      ensures Value(buf, a, nc, s) <= Value(buf, b, nc, s)
    {
      assert Sample(buf, nx, nc, s, y, k) <= Sample(buf, nx, nc, s, y', k);
    }
  }

  lemma ScratchRowsRise(buf: seq<int>, nx: nat, ny: nat, nc: nat, nnx: nat, h: Weights, maxval: int)
    requires nc >= 1 && nnx >= 1 && Csr(h, nx, nnx) && KeepsRising(h, nx, nnx, maxval) && RowsRise(buf, nx, ny, nc)
    ensures RowsRise(HPass(buf, nx, ny, nc, nnx, h, maxval), nnx, ny, nc)
  {
    var tmp := HPass(buf, nx, ny, nc, nnx, h, maxval);
    forall x: nat, x': nat, y: nat, k: nat | x <= x' < nnx && y < ny && k < nc
      ensures Sample(tmp, nnx, nc, x, y, k) <= Sample(tmp, nnx, nc, x', y, k)
    {
      ScratchRowRises(buf, nx, ny, nc, nnx, h, maxval, x, x', y, k);
    }
  }

  lemma ScratchRowRises(buf: seq<int>, nx: nat, ny: nat, nc: nat, nnx: nat, h: Weights, maxval: int, x: nat, x': nat,
                        y: nat, k: nat)
    requires nc >= 1 && Csr(h, nx, nnx) && KeepsRising(h, nx, nnx, maxval) && RowsRise(buf, nx, ny, nc)
    requires x <= x' < nnx && y < ny && k < nc
    ensures Sample(HPass(buf, nx, ny, nc, nnx, h, maxval), nnx, nc, x, y, k)
         <= Sample(HPass(buf, nx, ny, nc, nnx, h, maxval), nnx, nc, x', y, k)
  {
    RowLineRises(buf, nx, ny, nc, y, k);
    var base := y * (nx * nc) + k;
    ScratchNarrowed(buf, nx, ny, nc, nnx, h, maxval, x, y, k, base);
    ScratchNarrowed(buf, nx, ny, nc, nnx, h, maxval, x', y, k, base);
    assert Narrowed(Ids(h, x), Wts(h, x), buf, base, nc, maxval)
        <= Narrowed(Ids(h, x'), Wts(h, x'), buf, base, nc, maxval);
  }

  lemma ScratchNarrowed(buf: seq<int>, nx: nat, ny: nat, nc: nat, nnx: nat, h: Weights, maxval: int, col: nat, y: nat,
                        k: nat, base: nat)
    requires nc >= 1 && col < nnx && k < nc && y < ny && Csr(h, nx, nnx) && base == y * (nx * nc) + k
    ensures Sample(HPass(buf, nx, ny, nc, nnx, h, maxval), nnx, nc, col, y, k)
         == Narrowed(Ids(h, col), Wts(h, col), buf, base, nc, maxval)
  {
    ScratchSample(buf, nx, ny, nc, nnx, h, maxval, col, y, k);
  }

  lemma RisingPair(w: Weights, src: nat, dst: nat, maxval: int, i: nat, j: nat, buf: seq<int>, base: nat, stride: nat)
    requires Csr(w, src, dst) && KeepsRising(w, src, dst, maxval) && i <= j < dst && LineRises(buf, base, stride, src)
    ensures Narrow(ROUND + Dot(Ids(w, i), Wts(w, i), buf, base, stride), maxval)
         <= Narrow(ROUND + Dot(Ids(w, j), Wts(w, j), buf, base, stride), maxval)
  {
    assert Narrowed(Ids(w, i), Wts(w, i), buf, base, stride, maxval)
        <= Narrowed(Ids(w, j), Wts(w, j), buf, base, stride, maxval);
  }

  lemma BelowPair(w: Weights, src: nat, dst: nat, maxval: int, i: nat, buf: seq<int>, x: nat, y: nat, stride: nat)
    requires Csr(w, src, dst) && KeepsBelow(w, src, dst, maxval) && i < dst && LineBelow(buf, x, y, stride, src)
    ensures Narrow(ROUND + Dot(Ids(w, i), Wts(w, i), buf, x, stride), maxval)
         <= Narrow(ROUND + Dot(Ids(w, i), Wts(w, i), buf, y, stride), maxval)
  {
    assert Narrowed(Ids(w, i), Wts(w, i), buf, x, stride, maxval)
        <= Narrowed(Ids(w, i), Wts(w, i), buf, y, stride, maxval);
  }

  lemma OutputRowsRise(tmp: seq<int>, ny: nat, nc: nat, nnx: nat, nny: nat, v: Weights, maxval: int)
    requires nc >= 1 && nnx >= 1 && Csr(v, ny, nny) && KeepsBelow(v, ny, nny, maxval) && RowsRise(tmp, nnx, ny, nc)
    ensures nnx * nc >= 1 && RowsRise(VPass(tmp, ny, nnx * nc, nny, v, maxval), nnx, nny, nc)
  {
    ColumnInRange(0, nnx, nc);
    var out := VPass(tmp, ny, nnx * nc, nny, v, maxval);
    forall x: nat, x': nat, y: nat, k: nat | x <= x' < nnx && y < nny && k < nc
      ensures Sample(out, nnx, nc, x, y, k) <= Sample(out, nnx, nc, x', y, k)
    {
      OutputRowRises(tmp, ny, nc, nnx, nny, v, maxval, x, x', y, k);
    }
  }

  lemma OutputRowRises(tmp: seq<int>, ny: nat, nc: nat, nnx: nat, nny: nat, v: Weights, maxval: int, x: nat, x': nat,
                       y: nat, k: nat)
    requires nc >= 1 && Csr(v, ny, nny) && KeepsBelow(v, ny, nny, maxval) && RowsRise(tmp, nnx, ny, nc)
    requires x <= x' < nnx && y < nny && k < nc
    ensures nnx * nc >= 1
    ensures Sample(VPass(tmp, ny, nnx * nc, nny, v, maxval), nnx, nc, x, y, k)
         <= Sample(VPass(tmp, ny, nnx * nc, nny, v, maxval), nnx, nc, x', y, k)
  {
    ColumnLineBelow(tmp, nnx, ny, nc, x, x', k);
    BelowPair(v, ny, nny, maxval, y, tmp, x * nc + k, x' * nc + k, nnx * nc);
    OutputSample(tmp, ny, nc, nnx, nny, v, maxval, x, y, k);
    OutputSample(tmp, ny, nc, nnx, nny, v, maxval, x', y, k);
  }

  lemma ScratchColumnsRise(buf: seq<int>, nx: nat, ny: nat, nc: nat, nnx: nat, h: Weights, maxval: int)
    requires nc >= 1 && nnx >= 1 && Csr(h, nx, nnx) && KeepsBelow(h, nx, nnx, maxval) && ColumnsRise(buf, nx, ny, nc)
    ensures ColumnsRise(HPass(buf, nx, ny, nc, nnx, h, maxval), nnx, ny, nc)
  {
    var tmp := HPass(buf, nx, ny, nc, nnx, h, maxval);
    forall x: nat, y: nat, y': nat, k: nat | x < nnx && y <= y' < ny && k < nc
      ensures Sample(tmp, nnx, nc, x, y, k) <= Sample(tmp, nnx, nc, x, y', k)
    {
      RowLineBelow(buf, nx, ny, nc, y, y', k);
      BelowPair(h, nx, nnx, maxval, x, buf, y * (nx * nc) + k, y' * (nx * nc) + k, nc);
      ScratchSample(buf, nx, ny, nc, nnx, h, maxval, x, y, k);
      ScratchSample(buf, nx, ny, nc, nnx, h, maxval, x, y', k);
    }
  }

  lemma OutputColumnsRise(tmp: seq<int>, ny: nat, nc: nat, nnx: nat, nny: nat, v: Weights, maxval: int)
    requires nc >= 1 && nnx >= 1 && Csr(v, ny, nny) && KeepsRising(v, ny, nny, maxval) && ColumnsRise(tmp, nnx, ny, nc)
    ensures nnx * nc >= 1 && ColumnsRise(VPass(tmp, ny, nnx * nc, nny, v, maxval), nnx, nny, nc)
  {
    ColumnInRange(0, nnx, nc);
    var out := VPass(tmp, ny, nnx * nc, nny, v, maxval);
    forall x: nat, y: nat, y': nat, k: nat | x < nnx && y <= y' < nny && k < nc
      ensures Sample(out, nnx, nc, x, y, k) <= Sample(out, nnx, nc, x, y', k)
    {
      OutputColumnRises(tmp, ny, nc, nnx, nny, v, maxval, x, y, y', k);
    }
  }

  lemma OutputColumnRises(tmp: seq<int>, ny: nat, nc: nat, nnx: nat, nny: nat, v: Weights, maxval: int, x: nat, y: nat,
                          y': nat, k: nat)
    requires nc >= 1 && Csr(v, ny, nny) && KeepsRising(v, ny, nny, maxval) && ColumnsRise(tmp, nnx, ny, nc)
    requires x < nnx && y <= y' < nny && k < nc
    ensures nnx * nc >= 1
    ensures Sample(VPass(tmp, ny, nnx * nc, nny, v, maxval), nnx, nc, x, y, k)
         <= Sample(VPass(tmp, ny, nnx * nc, nny, v, maxval), nnx, nc, x, y', k)
  {
    OutputSample(tmp, ny, nc, nnx, nny, v, maxval, x, y, k);
    OutputSample(tmp, ny, nc, nnx, nny, v, maxval, x, y', k);
    var base, n := x * nc + k, nnx * nc;
    assert Narrow(ROUND + Dot(Ids(v, y), Wts(v, y), tmp, base, n), maxval)
        <= Narrow(ROUND + Dot(Ids(v, y'), Wts(v, y'), tmp, base, n), maxval) by {
      ColumnLineRises(tmp, nnx, ny, nc, x, k);
      RisingPair(v, ny, nny, maxval, y, y', tmp, base, n);
    }
  }

  /**
   Rows that rise from left to right, and columns that rise from top to bottom, still do when neither axis
   shrinks more than 181 times.
   */
  lemma StillRises(buf: seq<int>, nx: nat, ny: nat, nc: nat, nnx: nat, nny: nat, h: Weights, v: Weights, maxval: int)
    requires nc >= 1 && nx >= 1 && ny >= 1 && nnx >= 1 && BuiltFor(h, nx, nnx) && BuiltFor(v, ny, nny)
    requires Gentle(nx, nnx) && Gentle(ny, nny) && maxval >= 0
    ensures RowsRise(buf, nx, ny, nc) ==>
      RowsRise(Resampled(buf, nx, ny, nc, nnx, nny, h, v, maxval), nnx, nny, nc)
    ensures ColumnsRise(buf, nx, ny, nc) ==>
      ColumnsRise(Resampled(buf, nx, ny, nc, nnx, nny, h, v, maxval), nnx, nny, nc)
  {
    GentleKeepsRising(h, nx, nnx, maxval);
    GentleKeepsBelow(h, nx, nnx, maxval);
    GentleKeepsRising(v, ny, nny, maxval);
    GentleKeepsBelow(v, ny, nny, maxval);
    var tmp := HPass(buf, nx, ny, nc, nnx, h, maxval);
    if RowsRise(buf, nx, ny, nc) {
      ScratchRowsRise(buf, nx, ny, nc, nnx, h, maxval);
      OutputRowsRise(tmp, ny, nc, nnx, nny, v, maxval);
    }
    if ColumnsRise(buf, nx, ny, nc) {
      ScratchColumnsRise(buf, nx, ny, nc, nnx, h, maxval);
      OutputColumnsRise(tmp, ny, nc, nnx, nny, v, maxval);
    }
  }
}
