/**
 Error diffusion to black and white (src/SipiImage.cpp, `toBitonal`). The code pushes each
 pixel's error forward in place; the reference here pulls: the value of a pixel is its input
 plus the shares of its four earlier neighbours.
 */
module Dither {
  import opened Grid
  import opened Sums

  newtype Int16 = x: int | -0x8000 <= x < 0x8000

  // ---------------------------------------------------------------- one pixel

  function Out(v: int): int { if v > 127 then 255 else 0 }

  /** It is the nearer of black and white; no value is half way. */
  lemma OutNearest(v: int)
    ensures Out(v) == 0 || Out(v) == 255
    ensures Distance(v, Out(v)) < Distance(v, 255 - Out(v))
  {
  }

  function Distance(a: int, b: int): nat { if a < b then b - a else a - b }

  function Err(v: int): int { v - Out(v) }

  /** `(k * e) >> 4`, which rounds towards minus infinity. */
  function Share(k: int, e: int): int { (k * e) / 16 }

  /** The column of buffer position `i`. */
  function Column(nx: nat, i: nat): (c: nat)
    requires nx >= 1
    ensures c < nx
  {
    if i < nx then i else Column(nx, i - nx)
  }

  predicate First(nx: nat, i: nat) requires nx >= 1 { Column(nx, i) == 0 }

  predicate Last(nx: nat, i: nat) requires nx >= 1 { Column(nx, i) == nx - 1 }

  /** `n` pixels are whole rows. */
  predicate WholeRows(nx: nat, n: nat) requires nx >= 1 { Column(nx, n) == 0 }

  // ---------------------------------------------------------------- the reference

  /** The error shares that pixel `j` gets from those of its four earlier neighbours whose values are in `v`. */
  function Pulled(v: seq<int>, nx: nat, j: nat): int
    requires nx >= 1
  {
    (if 1 <= j <= |v| && !First(nx, j) then Share(7, Err(v[j - 1])) else 0)
    + (if nx <= j && j - nx + 1 < |v| && !Last(nx, j) then Share(3, Err(v[j - nx + 1])) else 0)
    + (if nx <= j && j - nx < |v| then Share(5, Err(v[j - nx])) else 0)
    + (if nx + 1 <= j && j - nx - 1 < |v| && !First(nx, j) then Share(1, Err(v[j - nx - 1])) else 0)
  }

  /** `v` holds the values of the first pixels of `p` at their turn: input plus the shares of the neighbours. */
  ghost predicate Diffused(p: seq<int>, nx: nat, v: seq<int>)
    requires nx >= 1
  {
    |v| <= |p| && forall i {:trigger Pulled(v, nx, i)} :: 0 <= i < |v| ==> v[i] == p[i] + Pulled(v, nx, i)
  }

  /** `out` is `p` in black and white by error diffusion. */
  ghost predicate Dithered(p: seq<int>, nx: nat, v: seq<int>, out: seq<int>)
    requires nx >= 1
  {
    && Diffused(p, nx, v) && |v| == |p| == |out|
    && forall i :: 0 <= i < |p| ==> out[i] == Out(v[i])
  }

  ghost predicate Bytes(p: seq<int>) { forall i :: 0 <= i < |p| ==> 0 <= p[i] <= 255 }

  lemma PulledPrefix(v: seq<int>, nx: nat, i: nat)
    requires nx >= 1 && i <= |v|
    ensures Pulled(v, nx, i) == Pulled(v[..i], nx, i)
  {
    if nx == 1 {
      assert Last(nx, i);
    }
  }

  /** The equations have one solution. */
  lemma {:induction false} DiffusedUnique(p: seq<int>, nx: nat, u: seq<int>, v: seq<int>, i: nat)
    requires nx >= 1 && Diffused(p, nx, u) && Diffused(p, nx, v) && i <= |u| && i <= |v|
    ensures u[..i] == v[..i]
  {
    if i > 0 {
      DiffusedUnique(p, nx, u, v, i - 1);
      DiffusedNext(p, nx, u, i - 1);
      DiffusedNext(p, nx, v, i - 1);
    }
  }

  /**
   An error of 16 in the middle of a row of three: 7 to the right, then 3, 5 and 1 to the row below, with what
   the later pixels pass on.
   */
  lemma ErrorOfSixteen(p: seq<int>, v: seq<int>)
    requires p == [0, 16, 0, 0, 0, 0] && Diffused(p, 3, v) && |v| == 6
    ensures v == [0, 16, 7, 3, 7, 6]
  {
    FirstRowOfThree(p, v);
    assert v[3] == 3 by {
      assert Column(3, 3) == 0;
      assert v[3] == p[3] + Pulled(v, 3, 3);
    }
    assert v[4] == 7 by {
      assert Column(3, 4) == 1;
      assert v[4] == p[4] + Pulled(v, 3, 4);
    }
    assert v[5] == 6 by {
      assert Column(3, 5) == 2;
      assert v[5] == p[5] + Pulled(v, 3, 5);
    }
  }

  lemma FirstRowOfThree(p: seq<int>, v: seq<int>)
    requires p == [0, 16, 0, 0, 0, 0] && Diffused(p, 3, v) && |v| == 6
    ensures v[0] == 0 && v[1] == 16 && v[2] == 7
  {
    assert v[0] == p[0] + Pulled(v, 3, 0) && v[1] == p[1] + Pulled(v, 3, 1) && v[2] == p[2] + Pulled(v, 3, 2);
  }

  /** The earlier values determine the next one. */
  lemma DiffusedNext(p: seq<int>, nx: nat, v: seq<int>, i: nat)
    requires nx >= 1 && Diffused(p, nx, v) && i < |v|
    ensures v[..i + 1] == v[..i] + [p[i] + Pulled(v[..i], nx, i)]
  {
    PulledPrefix(v, nx, i);
  }

  lemma ShareRange(k: int, e: int)
    requires k in {1, 3, 5, 7} && -128 <= e <= 127
    ensures -8 * k <= Share(k, e) <= 8 * k - 1
  {
  }

  ghost predicate Calm(v: seq<int>) { forall i :: 0 <= i < |v| ==> -128 <= v[i] <= 379 }

  lemma PulledRange(v: seq<int>, nx: nat, j: nat)
    requires nx >= 1 && Calm(v)
    ensures -128 <= Pulled(v, nx, j) <= 124
  {
    if 1 <= j <= |v| { ShareRange(7, Err(v[j - 1])); }
    if nx <= j && j - nx + 1 < |v| { ShareRange(3, Err(v[j - nx + 1])); }
    if nx <= j && j - nx < |v| { ShareRange(5, Err(v[j - nx])); }
    if nx + 1 <= j && j - nx - 1 < |v| { ShareRange(1, Err(v[j - nx - 1])); }
  }

  /** No value leaves [-128, 379], so no error leaves [-128, 127]. */
  lemma {:induction false} DiffusedCalm(p: seq<int>, nx: nat, v: seq<int>, i: nat)
    requires nx >= 1 && Bytes(p) && Diffused(p, nx, v) && i <= |v|
    ensures Calm(v[..i])
  {
    if i > 0 {
      DiffusedCalm(p, nx, v, i - 1);
      NextCalm(p, nx, v, i - 1);
    }
  }

  lemma NextCalm(p: seq<int>, nx: nat, v: seq<int>, i: nat)
    requires nx >= 1 && Bytes(p) && Diffused(p, nx, v) && i < |v| && Calm(v[..i])
    ensures Calm(v[..i + 1])
  {
    DiffusedNext(p, nx, v, i);
    PulledRange(v[..i], nx, i);
  }

  // ---------------------------------------------------------------- pushing

  /** Adds `d` to element `k` if `c` says so and there is one. */
  function Bump(c: bool, w: seq<int>, k: nat, d: int): (r: seq<int>)
    ensures |r| == |w|
  {
    if c && k < |w| then w[k := w[k] + d] else w
  }

  /** Adds a share to each of the four later neighbours of pixel `i` that exist. */
  function Deliver(w: seq<int>, nx: nat, i: nat, right: bool, left: bool, down: bool, d7: int, d3: int, d5: int,
                   d1: int): (r: seq<int>)
    requires nx >= 1
    ensures |r| == |w|
  {
    var w1 := Bump(right, w, i + 1, d7);
    var w2 := Bump(left && down, w1, i + nx - 1, d3);
    var w3 := Bump(down, w2, i + nx, d5);
    Bump(right && down, w3, i + nx + 1, d1)
  }

  /** The buffer after pixel `i` has been decided and has pushed its error to the neighbours there are. */
  function Spread(w: seq<int>, nx: nat, i: nat, right: bool, left: bool, down: bool): (r: seq<int>)
    requires nx >= 1 && i < |w|
    ensures |r| == |w|
  {
    var e := Err(w[i]);
    Deliver(w[i := Out(w[i])], nx, i, right, left, down, Share(7, e), Share(3, e), Share(5, e), Share(1, e))
  }

  function Diffuse(w: seq<int>, nx: nat, i: nat): (r: seq<int>)
    requires nx >= 1 && i < |w|
    ensures |r| == |w|
  {
    Spread(w, nx, i, !Last(nx, i), !First(nx, i), i + nx < |w|)
  }

  /** Half way: pixels with a value in `v` are decided, the others hold what they have received so far. */
  ghost predicate Half(p: seq<int>, nx: nat, v: seq<int>, w: seq<int>)
    requires nx >= 1
  {
    && Diffused(p, nx, v) && |w| == |p|
    && (forall j :: 0 <= j < |v| ==> w[j] == Out(v[j]))
    && forall j :: |v| <= j < |p| ==> w[j] == p[j] + Pulled(v, nx, j)
  }

  /** What pixel `i` pushes to pixel `j`, by its own column. */
  function Pushed(nx: nat, n: nat, i: nat, j: nat, e: int): int
    requires nx >= 1
  {
    (if j == i + 1 && !Last(nx, i) then Share(7, e) else 0)
    + (if j == i + nx - 1 && !First(nx, i) && i + nx < n then Share(3, e) else 0)
    + (if j == i + nx then Share(5, e) else 0)
    + (if j == i + nx + 1 && !Last(nx, i) then Share(1, e) else 0)
  }

  lemma DiffuseAt(w: seq<int>, nx: nat, i: nat, j: nat)
    requires nx >= 1 && i < j < |w|
    ensures Diffuse(w, nx, i)[j] == w[j] + Pushed(nx, |w|, i, j, Err(w[i]))
  {
  }

  lemma {:induction false} NextColumn(nx: nat, i: nat)
    requires nx >= 1
    ensures Column(nx, i + 1) == if Last(nx, i) then 0 else Column(nx, i) + 1
    decreases i
  {
    if i >= nx {
      NextColumn(nx, i - nx);
    }
  }

  /** Columns of the pixels that pixel `i` pushes to. */
  lemma Columns(nx: nat, i: nat)
    requires nx >= 1
    ensures First(nx, i + 1) <==> Last(nx, i)
    ensures Last(nx, i + nx - 1) <==> First(nx, i)
    ensures First(nx, i + nx + 1) <==> Last(nx, i)
    ensures Column(nx, i + nx) == Column(nx, i)
  {
    NextColumn(nx, i);
    NextColumn(nx, i + nx);
    NextColumn(nx, i + nx - 1);
  }

  /** One more known value adds to pixel `j` exactly what that pixel pushes to it. */
  lemma PulledStep(v: seq<int>, nx: nat, n: nat, x: int, j: nat)
    requires nx >= 1 && |v| < j < n && WholeRows(nx, n)
    ensures Pulled(v + [x], nx, j) == Pulled(v, nx, j) + Pushed(nx, n, |v|, j, Err(x))
  {
    PulledStepBy(v, nx, x, j);
    PushedByTarget(nx, n, |v|, j, Err(x));
  }

  /** The guards by the column of the pushing pixel and by that of the receiving pixel agree. */
  lemma PushedByTarget(nx: nat, n: nat, i: nat, j: nat, e: int)
    requires nx >= 1 && i < j < n && WholeRows(nx, n)
    ensures Pushed(nx, n, i, j, e) ==
              (if j == i + 1 && !First(nx, j) then Share(7, e) else 0)
              + (if j == i + nx - 1 && nx <= j && !Last(nx, j) then Share(3, e) else 0)
              + (if j == i + nx then Share(5, e) else 0)
              + (if j == i + nx + 1 && !First(nx, j) then Share(1, e) else 0)
  {
    Columns(nx, i);
    NoWrap(nx, n, i);
  }

  lemma PulledStepBy(v: seq<int>, nx: nat, x: int, j: nat)
    requires nx >= 1 && |v| < j
    ensures Pulled(v + [x], nx, j) == Pulled(v, nx, j)
              + (if j == |v| + 1 && !First(nx, j) then Share(7, Err(x)) else 0)
              + (if j == |v| + nx - 1 && nx <= j && !Last(nx, j) then Share(3, Err(x)) else 0)
              + (if j == |v| + nx then Share(5, Err(x)) else 0)
              + (if j == |v| + nx + 1 && !First(nx, j) then Share(1, Err(x)) else 0)
  {
  }

  lemma Untouched(w: seq<int>, nx: nat, i: nat, j: nat)
    requires nx >= 1 && j <= i < |w|
    ensures Diffuse(w, nx, i)[j] == if j < i then w[j] else Out(w[j])
  {
  }

  /** Pushing one pixel's error keeps the buffer on the way to the reference. */
  lemma DiffuseStep(p: seq<int>, nx: nat, v: seq<int>, w: seq<int>)
    requires nx >= 1 && WholeRows(nx, |p|) && |v| < |p| && Half(p, nx, v, w)
    ensures Half(p, nx, v + [w[|v|]], Diffuse(w, nx, |v|))
  {
    var u := v + [w[|v|]];
    forall j | 0 <= j < |u|
      ensures u[j] == p[j] + Pulled(u, nx, j) && Diffuse(w, nx, |v|)[j] == Out(u[j])
    {
      PulledPrefix(u, nx, j);
      PulledPrefix(v, nx, j);
      assert u[..j] == v[..j];
      Untouched(w, nx, |v|, j);
    }
    forall j | |u| <= j < |p|
      ensures Diffuse(w, nx, |v|)[j] == p[j] + Pulled(u, nx, j)
    {
      DiffuseAt(w, nx, |v|, j);
      PulledStep(v, nx, |p|, w[|v|], j);
    }
  }

  /** Only the first pixel of the last row has its lower-left neighbour at the end of the buffer. */
  lemma NoWrap(nx: nat, n: nat, i: nat)
    requires nx >= 1 && i < n && WholeRows(nx, n)
    ensures i + nx == n ==> First(nx, i)
  {
    if i + nx == n {
      Columns(nx, i);
    }
  }

  // ---------------------------------------------------------------- conservation

  /** The part of the error of pixel `i` that no neighbour receives: cut off at the border or by rounding. */
  function Lost(nx: nat, n: nat, i: nat, e: int): int
    requires nx >= 1
  {
    e - (if !Last(nx, i) then Share(7, e) else 0)
      - (if !First(nx, i) && i + nx < n then Share(3, e) else 0)
      - (if i + nx < n then Share(5, e) else 0)
      - (if !Last(nx, i) && i + nx < n then Share(1, e) else 0)
  }

  function LostSum(nx: nat, n: nat, v: seq<int>): int
    requires nx >= 1
  {
    if |v| == 0 then 0 else LostSum(nx, n, v[..|v| - 1]) + Lost(nx, n, |v| - 1, Err(v[|v| - 1]))
  }

  /** `f` moves by as much as an element does. */
  ghost predicate Additive(f: seq<int> -> int) {
    forall c: bool, w: seq<int>, k: nat, d: int :: (c ==> k < |w|) ==> f(Bump(c, w, k, d)) == f(w) + if c then d else 0
  }

  lemma SumAdditive()
    ensures Additive(Sum)
  {
    forall c: bool, w: seq<int>, k: nat, d: int | c ==> k < |w|
      ensures Sum(Bump(c, w, k, d)) == Sum(w) + if c then d else 0
    {
      SumBump(c, w, k, d);
    }
  }

  lemma {:induction false} SumBump(c: bool, w: seq<int>, k: nat, d: int)
    requires c ==> k < |w|
    ensures Sum(Bump(c, w, k, d)) == Sum(w) + if c then d else 0
  {
    if c {
      var x := w[k] + d;
      assert Bump(c, w, k, d) == w[k := x];
      SumUpdate(w, k, x);
    }
  }

  /** A pixel that is not the last of its row has a right neighbour, in its row and in the next. */
  lemma RightInside(nx: nat, n: nat, i: nat)
    requires nx >= 1 && i < n && WholeRows(nx, n) && !Last(nx, i)
    ensures i + 1 < n && (i + nx < n ==> i + nx + 1 < n)
  {
    Columns(nx, i);
  }

  lemma TotalDeliver(f: seq<int> -> int, w: seq<int>, nx: nat, i: nat, right: bool, left: bool, down: bool,
                     d7: int, d3: int, d5: int, d1: int)
    requires nx >= 1 && Additive(f)
    requires (right ==> i + 1 < |w|) && (down ==> i + nx < |w|) && (right && down ==> i + nx + 1 < |w|)
    ensures f(Deliver(w, nx, i, right, left, down, d7, d3, d5, d1)) == f(w) + (if right then d7 else 0)
              + (if left && down then d3 else 0) + (if down then d5 else 0) + (if right && down then d1 else 0)
  {
  }

  lemma TotalDiffuse(f: seq<int> -> int, w: seq<int>, nx: nat, i: nat)
    requires nx >= 1 && i < |w| && WholeRows(nx, |w|) && Additive(f)
    ensures f(Diffuse(w, nx, i)) == f(w) - Lost(nx, |w|, i, Err(w[i]))
  {
    if !Last(nx, i) { RightInside(nx, |w|, i); }
    var e := Err(w[i]);
    assert w[i := Out(w[i])] == Bump(true, w, i, -e);
    TotalDeliver(f, w[i := Out(w[i])], nx, i, !Last(nx, i), !First(nx, i), i + nx < |w|,
                 Share(7, e), Share(3, e), Share(5, e), Share(1, e));
  }

  lemma {:induction false} SumDiffuse(w: seq<int>, nx: nat, i: nat)
    requires nx >= 1 && i < |w| && WholeRows(nx, |w|)
    ensures Sum(Diffuse(w, nx, i)) == Sum(w) - Lost(nx, |w|, i, Err(w[i]))
  {
    SumAdditive();
    TotalDiffuse(Sum, w, nx, i);
  }

  lemma HalfStart(p: seq<int>, nx: nat)
    requires nx >= 1
    ensures Half(p, nx, [], p)
  {
  }

  lemma {:induction false} PartialStep(p: seq<int>, nx: nat, v: seq<int>, i: nat, w: seq<int>)
    requires nx >= 1 && WholeRows(nx, |p|) && Diffused(p, nx, v) && i < |v| && Half(p, nx, v[..i], w)
    ensures v[..i + 1] == v[..i] + [w[i]]
    ensures Half(p, nx, v[..i + 1], Diffuse(w, nx, i))
    ensures LostSum(nx, |p|, v[..i + 1]) == LostSum(nx, |p|, v[..i]) + Lost(nx, |p|, i, Err(w[i]))
  {
    PulledPrefix(v, nx, i);
    assert v[..i + 1] == v[..i] + [w[i]];
    DiffuseStep(p, nx, v[..i], w);
    assert v[..i + 1][..i] == v[..i];
  }

  /** Half way with `i` values known, the total is down by what these pixels lost. */
  ghost predicate HalfTotal(p: seq<int>, nx: nat, v: seq<int>, w: seq<int>)
    requires nx >= 1
  {
    Half(p, nx, v, w) && Sum(w) == Sum(p) - LostSum(nx, |p|, v)
  }

  lemma {:induction false} HalfTotalStep(p: seq<int>, nx: nat, v: seq<int>, i: nat, w: seq<int>)
    requires nx >= 1 && WholeRows(nx, |p|) && Diffused(p, nx, v) && i < |v| && HalfTotal(p, nx, v[..i], w)
    ensures HalfTotal(p, nx, v[..i + 1], Diffuse(w, nx, i))
  {
    PartialStep(p, nx, v, i, w);
    SumDiffuse(w, nx, i);
  }

  lemma {:induction false} PartialSum(p: seq<int>, nx: nat, v: seq<int>, i: nat) returns (w: seq<int>)
    requires nx >= 1 && WholeRows(nx, |p|) && Diffused(p, nx, v) && i <= |v|
    ensures HalfTotal(p, nx, v[..i], w)
  {
    if i == 0 {
      w := p;
      HalfStart(p, nx);
      assert v[..0] == [];
    } else {
      var w0 := PartialSum(p, nx, v, i - 1);
      HalfTotalStep(p, nx, v, i - 1, w0);
      w := Diffuse(w0, nx, i - 1);
    }
  }

  /** Brightness is conserved up to what the pixels lose: input total minus output total is exactly the lost error. */
  lemma Conservation(p: seq<int>, nx: nat, v: seq<int>, out: seq<int>)
    requires nx >= 1 && WholeRows(nx, |p|) && Dithered(p, nx, v, out)
    ensures Sum(p) - Sum(out) == LostSum(nx, |p|, v)
  {
    var w := PartialSum(p, nx, v, |v|);
    assert v[..|v|] == v;
    assert w == out;
  }

  predicate Interior(nx: nat, n: nat, i: nat)
    requires nx >= 1
  {
    !First(nx, i) && !Last(nx, i) && i + nx < n
  }

  function BorderCount(nx: nat, n: nat, m: nat): nat
    requires nx >= 1
  {
    if m == 0 then 0 else BorderCount(nx, n, m - 1) + (if Interior(nx, n, m - 1) then 0 else 1)
  }

  /** An interior pixel loses at most 3, by rounding only. */
  lemma LostRange(nx: nat, n: nat, i: nat, e: int)
    requires nx >= 1 && -128 <= e <= 127
    ensures -128 <= Lost(nx, n, i, e) <= 127
    ensures Interior(nx, n, i) ==> 0 <= Lost(nx, n, i, e) <= 3
  {
  }

  lemma {:induction false} LostSumRange(nx: nat, n: nat, v: seq<int>)
    requires nx >= 1 && Calm(v)
    ensures var b := BorderCount(nx, n, |v|); -128 * b <= LostSum(nx, n, v) <= 3 * |v| + 124 * b
  {
    if |v| > 0 {
      LostSumRange(nx, n, v[..|v| - 1]);
      LostRange(nx, n, |v| - 1, Err(v[|v| - 1]));
    }
  }

  /** The totals differ by at most 3 per pixel and 128 per pixel of the left, right and lower border. */
  lemma BrightnessKept(p: seq<int>, nx: nat, v: seq<int>, out: seq<int>)
    requires nx >= 1 && WholeRows(nx, |p|) && Bytes(p) && Dithered(p, nx, v, out)
    ensures var b := BorderCount(nx, |p|, |p|); -128 * b <= Sum(p) - Sum(out) <= 3 * |p| + 124 * b
  {
    Conservation(p, nx, v, out);
    DiffusedCalm(p, nx, v, |v|);
    assert v[..|v|] == v;
    LostSumRange(nx, |p|, v);
  }

  predicate Bitonal(p: seq<int>) { forall i :: 0 <= i < |p| ==> p[i] == 0 || p[i] == 255 }

  /** A bitonal image is its own dithering, so leaving it alone is right. */
  lemma BitonalFixed(p: seq<int>, nx: nat)
    requires nx >= 1 && Bitonal(p)
    ensures Dithered(p, nx, p, p)
  {
  }

  // ---------------------------------------------------------------- the loops

  lemma {:induction false} ColumnOf(nx: nat, y: nat, x: nat)
    requires x < nx
    ensures 0 <= y * nx && Column(nx, y * nx + x) == x
  {
    Multiple(y, nx);
    if y > 0 {
      assert y * nx == (y - 1) * nx + nx;
      ColumnOf(nx, y - 1, x);
    }
  }

  /** The four neighbours exist as the guards on x and y say. */
  lemma Guards(nx: nat, ny: nat, x: nat, y: nat)
    requires x < nx && y < ny
    ensures var i, n := y * nx + x, ny * nx;
            && 0 <= y * nx && i < n
            && (First(nx, i) <==> x == 0) && (Last(nx, i) <==> x == nx - 1)
            && (y < ny - 1 <==> i + nx < n)
            && (x < nx - 1 ==> i + 1 < n && (y < ny - 1 ==> i + nx + 1 < n))
            && WholeRows(nx, n)
  {
    CellInRange(y, ny, nx, x);
    ColumnOf(nx, y, x);
    ColumnOf(nx, ny, 0);
    assert (ny - 1 - y) * nx == ny * nx - nx - y * nx;
    Multiple(ny - 1 - y, nx);
    if x < nx - 1 { RightInside(nx, ny * nx, y * nx + x); }
  }

  /** `outbuf[k] += d` under a guard; the sum is stored back in 16 bits. */
  method AddShare(outbuf: array<int>, c: bool, k: nat, d: Int16)
    requires c ==> k < outbuf.Length && -1000 <= outbuf[k] <= 1000 && -1000 <= d <= 1000
    modifies outbuf
    ensures outbuf[..] == Bump(c, old(outbuf[..]), k, d as int)
  {
    if c {
      var t: Int16 := outbuf[k] as Int16 + d;
      outbuf[k] := t as int;
    }
  }

  method DeliverShares(outbuf: array<int>, nx: nat, i: nat, right: bool, left: bool, down: bool, e: int)
    requires nx >= 1 && -128 <= e <= 127
    requires (right ==> i + 1 < outbuf.Length) && (down ==> i + nx < outbuf.Length) &&
      (right && down ==> i + nx + 1 < outbuf.Length)
    requires Calm(outbuf[..])
    modifies outbuf
    ensures outbuf[..] ==
      Deliver(old(outbuf[..]), nx, i, right, left, down, Share(7, e), Share(3, e), Share(5, e), Share(1, e))
  {
    ShareRange(7, e);
    ShareRange(3, e);
    ShareRange(5, e);
    ShareRange(1, e);
    AddShare(outbuf, right, i + 1, Share(7, e) as Int16);
    AddShare(outbuf, left && down, i + nx - 1, Share(3, e) as Int16);
    AddShare(outbuf, down, i + nx, Share(5, e) as Int16);
    AddShare(outbuf, right && down, i + nx + 1, Share(1, e) as Int16);
  }

  method DiffusePixel(outbuf: array<int>, nx: nat, ny: nat, x: nat, y: nat)
    requires x < nx && y < ny && outbuf.Length == ny * nx && Calm(outbuf[..])
    modifies outbuf
    ensures 0 <= y * nx + x < outbuf.Length
    ensures outbuf[..] == Diffuse(old(outbuf[..]), nx, y * nx + x)
  {
    Guards(nx, ny, x, y);
    var i := y * nx + x;
    var oldPixel: Int16 := outbuf[i] as Int16;
    outbuf[i] := if oldPixel > 127 then 255 else 0;
    DeliverShares(outbuf, nx, i, x < nx - 1, x > 0, y < ny - 1, oldPixel as int - outbuf[i]);
  }

  lemma HalfCalm(p: seq<int>, nx: nat, v: seq<int>, w: seq<int>)
    requires nx >= 1 && Bytes(p) && Half(p, nx, v, w)
    ensures Calm(w)
  {
    DiffusedCalm(p, nx, v, |v|);
    assert v[..|v|] == v;
    forall j | |v| <= j < |w|
      ensures -128 <= w[j] <= 379
    {
      PulledRange(v, nx, j);
    }
  }

  method DiffuseNext(outbuf: array<int>, nx: nat, ny: nat, x: nat, y: nat, ghost p: seq<int>, ghost v: seq<int>)
    returns (ghost u: seq<int>)
    requires x < nx && y < ny && outbuf.Length == ny * nx && |p| == outbuf.Length && Bytes(p)
    requires |v| == y * nx + x && Half(p, nx, v, outbuf[..])
    modifies outbuf
    ensures |u| == |v| + 1 && Half(p, nx, u, outbuf[..])
  {
    NextPixel(p, nx, ny, x, y, v, outbuf[..]);
    u := v + [outbuf[..][|v|]];
    DiffusePixel(outbuf, nx, ny, x, y);
  }

  /** Half way through pixel (x, y), and what the next step reaches. */
  lemma NextPixel(p: seq<int>, nx: nat, ny: nat, x: nat, y: nat, v: seq<int>, w: seq<int>)
    requires x < nx && y < ny && |p| == |w| == ny * nx && Bytes(p) && |v| == y * nx + x && Half(p, nx, v, w)
    ensures Calm(w) && |v| < |w| && Half(p, nx, v + [w[|v|]], Diffuse(w, nx, |v|))
  {
    Guards(nx, ny, x, y);
    HalfCalm(p, nx, v, w);
    DiffuseStep(p, nx, v, w);
  }

  method DiffuseRow(outbuf: array<int>, nx: nat, ny: nat, y: nat, ghost p: seq<int>, ghost v: seq<int>)
    returns (ghost u: seq<int>)
    requires nx >= 1 && y < ny && outbuf.Length == ny * nx && |p| == outbuf.Length && Bytes(p)
    requires |v| == y * nx && Half(p, nx, v, outbuf[..])
    modifies outbuf
    ensures |u| == (y + 1) * nx && Half(p, nx, u, outbuf[..])
  {
    u := v;
    for x := 0 to nx
      invariant |u| == y * nx + x && Half(p, nx, u, outbuf[..])
    {
      u := DiffuseNext(outbuf, nx, ny, x, y, p, u);
    }
    assert (y + 1) * nx == y * nx + nx;
  }

  method DiffuseAll(outbuf: array<int>, nx: nat, ny: nat) returns (ghost v: seq<int>)
    requires nx >= 1 && outbuf.Length == ny * nx && Bytes(outbuf[..])
    modifies outbuf
    ensures Dithered(old(outbuf[..]), nx, v, outbuf[..])
  {
    ghost var p := outbuf[..];
    v := [];
    for y := 0 to ny
      invariant |v| == y * nx && Half(p, nx, v, outbuf[..])
    {
      v := DiffuseRow(outbuf, nx, ny, y, p, v);
    }
  }
}
