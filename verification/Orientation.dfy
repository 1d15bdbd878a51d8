/** Right-angle rotation, mirroring and the orientation tag (src/SipiImage.cpp, `rotate` and `set_topleft`). */
module Orientation {
  import opened Picture
  import Raster

  /** The rearrangements `rotate` can make: none, a mirror, or a clockwise turn. */
  datatype Turn = Keep | Mirror | Turn90 | Turn180 | Turn270

  predicate Swaps(t: Turn) { t.Turn90? || t.Turn270? }

  function Width(t: Turn, nx: nat, ny: nat): nat { if Swaps(t) then ny else nx }

  function Height(t: Turn, nx: nat, ny: nat): nat { if Swaps(t) then nx else ny }

  /** Where pixel (i, j) of the result comes from. */
  function Source(t: Turn, nx: nat, ny: nat, i: nat, j: nat): (s: (nat, nat))
    requires i < Width(t, nx, ny) && j < Height(t, nx, ny)
    ensures s.0 < nx && s.1 < ny
  {
    match t
    case Keep => (i, j)
    case Mirror => (nx - i - 1, j)
    case Turn90 => (j, ny - i - 1)
    case Turn180 => (nx - i - 1, ny - j - 1)
    case Turn270 => (nx - j - 1, i)
  }

  /** `res` is `img` after the one rearrangement `t`. */
  ghost predicate Turned(img: Image, t: Turn, res: Image) {
    && img.Wf() && res.Wf() && res.nc == img.nc
    && res.nx == Width(t, img.nx, img.ny) && res.ny == Height(t, img.nx, img.ny)
    && forall i: nat, j: nat, k: nat :: i < res.nx && j < res.ny && k < res.nc ==>
         At(res, i, j, k) == At(img, Source(t, img.nx, img.ny, i, j).0, Source(t, img.nx, img.ny, i, j).1, k)
  }

  /** Sample `k` of result pixel (i, j). */
  function Moved(img: Image, t: Turn, i: nat, j: nat, k: nat): int {
    if img.Wf() && i < Width(t, img.nx, img.ny) && j < Height(t, img.nx, img.ny) && k < img.nc
    then At(img, Source(t, img.nx, img.ny, i, j).0, Source(t, img.nx, img.ny, i, j).1, k)
    else 0
  }

  /** One rearrangement of the whole buffer. */
  method TurnBuffer(img: Image, t: Turn) returns (px: seq<int>)
    requires img.Wf()
    ensures Turned(img, t, Image(Width(t, img.nx, img.ny), Height(t, img.nx, img.ny), img.nc, px))
  {
    var res := Raster.Draw(Width(t, img.nx, img.ny), Height(t, img.nx, img.ny), img.nc,
                           (i: nat, j: nat, k: nat) => Moved(img, t, i, j, k));
    px := res.px;
  }

  // ---------------------------------------------------------------- the eight elements

  /** What `rotate` performs: mirror first if asked, then `quarters` clockwise quarter turns. */
  datatype Element = Element(mirror: bool, quarters: nat) {
    predicate Valid() { quarters < 4 }
  }

  function TurnOf(quarters: nat): Turn
    requires quarters < 4
  {
    if quarters == 0 then Keep else if quarters == 1 then Turn90 else if quarters == 2 then Turn180 else Turn270
  }

  /** Where pixel (i, j) of the result of a whole `rotate` comes from. */
  function Origin(e: Element, nx: nat, ny: nat, i: nat, j: nat): (s: (nat, nat))
    requires e.Valid() && i < Width(TurnOf(e.quarters), nx, ny) && j < Height(TurnOf(e.quarters), nx, ny)
    ensures s.0 < nx && s.1 < ny
  {
    Flip(e.mirror, nx, Source(TurnOf(e.quarters), nx, ny, i, j))
  }

  function Flip(mirror: bool, nx: nat, s: (nat, nat)): (nat, nat)
    requires s.0 < nx
  {
    if mirror then (nx - s.0 - 1, s.1) else s
  }

  /** `res` is `img` after the element `e`. */
  ghost predicate Rotated(img: Image, e: Element, res: Image)
    requires e.Valid()
  {
    && img.Wf() && res.Wf() && res.nc == img.nc
    && res.nx == Width(TurnOf(e.quarters), img.nx, img.ny) && res.ny == Height(TurnOf(e.quarters), img.nx, img.ny)
    && forall i: nat, j: nat, k: nat :: i < res.nx && j < res.ny && k < res.nc ==>
         At(res, i, j, k) == At(img, Origin(e, img.nx, img.ny, i, j).0, Origin(e, img.nx, img.ny, i, j).1, k)
  }

  /** First `a`, then `b`: a mirror in between reverses the turns before it. */
  function Then(a: Element, b: Element): (c: Element)
    requires a.Valid() && b.Valid()
    ensures c.Valid()
  {
    Element(a.mirror != b.mirror, More(if b.mirror then Back(a.quarters) else a.quarters, b.quarters))
  }

  /** Adding quarter turns, modulo four. */
  function More(p: nat, q: nat): (r: nat)
    requires p < 4 && q < 4
    ensures r < 4 && r == (p + q) % 4
  {
    if p + q < 4 then p + q else p + q - 4
  }

  /** As many quarter turns the other way. */
  function Back(p: nat): (r: nat)
    requires p < 4
    ensures r < 4 && More(p, r) == 0
  {
    if p == 0 then 0 else 4 - p
  }

  /** `p` quarter turns and then `q` more are `p + q` of them. */
  lemma TurnThen(p: nat, q: nat, nx: nat, ny: nat, i: nat, j: nat)
    requires p < 4 && q < 4
    requires var w, h := Width(TurnOf(p), nx, ny), Height(TurnOf(p), nx, ny);
             i < Width(TurnOf(q), w, h) && j < Height(TurnOf(q), w, h)
    ensures var w, h := Width(TurnOf(p), nx, ny), Height(TurnOf(p), nx, ny);
            && Width(TurnOf(More(p, q)), nx, ny) == Width(TurnOf(q), w, h)
            && Height(TurnOf(More(p, q)), nx, ny) == Height(TurnOf(q), w, h)
            && var s := Source(TurnOf(q), w, h, i, j);
               Source(TurnOf(More(p, q)), nx, ny, i, j) == Source(TurnOf(p), nx, ny, s.0, s.1)
  {
  }

  /** Mirroring the result of `p` quarter turns is mirroring first and turning back. */
  lemma MirrorThrough(p: nat, nx: nat, ny: nat, i: nat, j: nat)
    requires p < 4 && i < Width(TurnOf(p), nx, ny) && j < Height(TurnOf(p), nx, ny)
    ensures var w, b := Width(TurnOf(p), nx, ny), Back(p);
            && Width(TurnOf(b), nx, ny) == w && Height(TurnOf(b), nx, ny) == Height(TurnOf(p), nx, ny)
            && var s := Source(TurnOf(b), nx, ny, i, j);
               Source(TurnOf(p), nx, ny, w - i - 1, j) == Flip(true, nx, s)
  {
  }

  lemma OriginThen(a: Element, b: Element, nx: nat, ny: nat, i: nat, j: nat)
    requires a.Valid() && b.Valid()
    requires var w, h := Width(TurnOf(a.quarters), nx, ny), Height(TurnOf(a.quarters), nx, ny);
             i < Width(TurnOf(b.quarters), w, h) && j < Height(TurnOf(b.quarters), w, h)
    ensures var w, h := Width(TurnOf(a.quarters), nx, ny), Height(TurnOf(a.quarters), nx, ny);
            && Width(TurnOf(Then(a, b).quarters), nx, ny) == Width(TurnOf(b.quarters), w, h)
            && Height(TurnOf(Then(a, b).quarters), nx, ny) == Height(TurnOf(b.quarters), w, h)
            && var s := Origin(b, w, h, i, j);
               Origin(Then(a, b), nx, ny, i, j) == Origin(a, nx, ny, s.0, s.1)
  {
    if b.mirror {
      var back := Back(a.quarters);
      var w, h := Width(TurnOf(a.quarters), nx, ny), Height(TurnOf(a.quarters), nx, ny);
      var s := Source(TurnOf(b.quarters), w, h, i, j);
      MirrorThrough(a.quarters, nx, ny, s.0, s.1);
      TurnThen(back, b.quarters, nx, ny, i, j);
      FlipFlip(a.mirror, nx, Source(TurnOf(back), nx, ny, s.0, s.1));
    } else {
      TurnThen(a.quarters, b.quarters, nx, ny, i, j);
    }
  }

  lemma FlipFlip(mirror: bool, nx: nat, s: (nat, nat))
    requires s.0 < nx
    ensures Flip(mirror, nx, Flip(true, nx, s)) == Flip(!mirror, nx, s)
  {
  }

  /** The eight elements are closed under composition, with the multiplication of the dihedral group. */
  lemma RotateCompose(img: Image, a: Element, mid: Image, b: Element, res: Image)
    requires a.Valid() && b.Valid() && Rotated(img, a, mid) && Rotated(mid, b, res)
    ensures Rotated(img, Then(a, b), res)
  {
    var e := Then(a, b);
    forall i: nat, j: nat, k: nat | i < res.nx && j < res.ny && k < res.nc
      ensures res.nx == Width(TurnOf(e.quarters), img.nx, img.ny) &&
        res.ny == Height(TurnOf(e.quarters), img.nx, img.ny)
           && At(res, i, j, k) == At(img, Origin(e, img.nx, img.ny, i, j).0, Origin(e, img.nx, img.ny, i, j).1, k)
    {
      OriginThen(a, b, img.nx, img.ny, i, j);
    }
    DimsThen(a, b, img.nx, img.ny);
  }

  lemma DimsThen(a: Element, b: Element, nx: nat, ny: nat)
    requires a.Valid() && b.Valid()
    ensures var w, h := Width(TurnOf(a.quarters), nx, ny), Height(TurnOf(a.quarters), nx, ny);
            && Width(TurnOf(Then(a, b).quarters), nx, ny) == Width(TurnOf(b.quarters), w, h)
            && Height(TurnOf(Then(a, b).quarters), nx, ny) == Height(TurnOf(b.quarters), w, h)
  {
  }

  function Inverse(e: Element): (r: Element)
    requires e.Valid()
    ensures r.Valid() && Then(e, r) == Element(false, 0) && Then(r, e) == Element(false, 0)
  {
    if e.mirror then e else Element(false, Back(e.quarters))
  }

  /** Rotating by an element and then by its inverse brings back the image, sample for sample. */
  lemma RotateUndone(img: Image, e: Element, mid: Image, res: Image)
    requires e.Valid() && Rotated(img, e, mid) && Rotated(mid, Inverse(e), res)
    ensures res == img
  {
    RotateCompose(img, e, mid, Inverse(e), res);
    forall x: nat, y: nat, k: nat | x < img.nx && y < img.ny && k < img.nc
      ensures At(res, x, y, k) == At(img, x, y, k)
    {
      assert Origin(Element(false, 0), img.nx, img.ny, x, y) == (x, y);
    }
    SameImage(res, img);
  }

  lemma MirrorThenTurn(img: Image, mirror: bool, mid: Image, q: nat, res: Image)
    requires q < 4 && img.Wf()
    requires if mirror then Turned(img, Mirror, mid) else mid == img
    requires if q == 0 then res == mid else Turned(mid, TurnOf(q), res)
    ensures Rotated(img, Element(mirror, q), res)
  {
  }

  // ---------------------------------------------------------------- what an orientation tag means

  datatype Side = Top | Bottom | Left | Right

  /** The visual side that row 0 represents (section 8 of TIFF 6.0, Orientation). */
  function RowZero(tag: nat): Side
    requires 1 <= tag <= 8
  {
    if tag == 1 || tag == 2 then Top
    else if tag == 3 || tag == 4 then Bottom
    else if tag == 5 || tag == 8 then Left
    else Right
  }

  /** The visual side that column 0 represents. */
  function ColZero(tag: nat): Side
    requires 1 <= tag <= 8
  {
    if tag == 1 || tag == 4 then Left
    else if tag == 2 || tag == 3 then Right
    else if tag == 5 || tag == 6 then Top
    else Bottom
  }

  predicate Vertical(s: Side) { s.Top? || s.Bottom? }

  /** Distance from the visual top or left of line `n` of `count`, line 0 being at side `s`. */
  function FromStart(s: Side, n: nat, count: nat): nat
    requires n < count
  {
    if s.Top? || s.Left? then n else count - 1 - n
  }

  function VisualX(tag: nat, nx: nat, ny: nat, col: nat, row: nat): nat
    requires 1 <= tag <= 8 && col < nx && row < ny
  {
    if Vertical(RowZero(tag)) then FromStart(ColZero(tag), col, nx) else FromStart(RowZero(tag), row, ny)
  }

  function VisualY(tag: nat, nx: nat, ny: nat, col: nat, row: nat): nat
    requires 1 <= tag <= 8 && col < nx && row < ny
  {
    if Vertical(RowZero(tag)) then FromStart(RowZero(tag), row, ny) else FromStart(ColZero(tag), col, nx)
  }

  /** Sample (col, row, k) of `img` is in `res` at its visual position. */
  ghost predicate InPlace(img: Image, tag: nat, res: Image, col: nat, row: nat, k: nat)
    requires 1 <= tag <= 8 && img.Wf() && res.Wf() && col < img.nx && row < img.ny && k < img.nc
  {
    var vx, vy := VisualX(tag, img.nx, img.ny, col, row), VisualY(tag, img.nx, img.ny, col, row);
    vx < res.nx && vy < res.ny && k < res.nc && At(res, vx, vy, k) == At(img, col, row, k)
  }

  /** `res` shows `img` as its tag says: every sample sits at its visual position. */
  ghost predicate Upright(img: Image, tag: nat, res: Image)
    requires 1 <= tag <= 8
  {
    && img.Wf() && res.Wf() && res.nc == img.nc
    && (if Vertical(RowZero(tag)) then res.nx == img.nx && res.ny == img.ny else res.nx == img.ny && res.ny == img.nx)
    && forall col: nat, row: nat, k: nat :: col < img.nx && row < img.ny && k < img.nc ==>
      InPlace(img, tag, res, col, row, k)
  }

  lemma UprightIdentity(img: Image)
    requires img.Wf()
    ensures Upright(img, 1, img)
  {
  }

  /** The element `set_topleft` uses for a tag. */
  function ElementOf(tag: nat): (e: Element)
    requires 1 <= tag <= 8
    ensures e.Valid()
  {
    if tag == 1 then Element(false, 0) else if tag == 2 then Element(true, 0) else if tag == 3 then Element(false, 2)
    else if tag == 4 then Element(true, 2)
    else if tag == 5 then Element(true, 3)
    else if tag == 6 then Element(false, 1)
    else if tag == 7 then Element(true, 1) else Element(false, 3)
  }

  /** For all eight tags the chosen element puts every sample at the visual position the tag defines. */
  lemma RotatedIsUpright(img: Image, tag: nat, res: Image)
    requires 1 <= tag <= 8 && Rotated(img, ElementOf(tag), res)
    ensures Upright(img, tag, res)
  {
    forall col: nat, row: nat, k: nat | col < img.nx && row < img.ny && k < img.nc
      ensures InPlace(img, tag, res, col, row, k)
    {
      var i, j := VisualX(tag, img.nx, img.ny, col, row), VisualY(tag, img.nx, img.ny, col, row);
      assert Origin(ElementOf(tag), img.nx, img.ny, i, j) == (col, row);
    }
  }
}
