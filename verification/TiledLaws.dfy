/** Writing tiles and reading regions undo each other, for the regions that start on a tile corner. */
module TiledLaws {
  import opened Grid
  import opened Picture
  import opened EpsilonDivision
  import opened TiledTiff
  import Raster
  import Wrap

  /** The tiles make up the padded image. */
  lemma PlaneIsPadded(f: TiledFile, img: Image, x: nat, y: nat, k: nat)
    requires Tiling(f, img) && k < f.nc && x < Pieces(f.nx, f.tw) * f.tw && y < Pieces(f.ny, f.th) * f.th
    ensures Plane(f, x, y, k) == Padded(img, x, y, k)
  {
    QuotientBelow(x, Pieces(f.nx, f.tw), f.tw);
    QuotientBelow(y, Pieces(f.ny, f.th), f.th);
    DivModBasic(x, f.tw);
    DivModBasic(y, f.th);
    var t := Tile(x / f.tw, y / f.th);
    assert t in f.tiles;
    PosInRange(f.tw, f.th, f.nc, x % f.tw, y % f.th, k);
    assert At(Image(f.tw, f.th, f.nc, f.tiles[t]), x % f.tw, y % f.th, k) == Padded(img, x, y, k);
  }

  lemma PiecesMono(a: nat, b: nat, side: nat)
    requires a <= b && side >= 1
    ensures Pieces(a, side) <= Pieces(b, side)
  {
    PiecesCover(a, side);
    PiecesCover(b, side);
    Multiple(Pieces(a, side) - Pieces(b, side) - 1, side);
    assert (Pieces(a, side) - Pieces(b, side) - 1) * side == Pieces(a, side) * side - Pieces(b, side) * side - side;
  }

  /** Along one axis: the tiles read are there, they start at the corner below `x` and they cover the region. */
  lemma AxisCovered(n: nat, side: nat, x: nat, w: nat, s: nat, e: nat)
    requires 1 <= side <= 10000 && x + w <= n && s == EpsilonFloor(x, side) && e == EpsilonCeil(x + w, side)
    ensures s == x / side && 0 <= s * side && s * side + w <= Pieces(n, side) * side
    ensures e <= Pieces(n, side) && w <= Span(e - s, side)
  {
    EpsilonExact(x, side);
    EpsilonExact(x + w, side);
    PiecesMono(x + w, n, side);
    PiecesCover(x + w, side);
    PiecesCover(n, side);
    DivModBasic(x, side);
    Multiple(s, side);
    SpanCovers(s, e, side, x, w);
  }

  lemma SpanCovers(s: nat, e: nat, side: nat, x: nat, w: nat)
    requires side >= 1 && s * side <= x && x + w <= e * side
    ensures w <= Span(e - s, side)
  {
    assert (e - s) * side == e * side - s * side;
    Multiple(e - s, side);
  }

  /** The samples the tiles read span along one axis, for the region from `x` on. */
  function Cover(x: nat, w: nat, side: nat): nat requires side >= 1 { Span(Pieces(x + w, side) - x / side, side) }

  /** A tile, the region and the tiles over it are within 32 bits: what the reader's own arithmetic can hold. */
  predicate RegionFits(tw: nat, th: nat, nc: nat, x: nat, y: nat, w: nat, h: nat)
    requires tw >= 1 && th >= 1
  {
    (th * tw) * nc < W32 && (h * w) * nc < W32 && Cover(x, w, tw) <= W32 && Cover(y, h, th) <= W32
  }

  /** The tile numbers of a region inside an axis of a 32-bit size. */
  lemma AxisTiles(n: nat, side: nat, x: nat, w: nat)
    requires 1 <= side <= 10000 && x + w <= n < W32
    ensures var s, e := FirstTile(x, side), EndTile(x, w, side);
            && s == x / side && e == Pieces(x + w, side) <= Pieces(n, side) &&
              w <= Span(e - s, side) == Cover(x, w, side)
            && 0 <= s * side && s * side + w <= Pieces(n, side) * side
  {
    assert Word(x + w) == x + w;
    EpsilonExact(x, side);
    EpsilonExact(x + w, side);
    AxisCovered(n, side, x, w, FirstTile(x, side), EndTile(x, w, side));
  }

  lemma CountExact(f: TiledFile, nx: nat, ny: nat, nc: nat)
    requires AllTiles(f, nx, ny, nc) && f.tw <= 10000 && f.th <= 10000
    ensures Word(f.count) == Expected(f)
  {
    EpsilonExact(f.nx, f.tw);
    EpsilonExact(f.ny, f.th);
  }

  /**
   A region inside an 8-bit image whose tiles are all there, of sides up to 10000: the reader returns a buffer
   if what it computes fits 32 bits, and of a region that is not empty only if it does. Too many samples alone
   make it write outside its buffer.
   */
  lemma ReadOkIff(f: TiledFile, nx: nat, ny: nat, nc: nat, x: nat, y: nat, w: nat, h: nat, r: Result)
    requires AllTiles(f, nx, ny, nc) && f.bps == 8 && f.tw <= 10000 && f.th <= 10000 && nx < W32 && ny < W32
    requires x + w <= nx && y + h <= ny && Reads(f, x, y, w, h, r)
    ensures RegionFits(f.tw, f.th, nc, x, y, w, h) ==> r.Ok?
    ensures w >= 1 && h >= 1 && nc >= 1 ==> (r.Ok? <==> RegionFits(f.tw, f.th, nc, x, y, w, h))
    ensures (f.th * f.tw) * nc < W32 <= (h * w) * nc && Cover(x, w, f.tw) <= W32 && Cover(y, h, f.th) <= W32 ==>
      r == Overrun
  {
    CountExact(f, nx, ny, nc);
    AxisTiles(nx, f.tw, x, w);
    AxisTiles(ny, f.th, y, h);
    var sx, ex := FirstTile(x, f.tw), EndTile(x, w, f.tw);
    var sy, ey := FirstTile(y, f.th), EndTile(y, h, f.th);
    assert !Missing(f, sx, ex, sy, ey);
    if (h * w) * nc < W32 {
      NothingOutside(f, sx, ex, sy, ey, w, h);
    } else {
      RegionOutside(f, sx, ex, sy, ey, w, h);
    }
  }

  lemma NothingOutside(f: TiledFile, sx: nat, ex: nat, sy: nat, ey: nat, w: nat, h: nat)
    requires (h * w) * f.nc < W32
    ensures !Outside(f, sx, ex, sy, ey, w, h)
  {
    forall p: Pixel | p.x < w && p.y < h
      ensures Stored(w, h, f.nc, p.x, p.y)
    {
      StoredBelow(w, h, f.nc, p.x, p.y);
    }
  }

  lemma RegionOutside(f: TiledFile, sx: nat, ex: nat, sy: nat, ey: nat, w: nat, h: nat)
    requires (h * w) * f.nc >= W32 && w <= Span(ex - sx, f.tw) && h <= Span(ey - sy, f.th)
    ensures Outside(f, sx, ex, sy, ey, w, h)
  {
    var i, j := SomeOutside(w, h, f.nc);
    assert RowPixel(Pixel(i, j), Span(ex - sx, f.tw), 0, Span(ey - sy, f.th), w, h);
  }

  /** A grey image of 65536 by 65536 pixels in tiles of 256 by 256 cannot be read as a whole. */
  lemma HugeImageOverruns(f: TiledFile, r: Result)
    requires AllTiles(f, 65536, 65536, 1) && f.bps == 8 && f.tw == 256 && f.th == 256
    requires Reads(f, 0, 0, 65536, 65536, r)
    ensures r == Overrun
  {
    ReadOkIff(f, 65536, 65536, 1, 0, 0, 65536, 65536, r);
  }

  /** `px` shows `img` from (x, y) on. */
  ghost predicate Shows(img: Image, x: nat, y: nat, w: nat, h: nat, px: seq<int>) {
    && |px| == (h * w) * img.nc
    && forall i: nat, j: nat, k: nat :: i < w && j < h && k < img.nc ==>
         At(Image(w, h, img.nc, px), i, j, k) == Padded(img, x + i, y + j, k)
  }

  lemma RegionShows(f: TiledFile, img: Image, sx: nat, ex: nat, sy: nat, ey: nat, w: nat, h: nat, px: seq<int>)
    requires Tiling(f, img) && Region(f, sx, ex, sy, ey, w, h, px)
    requires w <= Span(ex - sx, f.tw) && h <= Span(ey - sy, f.th)
    requires sx * f.tw + w <= Pieces(f.nx, f.tw) * f.tw && sy * f.th + h <= Pieces(f.ny, f.th) * f.th
    ensures Shows(img, sx * f.tw, sy * f.th, w, h, px)
  {
    forall i: nat, j: nat, k: nat | i < w && j < h && k < f.nc
      ensures At(Image(w, h, f.nc, px), i, j, k) == Padded(img, sx * f.tw + i, sy * f.th + j, k)
    {
      PlaneIsPadded(f, img, sx * f.tw + i, sy * f.th + j, k);
    }
  }

  /**
   Any region inside the image that fits 32 bits can be read back, for tile sides up to 10000; what comes
   back is the image from the corner of the region's first tile on.
   */
  lemma ReadShows(f: TiledFile, img: Image, x: nat, y: nat, w: nat, h: nat, r: Result)
    requires Tiling(f, img) && f.bps == 8 && f.tw <= 10000 && f.th <= 10000 && f.nx < W32 && f.ny < W32
    requires x + w <= f.nx && y + h <= f.ny && Reads(f, x, y, w, h, r) && RegionFits(f.tw, f.th, f.nc, x, y, w, h)
    ensures 0 <= (x / f.tw) * f.tw && 0 <= (y / f.th) * f.th
    ensures r.Ok? && Shows(img, (x / f.tw) * f.tw, (y / f.th) * f.th, w, h, r.px)
  {
    CountExact(f, img.nx, img.ny, img.nc);
    ReadOkIff(f, img.nx, img.ny, img.nc, x, y, w, h, r);
    AxisTiles(f.nx, f.tw, x, w);
    AxisTiles(f.ny, f.th, y, h);
    RegionShows(f, img, FirstTile(x, f.tw), EndTile(x, w, f.tw), FirstTile(y, f.th), EndTile(y, h, f.th), w, h, r.px);
  }

  /** Reading a region that starts on a tile corner gives exactly that part of the image. */
  lemma AlignedRoundTrip(f: TiledFile, img: Image, x: nat, y: nat, w: nat, h: nat, r: Result)
    requires Tiling(f, img) && f.bps == 8 && f.tw <= 10000 && f.th <= 10000 && f.nx < W32 && f.ny < W32
    requires x + w <= f.nx && y + h <= f.ny && Reads(f, x, y, w, h, r) && RegionFits(f.tw, f.th, f.nc, x, y, w, h)
    requires x % f.tw == 0 && y % f.th == 0
    ensures r.Ok? && Shows(img, x, y, w, h, r.px)
  {
    ReadShows(f, img, x, y, w, h, r);
    DivModBasic(x, f.tw);
    DivModBasic(y, f.th);
  }

  /** The whole image comes back sample for sample. */
  lemma WholeRoundTrip(f: TiledFile, img: Image, r: Result)
    requires img.Wf() && Tiling(f, img) && f.bps == 8 && f.tw <= 10000 && f.th <= 10000 && f.nx < W32 && f.ny < W32
    requires Reads(f, 0, 0, f.nx, f.ny, r) && RegionFits(f.tw, f.th, f.nc, 0, 0, f.nx, f.ny)
    ensures r == Ok(img.px)
  {
    AlignedRoundTrip(f, img, 0, 0, f.nx, f.ny, r);
    SameImage(Image(img.nx, img.ny, img.nc, r.px), img);
  }

  /** The image that is black except for the first sample of pixel (x, y). */
  ghost function Spot(nx: nat, ny: nat, nc: nat, x: nat, y: nat): (img: Image)
    ensures img.Wf() && img.nx == nx && img.ny == ny && img.nc == nc
  {
    Offset(ny, nx);
    Offset(ny * nx, nc);
    Image(nx, ny, nc,
          seq((ny * nx) * nc, p requires 0 <= p < (ny * nx) * nc => if p == Pos(nx, nc, x, y, 0) then 1 else 0))
  }

  lemma SpotAt(nx: nat, ny: nat, nc: nat, x: nat, y: nat, a: nat, b: nat)
    requires x < nx && y < ny && a < nx && b < ny && nc >= 1
    ensures Padded(Spot(nx, ny, nc, x, y), a, b, 0) == if a == x && b == y then 1 else 0
  {
    PosInRange(nx, ny, nc, a, b, 0);
    PosInverse(nx, nc, x, y, 0);
    PosInverse(nx, nc, a, b, 0);
  }

  /** Off a tile corner the reader returns the wrong part: for the spot at (x, y), whoever wrote the tiles. */
  lemma UnalignedDiffers(f: TiledFile, nx: nat, ny: nat, nc: nat, x: nat, y: nat, w: nat, h: nat, r: Result)
    requires nc >= 1 && w >= 1 && h >= 1 && x + w <= nx < W32 && y + h <= ny < W32
    requires Tiling(f, Spot(nx, ny, nc, x, y)) && f.bps == 8 && f.tw <= 10000 && f.th <= 10000
    requires RegionFits(f.tw, f.th, nc, x, y, w, h) && Reads(f, x, y, w, h, r) && (x % f.tw != 0 || y % f.th != 0)
    ensures r.Ok? && !Shows(Spot(nx, ny, nc, x, y), x, y, w, h, r.px)
  {
    var img := Spot(nx, ny, nc, x, y);
    ReadShows(f, img, x, y, w, h, r);
    DivModBasic(x, f.tw);
    DivModBasic(y, f.th);
    var ox, oy := (x / f.tw) * f.tw, (y / f.th) * f.th;
    SpotAt(nx, ny, nc, x, y, ox, oy);
    SpotAt(nx, ny, nc, x, y, x, y);
    assert At(Image(w, h, nc, r.px), 0, 0, 0) == Padded(img, ox + 0, oy + 0, 0);
  }

  /** There is a tiling of every image, and a result of every reading. */
  lemma SomeTiling(img: Image, tw: nat, th: nat) returns (f: TiledFile)
    requires img.Wf() && tw >= 1 && th >= 1
    ensures Tiling(f, img) && f.bps == 8 && f.tw == tw && f.th == th
  {
    var ntx, nty := Pieces(img.nx, tw), Pieces(img.ny, th);
    Offset(ntx, nty);
    var all := set a: nat, b: nat | a < ntx && b < nty :: Tile(a, b);
    var tiles := map t | t in all :: CutOf(img, tw, th, t);
    f := TiledFile(img.nx, img.ny, img.nc, 8, tw, th, ntx * nty, tiles);
    assert forall t :: t in all <==> t.tx < ntx && t.ty < nty;
    forall t | t in f.tiles
      ensures 0 <= t.tx * tw && 0 <= t.ty * th && Cut(img, tw, th, t.tx * tw, t.ty * th, f.tiles[t])
    {
      CutOfIsCut(img, tw, th, t);
    }
  }

  ghost function CutOf(img: Image, tw: nat, th: nat, t: Tile): seq<int> {
    Offset(t.tx, tw);
    Offset(t.ty, th);
    Raster.Rendered(tw, th, img.nc, (x: nat, y: nat, k: nat) => Padded(img, t.tx * tw + x, t.ty * th + y, k)).px
  }

  lemma CutOfIsCut(img: Image, tw: nat, th: nat, t: Tile)
    ensures 0 <= t.tx * tw && 0 <= t.ty * th && Cut(img, tw, th, t.tx * tw, t.ty * th, CutOf(img, tw, th, t))
  {
    Offset(t.tx, tw);
    Offset(t.ty, th);
    forall x: nat, y: nat, k: nat | x < tw && y < th && k < img.nc
      ensures At(Image(tw, th, img.nc, CutOf(img, tw, th, t)), x, y, k) == Padded(img, t.tx * tw + x, t.ty * th + y, k)
    {
      Raster.RenderedAt(tw, th, img.nc, (x: nat, y: nat, k: nat) => Padded(img, t.tx * tw + x, t.ty * th + y, k), x,
        y, k);
    }
  }

  lemma SomeReading(f: TiledFile, x: nat, y: nat, w: nat, h: nat) returns (r: Result)
    ensures Reads(f, x, y, w, h, r)
  {
    if f.tw == 0 || f.th == 0 {
      return NoTileSize;
    }
    if Word(f.count) != Expected(f) {
      return TileCount;
    }
    if f.bps != 8 && f.bps != 16 {
      return BitDepth;
    }
    r := SomeRegion(f, FirstTile(x, f.tw), EndTile(x, w, f.tw), FirstTile(y, f.th), EndTile(y, h, f.th), w, h);
  }

  lemma SomeRegion(f: TiledFile, sx: nat, ex: nat, sy: nat, ey: nat, w: nat, h: nat) returns (r: Result)
    requires f.tw >= 1 && f.th >= 1
    ensures RegionResult(f, sx, ex, sy, ey, w, h, r)
  {
    if Missing(f, sx, ex, sy, ey) {
      var t: Tile :| sx <= t.tx < ex && sy <= t.ty < ey && t !in f.tiles;
      return TileFailed(t);
    }
    if Overruns(f, sx, ex, sy, ey, w, h) {
      return Overrun;
    }
    if Wraps(f, sx, ex, sy, ey) {
      return Wrapped;
    }
    Offset(h, w);
    Offset(h * w, f.nc);
    if (h * w) * f.nc < W32 {
      var px := SomeBuffer(f, sx, ex, sy, ey, w, h);
      r := Ok(px);
    } else {
      r := Ok(seq(Word((h * w) * f.nc), _ => 0));
    }
  }

  lemma SomeBuffer(f: TiledFile, sx: nat, ex: nat, sy: nat, ey: nat, w: nat, h: nat) returns (px: seq<int>)
    requires f.tw >= 1 && f.th >= 1
    ensures Region(f, sx, ex, sy, ey, w, h, px)
  {
    Offset(sx, f.tw);
    Offset(sy, f.th);
    var ox: nat, oy: nat := sx * f.tw, sy * f.th;
    var g := (i: nat, j: nat, k: nat) =>
      if i < Span(ex - sx, f.tw) && j < Span(ey - sy, f.th) then Plane(f, ox + i, oy + j, k) else 0;
    px := Raster.Rendered(w, h, f.nc, g).px;
    forall i: nat, j: nat, k: nat | i < w && j < h && k < f.nc
      ensures At(Image(w, h, f.nc, px), i, j, k) == g(i, j, k)
    {
      Raster.RenderedAt(w, h, f.nc, g, i, j, k);
    }
  }

  /** `f` is an 8-bit tiling of the nx by ny image `img`, and `r` what the reader returns for the region. */
  ghost predicate ReadBack(img: Image, f: TiledFile, r: Result, nx: nat, ny: nat, nc: nat, tw: nat, th: nat,
                           x: nat, y: nat, w: nat, h: nat) {
    && img.nx == nx && img.ny == ny && img.nc == nc && img.Wf() && f.tw == tw && f.th == th && f.bps == 8
    && Tiling(f, img) && Reads(f, x, y, w, h, r)
  }

  /** A region reads back right for every image exactly if it starts on a tile corner and fits 32 bits. */
  lemma AlignedIff(nx: nat, ny: nat, nc: nat, tw: nat, th: nat, x: nat, y: nat, w: nat, h: nat)
    requires nc >= 1 && w >= 1 && h >= 1 && x + w <= nx < W32 && y + h <= ny < W32 && 1 <= tw <= 10000 &&
      1 <= th <= 10000
    ensures x % tw == 0 && y % th == 0 && RegionFits(tw, th, nc, x, y, w, h) <==>
            forall img: Image, f: TiledFile, r: Result :: ReadBack(img, f, r, nx, ny, nc, tw, th, x, y, w, h) ==>
              r.Ok? && Shows(img, x, y, w, h, r.px)
  {
    if x % tw == 0 && y % th == 0 && RegionFits(tw, th, nc, x, y, w, h) {
      forall img: Image, f: TiledFile, r: Result | ReadBack(img, f, r, nx, ny, nc, tw, th, x, y, w, h)
        ensures r.Ok? && Shows(img, x, y, w, h, r.px)
      {
        AlignedRoundTrip(f, img, x, y, w, h, r);
      }
    } else {
      var img := Spot(nx, ny, nc, x, y);
      var f := SomeTiling(img, tw, th);
      var r := SomeReading(f, x, y, w, h);
      if RegionFits(tw, th, nc, x, y, w, h) {
        UnalignedDiffers(f, nx, ny, nc, x, y, w, h, r);
      } else {
        ReadOkIff(f, nx, ny, nc, x, y, w, h, r);
      }
      assert ReadBack(img, f, r, nx, ny, nc, tw, th, x, y, w, h);
    }
  }

  // ---------------------------------------------------------------- what a tile holds

  /** Byte by byte: a tile has the pixels of the image under it, and zero where the image has ended. */
  lemma TileHolds(f: TiledFile, img: Image, t: Tile, x: nat, y: nat, k: nat)
    requires img.Wf() && Tiling(f, img) && t in f.tiles && x < f.tw && y < f.th && k < img.nc
    ensures var xx, yy := t.tx * f.tw + x, t.ty * f.th + y;
            var p, q := img.nc * (y * f.tw + x) + k, img.nc * (yy * img.nx + xx) + k;
            && 0 <= xx && 0 <= yy && 0 <= p < |f.tiles[t]|
            && (xx < img.nx && yy < img.ny ==> 0 <= q < |img.px| && f.tiles[t][p] == img.px[q])
            && (xx >= img.nx || yy >= img.ny ==> f.tiles[t][p] == 0)
  {
    var xx, yy := t.tx * f.tw + x, t.ty * f.th + y;
    assert Cut(img, f.tw, f.th, t.tx * f.tw, t.ty * f.th, f.tiles[t]);
    assert At(Image(f.tw, f.th, img.nc, f.tiles[t]), x, y, k) == Padded(img, xx, yy, k);
    PosInRange(f.tw, f.th, img.nc, x, y, k);
    FlatPosition(f.tw, img.nc, x, y, k);
    if xx < img.nx && yy < img.ny {
      PosInRange(img.nx, img.ny, img.nc, xx, yy, k);
      FlatPosition(img.nx, img.nc, xx, yy, k);
    }
  }

  lemma FlatPosition(nx: nat, nc: nat, x: nat, y: nat, k: nat)
    ensures nc * (y * nx + x) + k == Pos(nx, nc, x, y, k)
  {
  }

  // ---------------------------------------------------------------- larger tiles

  /** Words of numbers that are less than 2^32 apart differ. */
  lemma WordsDiffer(a: nat, b: nat)
    requires a < b < a + W32
    ensures Word(a) != Word(b)
  {
    if Word(a) == Word(b) {
      Wrap.ResidueIff(b, Word(a), W32);
      Wrap.ResidueIff(a, Word(a), W32);
      Wrap.MultipleSub(b - Word(a), a - Word(a), W32);
      Wrap.MultipleSub(b - Word(a), b - a, W32);
    }
  }

  /** Few tiles of more than 10000 samples go into a 32-bit side. */
  lemma FewTiles(n: nat, side: nat)
    requires side >= 1 && n < W32
    ensures Pieces(n, side) < W32 && (side > 10000 ==> Pieces(n, side) <= 429454)
  {
    PiecesCover(n, side);
    var p := Pieces(n, side) - 1;
    assert p * side == Pieces(n, side) * side - side;
    if p >= 0 {
      MulMono(1, side, p);
      assert p * side == side * p;
      if side > 10000 { MulMono(10001, side, p); }
    }
  }

  /** One tile fewer in a row or a column, or in both, changes the 32-bit count. */
  lemma CountsDiffer(p: nat, q: nat, a: nat, b: nat)
    requires 1 <= p < W32 && 1 <= q < W32 && (a == p || (a == p - 1 && p <= 429454)) &&
      (b == q || (b == q - 1 && q <= 429454))
    ensures 0 <= a * b && 0 <= p * q && (Word(a * b) == Word(p * q) <==> a == p && b == q)
  {
    Multiple(a, b);
    Multiple(p, q);
    if a == p && b == q - 1 {
      assert p * q == a * b + p;
      WordsDiffer(a * b, p * q);
    } else if a == p - 1 && b == q {
      assert p * q == a * b + q;
      WordsDiffer(a * b, p * q);
    } else if a == p - 1 && b == q - 1 {
      assert p * q == a * b + p + q - 1;
      WordsDiffer(a * b, p * q);
    }
  }

  /** The reader counts one tile too few exactly on a side that ends just after a boundary. */
  lemma TilesCounted(n: nat, side: nat)
    requires 1 <= n < W32 && side >= 1
    ensures 1 <= Pieces(n, side) < W32 && EpsilonCeil(n, side) == Pieces(n, side) - if JustAbove(n, side) then 1 else 0
    ensures JustAbove(n, side) ==> Pieces(n, side) <= 429454
  {
    EpsilonCeilIs(n, side);
    PiecesCover(n, side);
    Multiple(Pieces(n, side), side);
    FewTiles(n, side);
  }

  /**
   With larger tiles an image the writer has just tiled is refused for its tile count exactly if a side
   ends within 1/10000 of a tile after a tile boundary.
   */
  lemma RefusedIff(f: TiledFile, nx: nat, ny: nat, nc: nat, x: nat, y: nat, w: nat, h: nat, r: Result)
    requires AllTiles(f, nx, ny, nc) && 1 <= nx < W32 && 1 <= ny < W32 && Reads(f, x, y, w, h, r)
    ensures r == TileCount <==> JustAbove(nx, f.tw) || JustAbove(ny, f.th)
  {
    TilesCounted(nx, f.tw);
    TilesCounted(ny, f.th);
    CountsDiffer(Pieces(nx, f.tw), Pieces(ny, f.th), EpsilonCeil(nx, f.tw), EpsilonCeil(ny, f.th));
  }

  /** An image one column wider than a tile of 10016 columns and 16 rows is refused. */
  lemma RefusedExample(f: TiledFile, r: Result)
    requires AllTiles(f, 10017, 16, 1) && f.tw == 10016 && f.th == 16 && Reads(f, 0, 0, 10017, 16, r)
    ensures r == TileCount
  {
    RefusedIff(f, 10017, 16, 1, 0, 0, 10017, 16, r);
  }

  // ---------------------------------------------------------------- writer and reader together

  /** A whole image that fits the reader's 32 bits fits the writer's. */
  lemma WholeFitsWriter(tw: nat, th: nat, nc: nat, nx: nat, ny: nat)
    requires 1 <= tw <= 10000 && 1 <= th <= 10000
    ensures Cover(0, nx, tw) <= W32 && Cover(0, ny, th) <= W32 ==> WriteFits(nx, ny, tw, th)
  {
    MulMono(th, 10000, tw);
    assert 0 / tw == 0 && 0 / th == 0;
  }

  /**
   Writing tiles of sides up to 10000 and reading the whole image gives back its samples if everything fits 32
   bits, and of an image that is not empty only then.
   */
  method WriteAndRead(img: Image, tw: nat, th: nat) returns (r: Result)
    requires img.Wf() && 1 <= tw <= 10000 && 1 <= th <= 10000 && img.nx < W32 && img.ny < W32
    ensures RegionFits(tw, th, img.nc, 0, 0, img.nx, img.ny) ==> r == Ok(img.px)
    ensures img.px != [] ==> (r.Ok? <==> RegionFits(tw, th, img.nc, 0, 0, img.nx, img.ny))
  {
    var f := WriteTiles(img, tw, th);
    r := ReadTiledData(f, 0, 0, img.nx, img.ny);
    ReadOkIff(f, img.nx, img.ny, img.nc, 0, 0, img.nx, img.ny, r);
    NotEmpty(img);
    if RegionFits(tw, th, img.nc, 0, 0, img.nx, img.ny) {
      WholeFitsWriter(tw, th, img.nc, img.nx, img.ny);
      WholeRoundTrip(f, img, r);
    }
  }

  lemma NotEmpty(img: Image)
    requires img.Wf()
    ensures img.px != [] ==> img.nx >= 1 && img.ny >= 1 && img.nc >= 1
  {
  }

  /** Writing tiles and reading a region that starts on a tile corner gives that part of the image. */
  method WriteAndReadRegion(img: Image, tw: nat, th: nat, x: nat, y: nat, w: nat, h: nat) returns (r: Result)
    requires img.Wf() && 1 <= tw <= 10000 && 1 <= th <= 10000 && x + w <= img.nx < W32 && y + h <= img.ny < W32
    requires x % tw == 0 && y % th == 0
    ensures WriteFits(img.nx, img.ny, tw, th) && RegionFits(tw, th, img.nc, x, y, w, h) ==>
      r.Ok? && Shows(img, x, y, w, h, r.px)
    ensures w >= 1 && h >= 1 && img.nc >= 1 ==> (r.Ok? <==> RegionFits(tw, th, img.nc, x, y, w, h))
  {
    var f := WriteTiles(img, tw, th);
    r := ReadTiledData(f, x, y, w, h);
    ReadOkIff(f, img.nx, img.ny, img.nc, x, y, w, h, r);
    if WriteFits(img.nx, img.ny, tw, th) && RegionFits(tw, th, img.nc, x, y, w, h) {
      AlignedRoundTrip(f, img, x, y, w, h, r);
    }
  }
}
