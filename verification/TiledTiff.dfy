/**
 Cutting an image into tiles and reading a region back (src/formats/SipiIOTiff.cpp, the loops of
 `write_subfile` and `read_tiled_data`, interleaved samples). A tile is an image of its own; the
 TIFF library is the map from tile coordinates to tiles.
 */
module TiledTiff {
  import opened Grid
  import opened Picture
  import opened EpsilonDivision
  import Raster
  import Wrap

  datatype Tile = Tile(tx: nat, ty: nat)

  /** A tiled directory of a TIFF file; `count` is the number of tiles the library reports. */
  datatype TiledFile =
    TiledFile(nx: nat, ny: nat, nc: nat, bps: nat, tw: nat, th: nat, count: nat, tiles: map<Tile, seq<int>>)
  {
    /** A tile that can be read fills the tile buffer. */
    ghost predicate Wf() { forall t :: t in tiles ==> |tiles[t]| == (th * tw) * nc }
  }

  /**
   What the reader comes to. `Overrun`: it accesses a sample outside one of its two buffers. `Wrapped`: a
   region coordinate leaves 32 bits. The program does not test for either; the model stops there.
   */
  datatype Result = Ok(px: seq<int>) | NoTileSize | TileCount | BitDepth | TileFailed(tile: Tile) | Overrun | Wrapped

  const W32: nat := 0x1_0000_0000

  /** What a `uint32_t` keeps of a number. */
  function Word(x: nat): (r: nat)
    ensures r < W32 && (x < W32 ==> r == x)
  {
    x % W32
  }

  // ---------------------------------------------------------------- writing

  /** The image continued by zeros to the right and below. */
  function Padded(img: Image, x: nat, y: nat, k: nat): int {
    if img.Wf() && x < img.nx && y < img.ny && k < img.nc then At(img, x, y, k) else 0
  }

  /** The samples of the tile at (ox, oy). */
  ghost predicate Cut(img: Image, tw: nat, th: nat, ox: nat, oy: nat, px: seq<int>) {
    && |px| == (th * tw) * img.nc
    && forall x: nat, y: nat, k: nat :: x < tw && y < th && k < img.nc ==>
         At(Image(tw, th, img.nc, px), x, y, k) == Padded(img, ox + x, oy + y, k)
  }

  /** The sample the writer puts at (x, y) of the tile at (ox, oy), the coordinates in 32 bits. */
  function TileSample(img: Image, ox: nat, oy: nat, x: nat, y: nat, k: nat): int
  {
    Padded(img, Word(ox + x), Word(oy + y), k)
  }

  method WriteTile(img: Image, tw: nat, th: nat, ox: nat, oy: nat) returns (px: seq<int>)
    requires img.Wf()
    ensures |px| == (th * tw) * img.nc
    ensures ox + tw <= W32 && oy + th <= W32 ==> Cut(img, tw, th, ox, oy, px)
  {
    var tile := Raster.Draw(tw, th, img.nc, (x: nat, y: nat, k: nat) => TileSample(img, ox, oy, x, y, k));
    px := tile.px;
    if ox + tw <= W32 && oy + th <= W32 {
      forall x: nat, y: nat, k: nat | x < tw && y < th && k < img.nc
        ensures At(Image(tw, th, img.nc, px), x, y, k) == Padded(img, ox + x, oy + y, k)
      {
        ExactSample(img, tw, th, ox, oy, x, y, k);
        assert At(tile, x, y, k) == TileSample(img, ox, oy, x, y, k);
      }
    }
  }

  lemma ExactSample(img: Image, tw: nat, th: nat, ox: nat, oy: nat, x: nat, y: nat, k: nat)
    requires ox + tw <= W32 && oy + th <= W32 && x < tw && y < th
    ensures TileSample(img, ox, oy, x, y, k) == Padded(img, ox + x, oy + y, k)
  {
    assert Word(ox + x) == ox + x && Word(oy + y) == oy + y;
  }

  /** Tile coordinate products are no obstacle: `t * side` is a natural number. */
  lemma Offset(t: nat, side: nat)
    ensures 0 <= t * side
  {
    Multiple(t, side);
  }

  /** `f` has all tiles of an image of this size and no others. */
  ghost predicate AllTiles(f: TiledFile, nx: nat, ny: nat, nc: nat) {
    && f.nx == nx && f.ny == ny && f.nc == nc && f.tw >= 1 && f.th >= 1 && f.Wf()
    && f.count == Pieces(f.nx, f.tw) * Pieces(f.ny, f.th)
    && (forall t :: t in f.tiles <==> t.tx < Pieces(f.nx, f.tw) && t.ty < Pieces(f.ny, f.th))
  }

  /** `f` holds the tiles of `img`. */
  ghost predicate Tiling(f: TiledFile, img: Image) {
    && AllTiles(f, img.nx, img.ny, img.nc)
    && forall t :: t in f.tiles ==>
      0 <= t.tx * f.tw && 0 <= t.ty * f.th && Cut(img, f.tw, f.th, t.tx * f.tw, t.ty * f.th, f.tiles[t])
  }

  /** The tiles of an axis of `n` samples end within 32 bits. */
  predicate AxisFits(n: nat, side: nat) requires side >= 1 { Pieces(n, side) * side <= W32 }

  /** Every index the writer computes in 32 bits is exact: the coordinates, and the positions in a tile. */
  predicate WriteFits(nx: nat, ny: nat, tw: nat, th: nat) requires tw >= 1 && th >= 1 {
    AxisFits(nx, tw) && AxisFits(ny, th) && th * tw <= W32
  }

  /** A tile of an axis that fits ends within 32 bits. */
  lemma TileEnds(n: nat, side: nat, t: nat)
    requires side >= 1 && t < Pieces(n, side)
    ensures 0 <= t * side && (AxisFits(n, side) ==> t * side + side <= W32)
  {
    Multiple(t, side);
    MulMono(t + 1, Pieces(n, side), side);
    assert (t + 1) * side == t * side + side;
  }

  /** The tile `px` at `t` has its size and, if the writer's indices are exact, its part of the image. */
  ghost predicate TileDone(img: Image, tw: nat, th: nat, t: Tile, px: seq<int>)
    requires tw >= 1 && th >= 1
  {
    && |px| == (th * tw) * img.nc && 0 <= t.tx * tw && 0 <= t.ty * th
    && (WriteFits(img.nx, img.ny, tw, th) ==> Cut(img, tw, th, t.tx * tw, t.ty * th, px))
  }

  method WriteTileRow(img: Image, tw: nat, th: nat, ntx: nat, ty: nat, tiles: map<Tile, seq<int>>)
    returns (r: map<Tile, seq<int>>)
    requires img.Wf() && tw >= 1 && th >= 1 && ntx == Pieces(img.nx, tw) && ty < Pieces(img.ny, th)
    ensures forall t :: t in r <==> t in tiles || (t.ty == ty && t.tx < ntx)
    ensures forall t :: t in r && t.ty != ty ==> r[t] == tiles[t]
    ensures forall t :: t in r && t.ty == ty && t.tx < ntx ==> TileDone(img, tw, th, t, r[t])
  {
    r := tiles;
    TileEnds(img.ny, th, ty);
    for tx := 0 to ntx
      invariant forall t :: t in r <==> t in tiles || (t.ty == ty && t.tx < tx)
      invariant forall t :: t in r && t.ty != ty ==> r[t] == tiles[t]
      invariant forall t :: t in r && t.ty == ty && t.tx < tx ==> TileDone(img, tw, th, t, r[t])
    {
      TileEnds(img.nx, tw, tx);
      var px := WriteTile(img, tw, th, tx * tw, ty * th);
      r := r[Tile(tx, ty) := px];
    }
  }

  /** The tiling loop of `write_subfile`. */
  method WriteTiles(img: Image, tw: nat, th: nat) returns (f: TiledFile)
    requires img.Wf() && tw >= 1 && th >= 1
    ensures AllTiles(f, img.nx, img.ny, img.nc) && f.bps == 8 && f.tw == tw && f.th == th
    ensures WriteFits(img.nx, img.ny, tw, th) ==> Tiling(f, img)
  {
    CeilIsPieces(img.nx, tw);
    CeilIsPieces(img.ny, th);
    var ntx: nat := CeilDivision(img.nx, tw);
    var nty: nat := CeilDivision(img.ny, th);
    var tiles: map<Tile, seq<int>> := map[];
    for ty := 0 to nty
      invariant forall t :: t in tiles <==> t.tx < ntx && t.ty < ty
      invariant forall t :: t in tiles ==> TileDone(img, tw, th, t, tiles[t])
    {
      tiles := WriteTileRow(img, tw, th, ntx, ty, tiles);
    }
    Offset(ntx, nty);
    f := TiledFile(img.nx, img.ny, img.nc, 8, tw, th, ntx * nty, tiles);
  }

  // ---------------------------------------------------------------- reading

  /** Sample `k` of pixel (x, y) of the plane that the tiles make up; zero where there is no tile. */
  function Plane(f: TiledFile, x: nat, y: nat, k: nat): int
    requires f.tw >= 1 && f.th >= 1
  {
    var t := Tile(x / f.tw, y / f.th);
    var p := Pos(f.tw, f.nc, x % f.tw, y % f.th, k);
    if t in f.tiles && p < |f.tiles[t]| then f.tiles[t][p] else 0
  }

  datatype Pixel = Pixel(x: nat, y: nat)

  /** The region buffer holds the plane from (ox, oy) on at the pixels of `done`, and zero elsewhere. */
  ghost predicate Painted(f: TiledFile, ox: nat, oy: nat, w: nat, h: nat, buf: seq<int>, done: set<Pixel>)
    requires f.tw >= 1 && f.th >= 1
  {
    && |buf| == (h * w) * f.nc
    && forall i: nat, j: nat, k: nat :: i < w && j < h && k < f.nc ==>
         At(Image(w, h, f.nc, buf), i, j, k) == if Pixel(i, j) in done then Plane(f, ox + i, oy + j, k) else 0
  }

  // ---------------------------------------------------------------- 32-bit positions

  /** Position `at + k`, in 32 bits. */
  function WordPlus(at: nat, k: nat): nat { Word(at + k) }

  /** Wrapping before or after adding gives the same word. */
  lemma WordAdd(a: nat, k: nat)
    ensures WordPlus(Word(a), k) == Word(a + k)
  {
    Wrap.ModSub(a, -(k as int), W32);
  }

  /** All samples of region pixel (i, j) are written inside a buffer of w * h * nc samples, both in 32 bits. */
  ghost predicate Stored(w: nat, h: nat, nc: nat, i: nat, j: nat) {
    Multiple(h, w); Multiple(h * w, nc);
    forall k: nat :: k < nc ==> Word(Pos(w, nc, i, j, k)) < Word((h * w) * nc)
  }

  /** Every write to the region stays inside its buffer if and only if the region has fewer than 2^32 samples. */
  lemma StoredIff(w: nat, h: nat, nc: nat)
    requires w >= 1 && h >= 1 && nc >= 1
    ensures (forall i: nat, j: nat :: i < w && j < h ==> Stored(w, h, nc, i, j)) <==> (h * w) * nc < W32
  {
    if (h * w) * nc < W32 {
      forall i: nat, j: nat | i < w && j < h
        ensures Stored(w, h, nc, i, j)
      {
        StoredBelow(w, h, nc, i, j);
      }
    } else {
      var i, j := SomeOutside(w, h, nc);
    }
  }

  lemma StoredBelow(w: nat, h: nat, nc: nat, i: nat, j: nat)
    requires i < w && j < h && (h * w) * nc < W32
    ensures Stored(w, h, nc, i, j)
  {
    forall k: nat | k < nc
      ensures Pos(w, nc, i, j, k) < (h * w) * nc
    {
      PosInRange(w, h, nc, i, j, k);
    }
  }

  /** The sample number 2^32 - 1 of a larger region falls behind the buffer. */
  lemma SomeOutside(w: nat, h: nat, nc: nat) returns (i: nat, j: nat)
    requires (h * w) * nc >= W32
    ensures i < w && j < h && !Stored(w, h, nc, i, j)
  {
    var k;
    i, j, k := PosOf(w, h, nc, W32 - 1);
    assert Word(Pos(w, nc, i, j, k)) == W32 - 1;
  }

  /** The samples in the tile buffer: its size in bytes is kept in 32 bits. */
  function TileBuffer(f: TiledFile): nat {
    Multiple(f.th, f.tw); Multiple(f.th * f.tw, f.nc);
    if f.bps == 8 then Word((f.th * f.tw) * f.nc) else Word(2 * ((f.th * f.tw) * f.nc)) / 2
  }

  /** A tile fits its buffer: fewer than 2^32 bytes. */
  predicate TileFits(f: TiledFile) { (if f.bps == 8 then 1 else 2) * ((f.th * f.tw) * f.nc) < W32 }

  lemma TileFitsIff(f: TiledFile)
    ensures (f.th * f.tw) * f.nc <= TileBuffer(f) <==> TileFits(f)
    ensures TileFits(f) ==> TileBuffer(f) == (f.th * f.tw) * f.nc
  {
    Multiple(f.th, f.tw);
    Multiple(f.th * f.tw, f.nc);
  }

  // ---------------------------------------------------------------- one tile

  /** Copies one tile pixel, as long as the position is inside the buffer. */
  method PutPixel(inbuf: array<int>, tile: seq<int>, nc: nat, from: nat, at: nat) returns (inside: bool)
    requires from + nc <= |tile| < W32
    modifies inbuf
    ensures inside <==> forall k: nat :: k < nc ==> WordPlus(at, k) < inbuf.Length
    ensures inside && at + nc <= W32 ==> forall q :: 0 <= q < inbuf.Length ==>
              inbuf[q] == if at <= q < at + nc then tile[from + (q - at)] else old(inbuf[q])
  {
    for c := 0 to nc
      invariant forall k: nat :: k < c ==> WordPlus(at, k) < inbuf.Length
      invariant at + nc <= W32 ==> forall q :: 0 <= q < inbuf.Length ==>
                  inbuf[q] == if at <= q < at + c then tile[from + (q - at)] else old(inbuf[q])
    {
      var pos := WordPlus(at, c);
      if pos >= inbuf.Length {
        return false;
      }
      inbuf[pos] := tile[Word(from + c)];
    }
    inside := true;
  }

  /** Sample positions of one pixel are together, and those of different pixels are apart. */
  lemma PixelRange(w: nat, nc: nat, x: nat, y: nat, i: nat, j: nat, k: nat)
    requires x < w && i < w && k < nc
    ensures var at := (y * w + x) * nc; at <= Pos(w, nc, i, j, k) < at + nc <==> i == x && j == y
  {
    var p := Pos(w, nc, i, j, k);
    var at := (y * w + x) * nc;
    PosInverse(w, nc, i, j, k);
    if at <= p < at + nc {
      Multiple(y, w);
      DivModUnique(p, y * w + x, nc, p - at);
      DivModUnique(y * w + x, y, w, x);
    }
  }

  lemma PaintedStep(f: TiledFile, ox: nat, oy: nat, w: nat, h: nat, b: seq<int>, done: set<Pixel>, x: nat, y: nat,
                    a: seq<int>)
    requires f.tw >= 1 && f.th >= 1 && x < w && y < h && Painted(f, ox, oy, w, h, b, done) && |a| == |b|
    requires var at := (y * w + x) * f.nc;
             forall q :: 0 <= q < |a| && !(at <= q < at + f.nc) ==> a[q] == b[q]
    requires forall k: nat :: k < f.nc && Pos(w, f.nc, x, y, k) < |a| ==>
      a[Pos(w, f.nc, x, y, k)] == Plane(f, ox + x, oy + y, k)
    ensures Painted(f, ox, oy, w, h, a, done + {Pixel(x, y)})
  {
    forall i: nat, j: nat, k: nat | i < w && j < h && k < f.nc
      ensures At(Image(w, h, f.nc, a), i, j, k) ==
        if Pixel(i, j) in done + {Pixel(x, y)} then Plane(f, ox + i, oy + j, k) else 0
    {
      PixelRange(w, f.nc, x, y, i, j, k);
      PosInRange(w, h, f.nc, i, j, k);
      assert At(Image(w, h, f.nc, b), i, j, k) == b[Pos(w, f.nc, i, j, k)];
    }
  }

  /** Tile pixel (u, v) of tile `t` is pixel (t.tx * tw + u, t.ty * th + v) of the plane. */
  lemma PlaneAt(f: TiledFile, t: Tile, u: nat, v: nat, k: nat, x: nat, y: nat)
    requires f.Wf() && t in f.tiles && u < f.tw && v < f.th && k < f.nc
    requires x == t.tx * f.tw + u && y == t.ty * f.th + v
    ensures Pos(f.tw, f.nc, u, v, k) < |f.tiles[t]| && Plane(f, x, y, k) == f.tiles[t][Pos(f.tw, f.nc, u, v, k)]
  {
    PosInRange(f.tw, f.th, f.nc, u, v, k);
    DivModUnique(x, t.tx, f.tw, u);
    DivModUnique(y, t.ty, f.th, v);
  }

  lemma PixelInside(nx: nat, ny: nat, nc: nat, x: nat, y: nat)
    requires x < nx && y < ny
    ensures 0 <= (y * nx + x) * nc && (y * nx + x) * nc + nc <= (ny * nx) * nc
  {
    CellInRange(y, ny, nx, x);
    Multiple(y * nx + x, nc);
    MulMono(y * nx + x + 1, ny * nx, nc);
    assert (y * nx + x + 1) * nc == (y * nx + x) * nc + nc;
  }

  /** A region of fewer than 2^32 samples is painted; of a larger one only the size of the buffer is said. */
  ghost predicate PaintedIfSmall(f: TiledFile, ox: nat, oy: nat, w: nat, h: nat, buf: seq<int>, done: set<Pixel>)
    requires f.tw >= 1 && f.th >= 1
  {
    Multiple(h, w); Multiple(h * w, f.nc);
    |buf| == Word((h * w) * f.nc) && ((h * w) * f.nc < W32 ==> Painted(f, ox, oy, w, h, buf, done))
  }

  ghost predicate AllStored(w: nat, h: nat, nc: nat, done: set<Pixel>) {
    forall p :: p in done ==> Stored(w, h, nc, p.x, p.y)
  }

  /** Paints region pixel (i, j) with tile pixel (u, v); no pixel is painted twice. */
  method PaintPixel(inbuf: array<int>, f: TiledFile, t: Tile, u: nat, v: nat, ghost ox: nat, ghost oy: nat,
                    w: nat, h: nat, i: nat, j: nat, ghost done: set<Pixel>) returns (inside: bool)
    requires f.Wf() && TileFits(f) && t in f.tiles && u < f.tw && v < f.th && i < w && j < h
    requires ox + i == t.tx * f.tw + u && oy + j == t.ty * f.th + v
    requires Pixel(i, j) !in done && PaintedIfSmall(f, ox, oy, w, h, inbuf[..], done)
    modifies inbuf
    ensures inside <==> Stored(w, h, f.nc, i, j)
    ensures inside ==> PaintedIfSmall(f, ox, oy, w, h, inbuf[..], done + {Pixel(i, j)})
  {
    PixelInside(w, h, f.nc, i, j);
    PixelInside(f.tw, f.th, f.nc, u, v);
    ghost var before := inbuf[..];
    var p, from := (j * w + i) * f.nc, (v * f.tw + u) * f.nc;
    inside := PutPixel(inbuf, f.tiles[t], f.nc, Word(from), Word(p));
    StoredAt(w, h, f.nc, i, j, p);
    if inside && (h * w) * f.nc < W32 {
      PixelPainted(f, t, u, v, ox, oy, w, h, i, j, before, done, inbuf[..], p, from);
    }
  }

  /** One pixel copied from `from` of the tile to `at` of the region. */
  lemma PixelPainted(f: TiledFile, t: Tile, u: nat, v: nat, ox: nat, oy: nat, w: nat, h: nat, i: nat, j: nat,
                     b: seq<int>, done: set<Pixel>, a: seq<int>, at: nat, from: nat)
    requires f.Wf() && t in f.tiles && u < f.tw && v < f.th && i < w && j < h && at == (j * w + i) * f.nc &&
      from == (v * f.tw + u) * f.nc
    requires ox + i == t.tx * f.tw + u && oy + j == t.ty * f.th + v && from + f.nc <= |f.tiles[t]|
    requires Painted(f, ox, oy, w, h, b, done) && |a| == |b|
    requires forall q :: 0 <= q < |a| ==> a[q] == if at <= q < at + f.nc then f.tiles[t][from + (q - at)] else b[q]
    ensures Painted(f, ox, oy, w, h, a, done + {Pixel(i, j)})
  {
    forall k: nat | k < f.nc && Pos(w, f.nc, i, j, k) < |a|
      ensures a[Pos(w, f.nc, i, j, k)] == Plane(f, ox + i, oy + j, k)
    {
      PlaneAt(f, t, u, v, k, ox + i, oy + j);
    }
    PaintedStep(f, ox, oy, w, h, b, done, i, j, a);
  }

  lemma StoredAt(w: nat, h: nat, nc: nat, i: nat, j: nat, p: nat)
    requires p == (j * w + i) * nc && 0 <= (h * w) * nc
    ensures (forall k: nat :: k < nc ==> WordPlus(Word(p), k) < Word((h * w) * nc)) <==> Stored(w, h, nc, i, j)
  {
    forall k: nat | k < nc
      ensures WordPlus(Word(p), k) == Word(Pos(w, nc, i, j, k))
    {
      WordAdd(p, k);
    }
  }

  ghost predicate InBox(p: Pixel, x0: nat, x1: nat, y0: nat, y1: nat) { x0 <= p.x < x1 && y0 <= p.y < y1 }

  /** Column `u` of a tile whose corner is at (left, top) of the region. */
  method PlaceColumn(inbuf: array<int>, f: TiledFile, t: Tile, u: nat, ghost ox: nat, ghost oy: nat, w: nat, h: nat,
                     left: nat, top: nat, ghost done: set<Pixel>) returns (inside: bool, ghost all: set<Pixel>)
    requires f.Wf() && TileFits(f) && t in f.tiles && u < f.tw && f.th >= 1 && left + u < w
    requires ox + left == t.tx * f.tw && oy + top == t.ty * f.th
    requires PaintedIfSmall(f, ox, oy, w, h, inbuf[..], done) && AllStored(w, h, f.nc, done)
    requires forall p :: p in done ==> !InBox(p, left + u, left + u + 1, top, top + f.th)
    modifies inbuf
    ensures inside ==> PaintedIfSmall(f, ox, oy, w, h, inbuf[..], all) && AllStored(w, h, f.nc, all)
    ensures inside ==>
      forall p :: p in all <==> p in done || (InBox(p, left + u, left + u + 1, top, top + f.th) && p.y < h)
    ensures !inside ==>
      exists p: Pixel ::
        InBox(p, left, left + f.tw, top, top + f.th) && p.x < w && p.y < h && !Stored(w, h, f.nc, p.x, p.y)
  {
    all := done;
    for v := 0 to f.th
      invariant PaintedIfSmall(f, ox, oy, w, h, inbuf[..], all) && AllStored(w, h, f.nc, all)
      invariant forall p :: p in all <==> p in done || (InBox(p, left + u, left + u + 1, top, top + v) && p.y < h)
    {
      if top + v < h {
        inside := PaintPixel(inbuf, f, t, u, v, ox, oy, w, h, left + u, top + v, all);
        if !inside {
          assert InBox(Pixel(left + u, top + v), left, left + f.tw, top, top + f.th);
          return;
        }
        all := all + {Pixel(left + u, top + v)};
      }
    }
    inside := true;
  }

  /** One tile: the pixels that fall into the region, column by column. */
  method PlaceTile(inbuf: array<int>, f: TiledFile, t: Tile, ghost ox: nat, ghost oy: nat, w: nat, h: nat, left: nat,
                   top: nat, ghost done: set<Pixel>) returns (inside: bool, ghost all: set<Pixel>)
    requires f.Wf() && TileFits(f) && t in f.tiles && f.tw >= 1 && f.th >= 1
    requires ox + left == t.tx * f.tw && oy + top == t.ty * f.th
    requires PaintedIfSmall(f, ox, oy, w, h, inbuf[..], done) && AllStored(w, h, f.nc, done)
    requires forall p :: p in done ==> !InBox(p, left, left + f.tw, top, top + f.th)
    modifies inbuf
    ensures inside ==> PaintedIfSmall(f, ox, oy, w, h, inbuf[..], all) && AllStored(w, h, f.nc, all)
    ensures inside ==>
      forall p :: p in all <==> p in done || (InBox(p, left, left + f.tw, top, top + f.th) && p.x < w && p.y < h)
    ensures !inside ==>
      exists p: Pixel ::
        InBox(p, left, left + f.tw, top, top + f.th) && p.x < w && p.y < h && !Stored(w, h, f.nc, p.x, p.y)
  {
    all := done;
    for u := 0 to f.tw
      invariant PaintedIfSmall(f, ox, oy, w, h, inbuf[..], all) && AllStored(w, h, f.nc, all)
      invariant forall p :: p in all <==> p in done || (InBox(p, left, left + u, top, top + f.th) && p.x < w && p.y < h)
    {
      if left + u < w {
        inside, all := PlaceColumn(inbuf, f, t, u, ox, oy, w, h, left, top, all);
        if !inside { return; }
      }
    }
    inside := true;
  }

  /** The pixels of the first `n` tiles of a row of tiles. */
  function Span(n: int, side: nat): (r: nat)
    ensures n <= 0 ==> r == 0
    ensures n >= 0 ==> r == n * side
  {
    if n <= 0 then 0 else Multiple(n, side); n * side
  }

  lemma SpanStep(n: nat, side: nat)
    ensures Span(n + 1, side) == Span(n, side) + side
  {
    assert (n + 1) * side == n * side + side;
  }

  lemma OffsetSplit(s: nat, t: nat, side: nat)
    requires s <= t
    ensures 0 <= s * side && s * side + Span(t - s, side) == t * side
  {
    Multiple(s, side);
    assert (t - s) * side == t * side - s * side;
  }

  ghost predicate RowPixel(p: Pixel, right: nat, top: nat, th: nat, w: nat, h: nat) {
    InBox(p, 0, right, top, top + th) && p.x < w && p.y < h
  }

  /** Some tile of the columns [sx, ex) and rows [sy, ey) cannot be read. */
  ghost predicate Missing(f: TiledFile, sx: nat, ex: nat, sy: nat, ey: nat) {
    exists t: Tile :: sx <= t.tx < ex && sy <= t.ty < ey && t !in f.tiles
  }

  /** A pixel that the tiles reach is written outside the region buffer. */
  ghost predicate Outside(f: TiledFile, sx: nat, ex: nat, sy: nat, ey: nat, w: nat, h: nat) {
    exists p: Pixel :: RowPixel(p, Span(ex - sx, f.tw), 0, Span(ey - sy, f.th), w, h) && !Stored(w, h, f.nc, p.x, p.y)
  }

  /** A tile is read that does not fit its buffer, or a pixel is written outside the region's. */
  ghost predicate Overruns(f: TiledFile, sx: nat, ex: nat, sy: nat, ey: nat, w: nat, h: nat) {
    (sx < ex && sy < ey && !TileFits(f)) || Outside(f, sx, ex, sy, ey, w, h)
  }

  /** A tile is read that ends, counted from the first one, beyond 2^32. */
  predicate Wraps(f: TiledFile, sx: nat, ex: nat, sy: nat, ey: nat) {
    sx < ex && sy < ey && (Span(ex - sx, f.tw) > W32 || Span(ey - sy, f.th) > W32)
  }

  /** The region buffer: the plane from (sx * tw, sy * th) on, as far as the tiles read reach. */
  ghost predicate Region(f: TiledFile, sx: nat, ex: nat, sy: nat, ey: nat, w: nat, h: nat, px: seq<int>)
    requires f.tw >= 1 && f.th >= 1
  {
    && 0 <= sx * f.tw && 0 <= sy * f.th && |px| == (h * w) * f.nc
    && forall i: nat, j: nat, k: nat :: i < w && j < h && k < f.nc ==>
         At(Image(w, h, f.nc, px), i, j, k)
         == if i < Span(ex - sx, f.tw) && j < Span(ey - sy, f.th) then Plane(f, sx * f.tw + i, sy * f.th + j, k) else 0
  }

  /** Success means that nothing was in the way, and any other result names something that was. */
  ghost predicate RegionResult(f: TiledFile, sx: nat, ex: nat, sy: nat, ey: nat, w: nat, h: nat, r: Result)
    requires f.tw >= 1 && f.th >= 1
  {
    Multiple(h, w); Multiple(h * w, f.nc);
    match r
    case Ok(px) =>
      && !Missing(f, sx, ex, sy, ey) && !Overruns(f, sx, ex, sy, ey, w, h) && !Wraps(f, sx, ex, sy, ey)
      && |px| == Word((h * w) * f.nc) && ((h * w) * f.nc < W32 ==> Region(f, sx, ex, sy, ey, w, h, px))
    case TileFailed(t) => sx <= t.tx < ex && sy <= t.ty < ey && t !in f.tiles
    case Overrun => Overruns(f, sx, ex, sy, ey, w, h)
    case Wrapped => Wraps(f, sx, ex, sy, ey)
    case _ => false
  }

  datatype Status = Going | Stopped(why: Result)

  lemma SpanMono(a: int, b: int, side: nat)
    requires a <= b
    ensures Span(a, side) <= Span(b, side)
  {
    if a > 0 {
      MulMono(a, b, side);
    }
  }

  /** A pixel of tile (tx, ty) that is written outside makes the whole reading overrun. */
  lemma TileOutside(f: TiledFile, sx: nat, ex: nat, sy: nat, ey: nat, w: nat, h: nat, tx: nat, ty: nat, p: Pixel)
    requires sx <= tx < ex && sy <= ty < ey && p.x < w && p.y < h && !Stored(w, h, f.nc, p.x, p.y)
    requires p.x < Span(tx - sx, f.tw) + f.tw && p.y < Span(ty - sy, f.th) + f.th
    ensures Outside(f, sx, ex, sy, ey, w, h)
  {
    SpanStep(tx - sx, f.tw);
    SpanStep(ty - sy, f.th);
    SpanMono(tx - sx + 1, ex - sx, f.tw);
    SpanMono(ty - sy + 1, ey - sy, f.th);
    assert RowPixel(p, Span(ex - sx, f.tw), 0, Span(ey - sy, f.th), w, h);
  }

  lemma TileWraps(f: TiledFile, sx: nat, ex: nat, sy: nat, ey: nat, tx: nat, ty: nat)
    requires sx <= tx < ex && sy <= ty < ey
    requires Span(tx - sx, f.tw) + f.tw > W32 || Span(ty - sy, f.th) + f.th > W32
    ensures Wraps(f, sx, ex, sy, ey)
  {
    SpanStep(tx - sx, f.tw);
    SpanStep(ty - sy, f.th);
    SpanMono(tx - sx + 1, ex - sx, f.tw);
    SpanMono(ty - sy + 1, ey - sy, f.th);
  }

  /** The region pixels of the tile number (a, b) from the first. */
  ghost predicate TilePixel(p: Pixel, f: TiledFile, a: nat, b: nat) {
    InBox(p, Span(a, f.tw), Span(a, f.tw) + f.tw, Span(b, f.th), Span(b, f.th) + f.th)
  }

  /** Reads tile (tx, ty) into the tile buffer and copies its pixels. */
  method ReadTile(inbuf: array<int>, f: TiledFile, sx: nat, ghost ex: nat, sy: nat, ghost ey: nat, tx: nat, ty: nat,
                  ghost ox: nat, ghost oy: nat, w: nat, h: nat, ghost done: set<Pixel>)
    returns (s: Status, ghost all: set<Pixel>)
    requires f.Wf() && f.tw >= 1 && f.th >= 1 && sx <= tx < ex && sy <= ty < ey && ox == sx * f.tw && oy == sy * f.th
    requires PaintedIfSmall(f, ox, oy, w, h, inbuf[..], done) && AllStored(w, h, f.nc, done)
    requires forall p :: p in done ==> !TilePixel(p, f, tx - sx, ty - sy)
    modifies inbuf
    ensures s.Stopped? ==> !s.why.Ok? && RegionResult(f, sx, ex, sy, ey, w, h, s.why)
    ensures s.Going? ==> Tile(tx, ty) in f.tiles && TileFits(f)
    ensures s.Going? ==> Span(tx - sx, f.tw) + f.tw <= W32 && Span(ty - sy, f.th) + f.th <= W32
    ensures s.Going? ==> PaintedIfSmall(f, ox, oy, w, h, inbuf[..], all) && AllStored(w, h, f.nc, all)
    ensures s.Going? ==>
      forall p :: p in all <==> (p in done || (TilePixel(p, f, tx - sx, ty - sy) && p.x < w && p.y < h))
  {
    all := done;
    if Tile(tx, ty) !in f.tiles {
      return Stopped(TileFailed(Tile(tx, ty))), all;
    }
    TileFitsIff(f);
    if |f.tiles[Tile(tx, ty)]| > TileBuffer(f) {
      return Stopped(Overrun), all;
    }
    OffsetSplit(sx, tx, f.tw);
    OffsetSplit(sy, ty, f.th);
    var left, top := (tx - sx) * f.tw, (ty - sy) * f.th;
    if left + f.tw > W32 || top + f.th > W32 {
      TileWraps(f, sx, ex, sy, ey, tx, ty);
      return Stopped(Wrapped), all;
    }
    var inside;
    inside, all := PlaceTile(inbuf, f, Tile(tx, ty), ox, oy, w, h, left, top, all);
    if !inside {
      ghost var p: Pixel :| InBox(p, left, left + f.tw, top, top + f.th) && p.x < w && p.y < h &&
        !Stored(w, h, f.nc, p.x, p.y);
      TileOutside(f, sx, ex, sy, ey, w, h, tx, ty, p);
      return Stopped(Overrun), all;
    }
    s := Going;
  }

  /** Tile row `ty` from tile `sx` up to `ex`. */
  method ReadRow(inbuf: array<int>, f: TiledFile, sx: nat, ex: nat, sy: nat, ghost ey: nat, ty: nat, ghost ox: nat,
                 ghost oy: nat, w: nat, h: nat, ghost done: set<Pixel>) returns (s: Status, ghost all: set<Pixel>)
    requires f.Wf() && f.tw >= 1 && f.th >= 1 && sy <= ty < ey && ox == sx * f.tw && oy == sy * f.th
    requires PaintedIfSmall(f, ox, oy, w, h, inbuf[..], done) && AllStored(w, h, f.nc, done)
    requires forall p :: p in done ==> p.y < Span(ty - sy, f.th)
    modifies inbuf
    ensures s.Stopped? ==> !s.why.Ok? && RegionResult(f, sx, ex, sy, ey, w, h, s.why)
    ensures s.Going? ==> forall tx: nat :: sx <= tx < ex ==> Tile(tx, ty) in f.tiles
    ensures s.Going? && sx < ex ==> TileFits(f) && Span(ex - sx, f.tw) <= W32 && Span(ty - sy, f.th) + f.th <= W32
    ensures s.Going? ==> PaintedIfSmall(f, ox, oy, w, h, inbuf[..], all) && AllStored(w, h, f.nc, all)
    ensures s.Going? ==>
      forall p :: p in all <==> (p in done || RowPixel(p, Span(ex - sx, f.tw), Span(ty - sy, f.th), f.th, w, h))
  {
    all, s := done, Going;
    var tx := sx;
    while tx < ex
      invariant sx <= tx && (if sx <= ex then tx <= ex else tx == sx) && s.Going?
      invariant forall x: nat :: sx <= x < tx ==> Tile(x, ty) in f.tiles
      invariant sx < tx ==> TileFits(f) && Span(tx - sx, f.tw) <= W32 && Span(ty - sy, f.th) + f.th <= W32
      invariant PaintedIfSmall(f, ox, oy, w, h, inbuf[..], all) && AllStored(w, h, f.nc, all)
      invariant forall p ::
        p in all <==> (p in done || RowPixel(p, Span(tx - sx, f.tw), Span(ty - sy, f.th), f.th, w, h))
    {
      SpanStep(tx - sx, f.tw);
      s, all := ReadTile(inbuf, f, sx, ex, sy, ey, tx, ty, ox, oy, w, h, all);
      if s.Stopped? { return; }
      tx := tx + 1;
    }
  }

  method ReadRegion(f: TiledFile, sx: nat, ex: nat, sy: nat, ey: nat, w: nat, h: nat) returns (r: Result)
    requires f.Wf() && f.tw >= 1 && f.th >= 1
    ensures RegionResult(f, sx, ex, sy, ey, w, h, r)
  {
    Offset(h, w);
    Offset(h * w, f.nc);
    Offset(sx, f.tw);
    Offset(sy, f.th);
    var inbuf := new int[Word((h * w) * f.nc)](_ => 0);
    ghost var ox, oy, right := sx * f.tw, sy * f.th, Span(ex - sx, f.tw);
    ghost var done: set<Pixel> := {};
    BlankIsPainted(f, ox, oy, w, h, inbuf[..]);
    var ty := sy;
    while ty < ey
      invariant sy <= ty && (if sy <= ey then ty <= ey else ty == sy)
      invariant forall t: Tile :: sx <= t.tx < ex && sy <= t.ty < ty ==> t in f.tiles
      invariant sx < ex && sy < ty ==> TileFits(f) && right <= W32 && Span(ty - sy, f.th) <= W32
      invariant PaintedIfSmall(f, ox, oy, w, h, inbuf[..], done) && AllStored(w, h, f.nc, done)
      invariant forall p :: p in done <==> RowPixel(p, right, 0, Span(ty - sy, f.th), w, h)
    {
      SpanStep(ty - sy, f.th);
      var s;
      s, done := ReadRow(inbuf, f, sx, ex, sy, ey, ty, ox, oy, w, h, done);
      if s.Stopped? {
        return s.why;
      }
      assert forall t: Tile :: sx <= t.tx < ex && t.ty == ty ==> Tile(t.tx, ty) in f.tiles;
      ty := ty + 1;
    }
    RegionOf(f, sx, ex, sy, ey, w, h, inbuf[..], done);
    r := Ok(inbuf[..]);
  }

  lemma RegionOf(f: TiledFile, sx: nat, ex: nat, sy: nat, ey: nat, w: nat, h: nat, buf: seq<int>, done: set<Pixel>)
    requires f.tw >= 1 && f.th >= 1 && 0 <= sx * f.tw && 0 <= sy * f.th
    requires PaintedIfSmall(f, sx * f.tw, sy * f.th, w, h, buf, done) && AllStored(w, h, f.nc, done)
    requires forall p :: p in done <==> RowPixel(p, Span(ex - sx, f.tw), 0, Span(ey - sy, f.th), w, h)
    ensures !Outside(f, sx, ex, sy, ey, w, h)
    ensures (h * w) * f.nc < W32 ==> Region(f, sx, ex, sy, ey, w, h, buf)
  {
  }

  lemma BlankIsPainted(f: TiledFile, ox: nat, oy: nat, w: nat, h: nat, buf: seq<int>)
    requires f.tw >= 1 && f.th >= 1 && 0 <= (h * w) * f.nc && |buf| == Word((h * w) * f.nc)
    requires forall q :: 0 <= q < |buf| ==> buf[q] == 0
    ensures PaintedIfSmall(f, ox, oy, w, h, buf, {})
  {
    if (h * w) * f.nc < W32 {
      forall i: nat, j: nat, k: nat | i < w && j < h && k < f.nc
        ensures At(Image(w, h, f.nc, buf), i, j, k) == 0
      {
        PosInRange(w, h, f.nc, i, j, k);
      }
    }
  }

  // ---------------------------------------------------------------- the reader

  /** The tolerant divisions give tile numbers. */
  lemma TileNumbers(a: nat, side: nat)
    requires side >= 1
    ensures 0 <= EpsilonFloor(a, side) && 0 <= EpsilonCeil(a, side)
  {
    EpsilonFloorIs(a, side);
    EpsilonCeilIs(a, side);
  }

  /** The tile number of the region's first sample, and the one after its last. */
  function FirstTile(a: nat, side: nat): nat
    requires side >= 1
  {
    TileNumbers(a, side);
    EpsilonFloor(a, side)
  }

  function EndTile(a: nat, n: nat, side: nat): nat
    requires side >= 1
  {
    TileNumbers(Word(a + n), side);
    EpsilonCeil(Word(a + n), side)
  }

  /** The tile count the reader expects, in 32 bits. */
  function Expected(f: TiledFile): nat
    requires f.tw >= 1 && f.th >= 1
  {
    TileNumbers(f.nx, f.tw); TileNumbers(f.ny, f.th);
    Multiple(EpsilonCeil(f.nx, f.tw), EpsilonCeil(f.ny, f.th));
    Word(EpsilonCeil(f.nx, f.tw) * EpsilonCeil(f.ny, f.th))
  }

  /** `r` is what the reader returns for the region at (x, y) of size w by h. */
  ghost predicate Reads(f: TiledFile, x: nat, y: nat, w: nat, h: nat, r: Result) {
    if f.tw == 0 || f.th == 0 then r == NoTileSize
    else if Word(f.count) != Expected(f) then r == TileCount
    else if f.bps != 8 && f.bps != 16 then r == BitDepth
    else RegionResult(f, FirstTile(x, f.tw), EndTile(x, w, f.tw), FirstTile(y, f.th), EndTile(y, h, f.th), w, h, r)
  }

  /** `read_tiled_data`. */
  method ReadTiledData(f: TiledFile, x: nat, y: nat, w: nat, h: nat) returns (r: Result)
    requires f.Wf()
    ensures Reads(f, x, y, w, h, r)
  {
    if f.tw == 0 || f.th == 0 {
      return NoTileSize;
    }
    if Word(f.count) != Expected(f) {
      return TileCount;
    }
    if f.bps != 8 && f.bps != 16 {
      return BitDepth;
    }
    r := ReadRegion(f, FirstTile(x, f.tw), EndTile(x, w, f.tw), FirstTile(y, f.th), EndTile(y, h, f.th), w, h);
  }
}
