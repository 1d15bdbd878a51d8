/**
 The in-memory image (src/SipiImage.cpp): rotation and mirroring, bringing it upright,
 scaling and conversion to black and white, each replacing the pixel buffer of the object.
 */
module SipiImageClass {
  import opened Picture
  import opened Orientation
  import opened AxisWeights
  import Resampler
  import ResampleLaws
  import ResampleError
  import ResamplePlaces
  import Dither

  predicate Supported(bps: nat) { bps == 8 || bps == 16 }

  class SipiImage {
    var nx: nat
    var ny: nat
    var nc: nat
    var bps: nat
    var orientation: nat
    /** The samples, bytes or 16-bit words. */
    var pixels: seq<int>

    ghost function Picture(): Image
      reads this
    {
      Image(nx, ny, nc, pixels)
    }

    /** Brings an angle that is a multiple of 90 degrees into [0, 360). */
    method NormalAngle(angle: real, ghost q: int) returns (a: real)
      requires angle == 90.0 * (q as real)
      ensures a == 90.0 * ((q % 4) as real)
    {
      a := angle;
      ghost var n := q;
      while a < 0.0
        invariant a == 90.0 * (n as real) && n % 4 == q % 4
        decreases -n
      {
        a := a + 360.0;
        n := n + 4;
      }
      while a >= 360.0
        invariant a == 90.0 * (n as real) && n % 4 == q % 4 && 0 <= n
        decreases n
      {
        a := a - 360.0;
        n := n - 4;
      }
    }

    /** Moves the buffer by one rearrangement and updates the dimensions; other bit depths change only those. */
    method TurnBy(t: Turn)
      requires Picture().Wf()
      modifies this`pixels, this`nx, this`ny
      ensures nx == Width(t, old(nx), old(ny)) && ny == Height(t, old(nx), old(ny))
      ensures if Supported(bps) then Turned(old(Picture()), t, Picture()) else pixels == old(pixels)
    {
      if bps == 8 || bps == 16 {
        pixels := TurnBuffer(Image(nx, ny, nc, pixels), t);
      }
      nx, ny := Width(t, nx, ny), Height(t, nx, ny);
    }

    /** `rotate` by a multiple of 90 degrees (`q` quarters), mirroring first if asked. */
    method Rotate(angle: real, mirror: bool, ghost q: int) returns (ok: bool)
      requires angle == 90.0 * (q as real) && Picture().Wf()
      modifies this`pixels, this`nx, this`ny
      ensures ok <==> Supported(bps) || !mirror
      ensures Supported(bps) ==> Rotated(old(Picture()), Element(mirror, q % 4), Picture())
      ensures !Supported(bps) ==> pixels == old(pixels)
      ensures !ok ==> Picture() == old(Picture())
      ensures ok ==> nx == Width(TurnOf(q % 4), old(nx), old(ny)) && ny == Height(TurnOf(q % 4), old(nx), old(ny))
    {
      ok := true;
      if mirror {
        if bps == 8 || bps == 16 {
          pixels := TurnBuffer(Image(nx, ny, nc, pixels), Turn.Mirror);
        } else {
          ok := false;
          return;
        }
      }
      ghost var mid := Picture();
      var a := NormalAngle(angle, q);
      if a == 90.0 {
        TurnBy(Turn90);
      } else if a == 180.0 {
        TurnBy(Turn180);
      } else if a == 270.0 {
        TurnBy(Turn270);
      }
      if bps == 8 || bps == 16 {
        MirrorThenTurn(old(Picture()), mirror, mid, q % 4, Picture());
      }
    }

    /** Turns the image so that its first row is the visual top and its first column the visual left. */
    method SetTopleft()
      requires Picture().Wf()
      modifies this
      ensures orientation == 1 && nc == old(nc) && bps == old(bps)
      ensures Supported(bps) && 1 <= old(orientation) <= 8 ==> Upright(old(Picture()), old(orientation), Picture())
      ensures !Supported(bps) ==> pixels == old(pixels)
      ensures !Supported(bps) ==>
        (nx, ny) == if old(orientation) in {6, 8} then (old(ny), old(nx)) else (old(nx), old(ny))
      ensures !(1 <= old(orientation) <= 8) ==> Picture() == old(Picture())
    {
      if orientation == 1 {
        UprightIdentity(Picture());
        return;
      } else if orientation == 2 {
        var ok := Rotate(0.0, true, 0);
      } else if orientation == 3 {
        var ok := Rotate(180.0, false, 2);
      } else if orientation == 4 {
        var ok := Rotate(180.0, true, 2);
      } else if orientation == 5 {
        var ok := Rotate(270.0, true, 3);
      } else if orientation == 6 {
        var ok := Rotate(90.0, false, 1);
      } else if orientation == 7 {
        var ok := Rotate(90.0, true, 1);
      } else if orientation == 8 {
        var ok := Rotate(270.0, false, 3);
      }
      if Supported(bps) && 1 <= orientation <= 8 {
        RotatedIsUpright(old(Picture()), orientation, Picture());
      }
      orientation := 1;
    }

    /** `scale`: refuses degenerate sizes and other bit depths, and otherwise resamples both axes. */
    method Scale(nnx: nat, nny: nat, lanes: nat) returns (ok: bool, ghost wx: Weights, ghost wy: Weights)
      requires Picture().Wf() && nc >= 1 && lanes >= 1
      requires Supported(bps) ==> Resampler.Samples(pixels, MaxSample(bps))
      modifies this`pixels, this`nx, this`ny
      ensures ok <==> nnx > 1 && nny > 1 && old(nx) > 1 && old(ny) > 1 && Supported(bps)
      ensures !ok ==> Picture() == old(Picture())
      ensures ok ==> Scaled(old(Picture()), MaxSample(bps), nnx, nny, wx, wy, Picture())
    {
      ok, wx, wy := false, Weights([], [], []), Weights([], [], []);
      if nnx <= 1 || nny <= 1 || nx <= 1 || ny <= 1 {
        return;
      }
      var h := BuildAxisWeights(nx, nnx);
      var v := BuildAxisWeights(ny, nny);
      if bps != 8 && bps != 16 {
        return;
      }
      RowLength(nx, ny, nc);
      RowLength(nnx, nny, nc);
      ResampleLaws.BuiltIsSafe(h, nx, nnx);
      ResampleLaws.BuiltIsSafe(v, ny, nny);
      var out := Resampler.ResampleSeparable(pixels, nx, ny, nc, nnx, nny, h, v, MaxSample(bps), lanes);
      ScaledBy(Image(nx, ny, nc, pixels), MaxSample(bps), nnx, nny, h, v, Image(nnx, nny, nc, out));
      pixels, nx, ny := out, nnx, nny;
      ok, wx, wy := true, h, v;
    }

    /** `toBitonal` of a grey 8-bit image; `v` are the values the pixels have when they are decided. */
    method ToBitonal() returns (ghost v: seq<int>)
      requires bps == 8 && ny * nx <= |pixels| && Dither.Bytes(pixels)
      modifies this`pixels
      ensures |pixels| == old(|pixels|) && pixels[ny * nx..] == old(pixels[ny * nx..])
      ensures nx >= 1 ==> Dither.Dithered(old(pixels[..ny * nx]), nx, v, pixels[..ny * nx])
    {
      var n := ny * nx;
      var doit := false;
      for i := 0 to n
        invariant doit <==> !Dither.Bitonal(pixels[..i])
      {
        assert pixels[..i + 1] == pixels[..i] + [pixels[i]];
        if !doit && pixels[i] != 0 && pixels[i] != 255 {
          doit := true;
        }
      }
      v := pixels[..n];
      if !doit {
        if nx >= 1 { Dither.BitonalFixed(pixels[..n], nx); }
        return;
      }
      assert n > 0;
      NonZeroFactor(ny, nx);
      v := Diffuse(n);
    }

    method Diffuse(n: nat) returns (ghost v: seq<int>)
      requires nx >= 1 && n == ny * nx <= |pixels| && Dither.Bytes(pixels)
      modifies this`pixels
      ensures |pixels| == old(|pixels|) && pixels[n..] == old(pixels[n..])
      ensures Dither.Dithered(old(pixels[..n]), nx, v, pixels[..n])
    {
      var outbuf := new int[n];
      for i := 0 to n
        invariant pixels == old(pixels) && outbuf[..i] == pixels[..i]
      {
        outbuf[i] := pixels[i];
      }
      assert outbuf[..] == pixels[..n];
      v := Dither.DiffuseAll(outbuf, nx, ny);
      pixels := outbuf[..] + pixels[n..];
    }
  }

  function MaxSample(bps: nat): int { if bps == 16 then 65535 else 255 }

  lemma RowLength(nx: nat, ny: nat, nc: nat)
    ensures (ny * nx) * nc == ny * (nx * nc)
  {
  }

  /** The samples of a scaled image are those of the resampler with weights that the builder may deliver. */
  ghost predicate ScaledWith(img: Image, maxval: int, nnx: nat, nny: nat, h: Weights, v: Weights, res: Image)
    requires img.nc >= 1 && img.nx >= 1 && img.ny >= 1 && nnx >= 1
  {
    && res.Wf() && res.nx == nnx && res.ny == nny && res.nc == img.nc
    && BuiltFor(h, img.nx, nnx) && BuiltFor(v, img.ny, nny)
    && res.px == Resampler.Resampled(img.px, img.nx, img.ny, img.nc, nnx, nny, h, v, maxval)
  }

  /** A range of a channel survives: always a single value, and any range if no axis shrinks more than 181 times. */
  ghost predicate KeepsRanges(img: Image, maxval: int, res: Image)
    requires img.nc >= 1
  {
    forall k: nat, lo: int, hi: int :: 0 <= lo <= hi <= maxval && ResampleLaws.ChannelBetween(img.px, img.nc, k, lo, hi)
      && (lo == hi || (ResampleLaws.Gentle(img.nx, res.nx) && ResampleLaws.Gentle(img.ny, res.ny)))
      ==> ResampleLaws.ChannelBetween(res.px, img.nc, k, lo, hi)
  }

  /** A darker image scales to a darker one, under the same bound on the shrinking. */
  ghost predicate Monotone(img: Image, maxval: int, h: Weights, v: Weights, res: Image)
    requires img.nc >= 1 && img.nx >= 1 && img.ny >= 1 && res.nx >= 1 && BuiltFor(h, img.nx, res.nx) &&
      BuiltFor(v, img.ny, res.ny)
  {
    ResampleLaws.Gentle(img.nx, res.nx) && ResampleLaws.Gentle(img.ny, res.ny) ==>
      forall px: seq<int> :: ResampleLaws.Below(px, img.px) ==>
        ResampleLaws.Below(Resampler.Resampled(px, img.nx, img.ny, img.nc, res.nx, res.ny, h, v, maxval), res.px)
  }

  /** A sample is near the exact average of the source under the kernels of its column and row. */
  ghost predicate NearIdeal(img: Image, maxval: int, h: Weights, v: Weights, res: Image, col: nat, row: nat, c: nat)
    requires img.nx >= 1 && img.ny >= 1 && BuiltFor(h, img.nx, res.nx) && BuiltFor(v, img.ny, res.ny) && res.Wf()
    requires res.nc == img.nc && col < res.nx && row < res.ny && c < res.nc
  {
    var gx := ResampleError.WeightsOf(KernelOf(img.nx, res.nx, col));
    var gy := ResampleError.WeightsOf(KernelOf(img.ny, res.ny, row));
    ResampleError.Abs(At(res, col, row, c) as real - ResampleError.Ideal(gx, gy, img.px, img.nx, img.ny, img.nc, c))
    <= ResampleError.TotalError(|Ids(h, col)|, |Ids(v, row)|, maxval)
  }

  /** Every sample is. */
  ghost predicate Accurate(img: Image, maxval: int, h: Weights, v: Weights, res: Image)
    requires img.nx >= 1 && img.ny >= 1 && BuiltFor(h, img.nx, res.nx) && BuiltFor(v, img.ny, res.ny) && res.Wf() &&
      res.nc == img.nc
  {
    forall col: nat, row: nat, c: nat :: col < res.nx && row < res.ny && c < res.nc ==>
      NearIdeal(img, maxval, h, v, res, col, row, c)
  }

  /** Pixel (col, row) of the result is pixel (x, y) of the source. */
  ghost predicate SamePixel(img: Image, x: nat, y: nat, res: Image, col: nat, row: nat)
    requires img.Wf() && res.Wf() && res.nc == img.nc && x < img.nx && y < img.ny && col < res.nx && row < res.ny
  {
    forall k: nat :: k < img.nc ==> At(res, col, row, k) == At(img, x, y, k)
  }

  /** An image that shrinks on no axis keeps its four corner pixels in their corners. */
  ghost predicate CornersStay(img: Image, res: Image)
    requires img.Wf() && res.Wf() && res.nc == img.nc
  {
    1 <= img.nx <= res.nx && 1 <= img.ny <= res.ny ==>
      && SamePixel(img, 0, 0, res, 0, 0)
      && SamePixel(img, img.nx - 1, 0, res, res.nx - 1, 0)
      && SamePixel(img, 0, img.ny - 1, res, 0, res.ny - 1)
      && SamePixel(img, img.nx - 1, img.ny - 1, res, res.nx - 1, res.ny - 1)
  }

  /** (x, y) falls on pixel (q x, r y) when q and r whole steps of the result make one of the source. */
  ghost predicate OnGrid(img: Image, res: Image, q: nat, r: nat, x: nat, y: nat) {
    && q >= 1 && r >= 1 && res.nx - 1 == q * (img.nx - 1) && res.ny - 1 == r * (img.ny - 1)
    && x < img.nx && y < img.ny && 0 <= q * x < res.nx && 0 <= r * y < res.ny
  }

  /** Pixels that fall on the grid of the result are kept. */
  ghost predicate GridStays(img: Image, res: Image)
    requires img.Wf() && res.Wf() && res.nc == img.nc
  {
    forall q: nat, r: nat, x: nat, y: nat :: OnGrid(img, res, q, r, x, y) ==> SamePixel(img, x, y, res, q * x, r * y)
  }

  /** No sample falls from left to right. */
  ghost predicate RowsRise(img: Image)
    requires img.Wf()
  {
    forall x: nat, x': nat, y: nat, k: nat :: x <= x' < img.nx && y < img.ny && k < img.nc ==>
      At(img, x, y, k) <= At(img, x', y, k)
  }

  /** No sample falls from top to bottom. */
  ghost predicate ColumnsRise(img: Image)
    requires img.Wf()
  {
    forall x: nat, y: nat, y': nat, k: nat :: x < img.nx && y <= y' < img.ny && k < img.nc ==>
      At(img, x, y, k) <= At(img, x, y', k)
  }

  /** Left stays left and top stays top. */
  ghost predicate InOrder(img: Image, res: Image)
    requires img.Wf() && res.Wf() && res.nc == img.nc
  {
    && CornersStay(img, res) && GridStays(img, res)
    && (ResampleLaws.Gentle(img.nx, res.nx) && ResampleLaws.Gentle(img.ny, res.ny) ==>
          (RowsRise(img) ==> RowsRise(res)) && (ColumnsRise(img) ==> ColumnsRise(res)))
  }

  lemma SampleIsAt(img: Image, x: nat, y: nat, k: nat)
    requires img.Wf() && x < img.nx && y < img.ny && k < img.nc
    ensures ResamplePlaces.Sample(img.px, img.nx, img.nc, x, y, k) == At(img, x, y, k)
  {
    PosInRange(img.nx, img.ny, img.nc, x, y, k);
    PosSplits(img.nx, img.nc, x, y, k);
  }

  lemma SamePixels(img: Image, x: nat, y: nat, res: Image, col: nat, row: nat)
    requires img.Wf() && res.Wf() && res.nc == img.nc && x < img.nx && y < img.ny && col < res.nx && row < res.ny
    requires ResamplePlaces.SamePixel(res.px, res.nx, col, row, img.px, img.nx, x, y, img.nc)
    ensures SamePixel(img, x, y, res, col, row)
  {
    forall k: nat | k < img.nc
      ensures At(res, col, row, k) == At(img, x, y, k)
    {
      SampleIsAt(img, x, y, k);
      SampleIsAt(res, col, row, k);
    }
  }

  lemma RisingRows(img: Image)
    requires img.Wf()
    ensures RowsRise(img) <==> ResamplePlaces.RowsRise(img.px, img.nx, img.ny, img.nc)
  {
    forall x: nat, y: nat, k: nat | x < img.nx && y < img.ny && k < img.nc
      ensures ResamplePlaces.Sample(img.px, img.nx, img.nc, x, y, k) == At(img, x, y, k)
    {
      SampleIsAt(img, x, y, k);
    }
  }

  lemma RisingColumns(img: Image)
    requires img.Wf()
    ensures ColumnsRise(img) <==> ResamplePlaces.ColumnsRise(img.px, img.nx, img.ny, img.nc)
  {
    forall x: nat, y: nat, k: nat | x < img.nx && y < img.ny && k < img.nc
      ensures ResamplePlaces.Sample(img.px, img.nx, img.nc, x, y, k) == At(img, x, y, k)
    {
      SampleIsAt(img, x, y, k);
    }
  }

  lemma CornerStays(img: Image, maxval: int, h: Weights, v: Weights, res: Image, right: bool, bottom: bool)
    requires img.Wf() && res.Wf() && img.nc >= 1 && 1 <= img.nx <= res.nx && 1 <= img.ny <= res.ny && maxval >= 0
    requires BuiltFor(h, img.nx, res.nx) && BuiltFor(v, img.ny, res.ny) && Resampler.Samples(img.px, maxval)
    requires res.nc == img.nc
    requires res.px == Resampler.Resampled(img.px, img.nx, img.ny, img.nc, res.nx, res.ny, h, v, maxval)
    ensures SamePixel(img, ResamplePlaces.End(img.nx, right), ResamplePlaces.End(img.ny, bottom),
                      res, ResamplePlaces.End(res.nx, right), ResamplePlaces.End(res.ny, bottom))
  {
    ResamplePlaces.CornersKept(img.px, img.nx, img.ny, img.nc, res.nx, res.ny, h, v, maxval, right, bottom);
    SamePixels(img, ResamplePlaces.End(img.nx, right), ResamplePlaces.End(img.ny, bottom),
               res, ResamplePlaces.End(res.nx, right), ResamplePlaces.End(res.ny, bottom));
  }

  lemma ScaledCornersStay(img: Image, maxval: int, h: Weights, v: Weights, res: Image)
    requires img.Wf() && res.Wf() && img.nc >= 1 && img.nx >= 1 && img.ny >= 1 && res.nx >= 1 && maxval >= 0
    requires BuiltFor(h, img.nx, res.nx) && BuiltFor(v, img.ny, res.ny) && Resampler.Samples(img.px, maxval)
    requires res.nc == img.nc
    requires res.px == Resampler.Resampled(img.px, img.nx, img.ny, img.nc, res.nx, res.ny, h, v, maxval)
    ensures CornersStay(img, res)
  {
    if img.nx <= res.nx && img.ny <= res.ny {
      CornerStays(img, maxval, h, v, res, false, false);
      CornerStays(img, maxval, h, v, res, true, false);
      CornerStays(img, maxval, h, v, res, false, true);
      CornerStays(img, maxval, h, v, res, true, true);
    }
  }

  lemma ScaledGridStays(img: Image, maxval: int, h: Weights, v: Weights, res: Image)
    requires img.Wf() && res.Wf() && img.nc >= 1 && img.nx >= 1 && img.ny >= 1 && res.nx >= 1 && maxval >= 0
    requires BuiltFor(h, img.nx, res.nx) && BuiltFor(v, img.ny, res.ny) && Resampler.Samples(img.px, maxval)
    requires res.nc == img.nc
    requires res.px == Resampler.Resampled(img.px, img.nx, img.ny, img.nc, res.nx, res.ny, h, v, maxval)
    ensures GridStays(img, res)
  {
    forall q: nat, r: nat, x: nat, y: nat | OnGrid(img, res, q, r, x, y)
      ensures SamePixel(img, x, y, res, q * x, r * y)
    {
      ResamplePlaces.GridPixelsKept(img.px, img.nx, img.ny, img.nc, res.nx, res.ny, h, v, maxval, q, r, x, y);
      SamePixels(img, x, y, res, q * x, r * y);
    }
  }

  lemma ScaledInOrder(img: Image, maxval: int, h: Weights, v: Weights, res: Image)
    requires img.Wf() && res.Wf() && img.nc >= 1 && img.nx >= 1 && img.ny >= 1 && res.nx >= 1 && maxval >= 0
    requires BuiltFor(h, img.nx, res.nx) && BuiltFor(v, img.ny, res.ny) && Resampler.Samples(img.px, maxval)
    requires res.nc == img.nc
    requires res.px == Resampler.Resampled(img.px, img.nx, img.ny, img.nc, res.nx, res.ny, h, v, maxval)
    ensures InOrder(img, res)
  {
    ScaledCornersStay(img, maxval, h, v, res);
    ScaledGridStays(img, maxval, h, v, res);
    RisingRows(img);
    RisingRows(res);
    RisingColumns(img);
    RisingColumns(res);
    if ResampleLaws.Gentle(img.nx, res.nx) && ResampleLaws.Gentle(img.ny, res.ny) {
      ResamplePlaces.StillRises(img.px, img.nx, img.ny, img.nc, res.nx, res.ny, h, v, maxval);
    }
  }

  /** What a scaled image promises. */
  ghost predicate Scaled(img: Image, maxval: int, nnx: nat, nny: nat, h: Weights, v: Weights, res: Image)
    requires img.nc >= 1 && img.nx >= 1 && img.ny >= 1 && nnx >= 1
  {
    && ScaledWith(img, maxval, nnx, nny, h, v, res)
    && KeepsRanges(img, maxval, res) && Monotone(img, maxval, h, v, res) && Accurate(img, maxval, h, v, res)
    && (nnx == img.nx && nny == img.ny ==> res.px == img.px)
    && img.Wf() && InOrder(img, res)
  }

  /**
   Resampling with built weights keeps ranges, order and an unchanged size, is near the exact average, and
   leaves everything in its place.
   */
  lemma ScaledBy(img: Image, maxval: int, nnx: nat, nny: nat, h: Weights, v: Weights, res: Image)
    requires img.Wf() && img.nc >= 1 && img.nx >= 1 && img.ny >= 1 && nnx >= 1 && nny >= 1 && maxval >= 0
    requires BuiltFor(h, img.nx, nnx) && BuiltFor(v, img.ny, nny) && Resampler.Samples(img.px, maxval)
    requires res.nx == nnx && res.ny == nny && res.nc == img.nc
    requires res.px == Resampler.Resampled(img.px, img.nx, img.ny, img.nc, nnx, nny, h, v, maxval)
    ensures Scaled(img, maxval, nnx, nny, h, v, res)
  {
    RowLength(img.nx, img.ny, img.nc);
    RowLength(nnx, nny, img.nc);
    ScaledKeepsRanges(img, maxval, h, v, res);
    ScaledIsMonotone(img, maxval, h, v, res);
    ScaledIsAccurate(img, maxval, h, v, res);
    ScaledInOrder(img, maxval, h, v, res);
    if nnx == img.nx && nny == img.ny {
      ResampleLaws.ResampledIdentity(img.px, img.nx, img.ny, img.nc, h, v, maxval);
    }
  }

  lemma ScaledKeepsRanges(img: Image, maxval: int, h: Weights, v: Weights, res: Image)
    requires img.Wf() && img.nc >= 1 && img.nx >= 1 && img.ny >= 1 && res.nx >= 1
    requires BuiltFor(h, img.nx, res.nx) && BuiltFor(v, img.ny, res.ny)
    requires res.px == Resampler.Resampled(img.px, img.nx, img.ny, img.nc, res.nx, res.ny, h, v, maxval)
    ensures KeepsRanges(img, maxval, res)
  {
    RowLength(img.nx, img.ny, img.nc);
    forall k: nat, lo: int, hi: int | 0 <= lo <= hi <= maxval && ResampleLaws.ChannelBetween(img.px, img.nc, k, lo, hi)
        && (lo == hi || (ResampleLaws.Gentle(img.nx, res.nx) && ResampleLaws.Gentle(img.ny, res.ny)))
      ensures ResampleLaws.ChannelBetween(res.px, img.nc, k, lo, hi)
    {
      ResampleLaws.ResampledBetween(img.px, img.nx, img.ny, img.nc, res.nx, res.ny, h, v, maxval, k, lo, hi);
    }
  }

  lemma ScaledIsMonotone(img: Image, maxval: int, h: Weights, v: Weights, res: Image)
    requires img.nc >= 1 && img.nx >= 1 && img.ny >= 1 && res.nx >= 1 && maxval >= 0
    requires BuiltFor(h, img.nx, res.nx) && BuiltFor(v, img.ny, res.ny)
    requires res.px == Resampler.Resampled(img.px, img.nx, img.ny, img.nc, res.nx, res.ny, h, v, maxval)
    ensures Monotone(img, maxval, h, v, res)
  {
    forall px: seq<int> | ResampleLaws.Below(px, img.px) && ResampleLaws.Gentle(img.nx, res.nx) &&
      ResampleLaws.Gentle(img.ny, res.ny)
      ensures ResampleLaws.Below(Resampler.Resampled(px, img.nx, img.ny, img.nc, res.nx, res.ny, h, v, maxval), res.px)
    {
      ResampleLaws.ResampledMonotone(px, img.px, img.nx, img.ny, img.nc, res.nx, res.ny, h, v, maxval);
    }
  }

  lemma ScaledIsAccurate(img: Image, maxval: int, h: Weights, v: Weights, res: Image)
    requires img.Wf() && res.Wf() && img.nc >= 1 && img.nx >= 1 && img.ny >= 1 && res.nx >= 1 && maxval >= 0 &&
      res.nc == img.nc
    requires BuiltFor(h, img.nx, res.nx) && BuiltFor(v, img.ny, res.ny) && Resampler.Samples(img.px, maxval)
    requires res.px == Resampler.Resampled(img.px, img.nx, img.ny, img.nc, res.nx, res.ny, h, v, maxval)
    ensures Accurate(img, maxval, h, v, res)
  {
    forall col: nat, row: nat, c: nat | col < res.nx && row < res.ny && c < res.nc
      ensures NearIdeal(img, maxval, h, v, res, col, row, c)
    {
      SampleIsAccurate(img, maxval, h, v, res, col, row, c, Pos(res.nx, res.nc, col, row, c));
    }
  }

  lemma SampleIsAccurate(img: Image, maxval: int, h: Weights, v: Weights, res: Image, col: nat, row: nat, c: nat,
                         p: nat)
    requires img.Wf() && res.Wf() && img.nc >= 1 && img.nx >= 1 && img.ny >= 1 && maxval >= 0 && res.nc == img.nc
    requires BuiltFor(h, img.nx, res.nx) && BuiltFor(v, img.ny, res.ny) && Resampler.Samples(img.px, maxval)
    requires col < res.nx && row < res.ny && c < res.nc && p == Pos(res.nx, res.nc, col, row, c)
    requires res.px == Resampler.Resampled(img.px, img.nx, img.ny, img.nc, res.nx, res.ny, h, v, maxval)
    ensures NearIdeal(img, maxval, h, v, res, col, row, c)
  {
    PosInRange(res.nx, res.ny, res.nc, col, row, c);
    PosSplits(res.nx, res.nc, col, row, c);
    ResampleError.ResampleAccuracy(img.px, img.nx, img.ny, img.nc, res.nx, res.ny, h, v, maxval, col, row, c, p);
  }

  lemma PosSplits(nx: nat, nc: nat, x: nat, y: nat, k: nat)
    ensures Pos(nx, nc, x, y, k) == y * (nx * nc) + (x * nc + k)
  {
    assert (y * nx + x) * nc == (y * nx) * nc + x * nc;
    RowLength(nx, y, nc);
  }
}
