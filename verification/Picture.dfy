/** An interleaved pixel buffer, and rearranging it by a map of coordinates. */
module Picture {
  import opened Grid

  /** `nx` by `ny` pixels of `nc` samples, row by row; 8- and 16-bit samples alike. */
  datatype Image = Image(nx: nat, ny: nat, nc: nat, px: seq<int>) {
    predicate Wf() { |px| == (ny * nx) * nc }
  }

  /** The buffer position of sample `k` of pixel (x, y). */
  function Pos(nx: nat, nc: nat, x: nat, y: nat, k: nat): nat { (y * nx + x) * nc + k }

  lemma PosInRange(nx: nat, ny: nat, nc: nat, x: nat, y: nat, k: nat)
    requires x < nx && y < ny && k < nc
    ensures Pos(nx, nc, x, y, k) < (ny * nx) * nc
  {
    CellInRange(y, ny, nx, x);
    CellInRange(y * nx + x, ny * nx, nc, k);
  }

  /** Every position is that of exactly one sample. */
  lemma PosInverse(nx: nat, nc: nat, x: nat, y: nat, k: nat)
    requires x < nx && k < nc
    ensures var p := Pos(nx, nc, x, y, k);
            p % nc == k && p / nc == y * nx + x && p / nc % nx == x && p / nc / nx == y
  {
    Multiple(y, nx);
    DivModUnique(Pos(nx, nc, x, y, k), y * nx + x, nc, k);
    DivModUnique(y * nx + x, y, nx, x);
  }

  lemma PosOf(nx: nat, ny: nat, nc: nat, p: nat) returns (x: nat, y: nat, k: nat)
    requires p < (ny * nx) * nc
    ensures x < nx && y < ny && k < nc && p == Pos(nx, nc, x, y, k)
  {
    NonZeroFactor(ny * nx, nc);
    QuotientBelow(p, ny * nx, nc);
    NonZeroFactor(ny, nx);
    QuotientBelow(p / nc, ny, nx);
    DivModBasic(p, nc);
    DivModBasic(p / nc, nx);
    x, y, k := p / nc % nx, p / nc / nx, p % nc;
  }

  lemma NonZeroFactor(a: int, b: nat)
    requires a * b > 0
    ensures b >= 1
  {
  }

  function At(img: Image, x: nat, y: nat, k: nat): int
    requires img.Wf() && x < img.nx && y < img.ny && k < img.nc
  {
    PosInRange(img.nx, img.ny, img.nc, x, y, k);
    img.px[Pos(img.nx, img.nc, x, y, k)]
  }

  /** Images with the same samples everywhere are equal. */
  lemma SameImage(a: Image, b: Image)
    requires a.Wf() && b.Wf() && a.nx == b.nx && a.ny == b.ny && a.nc == b.nc
    requires forall x: nat, y: nat, k: nat :: x < a.nx && y < a.ny && k < a.nc ==> At(a, x, y, k) == At(b, x, y, k)
    ensures a == b
  {
    forall p | 0 <= p < |a.px|
      ensures a.px[p] == b.px[p]
    {
      var x, y, k := PosOf(a.nx, a.ny, a.nc, p);
      assert At(a, x, y, k) == At(b, x, y, k);
    }
  }
}
