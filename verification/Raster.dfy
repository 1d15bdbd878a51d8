/** Filling a pixel buffer row by row, pixel by pixel, sample by sample. */
module Raster {
  import opened Grid
  import opened Picture

  /** Every sample before position `n` is what `f` says. */
  ghost predicate Drawn(out: seq<int>, n: nat, nx: nat, ny: nat, nc: nat, f: (nat, nat, nat) -> int) {
    n <= |out| && forall i: nat, j: nat, k: nat :: i < nx && j < ny && k < nc && Pos(nx, nc, i, j, k) < n ==>
      out[Pos(nx, nc, i, j, k)] == f(i, j, k)
  }

  lemma DrawnStep(out: seq<int>, nx: nat, ny: nat, nc: nat, f: (nat, nat, nat) -> int, i: nat, j: nat, k: nat, p: nat)
    requires i < nx && j < ny && k < nc && p == Pos(nx, nc, i, j, k) < |out|
    requires Drawn(out, p, nx, ny, nc, f) && out[p] == f(i, j, k)
    ensures Drawn(out, p + 1, nx, ny, nc, f)
  {
    PosInverse(nx, nc, i, j, k);
    forall i': nat, j': nat, k': nat | i' < nx && j' < ny && k' < nc && Pos(nx, nc, i', j', k') < p + 1
      ensures out[Pos(nx, nc, i', j', k')] == f(i', j', k')
    {
      PosInverse(nx, nc, i', j', k');
    }
  }

  /** The samples of pixel (i, j), from position `at` on. */
  method DrawPixel(out: array<int>, nx: nat, ny: nat, nc: nat, f: (nat, nat, nat) -> int, i: nat, j: nat, at: nat)
    requires i < nx && j < ny && at == (j * nx + i) * nc && at + nc <= out.Length
    requires Drawn(out[..], at, nx, ny, nc, f)
    modifies out
    ensures Drawn(out[..], at + nc, nx, ny, nc, f)
  {
    for k := 0 to nc
      invariant Drawn(out[..], at + k, nx, ny, nc, f)
    {
      ghost var before := out[..];
      out[at + k] := f(i, j, k);
      assert forall q :: 0 <= q < at + k ==> out[..][q] == before[q];
      DrawnStep(out[..], nx, ny, nc, f, i, j, k, at + k);
    }
  }

  /** Row `j`, from pixel number `row` on. */
  method DrawRow(out: array<int>, nx: nat, ny: nat, nc: nat, f: (nat, nat, nat) -> int, j: nat, row: nat)
    requires j < ny && row == j * nx && 0 <= row * nc && (row + nx) * nc <= out.Length
    requires Drawn(out[..], row * nc, nx, ny, nc, f)
    modifies out
    ensures Drawn(out[..], (row + nx) * nc, nx, ny, nc, f)
  {
    for i := 0 to nx
      invariant 0 <= (row + i) * nc && Drawn(out[..], (row + i) * nc, nx, ny, nc, f)
    {
      MulMono(row + i + 1, row + nx, nc);
      assert (row + (i + 1)) * nc == (row + i) * nc + nc;
      DrawPixel(out, nx, ny, nc, f, i, j, (row + i) * nc);
    }
  }

  lemma RowBounds(j: nat, ny: nat, nx: nat, nc: nat)
    requires j < ny
    ensures (j + 1) * nx == j * nx + nx && 0 <= j * nx
    ensures 0 <= (j * nx + nx) * nc <= (ny * nx) * nc
  {
    Multiple(j, nx);
    MulMono(j + 1, ny, nx);
    MulMono(j * nx + nx, ny * nx, nc);
    Multiple(j * nx + nx, nc);
  }

  /** The image whose sample (i, j, k) is f(i, j, k). */
  method Draw(nx: nat, ny: nat, nc: nat, f: (nat, nat, nat) -> int) returns (img: Image)
    ensures img.Wf() && img.nx == nx && img.ny == ny && img.nc == nc
    ensures forall i: nat, j: nat, k: nat :: i < nx && j < ny && k < nc ==> At(img, i, j, k) == f(i, j, k)
  {
    Multiple(ny, nx);
    Multiple(ny * nx, nc);
    var out := new int[(ny * nx) * nc];
    for j := 0 to ny
      invariant 0 <= j * nx && 0 <= (j * nx) * nc && Drawn(out[..], (j * nx) * nc, nx, ny, nc, f)
    {
      RowBounds(j, ny, nx, nc);
      DrawRow(out, nx, ny, nc, f, j, j * nx);
    }
    img := Image(nx, ny, nc, out[..]);
    forall i: nat, j: nat, k: nat | i < nx && j < ny && k < nc
      ensures At(img, i, j, k) == f(i, j, k)
    {
      PosInRange(nx, ny, nc, i, j, k);
    }
  }

  /** That image as a value. */
  ghost function Rendered(nx: nat, ny: nat, nc: nat, f: (nat, nat, nat) -> int): (img: Image)
    ensures img.Wf() && img.nx == nx && img.ny == ny && img.nc == nc
  {
    Multiple(ny, nx);
    Multiple(ny * nx, nc);
    Image(nx, ny, nc, seq((ny * nx) * nc, p requires 0 <= p < (ny * nx) * nc => SampleAt(nx, nc, f, p)))
  }

  ghost function SampleAt(nx: nat, nc: nat, f: (nat, nat, nat) -> int, p: nat): int {
    if nc == 0 || nx == 0 then 0 else f(p / nc % nx, p / nc / nx, p % nc)
  }

  lemma RenderedAt(nx: nat, ny: nat, nc: nat, f: (nat, nat, nat) -> int, i: nat, j: nat, k: nat)
    requires i < nx && j < ny && k < nc
    ensures At(Rendered(nx, ny, nc, f), i, j, k) == f(i, j, k)
  {
    PosInRange(nx, ny, nc, i, j, k);
    PosInverse(nx, nc, i, j, k);
  }
}
