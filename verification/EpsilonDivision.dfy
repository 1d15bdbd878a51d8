/**
 The tolerant divisions of the TIFF tile reader (src/formats/SipiIOTiff.cpp): a quotient within 1/10000
 above a whole number is rounded down by the ceiling, one within 1/10000 below is rounded up by the floor.
 */
module EpsilonDivision {
  import opened Grid

  const EPSILON: real := 0.0001

  function Abs(x: real): real { if x < 0.0 then -x else x }

  function Ceil(x: real): int { if x.Floor as real == x then x.Floor else x.Floor + 1 }

  function Quotient(a: nat, b: nat): real requires b >= 1 { a as real / b as real }

  function EpsilonCeil(a: nat, b: nat): int
    requires b >= 1
  {
    var q := Quotient(a, b);
    if Abs(q.Floor as real - q) < EPSILON then q.Floor else Ceil(q)
  }

  function EpsilonFloor(a: nat, b: nat): int
    requires b >= 1
  {
    var q := Quotient(a, b);
    if Abs(Ceil(q) as real - q) < EPSILON then Ceil(q) else q.Floor
  }

  /** The plain ceiling the tile writer uses. */
  function CeilDivision(a: nat, b: nat): int requires b >= 1 { Ceil(Quotient(a, b)) }

  /** Whole-number ceiling: how many pieces of length `b` cover `a`. */
  function Pieces(a: nat, b: nat): (n: nat)
    requires b >= 1
  {
    if a % b == 0 then a / b else a / b + 1
  }

  /** The pieces cover `a`, and one piece fewer would not. */
  lemma PiecesCover(a: nat, b: nat)
    requires b >= 1
    ensures a <= Pieces(a, b) * b < a + b
  {
    DivModBasic(a, b);
    assert (a / b + 1) * b == (a / b) * b + b;
  }

  // ---------------------------------------------------------------- quotients

  lemma CastProduct(k: int, b: int)
    ensures (k * b) as real == (k as real) * (b as real)
  {
  }

  lemma RealQuotient(x: real, k: real, y: real, r: real)
    requires y > 0.0 && x == k * y + r
    ensures x / y == k + r / y
  {
    assert (k * y) / y == k;
  }

  lemma FractionRange(r: real, y: real)
    requires y > 0.0 && 0.0 <= r < y
    ensures 0.0 <= r / y < 1.0 && (r / y == 0.0 <==> r == 0.0)
  {
    FractionBelow(r, y, 1.0);
    FractionBelow(r, y, 0.0);
    assert (r / y) * y == r;
  }

  lemma FractionBelow(r: real, y: real, e: real)
    requires y > 0.0
    ensures r / y < e <==> r < e * y
  {
    var f := r / y;
    assert f * y == r;
    if f < e { assert (e - f) * y > 0.0; } else { assert (f - e) * y >= 0.0; }
  }

  /** The fractional part of a / b. */
  function Fraction(a: nat, b: nat): real requires b >= 1 { (a % b) as real / b as real }

  lemma QuotientSplits(a: nat, b: nat)
    requires b >= 1
    ensures Quotient(a, b) == (a / b) as real + Fraction(a, b)
    ensures 0.0 <= Fraction(a, b) < 1.0 && (Fraction(a, b) == 0.0 <==> a % b == 0)
    ensures Quotient(a, b).Floor == a / b
  {
    DivModBasic(a, b);
    CastProduct(a / b, b);
    RealQuotient(a as real, (a / b) as real, b as real, (a % b) as real);
    FractionRange((a % b) as real, b as real);
  }

  lemma CeilIsPieces(a: nat, b: nat)
    requires b >= 1
    ensures CeilDivision(a, b) == Pieces(a, b)
  {
    QuotientSplits(a, b);
  }

  /** Remainder so small that the ceiling ignores it. */
  predicate JustAbove(a: nat, b: nat) requires b >= 1 { 0 < a % b && 10000 * (a % b) < b }

  /** Remainder so large that the floor completes it. */
  predicate JustBelow(a: nat, b: nat) requires b >= 1 { 0 < a % b && 10000 * (b - a % b) < b }

  /** The tolerant ceiling is the ceiling, except just above a multiple, where it is one less. */
  lemma EpsilonCeilIs(a: nat, b: nat)
    requires b >= 1
    ensures EpsilonCeil(a, b) == if JustAbove(a, b) then Pieces(a, b) - 1 else Pieces(a, b)
  {
    QuotientSplits(a, b);
    FractionBelow((a % b) as real, b as real, EPSILON);
  }

  /** The tolerant floor is the floor, except just below a multiple, where it is one more. */
  lemma EpsilonFloorIs(a: nat, b: nat)
    requires b >= 1
    ensures EpsilonFloor(a, b) == if JustBelow(a, b) then a / b + 1 else a / b
  {
    QuotientSplits(a, b);
    if a % b != 0 {
      var r, y := (a % b) as real, b as real;
      RealQuotient(y - r, 1.0, y, -r);
      FractionBelow(y - r, y, EPSILON);
      assert (y - r) / y == 1.0 - r / y by { RealQuotient(y - r, 1.0, y, -r); NegativeFraction(r, y); }
    }
  }

  lemma NegativeFraction(r: real, y: real)
    requires y > 0.0
    ensures (-r) / y == -(r / y)
  {
  }

  /** For divisors up to 10000 both are exact. */
  lemma EpsilonExact(a: nat, b: nat)
    requires 1 <= b <= 10000
    ensures EpsilonCeil(a, b) == Pieces(a, b) && EpsilonFloor(a, b) == a / b
  {
    EpsilonCeilIs(a, b);
    EpsilonFloorIs(a, b);
    DivModBasic(a, b);
  }
}
