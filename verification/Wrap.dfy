/** Unsigned counters that wrap. */
module Wrap {
  import Grid

  lemma ModShift(x: int, q: int, w: nat)
    requires w > 0
    ensures (x + q * w) % w == x % w
  {
    var y := x + q * w;
    var d := y / w - x / w - q;
    assert y == (y / w) * w + y % w;
    assert x == (x / w) * w + x % w;
    assert d * w == (y / w) * w - (x / w) * w - q * w;
    Grid.Multiple(d, w);
  }

  /** A residue is `b` exactly if `b` is one and the difference is a multiple of the modulus. */
  lemma ResidueIff(a: int, b: nat, w: nat)
    requires w > 0
    ensures a % w == b <==> b < w && (a - b) % w == 0
  {
    if a % w == b {
      ToMultiple(a, b, w);
    } else if (a - b) % w == 0 {
      FromMultiple(a, b, w);
    }
  }

  lemma ToMultiple(a: int, b: nat, w: nat)
    requires w > 0 && a % w == b
    ensures b < w && (a - b) % w == 0
  {
    ModSub(a, b, w);
    assert a % w - b == 0;
  }

  lemma FromMultiple(a: int, b: nat, w: nat)
    requires w > 0 && (a - b) % w == 0
    ensures a % w == b % w
  {
    var k := (a - b) / w;
    assert a - b == k * w;
    ModShift(b, k, w);
  }

  /** Taking `b` off a multiple leaves a multiple exactly if `b` is one. */
  lemma MultipleSub(a: int, b: int, w: nat)
    requires w > 0 && a % w == 0
    ensures (a - b) % w == 0 <==> b % w == 0
  {
    var k := a / w;
    assert a == k * w;
    ModShift(-b, k, w);
    NegatedMultiple(b, w);
  }

  lemma NegatedMultiple(b: int, w: nat)
    requires w > 0
    ensures (-b) % w == 0 <==> b % w == 0
  {
    var j := b / w;
    var r := b % w;
    assert -b == -r + (-j) * w;
    ModShift(-r, -j, w);
    SmallNegative(r, w);
  }

  lemma SmallNegative(r: int, w: nat)
    requires 0 <= r < w
    ensures (-r) % w == 0 <==> r == 0
  {
    if r > 0 {
      ModShift(-r, 1, w);
      assert -r + 1 * w == w - r;
    }
  }

  /** Wrapping before or after a subtraction gives the same residue. */
  lemma ModSub(a: int, b: int, w: nat)
    requires w > 0
    ensures (a % w - b) % w == (a - b) % w
  {
    var q := a / w;
    assert a == q * w + a % w;
    ModShift(a % w - b, q, w);
  }
}
