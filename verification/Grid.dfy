/** Index arithmetic for row-major, interleaved buffers. */
module Grid {

  /** A non-zero multiple of `m` is at least `m` away from zero. */
  lemma Multiple(a: int, m: int)
    requires m >= 0
    ensures a >= 1 ==> a * m >= m
    ensures a <= -1 ==> a * m <= -m
    ensures a >= 0 ==> a * m >= 0
  {
    if a >= 1 {
      assert a * m == (a - 1) * m + m;
    } else if a <= -1 {
      assert a * m == (a + 1) * m - m;
    }
  }

  lemma MulMono(a: int, b: int, m: nat)
    requires a <= b
    ensures a * m <= b * m
  {
    Multiple(b - a, m);
    assert (b - a) * m == b * m - a * m;
  }

  lemma DivModUnique(x: nat, q: nat, m: nat, r: nat)
    requires r < m && x == q * m + r
    ensures x / m == q && x % m == r
  {
    DivModBasic(x, m);
    Multiple(q - x / m, m);
    assert (q - x / m) * m == q * m - (x / m) * m;
  }

  lemma DivModBasic(x: nat, m: nat)
    requires m >= 1
    ensures x == (x / m) * m + x % m && 0 <= x % m < m && 0 <= x / m
  {
  }

  lemma QuotientBelow(x: nat, n: nat, m: nat)
    requires m >= 1 && x < n * m
    ensures 0 <= x / m < n && 0 <= x % m < m
  {
    DivModBasic(x, m);
    Multiple(x / m - n, m);
    assert (x / m - n) * m == (x / m) * m - n * m;
  }

  /** Cell (i, k) of `n` rows of `m` samples is inside the buffer. */
  lemma CellInRange(i: nat, n: nat, m: nat, k: nat)
    requires i < n && k < m
    ensures 0 <= i * m && i * m + k < n * m
  {
    Multiple(i, m);
    Multiple(n - i - 1, m);
    assert (n - i - 1) * m == n * m - i * m - m;
  }
}
