/** Sums over sequences, read from the right so that they follow a loop that appends. */
module Sums {

  function Sum(s: seq<int>): int {
    if |s| == 0 then 0 else Sum(s[..|s| - 1]) + s[|s| - 1]
  }

  function SumReal(s: seq<real>): real {
    if |s| == 0 then 0.0 else SumReal(s[..|s| - 1]) + s[|s| - 1]
  }

  /** The sum of the positive elements. */
  function PosSum(s: seq<int>): int {
    if |s| == 0 then 0 else PosSum(s[..|s| - 1]) + (if s[|s| - 1] > 0 then s[|s| - 1] else 0)
  }

  lemma SumAppend(s: seq<int>, x: int)
    ensures Sum(s + [x]) == Sum(s) + x
  {
    assert (s + [x])[..|s|] == s;
  }

  lemma SumRealAppend(s: seq<real>, x: real)
    ensures SumReal(s + [x]) == SumReal(s) + x
  {
    assert (s + [x])[..|s|] == s;
  }

  /** Changing one element changes the sum by the difference. */
  lemma {:induction false} SumUpdate(s: seq<int>, k: nat, x: int)
    requires k < |s|
    ensures Sum(s[k := x]) == Sum(s) + x - s[k]
  {
    var n := |s| - 1;
    if k == n {
      assert s[k := x][..n] == s[..n];
    } else {
      assert s[k := x][..n] == s[..n][k := x];
      SumUpdate(s[..n], k, x);
    }
  }

  /** Positive parts dominate every prefix sum, and what is left of the sum is the negative part. */
  lemma {:induction false} PosSumMonotone(s: seq<int>, m: nat)
    requires m <= |s|
    ensures 0 <= PosSum(s[..m]) <= PosSum(s)
    ensures Sum(s) - PosSum(s) <= Sum(s[..m]) - PosSum(s[..m]) <= 0
  {
    if m == |s| {
      assert s[..m] == s;
      if m > 0 {
        PosSumMonotone(s[..m - 1], m - 1);
        assert s[..m - 1][..m - 1] == s[..m - 1];
      }
    } else {
      assert s[..|s| - 1][..m] == s[..m];
      PosSumMonotone(s[..|s| - 1], m);
    }
  }

  lemma {:induction false} PosSumOfNonNegative(s: seq<int>)
    requires forall t :: 0 <= t < |s| ==> s[t] >= 0
    ensures PosSum(s) == Sum(s)
  {
    if |s| > 0 {
      PosSumOfNonNegative(s[..|s| - 1]);
    }
  }

  lemma {:induction false} PosSumDominated(s: seq<int>, r: seq<int>)
    requires |s| == |r|
    requires forall t :: 0 <= t < |s| ==> s[t] <= r[t] && 0 <= r[t]
    ensures PosSum(s) <= Sum(r)
  {
    if |s| > 0 {
      PosSumDominated(s[..|s| - 1], r[..|s| - 1]);
    }
  }
}
