/** Arithmetic that the other modules share. */
module Arithmetic {
  function Min(x: nat, y: nat): nat {
    if x < y then x else y
  }

  /** Quotient and remainder are the only ones that fit. */
  lemma Divided(n: nat, x: int, q: int, r: nat)
    requires r < n && x == n * q + r
    ensures x / n == q && x % n == r
  {
    var d := x / n - q;
    assert n * d == r - x % n by {
      assert n * d == n * (x / n) - n * q;
    }
    Cancelled(n, d, r - x % n);
  }

  lemma Cancelled(n: int, d: int, e: int)
    requires n * d == e && -n < e < n
    ensures d == 0
  {
  }

  lemma NextMultiple(n: nat, p: int, q: int)
    ensures p < q ==> n * p + n <= n * q
  {
    var d := q - p - 1;
    assert n * q == n * p + n + n * d by {
      assert n * (p + 1 + d) == n * p + n + n * d;
    }
    assert d >= 0 ==> n * d >= 0;
  }
}
