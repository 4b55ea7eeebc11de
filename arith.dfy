/** Integer facts the division and remainder arithmetic of the services needs. */
module Arith {
  lemma MulAtLeast(a: int, p: int)
    requires a >= 1 && p > 0
    ensures a * p >= p
  {
    assert a * p == (a - 1) * p + p;
  }

  lemma ModUnique(x: int, p: int, q: int, r: int)
    requires p > 0 && 0 <= r < p && x == q * p + r
    ensures x % p == r
  {
    var q', r' := x / p, x % p;
    assert x == q' * p + r';
    assert (q - q') * p == r' - r;
    if q - q' >= 1 {
      MulAtLeast(q - q', p);
    } else if q' - q >= 1 {
      MulAtLeast(q' - q, p);
    }
  }

  lemma ModSucc(s: int, p: int)
    requires s >= 0 && p > 0
    ensures (s + 1) % p == (s % p + 1) % p
  {
    var q, r := s / p, s % p;
    assert s == q * p + r;
    if r + 1 < p {
      ModUnique(s + 1, p, q, r + 1);
      ModUnique(r + 1, p, 0, r + 1);
    } else {
      assert s + 1 == (q + 1) * p + 0;
      ModUnique(s + 1, p, q + 1, 0);
      ModUnique(r + 1, p, 1, 0);
    }
  }

  lemma MulMonotone(d: nat, a: nat, b: nat)
    requires a <= b
    ensures d * a <= d * b
  {
  }

  /** Euclidean division rounds down. */
  lemma DivFloor(n: nat, d: nat)
    requires d > 0
    ensures d * (n / d) <= n < d * (n / d + 1)
  {
    assert n == d * (n / d) + n % d;
  }

  /** A quotient lies in `[lo, hi]` when the dividend lies in `[d * lo, d * (hi + 1))`. */
  lemma DivRange(n: nat, d: nat, lo: nat, hi: nat)
    requires d > 0 && d * lo <= n < d * (hi + 1)
    ensures lo <= n / d <= hi
  {
    var q := n / d;
    assert n == d * q + n % d;
    if q > hi {
      MulMonotone(d, hi + 1, q);
    }
    if q < lo {
      MulMonotone(d, q + 1, lo);
    }
  }
}
