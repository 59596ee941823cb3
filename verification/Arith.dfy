/** Small facts about products and floors, each proved once so that no other proof has to leave
    linear arithmetic. */
module Arith {

  lemma MulLe(a: int, b: int, c: int)
    requires a <= b && 0 <= c
    ensures a * c <= b * c
  {
  }

  lemma MulLe2(a: int, b: int, c: int, d: int)
    requires 0 <= a <= b && 0 <= c <= d
    ensures a * c <= b * d
  {
    MulLe(a, b, c);
    MulLe(c, d, b);
  }

  lemma CancelLe(a: int, b: int, c: int)
    requires 0 < c && a * c <= b * c
    ensures a <= b
  {
    if b < a {
      MulLe(b + 1, a, c);
    }
  }

  lemma FloorDiv(n: int, d: int)
    requires 0 < d
    ensures (n / d) * d <= n < (n / d + 1) * d
  {
  }

  /** The floor quotient is the only integer between the two bounds. */
  lemma FloorUnique(n: int, d: int, q: int)
    requires 0 < d && q * d <= n < (q + 1) * d
    ensures q == n / d
  {
    FloorDiv(n, d);
    if q < n / d {
      MulLe(q + 1, n / d, d);
    } else if n / d < q {
      MulLe(n / d + 1, q, d);
    }
  }

  lemma FloorLe(a: int, b: int, d: int)
    requires 0 < d && a <= b
    ensures a / d <= b / d
  {
    FloorDiv(a, d);
    FloorDiv(b, d);
    if b / d < a / d {
      MulLe(b / d + 1, a / d, d);
    }
  }

  lemma FloorAtLeast(q: int, n: int, d: int)
    requires 0 < d
    ensures q <= n / d <==> q * d <= n
  {
    FloorDiv(n, d);
    if q <= n / d {
      MulLe(q, n / d, d);
    } else {
      MulLe(n / d + 1, q, d);
    }
  }

  /** Division rounded up. */
  function CeilDiv(n: int, d: int): int
    requires 0 < d
  {
    (n + d - 1) / d
  }

  lemma CeilAtMost(n: int, d: int, q: int)
    requires 0 < d
    ensures CeilDiv(n, d) <= q <==> n <= q * d
  {
    FloorAtLeast(q + 1, n + d - 1, d);
    assert (q + 1) * d == q * d + d;
  }

  /** Comparing fractions k/t with positive denominators is transitive. */
  lemma RatioTransitive(k0: nat, t0: nat, k1: nat, t1: nat, k2: nat, t2: nat)
    requires 0 < t1
    requires k0 * t1 <= k1 * t0 && k1 * t2 <= k2 * t1
    ensures k0 * t2 <= k2 * t0
  {
    MulLe(k0 * t1, k1 * t0, t2);
    MulLe(k1 * t2, k2 * t1, t0);
    assert k0 * t1 * t2 == (k0 * t2) * t1;
    assert k1 * t0 * t2 == k1 * t2 * t0;
    assert k2 * t1 * t0 == (k2 * t0) * t1;
    CancelLe(k0 * t2, k2 * t0, t1);
  }
}
