/** The floor square root, and the two Newton loops of the repository that compute it. */
module Roots {
  import opened Host
  import opened Arith

  /** The reference definition: count up to the largest number whose square fits. */
  function Isqrt(y: nat): (r: nat)
    ensures r * r <= y < (r + 1) * (r + 1)
  {
    if y == 0 then 0 else
    var r := Isqrt(y - 1);
    if (r + 1) * (r + 1) <= y then r + 1 else r
  }

  /** A vote count fits a budget exactly when it does not exceed the root of the budget. */
  lemma IsqrtIsGreatest(v: nat, y: nat)
    ensures v * v <= y <==> v <= Isqrt(y)
  {
    var r := Isqrt(y);
    if v <= r {
      MulLe2(v, r, v, r);
    } else {
      MulLe2(r + 1, v, r + 1, v);
    }
  }

  lemma IsqrtUnique(r: nat, y: nat)
    requires r * r <= y < (r + 1) * (r + 1)
    ensures r == Isqrt(y)
  {
    IsqrtIsGreatest(r, y);
    IsqrtIsGreatest(r + 1, y);
  }

  lemma IsqrtMonotone(x: nat, y: nat)
    requires x <= y
    ensures Isqrt(x) <= Isqrt(y)
  {
    IsqrtIsGreatest(Isqrt(x), y);
  }

  /** One Newton step from z, whatever z was, lands at or above the root. */
  lemma NewtonStaysAbove(y: nat, z: nat)
    requires 0 < z
    ensures Isqrt(y) <= (y / z + z) / 2
  {
    FloorDiv(y, z);
    FloorAtLeast(0, y, z);
    AverageAboveRoot(y, z, y / z, Isqrt(y));
  }

  lemma AverageAboveRoot(y: nat, z: nat, q: nat, r: nat)
    requires y < (q + 1) * z && r * r <= y
    ensures r <= (q + z) / 2
  {
    if (q + z) / 2 < r {
      HalfBelow(q, z, r);
      ProductBelowSquare(q + 1, z, r);
    }
  }

  lemma HalfBelow(q: nat, z: nat, r: nat)
    requires (q + z) / 2 < r
    ensures q + 1 + z <= 2 * r
  {
  }

  lemma ProductBelowSquare(a: nat, b: nat, r: nat)
    requires a + b <= 2 * r
    ensures a * b <= r * r
  {
    var d := a - b;
    assert 4 * (a * b) == (a + b) * (a + b) - d * d;
    MulLe2(a + b, 2 * r, a + b, 2 * r);
    assert (2 * r) * (2 * r) == 4 * (r * r);
    assert d * d >= 0;
  }

  /** A Newton step that does not decrease was taken from at or below the root. */
  lemma NewtonFixpoint(y: nat, z: nat)
    requires 0 < z && z <= (y / z + z) / 2
    ensures z * z <= y
  {
    FloorDiv(y, z);
    MulLe(z, y / z, z);
  }

  /** Neither loop's sum leaves the `i128` range. */
  lemma NewtonSumFits(y: nat, z: nat)
    requires 0 < z <= y
    ensures 0 < y / z && y / z + z <= y + 1
    ensures 2 <= z && 2 * z <= y ==> y / z + z <= y
  {
    FloorDiv(y, z);
    FloorAtLeast(1, y, z);
    var q := y / z;
    assert (q - 1) * (z - 1) == q * z - q - z + 1;
    MulLe(0, q - 1, z - 1);
    if 2 <= z && 2 * z <= y {
      FloorAtLeast(2, y, z);
      assert (q - 2) * (z - 1) == q * z - q - 2 * z + 2;
      MulLe(0, q - 2, z - 1);
    }
  }

  /** `sqrt` of the AMM: Newton from y/2 + 1.  The first comparison value is y itself. */
  method BabylonianSqrt(y: int) returns (z: int)
    requires IsI128(y)
    ensures y >= 0 ==> z == Isqrt(y)
    ensures y < 0 ==> z == 1
  {
    if y > 3 {
      z := y;
      var x := y / 2 + 1;
      IsqrtIsGreatest(2, y);
      SqrtBelowHalf(y);
      while x < z
        invariant Isqrt(y) <= x && Isqrt(y) <= z <= y
        invariant x <= y / 2 + 1
        invariant x >= z ==> z * z <= y
        decreases z
      {
        BabylonianStep(y, x);
        z := x;
        x := (y / x + x) / 2;
      }
      IsqrtIsGreatest(z, y);
    } else if y != 0 {
      z := 1;
      if y > 0 {
        IsqrtUnique(1, y);
      }
    } else {
      z := 0;
    }
  }

  lemma BabylonianStep(y: nat, x: int)
    requires y > 3 && Isqrt(y) <= x <= y / 2 + 1
    ensures 2 <= x && y / x + x <= y
    ensures var next := (y / x + x) / 2;
      Isqrt(y) <= next <= y / 2 + 1 && (next >= x ==> x * x <= y)
  {
    IsqrtIsGreatest(2, y);
    NewtonSumFits(y, x);
    NewtonStaysAbove(y, x);
    if 2 * x > y {
      FloorUnique(y, x, 1);
    }
    if (y / x + x) / 2 >= x {
      NewtonFixpoint(y, x);
    }
  }

  lemma SqrtBelowHalf(y: nat)
    requires y > 3
    ensures Isqrt(y) <= y / 2 + 1 && y / 2 + 1 < y
  {
    var h := y / 2 + 2;
    MulLe(2, h, h);
    IsqrtIsGreatest(h, y);
  }

  const UNBOUNDED_CREDITS_ANSWER: int := -0x4000_0000_0000_0000_0000_0000_0000_0000

  lemma CreditStep(credits: nat, x: int)
    requires 2 <= credits < I128_MAX && 0 < Isqrt(credits) <= x <= credits
    ensures IsI128(x + credits / x)
    ensures var next := (x + credits / x) / 2;
      Isqrt(credits) <= next && (x <= next ==> x * x <= credits)
  {
    NewtonSumFits(credits, x);
    NewtonStaysAbove(credits, x);
    if x <= (x + credits / x) / 2 {
      NewtonFixpoint(credits, x);
    }
  }

  lemma CreditStart(credits: nat)
    requires 2 <= credits < I128_MAX
    ensures IsI128(credits + 1)
    ensures 0 < Isqrt(credits) <= (credits + 1) / 2 < credits
  {
    IsqrtIsGreatest(1, credits);
    FloorUnique(credits, credits, 1);
    NewtonStaysAbove(credits, credits);
  }

  /** What the two wrapping sums come to when the balance is `i128::MAX`. */
  lemma UnboundedCredits()
    ensures Quot(WrapI128(I128_MAX + 1), 2) == UNBOUNDED_CREDITS_ANSWER
    ensures Quot(I128_MAX, UNBOUNDED_CREDITS_ANSWER) == -1
    ensures Quot(WrapI128(UNBOUNDED_CREDITS_ANSWER - 1), 2) >= UNBOUNDED_CREDITS_ANSWER
  {
  }

  /** `max_votes` of governance: Newton from (credits + 1) / 2, with that sum not range-checked.
      A balance of exactly `i128::MAX` makes it wrap, and the loop then stops at once on a
      negative number; every other balance gets its floor root. */
  method CreditRoot(credits: int) returns (x: int)
    requires 0 <= credits <= I128_MAX
    ensures x == if credits < I128_MAX then Isqrt(credits) else UNBOUNDED_CREDITS_ANSWER
  {
    if credits <= 1 {
      IsqrtUnique(credits, credits);
      return credits;
    }
    x := credits;
    var y := Quot(WrapI128(x + 1), 2);
    if credits < I128_MAX {
      CreditStart(credits);
    } else {
      UnboundedCredits();
    }
    while y < x
      invariant credits < I128_MAX ==>
                  0 < Isqrt(credits) <= y && Isqrt(credits) <= x <= credits && (x <= y ==> x * x <= credits)
      invariant credits == I128_MAX ==>
                  y >= UNBOUNDED_CREDITS_ANSWER && (x == UNBOUNDED_CREDITS_ANSWER || (x == credits && y == UNBOUNDED_CREDITS_ANSWER))
      decreases x - UNBOUNDED_CREDITS_ANSWER
    {
      x := y;
      if credits < I128_MAX {
        CreditStep(credits, x);
      } else {
        UnboundedCredits();
      }
      y := Quot(WrapI128(x + Quot(credits, x)), 2);
    }
    if credits < I128_MAX {
      IsqrtIsGreatest(x, credits);
    }
  }
}
