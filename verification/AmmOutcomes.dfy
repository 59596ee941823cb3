/** When each call on the pool goes through and what it then leaves, said with products instead of
    roots and quotients. */
module AmmOutcomes {
  import opened Host
  import opened Arith
  import opened Roots
  import opened AmmModel
  import opened AmmTheorems

  // ---- deposits ----

  /** A first deposit: the product of the amounts must reach 1001 squared.  1000 shares are locked,
      and the depositor gets the rest of the largest number whose square the product holds. */
  lemma FirstDepositOutcome(p: Pool, from: Address, amountA: int, amountB: int, receivedA: int, receivedB: int, root: nat)
    requires Inv(p) && p.totalShares == 0
    requires 0 < receivedA && 0 < receivedB ==> root * root <= receivedA * receivedB < (root + 1) * (root + 1)
    ensures var r := Deposit(p, from, amountA, amountB, receivedA, receivedB);
      && (r.Ok? <==>
            && !p.paused && 0 < amountA && 0 < amountB && 0 < receivedA && 0 < receivedB
            && 1001 <= root && receivedA * receivedB <= I128_MAX
            && p.reserveA + receivedA <= I128_MAX && p.reserveB + receivedB <= I128_MAX)
      && (r.Ok? ==> 1001 <= root
                    && r.value == (p.(reserveA := p.reserveA + receivedA, reserveB := p.reserveB + receivedB,
                                      totalShares := root, shares := map[from := root - 1000]), root - 1000))
  {
    if 0 < receivedA && 0 < receivedB {
      MulLe2(1, receivedA, 1, receivedB);
      IsqrtUnique(root, receivedA * receivedB);
      RootAtMost(root, receivedA * receivedB);
      if 1001 <= root {
        assert p.shares[from := root - 1000] == map[from := root - 1000];
      }
    }
  }

  lemma RootAtMost(root: nat, y: nat)
    requires root * root <= y
    ensures root <= y
  {
    if root > 1 {
      MulLe(1, root, root);
    }
  }

  /** m is the most shares that both received amounts pay for. */
  predicate LargestMint(p: Pool, receivedA: nat, receivedB: nat, m: nat) {
    && m * p.reserveA <= receivedA * p.totalShares && m * p.reserveB <= receivedB * p.totalShares
    && !((m + 1) * p.reserveA <= receivedA * p.totalShares && (m + 1) * p.reserveB <= receivedB * p.totalShares)
  }

  /** A later deposit mints exactly that many, if it is at least one and everything fits. */
  lemma LaterDepositOutcome(p: Pool, from: Address, amountA: int, amountB: int, receivedA: int, receivedB: int, m: nat)
    requires Inv(p) && 0 < p.totalShares
    requires 0 < receivedA && 0 < receivedB ==> LargestMint(p, receivedA, receivedB, m)
    ensures var r := Deposit(p, from, amountA, amountB, receivedA, receivedB);
      && (r.Ok? <==>
            && !p.paused && 0 < amountA && 0 < amountB && 0 < receivedA && 0 < receivedB && 0 < m
            && receivedA * p.totalShares <= I128_MAX && receivedB * p.totalShares <= I128_MAX
            && p.reserveA + receivedA <= I128_MAX && p.reserveB + receivedB <= I128_MAX
            && p.totalShares + m <= I128_MAX && p.SharesOf(from) + m <= I128_MAX)
      && (r.Ok? ==> r.value == (p.(reserveA := p.reserveA + receivedA, reserveB := p.reserveB + receivedB,
                                   totalShares := p.totalShares + m, shares := p.shares[from := p.SharesOf(from) + m]), m))
  {
    if 0 < receivedA && 0 < receivedB {
      MulLe(0, receivedA, p.totalShares);
      MulLe(0, receivedB, p.totalShares);
      MintIsLargest(p, receivedA, receivedB, m);
    }
  }

  lemma MintIsLargest(p: Pool, receivedA: nat, receivedB: nat, m: nat)
    requires 0 < p.reserveA && 0 < p.reserveB && LargestMint(p, receivedA, receivedB, m)
    ensures m == Min(MintedFor(receivedA, p.totalShares, p.reserveA), MintedFor(receivedB, p.totalShares, p.reserveB))
  {
    FloorAtLeast(m, receivedA * p.totalShares, p.reserveA);
    FloorAtLeast(m, receivedB * p.totalShares, p.reserveB);
    FloorAtLeast(m + 1, receivedA * p.totalShares, p.reserveA);
    FloorAtLeast(m + 1, receivedB * p.totalShares, p.reserveB);
  }

  // ---- swaps ----

  /** out is the largest payout that keeps the product of the reserves, with 3 parts in 1000 of the
      input set aside. */
  predicate LargestPayout(x: nat, y: nat, dx: nat, out: nat) {
    var d := x * 1000 + dx * 997;
    out <= y && d * (y - out) >= 1000 * x * y && d * (y - (out + 1)) < 1000 * x * y
  }

  lemma PayoutIsLargest(x: nat, y: nat, dx: nat, out: nat)
    requires LargestPayout(x, y, dx, out)
    ensures 0 < x + dx && out == AmountOut(x, y, dx)
  {
    if 0 < x + dx {
      AmountOutIsLargestFair(x, y, dx);
      LargestUnique(x * 1000 + dx * 997, y, 1000 * x * y, out, AmountOut(x, y, dx));
    }
  }

  lemma LargestUnique(d: nat, y: int, k: int, a: int, b: int)
    requires d * (y - a) >= k > d * (y - (a + 1)) && d * (y - b) >= k > d * (y - (b + 1))
    ensures a == b
  {
    if a < b {
      NotMore(d, y - b, y - (a + 1));
    } else if b < a {
      NotMore(d, y - a, y - (b + 1));
    }
  }

  lemma NotMore(d: nat, u: int, v: int)
    requires u <= v
    ensures d * u <= d * v
  {
  }

  function ReservesFor(p: Pool, token: Token): (nat, nat) {
    if token == TokenA then (p.reserveA, p.reserveB) else (p.reserveB, p.reserveA)
  }

  predicate SwapFits(x: nat, y: nat, dx: nat) {
    dx * 997 <= I128_MAX && dx * 997 * y <= I128_MAX && x * 1000 + dx * 997 <= I128_MAX
  }

  /** A swap goes through exactly when the products fit and the largest fair payout reaches the
      least the trader accepts; it then pays that. */
  lemma SwapOutcome(p: Pool, token: Token, dx: nat, least: int, out: nat)
    requires token != Foreign
    requires LargestPayout(ReservesFor(p, token).0, ReservesFor(p, token).1, dx, out)
    ensures var r := Swap(p, token, dx, least); var (x, y) := ReservesFor(p, token);
      && (r.Ok? <==> !p.paused && SwapFits(x, y, dx) && least <= out)
      && (r.Ok? ==> out >= least && r.value == (
            if token == TokenA then p.(reserveA := x + dx, reserveB := y - out)
            else p.(reserveB := x + dx, reserveA := y - out), out))
  {
    var (x, y) := ReservesFor(p, token);
    PayoutIsLargest(x, y, dx, out);
    MulLe(0, dx * 997, y);
  }

  /** The swaps that no amounts make possible. */
  lemma SwapRefused(p: Pool, token: Token, dx: int, least: int)
    requires p.paused || token == Foreign || dx < 0 || (dx == 0 && ReservesFor(p, token).0 == 0)
    ensures Swap(p, token, dx, least).Err?
  {
  }

  /** Whatever the pool, a swap that goes through pays at least what the trader asked for. */
  lemma SwapPaysMinimum(p: Pool, token: Token, dx: int, least: int)
    requires Swap(p, token, dx, least).Ok?
    ensures least <= Swap(p, token, dx, least).value.1
  {
  }

  /** A pool of a million each and 1000 in: 996 is paid to whoever accepts that, and 997 is not. */
  lemma SwapAtTheMargin(p: Pool)
    requires p.reserveA == p.reserveB == 1_000_000 && !p.paused
    ensures Answer(Swap(p, TokenA, 1_000, 996)) == Ok(996) && Swap(p, TokenA, 1_000, 997) == Err(SlippageExceeded)
  {
    assert LargestPayout(1_000_000, 1_000_000, 1_000, 996);
    SwapOutcome(p, TokenA, 1_000, 996, 996);
    PayoutIsLargest(1_000_000, 1_000_000, 1_000, 996);
  }

  // ---- withdrawals ----

  /** A withdrawal is for a holder of that many shares and pays the largest amounts they are worth. */
  lemma WithdrawOutcome(p: Pool, from: Address, shares: int, a: nat, b: nat)
    requires Inv(p) && 0 < p.totalShares
    requires 0 < shares ==> a * p.totalShares <= shares * p.reserveA < (a + 1) * p.totalShares
    requires 0 < shares ==> b * p.totalShares <= shares * p.reserveB < (b + 1) * p.totalShares
    ensures var r := Withdraw(p, from, shares);
      && (r.Ok? <==>
            && !p.paused && 0 < shares <= p.SharesOf(from)
            && shares * p.reserveA <= I128_MAX && shares * p.reserveB <= I128_MAX)
      && (r.Ok? ==> a <= p.reserveA && b <= p.reserveB && shares < p.totalShares
                    && r.value == (p.(reserveA := p.reserveA - a, reserveB := p.reserveB - b, totalShares := p.totalShares - shares,
                                      shares := p.shares[from := p.SharesOf(from) - shares]), (a, b)))
  {
    if 0 < shares <= p.SharesOf(from) {
      HoldingIsPartOfTotal(p, from, shares);
      MulLe(0, shares, p.reserveA);
      MulLe(0, shares, p.reserveB);
      FloorUnique(shares * p.reserveA, p.totalShares, a);
      FloorUnique(shares * p.reserveB, p.totalShares, b);
    }
  }

  /** Nobody has anything to withdraw from a pool that was never deposited into. */
  lemma UnseededWithdrawRefused(p: Pool, from: Address, shares: int)
    requires Inv(p) && p.totalShares == 0
    ensures Withdraw(p, from, shares).Err?
  {
  }

  // ---- pausing and the price ----

  /** Only the admin pauses or resumes, and nothing but the flag moves; while it is set nothing
      else goes through. */
  lemma PauseOutcome(p: Pool, caller: Address, paused: bool)
    ensures var r := SetPaused(p, caller, paused);
      (r.Ok? <==> caller == p.admin) && (r.Ok? ==> r.value.0 == p.(paused := paused))
    ensures p.paused ==> forall c: Call :: !c.SetPausedCall? ==> Step(p, c) == p
  {
  }

  /** The price, to ten million parts, is the largest whose share of the pool a geometric mean of
      the reserves supports. */
  lemma SharePriceOutcome(p: Pool, root: nat, v: nat)
    requires root * root <= p.reserveA * p.reserveB < (root + 1) * (root + 1)
    ensures SharePrice(p).Ok? <==> 0 < p.totalShares && p.reserveA * p.reserveB <= I128_MAX && root * 10_000_000 <= I128_MAX
    ensures SharePrice(p).Ok? ==> (v <= SharePrice(p).value <==> v * p.totalShares <= root * 10_000_000)
  {
    MulLe(0, p.reserveA, p.reserveB);
    IsqrtUnique(root, p.Product());
    if 0 < p.totalShares {
      FloorAtLeast(v, root * 10_000_000, p.totalShares);
    }
  }

  lemma EmptyOutcome(admin: Address)
    ensures Empty(admin).reserveA == 0 && Empty(admin).reserveB == 0 && Empty(admin).totalShares == 0
    ensures Empty(admin).shares == map[] && Empty(admin).admin == admin && !Empty(admin).paused
  {
  }

  /** A pool that its admin pauses and resumes. */
  lemma PausedRun(admin: Address)
    ensures Run(Empty(admin), [SetPausedCall(admin, true)]).paused
    ensures !Run(Empty(admin), [SetPausedCall(admin, true), SetPausedCall(admin, false)]).paused
  {
    var on, off := SetPausedCall(admin, true), SetPausedCall(admin, false);
    assert [on, off][..1] == [on] && [on][..0] == [];
    assert Run(Empty(admin), [on]) == Step(Run(Empty(admin), []), on);
  }
}
