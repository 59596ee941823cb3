/** What every run of the pool keeps, and what no trader or liquidity provider can do to it. */
module AmmTheorems {
  import opened Host
  import opened Arith
  import opened Sums
  import opened AmmModel

  // ---- the pool invariant ----

  /** Before the first deposit nobody holds shares and at most one reserve is non-empty (a swap
      into an unseeded pool is a gift).  From then on the shares are the locked 1000 plus what
      the holders have, both reserves are positive, and the shares are backed. */
  ghost predicate Inv(p: Pool) {
    if p.totalShares == 0 then p.shares == map[] && p.Product() == 0
    else
      && p.totalShares == MINIMUM_LIQUIDITY + Sum(p.shares)
      && 0 < p.reserveA && 0 < p.reserveB
      && p.totalShares * p.totalShares <= p.Product()
  }

  /** The pool's worth per share, squared and cross-multiplied, did not fall from p to q. */
  ghost predicate BackingKept(p: Pool, q: Pool) {
    p.Product() * (q.totalShares * q.totalShares) <= q.Product() * (p.totalShares * p.totalShares)
  }

  lemma BackingFromSides(t: nat, a: nat, b: nat, t': nat, a': nat, b': nat)
    requires t' * a <= t * a' && t' * b <= t * b'
    ensures (a * b) * (t' * t') <= (a' * b') * (t * t)
  {
    MulLe2(t' * a, t * a', t' * b, t * b');
    assert (t' * a) * (t' * b) == (a * b) * (t' * t');
    assert (t * a') * (t * b') == (a' * b') * (t * t);
  }

  lemma StillBacked(k: nat, t: nat, k': nat, t': nat)
    requires 0 < t && t * t <= k && k * (t' * t') <= k' * (t * t)
    ensures t' * t' <= k'
  {
    MulLe2(1, t, 1, t);
    MulLe(t * t, k, t' * t');
    assert (t * t) * (t' * t') == (t' * t') * (t * t);
    CancelLe(t' * t', k', t * t);
  }

  /** Minting at most the proportional number of shares keeps the backing. */
  lemma MintKeepsBacking(t: nat, a: nat, b: nat, receivedA: nat, receivedB: nat, minted: nat)
    requires 0 < t && 0 < a && 0 < b && t * t <= a * b
    requires minted <= MintedFor(receivedA, t, a) && minted <= MintedFor(receivedB, t, b)
    ensures (a * b) * ((t + minted) * (t + minted)) <= ((a + receivedA) * (b + receivedB)) * (t * t)
    ensures (t + minted) * (t + minted) <= (a + receivedA) * (b + receivedB)
  {
    MintSide(t, a, receivedA, minted);
    MintSide(t, b, receivedB, minted);
    BackingFromSides(t, a, b, t + minted, a + receivedA, b + receivedB);
    StillBacked(a * b, t, (a + receivedA) * (b + receivedB), t + minted);
  }

  lemma MintSide(t: nat, a: nat, received: nat, minted: nat)
    requires 0 < a && minted <= MintedFor(received, t, a)
    ensures (t + minted) * a <= t * (a + received)
  {
    FloorAtLeast(minted, received * t, a);
    assert (t + minted) * a == t * a + minted * a && t * (a + received) == t * a + received * t;
  }

  /** Redeeming rounds against the holder on both sides, so it keeps the backing too, and it
      leaves something behind. */
  lemma RedeemKeepsBacking(t: nat, a: nat, b: nat, n: nat)
    requires 0 < n < t && 0 < a && 0 < b && t * t <= a * b
    ensures var a', b' := a - RedeemedFor(n, a, t), b - RedeemedFor(n, b, t);
      && 0 < a' && 0 < b'
      && (a * b) * ((t - n) * (t - n)) <= (a' * b') * (t * t)
      && (t - n) * (t - n) <= a' * b'
  {
    RedeemSide(t, a, n);
    RedeemSide(t, b, n);
    var a', b' := a - RedeemedFor(n, a, t), b - RedeemedFor(n, b, t);
    BackingFromSides(t, a, b, t - n, a', b');
    StillBacked(a * b, t, a' * b', t - n);
  }

  lemma RedeemSide(t: nat, a: nat, n: nat)
    requires 0 < n < t && 0 < a
    ensures RedeemedFor(n, a, t) < a
    ensures (t - n) * a <= t * (a - RedeemedFor(n, a, t))
  {
    var r := RedeemedFor(n, a, t);
    FloorDiv(n * a, t);
    assert (t - n) * a == t * a - n * a && t * (a - r) == t * a - r * t;
    MulLe2(1, t - n, 1, a);
    if a <= r {
      MulLe(0, r - a, t);
    }
  }

  lemma FirstDepositKeeps(p: Pool, from: Address, amountA: int, amountB: int, receivedA: int, receivedB: int)
    requires Inv(p) && p.totalShares == 0
    requires Deposit(p, from, amountA, amountB, receivedA, receivedB).Ok?
    ensures var q := Deposit(p, from, amountA, amountB, receivedA, receivedB).value.0;
      Inv(q) && 0 < q.totalShares && BackingKept(p, q)
  {
    var (q, minted) := Deposit(p, from, amountA, amountB, receivedA, receivedB).value;
    SumStore(map[], from, minted);
    MulLe2(receivedA, q.reserveA, receivedB, q.reserveB);
  }

  lemma LaterDepositKeeps(p: Pool, from: Address, amountA: int, amountB: int, receivedA: int, receivedB: int)
    requires Inv(p) && 0 < p.totalShares
    requires Deposit(p, from, amountA, amountB, receivedA, receivedB).Ok?
    ensures var q := Deposit(p, from, amountA, amountB, receivedA, receivedB).value.0;
      Inv(q) && 0 < q.totalShares && BackingKept(p, q)
  {
    var (q, minted) := Deposit(p, from, amountA, amountB, receivedA, receivedB).value;
    SumStore(p.shares, from, p.SharesOf(from) + minted);
    MintKeepsBacking(p.totalShares, p.reserveA, p.reserveB, receivedA, receivedB, minted);
  }

  lemma SwapEffect(p: Pool, token: Token, amountIn: int, minAmountOut: int)
    requires Swap(p, token, amountIn, minAmountOut).Ok?
    ensures var (q, out) := Swap(p, token, amountIn, minAmountOut).value;
      var (x, y) := if token == TokenA then (p.reserveA, p.reserveB) else (p.reserveB, p.reserveA);
      && 0 <= amountIn && 0 < x + amountIn && out == AmountOut(x, y, amountIn) && out <= y
      && q == (if token == TokenA then p.(reserveA := x + amountIn, reserveB := y - out)
               else p.(reserveB := x + amountIn, reserveA := y - out))
  {
  }

  lemma SwapProduct(p: Pool, q: Pool, token: Token, amountIn: nat)
    requires var (x, y) := if token == TokenA then (p.reserveA, p.reserveB) else (p.reserveB, p.reserveA);
      && 0 < x + amountIn && AmountOut(x, y, amountIn) <= y
      && q == (if token == TokenA then p.(reserveA := x + amountIn, reserveB := y - AmountOut(x, y, amountIn))
               else p.(reserveB := x + amountIn, reserveA := y - AmountOut(x, y, amountIn)))
    ensures p.Product() <= q.Product() && (p.Product() == 0 ==> q.Product() == 0)
  {
    if token == TokenA {
      SwapArithmetic(p.reserveA, p.reserveB, amountIn);
    } else {
      SwapArithmetic(p.reserveB, p.reserveA, amountIn);
      assert p.Product() == p.reserveB * p.reserveA && q.Product() == q.reserveB * q.reserveA;
    }
  }

  lemma SwapKeeps(p: Pool, token: Token, amountIn: int, minAmountOut: int)
    requires Inv(p)
    requires Swap(p, token, amountIn, minAmountOut).Ok?
    ensures var q := Swap(p, token, amountIn, minAmountOut).value.0;
      Inv(q) && BackingKept(p, q) && q.totalShares == p.totalShares
  {
    var q := Swap(p, token, amountIn, minAmountOut).value.0;
    SwapEffect(p, token, amountIn, minAmountOut);
    SwapProduct(p, q, token, amountIn);
    ProductOnlyUp(p, q);
  }

  /** A step that moves only the reserves, and does not lower their product, keeps everything. */
  lemma ProductOnlyUp(p: Pool, q: Pool)
    requires Inv(p) && q.totalShares == p.totalShares && q.shares == p.shares
    requires p.Product() <= q.Product() && (p.Product() == 0 ==> q.Product() == 0)
    ensures Inv(q) && BackingKept(p, q)
  {
    MulLe(p.Product(), q.Product(), p.totalShares * p.totalShares);
    if 0 < p.totalShares {
      MulLe2(1, p.totalShares, 1, p.totalShares);
      assert q.reserveA == 0 || q.reserveB == 0 ==> q.Product() == 0;
    }
  }

  lemma SwapArithmetic(x: nat, y: nat, dx: nat)
    requires 0 < x + dx
    ensures var out := AmountOut(x, y, dx);
      && out <= y && x * y <= (x + dx) * (y - out)
      && (x * y == 0 ==> (x + dx) * (y - out) == 0)
      && (0 < x && 0 < y ==> out < y)
  {
    AmountOutKeepsProduct(x, y, dx);
    if x * y == 0 {
      UnseededSwap(x, y, dx);
    }
  }

  /** A swap into a pool with an empty side pays out either nothing or everything. */
  lemma UnseededSwap(x: nat, y: nat, dx: nat)
    requires 0 < x + dx && x * y == 0
    ensures (x + dx) * (y - AmountOut(x, y, dx)) == 0
  {
    if y == 0 {
      AmountOutIsLargestFair(x, y, dx);
    } else {
      assert x == 0 by {
        MulLe(1, y, x);
      }
      FloorUnique(dx * 997 * y, dx * 997, y);
    }
  }

  lemma WithdrawKeeps(p: Pool, from: Address, shares: int)
    requires Inv(p) && Withdraw(p, from, shares).Ok?
    ensures var q := Withdraw(p, from, shares).value.0;
      Inv(q) && 0 < q.totalShares && BackingKept(p, q)
  {
    var q := Withdraw(p, from, shares).value.0;
    SumStore(p.shares, from, p.SharesOf(from) - shares);
    ValueAtMostSum(p.shares, from);
    RedeemKeepsBacking(p.totalShares, p.reserveA, p.reserveB, shares);
  }

  lemma StepKeeps(p: Pool, c: Call)
    requires Inv(p)
    ensures Inv(Step(p, c))
    ensures BackingKept(p, Step(p, c))
    ensures 0 < p.totalShares ==> 0 < Step(p, c).totalShares
  {
    match c
    case DepositCall(from, a, b, ra, rb) =>
      if Deposit(p, from, a, b, ra, rb).Ok? {
        if p.totalShares == 0 { FirstDepositKeeps(p, from, a, b, ra, rb); } else { LaterDepositKeeps(p, from, a, b, ra, rb); }
      }
    case SwapCall(token, dx, least) =>
      if Swap(p, token, dx, least).Ok? { SwapKeeps(p, token, dx, least); }
    case WithdrawCall(from, n) =>
      if Withdraw(p, from, n).Ok? { WithdrawKeeps(p, from, n); }
    case SetPausedCall(caller, paused) =>
  }

  lemma BackingTransitive(p: Pool, mid: Pool, q: Pool)
    requires 0 < mid.totalShares && BackingKept(p, mid) && BackingKept(mid, q)
    ensures BackingKept(p, q)
  {
    var t0, t1, t2 := p.totalShares, mid.totalShares, q.totalShares;
    MulLe2(1, t1, 1, t1);
    RatioTransitive(p.Product(), t0 * t0, mid.Product(), t1 * t1, q.Product(), t2 * t2);
  }

  /** Over any run at all, no sequence of calls lowers the backing of a share. */
  lemma {:induction false} RunKeeps(p: Pool, calls: seq<Call>)
    requires Inv(p)
    ensures Inv(Run(p, calls))
    ensures 0 < p.totalShares ==> 0 < Run(p, calls).totalShares && BackingKept(p, Run(p, calls))
  {
    if calls != [] {
      var mid, last := Run(p, calls[..|calls| - 1]), calls[|calls| - 1];
      RunKeeps(p, calls[..|calls| - 1]);
      StepKeeps(mid, last);
      if 0 < p.totalShares {
        BackingTransitive(p, mid, Step(mid, last));
      }
    }
  }

  /** The invariant in every pool reachable from a fresh one. */
  lemma ReachableInv(admin: Address, calls: seq<Call>)
    ensures Inv(Run(Empty(admin), calls))
  {
    RunKeeps(Empty(admin), calls);
  }

  /** Once seeded, a pool never divides by zero: no deposit, swap or withdrawal can fail so. */
  lemma SeededNeverDividesByZero(admin: Address, calls: seq<Call>, from: Address, token: Token,
                                 n1: int, n2: int, n3: int, n4: int)
    requires 0 < Run(Empty(admin), calls).totalShares
    ensures var p := Run(Empty(admin), calls);
      && Deposit(p, from, n1, n2, n3, n4) != Err(DivisionByZero)
      && Swap(p, token, n1, n2) != Err(DivisionByZero)
      && Withdraw(p, from, n1) != Err(DivisionByZero)
  {
    ReachableInv(admin, calls);
  }

  lemma HoldingIsPartOfTotal(p: Pool, from: Address, amount: nat)
    requires Inv(p) && 0 < amount <= p.SharesOf(from)
    ensures amount < p.totalShares
    ensures RedeemedFor(amount, p.reserveA, p.totalShares) <= p.reserveA
    ensures RedeemedFor(amount, p.reserveB, p.totalShares) <= p.reserveB
  {
    ValueAtMostSum(p.shares, from);
    RedeemedAtMostReserve(amount, p.reserveA, p.totalShares);
    RedeemedAtMostReserve(amount, p.reserveB, p.totalShares);
  }

  /** The reserves always cover a withdrawal the holder is entitled to: the only way it fails on
      an unpaused pool is that an intermediate product leaves the `i128` range. */
  lemma WithdrawSucceeds(p: Pool, from: Address, shares: int)
    requires Inv(p) && !p.paused && 0 < shares <= p.SharesOf(from)
    ensures Withdraw(p, from, shares).Ok? <==> IsI128(shares * p.reserveA) && IsI128(shares * p.reserveB)
  {
    HoldingIsPartOfTotal(p, from, shares);
  }
}
