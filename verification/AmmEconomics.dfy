/** What trading and providing liquidity can never earn, over arbitrary runs of calls. */
module AmmEconomics {
  import opened Host
  import opened Arith
  import opened Roots
  import opened AmmModel
  import opened AmmTheorems

  // ---- the direct swap is the best route ----

  predicate IsTrade(c: Call) {
    c.SwapCall? || c.SetPausedCall?
  }

  predicate OnlyTrades(calls: seq<Call>) {
    forall i :: 0 <= i < |calls| ==> IsTrade(calls[i])
  }

  /** The region of reserve pairs that trading can reach from (x, y): the product is not lower,
      and the side that went down is at or above the fee curve through (x, y). */
  ghost predicate OnOrAboveCurve(x: nat, y: nat, x': nat, y': nat) {
    && x * y <= x' * y'
    && (x <= x' ==> 1000 * (x * y) <= y' * (3 * x + 997 * x'))
    && (y <= y' ==> 1000 * (x * y) <= x' * (3 * y + 997 * y'))
  }

  /** One more swap of d units, from (x1, y1) inside the region, stays in the region. */
  lemma SwapStaysOnOrAboveCurve(x: nat, y: nat, x1: nat, y1: nat, d: nat)
    requires 0 < x && 0 < y && 0 < x1 && 0 < y1 && OnOrAboveCurve(x, y, x1, y1)
    ensures AmountOut(x1, y1, d) < y1
    ensures OnOrAboveCurve(x, y, x1 + d, y1 - AmountOut(x1, y1, d))
  {
    var x2, y2 := x1 + d, y1 - AmountOut(x1, y1, d);
    AmountOutIsLargestFair(x1, y1, d);
    AmountOutKeepsProduct(x1, y1, d);
    CurveForward(x, y, x1, y1, d, y2);
    if y <= y2 {
      CurveBackward(x, y, x1, y1, x2, y2);
    }
  }

  lemma CurveForward(x: nat, y: nat, x1: nat, y1: nat, d: nat, y2: nat)
    requires 0 < x && 0 < x1 && OnOrAboveCurve(x, y, x1, y1)
    requires 1000 * x1 * y1 <= (x1 * 1000 + d * 997) * y2
    ensures x <= x1 + d ==> 1000 * (x * y) <= y2 * (3 * x + 997 * (x1 + d))
  {
    var w, v, c := 1000 * x1 + 997 * d, 3 * x + 997 * (x1 + d), 3 * x + 997 * x1;
    if x <= x1 {
      CurveSlope(c, 1000 * x1, 997 * d);
      FeeStep(c, w, v, 1000 * x1, y1, y2);
      assert y1 * c == c * y1 && y2 * v == v * y2;
    } else {
      MulLe(w, v, y2);
      assert 1000 * x1 * y1 == 1000 * (x1 * y1);
    }
  }

  lemma CurveSlope(c: nat, m: nat, f: nat)
    requires c <= m
    ensures c * (m + f) <= m * (c + f)
  {
    MulLe(c, m, f);
    assert c * (m + f) == c * m + c * f && m * (c + f) == m * c + m * f;
  }

  lemma FeeStep(c: nat, w: nat, v: nat, m: nat, y1: nat, y2: nat)
    requires 0 < w && c * w <= m * v && m * y1 <= w * y2
    ensures c * y1 <= v * y2
  {
    MulLe(c * w, m * v, y1);
    MulLe(m * y1, w * y2, v);
    assert (c * w) * y1 == (c * y1) * w && (m * v) * y1 == (m * y1) * v && (w * y2) * v == (v * y2) * w;
    CancelLe(c * y1, v * y2, w);
  }

  lemma CurveBackward(x: nat, y: nat, x1: nat, y1: nat, x2: nat, y2: nat)
    requires x1 <= x2 && x1 * y1 <= x2 * y2 && 1000 * (x * y) <= x1 * (3 * y + 997 * y1)
    ensures 1000 * (x * y) <= x2 * (3 * y + 997 * y2)
  {
    MulLe(x1, x2, y);
    CurveSplit(x1, y, y1);
    CurveSplit(x2, y, y2);
  }

  lemma CurveSplit(a: nat, y: nat, b: nat)
    ensures a * (3 * y + 997 * b) == 3 * (a * y) + 997 * (a * b)
  {
  }

  lemma CurveStart(x: nat, y: nat)
    ensures OnOrAboveCurve(x, y, x, y)
  {
    CurveSplit(y, x, x);
    CurveSplit(x, y, y);
    assert y * x == x * y;
  }

  lemma OnOrAboveCurveSwapped(x: nat, y: nat, x': nat, y': nat)
    ensures OnOrAboveCurve(x, y, x', y') <==> OnOrAboveCurve(y, x, y', x')
  {
    assert x * y == y * x && x' * y' == y' * x';
  }

  lemma TradeStep(x: nat, y: nat, p: Pool, c: Call)
    requires IsTrade(c) && Inv(p) && 0 < p.totalShares
    requires 0 < x && 0 < y && OnOrAboveCurve(x, y, p.reserveA, p.reserveB)
    ensures var q := Step(p, c);
      Inv(q) && q.totalShares == p.totalShares && OnOrAboveCurve(x, y, q.reserveA, q.reserveB)
  {
    StepKeeps(p, c);
    if c.SwapCall? && Swap(p, c.token, c.amountIn, c.minAmountOut).Ok? {
      if c.token == TokenA {
        SwapStaysOnOrAboveCurve(x, y, p.reserveA, p.reserveB, c.amountIn);
      } else {
        var q := Step(p, c);
        OnOrAboveCurveSwapped(x, y, p.reserveA, p.reserveB);
        SwapStaysOnOrAboveCurve(y, x, p.reserveB, p.reserveA, c.amountIn);
        OnOrAboveCurveSwapped(x, y, q.reserveA, q.reserveB);
      }
    }
  }

  lemma {:induction false} TradesStayOnOrAboveCurve(p: Pool, calls: seq<Call>)
    requires OnlyTrades(calls) && Inv(p) && 0 < p.totalShares
    ensures var q := Run(p, calls);
      Inv(q) && q.totalShares == p.totalShares && OnOrAboveCurve(p.reserveA, p.reserveB, q.reserveA, q.reserveB)
  {
    var x, y := p.reserveA, p.reserveB;
    if calls == [] {
      CurveStart(x, y);
    } else {
      var init := calls[..|calls| - 1];
      TradesStayOnOrAboveCurve(p, init);
      TradeStep(x, y, Run(p, init), calls[|calls| - 1]);
    }
  }

  lemma CurveIsDirectQuote(x: nat, y: nat, x': nat, y': nat)
    requires 0 < x <= x' && 1000 * (x * y) <= y' * (3 * x + 997 * x')
    ensures y - y' <= AmountOut(x, y, x' - x)
  {
    var d := x' - x;
    var w := x * 1000 + d * 997;
    assert y' * (3 * x + 997 * x') == y' * w;
    assert (y - y') * w == y * w - y' * w;
    assert y * w == 1000 * (x * y) + d * 997 * y;
    FloorAtLeast(y - y', d * 997 * y, w);
  }

  /** No route beats the direct one.  Whatever swaps are made from a seeded pool, in either
      direction, in any number, by anybody: if the pool ends with d more of one token, it gave
      away at most what a single swap of d would have paid. */
  lemma DirectSwapIsBest(p: Pool, calls: seq<Call>)
    requires OnlyTrades(calls) && Inv(p) && 0 < p.totalShares
    ensures var q := Run(p, calls);
      && (p.reserveA <= q.reserveA ==> p.reserveB - q.reserveB <= AmountOut(p.reserveA, p.reserveB, q.reserveA - p.reserveA))
      && (p.reserveB <= q.reserveB ==> p.reserveA - q.reserveA <= AmountOut(p.reserveB, p.reserveA, q.reserveB - p.reserveB))
  {
    TradesStayOnOrAboveCurve(p, calls);
    var q := Run(p, calls);
    WithinDirectQuote(p.reserveA, p.reserveB, q.reserveA, q.reserveB);
    OnOrAboveCurveSwapped(p.reserveA, p.reserveB, q.reserveA, q.reserveB);
    WithinDirectQuote(p.reserveB, p.reserveA, q.reserveB, q.reserveA);
  }

  lemma WithinDirectQuote(x: nat, y: nat, x': nat, y': nat)
    requires 0 < x && OnOrAboveCurve(x, y, x', y')
    ensures x <= x' ==> y - y' <= AmountOut(x, y, x' - x)
  {
    if x <= x' {
      CurveIsDirectQuote(x, y, x', y');
    }
  }

  /** Splitting a swap in two never pays more than making it at once. */
  lemma SplittingNeverHelps(p: Pool, token: Token, d1: nat, d2: nat, m1: int, m2: int, m: int)
    requires Inv(p) && 0 < p.totalShares
    requires Swap(p, token, d1, m1).Ok? && Swap(Swap(p, token, d1, m1).value.0, token, d2, m2).Ok?
    requires Swap(p, token, d1 + d2, m).Ok?
    ensures var (q, out1) := Swap(p, token, d1, m1).value; var out2 := Swap(q, token, d2, m2).value.1;
      out1 + out2 <= Swap(p, token, d1 + d2, m).value.1
  {
    var calls := [SwapCall(token, d1, m1), SwapCall(token, d2, m2)];
    RunOfTwo(p, calls[0], calls[1]);
    DirectSwapIsBest(p, calls);
  }

  /** Swapping out and straight back never returns more than went in. */
  lemma RoundTripNeverProfits(p: Pool, token: Token, back: Token, dx: nat, m1: int, m2: int)
    requires Inv(p) && 0 < p.totalShares && token != back
    requires Swap(p, token, dx, m1).Ok?
    requires var (q, out) := Swap(p, token, dx, m1).value; Swap(q, back, out, m2).Ok?
    ensures var (q, out) := Swap(p, token, dx, m1).value; Swap(q, back, out, m2).value.1 <= dx
  {
    var out := Swap(p, token, dx, m1).value.1;
    var calls := [SwapCall(token, dx, m1), SwapCall(back, out, m2)];
    RunOfTwo(p, calls[0], calls[1]);
    DirectSwapIsBest(p, calls);
    NothingInNothingOut(p.reserveA, p.reserveB);
  }

  lemma NothingInNothingOut(x: nat, y: nat)
    requires 0 < x && 0 < y
    ensures AmountOut(x, y, 0) == 0 && AmountOut(y, x, 0) == 0
  {
    FloorUnique(0, x * 1000, 0);
    FloorUnique(0, y * 1000, 0);
  }

  /** No run of swaps takes from one reserve without adding to the other. */
  lemma NoFreeLunch(p: Pool, calls: seq<Call>)
    requires OnlyTrades(calls) && Inv(p) && 0 < p.totalShares
    ensures var q := Run(p, calls);
      && (q.reserveA <= p.reserveA && q.reserveB <= p.reserveB ==> q.reserveA == p.reserveA && q.reserveB == p.reserveB)
  {
    TradesStayOnOrAboveCurve(p, calls);
    var q := Run(p, calls);
    if q.reserveA <= p.reserveA && q.reserveB <= p.reserveB {
      ProductDetermines(p.reserveA, p.reserveB, q.reserveA, q.reserveB);
    }
  }

  /** Nor does any run of calls that ends with at least as many shares as it began with. */
  lemma NoFreeLunchAtEqualShares(p: Pool, calls: seq<Call>)
    requires Inv(p) && 0 < p.totalShares <= Run(p, calls).totalShares
    ensures var q := Run(p, calls);
      && (q.reserveA <= p.reserveA && q.reserveB <= p.reserveB ==> q.reserveA == p.reserveA && q.reserveB == p.reserveB)
  {
    RunKeeps(p, calls);
    var q := Run(p, calls);
    ProductNotLower(p.Product(), p.totalShares, q.Product(), q.totalShares);
    if q.reserveA <= p.reserveA && q.reserveB <= p.reserveB {
      ProductDetermines(p.reserveA, p.reserveB, q.reserveA, q.reserveB);
    }
  }

  lemma ProductNotLower(k: nat, t: nat, k': nat, t': nat)
    requires 0 < t <= t' && k * (t' * t') <= k' * (t * t)
    ensures k <= k'
  {
    MulLe2(t, t', t, t');
    MulLe2(1, t, 1, t);
    MulLe(t * t, t' * t', k);
    assert k * (t * t) == (t * t) * k && k * (t' * t') == (t' * t') * k;
    CancelLe(k, k', t * t);
  }

  lemma ProductDetermines(x: nat, y: nat, x': nat, y': nat)
    requires 0 < x && 0 < y && x' <= x && y' <= y && x * y <= x' * y'
    ensures x == x' && y == y'
  {
    MulLe(x', x, y);
    assert x' * y - x' * y' == x' * (y - y');
    if x' < x {
      MulLe(x' + 1, x, y);
      MulLe(0, y - y', x');
    } else if y' < y {
      MulLe2(1, x', 1, y - y');
    }
  }

  // ---- providing liquidity and taking it straight back ----

  /** What a first deposit of these amounts mints for its maker. */
  function FirstMint(receivedA: nat, receivedB: nat): int {
    Isqrt(receivedA * receivedB) - MINIMUM_LIQUIDITY
  }

  /** When the pool was empty, the first depositor also owns nearly all of what earlier swaps
      gave away; the guard, which a depositor can check beforehand, says when that does not show
      in the amount of one token paid back. */
  predicate GiftTooSmallToShow(p: Pool, receivedA: nat, receivedB: nat, reserve: nat, received: nat) {
    0 < p.totalShares || FirstMint(receivedA, receivedB) * (reserve - 1) < MINIMUM_LIQUIDITY * (received + 1)
  }

  /** Withdrawing freshly minted shares at once returns at most what was received, on each side,
      exactly when the pool was already seeded or the earlier gift to that side is too small. */
  lemma DepositThenWithdraw(p: Pool, from: Address, amountA: int, amountB: int, receivedA: int, receivedB: int)
    requires Inv(p) && Deposit(p, from, amountA, amountB, receivedA, receivedB).Ok?
    requires var (q, minted) := Deposit(p, from, amountA, amountB, receivedA, receivedB).value; Withdraw(q, from, minted).Ok?
    ensures var (q, minted) := Deposit(p, from, amountA, amountB, receivedA, receivedB).value;
      var (backA, backB) := Withdraw(q, from, minted).value.1;
      && (backA <= receivedA <==> GiftTooSmallToShow(p, receivedA, receivedB, p.reserveA, receivedA))
      && (backB <= receivedB <==> GiftTooSmallToShow(p, receivedA, receivedB, p.reserveB, receivedB))
  {
    var minted := Deposit(p, from, amountA, amountB, receivedA, receivedB).value.1;
    if p.totalShares == 0 {
      assert minted == FirstMint(receivedA, receivedB);
      GiftRedeemed(minted, p.reserveA, receivedA);
      GiftRedeemed(minted, p.reserveB, receivedB);
    } else {
      FreshSharesRedeemed(p.totalShares, p.reserveA, receivedA, minted);
      FreshSharesRedeemed(p.totalShares, p.reserveB, receivedB, minted);
    }
  }

  /** A pool without a gift is safe: seeded, or with empty reserves. */
  lemma NoGiftNoProfit(p: Pool, from: Address, amountA: int, amountB: int, receivedA: int, receivedB: int)
    requires Inv(p) && Deposit(p, from, amountA, amountB, receivedA, receivedB).Ok?
    requires 0 < p.totalShares || p.reserveA == p.reserveB == 0
    requires var (q, minted) := Deposit(p, from, amountA, amountB, receivedA, receivedB).value; Withdraw(q, from, minted).Ok?
    ensures var (q, minted) := Deposit(p, from, amountA, amountB, receivedA, receivedB).value;
      var (backA, backB) := Withdraw(q, from, minted).value.1;
      backA <= receivedA && backB <= receivedB
  {
    DepositThenWithdraw(p, from, amountA, amountB, receivedA, receivedB);
  }

  lemma FreshSharesRedeemed(t: nat, reserve: nat, received: nat, minted: nat)
    requires 0 < t && 0 < reserve && minted <= MintedFor(received, t, reserve)
    ensures RedeemedFor(minted, reserve + received, t + minted) <= received
  {
    FloorAtLeast(minted, received * t, reserve);
    assert minted * (reserve + received) == minted * reserve + minted * received;
    assert received * (t + minted) == received * t + minted * received;
    FloorLe(minted * (reserve + received), received * (t + minted), t + minted);
    FloorUnique(received * (t + minted), t + minted, received);
  }

  lemma GiftRedeemed(minted: nat, reserve: nat, received: nat)
    ensures RedeemedFor(minted, reserve + received, MINIMUM_LIQUIDITY + minted) <= received
            <==> minted * (reserve - 1) < MINIMUM_LIQUIDITY * (received + 1)
  {
    var t, n := MINIMUM_LIQUIDITY + minted, minted * (reserve + received);
    FloorAtLeast(received + 1, n, t);
    assert n == minted * (reserve - 1) + minted * (received + 1);
    assert (received + 1) * t == MINIMUM_LIQUIDITY * (received + 1) + minted * (received + 1);
  }

  /** A pool where the guard fails: 10 000 of token A swapped in before the first deposit, whose
      maker then takes back 6 000 for the 2 000 put in. */
  lemma FirstDepositorTakesTheGift(admin: Address, provider: Address)
    ensures var p := Run(Empty(admin), [SwapCall(TokenA, 10_000, 0), DepositCall(provider, 2_000, 2_000, 2_000, 2_000)]);
      Withdraw(p, provider, 1_000).Ok? && Withdraw(p, provider, 1_000).value.1 == (6_000, 1_000)
  {
    RunOfTwo(Empty(admin), SwapCall(TokenA, 10_000, 0), DepositCall(provider, 2_000, 2_000, 2_000, 2_000));
    GiftSwap(admin);
    GiftDeposit(admin, provider);
    FloorUnique(1_000 * 12_000, 2_000, 6_000);
    FloorUnique(1_000 * 2_000, 2_000, 1_000);
  }

  lemma GiftSwap(admin: Address)
    ensures Swap(Empty(admin), TokenA, 10_000, 0) == Ok((Empty(admin).(reserveA := 10_000), 0))
  {
    FloorUnique(0, 9_970_000, 0);
  }

  lemma GiftShares(admin: Address)
    ensures DepositShares(Empty(admin).(reserveA := 10_000), 2_000, 2_000) == Ok((1_000, 1_000))
  {
    IsqrtUnique(2_000, 4_000_000);
  }

  lemma GiftDeposit(admin: Address, provider: Address)
    ensures Deposit(Empty(admin).(reserveA := 10_000), provider, 2_000, 2_000, 2_000, 2_000)
            == Ok((Pool(admin, 12_000, 2_000, 2_000, map[provider := 1_000], false), 1_000))
  {
    GiftShares(admin);
  }

  // ---- the share price ----

  /** Every successful price reading of a reachable pool is at least one whole unit. */
  lemma PriceAtLeastOne(p: Pool)
    requires Inv(p) && 0 < p.totalShares
    ensures PRICE_PRECISION <= PriceOf(p)
    ensures SharePrice(p) == Ok(PriceOf(p)) || SharePrice(p) == Err(Overflow)
  {
    IsqrtIsGreatest(p.totalShares, p.Product());
    MulLe(p.totalShares, Isqrt(p.Product()), PRICE_PRECISION);
    FloorAtLeast(PRICE_PRECISION, Isqrt(p.Product()) * PRICE_PRECISION, p.totalShares);
  }

  /** Trading never lowers the price. */
  lemma TradingNeverLowersPrice(p: Pool, calls: seq<Call>)
    requires OnlyTrades(calls) && Inv(p) && 0 < p.totalShares
    ensures 0 < Run(p, calls).totalShares && PriceOf(p) <= PriceOf(Run(p, calls))
  {
    TradesStayOnOrAboveCurve(p, calls);
    var q := Run(p, calls);
    IsqrtMonotone(p.Product(), q.Product());
    MulLe(Isqrt(p.Product()), Isqrt(q.Product()), PRICE_PRECISION);
    FloorLe(Isqrt(p.Product()) * PRICE_PRECISION, Isqrt(q.Product()) * PRICE_PRECISION, p.totalShares);
  }

  /** Over any run, deposits and withdrawals included, rounding costs the price at most 10 000
      parts in 10^7 in total, however long the run is. */
  lemma PriceNeverFallsFar(p: Pool, calls: seq<Call>)
    requires Inv(p) && 0 < p.totalShares
    ensures 0 < Run(p, calls).totalShares && PriceOf(p) <= PriceOf(Run(p, calls)) + 10_000
  {
    RunKeeps(p, calls);
    var q := Run(p, calls);
    Sums.SumNonNegative(q.shares);
    RootsKeepBacking(p.Product(), p.totalShares, q.Product(), q.totalShares);
    PriceArithmetic(Isqrt(p.Product()), p.totalShares, Isqrt(q.Product()), q.totalShares);
  }

  /** The least geometric mean of the reserves that supports a price for so many shares. */
  function RootFor(price: nat, shares: nat): int {
    CeilDiv(price * shares, PRICE_PRECISION)
  }

  lemma PriceReachedIff(price: nat, product: nat, shares: nat)
    requires 0 < shares
    ensures 0 <= RootFor(price, shares)
    ensures price <= Isqrt(product) * PRICE_PRECISION / shares <==> RootFor(price, shares) * RootFor(price, shares) <= product
  {
    var root := RootFor(price, shares);
    MulLe(0, price, shares);
    CeilAtMost(price * shares, PRICE_PRECISION, -1);
    FloorAtLeast(price, Isqrt(product) * PRICE_PRECISION, shares);
    CeilAtMost(price * shares, PRICE_PRECISION, Isqrt(product));
    IsqrtIsGreatest(root, product);
  }

  /** A deposit into a seeded pool keeps the price exactly when the reserves it makes still
      support that price for the shares there will be, all of it known before the call. */
  lemma DepositKeepsPriceIff(p: Pool, from: Address, amountA: int, amountB: int, receivedA: int, receivedB: int)
    requires Inv(p) && 0 < p.totalShares && Deposit(p, from, amountA, amountB, receivedA, receivedB).Ok?
    ensures var q := Deposit(p, from, amountA, amountB, receivedA, receivedB).value.0;
      var minted := Min(MintedFor(receivedA, p.totalShares, p.reserveA), MintedFor(receivedB, p.totalShares, p.reserveB));
      var root := RootFor(PriceOf(p), p.totalShares + minted);
      PriceOf(p) <= PriceOf(q) <==> root * root <= (p.reserveA + receivedA) * (p.reserveB + receivedB)
  {
    var q := Deposit(p, from, amountA, amountB, receivedA, receivedB).value.0;
    PriceReachedIff(PriceOf(p), q.Product(), q.totalShares);
  }

  /** The same for a withdrawal, which always leaves the locked shares behind. */
  lemma WithdrawKeepsPriceIff(p: Pool, from: Address, shares: int)
    requires Inv(p) && 0 < p.totalShares && Withdraw(p, from, shares).Ok?
    ensures shares < p.totalShares
    ensures var q := Withdraw(p, from, shares).value.0;
      var leftA, leftB := p.reserveA - RedeemedFor(shares, p.reserveA, p.totalShares), p.reserveB - RedeemedFor(shares, p.reserveB, p.totalShares);
      var root := RootFor(PriceOf(p), p.totalShares - shares);
      PriceOf(p) <= PriceOf(q) <==> root * root <= leftA * leftB
  {
    var q := Withdraw(p, from, shares).value.0;
    HoldingIsPartOfTotal(p, from, shares);
    PriceReachedIff(PriceOf(p), q.Product(), q.totalShares);
  }

  lemma RootsKeepBacking(k: nat, t: nat, k': nat, t': nat)
    requires 0 < t && k * (t' * t') <= k' * (t * t)
    ensures Isqrt(k) * t' < (Isqrt(k') + 1) * t
  {
    var g, h := Isqrt(k), Isqrt(k') + 1;
    RatioOfRoots(g * g, k, t' * t', k', t * t, h * h);
    SquareOfProduct(g, t');
    SquareOfProduct(h, t);
    SmallerSquare(g * t', h * t);
  }

  lemma RatioOfRoots(gg: nat, k: nat, tt': nat, k': nat, tt: nat, hh: nat)
    requires gg <= k && k' < hh && 0 < tt && k * tt' <= k' * tt
    ensures gg * tt' < hh * tt
  {
    MulLe(gg, k, tt');
    MulLe(k' + 1, hh, tt);
    assert (k' + 1) * tt == k' * tt + tt;
  }

  lemma SquareOfProduct(a: nat, b: nat)
    ensures (a * b) * (a * b) == (a * a) * (b * b)
  {
  }

  lemma SmallerSquare(a: nat, b: nat)
    requires a * a < b * b
    ensures a < b
  {
    if b <= a {
      MulLe2(b, a, b, a);
    }
  }

  lemma PriceArithmetic(g: nat, t: nat, g': nat, t': nat)
    requires 0 < t && 1000 <= t' && g * t' < (g' + 1) * t
    ensures g * PRICE_PRECISION / t <= g' * PRICE_PRECISION / t' + 10_000
  {
    var k := PRICE_PRECISION;
    var a, b := g * k / t, g' * k / t';
    FloorDiv(g * k, t);
    FloorDiv(g' * k, t');
    // a*t*t' <= g*k*t' < (g'+1)*k*t, hence a*t' < (g'+1)*k < (b+1)*t' + k
    MulLe(a * t, g * k, t');
    assert a * t * t' == (a * t') * t && g * k * t' == k * (g * t') && k * ((g' + 1) * t) == ((g' + 1) * k) * t;
    MulLe(g * t' + 1, (g' + 1) * t, k);
    StrictCancel(a * t', (g' + 1) * k, t);
    assert (g' + 1) * k == g' * k + k && (b + 1) * t' == b * t' + t';
    assert (b + 10_001) * t' == b * t' + 10_001 * t';
    StrictCancel(a, b + 10_001, t');
  }

  lemma StrictCancel(a: int, b: int, c: nat)
    requires a * c < b * c
    ensures a < b
  {
    if b <= a {
      MulLe(b, a, c);
    }
  }

  lemma RunOfTwo(p: Pool, c: Call, d: Call)
    ensures Run(p, [c, d]) == Step(Step(p, c), d)
  {
    assert [c, d][..1] == [c] && [c][..0] == [];
    assert Run(p, [c]) == Step(Run(p, []), c);
  }

  function SeededPool(admin: Address, user: Address): Pool {
    Pool(admin, 1063, 1010, 1036, map[user := 36], false)
  }

  /** The same pool after a swap. */
  function TradedPool(admin: Address, user: Address): Pool {
    Pool(admin, 1346, 799, 1036, map[user := 36], false)
  }

  lemma SeedingDeposit(admin: Address, user: Address)
    ensures Deposit(Empty(admin), user, 1063, 1010, 1063, 1010) == Ok((SeededPool(admin, user), 36))
  {
    IsqrtUnique(1036, 1063 * 1010);
    assert DepositShares(Empty(admin), 1063, 1010) == Ok((1000, 36));
  }

  lemma SeedingSwap(admin: Address, user: Address)
    ensures Swap(SeededPool(admin, user), TokenA, 283, 0) == Ok((TradedPool(admin, user), 211))
  {
    FloorUnique(283 * 997 * 1010, 1063 * 1000 + 283 * 997, 211);
  }

  /** The price can fall a little: in a pool seeded with 1063 and 1010 and traded once, depositing
      85 and 51 lowers it from 1.0009652 to 1.0009082, so exact monotonicity does not hold across
      deposits. */
  lemma DepositCanLowerPrice(admin: Address, user: Address)
    ensures var p := Run(Empty(admin), [DepositCall(user, 1063, 1010, 1063, 1010), SwapCall(TokenA, 283, 0)]);
      var q := Run(p, [DepositCall(user, 85, 51, 85, 51)]);
      0 < p.totalShares && 0 < q.totalShares && PriceOf(p) == 10_009_652 && PriceOf(q) == 10_009_082
  {
    SeedingDeposit(admin, user);
    SeedingSwap(admin, user);
    RunOfTwo(Empty(admin), DepositCall(user, 1063, 1010, 1063, 1010), SwapCall(TokenA, 283, 0));
    var deposit := DepositCall(user, 85, 51, 85, 51);
    assert [deposit][..0] == [];
    assert Run(TradedPool(admin, user), [deposit]) == Step(TradedPool(admin, user), deposit);
    LoweringDeposit(admin, user);
    LoweredPrices();
  }

  lemma LoweringDeposit(admin: Address, user: Address)
    ensures Deposit(TradedPool(admin, user), user, 85, 51, 85, 51) == Ok((Pool(admin, 1431, 850, 1101, map[user := 101], false), 65))
  {
    FloorUnique(85 * 1036, 1346, 65);
    FloorUnique(51 * 1036, 799, 66);
    assert map[user := 36][user := 101] == map[user := 101];
    assert DepositShares(TradedPool(admin, user), 85, 51) == Ok((1036, 65));
  }

  lemma LoweredPrices()
    ensures Isqrt(1346 * 799) * PRICE_PRECISION / 1036 == 10_009_652 && Isqrt(1431 * 850) * PRICE_PRECISION / 1101 == 10_009_082
  {
    IsqrtUnique(1037, 1346 * 799);
    IsqrtUnique(1102, 1431 * 850);
    FloorUnique(1037 * PRICE_PRECISION, 1036, 10_009_652);
    FloorUnique(1102 * PRICE_PRECISION, 1101, 10_009_082);
  }
}
