/** The constant-product pool as a state machine: one function per entry point, each returning the
    next pool and the entry point's result, or the panic that leaves the pool as it was. */
module AmmModel {
  import opened Host
  import opened Arith
  import opened Roots

  const MINIMUM_LIQUIDITY := 1000
  const PRICE_PRECISION := 10_000_000

  datatype Error =
    | PoolPaused
    | Unauthorized
    | AmountsNotPositive
    | NothingReceived
    | Overflow
    | DivisionByZero
    | InsufficientInitialLiquidity
    | InsufficientLiquidity
    | InvalidToken
    | TransferRejected
    | SlippageExceeded
    | InsufficientShares
    | NoShares

  /** The token named by a caller, relative to the pool's own pair. */
  datatype Token = TokenA | TokenB | Foreign

  datatype Pool = Pool(
    admin: Address,
    reserveA: nat,
    reserveB: nat,
    totalShares: nat,
    shares: map<Address, nat>,
    paused: bool)
  {
    function Product(): nat {
      reserveA * reserveB
    }

    function SharesOf(user: Address): nat {
      GetOr(shares, user, 0)
    }
  }

  function Empty(admin: Address): Pool {
    Pool(admin, 0, 0, 0, map[], false)
  }

  // ---- the three quotes ----

  /** The output of a swap: constant product with a 0.3% fee on the input, rounded down. */
  function AmountOut(reserveIn: nat, reserveOut: nat, amountIn: nat): nat
    requires 0 < reserveIn + amountIn
  {
    MulLe(0, amountIn * 997, reserveOut);
    FloorAtLeast(0, amountIn * 997 * reserveOut, reserveIn * 1000 + amountIn * 997);
    amountIn * 997 * reserveOut / (reserveIn * 1000 + amountIn * 997)
  }

  function MintedFor(received: nat, totalShares: nat, reserve: nat): nat
    requires 0 < reserve
  {
    received * totalShares / reserve
  }

  function RedeemedFor(shares: nat, reserve: nat, totalShares: nat): nat
    requires 0 < totalShares
  {
    shares * reserve / totalShares
  }

  // ---- the quotes are what they should be ----

  /** The output is the largest payout that keeps the fee-adjusted product. */
  lemma AmountOutIsLargestFair(x: nat, y: nat, dx: nat)
    requires 0 < x + dx
    ensures var out := AmountOut(x, y, dx); var d := x * 1000 + dx * 997;
      out <= y && d * (y - out) >= 1000 * x * y && d * (y - (out + 1)) < 1000 * x * y
  {
    var out, n, d := AmountOut(x, y, dx), dx * 997 * y, x * 1000 + dx * 997;
    FloorDiv(n, d);
    assert d * y == 1000 * x * y + n;
    MulLe(0, 1000 * x, y);
    FloorLe(n, y * d, d);
    FloorUnique(y * d, d, y);
    assert d * (y - out) == d * y - out * d;
    assert d * (y - (out + 1)) == d * y - (out + 1) * d;
  }

  /** Ignoring the fee, the payout is at most the proportional one, and it never empties a
      reserve whose partner was not empty. */
  lemma AmountOutKeepsProduct(x: nat, y: nat, dx: nat)
    requires 0 < x + dx
    ensures var out := AmountOut(x, y, dx); out <= y && x * y <= (x + dx) * (y - out)
    ensures 0 < x && 0 < y ==> AmountOut(x, y, dx) < y
  {
    var out, d := AmountOut(x, y, dx), x * 1000 + dx * 997;
    AmountOutIsLargestFair(x, y, dx);
    MulLe(d, 1000 * (x + dx), y - out);
    assert 1000 * (x + dx) * (y - out) == 1000 * ((x + dx) * (y - out));
    assert 1000 * x * y == 1000 * (x * y);
    if 0 < x && 0 < y {
      MulLe2(1, x, 1, y);
      assert out == y ==> d * (y - out) == 0;
    }
  }

  // ---- entry points ----

  function DepositShares(p: Pool, receivedA: nat, receivedB: nat): Result<(nat, nat), Error>
    requires 0 < receivedA && 0 < receivedB
  {
    if p.totalShares == 0 then
      var product :- Checked(receivedA * receivedB, Overflow);
      var initial := Isqrt(product);
      if initial <= MINIMUM_LIQUIDITY then Err(InsufficientInitialLiquidity)
      else Ok((MINIMUM_LIQUIDITY, initial - MINIMUM_LIQUIDITY))
    else
      var productA :- Checked(receivedA * p.totalShares, Overflow);
      :- Need(0 < p.reserveA, DivisionByZero);
      var productB :- Checked(receivedB * p.totalShares, Overflow);
      :- Need(0 < p.reserveB, DivisionByZero);
      Ok((p.totalShares,
          Min(MintedFor(receivedA, p.totalShares, p.reserveA), MintedFor(receivedB, p.totalShares, p.reserveB))))
  }

  /** `deposit`: the received amounts are what the token contracts delivered, which the pool
      measures itself. */
  function Deposit(p: Pool, from: Address, amountA: int, amountB: int, receivedA: int, receivedB: int): Result<(Pool, nat), Error> {
    if p.paused then Err(PoolPaused)
    else if !(amountA > 0 && amountB > 0) then Err(AmountsNotPositive)
    else if !(receivedA > 0 && receivedB > 0) then Err(NothingReceived)
    else
      var (base, minted) :- DepositShares(p, receivedA, receivedB);
      if minted == 0 then Err(InsufficientLiquidity) else
      var reserveA :- Checked(p.reserveA + receivedA, Overflow);
      var reserveB :- Checked(p.reserveB + receivedB, Overflow);
      var total :- Checked(base + minted, Overflow);
      var held :- Checked(p.SharesOf(from) + minted, Overflow);
      Ok((p.(reserveA := reserveA, reserveB := reserveB, totalShares := total, shares := p.shares[from := held]),
          minted))
  }

  /** `swap`.  A negative input is refused by the token contract's transfer. */
  function Swap(p: Pool, token: Token, amountIn: int, minAmountOut: int): Result<(Pool, nat), Error> {
    if p.paused then Err(PoolPaused)
    else if token == Foreign then Err(InvalidToken)
    else if amountIn < 0 then Err(TransferRejected)
    else
      var (reserveIn, reserveOut) := if token == TokenA then (p.reserveA, p.reserveB) else (p.reserveB, p.reserveA);
      var amountInWithFee :- Checked(amountIn * 997, Overflow);
      var numerator :- Checked(amountInWithFee * reserveOut, Overflow);
      var scaledReserve :- Checked(reserveIn * 1000, Overflow);
      var denominator :- Checked(scaledReserve + amountInWithFee, Overflow);
      :- Need(denominator > 0, DivisionByZero);
      var out := AmountOut(reserveIn, reserveOut, amountIn);
      if out < minAmountOut then Err(SlippageExceeded) else
      // the new input reserve fits because the denominator does
      AmountOutKeepsProduct(reserveIn, reserveOut, amountIn);
      var (newIn, newOut) := (reserveIn + amountIn, reserveOut - out);
      Ok((if token == TokenA then p.(reserveA := newIn, reserveB := newOut)
          else p.(reserveB := newIn, reserveA := newOut),
          out))
  }

  /** A holder's share of a reserve never exceeds the reserve. */
  lemma RedeemedAtMostReserve(shares: nat, reserve: nat, totalShares: nat)
    requires shares <= totalShares && 0 < totalShares
    ensures RedeemedFor(shares, reserve, totalShares) <= reserve
  {
    MulLe(shares, totalShares, reserve);
    assert reserve * totalShares == totalShares * reserve;
    FloorLe(shares * reserve, reserve * totalShares, totalShares);
    FloorUnique(reserve * totalShares, totalShares, reserve);
  }

  /** `withdraw`. */
  function Withdraw(p: Pool, from: Address, shares: int): Result<(Pool, (nat, nat)), Error> {
    if p.paused then Err(PoolPaused)
    else if shares <= 0 || p.SharesOf(from) < shares then Err(InsufficientShares)
    else
      var productA :- Checked(shares * p.reserveA, Overflow);
      :- Need(0 < p.totalShares, DivisionByZero);
      var productB :- Checked(shares * p.reserveB, Overflow);
      var amountA, amountB := RedeemedFor(shares, p.reserveA, p.totalShares), RedeemedFor(shares, p.reserveB, p.totalShares);
      :- Need(amountA <= p.reserveA && amountB <= p.reserveB && shares <= p.totalShares, Overflow);
      Ok((p.(reserveA := p.reserveA - amountA, reserveB := p.reserveB - amountB,
             totalShares := p.totalShares - shares, shares := p.shares[from := p.SharesOf(from) - shares]),
          (amountA, amountB)))
  }

  /** `pause_pool` and `unpause_pool`. */
  function SetPaused(p: Pool, caller: Address, paused: bool): Result<(Pool, ()), Error> {
    if caller != p.admin then Err(Unauthorized) else Ok((p.(paused := paused), ()))
  }

  /** `get_share_price`: the geometric mean of the reserves per share, scaled by 10^7. */
  function SharePrice(p: Pool): Result<nat, Error> {
    if p.totalShares == 0 then Err(NoShares)
    else
      var product :- Checked(p.Product(), Overflow);
      var numerator :- Checked(Isqrt(p.Product()) * PRICE_PRECISION, Overflow);
      Ok(PriceOf(p))
  }

  function PriceOf(p: Pool): nat
    requires 0 < p.totalShares
  {
    Isqrt(p.Product()) * PRICE_PRECISION / p.totalShares
  }

  // ---- runs ----

  datatype Call =
    | DepositCall(from: Address, amountA: int, amountB: int, receivedA: int, receivedB: int)
    | SwapCall(token: Token, amountIn: int, minAmountOut: int)
    | WithdrawCall(from: Address, shares: int)
    | SetPausedCall(caller: Address, paused: bool)

  /** One call as a step: a panic leaves the pool unchanged. */
  function Step(p: Pool, c: Call): Pool {
    match c
    case DepositCall(from, a, b, ra, rb) => After(p, Deposit(p, from, a, b, ra, rb))
    case SwapCall(token, dx, least) => After(p, Swap(p, token, dx, least))
    case WithdrawCall(from, n) => After(p, Withdraw(p, from, n))
    case SetPausedCall(caller, paused) => After(p, SetPaused(p, caller, paused))
  }

  function Run(p: Pool, calls: seq<Call>): Pool {
    if calls == [] then p else Step(Run(p, calls[..|calls| - 1]), calls[|calls| - 1])
  }
}
