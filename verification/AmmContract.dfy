/** The pool contract itself: storage as fields, entry points as methods that check, compute and
    then write.  Each method is proved to make exactly the step of the model, so every history
    of calls from a new pool is a run, and the run theorems apply to it. */
module AmmContract {
  import opened Host
  import opened Roots
  import opened AmmModel

  class Amm {
    var admin: Address
    var reserveA: nat
    var reserveB: nat
    var totalShares: nat
    var shares: map<Address, nat>
    var paused: bool

    function View(): Pool
      reads this
    {
      Pool(admin, reserveA, reserveB, totalShares, shares, paused)
    }

    constructor (admin: Address)
      ensures View() == Empty(admin)
    {
      this.admin := admin;
      reserveA, reserveB, totalShares := 0, 0, 0;
      shares := map[];
      paused := false;
    }

    method SetPaused(caller: Address, value: bool) returns (r: Result<(), Error>)
      modifies this`paused
      ensures View() == Step(old(View()), SetPausedCall(caller, value))
      ensures r == Answer(AmmModel.SetPaused(old(View()), caller, value))
    {
      if caller != admin {
        return Err(Unauthorized);
      }
      paused := value;
      return Ok(());
    }

    /** The share calculation of `deposit`: the total it starts from, and the shares minted. */
    method SharesToMint(receivedA: nat, receivedB: nat) returns (r: Result<(nat, nat), Error>)
      requires 0 < receivedA && 0 < receivedB
      ensures r == DepositShares(View(), receivedA, receivedB)
    {
      if totalShares == 0 {
        var product :- Checked(receivedA * receivedB, Overflow);
        var initial := BabylonianSqrt(product);
        if initial <= MINIMUM_LIQUIDITY {
          return Err(InsufficientInitialLiquidity);
        }
        return Ok((MINIMUM_LIQUIDITY, initial - MINIMUM_LIQUIDITY));
      }
      var productA :- Checked(receivedA * totalShares, Overflow);
      :- Need(reserveA > 0, DivisionByZero);
      var sharesA := MintedFor(receivedA, totalShares, reserveA);
      var productB :- Checked(receivedB * totalShares, Overflow);
      :- Need(reserveB > 0, DivisionByZero);
      var sharesB := MintedFor(receivedB, totalShares, reserveB);
      return Ok((totalShares, if sharesA < sharesB then sharesA else sharesB));
    }

    method Deposit(from: Address, amountA: int, amountB: int, receivedA: int, receivedB: int) returns (r: Result<nat, Error>)
      modifies this
      ensures View() == Step(old(View()), DepositCall(from, amountA, amountB, receivedA, receivedB))
      ensures r == Answer(AmmModel.Deposit(old(View()), from, amountA, amountB, receivedA, receivedB))
    {
      if paused {
        return Err(PoolPaused);
      }
      :- Need(amountA > 0 && amountB > 0, AmountsNotPositive);
      :- Need(receivedA > 0 && receivedB > 0, NothingReceived);
      var minting :- SharesToMint(receivedA, receivedB);
      var (base, minted) := minting;
      if minted <= 0 {
        return Err(InsufficientLiquidity);
      }
      var newA :- Checked(reserveA + receivedA, Overflow);
      var newB :- Checked(reserveB + receivedB, Overflow);
      var newTotal :- Checked(base + minted, Overflow);
      var newHeld :- Checked(GetOr(shares, from, 0) + minted, Overflow);
      reserveA, reserveB, totalShares := newA, newB, newTotal;
      shares := shares[from := newHeld];
      return Ok(minted);
    }

    method Swap(token: Token, amountIn: int, minAmountOut: int) returns (r: Result<nat, Error>)
      modifies this`reserveA, this`reserveB
      ensures View() == Step(old(View()), SwapCall(token, amountIn, minAmountOut))
      ensures r == Answer(AmmModel.Swap(old(View()), token, amountIn, minAmountOut))
    {
      if paused {
        return Err(PoolPaused);
      }
      var reserveIn, reserveOut;
      if token == TokenA {
        reserveIn, reserveOut := reserveA, reserveB;
      } else if token == TokenB {
        reserveIn, reserveOut := reserveB, reserveA;
      } else {
        return Err(InvalidToken);
      }
      :- Need(amountIn >= 0, TransferRejected);
      var amountInWithFee :- Checked(amountIn * 997, Overflow);
      var numerator :- Checked(amountInWithFee * reserveOut, Overflow);
      var scaledReserve :- Checked(reserveIn * 1000, Overflow);
      var denominator :- Checked(scaledReserve + amountInWithFee, Overflow);
      :- Need(denominator > 0, DivisionByZero);
      var amountOut := numerator / denominator;
      if amountOut < minAmountOut {
        return Err(SlippageExceeded);
      }
      AmountOutKeepsProduct(reserveIn, reserveOut, amountIn);
      // the checked sums cannot overflow here: the denominator already fits
      if token == TokenA {
        reserveA, reserveB := reserveA + amountIn, reserveB - amountOut;
      } else {
        reserveB, reserveA := reserveB + amountIn, reserveA - amountOut;
      }
      return Ok(amountOut);
    }

    method Withdraw(from: Address, amount: int) returns (r: Result<(nat, nat), Error>)
      modifies this
      ensures View() == Step(old(View()), WithdrawCall(from, amount))
      ensures r == Answer(AmmModel.Withdraw(old(View()), from, amount))
    {
      if paused {
        return Err(PoolPaused);
      }
      var held := GetOr(shares, from, 0);
      if amount <= 0 || held < amount {
        return Err(InsufficientShares);
      }
      var productA :- Checked(amount * reserveA, Overflow);
      :- Need(totalShares > 0, DivisionByZero);
      var amountA := RedeemedFor(amount, reserveA, totalShares);
      var productB :- Checked(amount * reserveB, Overflow);
      var amountB := RedeemedFor(amount, reserveB, totalShares);
      :- Need(amountA <= reserveA && amountB <= reserveB && amount <= totalShares, Overflow);
      reserveA, reserveB := reserveA - amountA, reserveB - amountB;
      totalShares := totalShares - amount;
      shares := shares[from := held - amount];
      return Ok((amountA, amountB));
    }

    method GetSharePrice() returns (r: Result<nat, Error>)
      ensures r == SharePrice(View())
    {
      if totalShares <= 0 {
        return Err(NoShares);
      }
      var product :- Checked(reserveA * reserveB, Overflow);
      var mean := BabylonianSqrt(product);
      var numerator :- Checked(mean * PRICE_PRECISION, Overflow);
      return Ok(numerator / totalShares);
    }
  }
}
