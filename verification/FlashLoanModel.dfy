/** Flash loans: what must come back is worked out per token before the borrower's callback runs,
    and checked after it.  The callback is arbitrary: a call takes as input the lender as the
    callback leaves it. */
module FlashLoanModel {
  import opened Host

  const DEFAULT_FEE_BPS := 9

  datatype Error =
    | ContractPaused
    | Reentrancy
    | NoAssets
    | LengthMismatch
    | Overflow
    | TransferRejected
    | NotRepaid

  /** Where fees go: nowhere, back to the lender itself, or to another account. */
  datatype RewardPool = NoPool | OwnVault | Elsewhere

  type Balances = map<Address, nat>

  datatype Lender = Lender(vault: Balances, feeBps: nat, lockHeld: bool, paused: bool, rewardPool: RewardPool)

  datatype Loan = Loan(token: Address, amount: int, fee: int)

  function BalanceOf(v: Balances, token: Address): nat {
    GetOr(v, token, 0)
  }

  /** A token transfer out of the vault: the token refuses negative amounts and overdrafts. */
  function Pay(v: Balances, token: Address, amount: int): Result<Balances, Error> {
    if amount < 0 || amount > BalanceOf(v, token) then Err(TransferRejected)
    else Ok(v[token := BalanceOf(v, token) - amount])
  }

  /** `calculate_fee`. */
  function Fee(amount: int, feeBps: nat): Result<int, Error> {
    var scaled :- Checked(amount * feeBps, Overflow);
    Ok(Quot(scaled, 10_000))
  }

  function Loans(entries: seq<(Address, int)>, feeBps: nat): (r: Result<seq<Loan>, Error>)
    ensures r.Ok? ==> |r.value| == |entries|
  {
    if entries == [] then Ok([])
    else
      var init :- Loans(entries[..|entries| - 1], feeBps);
      var (token, amount) := entries[|entries| - 1];
      var fee :- Fee(amount, feeBps);
      Ok(init + [Loan(token, amount, fee)])
  }

  /** What each token's balance must be afterwards: the first entry of a token starts from its
      balance now, every entry adds its fee. */
  function Required(v: Balances, loans: seq<Loan>): Result<map<Address, int>, Error> {
    if loans == [] then Ok(map[])
    else
      var init :- Required(v, loans[..|loans| - 1]);
      var loan := loans[|loans| - 1];
      var sum :- Checked(GetOr(init, loan.token, BalanceOf(v, loan.token)) + loan.fee, Overflow);
      Ok(init[loan.token := sum])
  }

  function Lend(v: Balances, loans: seq<Loan>): Result<Balances, Error> {
    if loans == [] then Ok(v)
    else
      var init :- Lend(v, loans[..|loans| - 1]);
      Pay(init, loans[|loans| - 1].token, loans[|loans| - 1].amount)
  }

  predicate Repaid(v: Balances, required: map<Address, int>, loan: Loan) {
    loan.token in required && BalanceOf(v, loan.token) >= required[loan.token]
  }

  /** The closing loop of a batch: each entry is checked, then its fee leaves for the pool. */
  function Collect(v: Balances, required: map<Address, int>, pool: RewardPool, loans: seq<Loan>): Result<Balances, Error> {
    if loans == [] then Ok(v)
    else
      var init :- Collect(v, required, pool, loans[..|loans| - 1]);
      var loan := loans[|loans| - 1];
      :- Need(Repaid(init, required, loan), NotRepaid);
      if pool == NoPool then Ok(init)
      else
        var paid :- Pay(init, loan.token, loan.fee);
        Ok(if pool == OwnVault then init else paid)
  }

  /** The part before the callback, shared by all three entry points: the loans with their fees,
      and what is required back.  The lending itself only has to succeed. */
  function Prepare(l: Lender, entries: seq<(Address, int)>): Result<(seq<Loan>, map<Address, int>), Error> {
    var loans :- Loans(entries, l.feeBps);
    var required :- Required(l.vault, loans);
    var lent :- Lend(l.vault, loans);
    Ok((loans, required))
  }

  /** What the two entry points that hold the lock have in common. */
  function Locked(l: Lender, entries: seq<(Address, int)>, after: Lender): (r: Result<(Lender, seq<Loan>), Error>)
    ensures r.Ok? ==> |r.value.1| == |entries|
  {
    var (loans, required) :- Prepare(l, entries);
    var vault :- Collect(after.vault, required, after.rewardPool, loans);
    Ok((after.(vault := vault, lockHeld := false), loans))
  }

  /** `flash_loan`. */
  function FlashLoan(l: Lender, token: Address, amount: int, globallyPaused: bool, after: Lender): Result<(Lender, int), Error> {
    if l.paused || globallyPaused then Err(ContractPaused) else
    :- Need(!l.lockHeld, Reentrancy);
    var (end, loans) :- Locked(l, [(token, amount)], after);
    Ok((end, loans[0].fee))
  }

  function Zipped(tokens: seq<Address>, amounts: seq<int>): seq<(Address, int)>
    requires |tokens| == |amounts|
  {
    seq(|tokens|, i requires 0 <= i < |tokens| => (tokens[i], amounts[i]))
  }

  /** `flash_loan_multi`: no lock, and no reward pool. */
  function FlashLoanMulti(l: Lender, tokens: seq<Address>, amounts: seq<int>, globallyPaused: bool, after: Lender): Result<(Lender, seq<Loan>), Error> {
    if l.paused || globallyPaused then Err(ContractPaused) else
    :- Need(tokens != [], NoAssets);
    :- Need(|tokens| == |amounts|, LengthMismatch);
    var (loans, required) :- Prepare(l, Zipped(tokens, amounts));
    var vault :- Collect(after.vault, required, NoPool, loans);
    Ok((after.(vault := vault), loans))
  }

  /** `flash_loan_batch`. */
  function FlashLoanBatch(l: Lender, entries: seq<(Address, int)>, globallyPaused: bool, after: Lender): Result<(Lender, seq<Loan>), Error> {
    if l.paused || globallyPaused then Err(ContractPaused) else
    :- Need(entries != [], NoAssets);
    :- Need(!l.lockHeld, Reentrancy);
    Locked(l, entries, after)
  }
}
