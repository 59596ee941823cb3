/** When a flash loan can be made and when it returns, from the balances before and after alone. */
module FlashLoanOutcomes {
  import opened Host
  import opened Arith
  import opened FlashLoanModel
  import opened FlashLoanTheorems

  type Entries = seq<(Address, int)>

  predicate NotNegative(entries: Entries) {
    forall i :: 0 <= i < |entries| ==> 0 <= entries[i].1
  }

  predicate FeesFit(entries: Entries, feeBps: nat) {
    forall i :: 0 <= i < |entries| ==> IsI128(entries[i].1 * feeBps)
  }

  /** What leaves of a token. */
  function Lent(entries: Entries, token: Address): int {
    if entries == [] then 0
    else Lent(entries[..|entries| - 1], token) + (if entries[|entries| - 1].0 == token then entries[|entries| - 1].1 else 0)
  }

  /** The floored fees on a token, entry by entry. */
  function Fees(entries: Entries, feeBps: nat, token: Address): int {
    if entries == [] then 0
    else Fees(entries[..|entries| - 1], feeBps, token) +
         (if entries[|entries| - 1].0 == token then entries[|entries| - 1].1 * feeBps / 10_000 else 0)
  }

  predicate Asked(entries: Entries, token: Address) {
    exists i :: 0 <= i < |entries| && entries[i].0 == token
  }

  // ---- making the loans ----

  lemma {:induction false} LoansIff(entries: Entries, feeBps: nat)
    ensures Loans(entries, feeBps).Ok? <==> FeesFit(entries, feeBps)
  {
    if entries != [] {
      LoansIff(entries[..|entries| - 1], feeBps);
      assert FeesFit(entries, feeBps)
        <==> FeesFit(entries[..|entries| - 1], feeBps) && IsI128(entries[|entries| - 1].1 * feeBps);
    }
  }

  lemma {:induction false} LoansAdd(entries: Entries, feeBps: nat, token: Address)
    requires Loans(entries, feeBps).Ok? && NotNegative(entries)
    ensures var loans := Loans(entries, feeBps).value;
      && FeesNotNegative(loans) && FeeSum(loans, token) == Fees(entries, feeBps, token) && 0 <= Fees(entries, feeBps, token)
      && (Borrowed(loans, token) <==> Asked(entries, token))
  {
    if entries != [] {
      var init := entries[..|entries| - 1];
      LoansAdd(init, feeBps, token);
      FeeIsFloor(entries[|entries| - 1].1, feeBps);
      var loans := Loans(entries, feeBps).value;
      assert loans[..|init|] == Loans(init, feeBps).value;
      assert Asked(entries, token) <==> Asked(init, token) || entries[|entries| - 1].0 == token;
    }
  }

  /** The repayments fit: every borrowed token's start and fees add up to an `i128`. */
  predicate RepaymentFits(v: Balances, loans: seq<Loan>, token: Address) {
    Borrowed(loans, token) ==> BalanceOf(v, token) + FeeSum(loans, token) <= I128_MAX
  }

  lemma {:induction false} RequiredIff(v: Balances, loans: seq<Loan>)
    requires FeesNotNegative(loans)
    ensures Required(v, loans).Ok? <==> forall token :: RepaymentFits(v, loans, token)
  {
    if loans != [] {
      var init, last := loans[..|loans| - 1], loans[|loans| - 1];
      RequiredIff(v, init);
      RequiredStep(v, loans);
      if Required(v, init).Ok? {
        RequiredIsStartPlusFees(v, init, last.token);
        LastFeeWithin(init, last.token);
      }
    }
  }

  lemma RequiredStep(v: Balances, loans: seq<Loan>)
    requires loans != [] && FeesNotNegative(loans)
    ensures var init, last := loans[..|loans| - 1], loans[|loans| - 1];
      (forall token :: RepaymentFits(v, loans, token))
      <==> (forall token :: RepaymentFits(v, init, token)) && RepaymentFits(v, loans, last.token)
  {
    var init, last := loans[..|loans| - 1], loans[|loans| - 1];
    assert RepaymentFits(v, loans, last.token) ==> RepaymentFits(v, init, last.token);
    forall token | token != last.token
      ensures RepaymentFits(v, loans, token) <==> RepaymentFits(v, init, token)
    {
    }
  }

  /** What the loans take of a token. */
  function Taken(loans: seq<Loan>, token: Address): int {
    if loans == [] then 0
    else Taken(loans[..|loans| - 1], token) + (if loans[|loans| - 1].token == token then loans[|loans| - 1].amount else 0)
  }

  lemma {:induction false} LentBalance(v: Balances, loans: seq<Loan>, token: Address)
    requires Lend(v, loans).Ok?
    ensures BalanceOf(Lend(v, loans).value, token) == BalanceOf(v, token) - Taken(loans, token)
  {
    if loans != [] {
      LentBalance(v, loans[..|loans| - 1], token);
    }
  }

  predicate AmountsNotNegative(loans: seq<Loan>) {
    forall i :: 0 <= i < |loans| ==> 0 <= loans[i].amount
  }

  predicate Affordable(v: Balances, loans: seq<Loan>, token: Address) {
    Taken(loans, token) <= BalanceOf(v, token)
  }

  lemma {:induction false} LendIff(v: Balances, loans: seq<Loan>)
    requires AmountsNotNegative(loans)
    ensures Lend(v, loans).Ok? <==> forall token :: Affordable(v, loans, token)
  {
    if loans != [] {
      var init, last := loans[..|loans| - 1], loans[|loans| - 1];
      LendIff(v, init);
      AffordableStep(v, loans);
      if Lend(v, init).Ok? {
        LentBalance(v, init, last.token);
      }
    } else {
      assert forall token :: Affordable(v, loans, token);
    }
  }

  lemma AffordableStep(v: Balances, loans: seq<Loan>)
    requires loans != [] && AmountsNotNegative(loans)
    ensures var init, last := loans[..|loans| - 1], loans[|loans| - 1];
      (forall token :: Affordable(v, loans, token))
      <==> (forall token :: Affordable(v, init, token)) && Affordable(v, loans, last.token)
  {
    var init, last := loans[..|loans| - 1], loans[|loans| - 1];
    assert Affordable(v, loans, last.token) ==> Affordable(v, init, last.token);
    forall token | token != last.token
      ensures Affordable(v, loans, token) <==> Affordable(v, init, token)
    {
    }
  }

  lemma {:induction false} TakenIsLent(entries: Entries, feeBps: nat, token: Address)
    requires Loans(entries, feeBps).Ok?
    ensures Taken(Loans(entries, feeBps).value, token) == Lent(entries, token)
  {
    if entries != [] {
      var init := entries[..|entries| - 1];
      TakenIsLent(init, feeBps, token);
      assert Loans(entries, feeBps).value[..|init|] == Loans(init, feeBps).value;
    }
  }

  /** The loans on a token can be made and repaid within the types. */
  predicate TokenLendable(l: Lender, entries: Entries, token: Address) {
    && Lent(entries, token) <= BalanceOf(l.vault, token)
    && (Asked(entries, token) ==> BalanceOf(l.vault, token) + Fees(entries, l.feeBps, token) <= I128_MAX)
  }

  /** The loans can be made exactly when no amount is negative, every fee and repayment fits, and
      the vault holds what is asked of each token, over all entries together. */
  lemma PrepareIff(l: Lender, entries: Entries)
    ensures Prepare(l, entries).Ok? <==>
              NotNegative(entries) && FeesFit(entries, l.feeBps) && forall token :: TokenLendable(l, entries, token)
  {
    LoansIff(entries, l.feeBps);
    if Loans(entries, l.feeBps).Ok? {
      LoansCarryFees(entries, l.feeBps);
      var loans := Loans(entries, l.feeBps).value;
      if NotNegative(entries) {
        LoansAdd(entries, l.feeBps, 0);
        RequiredIff(l.vault, loans);
        LendIff(l.vault, loans);
        forall token
          ensures TokenLendable(l, entries, token) <==> RepaymentFits(l.vault, loans, token) && Affordable(l.vault, loans, token)
        {
          LoansAdd(entries, l.feeBps, token);
          TakenIsLent(entries, l.feeBps, token);
        }
      } else if Lend(l.vault, loans).Ok? {
        LentNotNegative(l.vault, loans);
      }
    }
  }

  // ---- returning ----

  /** A token is back with its fees; and, of a pool elsewhere, with all fees but the last again. */
  predicate Back(l: Lender, after: Lender, entries: Entries, token: Address) {
    Asked(entries, token) ==>
      BalanceOf(after.vault, token) >= BalanceOf(l.vault, token) + Fees(entries, l.feeBps, token)
        + (if after.rewardPool == Elsewhere then Fees(entries, l.feeBps, token) - LastFeeOf(entries, l.feeBps, token) else 0)
  }

  function LastFeeOf(entries: Entries, feeBps: nat, token: Address): int {
    if entries == [] then 0
    else if entries[|entries| - 1].0 == token then entries[|entries| - 1].1 * feeBps / 10_000
    else LastFeeOf(entries[..|entries| - 1], feeBps, token)
  }

  lemma {:induction false} LastFeeMatches(entries: Entries, feeBps: nat, token: Address)
    requires Loans(entries, feeBps).Ok? && NotNegative(entries)
    ensures LastFee(Loans(entries, feeBps).value, token) == LastFeeOf(entries, feeBps, token)
  {
    if entries != [] {
      var init := entries[..|entries| - 1];
      LastFeeMatches(init, feeBps, token);
      FeeIsFloor(entries[|entries| - 1].1, feeBps);
      assert Loans(entries, feeBps).value[..|init|] == Loans(init, feeBps).value;
    }
  }

  /** A batch returns exactly when it is not paused, asks for something, finds no loan under way,
      can be made, and everything is back.  The lock is then free, and the fees have moved to a
      pool elsewhere if there is one. */
  lemma BatchOutcome(l: Lender, entries: Entries, globallyPaused: bool, after: Lender, token: Address)
    ensures var r := FlashLoanBatch(l, entries, globallyPaused, after);
      && (r.Ok? <==>
            && !l.paused && !globallyPaused && entries != [] && !l.lockHeld && Prepare(l, entries).Ok?
            && forall t :: Back(l, after, entries, t))
      && (r.Ok? ==>
            && r.value.0 == after.(vault := r.value.0.vault, lockHeld := false)
            && BalanceOf(r.value.0.vault, token)
               == BalanceOf(after.vault, token) - (if after.rewardPool == Elsewhere then Fees(entries, l.feeBps, token) else 0))
  {
    PrepareIff(l, entries);
    if !l.paused && !globallyPaused && entries != [] && !l.lockHeld && Prepare(l, entries).Ok? {
      BatchSucceedsIff(l, entries, after);
      var loans := Prepare(l, entries).value.0;
      forall t
        ensures Back(l, after, entries, t) <==> BroughtBack(l, after, loans, t)
      {
        LoansAdd(entries, l.feeBps, t);
        LastFeeMatches(entries, l.feeBps, t);
      }
      if FlashLoanBatch(l, entries, globallyPaused, after).Ok? {
        BatchRepaid(l, entries, globallyPaused, after, token);
        LoansAdd(entries, l.feeBps, token);
      }
    }
  }

  /** A loan of several tokens without a lock or a pool: it returns exactly when it is not paused,
      names as many amounts as tokens, can be made, and everything is back with its fees; it leaves
      the vault as the callback did. */
  lemma MultiOutcome(l: Lender, tokens: seq<Address>, amounts: seq<int>, globallyPaused: bool, after: Lender, token: Address)
    ensures var r := FlashLoanMulti(l, tokens, amounts, globallyPaused, after);
      && (r.Ok? <==>
            && !l.paused && !globallyPaused && tokens != [] && |tokens| == |amounts|
            && Prepare(l, Zipped(tokens, amounts)).Ok?
            && forall t :: Back(l, after.(rewardPool := NoPool), Zipped(tokens, amounts), t))
      && (r.Ok? ==> r.value.0 == after.(vault := r.value.0.vault) && BalanceOf(r.value.0.vault, token) == BalanceOf(after.vault, token))
  {
    if !l.paused && !globallyPaused && tokens != [] && |tokens| == |amounts| && Prepare(l, Zipped(tokens, amounts)).Ok? {
      MultiSucceedsIff(l, tokens, amounts, after);
      BackWithoutPool(l, Zipped(tokens, amounts), after);
      MultiKeepsVault(l, tokens, amounts, after, token);
    }
  }

  lemma BackWithoutPool(l: Lender, entries: Entries, after: Lender)
    requires Prepare(l, entries).Ok?
    ensures var loans := Prepare(l, entries).value.0;
      (forall t :: Back(l, after.(rewardPool := NoPool), entries, t))
      <==> (forall t :: Borrowed(loans, t) ==> BalanceOf(after.vault, t) >= BalanceOf(l.vault, t) + FeeSum(loans, t))
  {
    PrepareIff(l, entries);
    var loans := Prepare(l, entries).value.0;
    forall t
      ensures Back(l, after.(rewardPool := NoPool), entries, t)
              <==> (Borrowed(loans, t) ==> BalanceOf(after.vault, t) >= BalanceOf(l.vault, t) + FeeSum(loans, t))
    {
      LoansAdd(entries, l.feeBps, t);
    }
  }

  lemma MultiKeepsVault(l: Lender, tokens: seq<Address>, amounts: seq<int>, after: Lender, token: Address)
    ensures var r := FlashLoanMulti(l, tokens, amounts, false, after);
      r.Ok? ==> r.value.0 == after.(vault := r.value.0.vault) && BalanceOf(r.value.0.vault, token) == BalanceOf(after.vault, token)
  {
    if FlashLoanMulti(l, tokens, amounts, false, after).Ok? {
      var (loans, required) := Prepare(l, Zipped(tokens, amounts)).value;
      CollectedFees(after.vault, required, NoPool, loans, token);
    }
  }

  /** The single loan is the batch of one, and answers its fee. */
  lemma SingleOutcome(l: Lender, token: Address, amount: int, globallyPaused: bool, after: Lender)
    ensures var r, b := FlashLoan(l, token, amount, globallyPaused, after), FlashLoanBatch(l, [(token, amount)], globallyPaused, after);
      && (r.Ok? <==> b.Ok?)
      && (r.Ok? ==> r.value.0 == b.value.0 && 0 <= amount && r.value.1 * 10_000 <= amount * l.feeBps < (r.value.1 + 1) * 10_000)
  {
    if FlashLoan(l, token, amount, globallyPaused, after).Ok? {
      SingleRepaid(l, token, amount, globallyPaused, after);
      FloorDiv(amount * l.feeBps, 10_000);
    }
  }

  /** A loan of 10 000 at the default fee of 9 costs 9. */
  lemma DefaultFee(token: Address)
    ensures var l := Lender(map[token := 10_000], DEFAULT_FEE_BPS, false, false, NoPool);
      && Answer(FlashLoan(l, token, 10_000, false, l.(vault := map[token := 10_009]))) == Ok(9)
      && Answer(FlashLoan(l, token, 10_000, false, l.(vault := map[token := 10_008]))) == Err(NotRepaid)
  {
    var l: Lender := Lender(map[token := 10_000], DEFAULT_FEE_BPS, false, false, NoPool);
    var e: (Address, int) := (token, 10_000);
    assert [e][..0] == [];
    OneLoan(l, token);
    var a := Loan(token, 10_000, 9);
    assert [a][..0] == [];
    assert Collect(map[token := 10_009], map[token := 10_009], NoPool, [a]) == Ok(map[token := 10_009]);
    assert Collect(map[token := 10_008], map[token := 10_009], NoPool, [a]) == Err(NotRepaid);
  }

  lemma OneLoan(l: Lender, token: Address)
    requires l.vault == map[token := 10_000] && l.feeBps == 9
    ensures Prepare(l, [(token, 10_000)]) == Ok(([Loan(token, 10_000, 9)], map[token := 10_009]))
  {
    var e: (Address, int) := (token, 10_000);
    var a := Loan(token, 10_000, 9);
    assert [e][..0] == [] && [a][..0] == [];
    var none: seq<Loan> := [];
    assert none + [a] == [a];
    assert Loans([e], 9) == Ok([a]);
    var nothing: map<Address, int> := map[];
    assert nothing[token := 10_009] == map[token := 10_009];
    assert Required(l.vault, [a]) == Ok(map[token := 10_009]);
    assert Lend(l.vault, [a]).Ok?;
  }
}
