/** What a flash loan leaves behind, whatever the callback did. */
module FlashLoanTheorems {
  import opened Host
  import opened Arith
  import opened Sums
  import opened FlashLoanModel

  // ---- per token ----

  predicate Borrowed(loans: seq<Loan>, token: Address) {
    loans != [] && (loans[|loans| - 1].token == token || Borrowed(loans[..|loans| - 1], token))
  }

  /** The fees of every entry for a token, duplicates included. */
  function FeeSum(loans: seq<Loan>, token: Address): int {
    if loans == [] then 0
    else FeeSum(loans[..|loans| - 1], token) + (if loans[|loans| - 1].token == token then loans[|loans| - 1].fee else 0)
  }

  /** The fee of the last entry for a token. */
  function LastFee(loans: seq<Loan>, token: Address): int {
    if loans == [] then 0
    else if loans[|loans| - 1].token == token then loans[|loans| - 1].fee
    else LastFee(loans[..|loans| - 1], token)
  }

  predicate FeesNotNegative(loans: seq<Loan>) {
    forall i :: 0 <= i < |loans| ==> 0 <= loans[i].fee
  }

  lemma {:induction false} LastFeeWithin(loans: seq<Loan>, token: Address)
    requires FeesNotNegative(loans)
    ensures 0 <= LastFee(loans, token) <= FeeSum(loans, token)
  {
    if loans != [] {
      LastFeeWithin(loans[..|loans| - 1], token);
    }
  }

  lemma {:induction false} EachFeeWithin(loans: seq<Loan>, i: nat)
    requires FeesNotNegative(loans) && i < |loans|
    ensures loans[i].fee <= FeeSum(loans, loans[i].token) && Borrowed(loans, loans[i].token)
  {
    var init := loans[..|loans| - 1];
    LastFeeWithin(init, loans[i].token);
    if i < |init| {
      EachFeeWithin(init, i);
    }
  }

  // ---- before the callback ----

  /** The map built entry by entry asks of each token its starting balance plus all of its fees. */
  lemma {:induction false} RequiredIsStartPlusFees(v: Balances, loans: seq<Loan>, token: Address)
    requires Required(v, loans).Ok?
    ensures var m := Required(v, loans).value;
      && (token in m <==> Borrowed(loans, token))
      && (token in m ==> m[token] == BalanceOf(v, token) + FeeSum(loans, token))
      && (token !in m ==> FeeSum(loans, token) == 0)
  {
    if loans != [] {
      RequiredIsStartPlusFees(v, loans[..|loans| - 1], token);
    }
  }

  /** The loans carry the floored fee of their amounts; and since tokens refuse negative
      transfers, lending only succeeds for amounts and fees that are not negative. */
  lemma {:induction false} LoansCarryFees(entries: seq<(Address, int)>, feeBps: nat)
    requires Loans(entries, feeBps).Ok?
    ensures var loans := Loans(entries, feeBps).value;
      |loans| == |entries|
      && forall i :: 0 <= i < |loans| ==>
           loans[i].token == entries[i].0 && loans[i].amount == entries[i].1 && Fee(entries[i].1, feeBps) == Ok(loans[i].fee)
  {
    if entries != [] {
      LoansCarryFees(entries[..|entries| - 1], feeBps);
    }
  }

  lemma {:induction false} LentNotNegative(v: Balances, loans: seq<Loan>)
    requires Lend(v, loans).Ok?
    ensures forall i :: 0 <= i < |loans| ==> 0 <= loans[i].amount
  {
    if loans != [] {
      LentNotNegative(v, loans[..|loans| - 1]);
    }
  }

  lemma FeeIsFloor(amount: nat, feeBps: nat)
    requires Fee(amount, feeBps).Ok?
    ensures Fee(amount, feeBps).value == amount * feeBps / 10_000 >= 0
  {
    MulLe(0, amount, feeBps);
    FloorAtLeast(0, amount * feeBps, 10_000);
  }

  lemma PreparedLoans(l: Lender, entries: seq<(Address, int)>)
    requires Prepare(l, entries).Ok?
    ensures var (loans, required) := Prepare(l, entries).value;
      && |loans| == |entries| && FeesNotNegative(loans)
      && Required(l.vault, loans) == Ok(required)
      && (forall i :: 0 <= i < |loans| ==>
            && loans[i].token == entries[i].0 && loans[i].amount == entries[i].1 >= 0
            && loans[i].fee == entries[i].1 * l.feeBps / 10_000)
  {
    LoansCarryFees(entries, l.feeBps);
    var loans := Loans(entries, l.feeBps).value;
    LentNotNegative(l.vault, loans);
    forall i | 0 <= i < |loans|
      ensures 0 <= loans[i].fee && loans[i].fee == entries[i].1 * l.feeBps / 10_000
    {
      FeeIsFloor(entries[i].1, l.feeBps);
    }
  }

  // ---- after the callback ----

  lemma {:induction false} CollectedFees(v: Balances, required: map<Address, int>, pool: RewardPool, loans: seq<Loan>, token: Address)
    requires Collect(v, required, pool, loans).Ok?
    ensures BalanceOf(Collect(v, required, pool, loans).value, token)
            == BalanceOf(v, token) - (if pool == Elsewhere then FeeSum(loans, token) else 0)
  {
    if loans != [] {
      CollectedFees(v, required, pool, loans[..|loans| - 1], token);
    }
  }

  /** Enough has come back of a token.  With fees leaving for another account as the loop goes,
      the last entry of a token is checked after its other fees are gone. */
  predicate Enough(v: Balances, required: map<Address, int>, pool: RewardPool, loans: seq<Loan>, token: Address) {
    Borrowed(loans, token) ==>
      && token in required
      && BalanceOf(v, token) >= required[token] + (if pool == Elsewhere then FeeSum(loans, token) - LastFee(loans, token) else 0)
  }

  /** Every fee can be paid out of what is required. */
  predicate FeesCovered(required: map<Address, int>, loans: seq<Loan>) {
    forall i :: 0 <= i < |loans| && loans[i].token in required ==> loans[i].fee <= required[loans[i].token]
  }

  /** The closing loop succeeds exactly when enough of every borrowed token has come back. */
  lemma {:induction false} CollectIff(v: Balances, required: map<Address, int>, pool: RewardPool, loans: seq<Loan>)
    requires FeesNotNegative(loans) && FeesCovered(required, loans)
    ensures Collect(v, required, pool, loans).Ok? <==> forall token :: Enough(v, required, pool, loans, token)
  {
    if loans != [] {
      var init, last := loans[..|loans| - 1], loans[|loans| - 1];
      CollectIff(v, required, pool, init);
      EnoughStep(v, required, pool, loans);
      if Collect(v, required, pool, init).Ok? {
        CollectedFees(v, required, pool, init, last.token);
      }
    }
  }

  /** One more entry asks for enough of its own token, and for nothing new of any other. */
  lemma EnoughStep(v: Balances, required: map<Address, int>, pool: RewardPool, loans: seq<Loan>)
    requires loans != [] && FeesNotNegative(loans)
    ensures var init, last := loans[..|loans| - 1], loans[|loans| - 1];
      (forall token :: Enough(v, required, pool, loans, token))
      <==> ((forall token :: Enough(v, required, pool, init, token)) && Enough(v, required, pool, loans, last.token))
  {
    var init, last := loans[..|loans| - 1], loans[|loans| - 1];
    LastFeeWithin(init, last.token);
    assert Enough(v, required, pool, loans, last.token) ==> Enough(v, required, pool, init, last.token);
    forall token | token != last.token
      ensures Enough(v, required, pool, loans, token) <==> Enough(v, required, pool, init, token)
    {
    }
  }

  lemma RequiredCoversFees(v: Balances, loans: seq<Loan>)
    requires FeesNotNegative(loans) && Required(v, loans).Ok?
    ensures FeesCovered(Required(v, loans).value, loans)
  {
    var required := Required(v, loans).value;
    forall i | 0 <= i < |loans| && loans[i].token in required
      ensures loans[i].fee <= required[loans[i].token]
    {
      EachFeeWithin(loans, i);
      RequiredIsStartPlusFees(v, loans, loans[i].token);
    }
  }

  // ---- the entry points ----

  /** `flash_loan_multi`: when it returns, every borrowed token is at or above its starting
      balance plus the fees of all its entries, whatever the callback did. */
  lemma MultiRepaid(l: Lender, tokens: seq<Address>, amounts: seq<int>, globallyPaused: bool, after: Lender, token: Address)
    requires FlashLoanMulti(l, tokens, amounts, globallyPaused, after).Ok?
    ensures var (end, loans) := FlashLoanMulti(l, tokens, amounts, globallyPaused, after).value;
      && |loans| == |tokens|
      && (forall i :: 0 <= i < |tokens| ==> loans[i] == Loan(tokens[i], amounts[i], amounts[i] * l.feeBps / 10_000) && 0 <= amounts[i])
      && (Borrowed(loans, token) ==> BalanceOf(end.vault, token) >= BalanceOf(l.vault, token) + FeeSum(loans, token))
  {
    var entries := Zipped(tokens, amounts);
    var (loans, required) := Prepare(l, entries).value;
    PreparedLoans(l, entries);
    RequiredCoversFees(l.vault, loans);
    CollectIff(after.vault, required, NoPool, loans);
    RequiredIsStartPlusFees(l.vault, loans, token);
    CollectedFees(after.vault, required, NoPool, loans, token);
    assert Enough(after.vault, required, NoPool, loans, token);
  }

  /** And it returns exactly when that much has come back of every borrowed token. */
  lemma MultiSucceedsIff(l: Lender, tokens: seq<Address>, amounts: seq<int>, after: Lender)
    requires !l.paused && tokens != [] && |tokens| == |amounts|
    requires Prepare(l, Zipped(tokens, amounts)).Ok?
    ensures var (loans, _) := Prepare(l, Zipped(tokens, amounts)).value;
      FlashLoanMulti(l, tokens, amounts, false, after).Ok?
      <==> forall token :: Borrowed(loans, token) ==>
             BalanceOf(after.vault, token) >= BalanceOf(l.vault, token) + FeeSum(loans, token)
  {
    var (loans, required) := Prepare(l, Zipped(tokens, amounts)).value;
    PreparedLoans(l, Zipped(tokens, amounts));
    RequiredCoversFees(l.vault, loans);
    CollectIff(after.vault, required, NoPool, loans);
    forall token
      ensures Enough(after.vault, required, NoPool, loans, token)
              <==> (Borrowed(loans, token) ==> BalanceOf(after.vault, token) >= BalanceOf(l.vault, token) + FeeSum(loans, token))
    {
      RequiredIsStartPlusFees(l.vault, loans, token);
    }
  }

  /** `flash_loan_batch`: once the loans are made, it returns exactly when enough of every token
      has come back: the starting balance plus all fees, and, when fees go to another account,
      once more all fees but the last, because each entry is checked after the earlier fees of
      its token have left. */
  lemma BatchSucceedsIff(l: Lender, entries: seq<(Address, int)>, after: Lender)
    requires !l.paused && !l.lockHeld && entries != [] && Prepare(l, entries).Ok?
    ensures var (loans, _) := Prepare(l, entries).value;
      FlashLoanBatch(l, entries, false, after).Ok?
      <==> forall token :: BroughtBack(l, after, loans, token)
  {
    var (loans, required) := Prepare(l, entries).value;
    PreparedLoans(l, entries);
    RequiredCoversFees(l.vault, loans);
    CollectIff(after.vault, required, after.rewardPool, loans);
    forall token
      ensures BroughtBack(l, after, loans, token) <==> Enough(after.vault, required, after.rewardPool, loans, token)
    {
      RequiredIsStartPlusFees(l.vault, loans, token);
    }
  }

  predicate BroughtBack(l: Lender, after: Lender, loans: seq<Loan>, token: Address) {
    Borrowed(loans, token) ==>
      BalanceOf(after.vault, token) >= BalanceOf(l.vault, token) + FeeSum(loans, token)
                                       + (if after.rewardPool == Elsewhere then FeeSum(loans, token) - LastFee(loans, token) else 0)
  }

  /** Every borrowed token is back, with all its fees. */
  ghost predicate CameBack(l: Lender, after: Lender, loans: seq<Loan>) {
    forall token :: Borrowed(loans, token) ==> BalanceOf(after.vault, token) >= BalanceOf(l.vault, token) + FeeSum(loans, token)
  }

  /** A batch asks for every fee once only, whatever the callback does, exactly when fees do not
      leave for another account, or no borrowed token has a fee beside that of its last entry. */
  lemma BatchAsksOnceIff(l: Lender, entries: seq<(Address, int)>, pool: RewardPool)
    requires !l.paused && !l.lockHeld && entries != [] && Prepare(l, entries).Ok?
    ensures var loans := Prepare(l, entries).value.0;
      (forall after: Lender {:trigger CameBack(l, after, loans)} ::
         after.rewardPool == pool ==> (FlashLoanBatch(l, entries, false, after).Ok? <==> CameBack(l, after, loans)))
      <==> pool != Elsewhere || forall token :: Borrowed(loans, token) ==> FeeSum(loans, token) == LastFee(loans, token)
  {
    var loans := Prepare(l, entries).value.0;
    PreparedLoans(l, entries);
    if pool != Elsewhere || forall token :: Borrowed(loans, token) ==> FeeSum(loans, token) == LastFee(loans, token) {
      forall after: Lender | after.rewardPool == pool
        ensures FlashLoanBatch(l, entries, false, after).Ok? <==> CameBack(l, after, loans)
      {
        BatchSucceedsIff(l, entries, after);
        assert forall token :: BroughtBack(l, after, loans, token)
                 <==> (Borrowed(loans, token) ==> BalanceOf(after.vault, token) >= BalanceOf(l.vault, token) + FeeSum(loans, token));
      }
    } else {
      var token :| Borrowed(loans, token) && FeeSum(loans, token) != LastFee(loans, token);
      var after := l.(vault := JustEnough(l, loans), rewardPool := pool);
      JustEnoughCameBack(l, after, loans);
      LastFeeWithin(loans, token);
      BatchSucceedsIff(l, entries, after);
      JustEnoughOf(l, loans, token);
      assert !BroughtBack(l, after, loans, token);
    }
  }

  /** Balances that are back at their start plus all fees, and no more. */
  function JustEnough(l: Lender, loans: seq<Loan>): Balances {
    map token | token in TokensOf(loans) :: var v: nat := Max(BalanceOf(l.vault, token) + FeeSum(loans, token), 0); v
  }

  function TokensOf(loans: seq<Loan>): set<Address> {
    set loan | loan in loans :: loan.token
  }

  lemma {:induction false} BorrowedListed(loans: seq<Loan>, token: Address)
    requires Borrowed(loans, token)
    ensures token in TokensOf(loans)
  {
    if loans[|loans| - 1].token != token {
      BorrowedListed(loans[..|loans| - 1], token);
    }
  }

  lemma JustEnoughOf(l: Lender, loans: seq<Loan>, token: Address)
    requires FeesNotNegative(loans) && Borrowed(loans, token)
    ensures BalanceOf(JustEnough(l, loans), token) == BalanceOf(l.vault, token) + FeeSum(loans, token)
  {
    BorrowedListed(loans, token);
    LastFeeWithin(loans, token);
  }

  lemma JustEnoughCameBack(l: Lender, after: Lender, loans: seq<Loan>)
    requires FeesNotNegative(loans) && after.vault == JustEnough(l, loans)
    ensures CameBack(l, after, loans)
  {
    forall token | Borrowed(loans, token)
      ensures BalanceOf(after.vault, token) >= BalanceOf(l.vault, token) + FeeSum(loans, token)
    {
      JustEnoughOf(l, loans, token);
    }
  }

  /** A lender with 20 000 of one token, the default fee and a separate pool. */
  function PoolLender(token: Address): Lender {
    Lender(map[token := 20_000], DEFAULT_FEE_BPS, false, false, Elsewhere)
  }

  /** Two loans of 10 000 from it, at a fee of 9 each: bringing back everything and both fees is
      not enough, since the first fee has left before the second entry is checked. */
  lemma DuplicatesDemandMore(token: Address)
    ensures var l := PoolLender(token); var entries := [(token, 10_000), (token, 10_000)];
      && FlashLoanBatch(l, entries, false, l.(vault := map[token := 20_018])) == Err(NotRepaid)
      && FlashLoanBatch(l, entries, false, l.(vault := map[token := 20_027])).Ok?
  {
    TwoPrepared(token);
    var a, required := Loan(token, 10_000, 9), map[token := 20_018];
    CollectTwo(map[token := 20_018], required, a);
    CollectTwo(map[token := 20_027], required, a);
    assert BalanceOf(map[token := 20_018][token := 20_009], token) == 20_009;
  }

  lemma CollectTwo(v: Balances, required: map<Address, int>, a: Loan)
    requires Repaid(v, required, a) && 0 <= a.fee <= BalanceOf(v, a.token)
    ensures var w: Balances := v[a.token := BalanceOf(v, a.token) - a.fee];
      Collect(v, required, Elsewhere, [a, a])
      == if Repaid(w, required, a) then Pay(w, a.token, a.fee) else Err(NotRepaid)
  {
    assert [a, a][..1] == [a] && [a][..0] == [];
    assert Collect(v, required, Elsewhere, [a][..0]) == Ok(v);
    assert Collect(v, required, Elsewhere, [a]) == Ok(v[a.token := BalanceOf(v, a.token) - a.fee]);
  }

  lemma TwoPrepared(token: Address)
    ensures Prepare(PoolLender(token), [(token, 10_000), (token, 10_000)])
            == Ok(([Loan(token, 10_000, 9), Loan(token, 10_000, 9)], map[token := 20_018]))
  {
    TwoLoans(token);
    TwoRequired(token);
    TwoLent(token);
  }

  lemma TwoLoans(token: Address)
    ensures Loans([(token, 10_000), (token, 10_000)], DEFAULT_FEE_BPS) == Ok([Loan(token, 10_000, 9), Loan(token, 10_000, 9)])
  {
    var e: (Address, int) := (token, 10_000);
    assert [e, e][..1] == [e] && [e][..0] == [];
    assert Fee(10_000, DEFAULT_FEE_BPS) == Ok(9);
    assert Loans([e][..0], DEFAULT_FEE_BPS) == Ok([]);
    var none: seq<Loan> := [];
    assert none + [Loan(token, 10_000, 9)] == [Loan(token, 10_000, 9)];
    assert Loans([e], DEFAULT_FEE_BPS) == Ok([Loan(token, 10_000, 9)]);
    assert [Loan(token, 10_000, 9)] + [Loan(token, 10_000, 9)] == [Loan(token, 10_000, 9), Loan(token, 10_000, 9)];
  }

  lemma TwoRequired(token: Address)
    ensures var a := Loan(token, 10_000, 9); Required(PoolLender(token).vault, [a, a]) == Ok(map[token := 20_018])
  {
    var a := Loan(token, 10_000, 9);
    assert [a, a][..1] == [a] && [a][..0] == [];
    assert Required(PoolLender(token).vault, [a]) == Ok(map[token := 20_009]);
    assert map[token := 20_009][token := 20_018] == map[token := 20_018];
  }

  lemma TwoLent(token: Address)
    ensures var a := Loan(token, 10_000, 9); Lend(PoolLender(token).vault, [a, a]).Ok?
  {
    var a := Loan(token, 10_000, 9);
    assert [a, a][..1] == [a] && [a][..0] == [];
    assert Lend(PoolLender(token).vault, [a]) == Ok(PoolLender(token).vault[token := 10_000]);
  }

  /** When a batch returns, every borrowed token is at or above its starting balance plus all its
      fees; or, when fees go to another account, plus all of them but the last, with exactly the
      fees having left. */
  lemma BatchRepaid(l: Lender, entries: seq<(Address, int)>, globallyPaused: bool, after: Lender, token: Address)
    requires FlashLoanBatch(l, entries, globallyPaused, after).Ok?
    ensures var (end, loans) := FlashLoanBatch(l, entries, globallyPaused, after).value;
      && |loans| == |entries| && !end.lockHeld
      && (forall i :: 0 <= i < |entries| ==> loans[i] == Loan(entries[i].0, entries[i].1, entries[i].1 * l.feeBps / 10_000) && 0 <= entries[i].1)
      && BalanceOf(end.vault, token) == BalanceOf(after.vault, token) - (if after.rewardPool == Elsewhere then FeeSum(loans, token) else 0)
      && (Borrowed(loans, token) ==>
            && BalanceOf(end.vault, token) >= BalanceOf(l.vault, token)
            && BalanceOf(end.vault, token) >= BalanceOf(l.vault, token) + FeeSum(loans, token)
                                              - (if after.rewardPool == Elsewhere then LastFee(loans, token) else 0))
  {
    var (loans, required) := Prepare(l, entries).value;
    PreparedLoans(l, entries);
    RequiredCoversFees(l.vault, loans);
    CollectIff(after.vault, required, after.rewardPool, loans);
    RequiredIsStartPlusFees(l.vault, loans, token);
    LastFeeWithin(loans, token);
    CollectedFees(after.vault, required, after.rewardPool, loans, token);
    assert Enough(after.vault, required, after.rewardPool, loans, token);
  }

  /** `flash_loan`: the single loan, with or without a reward pool, never costs the vault. */
  lemma SingleRepaid(l: Lender, token: Address, amount: int, globallyPaused: bool, after: Lender)
    requires FlashLoan(l, token, amount, globallyPaused, after).Ok?
    ensures var (end, fee) := FlashLoan(l, token, amount, globallyPaused, after).value;
      && 0 <= amount && fee == amount * l.feeBps / 10_000 && !end.lockHeld
      && BalanceOf(end.vault, token) >= BalanceOf(l.vault, token) + (if after.rewardPool == Elsewhere then 0 else fee)
      && BalanceOf(after.vault, token) >= BalanceOf(l.vault, token) + fee
  {
    var entries := [(token, amount)];
    BatchRepaid(l, entries, globallyPaused, after, token);
    var loans := Prepare(l, entries).value.0;
    assert loans == [Loan(token, amount, amount * l.feeBps / 10_000)];
    assert loans[..0] == [];
  }

  // ---- splitting a loan ----

  predicate SameToken(loans: seq<Loan>, token: Address, feeBps: nat) {
    forall i :: 0 <= i < |loans| ==> loans[i].token == token && loans[i].fee == loans[i].amount * feeBps / 10_000
  }

  function AmountsOf(loans: seq<Loan>): seq<int> {
    if loans == [] then [] else AmountsOf(loans[..|loans| - 1]) + [loans[|loans| - 1].amount]
  }

  lemma {:induction false} FeesAreFlooredParts(loans: seq<Loan>, token: Address, feeBps: nat)
    requires SameToken(loans, token, feeBps)
    ensures |AmountsOf(loans)| == |loans|
    ensures FeeSum(loans, token) == FloorParts(feeBps, 10_000, AmountsOf(loans))
  {
    if loans != [] {
      var init := loans[..|loans| - 1];
      FeesAreFlooredParts(init, token, feeBps);
      assert AmountsOf(loans)[..|init|] == AmountsOf(init);
      assert loans[|init|].amount * feeBps == feeBps * loans[|init|].amount;
    }
  }

  /** Borrowing one amount in n entries instead of one saves at most n - 1 units of fee. */
  lemma SplittingSavesLittle(loans: seq<Loan>, token: Address, feeBps: nat)
    requires loans != [] && SameToken(loans, token, feeBps)
    ensures FeeSum(loans, token) <= feeBps * SeqSum(AmountsOf(loans)) / 10_000 <= FeeSum(loans, token) + |loans| - 1
  {
    FeesAreFlooredParts(loans, token, feeBps);
    FloorPartsBounds(feeBps, 10_000, AmountsOf(loans));
  }
}
