/** The flash-loan provider, storage as fields.  A failing call restores every field it has
    written, as the host rolls a panicking call back. */
module FlashLoanContract {
  import opened Host
  import opened FlashLoanModel

  class FlashLoanProvider {
    var vault: Balances
    var feeBps: nat
    var lockHeld: bool
    var paused: bool
    var rewardPool: RewardPool

    function View(): Lender
      reads this
    {
      Lender(vault, feeBps, lockHeld, paused, rewardPool)
    }

    constructor (vault: Balances)
      ensures View() == Lender(vault, DEFAULT_FEE_BPS, false, false, NoPool)
    {
      this.vault, feeBps, lockHeld, paused, rewardPool := vault, DEFAULT_FEE_BPS, false, false, NoPool;
    }

    method Restore(l: Lender)
      modifies this
      ensures View() == l
    {
      vault, feeBps, lockHeld, paused, rewardPool := l.vault, l.feeBps, l.lockHeld, l.paused, l.rewardPool;
    }

    /** The first loop: fees, and the repayment required of each token. */
    method Plan(entries: seq<(Address, int)>) returns (r: Result<(), Error>, loans: seq<Loan>, required: map<Address, int>)
      ensures r.Ok? ==> Loans(entries, feeBps) == Ok(loans) && Required(vault, loans) == Ok(required)
      ensures r.Err? ==> r.error == Overflow && (Loans(entries, feeBps) == Err(Overflow)
                                                 || (Loans(entries, feeBps).Ok? && Required(vault, Loans(entries, feeBps).value) == Err(Overflow)))
    {
      loans, required := [], map[];
      for i := 0 to |entries|
        invariant Loans(entries[..i], feeBps) == Ok(loans) && Required(vault, loans) == Ok(required)
      {
        OneMoreLoan(entries, i, feeBps, loans);
        var (token, amount) := entries[i];
        var fee := Fee(amount, feeBps);
        if fee.Err? {
          LoansStayFailed(entries, i + 1, feeBps);
          return Err(Overflow), loans, required;
        }
        var currentRequired := if token in required then required[token] else BalanceOf(vault, token);
        var expected := currentRequired + fee.value;
        OneMoreRequired(vault, loans, Loan(token, amount, fee.value), required);
        loans := loans + [Loan(token, amount, fee.value)];
        if !IsI128(expected) {
          RequiredStaysFailed(entries, i + 1, loans, feeBps, vault);
          return Err(Overflow), loans, required;
        }
        required := required[token := expected];
      }
      assert entries[..|entries|] == entries;
      return Ok(()), loans, required;
    }

    /** The second loop: the loans leave the vault. */
    method PayOut(loans: seq<Loan>) returns (r: Result<(), Error>)
      modifies this`vault
      ensures r.Ok? ==> Lend(old(vault), loans) == Ok(vault)
      ensures r.Err? ==> Lend(old(vault), loans) == Err(r.error) && r.error == TransferRejected
    {
      for i := 0 to |loans|
        invariant Lend(old(vault), loans[..i]) == Ok(vault)
      {
        assert loans[..i + 1][..i] == loans[..i];
        var paid := Pay(vault, loans[i].token, loans[i].amount);
        if paid.Err? {
          LendStaysFailed(old(vault), loans, i + 1);
          return Err(TransferRejected);
        }
        vault := paid.value;
      }
      assert loans[..|loans|] == loans;
      return Ok(());
    }

    /** The last loop: check each entry, then send its fee to the pool. */
    method CheckRepaid(loans: seq<Loan>, required: map<Address, int>, pool: RewardPool) returns (r: Result<(), Error>)
      modifies this`vault
      ensures r.Ok? ==> Collect(old(vault), required, pool, loans) == Ok(vault)
      ensures r.Err? ==> Collect(old(vault), required, pool, loans) == Err(r.error)
    {
      for i := 0 to |loans|
        invariant Collect(old(vault), required, pool, loans[..i]) == Ok(vault)
      {
        assert loans[..i + 1][..i] == loans[..i];
        var loan := loans[i];
        if !Repaid(vault, required, loan) {
          CollectStaysFailed(old(vault), required, pool, loans, i + 1);
          return Err(NotRepaid);
        }
        if pool != NoPool {
          var paid := Pay(vault, loan.token, loan.fee);
          if paid.Err? {
            CollectStaysFailed(old(vault), required, pool, loans, i + 1);
            return Err(paid.error);
          }
          if pool == Elsewhere {
            vault := paid.value;
          }
        }
      }
      assert loans[..|loans|] == loans;
      return Ok(());
    }

    /** The locked part that `flash_loan` and `flash_loan_batch` have in common. */
    method LendAndCollect(entries: seq<(Address, int)>, after: Lender) returns (r: Result<seq<Loan>, Error>)
      modifies this
      ensures View() == After(old(View()), Locked(old(View()), entries, after))
      ensures r == Answer(Locked(old(View()), entries, after))
    {
      var before := View();
      lockHeld := true;
      var planned, loans, required := Plan(entries);
      if planned.Err? {
        Restore(before);
        return Err(planned.error);
      }
      var lent := PayOut(loans);
      if lent.Err? {
        Restore(before);
        return Err(lent.error);
      }
      Restore(after);  // the borrower's callback
      var checked := CheckRepaid(loans, required, rewardPool);
      if checked.Err? {
        Restore(before);
        return Err(checked.error);
      }
      lockHeld := false;
      return Ok(loans);
    }

    method FlashLoan(token: Address, amount: int, globallyPaused: bool, after: Lender) returns (r: Result<int, Error>)
      modifies this
      ensures View() == After(old(View()), FlashLoanModel.FlashLoan(old(View()), token, amount, globallyPaused, after))
      ensures r == Answer(FlashLoanModel.FlashLoan(old(View()), token, amount, globallyPaused, after))
    {
      if paused || globallyPaused {
        return Err(ContractPaused);
      }
      :- Need(!lockHeld, Reentrancy);
      var loans :- LendAndCollect([(token, amount)], after);
      return Ok(loans[0].fee);
    }

    method FlashLoanMulti(tokens: seq<Address>, amounts: seq<int>, globallyPaused: bool, after: Lender) returns (r: Result<seq<Loan>, Error>)
      modifies this
      ensures View() == After(old(View()), FlashLoanModel.FlashLoanMulti(old(View()), tokens, amounts, globallyPaused, after))
      ensures r == Answer(FlashLoanModel.FlashLoanMulti(old(View()), tokens, amounts, globallyPaused, after))
    {
      if paused || globallyPaused {
        return Err(ContractPaused);
      }
      :- Need(tokens != [], NoAssets);
      :- Need(|tokens| == |amounts|, LengthMismatch);
      var before := View();
      var planned, loans, required := Plan(Zipped(tokens, amounts));
      if planned.Err? {
        return Err(planned.error);
      }
      var lent := PayOut(loans);
      if lent.Err? {
        Restore(before);
        return Err(lent.error);
      }
      Restore(after);  // the borrower's callback
      var checked := CheckRepaid(loans, required, NoPool);
      if checked.Err? {
        Restore(before);
        return Err(checked.error);
      }
      return Ok(loans);
    }

    method FlashLoanBatch(entries: seq<(Address, int)>, globallyPaused: bool, after: Lender) returns (r: Result<seq<Loan>, Error>)
      modifies this
      ensures View() == After(old(View()), FlashLoanModel.FlashLoanBatch(old(View()), entries, globallyPaused, after))
      ensures r == Answer(FlashLoanModel.FlashLoanBatch(old(View()), entries, globallyPaused, after))
    {
      if paused || globallyPaused {
        return Err(ContractPaused);
      }
      :- Need(entries != [], NoAssets);
      :- Need(!lockHeld, Reentrancy);
      r := LendAndCollect(entries, after);
    }
  }

  // ---- one turn of the planning loop ----

  lemma OneMoreLoan(entries: seq<(Address, int)>, i: nat, feeBps: nat, loans: seq<Loan>)
    requires i < |entries| && Loans(entries[..i], feeBps) == Ok(loans)
    ensures Loans(entries[..i + 1], feeBps)
            == match Fee(entries[i].1, feeBps)
               case Ok(fee) => Ok(loans + [Loan(entries[i].0, entries[i].1, fee)])
               case Err(e) => Err(Overflow)
  {
    assert entries[..i + 1][..i] == entries[..i];
  }

  lemma OneMoreRequired(v: Balances, loans: seq<Loan>, loan: Loan, required: map<Address, int>)
    requires Required(v, loans) == Ok(required)
    ensures var expected := GetOr(required, loan.token, BalanceOf(v, loan.token)) + loan.fee;
      Required(v, loans + [loan]) == if IsI128(expected) then Ok(required[loan.token := expected]) else Err(Overflow)
  {
    assert (loans + [loan])[..|loans|] == loans;
  }

  // ---- a loop that has failed by entry n has failed ----

  lemma {:induction false} LoansStayFailed(entries: seq<(Address, int)>, n: nat, feeBps: nat)
    requires n <= |entries| && Loans(entries[..n], feeBps) == Err(Overflow)
    ensures Loans(entries, feeBps) == Err(Overflow)
    decreases |entries| - n
  {
    if n < |entries| {
      assert entries[..n + 1][..n] == entries[..n];
      LoansStayFailed(entries, n + 1, feeBps);
    } else {
      assert entries[..n] == entries;
    }
  }

  lemma {:induction false} RequiredStaysFailed(entries: seq<(Address, int)>, n: nat, loans: seq<Loan>, feeBps: nat, v: Balances)
    requires n <= |entries| && Loans(entries[..n], feeBps) == Ok(loans) && Required(v, loans) == Err(Overflow)
    ensures Loans(entries, feeBps) == Err(Overflow)
            || (Loans(entries, feeBps).Ok? && Required(v, Loans(entries, feeBps).value) == Err(Overflow))
    decreases |entries| - n
  {
    if n < |entries| {
      assert entries[..n + 1][..n] == entries[..n];
      var fee := Fee(entries[n].1, feeBps);
      if fee.Ok? {
        var more := loans + [Loan(entries[n].0, entries[n].1, fee.value)];
        assert more[..|loans|] == loans;
        RequiredStaysFailed(entries, n + 1, more, feeBps, v);
      } else {
        LoansStayFailed(entries, n + 1, feeBps);
      }
    } else {
      assert entries[..n] == entries;
    }
  }

  lemma {:induction false} LendStaysFailed(v: Balances, loans: seq<Loan>, n: nat)
    requires n <= |loans| && Lend(v, loans[..n]) == Err(TransferRejected)
    ensures Lend(v, loans) == Err(TransferRejected)
    decreases |loans| - n
  {
    if n < |loans| {
      assert loans[..n + 1][..n] == loans[..n];
      LendStaysFailed(v, loans, n + 1);
    } else {
      assert loans[..n] == loans;
    }
  }

  lemma {:induction false} CollectStaysFailed(v: Balances, required: map<Address, int>, pool: RewardPool, loans: seq<Loan>, n: nat)
    requires n <= |loans| && Collect(v, required, pool, loans[..n]).Err?
    ensures Collect(v, required, pool, loans) == Err(Collect(v, required, pool, loans[..n]).error)
    decreases |loans| - n
  {
    if n < |loans| {
      assert loans[..n + 1][..n] == loans[..n];
      CollectStaysFailed(v, required, pool, loans, n + 1);
    } else {
      assert loans[..n] == loans;
    }
  }
}
