/** Where the unchecked arithmetic gives out, by runs the contract accepts, and what its epoch
    records are worth. */
module SnapshotLimits {
  import opened Host
  import opened SnapshotModel

  lemma RunOneMore(s: Snap, calls: seq<Call>, c: Call)
    ensures Run(s, calls + [c]) == Step(Run(s, calls), c)
    ensures Run(s, []) == s && (calls == [] ==> calls + [c] == [c])
  {
    assert (calls + [c])[..|calls|] == calls;
  }

  lemma RunOfThree(s: Snap, a: Call, b: Call, c: Call)
    ensures Run(s, [a, b]) == Step(Step(s, a), b)
    ensures Run(s, [a, b, c]) == Step(Step(Step(s, a), b), c)
  {
    assert [a] + [b] == [a, b] && [a, b] + [c] == [a, b, c];
    RunOneMore(s, [], a);
    RunOneMore(s, [a], b);
    RunOneMore(s, [a, b], c);
  }

  // ---- limits ----

  /** Two stakes whose sum is one too many turn the total into the most negative number. */
  lemma TotalWraps(user: Address, other: Address)
    ensures var s := Run(Initial(), [StakeCall(user, I128_MAX), StakeCall(other, 1)]);
      s.totalStaked == I128_MIN
  {
    RunOfThree(Initial(), StakeCall(user, I128_MAX), StakeCall(other, 1), AdvanceCall);
    LargestStake(user);
    OneTooMany(Step(Initial(), StakeCall(user, I128_MAX)), other);
  }

  lemma LargestStake(user: Address)
    ensures var s := Step(Initial(), StakeCall(user, I128_MAX)); s.totalStaked == I128_MAX && !s.halted
  {
    assert WrapI128(0 + I128_MAX) == I128_MAX;
  }

  lemma OneTooMany(s: Snap, user: Address)
    requires s.totalStaked == I128_MAX && !s.halted
    ensures Step(s, StakeCall(user, 1)).totalStaked == I128_MIN
  {
    assert WrapI128(I128_MAX + 1) == I128_MIN;
  }

  function Advances(n: nat): seq<Call> {
    seq(n, _ => AdvanceCall)
  }

  /** Nothing but n epochs closed, counted modulo 2^32. */
  predicate Idle(s: Snap, n: nat) {
    s.epoch == n % (U32_MAX + 1) && s.checkpoints == map[] && s.lastEpoch == map[] && !s.halted
  }

  lemma AdvanceIdle(s: Snap, n: nat)
    requires Idle(s, n)
    ensures Idle(Step(s, AdvanceCall), n + 1)
  {
    NextEpoch(n);
  }

  lemma {:induction false} OnlyAdvancing(n: nat)
    ensures Idle(Run(Initial(), Advances(n)), n)
  {
    if n > 0 {
      OnlyAdvancing(n - 1);
      assert Advances(n) == Advances(n - 1) + [AdvanceCall];
      RunOneMore(Initial(), Advances(n - 1), AdvanceCall);
      AdvanceIdle(Run(Initial(), Advances(n - 1)), n - 1);
    }
  }

  lemma NextEpoch(n: nat)
    ensures (n % (U32_MAX + 1) + 1) % (U32_MAX + 1) == (n + 1) % (U32_MAX + 1)
  {
  }

  /** After 2^32 epochs the counter is back at 0, and a stake then rewrites the answer about an
      epoch that was closed empty long before. */
  lemma ClosedEpochRewritten(user: Address)
    ensures var s := Run(Initial(), Advances(U32_MAX + 1));
      s.epoch == 0 && BalanceAt(s, user, 0) == 0 && BalanceAt(Step(s, StakeCall(user, 5)), user, 0) == 5
  {
    OnlyAdvancing(U32_MAX + 1);
  }

  // ---- the records ----

  /** Every closed epoch has a record, and it names the frozen total. */
  ghost predicate RecordsMatch(s: Snap) {
    && s.epochTotals.Keys <= s.epochSnapshots.Keys
    && forall e :: e in s.epochTotals ==> s.epochSnapshots[e].totalStaked == s.epochTotals[e]
  }

  /** The records name the frozen totals as long as nobody else writes them. */
  lemma {:induction false} UntouchedRecordsMatch(calls: seq<Call>)
    requires forall i :: 0 <= i < |calls| ==> !calls[i].RecordCall?
    ensures RecordsMatch(Run(Initial(), calls))
  {
    if calls != [] {
      UntouchedRecordsMatch(calls[..|calls| - 1]);
      StepRecordsMatch(Run(Initial(), calls[..|calls| - 1]), calls[|calls| - 1]);
    }
  }

  lemma StepRecordsMatch(s: Snap, c: Call)
    requires RecordsMatch(s) && !c.RecordCall?
    ensures RecordsMatch(Step(s, c))
  {
  }

  /** Anybody may write them, for any epoch.  The records still match afterwards exactly when the
      epoch is not closed yet, or the stake of now is the stake of then. */
  lemma RecordKeepsIff(s: Snap, epoch: nat)
    requires RecordsMatch(s)
    ensures RecordsMatch(Step(s, RecordCall(epoch))) <==> epoch !in s.epochTotals || s.totalStaked == EpochTotal(s, epoch)
  {
  }

  /** Epoch 0 closes empty; a later call records 1000 for it. */
  lemma RecordRewritten(user: Address)
    ensures var s := Run(Initial(), [AdvanceCall, StakeCall(user, 1_000), RecordCall(0)]);
      EpochTotal(s, 0) == 0 && 0 in s.epochSnapshots && s.epochSnapshots[0].totalStaked == 1_000
  {
    RunOfThree(Initial(), AdvanceCall, StakeCall(user, 1_000), RecordCall(0));
  }
}
