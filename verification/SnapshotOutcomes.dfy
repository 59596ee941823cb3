/** When each snapshot-staking call goes through and what it then leaves. */
module SnapshotOutcomes {
  import opened Host
  import opened Arith
  import opened Sums
  import opened SnapshotModel
  import opened SnapshotTheorems
  import opened SnapshotRewards

  // ---- moving a balance ----

  /** One user's balance is this from the open epoch on.  Of the past only the epochs with a
      checkpoint are still answered for that user; everybody else's answers stay. */
  ghost predicate BalanceMoved(s: Snap, t: Snap, user: Address, balance: int) {
    && (forall e: nat :: s.epoch <= e ==> BalanceAt(t, user, e) == balance)
    && (forall e: nat :: e < s.epoch ==> BalanceAt(t, user, e) == if (user, e) in s.checkpoints then s.checkpoints[(user, e)] else 0)
    && (forall u, e: nat :: u != user ==> BalanceAt(t, u, e) == BalanceAt(s, u, e))
    && t.epoch == s.epoch && t.epochTotals == s.epochTotals && t.epochSnapshots == s.epochSnapshots
    && t.totalRewardsDistributed == s.totalRewardsDistributed && t.halted == s.halted
  }

  lemma WriteMoves(w: World, t: Snap, user: Address, balance: int, total: int, count: nat)
    requires Inv(w)
    requires t == WriteCheckpoint(w.snap, user, w.snap.epoch, balance).(totalStaked := total, participantCount := count)
    ensures BalanceMoved(w.snap, t, user, balance)
  {
    var s := w.snap;
    forall e: nat | s.epoch <= e
      ensures BalanceAt(t, user, e) == balance
    {
      assert CheckpointTrue(w, (user, e)) && UserTracked(w, user);
    }
  }

  /** A stake of any positive amount is taken unless the registry halts it.  While it fits, it adds
      to the staker's balance and to the total, and one who had nothing is counted once more. */
  lemma StakeOutcome(w: World, user: Address, amount: int)
    requires Inv(w)
    ensures Stake(w.snap, user, amount).Ok? <==> !w.snap.halted && 0 < amount
    ensures Stake(w.snap, user, amount).Ok? && w.snap.totalStaked + amount <= I128_MAX ==>
              var s, t, held := w.snap, Stake(w.snap, user, amount).value.0, GetOr(w.live, user, 0);
              && BalanceMoved(s, t, user, held + amount) && t.totalStaked == s.totalStaked + amount
              && t.participantCount == if held == 0 then (s.participantCount + 1) % 4_294_967_296 else s.participantCount
  {
    LiveBalance(w, user);
    if Stake(w.snap, user, amount).Ok? && w.snap.totalStaked + amount <= I128_MAX {
      var t := Stake(w.snap, user, amount).value.0;
      WriteMoves(w, t, user, GetOr(w.live, user, 0) + amount, t.totalStaked, t.participantCount);
    }
  }

  /** An unstake is taken of any positive amount up to the whole balance. */
  lemma UnstakeOutcome(w: World, user: Address, amount: int)
    requires Inv(w)
    ensures Unstake(w.snap, user, amount).Ok? <==> !w.snap.halted && 0 < amount <= GetOr(w.live, user, 0)
    ensures Unstake(w.snap, user, amount).Ok? ==>
              var s, t, held := w.snap, Unstake(w.snap, user, amount).value.0, GetOr(w.live, user, 0);
              && BalanceMoved(s, t, user, held - amount) && t.totalStaked == s.totalStaked - amount
              && t.participantCount == s.participantCount
  {
    LiveBalance(w, user);
    if Unstake(w.snap, user, amount).Ok? {
      var t := Unstake(w.snap, user, amount).value.0;
      WriteMoves(w, t, user, GetOr(w.live, user, 0) - amount, t.totalStaked, t.participantCount);
    }
  }

  // ---- closing an epoch ----

  /** Anybody closes the epoch at any time: its total and its record are the figures of now, every
      other total stays, and nobody's balance moves. */
  lemma AdvanceOutcome(s: Snap, user: Address, e: nat)
    ensures var (t, next) := AdvanceEpoch(s);
      && next == t.epoch == (s.epoch + 1) % 4_294_967_296
      && EpochTotal(t, e) == (if e == s.epoch then s.totalStaked else EpochTotal(s, e))
      && BalanceAt(t, user, e) == BalanceAt(s, user, e)
      && t.epochSnapshots == s.epochSnapshots[s.epoch := EpochSnapshot(s.totalStaked, s.totalRewardsDistributed, s.participantCount)]
      && t.totalStaked == s.totalStaked && t.participantCount == s.participantCount && t.halted == s.halted
      && t.totalRewardsDistributed == s.totalRewardsDistributed
  {
  }

  /** A record holds the figures of now under the epoch asked for, and nothing else moves. */
  lemma RecordOutcome(s: Snap, epoch: nat)
    ensures var t := RecordEpochSnapshot(s, epoch);
      && epoch in t.epochSnapshots
      && t.epochSnapshots[epoch] == EpochSnapshot(s.totalStaked, s.totalRewardsDistributed, s.participantCount)
      && (forall e :: e != epoch && e in s.epochSnapshots ==> e in t.epochSnapshots && t.epochSnapshots[e] == s.epochSnapshots[e])
      && t == s.(epochSnapshots := t.epochSnapshots)
  {
  }

  predicate NoRewards(s: Snap) {
    s.totalRewardsDistributed == 0 && forall e :: e in s.epochSnapshots ==> s.epochSnapshots[e].totalRewardsDistributed == 0
  }

  lemma StepNoRewards(s: Snap, c: Call)
    requires NoRewards(s)
    ensures NoRewards(Step(s, c))
  {
  }

  /** No rewards are ever counted, in the state or in any record. */
  lemma {:induction false} NoRewardsCounted(calls: seq<Call>)
    ensures NoRewards(Run(Initial(), calls))
  {
    if calls != [] {
      NoRewardsCounted(calls[..|calls| - 1]);
      StepNoRewards(Run(Initial(), calls[..|calls| - 1]), calls[|calls| - 1]);
    }
  }

  // ---- shares ----

  /** Of a closed epoch whose total times 10 000 fits, a share is the whole number of basis points
      of the total that the balance makes up; of an epoch without a total it is nothing. */
  lemma ShareOutcomeInBps(w: World, user: Address, epoch: nat, share: int)
    requires Inv(w) && EpochTotal(w.snap, epoch) * 10_000 <= I128_MAX
    ensures EpochTotal(w.snap, epoch) == 0 ==> RewardShareBps(w.snap, user, epoch) == 0
    ensures EpochTotal(w.snap, epoch) != 0 ==>
              var balance, total := BalanceAt(w.snap, user, epoch), EpochTotal(w.snap, epoch);
              (RewardShareBps(w.snap, user, epoch) == share <==> share * total <= balance * 10_000 < (share + 1) * total)
  {
    assert EpochFrozen(w, epoch);
    var balance, total := BalanceAt(w.snap, user, epoch), EpochTotal(w.snap, epoch);
    if total != 0 {
      ClosedEpochNeverExceeded(w, epoch);
      SumNonNegative(w.closed[epoch]);
      BalanceWithin(w, user, epoch);
      PlainShare(w.snap, user, epoch);
      FloorDiv(balance * 10_000, total);
      if share * total <= balance * 10_000 < (share + 1) * total {
        FloorUnique(balance * 10_000, total, share);
      }
    }
  }

  lemma BalanceWithin(w: World, user: Address, epoch: nat)
    requires Inv(w) && epoch < w.snap.epoch && 0 <= EpochTotal(w.snap, epoch)
    ensures 0 <= BalanceAt(w.snap, user, epoch) <= EpochTotal(w.snap, epoch)
  {
    ClosedEpochNeverExceeded(w, epoch);
    if user in w.snap.lastEpoch {
      ValueAtMostSum(Answers(w.snap, epoch), user);
    } else {
      assert CheckpointTrue(w, (user, epoch));
    }
  }

  lemma PlainShare(s: Snap, user: Address, epoch: nat)
    requires 0 <= BalanceAt(s, user, epoch) <= EpochTotal(s, epoch) && 0 < EpochTotal(s, epoch) && EpochTotal(s, epoch) * 10_000 <= I128_MAX
    ensures RewardShareBps(s, user, epoch) == BalanceAt(s, user, epoch) * 10_000 / EpochTotal(s, epoch)
  {
    ShareExactIff(BalanceAt(s, user, epoch), EpochTotal(s, epoch));
  }

  /** A new contract has nothing in it. */
  lemma InitialOutcome(user: Address, epoch: nat)
    ensures var s := Initial();
      && s.epoch == 0 && s.totalStaked == 0 && s.participantCount == 0 && s.totalRewardsDistributed == 0 && !s.halted
      && BalanceAt(s, user, epoch) == 0 && EpochTotal(s, epoch) == 0 && RewardShareBps(s, user, epoch) == 0 && s.epochSnapshots == map[]
  {
  }

  /** While the registry halts it nothing is staked. */
  lemma HaltedRun(user: Address)
    ensures Run(Initial(), [RegistryCall(true), StakeCall(user, 5)]).totalStaked == 0
  {
    var halt, stake := RegistryCall(true), StakeCall(user, 5);
    assert [halt, stake][..1] == [halt] && [halt][..0] == [];
    assert Run(Initial(), [halt]) == Step(Run(Initial(), []), halt);
  }
}
