/** What the checkpoint index promises: which answers about closed epochs are true, that they only
    ever shrink, and that nobody's shares of an epoch add up to more than the whole. */
module SnapshotRewards {
  import opened Host
  import opened Arith
  import opened Sums
  import opened SnapshotModel
  import opened SnapshotTheorems

  /** The index still knows u's balance at e: it was written there, or not changed since. */
  predicate Remembered(s: Snap, user: Address, epoch: nat) {
    (user, epoch) in s.checkpoints || (user in s.lastEpoch && s.lastEpoch[user] <= epoch)
  }

  /** The contract's answer in terms of the full history: the truth where it is remembered, and 0
      where it is not. */
  lemma AnswerRefinesHistory(w: World, user: Address, epoch: nat)
    requires Inv(w)
    ensures BalanceAt(w.snap, user, epoch) == if Remembered(w.snap, user, epoch) then TrueBalance(w, user, epoch) else 0
    ensures 0 <= TrueBalance(w, user, epoch)
  {
    assert UserTracked(w, user);
    assert CheckpointTrue(w, (user, epoch));
    assert EpochFrozen(w, epoch);
  }

  /** The doc comment of `balance_at` promises the most recent checkpoint at or before the epoch,
      that is the true balance.  The code delivers it exactly when it is remembered or was 0. */
  lemma AnswerTrueIff(w: World, user: Address, epoch: nat)
    requires Inv(w)
    ensures BalanceAt(w.snap, user, epoch) == TrueBalance(w, user, epoch)
            <==> Remembered(w.snap, user, epoch) || TrueBalance(w, user, epoch) == 0
  {
    AnswerRefinesHistory(w, user, epoch);
  }

  /** An example of the gap: stake 1000 in epoch 0, close epochs 0 and 1, stake again in epoch 2.
      Epoch 1 held 1000 throughout, but is now reported as 0. */
  lemma ForgottenEpoch(user: Address)
    ensures var w := Watch(Started(), [StakeCall(user, 1_000), AdvanceCall, AdvanceCall, StakeCall(user, 1)]);
      TrueBalance(w, user, 1) == 1_000 && BalanceAt(w.snap, user, 1) == 0
  {
    WatchOfFour(StakeCall(user, 1_000), AdvanceCall, AdvanceCall, StakeCall(user, 1));
    FirstStake(user);
    var w := Observe(Started(), StakeCall(user, 1_000));
    TwoClosings(w);
    StakedLater(Observe(Observe(w, AdvanceCall), AdvanceCall), user);
  }

  lemma FirstStake(user: Address)
    ensures var w := Observe(Started(), StakeCall(user, 1_000));
      && !w.snap.halted && w.snap.epoch == 0 && w.closed == []
      && w.snap.checkpoints == map[(user, 0) := 1_000] && w.live == map[user := 1_000]
  {
  }

  lemma TwoClosings(w: World)
    requires w.snap.epoch == 0 && w.closed == []
    ensures var v := Observe(Observe(w, AdvanceCall), AdvanceCall);
      v.snap.epoch == 2 && v.closed == [w.live, w.live] && v.snap.checkpoints == w.snap.checkpoints && v.snap.halted == w.snap.halted
  {
  }

  lemma StakedLater(w: World, user: Address)
    requires !w.snap.halted && w.snap.epoch == 2 == |w.closed| && (user, 1) !in w.snap.checkpoints
    ensures var v := Observe(w, StakeCall(user, 1)); v.closed == w.closed && BalanceAt(v.snap, user, 1) == 0
  {
  }

  lemma WatchOfFour(a: Call, b: Call, c: Call, d: Call)
    ensures Watch(Started(), [a, b, c, d]) == Observe(Observe(Observe(Observe(Started(), a), b), c), d)
  {
    assert [a, b] == [a] + [b] && [a, b, c] == [a, b] + [c] && [a, b, c, d] == [a, b, c] + [d];
    WatchOneMore(Started(), [], a);
    WatchOneMore(Started(), [a], b);
    WatchOneMore(Started(), [a, b], c);
    WatchOneMore(Started(), [a, b, c], d);
  }

  lemma WatchOneMore(w: World, calls: seq<Call>, c: Call)
    ensures Watch(w, calls + [c]) == Observe(Watch(w, calls), c)
    ensures Watch(w, []) == w
    ensures calls == [] ==> calls + [c] == [c]
  {
    assert (calls + [c])[..|calls|] == calls;
  }

  // ---- sums over users ----

  ghost function Answers(s: Snap, epoch: nat): map<Address, int> {
    map u | u in s.lastEpoch :: BalanceAt(s, u, epoch)
  }

  /** At the open epoch the answers add up to exactly what is staked. */
  lemma OpenEpochAddsUp(w: World)
    requires Inv(w)
    ensures Sum(Answers(w.snap, w.snap.epoch)) == w.snap.totalStaked
  {
    forall u | u in w.live ensures w.live[u] == BalanceAt(w.snap, u, w.snap.epoch) { LiveBalance(w, u); }
    assert Answers(w.snap, w.snap.epoch) == w.live;
  }

  /** For a closed epoch they never add up to more than its frozen total. */
  lemma ClosedEpochNeverExceeded(w: World, epoch: nat)
    requires Inv(w) && epoch < w.snap.epoch
    ensures Sum(Answers(w.snap, epoch)) <= EpochTotal(w.snap, epoch)
    ensures forall u :: u in w.snap.lastEpoch ==> 0 <= BalanceAt(w.snap, u, epoch)
  {
    assert EpochFrozen(w, epoch);
    var answers, truth := Answers(w.snap, epoch), w.closed[epoch];
    forall u | u in w.snap.lastEpoch
      ensures 0 <= answers[u] <= TrueBalance(w, u, epoch)
    {
      AnswerRefinesHistory(w, u, epoch);
    }
    var padded := map u | u in w.snap.lastEpoch :: GetOr(truth, u, 0);
    SumLe(answers, padded);
    SumSameSupport(truth, padded);
  }

  /** And at the moment it closes they add up to it exactly. */
  lemma ClosingIsExact(w: World)
    requires Inv(w)
    ensures var v := Observe(w, AdvanceCall);
      Sum(Answers(v.snap, w.snap.epoch)) == EpochTotal(v.snap, w.snap.epoch) == w.snap.totalStaked
  {
    OpenEpochAddsUp(w);
    assert Answers(Observe(w, AdvanceCall).snap, w.snap.epoch) == Answers(w.snap, w.snap.epoch);
  }

  // ---- closed answers only shrink ----

  /** In the run the user moves only while the counter is past the epoch, and the epoch is not
      closed again.  Only after the counter has wrapped can it be otherwise. */
  predicate LeavesAlone(s: Snap, calls: seq<Call>, user: Address, epoch: nat) {
    calls == [] ||
    var init, last := calls[..|calls| - 1], calls[|calls| - 1];
    && LeavesAlone(s, init, user, epoch)
    && (Moves(last, user) ==> Run(s, init).epoch > epoch)
    && (last.AdvanceCall? ==> Run(s, init).epoch != epoch)
  }

  predicate Moves(c: Call, user: Address) {
    (c.StakeCall? || c.UnstakeCall?) && c.user == user
  }

  lemma StepForgetsOnly(s: Snap, c: Call, user: Address, epoch: nat)
    requires (Moves(c, user) ==> s.epoch > epoch) && (c.AdvanceCall? ==> s.epoch != epoch)
    ensures BalanceAt(Step(s, c), user, epoch) == BalanceAt(s, user, epoch) || BalanceAt(Step(s, c), user, epoch) == 0
    ensures EpochTotal(Step(s, c), epoch) == EpochTotal(s, epoch)
  {
  }

  /** Over any later run that leaves them alone, whatever its sums do, an answer about a closed
      epoch stays what it was or drops to 0, and the frozen total never moves. */
  lemma {:induction false} ClosedAnswersOnlyShrink(s: Snap, calls: seq<Call>, user: Address, epoch: nat)
    requires LeavesAlone(s, calls, user, epoch)
    ensures BalanceAt(Run(s, calls), user, epoch) == BalanceAt(s, user, epoch) || BalanceAt(Run(s, calls), user, epoch) == 0
    ensures EpochTotal(Run(s, calls), epoch) == EpochTotal(s, epoch)
  {
    if calls != [] {
      var init := calls[..|calls| - 1];
      ClosedAnswersOnlyShrink(s, init, user, epoch);
      StepForgetsOnly(Run(s, init), calls[|calls| - 1], user, epoch);
    }
  }

  /** How many epochs a run closes. */
  function Closings(calls: seq<Call>): nat {
    if calls == [] then 0 else Closings(calls[..|calls| - 1]) + (if calls[|calls| - 1].AdvanceCall? then 1 else 0)
  }

  /** Until the counter wraps every run leaves every closed epoch alone, for everybody. */
  lemma {:induction false} LeftAloneUntilWrap(s: Snap, calls: seq<Call>, user: Address, epoch: nat)
    requires epoch < s.epoch && s.epoch + Closings(calls) <= U32_MAX
    ensures LeavesAlone(s, calls, user, epoch) && Run(s, calls).epoch == s.epoch + Closings(calls)
  {
    if calls != [] {
      LeftAloneUntilWrap(s, calls[..|calls| - 1], user, epoch);
      CounterMoves(Run(s, calls[..|calls| - 1]), calls[|calls| - 1]);
    }
  }

  lemma CounterMoves(s: Snap, c: Call)
    requires c.AdvanceCall? ==> s.epoch < U32_MAX
    ensures Step(s, c).epoch == s.epoch + if c.AdvanceCall? then 1 else 0
  {
  }

  // ---- reward shares ----

  /** The unchecked product and cast give the floored percentage exactly when the product fits. */
  lemma ShareExactIff(balance: nat, total: nat)
    requires 0 < total <= I128_MAX && balance <= total
    ensures Quot(WrapI128(balance * 10_000), total) % (U32_MAX + 1) == balance * 10_000 / total
            <==> balance * 10_000 <= I128_MAX
  {
    var x := balance * 10_000;
    ShareAtMostWhole(balance, total);
    if x > I128_MAX {
      WrapDropsAtLeastOnce(x);
      WrappedShareDiffers(balance, total, WrapI128(x));
    }
  }

  lemma WrappedShareDiffers(balance: nat, total: nat, w: int)
    requires 0 < total <= I128_MAX && balance <= total && I128_MAX < balance * 10_000
    requires I128_MIN <= w <= balance * 10_000 - TWO_TO_128
    ensures Quot(w, total) % (U32_MAX + 1) != balance * 10_000 / total
  {
    var x := balance * 10_000;
    ShareAtMostWhole(balance, total);
    FloorAtLeast(1, x, total);
    if w >= 0 {
      FloorDrops(w, x, total);
    } else {
      NegativeShare(-w, total, balance);
    }
  }

  lemma FloorDrops(w: nat, x: nat, total: nat)
    requires 0 < total && w + total <= x
    ensures 0 <= w / total < x / total
  {
    FloorDiv(w, total);
    FloorAtLeast(0, w, total);
    Distribute(w / total, 1, total);
    FloorAtLeast(w / total + 1, x, total);
  }

  lemma ShareAtMostWhole(balance: nat, total: nat)
    requires 0 < total && balance <= total
    ensures 0 <= balance * 10_000 / total <= 10_000
  {
    FloorLe(balance * 10_000, 10_000 * total, total);
    FloorUnique(10_000 * total, total, 10_000);
    FloorAtLeast(0, balance * 10_000, total);
  }

  lemma WrapDropsAtLeastOnce(x: nat)
    requires x > I128_MAX
    ensures WrapI128(x) <= x - TWO_TO_128
  {
    FloorAtLeast(1, x - I128_MIN, TWO_TO_128);
    FloorDiv(x - I128_MIN, TWO_TO_128);
  }

  /** A negative quotient, cast to `u32`, is far above any percentage. */
  lemma NegativeShare(n: nat, total: nat, balance: nat)
    requires 0 < n <= -I128_MIN && 0 < total && balance <= total && balance * 10_000 > I128_MAX
    ensures 0 <= n / total <= 10_001
    ensures n / total > 0 ==> (-(n / total)) % (U32_MAX + 1) > 10_000
  {
    FloorAtLeast(0, n, total);
    FloorAtLeast(10_002, n, total);
  }

  ghost function Floored(m: map<Address, int>, total: nat): map<Address, int>
    requires 0 < total
  {
    map u | u in m :: m[u] * 10_000 / total
  }

  lemma {:induction false} FlooredSharesWithin(m: map<Address, int>, total: nat)
    requires 0 < total
    ensures Sum(Floored(m, total)) * total <= Sum(m) * 10_000
    decreases |m|
  {
    var shares := Floored(m, total);
    if m != map[] {
      var u :| u in m;
      FlooredSharesWithin(m - {u}, total);
      assert shares - {u} == Floored(m - {u}, total);
      SumWithout(m, u);
      SumWithout(shares, u);
      FloorDiv(m[u] * 10_000, total);
      Distribute(shares[u], Sum(shares - {u}), total);
    }
  }

  lemma Distribute(a: int, b: int, c: int)
    ensures (a + b) * c == a * c + b * c
  {
  }

  ghost function Shares(s: Snap, epoch: nat): map<Address, int> {
    map u | u in s.lastEpoch :: RewardShareBps(s, u, epoch)
  }

  /** What one share comes to: at most the floored percentage, or far above 100% once the
      unchecked product has wrapped to minus the total or below. */
  lemma ShareOutcome(balance: nat, total: nat)
    requires 0 < total && balance <= total
    ensures var w := WrapI128(balance * 10_000); var share := Quot(w, total) % (U32_MAX + 1);
      if w + total > 0 then 0 <= share <= balance * 10_000 / total else share > 10_000
  {
    var x := balance * 10_000;
    var w := WrapI128(x);
    ShareAtMostWhole(balance, total);
    if x > I128_MAX {
      WrapDropsAtLeastOnce(x);
    }
    if w >= 0 {
      FloorAtLeast(0, w, total);
      FloorLe(w, x, total);
    } else {
      NegativeShare(-w, total, balance);
      FloorAtLeast(1, -w, total);
    }
  }

  /** No product of the epoch wraps to minus its total or below. */
  predicate NoShareWraps(s: Snap, epoch: nat) {
    EpochTotal(s, epoch) == 0
    || forall u {:trigger BalanceAt(s, u, epoch)} :: u in s.lastEpoch ==> WrapI128(BalanceAt(s, u, epoch) * 10_000) > -EpochTotal(s, epoch)
  }

  /** All users' shares of an epoch, open or closed, at any time after it, add up to at most 100%
      exactly when no product wraps that far. */
  lemma SharesWithinWholeIff(w: World, epoch: nat)
    requires Inv(w)
    ensures Sum(Shares(w.snap, epoch)) <= 10_000 <==> NoShareWraps(w.snap, epoch)
  {
    assert EpochFrozen(w, epoch);
    var total := EpochTotal(w.snap, epoch);
    if total == 0 {
      SumSameSupport(map[], Shares(w.snap, epoch));
    } else {
      ClosedEpochNeverExceeded(w, epoch);
      SumNonNegative(w.closed[epoch]);
      SharesSumIff(w.snap, epoch);
    }
  }

  /** And so do they in every later state until the counter wraps, whatever the sums do in between:
      an epoch once closed with the books right stays right. */
  lemma LaterSharesWithinWholeIff(w: World, calls: seq<Call>, epoch: nat)
    requires Inv(w) && epoch < w.snap.epoch && w.snap.epoch + Closings(calls) <= U32_MAX
    ensures var s := Run(w.snap, calls); Sum(Shares(s, epoch)) <= 10_000 <==> NoShareWraps(s, epoch)
  {
    var s := Run(w.snap, calls);
    ClosedEpochNeverExceeded(w, epoch);
    assert EpochFrozen(w, epoch);
    SumNonNegative(w.closed[epoch]);
    forall u
      ensures BalanceAt(s, u, epoch) == BalanceAt(w.snap, u, epoch) || BalanceAt(s, u, epoch) == 0
      ensures u !in w.snap.lastEpoch ==> BalanceAt(w.snap, u, epoch) == 0
    {
      LeftAloneUntilWrap(w.snap, calls, u, epoch);
      ClosedAnswersOnlyShrink(w.snap, calls, u, epoch);
      assert CheckpointTrue(w, (u, epoch));
    }
    FrozenTotal(w.snap, s, calls, epoch);
    if EpochTotal(s, epoch) == 0 {
      SumSameSupport(map[], Shares(s, epoch));
    } else {
      ShrunkAnswers(w.snap, s, epoch);
      SharesSumIff(s, epoch);
    }
  }

  lemma FrozenTotal(s: Snap, t: Snap, calls: seq<Call>, epoch: nat)
    requires t == Run(s, calls) && epoch < s.epoch && s.epoch + Closings(calls) <= U32_MAX
    ensures EpochTotal(t, epoch) == EpochTotal(s, epoch)
  {
    LeftAloneUntilWrap(s, calls, 0, epoch);
    ClosedAnswersOnlyShrink(s, calls, 0, epoch);
  }

  lemma ShrunkAnswers(s: Snap, t: Snap, epoch: nat)
    requires forall u {:trigger BalanceAt(t, u, epoch)} {:trigger BalanceAt(s, u, epoch)} ::
      && (BalanceAt(t, u, epoch) == BalanceAt(s, u, epoch) || BalanceAt(t, u, epoch) == 0)
      && (u in s.lastEpoch ==> 0 <= BalanceAt(s, u, epoch)) && (u !in s.lastEpoch ==> BalanceAt(s, u, epoch) == 0)
    ensures Sum(Answers(t, epoch)) <= Sum(Answers(s, epoch))
    ensures forall u {:trigger BalanceAt(t, u, epoch)} :: u in t.lastEpoch ==> 0 <= BalanceAt(t, u, epoch)
  {
    var union := map u | u in s.lastEpoch.Keys + t.lastEpoch.Keys :: BalanceAt(s, u, epoch);
    SumLe(Answers(t, epoch), union);
    SumSameSupport(Answers(s, epoch), union);
  }

  lemma SharesSumIff(s: Snap, epoch: nat)
    requires 0 < EpochTotal(s, epoch) && Sum(Answers(s, epoch)) <= EpochTotal(s, epoch)
    requires forall u {:trigger BalanceAt(s, u, epoch)} :: u in s.lastEpoch ==> 0 <= BalanceAt(s, u, epoch)
    ensures Sum(Shares(s, epoch)) <= 10_000 <==> NoShareWraps(s, epoch)
  {
    var total, answers, shares := EpochTotal(s, epoch), Answers(s, epoch), Shares(s, epoch);
    forall u | u in s.lastEpoch
      ensures var w := WrapI128(BalanceAt(s, u, epoch) * 10_000);
        if w > -total then 0 <= shares[u] <= Floored(answers, total)[u] else shares[u] > 10_000
    {
      ValueAtMostSum(answers, u);
      ShareOutcome(answers[u], total);
    }
    if NoShareWraps(s, epoch) {
      SumLe(shares, Floored(answers, total));
      FlooredSharesWithin(answers, total);
      MulLe(Sum(answers), total, 10_000);
      CancelLe(Sum(Floored(answers, total)), 10_000, total);
    } else {
      var u :| u in s.lastEpoch && WrapI128(BalanceAt(s, u, epoch) * 10_000) <= -total;
      ValueAtMostSum(shares, u);
    }
  }

  /** In particular they do when the epoch's total times 10 000 is an `i128`. */
  lemma SharesNeverExceedWhole(w: World, epoch: nat)
    requires Inv(w) && EpochTotal(w.snap, epoch) * 10_000 <= I128_MAX
    ensures Sum(Shares(w.snap, epoch)) <= 10_000
  {
    assert EpochFrozen(w, epoch);
    if EpochTotal(w.snap, epoch) != 0 {
      ClosedEpochNeverExceeded(w, epoch);
      SumNonNegative(w.closed[epoch]);
      forall u | u in w.snap.lastEpoch
        ensures WrapI128(BalanceAt(w.snap, u, epoch) * 10_000) > -EpochTotal(w.snap, epoch)
      {
        ValueAtMostSum(Answers(w.snap, epoch), u);
      }
    }
    SharesWithinWholeIff(w, epoch);
  }

  /** Since staking moves no tokens anybody can stake any amount.  One stake just above the bound
      is reported as 4 294 957 297 basis points of its epoch. */
  lemma ShareWrapsToBillions(user: Address)
    ensures var s := Run(Initial(), [StakeCall(user, I128_MAX / 10_000 + 1), AdvanceCall]);
      EpochTotal(s, 0) == I128_MAX / 10_000 + 1 && RewardShareBps(s, user, 0) == 4_294_957_297
  {
    var stake, total := StakeCall(user, I128_MAX / 10_000 + 1), I128_MAX / 10_000 + 1;
    assert [stake, AdvanceCall][..1] == [stake] && [stake][..0] == [];
    var s := Step(Initial(), stake);
    assert s == Run(Initial(), [stake]);
    assert s.checkpoints == map[(user, 0) := total] && s.totalStaked == total && s.epoch == 0;
    assert WrapI128(total * 10_000) == total * 10_000 - TWO_TO_128;
    FloorUnique(TWO_TO_128 - total * 10_000, total, 9_999);
  }
}
