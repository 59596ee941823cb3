/** When a position unlocks, and what a further stake does to that. */
module StakingLocks {
  import opened Host
  import opened StakingModel
  import opened StakingTheorems

  /** The first ledger at which `is_unlocked` says yes. */
  function UnlockLedger(info: StakeInfo): nat {
    info.stakeLedger + info.lockLedgers
  }

  /** Whoever is unlocked at some ledger from now on with the new position was so with the old. */
  ghost predicate LockKept(before: StakeInfo, after: StakeInfo, ledger: nat) {
    forall later {:trigger Unlocked(after, later)} :: ledger <= later && Unlocked(after, later) ==> Unlocked(before, later)
  }

  /** How a stake leaves the lock: as it was, or moved to the new tier's end. */
  predicate LockMoves(before: StakeInfo, after: StakeInfo, tier: LockTier, now: nat, ledger: nat) {
    if now + tier.lockSeconds <= before.lockEnd then
      after.lockEnd == before.lockEnd && after.stakeLedger == before.stakeLedger && after.lockLedgers == before.lockLedgers
    else
      after.lockEnd == now + tier.lockSeconds && after.stakeLedger == ledger && after.lockLedgers == LockLedgers(tier.lockSeconds)
  }

  lemma StakeMovesLock(p: Pool, user: Address, amount: int, tier: nat, now: nat, ledger: nat)
    requires Stake(p, user, amount, tier, now, ledger).Ok?
    ensures LockMoves(InfoOf(p, user), InfoOf(Stake(p, user, amount, tier, now, ledger).value.0, user), p.tiers[tier], now, ledger)
  {
    var info := InfoOf(p, user);
    var settled := info.(accumulatedRewards := Pending(p, info, now).value, amount := info.amount + amount, lastUpdated := now);
    var q := Stake(p, user, amount, tier, now, ledger).value.0;
    assert q.stakes == p.stakes[user := ExtendLock(settled, p.tiers[tier], now, ledger).value];
  }

  /** The comments promise to keep the furthest end date.  The code compares dates but unlocks by
      ledgers, so the promise holds exactly when the date does not move, or the ledgers do not
      fall behind. */
  lemma LockKeptIff(p: Pool, user: Address, amount: int, tier: nat, now: nat, ledger: nat)
    requires Stake(p, user, amount, tier, now, ledger).Ok? && InfoOf(p, user).stakeLedger <= ledger
    ensures var before, after := InfoOf(p, user), InfoOf(Stake(p, user, amount, tier, now, ledger).value.0, user);
      var lockSeconds := p.tiers[tier].lockSeconds;
      LockKept(before, after, ledger)
      <==> now + lockSeconds <= before.lockEnd || UnlockLedger(before) <= ledger + LockLedgers(lockSeconds)
  {
    StakeMovesLock(p, user, amount, tier, now, ledger);
    MovedLockKeptIff(InfoOf(p, user), InfoOf(Stake(p, user, amount, tier, now, ledger).value.0, user), p.tiers[tier], now, ledger);
  }

  lemma MovedLockKeptIff(before: StakeInfo, after: StakeInfo, tier: LockTier, now: nat, ledger: nat)
    requires LockMoves(before, after, tier, now, ledger) && before.stakeLedger <= ledger
    ensures LockKept(before, after, ledger)
            <==> now + tier.lockSeconds <= before.lockEnd || UnlockLedger(before) <= ledger + LockLedgers(tier.lockSeconds)
  {
    if UnlockLedger(after) < UnlockLedger(before) {
      assert Unlocked(after, UnlockLedger(after)) && !Unlocked(before, UnlockLedger(after));
    }
  }

  // ---- a chain that closes ledgers at the assumed rate ----

  /** Between any two events at most `SECONDS_PER_LEDGER` pass per ledger closed. */
  predicate Paced(events: seq<Event>) {
    && InOrder(events)
    && forall i, j :: 0 <= i <= j < |events| ==>
         events[j].now - events[i].now <= SECONDS_PER_LEDGER * (events[j].ledger - events[i].ledger)
  }

  /** The unlock ledger is not later than the end date calls for. */
  predicate LockOnPace(info: StakeInfo, now: nat, ledger: nat) {
    || UnlockLedger(info) == 0
    || (info.stakeLedger <= ledger
        && SECONDS_PER_LEDGER * UnlockLedger(info) <= info.lockEnd + SECONDS_PER_LEDGER * ledger - now + SECONDS_PER_LEDGER - 1)
  }

  ghost predicate AllOnPace(p: Pool, now: nat, ledger: nat) {
    forall u :: u in p.stakes ==> LockOnPace(p.stakes[u], now, ledger)
  }

  lemma MovedOnPace(before: StakeInfo, after: StakeInfo, tier: LockTier, now: nat, ledger: nat)
    requires LockMoves(before, after, tier, now, ledger) && LockOnPace(before, now, ledger)
    ensures LockOnPace(after, now, ledger) && UnlockLedger(before) <= UnlockLedger(after)
  {
  }

  lemma InfoOnPace(p: Pool, user: Address, now: nat, ledger: nat)
    requires AllOnPace(p, now, ledger)
    ensures LockOnPace(InfoOf(p, user), now, ledger)
  {
  }

  lemma StoreOnPace(p: Pool, q: Pool, user: Address, info: StakeInfo, now: nat, ledger: nat)
    requires AllOnPace(p, now, ledger) && q.stakes == p.stakes[user := info] && LockOnPace(info, now, ledger)
    ensures AllOnPace(q, now, ledger)
  {
  }

  lemma MoveOnPace(p: Pool, q: Pool, user: Address, info: StakeInfo, tier: LockTier, now: nat, ledger: nat)
    requires AllOnPace(p, now, ledger) && q.stakes == p.stakes[user := info]
    requires LockMoves(InfoOf(p, user), info, tier, now, ledger)
    ensures AllOnPace(q, now, ledger)
  {
    InfoOnPace(p, user, now, ledger);
    MovedOnPace(InfoOf(p, user), info, tier, now, ledger);
    StoreOnPace(p, q, user, info, now, ledger);
  }

  lemma StakeOnPace(p: Pool, user: Address, amount: int, tier: nat, now: nat, ledger: nat)
    requires AllOnPace(p, now, ledger) && Stake(p, user, amount, tier, now, ledger).Ok?
    ensures AllOnPace(Stake(p, user, amount, tier, now, ledger).value.0, now, ledger)
  {
    var q := Stake(p, user, amount, tier, now, ledger).value.0;
    StakeEffect(p, user, amount, tier, now, ledger);
    StakeMovesLock(p, user, amount, tier, now, ledger);
    MoveOnPace(p, q, user, q.stakes[user], p.tiers[tier], now, ledger);
  }

  lemma StepOnPace(p: Pool, e: Event)
    requires AllOnPace(p, e.now, e.ledger)
    ensures AllOnPace(Step(p, e), e.now, e.ledger)
  {
    match e.call
    case StakeCall(user, amount, tier) =>
      if Stake(p, user, amount, tier, e.now, e.ledger).Ok? { StakeOnPace(p, user, amount, tier, e.now, e.ledger); }
    case WithdrawCall(user) =>
      if Withdraw(p, user, e.now, e.ledger).Ok? { WithdrawEffect(p, user, e.now, e.ledger); }
    case ClaimCall(user) =>
      if ClaimRewards(p, user, e.now).Ok? { ClaimEffect(p, user, e.now); }
    case EmergencyCall(user) =>
      if EmergencyWithdraw(p, user).Ok? { EmergencyEffect(p, user); }
    case ConfigureCall(caller, s) =>
    case FundCall(funds) =>
    case RegistryCall(halt) =>
  }

  lemma {:induction false} ReachableOnPace(p: Pool, events: seq<Event>, now: nat, ledger: nat)
    requires p.stakes == map[] && Paced(events + [Event(now, ledger, FundCall(0))])
    ensures AllOnPace(Run(p, events), now, ledger)
  {
    if events != [] {
      var init, last := events[..|events| - 1], events[|events| - 1];
      var next := Event(now, ledger, FundCall(0));
      assert forall i :: 0 <= i < |init| ==> (events + [next])[i] == init[i];
      assert (events + [next])[|init|] == last && (events + [next])[|events|] == next;
      ReachableOnPace(p, init, last.now, last.ledger);
      StepOnPace(Run(p, init), last);
    }
  }

  lemma StakeKeepsLock(p: Pool, user: Address, amount: int, tier: nat, now: nat, ledger: nat)
    requires AllOnPace(p, now, ledger) && Stake(p, user, amount, tier, now, ledger).Ok?
    ensures LockKept(InfoOf(p, user), InfoOf(Stake(p, user, amount, tier, now, ledger).value.0, user), ledger)
  {
    var before, after := InfoOf(p, user), InfoOf(Stake(p, user, amount, tier, now, ledger).value.0, user);
    StakeMovesLock(p, user, amount, tier, now, ledger);
    MovedOnPace(before, after, p.tiers[tier], now, ledger);
    MovedLockKept(before, after, p.tiers[tier], now, ledger);
  }

  lemma MovedLockKept(before: StakeInfo, after: StakeInfo, tier: LockTier, now: nat, ledger: nat)
    requires LockMoves(before, after, tier, now, ledger) && UnlockLedger(before) <= UnlockLedger(after)
    ensures LockKept(before, after, ledger)
  {
  }

  /** As long as ledgers close at least every five seconds on average, no stake in any run ever
      unlocks a position earlier than before. */
  lemma LockKeptOnPace(admin: Address, baseRate: int, penaltyBps: int, events: seq<Event>, user: Address, amount: int, tier: nat, now: nat, ledger: nat)
    requires Paced(events + [Event(now, ledger, FundCall(0))])
    requires Stake(Run(Initial(admin, baseRate, penaltyBps), events), user, amount, tier, now, ledger).Ok?
    ensures var p := Run(Initial(admin, baseRate, penaltyBps), events);
      LockKept(InfoOf(p, user), InfoOf(Stake(p, user, amount, tier, now, ledger).value.0, user), ledger)
  {
    var p := Run(Initial(admin, baseRate, penaltyBps), events);
    ReachableOnPace(Initial(admin, baseRate, penaltyBps), events, now, ledger);
    StakeKeepsLock(p, user, amount, tier, now, ledger);
  }

  // ---- a chain that does not ----

  const ONE_YEAR := 365 * 24 * 3600

  /** At six seconds a ledger: one unit locked for a year at ledger 0, and one more for thirty
      days after 335 days and a second, unlock at ledger 5 342 400 instead of 6 307 200. */
  lemma LockBroughtForward(admin: Address, user: Address)
    ensures var before := Run(Initial(admin, 0, 0), [Event(1, 0, StakeCall(user, 1, 3))]);
      var after := Run(Initial(admin, 0, 0), [Event(1, 0, StakeCall(user, 1, 3)), Event(335 * 86_400 + 2, 4_824_000, StakeCall(user, 1, 0))]);
      && InfoOf(before, user).amount == 1 && InfoOf(after, user).amount == 2
      && !Unlocked(InfoOf(before, user), 5_342_400) && Unlocked(InfoOf(after, user), 5_342_400)
      && UnlockLedger(InfoOf(before, user)) == 6_307_200 && UnlockLedger(InfoOf(after, user)) == 5_342_400
  {
    var p, year, month := Initial(admin, 0, 0), Event(1, 0, StakeCall(user, 1, 3)), Event(335 * 86_400 + 2, 4_824_000, StakeCall(user, 1, 0));
    RunOneMore(p, [], year);
    RunOneMore(p, [year], month);
    assert [year] + [month] == [year, month];
    FirstLock(p, user);
    SecondLock(Step(p, year), user);
  }

  lemma FirstLock(p: Pool, user: Address)
    requires !p.halted && p.tiers == DEFAULT_TIERS && p.params == DEFAULT_EMISSION && p.totalStaked == 0 && user !in p.stakes
    ensures Stake(p, user, 1, 3, 1, 0)
            == Ok((p.(stakes := p.stakes[user := StakeInfo(1, 1, 0, ONE_YEAR + 1, 200, 0, 6_307_200)], totalStaked := 1, vault := p.vault + 1), ()))
  {
    assert LockLedgers(ONE_YEAR) == 6_307_200;
  }

  lemma SecondLock(p: Pool, user: Address)
    requires !p.halted && p.tiers == DEFAULT_TIERS && p.params == DEFAULT_EMISSION && p.totalStaked == 1 && p.baseRate == 0
    requires user in p.stakes && p.stakes[user] == StakeInfo(1, 1, 0, ONE_YEAR + 1, 200, 0, 6_307_200)
    ensures var r := Stake(p, user, 1, 0, 335 * 86_400 + 2, 4_824_000);
      && r.Ok? && user in r.value.0.stakes
      && r.value.0.stakes[user] == StakeInfo(2, 335 * 86_400 + 2, 0, ONE_YEAR + 2, 100, 4_824_000, 518_400)
  {
    assert LockLedgers(30 * 24 * 3600) == 518_400;
    assert Pending(p, p.stakes[user], 335 * 86_400 + 2) == Ok(0);
  }
}
