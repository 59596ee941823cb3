/** Where the staked principal is, over every run. */
module StakingTheorems {
  import opened Host
  import opened Arith
  import opened Sums
  import opened StakingModel

  ghost function Amounts(p: Pool): map<Address, int> {
    map u | u in p.stakes :: p.stakes[u].amount
  }

  /** Principal that has left through `emergency_withdraw` along a run. */
  function EmergencyOut(p: Pool, events: seq<Event>): int {
    if events == [] then 0
    else
      var init, last := events[..|events| - 1], events[|events| - 1];
      var q := Run(p, init);
      EmergencyOut(p, init) +
        (if last.call.EmergencyCall? && EmergencyWithdraw(q, last.call.user).Ok? then InfoOf(q, last.call.user).amount else 0)
  }

  /** Only real positions are stored. */
  ghost predicate AllSound(p: Pool) {
    forall u :: u in p.stakes ==> p.stakes[u].amount > 0
  }

  /** The pool total is the live stakes plus `gone`, the principal that left without it. */
  ghost predicate Accounted(p: Pool, gone: int) {
    p.totalStaked == Sum(Amounts(p)) + gone && 0 <= gone
  }

  // ---- what each entry point does to the positions ----

  lemma StakeEffect(p: Pool, user: Address, amount: int, tier: nat, now: nat, ledger: nat)
    requires Stake(p, user, amount, tier, now, ledger).Ok?
    ensures var q := Stake(p, user, amount, tier, now, ledger).value.0;
      && user in q.stakes && q.stakes == p.stakes[user := q.stakes[user]]
      && q.stakes[user].amount == InfoOf(p, user).amount + amount && amount > 0
      && q.totalStaked == p.totalStaked + amount
      && q.stakes[user].lastUpdated == now
      && (now == 0 ==> q.stakes[user].accumulatedRewards == InfoOf(p, user).accumulatedRewards)
  {
  }

  lemma WithdrawEffect(p: Pool, user: Address, now: nat, ledger: nat)
    requires Withdraw(p, user, now, ledger).Ok?
    ensures var q := Withdraw(p, user, now, ledger).value.0;
      && user in p.stakes && q.stakes == p.stakes - {user} && q.totalStaked == p.totalStaked - p.stakes[user].amount
  {
  }

  lemma ClaimEffect(p: Pool, user: Address, now: nat)
    requires ClaimRewards(p, user, now).Ok?
    ensures var (q, paid) := ClaimRewards(p, user, now).value;
      && user in p.stakes
      && q == p.(stakes := p.stakes[user := p.stakes[user].(accumulatedRewards := 0, lastUpdated := now)], vault := p.vault - paid)
      && paid > 0
  {
  }

  lemma EmergencyEffect(p: Pool, user: Address)
    requires EmergencyWithdraw(p, user).Ok?
    ensures var q := EmergencyWithdraw(p, user).value.0;
      && user in p.stakes && q.stakes == p.stakes - {user} && q.totalStaked == p.totalStaked
  {
  }

  // ---- and to the account ----

  lemma StoreAccounted(p: Pool, q: Pool, gone: int, user: Address, info: StakeInfo)
    requires Accounted(p, gone) && q.stakes == p.stakes[user := info]
    requires q.totalStaked == p.totalStaked + info.amount - InfoOf(p, user).amount
    ensures Accounted(q, gone)
  {
    assert Amounts(q) == Amounts(p)[user := info.amount];
    SumStore(Amounts(p), user, info.amount);
  }

  lemma RemoveAccounted(p: Pool, q: Pool, gone: int, user: Address)
    requires Accounted(p, gone) && user in p.stakes && q.stakes == p.stakes - {user}
    ensures q.totalStaked == p.totalStaked - p.stakes[user].amount ==> Accounted(q, gone)
    ensures q.totalStaked == p.totalStaked && 0 <= p.stakes[user].amount ==> Accounted(q, gone + p.stakes[user].amount)
  {
    assert Amounts(q) == Amounts(p) - {user};
    SumWithout(Amounts(p), user);
  }

  lemma StepAccounted(p: Pool, e: Event, gone: int)
    requires AllSound(p) && Accounted(p, gone)
    ensures AllSound(Step(p, e))
    ensures Accounted(Step(p, e), gone +
              if e.call.EmergencyCall? && EmergencyWithdraw(p, e.call.user).Ok? then InfoOf(p, e.call.user).amount else 0)
  {
    match e.call
    case StakeCall(user, amount, tier) => StakeAccounted(p, user, amount, tier, e.now, e.ledger, gone);
    case WithdrawCall(user) => WithdrawAccounted(p, user, e.now, e.ledger, gone);
    case ClaimCall(user) => ClaimAccounted(p, user, e.now, gone);
    case EmergencyCall(user) =>
      if EmergencyWithdraw(p, user).Ok? {
        EmergencyEffect(p, user);
        RemoveAccounted(p, Step(p, e), gone, user);
      }
    case ConfigureCall(caller, s) =>
      assert Amounts(Step(p, e)) == Amounts(p);
    case FundCall(funds) =>
      assert Amounts(Step(p, e)) == Amounts(p);
    case RegistryCall(halt) =>
      assert Amounts(Step(p, e)) == Amounts(p);
  }

  lemma StakeAccounted(p: Pool, user: Address, amount: int, tier: nat, now: nat, ledger: nat, gone: int)
    requires AllSound(p) && Accounted(p, gone)
    ensures var q := After(p, Stake(p, user, amount, tier, now, ledger)); AllSound(q) && Accounted(q, gone)
  {
    if Stake(p, user, amount, tier, now, ledger).Ok? {
      var q := Stake(p, user, amount, tier, now, ledger).value.0;
      StakeEffect(p, user, amount, tier, now, ledger);
      StoreAccounted(p, q, gone, user, q.stakes[user]);
    }
  }

  lemma WithdrawAccounted(p: Pool, user: Address, now: nat, ledger: nat, gone: int)
    requires AllSound(p) && Accounted(p, gone)
    ensures var q := After(p, Withdraw(p, user, now, ledger)); AllSound(q) && Accounted(q, gone)
  {
    if Withdraw(p, user, now, ledger).Ok? {
      WithdrawEffect(p, user, now, ledger);
      RemoveAccounted(p, Withdraw(p, user, now, ledger).value.0, gone, user);
    }
  }

  lemma ClaimAccounted(p: Pool, user: Address, now: nat, gone: int)
    requires AllSound(p) && Accounted(p, gone)
    ensures var q := After(p, ClaimRewards(p, user, now)); AllSound(q) && Accounted(q, gone)
  {
    if ClaimRewards(p, user, now).Ok? {
      var q := ClaimRewards(p, user, now).value.0;
      ClaimEffect(p, user, now);
      StoreAccounted(p, q, gone, user, q.stakes[user]);
    }
  }

  /** In every reachable state the pool total is the live stakes plus what left in emergencies. */
  lemma {:induction false} PrincipalAccounted(admin: Address, baseRate: int, penaltyBps: int, events: seq<Event>)
    ensures var p := Initial(admin, baseRate, penaltyBps);
      AllSound(Run(p, events)) && Accounted(Run(p, events), EmergencyOut(p, events))
  {
    var p := Initial(admin, baseRate, penaltyBps);
    if events == [] {
      assert Amounts(p) == map[];
    } else {
      var init, last := events[..|events| - 1], events[|events| - 1];
      PrincipalAccounted(admin, baseRate, penaltyBps, init);
      StepAccounted(Run(p, init), last, EmergencyOut(p, init));
    }
  }

  /** So a withdrawal never takes the total below zero, nor below the emergency principal. */
  lemma WithdrawNeverUnderflows(admin: Address, baseRate: int, penaltyBps: int, events: seq<Event>, user: Address)
    requires user in Run(Initial(admin, baseRate, penaltyBps), events).stakes
    ensures var p := Initial(admin, baseRate, penaltyBps);
      Run(p, events).totalStaked - Run(p, events).stakes[user].amount >= EmergencyOut(p, events) >= 0
  {
    var p := Initial(admin, baseRate, penaltyBps);
    PrincipalAccounted(admin, baseRate, penaltyBps, events);
    ValueAtMostSum(Amounts(Run(p, events)), user);
  }

  /** The stored total is what the users have staked, as its doc comment says, exactly until the
      first principal leaves through `emergency_withdraw`. */
  lemma TotalIsLiveIff(admin: Address, baseRate: int, penaltyBps: int, events: seq<Event>)
    ensures var p := Initial(admin, baseRate, penaltyBps);
      Run(p, events).totalStaked == Sum(Amounts(Run(p, events))) <==> EmergencyOut(p, events) == 0
  {
    PrincipalAccounted(admin, baseRate, penaltyBps, events);
  }

  // ---- runs written out ----

  lemma RunOneMore(p: Pool, events: seq<Event>, e: Event)
    ensures Run(p, events + [e]) == Step(Run(p, events), e)
    ensures Run(p, []) == p && (events == [] ==> events + [e] == [e])
  {
    assert (events + [e])[..|events|] == events;
  }

  lemma RunOfThree(p: Pool, a: Event, b: Event, c: Event)
    ensures Run(p, [a, b, c]) == Step(Step(Step(p, a), b), c)
  {
    RunOneMore(p, [], a);
    RunOneMore(p, [a], b);
    RunOneMore(p, [a, b], c);
    assert [a] + [b] == [a, b] && [a, b] + [c] == [a, b, c];
  }

  /** One stake of 1000 that leaves through `emergency_withdraw`: nobody has a stake, and the
      total still says 1000. */
  lemma TotalOutlivesStakes(admin: Address, user: Address, pool: Address)
    ensures var p := Run(Initial(admin, 0, 0), [Event(1, 0, ConfigureCall(admin, PenaltyPool(pool))), Event(1, 0, StakeCall(user, 1_000, 0)), Event(2, 1, EmergencyCall(user))]);
      p.stakes == map[] && p.totalStaked == 1_000
  {
    var p := Initial(admin, 0, 0);
    RunOfThree(p, Event(1, 0, ConfigureCall(admin, PenaltyPool(pool))), Event(1, 0, StakeCall(user, 1_000, 0)), Event(2, 1, EmergencyCall(user)));
    StakeUnrewarded(p.(penaltyPool := Some(pool)), user, 1_000);
    var staked := Step(p.(penaltyPool := Some(pool)), Event(1, 0, StakeCall(user, 1_000, 0)));
    OnlyStakeLeaves(staked, user);
  }

  lemma OnlyStakeLeaves(p: Pool, user: Address)
    requires user in p.stakes && p.stakes.Keys == {user} && p.stakes[user].amount == 1_000 && p.vault == 1_000 && p.penaltyPool.Some?
    ensures EmergencyWithdraw(p, user) == Ok((p.(stakes := map[], vault := 0), 900))
  {
    assert p.stakes - {user} == map[];
    EmergencyPenaltyIsTenthIff(1_000);
  }

  /** A first stake into a pool with no base rate. */
  lemma StakeUnrewarded(p: Pool, user: Address, amount: int)
    requires !p.halted && p.tiers == DEFAULT_TIERS && p.totalStaked == 0 && p.stakes == map[] && 0 < amount <= I128_MAX
    requires EmissionMultiplier(p.params, 0).Ok? && EmissionMultiplier(p.params, amount).Ok?
    ensures Stake(p, user, amount, 0, 1, 0)
            == Ok((p.(stakes := map[user := StakeInfo(amount, 1, 0, 30 * 24 * 3600 + 1, 100, 0, 518_400)], totalStaked := amount, vault := p.vault + amount), ()))
  {
    assert LockLedgers(30 * 24 * 3600) == 518_400;
    assert p.stakes[user := StakeInfo(amount, 1, 0, 30 * 24 * 3600 + 1, 100, 0, 518_400)]
        == map[user := StakeInfo(amount, 1, 0, 30 * 24 * 3600 + 1, 100, 0, 518_400)];
  }

  // ---- penalties ----

  /** An early withdrawal splits the principal exactly into what is returned and the penalty. */
  lemma WithdrawSplitsPrincipal(p: Pool, user: Address, now: nat, ledger: nat)
    requires Withdraw(p, user, now, ledger).Ok?
    ensures var (q, pay) := Withdraw(p, user, now, ledger).value; var info := InfoOf(p, user);
      && pay.returned + pay.penalty == info.amount
      && (Unlocked(info, ledger) ==> pay.penalty == 0)
      && (0 <= p.penaltyBps <= 10_000 ==> 0 <= pay.penalty <= info.amount && 0 <= q.vault)
  {
    var info := InfoOf(p, user);
    if 0 <= p.penaltyBps <= 10_000 && !Unlocked(info, ledger) {
      MulLe(0, p.penaltyBps, info.amount);
      MulLe(p.penaltyBps, 10_000, info.amount);
      assert p.penaltyBps * info.amount == info.amount * p.penaltyBps;
      FloorAtLeast(0, info.amount * p.penaltyBps, 10_000);
      FloorAtLeast(info.amount + 1, info.amount * p.penaltyBps, 10_000);
    }
  }

  /** The emergency penalty is a tenth, rounded down, exactly when the unchecked product fits. */
  lemma EmergencyPenaltyIsTenthIff(amount: nat)
    requires amount <= I128_MAX
    ensures EmergencyPenalty(amount) == amount / 10 <==> amount * 1_000 <= I128_MAX
  {
    var x := amount * 1_000;
    FloorDiv(amount, 10);
    if x <= I128_MAX {
      FloorUnique(x, 10_000, amount / 10);
    } else {
      FloorAtLeast(1, x - I128_MIN, TWO_TO_128);
      FloorDiv(x - I128_MIN, TWO_TO_128);
      var w := WrapI128(x);
      assert w <= x - TWO_TO_128;
      if w >= 0 {
        FloorDiv(w, 10_000);
      } else {
        FloorAtLeast(0, -w, 10_000);
      }
    }
  }

  const HUGE := TWO_TO_128 / 1_000 + 1

  /** A position so large that the product wraps to almost nothing leaves without any penalty.
      With a target capacity of 0 the emission curve lets a stake be that large. */
  lemma HugePositionEscapesPenalty(admin: Address, user: Address, pool: Address)
    ensures var p := Run(Initial(admin, 0, 0), [Event(1, 0, ConfigureCall(admin, PenaltyPool(pool))), Event(1, 0, ConfigureCall(admin, Emission(EmissionParams(0, 0, 0)))),
                                                Event(1, 0, StakeCall(user, HUGE, 0))]);
      InfoOf(p, user).amount == HUGE && Answer(EmergencyWithdraw(p, user)) == Ok(HUGE)
  {
    var p := Initial(admin, 0, 0);
    RunOfThree(p, Event(1, 0, ConfigureCall(admin, PenaltyPool(pool))), Event(1, 0, ConfigureCall(admin, Emission(EmissionParams(0, 0, 0)))), Event(1, 0, StakeCall(user, HUGE, 0)));
    StakeUnrewarded(p.(penaltyPool := Some(pool), params := EmissionParams(0, 0, 0)), user, HUGE);
    assert WrapI128(HUGE * 1_000) == HUGE * 1_000 - TWO_TO_128;
    assert EmergencyPenalty(HUGE) == 0;
  }

  // ---- positions and time ----

  predicate InOrder(events: seq<Event>) {
    forall i, j :: 0 <= i <= j < |events| ==> events[i].now <= events[j].now
  }

  /** A position was last settled no later than `time`, and one settled at time 0 has no rewards. */
  predicate SettledBy(info: StakeInfo, time: nat) {
    info.lastUpdated <= time && (info.lastUpdated == 0 ==> info.accumulatedRewards == 0)
  }

  ghost predicate AllSettledBy(p: Pool, time: nat) {
    forall u :: u in p.stakes ==> SettledBy(p.stakes[u], time)
  }

  lemma StepSettledBy(p: Pool, e: Event, time: nat)
    requires AllSettledBy(p, time) && time <= e.now
    ensures AllSettledBy(Step(p, e), e.now)
  {
    match e.call
    case StakeCall(user, amount, tier) =>
      if Stake(p, user, amount, tier, e.now, e.ledger).Ok? { StakeEffect(p, user, amount, tier, e.now, e.ledger); }
    case WithdrawCall(user) =>
      if Withdraw(p, user, e.now, e.ledger).Ok? { WithdrawEffect(p, user, e.now, e.ledger); }
    case ClaimCall(user) =>
      if ClaimRewards(p, user, e.now).Ok? { ClaimEffect(p, user, e.now); }
    case EmergencyCall(user) =>
      if EmergencyWithdraw(p, user).Ok? { EmergencyEffect(p, user); }
    case ConfigureCall(caller, s) =>
    case FundCall(funds) =>
    case RegistryCall(halt) =>
  }

  lemma {:induction false} ReachableSettledBy(admin: Address, baseRate: int, penaltyBps: int, events: seq<Event>, time: nat)
    requires InOrder(events) && (events != [] ==> events[|events| - 1].now <= time)
    ensures AllSettledBy(Run(Initial(admin, baseRate, penaltyBps), events), time)
  {
    if events != [] {
      var init, last := events[..|events| - 1], events[|events| - 1];
      ReachableSettledBy(admin, baseRate, penaltyBps, init, last.now);
      StepSettledBy(Run(Initial(admin, baseRate, penaltyBps), init), last, last.now);
    }
  }
}
