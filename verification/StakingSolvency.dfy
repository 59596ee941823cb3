/** What backs the staked principal: the contract's own token balance over every run. */
module StakingSolvency {
  import opened Host
  import opened Arith
  import opened Sums
  import opened StakingModel
  import opened StakingTheorems

  /** Tokens sent to the contract by one event other than as stakes. */
  function FundedBy(e: Event): int {
    if e.call.FundCall? then e.call.funds else 0
  }

  /** What one event pays out beyond principal: rewards, and, under a negative penalty rate, the
      bonus that the penalty then is. */
  function ExcessBy(p: Pool, e: Event): int {
    match e.call
    case WithdrawCall(user) =>
      (match Withdraw(p, user, e.now, e.ledger) case Ok((_, pay)) => pay.rewards + Max(-pay.penalty, 0) case Err(_) => 0)
    case ClaimCall(user) =>
      (match ClaimRewards(p, user, e.now) case Ok((_, paid)) => paid case Err(_) => 0)
    case _ => 0
  }

  function Funded(events: seq<Event>): int {
    if events == [] then 0 else Funded(events[..|events| - 1]) + FundedBy(events[|events| - 1])
  }

  function ExcessPaid(p: Pool, events: seq<Event>): int {
    if events == [] then 0
    else ExcessPaid(p, events[..|events| - 1]) + ExcessBy(Run(p, events[..|events| - 1]), events[|events| - 1])
  }

  /** The balance is the principal of the live stakes plus `surplus`. */
  ghost predicate Backed(p: Pool, surplus: int) {
    && p.vault == Sum(Amounts(p)) + surplus && p.totalStaked <= I128_MAX
    && forall u :: u in p.stakes ==> 0 < p.stakes[u].amount <= I128_MAX
  }

  lemma StoreBacked(p: Pool, q: Pool, surplus: int, user: Address, info: StakeInfo, paid: int)
    requires Backed(p, surplus) && q.stakes == p.stakes[user := info] && q.totalStaked <= I128_MAX
    requires 0 < info.amount <= I128_MAX && q.vault == p.vault + info.amount - InfoOf(p, user).amount - paid
    ensures Backed(q, surplus - paid)
  {
    assert Amounts(q) == Amounts(p)[user := info.amount];
    SumStore(Amounts(p), user, info.amount);
  }

  lemma RemoveBacked(p: Pool, q: Pool, surplus: int, user: Address, paid: int)
    requires Backed(p, surplus) && user in p.stakes && q.stakes == p.stakes - {user} && q.totalStaked <= I128_MAX
    requires q.vault == p.vault - p.stakes[user].amount - paid
    ensures Backed(q, surplus - paid)
  {
    assert Amounts(q) == Amounts(p) - {user};
    SumWithout(Amounts(p), user);
  }

  lemma StakeBacked(p: Pool, user: Address, amount: int, tier: nat, now: nat, ledger: nat, surplus: int)
    requires Backed(p, surplus)
    ensures Backed(After(p, Stake(p, user, amount, tier, now, ledger)), surplus)
  {
    if Stake(p, user, amount, tier, now, ledger).Ok? {
      var q := Stake(p, user, amount, tier, now, ledger).value.0;
      StakeEffect(p, user, amount, tier, now, ledger);
      StoreBacked(p, q, surplus, user, q.stakes[user], 0);
    }
  }

  lemma WithdrawVault(p: Pool, user: Address, now: nat, ledger: nat)
    requires Withdraw(p, user, now, ledger).Ok?
    ensures var (q, pay) := Withdraw(p, user, now, ledger).value;
      q.vault == p.vault - InfoOf(p, user).amount - (pay.rewards + Max(-pay.penalty, 0)) && q.totalStaked <= I128_MAX
  {
  }

  lemma WithdrawBacked(p: Pool, e: Event, user: Address, surplus: int)
    requires Backed(p, surplus) && e.call == WithdrawCall(user)
    ensures Backed(Step(p, e), surplus - ExcessBy(p, e))
  {
    if Withdraw(p, user, e.now, e.ledger).Ok? {
      WithdrawEffect(p, user, e.now, e.ledger);
      WithdrawVault(p, user, e.now, e.ledger);
      RemoveBacked(p, Step(p, e), surplus, user, ExcessBy(p, e));
    }
  }

  lemma ClaimBacked(p: Pool, e: Event, user: Address, surplus: int)
    requires Backed(p, surplus) && e.call == ClaimCall(user)
    ensures Backed(Step(p, e), surplus - ExcessBy(p, e))
  {
    if ClaimRewards(p, user, e.now).Ok? {
      ClaimEffect(p, user, e.now);
      var q := Step(p, e);
      StoreBacked(p, q, surplus, user, q.stakes[user], ExcessBy(p, e));
    }
  }

  lemma EmergencyVault(p: Pool, user: Address)
    requires EmergencyWithdraw(p, user).Ok? && InfoOf(p, user).amount <= I128_MAX
    ensures var q := EmergencyWithdraw(p, user).value.0;
      q.vault == p.vault - InfoOf(p, user).amount
  {
    var amount := InfoOf(p, user).amount;
    assert EmergencyPenalty(amount) <= I128_MAX by {
      var w := WrapI128(amount * 1_000);
      if w >= 0 {
        FloorDiv(w, 10_000);
      }
    }
    assert IsI128(amount - EmergencyPenalty(amount));
  }

  lemma EmergencyBacked(p: Pool, user: Address, surplus: int)
    requires Backed(p, surplus)
    ensures Backed(After(p, EmergencyWithdraw(p, user)), surplus)
  {
    if EmergencyWithdraw(p, user).Ok? {
      EmergencyEffect(p, user);
      EmergencyVault(p, user);
      RemoveBacked(p, EmergencyWithdraw(p, user).value.0, surplus, user, 0);
    }
  }

  lemma OtherBacked(p: Pool, e: Event, surplus: int)
    requires Backed(p, surplus) && (e.call.ConfigureCall? || e.call.FundCall? || e.call.RegistryCall?)
    ensures Backed(Step(p, e), surplus + FundedBy(e))
  {
    var q := Step(p, e);
    assert q.stakes == p.stakes && q.totalStaked == p.totalStaked && q.vault == p.vault + FundedBy(e);
    SameStakesBacked(p, q, surplus, FundedBy(e));
  }

  lemma SameStakesBacked(p: Pool, q: Pool, surplus: int, funds: int)
    requires Backed(p, surplus) && q.stakes == p.stakes && q.totalStaked == p.totalStaked && q.vault == p.vault + funds
    ensures Backed(q, surplus + funds)
  {
    assert Amounts(q) == Amounts(p);
  }

  lemma StepBacked(p: Pool, e: Event, surplus: int)
    requires Backed(p, surplus)
    ensures Backed(Step(p, e), surplus + FundedBy(e) - ExcessBy(p, e))
  {
    match e.call
    case StakeCall(user, amount, tier) => StakeBacked(p, user, amount, tier, e.now, e.ledger, surplus);
    case WithdrawCall(user) => WithdrawBacked(p, e, user, surplus);
    case ClaimCall(user) => ClaimBacked(p, e, user, surplus);
    case EmergencyCall(user) => EmergencyBacked(p, user, surplus);
    case _ => OtherBacked(p, e, surplus);
  }

  /** In every reachable state the contract holds the principal of the live stakes, plus what it
      was funded with, less what it paid beyond principal. */
  lemma {:induction false} VaultAccounted(admin: Address, baseRate: int, penaltyBps: int, events: seq<Event>)
    ensures var p := Initial(admin, baseRate, penaltyBps);
      Backed(Run(p, events), Funded(events) - ExcessPaid(p, events))
  {
    var p := Initial(admin, baseRate, penaltyBps);
    if events == [] {
      assert Amounts(p) == map[];
    } else {
      var init, last := events[..|events| - 1], events[|events| - 1];
      VaultAccounted(admin, baseRate, penaltyBps, init);
      StepBacked(Run(p, init), last, Funded(init) - ExcessPaid(p, init));
    }
  }

  /** So all principal together is covered exactly while no more was paid beyond it than funded. */
  lemma PrincipalCoveredIff(admin: Address, baseRate: int, penaltyBps: int, events: seq<Event>)
    ensures var p := Initial(admin, baseRate, penaltyBps);
      Sum(Amounts(Run(p, events))) <= Run(p, events).vault <==> ExcessPaid(p, events) <= Funded(events)
  {
    VaultAccounted(admin, baseRate, penaltyBps, events);
  }

  /** Under a rate that is not negative that excess is rewards and nothing else. */
  lemma ExcessIsRewards(p: Pool, user: Address, now: nat, ledger: nat)
    requires Withdraw(p, user, now, ledger).Ok? && 0 <= p.penaltyBps
    ensures ExcessBy(p, Event(now, ledger, WithdrawCall(user))) == Withdraw(p, user, now, ledger).value.1.rewards
  {
    var info := InfoOf(p, user);
    MulLe(0, p.penaltyBps, info.amount);
    assert p.penaltyBps * info.amount == info.amount * p.penaltyBps;
    FloorAtLeast(0, info.amount * p.penaltyBps, 10_000);
  }

  // ---- when a staker can withdraw ----

  /** What `withdraw` would send a staker can be worked out: the contract is not halted, the
      arithmetic fits, and a penalty has somewhere to go. */
  predicate Computable(p: Pool, user: Address, now: nat, ledger: nat) {
    var info := InfoOf(p, user);
    && !p.halted && user in p.stakes
    && Pending(p, info, now).Ok? && Penalty(p, info, ledger).Ok?
    && var rewards, penalty := Pending(p, info, now).value, Penalty(p, info, ledger).value;
    && IsI128(info.amount - penalty) && 0 <= info.amount - penalty + rewards <= I128_MAX
    && (penalty > 0 ==> p.penaltyRecipient.Some?)
  }

  /** The reward, or bonus, that a withdrawal asks for on top of the principal. */
  function ExcessDue(p: Pool, user: Address, now: nat, ledger: nat): int
    requires Computable(p, user, now, ledger)
  {
    Pending(p, InfoOf(p, user), now).value + Max(-Penalty(p, InfoOf(p, user), ledger).value, 0)
  }

  lemma PaidFromVaultIff(p: Pool, user: Address, now: nat, ledger: nat)
    requires Computable(p, user, now, ledger) && 0 < InfoOf(p, user).amount <= p.totalStaked <= I128_MAX
    ensures Withdraw(p, user, now, ledger).Ok? <==> InfoOf(p, user).amount + ExcessDue(p, user, now, ledger) <= p.vault
  {
  }

  lemma PaidIsComputable(p: Pool, user: Address, now: nat, ledger: nat)
    requires Withdraw(p, user, now, ledger).Ok?
    ensures Computable(p, user, now, ledger)
  {
  }

  /** Principal and reward leave together, so in every reachable state a staker gets the principal
      back exactly when the sums can be worked out and the reward due at that moment can be met
      too, from the funds not yet paid out or from the other stakers' principal. */
  lemma WithdrawableIff(admin: Address, baseRate: int, penaltyBps: int, events: seq<Event>, user: Address, now: nat, ledger: nat)
    ensures var p := Initial(admin, baseRate, penaltyBps); var q := Run(p, events);
      Withdraw(q, user, now, ledger).Ok?
      <==> Computable(q, user, now, ledger)
           && ExcessDue(q, user, now, ledger) <= Sum(Amounts(q) - {user}) + Funded(events) - ExcessPaid(p, events)
  {
    var p := Initial(admin, baseRate, penaltyBps);
    var q := Run(p, events);
    if Computable(q, user, now, ledger) {
      VaultAccounted(admin, baseRate, penaltyBps, events);
      WithdrawNeverUnderflows(admin, baseRate, penaltyBps, events, user);
      SumWithout(Amounts(q), user);
      PaidFromVaultIff(q, user, now, ledger);
    } else if Withdraw(q, user, now, ledger).Ok? {
      PaidIsComputable(q, user, now, ledger);
    }
  }

  /** One stake of 1000 and no funding: all principal is covered and the position is unlocked, but
      a reward is due that is not there, and the principal stays with it. */
  lemma UnfundedRewardBlocks(admin: Address, user: Address)
    ensures var events := [Event(1, 0, StakeCall(user, 1_000, 0))]; var p := Initial(admin, 10_000_000, 0); var q := Run(p, events);
      && Sum(Amounts(q)) <= q.vault && Unlocked(InfoOf(q, user), 518_400)
      && Withdraw(q, user, 2, 518_400) == Err(TransferRejected)
  {
    var p := Initial(admin, 10_000_000, 0);
    RunOneMore(p, [], Event(1, 0, StakeCall(user, 1_000, 0)));
    FirstStake(p, user);
    var q := Run(p, [Event(1, 0, StakeCall(user, 1_000, 0))]);
    AloneCovered(q, user);
    FirstOfRewards(q, NEW_POSITION);
  }

  lemma AloneCovered(p: Pool, user: Address)
    requires p.stakes == map[user := NEW_POSITION] && p.vault == 1_000
    ensures Sum(Amounts(p)) <= p.vault
  {
    SumWithout(Amounts(p), user);
    assert Amounts(p) - {user} == map[];
  }

  lemma FirstOfRewards(p: Pool, info: StakeInfo)
    requires p.params == DEFAULT_EMISSION && p.totalStaked == 1_000 && p.baseRate == 10_000_000
    requires info.amount == 1_000 && info.lastUpdated == 1 && info.accumulatedRewards == 0 && info.rateMultiplier == 100
    ensures Pending(p, info, 2) == Ok(2_000)
  {
    assert EmissionMultiplier(p.params, 1_000) == Ok(20_000);
    assert NewRewards(10_000_000, 20_000, info, 2) == Ok(2_000);
  }

  // ---- principal paid out as rewards ----

  /** Two stakes of 1000 and no funding: the first staker claims 2000 in rewards a second later,
      and the second cannot withdraw at all. */
  lemma PrincipalPaidAsRewards(admin: Address, first: Address, second: Address)
    requires first != second
    ensures var p := Initial(admin, 10_000_000, 0);
      var q := Run(p, [Event(1, 0, StakeCall(first, 1_000, 0)), Event(1, 0, StakeCall(second, 1_000, 0)), Event(2, 0, ClaimCall(first))]);
      q.vault == 0 && q.totalStaked == 2_000 && Withdraw(q, second, 2, 0) == Err(TransferRejected)
  {
    var p := Initial(admin, 10_000_000, 0);
    var e0, e1, e2 := Event(1, 0, StakeCall(first, 1_000, 0)), Event(1, 0, StakeCall(second, 1_000, 0)), Event(2, 0, ClaimCall(first));
    RunOfThree(p, e0, e1, e2);
    FirstStake(p, first);
    FirstStake(Step(p, e0), second);
    VaultDrained(Step(Step(p, e0), e1), first, second);
  }

  const NEW_POSITION := StakeInfo(1_000, 1, 0, 30 * 24 * 3600 + 1, 100, 0, 518_400)

  lemma VaultDrained(p: Pool, first: Address, second: Address)
    requires first != second && p.stakes == map[first := NEW_POSITION, second := NEW_POSITION] && p.vault == 2_000
    requires !p.halted && p.params == DEFAULT_EMISSION && p.totalStaked == 2_000 && p.baseRate == 10_000_000 && p.penaltyBps == 0
    ensures var q := Step(p, Event(2, 0, ClaimCall(first)));
      q.vault == 0 && q.totalStaked == 2_000 && Withdraw(q, second, 2, 0) == Err(TransferRejected)
  {
    SecondOfRewards(p, NEW_POSITION);
    assert ClaimRewards(p, first, 2).Ok?;
    NothingLeft(Step(p, Event(2, 0, ClaimCall(first))), second);
  }

  lemma NothingLeft(p: Pool, user: Address)
    requires user in p.stakes && p.stakes[user] == NEW_POSITION && p.vault == 0
    requires !p.halted && p.params == DEFAULT_EMISSION && p.totalStaked == 2_000 && p.baseRate == 10_000_000 && p.penaltyBps == 0
    ensures Withdraw(p, user, 2, 0) == Err(TransferRejected)
  {
    SecondOfRewards(p, NEW_POSITION);
  }

  lemma FirstStake(p: Pool, user: Address)
    requires !p.halted && p.tiers == DEFAULT_TIERS && p.params == DEFAULT_EMISSION && 0 <= p.totalStaked <= 1_000 && user !in p.stakes
    ensures Stake(p, user, 1_000, 0, 1, 0)
            == Ok((p.(stakes := p.stakes[user := NEW_POSITION],
                      totalStaked := p.totalStaked + 1_000, vault := p.vault + 1_000), ()))
  {
    assert LockLedgers(30 * 24 * 3600) == 518_400;
  }

  lemma SecondOfRewards(p: Pool, info: StakeInfo)
    requires p.params == DEFAULT_EMISSION && p.totalStaked == 2_000 && p.baseRate == 10_000_000
    requires info.amount == 1_000 && info.lastUpdated == 1 && info.accumulatedRewards == 0 && info.rateMultiplier == 100
    ensures Pending(p, info, 2) == Ok(2_000)
  {
    assert EmissionMultiplier(p.params, 2_000) == Ok(20_000);
    assert NewRewards(10_000_000, 20_000, info, 2) == Ok(2_000);
  }
}
