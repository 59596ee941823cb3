/** What each staking call pays, charges and leaves, said with products instead of quotients. */
module StakingOutcomes {
  import opened Host
  import opened Arith
  import opened Words
  import opened StakingModel
  import opened StakingTheorems
  import opened StakingRewards

  // ---- rates and rewards ----

  /** The unclamped multiplier: 20 000 less a basis point for every part in 10 000 of the capacity
      that is staked, counting whole parts only. */
  predicate OnCurve(e: EmissionParams, total: int, raw: int) {
    (20_000 - raw) * e.targetCapacity <= Max(total, 0) * 10_000 < (20_001 - raw) * e.targetCapacity
  }

  /** Without a capacity the multiplier is 1x; with one it lies on the curve, held between the
      configured limits. */
  lemma EmissionOutcome(e: EmissionParams, total: int, raw: int)
    requires Accepted(e) && (0 < e.targetCapacity ==> OnCurve(e, total, raw))
    ensures EmissionMultiplier(e, total) ==
              if e.targetCapacity == 0 then Ok(10_000)
              else if Max(total, 0) * 10_000 > I128_MAX then Err(Overflow)
              else Ok(if raw < e.minMultiplierBps then e.minMultiplierBps else if raw > e.maxMultiplierBps then e.maxMultiplierBps else raw)
  {
    if 0 < e.targetCapacity {
      FloorUnique(Max(total, 0) * 10_000, e.targetCapacity, 20_000 - raw);
    }
  }

  /** v is n over 10^13, rounded toward zero. */
  predicate Scaled(n: int, v: int) {
    if 0 <= n then v * 10_000_000_000_000 <= n < (v + 1) * 10_000_000_000_000
    else (v - 1) * 10_000_000_000_000 < n <= v * 10_000_000_000_000
  }

  lemma ScaledIsQuot(n: int, v: int)
    requires Scaled(n, v)
    ensures v == Quot(n, 10_000_000_000_000)
  {
    if 0 <= n {
      QuotDown(n, 10_000_000_000_000, v);
    } else {
      QuotUp(n, 10_000_000_000_000, v);
    }
  }

  predicate Accrues(info: StakeInfo, now: nat) {
    info.amount != 0 && info.lastUpdated != 0 && now > info.lastUpdated
  }

  /** The products of an accrual, one by one. */
  predicate AccrualFits(rate: int, emission: int, info: StakeInfo, now: nat) {
    var seconds := now - info.lastUpdated;
    && IsI128(info.amount * rate) && IsI128(info.amount * rate * seconds)
    && IsI128(info.amount * rate * seconds * info.rateMultiplier)
    && IsI128(info.amount * rate * seconds * info.rateMultiplier * emission)
  }

  /** A settled position accrues principal times rate times seconds times both multipliers, over
      10^13; an empty or unsettled one, or one settled just now, nothing. */
  lemma AccrualOutcome(rate: int, emission: int, info: StakeInfo, now: nat, v: int)
    requires Accrues(info, now) ==> Scaled(info.amount * rate * (now - info.lastUpdated) * info.rateMultiplier * emission, v)
    ensures NewRewards(rate, emission, info, now) ==
              if !Accrues(info, now) then Ok(0)
              else if AccrualFits(rate, emission, info, now) then Ok(v) else Err(Overflow)
  {
    if Accrues(info, now) {
      ScaledIsQuot(info.amount * rate * (now - info.lastUpdated) * info.rateMultiplier * emission, v);
    }
  }

  /** What is pending is what was settled and what has accrued since, at the multiplier of the
      whole pool. */
  lemma PendingOutcome(p: Pool, info: StakeInfo, now: nat, accrued: int)
    requires EmissionMultiplier(p.params, p.totalStaked).Ok? ==>
               NewRewards(p.baseRate, EmissionMultiplier(p.params, p.totalStaked).value, info, now) == Ok(accrued)
    ensures Pending(p, info, now).Ok? <==> EmissionMultiplier(p.params, p.totalStaked).Ok? && IsI128(info.accumulatedRewards + accrued)
    ensures Pending(p, info, now).Ok? ==> Pending(p, info, now).value == info.accumulatedRewards + accrued
  {
  }

  /** 1000 units at a rate of 1 a second, in an almost empty pool at 2x, with the 1.5x of half a
      year: 30 000 in ten seconds. */
  lemma TenSecondsOfRewards(p: Pool)
    requires p.params == DEFAULT_EMISSION && p.totalStaked == 1_000 && p.baseRate == 10_000_000
    ensures Pending(p, StakeInfo(1_000, 5, 0, 15_552_005, 150, 0, 3_110_400), 15) == Ok(30_000)
  {
    EmissionOutcome(p.params, 1_000, 20_000);
    AccrualOutcome(10_000_000, 20_000, StakeInfo(1_000, 5, 0, 15_552_005, 150, 0, 3_110_400), 15, 30_000);
  }

  // ---- locks ----

  /** A position is unlocked from its ledger and the locked ledgers after it on. */
  lemma UnlockedIff(info: StakeInfo, ledger: nat)
    ensures Unlocked(info, ledger) <==> info.lockLedgers == 0 || ledger >= info.stakeLedger + info.lockLedgers
  {
  }

  /** ledgers is the least number of five-second ledgers that lasts the tier's seconds. */
  predicate Lasts(seconds: nat, ledgers: nat) {
    seconds <= ledgers * 5 && (ledgers == 0 || (ledgers - 1) * 5 < seconds)
  }

  /** The position after a stake that settles what is pending. */
  function Extended(info: StakeInfo, pending: int, amount: int, tier: LockTier, now: nat, ledger: nat, ledgers: nat): StakeInfo {
    if now + tier.lockSeconds > info.lockEnd
    then StakeInfo(info.amount + amount, now, pending, now + tier.lockSeconds, tier.rateMultiplier, ledger, ledgers)
    else StakeInfo(info.amount + amount, now, pending, info.lockEnd, info.rateMultiplier, info.stakeLedger, info.lockLedgers)
  }

  /** Everything a stake computes fits its type. */
  predicate StakeFits(p: Pool, info: StakeInfo, amount: int, tier: LockTier, now: nat, ledgers: nat) {
    && IsI128(info.amount + amount) && now + tier.lockSeconds <= U64_MAX
    && (now + tier.lockSeconds > info.lockEnd ==> ledgers <= U32_MAX)
    && IsI128(p.totalStaked + amount) && EmissionMultiplier(p.params, p.totalStaked + amount).Ok?
  }

  lemma LedgersLast(seconds: nat, ledgers: nat)
    requires Lasts(seconds, ledgers)
    ensures LockLedgers(seconds) == ledgers
  {
  }

  /** A stake of a positive amount under an existing tier is taken when everything fits.  It settles
      the position, adds the amount, and moves the lock and its multiplier only to a later end. */
  lemma StakeOutcome(p: Pool, user: Address, amount: int, tierIndex: nat, now: nat, ledger: nat, ledgers: nat)
    requires tierIndex < |p.tiers| ==> Lasts(p.tiers[tierIndex].lockSeconds, ledgers)
    ensures var r := Stake(p, user, amount, tierIndex, now, ledger); var info := if user in p.stakes then p.stakes[user] else NO_STAKE;
      && (r.Ok? <==>
            && !p.halted && 0 < amount && tierIndex < |p.tiers| && Pending(p, info, now).Ok?
            && StakeFits(p, info, amount, p.tiers[tierIndex], now, ledgers))
      && (r.Ok? ==> r.value.0 == p.(
            stakes := p.stakes[user := Extended(info, Pending(p, info, now).value, amount, p.tiers[tierIndex], now, ledger, ledgers)],
            totalStaked := p.totalStaked + amount, vault := p.vault + amount))
  {
    if tierIndex < |p.tiers| {
      LedgersLast(p.tiers[tierIndex].lockSeconds, ledgers);
      ExtendOutcome(InfoOf(p, user), p.tiers[tierIndex], now, ledger, ledgers);
    }
  }

  lemma ExtendOutcome(info: StakeInfo, tier: LockTier, now: nat, ledger: nat, ledgers: nat)
    requires LockLedgers(tier.lockSeconds) == ledgers
    ensures var r := ExtendLock(info, tier, now, ledger); var later := now + tier.lockSeconds > info.lockEnd;
      && (r.Ok? <==> now + tier.lockSeconds <= U64_MAX && (later ==> ledgers <= U32_MAX))
      && (r.Ok? ==> r.value == if later then info.(lockEnd := now + tier.lockSeconds, rateMultiplier := tier.rateMultiplier,
                                                   stakeLedger := ledger, lockLedgers := ledgers) else info)
  {
  }

  // ---- withdrawals ----

  /** penalty is the configured part of the principal in 10 000, rounded toward zero, or nothing for
      an unlocked position. */
  predicate EarlyPenalty(p: Pool, info: StakeInfo, ledger: nat, penalty: int) {
    if info.lockLedgers == 0 || ledger >= info.stakeLedger + info.lockLedgers then penalty == 0
    else if 0 <= info.amount * p.penaltyBps then penalty * 10_000 <= info.amount * p.penaltyBps < (penalty + 1) * 10_000
    else (penalty - 1) * 10_000 < info.amount * p.penaltyBps <= penalty * 10_000
  }

  lemma PenaltyIs(p: Pool, info: StakeInfo, ledger: nat, penalty: int)
    requires EarlyPenalty(p, info, ledger, penalty)
    ensures Penalty(p, info, ledger).Ok? <==> Unlocked(info, ledger) || IsI128(info.amount * p.penaltyBps)
    ensures Penalty(p, info, ledger).Ok? ==> Penalty(p, info, ledger).value == penalty
  {
    if !Unlocked(info, ledger) {
      if 0 <= info.amount * p.penaltyBps {
        QuotDown(info.amount * p.penaltyBps, 10_000, penalty);
      } else {
        QuotUp(info.amount * p.penaltyBps, 10_000, penalty);
      }
    }
  }

  /** Every withdrawal that goes through returns the principal less the early-exit penalty, and with
      it exactly what was pending. */
  lemma WithdrawPays(p: Pool, user: Address, now: nat, ledger: nat)
    requires Withdraw(p, user, now, ledger).Ok?
    ensures var pay := Withdraw(p, user, now, ledger).value.1;
      && user in p.stakes && EarlyPenalty(p, p.stakes[user], ledger, pay.penalty)
      && pay.returned == p.stakes[user].amount - pay.penalty && Pending(p, p.stakes[user], now) == Ok(pay.rewards)
  {
    var info := p.stakes[user];
    if !Unlocked(info, ledger) {
      var penalty := Withdraw(p, user, now, ledger).value.1.penalty;
      if 0 <= info.amount * p.penaltyBps {
        QuotDown(info.amount * p.penaltyBps, 10_000, penalty);
      } else {
        QuotUp(info.amount * p.penaltyBps, 10_000, penalty);
      }
    }
  }

  /** A withdrawal goes through when there is a position, everything fits, a penalty has somewhere
      to go, and the contract holds enough; it removes the position and pays out of the contract. */
  lemma WithdrawOutcome(p: Pool, user: Address, now: nat, ledger: nat, rewards: int, penalty: int)
    requires user in p.stakes ==> EarlyPenalty(p, p.stakes[user], ledger, penalty)
    requires user in p.stakes && Pending(p, p.stakes[user], now).Ok? ==> Pending(p, p.stakes[user], now).value == rewards
    ensures var r := Withdraw(p, user, now, ledger);
      && (r.Ok? <==>
            && !p.halted && user in p.stakes && 0 < p.stakes[user].amount
            && Pending(p, p.stakes[user], now).Ok?
            && var info := p.stakes[user]; var sent := info.amount - penalty + rewards;
            && (Unlocked(info, ledger) || IsI128(info.amount * p.penaltyBps))
            && IsI128(info.amount - penalty) && IsI128(p.totalStaked - info.amount)
            && 0 <= sent <= I128_MAX && sent + Max(penalty, 0) <= p.vault
            && (penalty > 0 ==> p.penaltyRecipient.Some?))
      && (r.Ok? ==>
            var info := p.stakes[user]; var sent := info.amount - penalty + rewards;
            r.value == (p.(stakes := p.stakes - {user}, totalStaked := p.totalStaked - info.amount, vault := p.vault - sent - Max(penalty, 0)),
                        Payout(info.amount - penalty, rewards, penalty)))
  {
    if user in p.stakes {
      PenaltyIs(p, p.stakes[user], ledger, penalty);
    }
  }

  /** A position of 1000 that leaves early under a rate of a tenth: 900 come back. */
  lemma EarlyExitCostsATenth(p: Pool, user: Address)
    requires user in p.stakes && p.stakes[user] == StakeInfo(1_000, 1, 0, 2_592_001, 100, 0, 518_400)
    requires !p.halted && p.penaltyBps == 1_000 && p.penaltyRecipient.Some? && p.vault == 1_000 && p.totalStaked == 1_000
    requires p.params == DEFAULT_EMISSION && p.baseRate == 0
    ensures Answer(Withdraw(p, user, 2, 1)) == Ok(Payout(900, 0, 100))
  {
    EmissionOutcome(p.params, 1_000, 20_000);
    AccrualOutcome(0, 20_000, p.stakes[user], 2, 0);
    WithdrawOutcome(p, user, 2, 1, 0, 100);
  }

  // ---- claims, emergencies and settings ----

  /** A claim goes through for a positive pending reward that the contract can pay; it pays that,
      settles the position and touches nothing else. */
  lemma ClaimOutcome(p: Pool, user: Address, now: nat)
    ensures var r := ClaimRewards(p, user, now); var info := if user in p.stakes then p.stakes[user] else NO_STAKE;
      && (r.Ok? <==> !p.halted && Pending(p, info, now).Ok? && 0 < Pending(p, info, now).value <= p.vault)
      && (r.Ok? ==> r.value == (p.(stakes := p.stakes[user := info.(accumulatedRewards := 0, lastUpdated := now)],
                                   vault := p.vault - Pending(p, info, now).value), Pending(p, info, now).value))
  {
  }

  /** An emergency withdrawal, which the registry does not halt, goes through for any position the
      contract can cover once a penalty pool is set.  It keeps a tenth, rounded down, forfeits all
      rewards, and leaves the total as it was. */
  lemma EmergencyOutcome(p: Pool, user: Address, tenth: nat)
    requires user in p.stakes ==> 0 <= p.stakes[user].amount && p.stakes[user].amount * 1_000 <= I128_MAX && tenth * 10 <= p.stakes[user].amount < (tenth + 1) * 10
    ensures var r := EmergencyWithdraw(p, user);
      && (r.Ok? <==> user in p.stakes && 0 < p.stakes[user].amount <= p.vault && p.penaltyPool.Some?)
      && (r.Ok? ==> r.value == (p.(stakes := p.stakes - {user}, vault := p.vault - p.stakes[user].amount), p.stakes[user].amount - tenth))
  {
    if user in p.stakes {
      EmergencyPenaltyIsTenthIff(p.stakes[user].amount);
      FloorUnique(p.stakes[user].amount, 10, tenth);
    }
  }

  lemma ConfigureOutcome(p: Pool, caller: Address, s: Setting)
    ensures Configure(p, caller, s).Ok? <==>
              caller == p.admin &&
              match s
              case Tiers(t) => |t| >= 1
              case Emission(e) => 0 <= e.targetCapacity && 0 <= e.minMultiplierBps <= e.maxMultiplierBps
              case PenaltyRecipient(a) => true
              case PenaltyPool(a) => true
    ensures Configure(p, caller, s).Ok? ==>
              Configure(p, caller, s).value.0 ==
              match s
              case Tiers(t) => p.(tiers := t)
              case Emission(e) => p.(params := e)
              case PenaltyRecipient(a) => p.(penaltyRecipient := Some(a))
              case PenaltyPool(a) => p.(penaltyPool := Some(a))
  {
  }

  /** A new contract: four tiers from a month at 1x to a year at 2x, and a curve from 2x for an empty
      pool down to a quarter. */
  lemma InitialOutcome(admin: Address, baseRate: int, penaltyBps: int)
    ensures var p := Initial(admin, baseRate, penaltyBps);
      && p.admin == admin && p.baseRate == baseRate && p.penaltyBps == penaltyBps
      && p.tiers == [LockTier(2_592_000, 100), LockTier(7_776_000, 125), LockTier(15_552_000, 150), LockTier(31_536_000, 200)]
      && p.params == EmissionParams(1_000_000_000_000, 2_500, 20_000)
      && p.penaltyRecipient == None && p.penaltyPool == None && p.totalStaked == 0 && p.stakes == map[] && p.vault == 0 && !p.halted
      && NO_STAKE == StakeInfo(0, 0, 0, 0, 100, 0, 0)
  {
  }

  /** While the registry halts it nothing is staked. */
  lemma HaltedRun(admin: Address, user: Address)
    ensures Run(Initial(admin, 0, 0), [Event(1, 0, RegistryCall(true)), Event(1, 0, StakeCall(user, 5, 0))]).totalStaked == 0
  {
    var halt, stake := Event(1, 0, RegistryCall(true)), Event(1, 0, StakeCall(user, 5, 0));
    RunOneMore(Initial(admin, 0, 0), [], halt);
    RunOneMore(Initial(admin, 0, 0), [halt], stake);
    assert [halt] + [stake] == [halt, stake];
  }
}
