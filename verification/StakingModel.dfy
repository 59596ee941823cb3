/** Reward staking: locked positions, an emission rate that falls as the pool fills, and rewards
    floored at every settlement. */
module StakingModel {
  import opened Host

  const BPS := 10_000
  const SECONDS_PER_LEDGER := 5
  const REWARD_DIVISOR := 10_000_000_000_000

  datatype Error =
    | ContractPaused
    | Unauthorized
    | AmountNotPositive
    | InvalidTier
    | NothingToWithdraw
    | NoRewards
    | NoPenaltyRecipient
    | NoPenaltyPool
    | BadParameters
    | TransferRejected
    | Overflow

  datatype LockTier = LockTier(lockSeconds: nat, rateMultiplier: int)

  datatype StakeInfo = StakeInfo(
    amount: int,
    lastUpdated: nat,
    accumulatedRewards: int,
    lockEnd: nat,
    rateMultiplier: int,
    stakeLedger: nat,
    lockLedgers: nat)

  datatype EmissionParams = EmissionParams(targetCapacity: int, minMultiplierBps: int, maxMultiplierBps: int)

  /** `vault` is the contract's own balance of the staked token, and `halted` what the security
      registry, if there is one, answers to `is_paused`. */
  datatype Pool = Pool(
    admin: Address,
    baseRate: int,
    penaltyBps: int,
    tiers: seq<LockTier>,
    params: EmissionParams,
    penaltyRecipient: Option<Address>,
    penaltyPool: Option<Address>,
    totalStaked: int,
    stakes: map<Address, StakeInfo>,
    vault: int,
    halted: bool)

  const DEFAULT_EMISSION := EmissionParams(1_000_000_000_000, 2_500, 20_000)

  const DEFAULT_TIERS := [
    LockTier(30 * 24 * 3600, 100), LockTier(90 * 24 * 3600, 125),
    LockTier(180 * 24 * 3600, 150), LockTier(365 * 24 * 3600, 200)]

  const NO_STAKE := StakeInfo(0, 0, 0, 0, 100, 0, 0)

  function Initial(admin: Address, baseRate: int, penaltyBps: int): Pool {
    Pool(admin, baseRate, penaltyBps, DEFAULT_TIERS, DEFAULT_EMISSION, None, None, 0, map[], 0, false)
  }

  function InfoOf(p: Pool, user: Address): StakeInfo {
    GetOr(p.stakes, user, NO_STAKE)
  }

  // ---- rewards ----

  /** `emission_multiplier_bps`. */
  function EmissionMultiplier(params: EmissionParams, totalStaked: int): Result<int, Error> {
    if params.targetCapacity <= 0 then Ok(BPS)
    else
      var scaled :- Checked(Max(totalStaked, 0) * BPS, Overflow);
      var raw := 2 * BPS - scaled / params.targetCapacity;
      var floor := Max(params.minMultiplierBps, 0);
      Ok(Min(Max(raw, floor), Max(params.maxMultiplierBps, floor)))
  }

  /** `calc_new_rewards`: five factors, each product checked, then one truncating division. */
  function NewRewards(baseRate: int, emissionBps: int, info: StakeInfo, now: nat): Result<int, Error> {
    if info.amount == 0 || info.lastUpdated == 0 || now <= info.lastUpdated then Ok(0)
    else
      var a :- Checked(info.amount * baseRate, Overflow);
      var b :- Checked(a * (now - info.lastUpdated), Overflow);
      var c :- Checked(b * info.rateMultiplier, Overflow);
      var d :- Checked(c * emissionBps, Overflow);
      Ok(Quot(d, REWARD_DIVISOR))
  }

  /** `pending_rewards`: what was settled earlier plus what has accrued since. */
  function Pending(p: Pool, info: StakeInfo, now: nat): Result<int, Error> {
    var emission :- EmissionMultiplier(p.params, p.totalStaked);
    var accrued :- NewRewards(p.baseRate, emission, info, now);
    Checked(info.accumulatedRewards + accrued, Overflow)
  }

  // ---- entry points ----

  /** `lock_seconds_to_ledgers`, rounding up. */
  function LockLedgers(lockSeconds: nat): nat {
    (lockSeconds + SECONDS_PER_LEDGER - 1) / SECONDS_PER_LEDGER
  }

  /** The lock moves only if the new end is further away, and the multiplier moves with it. */
  function ExtendLock(info: StakeInfo, tier: LockTier, now: nat, ledger: nat): Result<StakeInfo, Error> {
    if !(now + tier.lockSeconds <= U64_MAX) then Err(Overflow) else
    if now + tier.lockSeconds <= info.lockEnd then Ok(info)
    else
      :- Need(LockLedgers(tier.lockSeconds) <= U32_MAX, Overflow);
      Ok(info.(lockEnd := now + tier.lockSeconds, rateMultiplier := tier.rateMultiplier,
               stakeLedger := ledger, lockLedgers := LockLedgers(tier.lockSeconds)))
  }

  /** `stake`.  Its event announces the multiplier of the new total, which panics on its own. */
  function Stake(p: Pool, user: Address, amount: int, tierIndex: nat, now: nat, ledger: nat): Result<(Pool, ()), Error> {
    if p.halted then Err(ContractPaused) else
    :- Need(amount > 0, AmountNotPositive);
    :- Need(tierIndex < |p.tiers|, InvalidTier);
    var info := InfoOf(p, user);
    var settled :- Pending(p, info, now);
    var staked :- Checked(info.amount + amount, Overflow);
    var locked :- ExtendLock(info.(accumulatedRewards := settled, amount := staked, lastUpdated := now), p.tiers[tierIndex], now, ledger);
    var total :- Checked(p.totalStaked + amount, Overflow);
    var announced :- EmissionMultiplier(p.params, total);
    Ok((p.(stakes := p.stakes[user := locked], totalStaked := total, vault := p.vault + amount), ()))
  }

  predicate Unlocked(info: StakeInfo, ledger: nat) {
    (if ledger >= info.stakeLedger then ledger - info.stakeLedger else 0) >= info.lockLedgers
  }

  /** The early-exit penalty of `withdraw`. */
  function Penalty(p: Pool, info: StakeInfo, ledger: nat): Result<int, Error> {
    if Unlocked(info, ledger) then Ok(0)
    else
      var scaled :- Checked(info.amount * p.penaltyBps, Overflow);
      Ok(Quot(scaled, 10_000))
  }

  datatype Payout = Payout(returned: int, rewards: int, penalty: int)

  function Withdraw(p: Pool, user: Address, now: nat, ledger: nat): Result<(Pool, Payout), Error> {
    if p.halted then Err(ContractPaused) else
    var info := InfoOf(p, user);
    :- Need(info.amount > 0, NothingToWithdraw);
    var rewards :- Pending(p, info, now);
    var penalty :- Penalty(p, info, ledger);
    var returned :- Checked(info.amount - penalty, Overflow);
    var sent :- Checked(returned + rewards, Overflow);
    var total :- Checked(p.totalStaked - info.amount, Overflow);
    :- Need(0 <= sent <= p.vault, TransferRejected);
    :- Need(penalty > 0 ==> p.penaltyRecipient.Some?, NoPenaltyRecipient);
    :- Need(penalty > 0 ==> sent + penalty <= p.vault, TransferRejected);
    Ok((p.(stakes := p.stakes - {user}, totalStaked := total, vault := p.vault - sent - Max(penalty, 0)),
        Payout(returned, rewards, penalty)))
  }

  function ClaimRewards(p: Pool, user: Address, now: nat): Result<(Pool, int), Error> {
    if p.halted then Err(ContractPaused) else
    var info := InfoOf(p, user);
    var rewards :- Pending(p, info, now);
    :- Need(rewards > 0, NoRewards);
    :- Need(rewards <= p.vault, TransferRejected);
    Ok((p.(stakes := p.stakes[user := info.(accumulatedRewards := 0, lastUpdated := now)], vault := p.vault - rewards), rewards))
  }

  /** The flat penalty of `emergency_withdraw`; its product is not range-checked. */
  function EmergencyPenalty(amount: int): int {
    Quot(WrapI128(amount * 1_000), 10_000)
  }

  /** `emergency_withdraw`: pays out the position but does not take it out of the pool total. */
  function EmergencyWithdraw(p: Pool, user: Address): Result<(Pool, int), Error> {
    var info := InfoOf(p, user);
    :- Need(info.amount > 0, NothingToWithdraw);
    :- Need(p.penaltyPool.Some?, NoPenaltyPool);
    var penalty := EmergencyPenalty(info.amount);
    var toUser := WrapI128(info.amount - penalty);
    :- Need(0 <= toUser && 0 <= penalty && toUser + penalty <= p.vault, TransferRejected);
    Ok((p.(stakes := p.stakes - {user}, vault := p.vault - toUser - penalty), toUser))
  }

  datatype Setting =
    | Tiers(tiers: seq<LockTier>)
    | Emission(params: EmissionParams)
    | PenaltyRecipient(recipient: Address)
    | PenaltyPool(pool: Address)

  function Configure(p: Pool, caller: Address, s: Setting): Result<(Pool, ()), Error> {
    if caller != p.admin then Err(Unauthorized) else
    match s
    case Tiers(tiers) => if tiers != [] then Ok((p.(tiers := tiers), ())) else Err(BadParameters)
    case Emission(e) =>
      if e.targetCapacity >= 0 && 0 <= e.minMultiplierBps <= e.maxMultiplierBps then Ok((p.(params := e), ())) else Err(BadParameters)
    case PenaltyRecipient(a) => Ok((p.(penaltyRecipient := Some(a)), ()))
    case PenaltyPool(a) => Ok((p.(penaltyPool := Some(a)), ()))
  }

  /** Anyone may send the contract tokens, which is how rewards are funded. */
  function Fund(p: Pool, amount: nat): Result<(Pool, ()), Error> {
    Ok((p.(vault := p.vault + amount), ()))
  }

  datatype Call =
    | StakeCall(user: Address, amount: int, tierIndex: nat)
    | WithdrawCall(user: Address)
    | ClaimCall(user: Address)
    | EmergencyCall(user: Address)
    | ConfigureCall(caller: Address, setting: Setting)
    | FundCall(funds: nat)
    | RegistryCall(halt: bool)

  datatype Event = Event(now: nat, ledger: nat, call: Call)

  function Step(p: Pool, e: Event): Pool {
    match e.call
    case StakeCall(user, amount, tier) => After(p, Stake(p, user, amount, tier, e.now, e.ledger))
    case WithdrawCall(user) => After(p, Withdraw(p, user, e.now, e.ledger))
    case ClaimCall(user) => After(p, ClaimRewards(p, user, e.now))
    case EmergencyCall(user) => After(p, EmergencyWithdraw(p, user))
    case ConfigureCall(caller, s) => After(p, Configure(p, caller, s))
    case FundCall(amount) => After(p, Fund(p, amount))
    case RegistryCall(halt) => p.(halted := halt)
  }

  function Run(p: Pool, events: seq<Event>): Pool {
    if events == [] then p else Step(Run(p, events[..|events| - 1]), events[|events| - 1])
  }
}
