/** The staking contract, storage as fields. */
module StakingContract {
  import opened Host
  import opened StakingModel

  class Staking {
    var admin: Address
    var baseRate: int
    var penaltyBps: int
    var tiers: seq<LockTier>
    var params: EmissionParams
    var penaltyRecipient: Option<Address>
    var penaltyPool: Option<Address>
    var totalStaked: int
    var stakes: map<Address, StakeInfo>
    var vault: int
    var halted: bool

    function View(): Pool
      reads this
    {
      Pool(admin, baseRate, penaltyBps, tiers, params, penaltyRecipient, penaltyPool, totalStaked, stakes, vault, halted)
    }

    constructor (admin: Address, baseRate: int, penaltyBps: int)
      ensures View() == Initial(admin, baseRate, penaltyBps)
    {
      this.admin, this.baseRate, this.penaltyBps := admin, baseRate, penaltyBps;
      tiers, params, penaltyRecipient, penaltyPool := DEFAULT_TIERS, DEFAULT_EMISSION, None, None;
      totalStaked, stakes, vault, halted := 0, map[], 0, false;
    }

    /** `get_stake_info` with `accrued_rewards` folded in: the position, and all it is owed now. */
    method Settle(user: Address, now: nat) returns (r: Result<int, Error>, info: StakeInfo)
      ensures info == InfoOf(View(), user) && r == Pending(View(), info, now)
    {
      info := if user in stakes then stakes[user] else NO_STAKE;
      r := Pending(View(), info, now);
    }

    /** The part of `stake` that moves the lock. */
    method Lock(held: StakeInfo, tier: LockTier, now: nat, ledger: nat) returns (r: Result<StakeInfo, Error>)
      ensures r == ExtendLock(held, tier, now, ledger)
    {
      var info := held;
      :- Need(now + tier.lockSeconds <= U64_MAX, Overflow);
      var newLockEnd := now + tier.lockSeconds;
      if newLockEnd > info.lockEnd {
        if !(LockLedgers(tier.lockSeconds) <= U32_MAX) {
          return Err(Overflow);
        }
        info := info.(lockEnd := newLockEnd, rateMultiplier := tier.rateMultiplier,
                      stakeLedger := ledger, lockLedgers := LockLedgers(tier.lockSeconds));
      }
      return Ok(info);
    }

    method Stake(user: Address, amount: int, tierIndex: nat, now: nat, ledger: nat) returns (r: Result<(), Error>)
      modifies this`stakes, this`totalStaked, this`vault
      ensures View() == After(old(View()), StakingModel.Stake(old(View()), user, amount, tierIndex, now, ledger))
      ensures r == Answer(StakingModel.Stake(old(View()), user, amount, tierIndex, now, ledger))
    {
      if halted {
        return Err(ContractPaused);
      }
      :- Need(amount > 0, AmountNotPositive);
      :- Need(tierIndex < |tiers|, InvalidTier);
      var tier := tiers[tierIndex];
      var owed, info := Settle(user, now);
      if owed.Err? {
        return Err(owed.error);
      }
      info := info.(accumulatedRewards := owed.value);
      var staked :- Checked(info.amount + amount, Overflow);
      info := info.(amount := staked, lastUpdated := now);
      info :- Lock(info, tier, now, ledger);
      var total :- Checked(totalStaked + amount, Overflow);
      var announced :- EmissionMultiplier(params, total);
      totalStaked := total;
      stakes := stakes[user := info];
      vault := vault + amount;
      return Ok(());
    }

    method Withdraw(user: Address, now: nat, ledger: nat) returns (r: Result<Payout, Error>)
      modifies this`stakes, this`totalStaked, this`vault
      ensures View() == After(old(View()), StakingModel.Withdraw(old(View()), user, now, ledger))
      ensures r == Answer(StakingModel.Withdraw(old(View()), user, now, ledger))
    {
      if halted {
        return Err(ContractPaused);
      }
      var info := InfoOf(View(), user);
      :- Need(info.amount > 0, NothingToWithdraw);
      var rewards :- Pending(View(), info, now);
      var penalty := 0;
      if !Unlocked(info, ledger) {
        var scaled :- Checked(info.amount * penaltyBps, Overflow);
        penalty := Quot(scaled, 10_000);
      }
      var returned :- Checked(info.amount - penalty, Overflow);
      var sent :- Checked(returned + rewards, Overflow);
      var total :- Checked(totalStaked - info.amount, Overflow);
      :- Need(0 <= sent <= vault, TransferRejected);
      :- Need(penalty > 0 ==> penaltyRecipient.Some?, NoPenaltyRecipient);
      :- Need(penalty > 0 ==> sent + penalty <= vault, TransferRejected);
      stakes := stakes - {user};
      totalStaked := total;
      vault := vault - sent;
      if penalty > 0 {
        vault := vault - penalty;
      }
      return Ok(Payout(returned, rewards, penalty));
    }

    method ClaimRewards(user: Address, now: nat) returns (r: Result<int, Error>)
      modifies this`stakes, this`vault
      ensures View() == After(old(View()), StakingModel.ClaimRewards(old(View()), user, now))
      ensures r == Answer(StakingModel.ClaimRewards(old(View()), user, now))
    {
      if halted {
        return Err(ContractPaused);
      }
      var rewards, info := Settle(user, now);
      if rewards.Err? {
        return rewards;
      }
      :- Need(rewards.value > 0, NoRewards);
      :- Need(rewards.value <= vault, TransferRejected);
      stakes := stakes[user := info.(accumulatedRewards := 0, lastUpdated := now)];
      vault := vault - rewards.value;
      return rewards;
    }

    method EmergencyWithdraw(user: Address) returns (r: Result<int, Error>)
      modifies this`stakes, this`vault
      ensures View() == After(old(View()), StakingModel.EmergencyWithdraw(old(View()), user))
      ensures r == Answer(StakingModel.EmergencyWithdraw(old(View()), user))
    {
      var info := InfoOf(View(), user);
      :- Need(info.amount > 0, NothingToWithdraw);
      :- Need(penaltyPool.Some?, NoPenaltyPool);
      var penalty := Quot(WrapI128(info.amount * 1_000), 10_000);
      var toUser := WrapI128(info.amount - penalty);
      :- Need(0 <= toUser && 0 <= penalty && toUser + penalty <= vault, TransferRejected);
      vault := vault - toUser - penalty;
      stakes := stakes - {user};
      return Ok(toUser);
    }

    method Configure(caller: Address, s: Setting) returns (r: Result<(), Error>)
      modifies this`tiers, this`params, this`penaltyRecipient, this`penaltyPool
      ensures View() == After(old(View()), StakingModel.Configure(old(View()), caller, s))
      ensures r == Answer(StakingModel.Configure(old(View()), caller, s))
    {
      if caller != admin {
        return Err(Unauthorized);
      }
      match s {
        case Tiers(newTiers) =>
          :- Need(newTiers != [], BadParameters);
          tiers := newTiers;
        case Emission(e) =>
          :- Need(e.targetCapacity >= 0 && 0 <= e.minMultiplierBps <= e.maxMultiplierBps, BadParameters);
          params := e;
        case PenaltyRecipient(a) => penaltyRecipient := Some(a);
        case PenaltyPool(a) => penaltyPool := Some(a);
      }
      return Ok(());
    }
  }
}
