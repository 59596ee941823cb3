/** Checkpointed staking: balances are stored only where they change, and the contract answers
    for every epoch from those few entries.  The release build does not check `+` and `*`, so
    sums wrap; the model wraps with them. */
module SnapshotModel {
  import opened Host

  datatype Error = ContractPaused | AmountNotPositive | InsufficientStake

  type CheckpointKey = (Address, nat)

  /** What `record_epoch_snapshot` keeps of an epoch. */
  datatype EpochSnapshot = EpochSnapshot(totalStaked: int, totalRewardsDistributed: int, participantCount: nat)

  /** `halted` is what the security registry, if there is one, answers to `is_paused`. */
  datatype Snap = Snap(
    epoch: nat,
    totalStaked: int,
    epochTotals: map<nat, int>,
    checkpoints: map<CheckpointKey, int>,
    lastEpoch: map<Address, nat>,
    participantCount: nat,
    totalRewardsDistributed: int,
    epochSnapshots: map<nat, EpochSnapshot>,
    halted: bool)

  function Initial(): Snap {
    Snap(0, 0, map[], map[], map[], 0, 0, map[], false)
  }

  /** `_balance_at_epoch`: the exact checkpoint, or the last one carried forward, or 0. */
  function BalanceAt(s: Snap, user: Address, epoch: nat): int {
    if (user, epoch) in s.checkpoints then s.checkpoints[(user, epoch)]
    else if user !in s.lastEpoch then 0
    else if s.lastEpoch[user] > epoch then 0
    else GetOr(s.checkpoints, (user, s.lastEpoch[user]), 0)
  }

  function EpochTotal(s: Snap, epoch: nat): int {
    GetOr(s.epochTotals, epoch, 0)
  }

  /** `reward_share_bps`: both the product and the cast to `u32` are unchecked. */
  function RewardShareBps(s: Snap, user: Address, epoch: nat): nat {
    var total := EpochTotal(s, epoch);
    if total == 0 then 0
    else Quot(WrapI128(BalanceAt(s, user, epoch) * 10_000), total) % (U32_MAX + 1)
  }

  function WriteCheckpoint(s: Snap, user: Address, epoch: nat, balance: int): Snap {
    s.(checkpoints := s.checkpoints[(user, epoch) := balance], lastEpoch := s.lastEpoch[user := epoch])
  }

  function Stake(s: Snap, user: Address, amount: int): Result<(Snap, ()), Error> {
    if s.halted then Err(ContractPaused) else
    :- Need(amount > 0, AmountNotPositive);
    var prev := BalanceAt(s, user, s.epoch);
    var count := if prev == 0 then (s.participantCount + 1) % (U32_MAX + 1) else s.participantCount;
    Ok((WriteCheckpoint(s, user, s.epoch, WrapI128(prev + amount))
        .(participantCount := count, totalStaked := WrapI128(s.totalStaked + amount)), ()))
  }

  function Unstake(s: Snap, user: Address, amount: int): Result<(Snap, ()), Error> {
    if s.halted then Err(ContractPaused) else
    :- Need(amount > 0, AmountNotPositive);
    var prev := BalanceAt(s, user, s.epoch);
    :- Need(prev >= amount, InsufficientStake);
    Ok((WriteCheckpoint(s, user, s.epoch, prev - amount).(totalStaked := WrapI128(s.totalStaked - amount)), ()))
  }

  /** `record_epoch_snapshot`: anybody may call it, for any epoch, at any time. */
  function RecordEpochSnapshot(s: Snap, epoch: nat): Snap {
    s.(epochSnapshots := s.epochSnapshots[epoch := EpochSnapshot(s.totalStaked, s.totalRewardsDistributed, s.participantCount)])
  }

  function AdvanceEpoch(s: Snap): (r: (Snap, nat)) {
    var next := (s.epoch + 1) % (U32_MAX + 1);
    (RecordEpochSnapshot(s.(epochTotals := s.epochTotals[s.epoch := s.totalStaked]), s.epoch).(epoch := next), next)
  }

  datatype Call =
    | StakeCall(user: Address, amount: int)
    | UnstakeCall(user: Address, amount: int)
    | AdvanceCall
    | RecordCall(epoch: nat)
    | RegistryCall(halt: bool)

  function Step(s: Snap, c: Call): Snap {
    match c
    case StakeCall(user, amount) => After(s, Stake(s, user, amount))
    case UnstakeCall(user, amount) => After(s, Unstake(s, user, amount))
    case AdvanceCall => AdvanceEpoch(s).0
    case RecordCall(epoch) => RecordEpochSnapshot(s, epoch)
    case RegistryCall(halt) => s.(halted := halt)
  }

  function Run(s: Snap, calls: seq<Call>): Snap {
    if calls == [] then s else Step(Run(s, calls[..|calls| - 1]), calls[|calls| - 1])
  }
}
