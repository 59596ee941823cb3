/** The snapshot-staking contract, storage as fields. */
module SnapshotContract {
  import opened Host
  import opened SnapshotModel

  class SnapshotStaking {
    var epoch: nat
    var totalStaked: int
    var epochTotals: map<nat, int>
    var checkpoints: map<CheckpointKey, int>
    var lastEpoch: map<Address, nat>
    var participantCount: nat
    var totalRewardsDistributed: int
    var epochSnapshots: map<nat, EpochSnapshot>
    var halted: bool

    function View(): Snap
      reads this
    {
      Snap(epoch, totalStaked, epochTotals, checkpoints, lastEpoch, participantCount, totalRewardsDistributed, epochSnapshots, halted)
    }

    constructor ()
      ensures View() == Initial()
    {
      epoch, totalStaked, participantCount, totalRewardsDistributed := 0, 0, 0, 0;
      epochTotals, checkpoints, lastEpoch, epochSnapshots, halted := map[], map[], map[], map[], false;
    }

    method AdvanceEpoch() returns (next: nat)
      modifies this`epochTotals, this`epochSnapshots, this`epoch
      ensures (View(), next) == SnapshotModel.AdvanceEpoch(old(View()))
    {
      epochTotals := epochTotals[epoch := totalStaked];
      RecordEpochSnapshot(epoch);
      next := (epoch + 1) % (U32_MAX + 1);
      epoch := next;
    }

    method RecordEpochSnapshot(at: nat)
      modifies this`epochSnapshots
      ensures View() == SnapshotModel.RecordEpochSnapshot(old(View()), at)
    {
      epochSnapshots := epochSnapshots[at := EpochSnapshot(totalStaked, totalRewardsDistributed, participantCount)];
    }

    method WriteCheckpoint(user: Address, balance: int)
      modifies this`checkpoints, this`lastEpoch
      ensures View() == SnapshotModel.WriteCheckpoint(old(View()), user, epoch, balance)
    {
      checkpoints := checkpoints[(user, epoch) := balance];
      lastEpoch := lastEpoch[user := epoch];
    }

    method Stake(user: Address, amount: int) returns (r: Result<(), Error>)
      modifies this
      ensures View() == After(old(View()), SnapshotModel.Stake(old(View()), user, amount))
      ensures r == Answer(SnapshotModel.Stake(old(View()), user, amount))
    {
      if halted {
        return Err(ContractPaused);
      }
      :- Need(amount > 0, AmountNotPositive);
      var prev := BalanceAtEpoch(user, epoch);
      if prev == 0 {
        participantCount := (participantCount + 1) % (U32_MAX + 1);
      }
      WriteCheckpoint(user, WrapI128(prev + amount));
      totalStaked := WrapI128(totalStaked + amount);
      return Ok(());
    }

    method Unstake(user: Address, amount: int) returns (r: Result<(), Error>)
      modifies this
      ensures View() == After(old(View()), SnapshotModel.Unstake(old(View()), user, amount))
      ensures r == Answer(SnapshotModel.Unstake(old(View()), user, amount))
    {
      if halted {
        return Err(ContractPaused);
      }
      :- Need(amount > 0, AmountNotPositive);
      var prev := BalanceAtEpoch(user, epoch);
      :- Need(prev >= amount, InsufficientStake);
      WriteCheckpoint(user, prev - amount);
      totalStaked := WrapI128(totalStaked - amount);
      return Ok(());
    }

    method BalanceAtEpoch(user: Address, at: nat) returns (balance: int)
      ensures balance == BalanceAt(View(), user, at)
    {
      if (user, at) in checkpoints {
        return checkpoints[(user, at)];
      }
      if user !in lastEpoch {
        return 0;
      }
      var last := lastEpoch[user];
      if last > at {
        return 0;
      }
      return if (user, last) in checkpoints then checkpoints[(user, last)] else 0;
    }

    method RewardShareBps(user: Address, at: nat) returns (share: nat)
      ensures share == SnapshotModel.RewardShareBps(View(), user, at)
    {
      var total := if at in epochTotals then epochTotals[at] else 0;
      if total == 0 {
        return 0;
      }
      var balance := BalanceAtEpoch(user, at);
      return Quot(WrapI128(balance * 10_000), total) % (U32_MAX + 1);
    }
  }
}
