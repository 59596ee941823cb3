/** The circuit breaker contract, storage as fields. */
module BreakerContract {
  import opened Host
  import opened BreakerModel

  /** A sum that has overflowed by entry n has overflowed. */
  lemma {:induction false} OverflowStays(w: Window, n: nat, now: nat)
    requires n <= |w| && RecentTotal(w[..n], now) == Err(Overflow)
    ensures RecentTotal(w, now) == Err(Overflow)
    decreases |w| - n
  {
    if n < |w| {
      assert w[..n + 1][..n] == w[..n];
      OverflowStays(w, n + 1, now);
    } else {
      assert w[..n] == w;
    }
  }

  class CircuitBreaker {
    var admin: Address
    var bots: set<Address>
    var tier: Tier
    var pausedFlag: bool
    var unlocksAt: nat
    var pendingTier: Option<Tier>
    var timelock: nat
    var referencePrices: map<Address, int>
    var volatilityBps: int
    var tripCount: nat
    var volumeThreshold: int
    var window: Window
    var baseline: int
    var spikeMultiplierBps: int
    var cooldownUntil: nat

    function View(): Breaker
      reads this
    {
      Breaker(admin, bots, tier, pausedFlag, unlocksAt, pendingTier, timelock, referencePrices, volatilityBps,
              tripCount, volumeThreshold, window, baseline, spikeMultiplierBps, cooldownUntil)
    }

    constructor (admin: Address, timelockSecs: nat, volatilityBps: int)
      ensures View() == Initial(admin, timelockSecs, volatilityBps)
    {
      this.admin, bots, tier, pausedFlag, unlocksAt, pendingTier := admin, {}, NoPause, false, 0, None;
      timelock := if timelockSecs == 0 then DEFAULT_TIMELOCK_SECONDS else timelockSecs;
      this.volatilityBps := if volatilityBps == 0 then DEFAULT_VOLATILITY_BPS else volatilityBps;
      referencePrices, tripCount, volumeThreshold, window := map[], 0, DEFAULT_VOLUME_THRESHOLD, [];
      baseline, spikeMultiplierBps, cooldownUntil := 0, DEFAULT_SPIKE_MULTIPLIER_BPS, 0;
    }

    method ApplyTrip(newTier: Tier) returns (r: Result<(), Error>)
      modifies this`tier, this`pausedFlag, this`tripCount
      ensures (View(), r) == Settled(old(View()), BreakerModel.ApplyTrip(old(View()), newTier))
    {
      if tripCount >= U32_MAX {
        return Err(Overflow);
      }
      tier := newTier;
      pausedFlag := newTier != NoPause;
      tripCount := tripCount + 1;
      return Ok(());
    }

    method Trip(caller: Address, newTier: Tier) returns (r: Result<(), Error>)
      modifies this`tier, this`pausedFlag, this`tripCount
      ensures View() == After(old(View()), BreakerModel.Trip(old(View()), caller, newTier))
      ensures r == Answer(BreakerModel.Trip(old(View()), caller, newTier))
    {
      if newTier == NoPause {
        return Err(UseUnpause);
      }
      :- Need(caller == admin || caller in bots, Unauthorized);
      r := ApplyTrip(newTier);
    }

    method CheckPrice(asset: Address, price: int) returns (r: Result<bool, Error>)
      modifies this`tier, this`pausedFlag, this`tripCount, this`referencePrices
      ensures View() == After(old(View()), BreakerModel.CheckPrice(old(View()), asset, price))
      ensures r == Answer(BreakerModel.CheckPrice(old(View()), asset, price))
    {
      if price <= 0 {
        return Err(BadArgument);
      }
      if asset !in referencePrices {
        referencePrices := referencePrices[asset := price];
        return Ok(false);
      }
      var reference := referencePrices[asset];
      var diff :- Checked(if price > reference then price - reference else reference - price, Overflow);
      var scaled :- Checked(diff * 10_000, Overflow);
      :- Need(reference != 0, Overflow);
      var trips := Quot(scaled, reference) > volatilityBps;
      if trips {
        var _ :- ApplyTrip(SwapOnly);
      }
      // written last, because a panic above rolls it back
      referencePrices := referencePrices[asset := price];
      return Ok(trips);
    }

    /** The pruning loop of `record_volume`: what is still recent, and how much it adds up to. */
    method Prune(now: nat) returns (r: Result<int, Error>, pruned: Window)
      ensures r == RecentTotal(window, now) && (r.Ok? ==> pruned == Recent(window, now))
    {
      var total := 0;
      pruned := [];
      for i := 0 to |window|
        invariant pruned == Recent(window[..i], now) && Ok(total) == RecentTotal(window[..i], now)
      {
        assert window[..i + 1][..i] == window[..i];
        if InWindow(window[i], now) {
          if !IsI128(total + window[i].amount) {
            OverflowStays(window, i + 1, now);
            return Err(Overflow), pruned;
          }
          total := total + window[i].amount;
          pruned := pruned + [window[i]];
        } else {
          assert Recent(window[..i + 1], now) == pruned;
        }
      }
      assert window[..|window|] == window;
      return Ok(total), pruned;
    }

    method RecordVolume(amount: int, now: nat) returns (r: Result<(), Error>)
      modifies this
      ensures View() == After(old(View()), BreakerModel.RecordVolume(old(View()), amount, now))
      ensures r == Answer(BreakerModel.RecordVolume(old(View()), amount, now))
    {
      if amount <= 0 {
        return Err(BadArgument);
      }
      var before, pruned := Prune(now);
      if before.Err? {
        return Err(before.error);
      }
      var total :- Checked(before.value + amount, Overflow);
      r := StoreVolume(pruned + [Entry(now, amount)], total, now);
    }

    method StoreVolume(w: Window, total: int, now: nat) returns (r: Result<(), Error>)
      modifies this`window, this`tier, this`pausedFlag, this`tripCount, this`cooldownUntil
      ensures (View(), r) == Settled(old(View()), BreakerModel.StoreVolume(old(View()), w, total, now))
    {
      var oldWindow, oldTier, oldFlag, oldCount := window, tier, pausedFlag, tripCount;
      window := w;
      r := Ok(());
      if total > volumeThreshold {
        r := ApplyTrip(All);
      }
      if r.Ok? {
        r := CheckVolumeSpike(now, total);
      }
      if r.Err? {
        // the panic rolls the whole call back
        window, tier, pausedFlag, tripCount := oldWindow, oldTier, oldFlag, oldCount;
      }
    }

    method CheckVolumeSpike(now: nat, total: int) returns (r: Result<(), Error>)
      modifies this`cooldownUntil, this`tripCount
      ensures (View(), r) == Settled(old(View()), BreakerModel.CheckVolumeSpike(old(View()), now, total))
    {
      if baseline == 0 {
        return Ok(());
      }
      var scaled :- Checked(baseline * spikeMultiplierBps, Overflow);
      if total <= Quot(scaled, 10_000) {
        return Ok(());
      }
      var wasCoolingDown := now < cooldownUntil;
      :- Need(now + SPIKE_COOLDOWN_SECONDS <= U64_MAX, Overflow);
      :- Need(wasCoolingDown || tripCount < U32_MAX, Overflow);
      cooldownUntil := Max(now + SPIKE_COOLDOWN_SECONDS, cooldownUntil);
      if !wasCoolingDown {
        tripCount := tripCount + 1;
      }
      return Ok(());
    }

    method GetWindowVolume(now: nat) returns (r: Result<int, Error>)
      ensures r == RecentTotal(window, now)
    {
      var total := 0;
      for i := 0 to |window|
        invariant Ok(total) == RecentTotal(window[..i], now)
      {
        assert window[..i + 1][..i] == window[..i];
        if InWindow(window[i], now) {
          if !IsI128(total + window[i].amount) {
            OverflowStays(window, i + 1, now);
            return Err(Overflow);
          }
          total := total + window[i].amount;
        }
      }
      assert window[..|window|] == window;
      return Ok(total);
    }

    method InitiateUnpause(caller: Address, target: Tier, now: nat) returns (r: Result<(), Error>)
      modifies this`unlocksAt, this`pendingTier
      ensures View() == After(old(View()), BreakerModel.InitiateUnpause(old(View()), caller, target, now))
      ensures r == Answer(BreakerModel.InitiateUnpause(old(View()), caller, target, now))
    {
      if caller != admin {
        return Err(Unauthorized);
      }
      :- Need(tier != NoPause, NotPaused);
      :- Need(now + timelock <= U64_MAX, Overflow);
      unlocksAt := now + timelock;
      pendingTier := Some(target);
      return Ok(());
    }

    method ExecuteUnpause(now: nat) returns (r: Result<(), Error>)
      modifies this`tier, this`pausedFlag, this`unlocksAt
      ensures View() == After(old(View()), BreakerModel.ExecuteUnpause(old(View()), now))
      ensures r == Answer(BreakerModel.ExecuteUnpause(old(View()), now))
    {
      if unlocksAt <= 0 {
        return Err(NoUnpausePending);
      }
      :- Need(now >= unlocksAt, TimelockRunning);
      tier := if pendingTier.Some? then pendingTier.value else NoPause;
      pausedFlag := tier != NoPause;
      unlocksAt := 0;
      return Ok(());
    }

    method Unpause(caller: Address, now: nat) returns (r: Result<(), Error>)
      modifies this`tier, this`pausedFlag, this`cooldownUntil, this`unlocksAt
      ensures View() == After(old(View()), BreakerModel.Unpause(old(View()), caller, now))
      ensures r == Answer(BreakerModel.Unpause(old(View()), caller, now))
    {
      if caller != admin {
        return Err(Unauthorized);
      }
      :- Need(tier != NoPause || now < cooldownUntil, NotPaused);
      tier, pausedFlag := NoPause, false;
      cooldownUntil := 0;
      unlocksAt := 0;
      return Ok(());
    }

    method CancelUnpause(caller: Address) returns (r: Result<(), Error>)
      modifies this`unlocksAt
      ensures View() == After(old(View()), BreakerModel.CancelUnpause(old(View()), caller))
      ensures r == Answer(BreakerModel.CancelUnpause(old(View()), caller))
    {
      if caller != admin {
        return Err(Unauthorized);
      }
      :- Need(unlocksAt > 0, NoUnpausePending);
      unlocksAt := 0;
      return Ok(());
    }

    method Configure(caller: Address, s: Setting) returns (r: Result<(), Error>)
      modifies this`timelock, this`volatilityBps, this`volumeThreshold, this`baseline, this`spikeMultiplierBps, this`bots
      ensures View() == After(old(View()), BreakerModel.Configure(old(View()), caller, s))
      ensures r == Answer(BreakerModel.Configure(old(View()), caller, s))
    {
      if caller != admin {
        return Err(Unauthorized);
      }
      match s {
        case Timelock(seconds) =>
          :- Need(seconds > 0, BadArgument);
          timelock := seconds;
        case Volatility(bps) =>
          :- Need(0 < bps <= 10_000, BadArgument);
          volatilityBps := bps;
        case Threshold(amount) =>
          :- Need(amount > 0, BadArgument);
          volumeThreshold := amount;
        case Baseline(volume) =>
          :- Need(volume >= 0, BadArgument);
          baseline := volume;
        case SpikeMultiplier(bps) =>
          :- Need(bps > 10_000, BadArgument);
          spikeMultiplierBps := bps;
        case AddBot(bot) =>
          :- Need(|bots| < MAX_BOTS, BotListFull);
          :- Need(bot !in bots, BotKnown);
          bots := bots + {bot};
        case RemoveBot(bot) =>
          :- Need(bot in bots, BotUnknown);
          bots := bots - {bot};
      }
      return Ok(());
    }

    method GetPauseTier(now: nat) returns (t: Tier)
      ensures t == EffectiveTier(View(), now)
    {
      if now < cooldownUntil {
        return All;
      }
      return tier;
    }

    method IsPausedNow(now: nat) returns (paused: bool)
      ensures paused <==> IsPaused(View(), now)
    {
      paused := pausedFlag || now < cooldownUntil;
    }
  }
}
