/** What lifting, tripping and recording leave, at every later time, and when each call goes
    through. */
module BreakerOutcomes {
  import opened Host
  import opened Arith
  import opened BreakerModel
  import opened BreakerPause
  import opened BreakerVolume

  // ---- scheduling ----

  /** Initiating is for the admin, of a stored pause, and schedules the target for after the
      timelock. */
  lemma InitiateOutcome(b: Breaker, caller: Address, target: Tier, now: nat)
    ensures var r := InitiateUnpause(b, caller, target, now);
      && (r.Ok? <==> caller == b.admin && b.tier != NoPause && now + b.timelock <= U64_MAX)
      && (r.Ok? ==> r.value.0 == b.(unlocksAt := now + b.timelock, pendingTier := Some(target)))
  {
  }

  /** Cancelling is for the admin, of a pending unpause, which can then no longer be executed. */
  lemma CancelOutcome(b: Breaker, caller: Address)
    ensures var r := CancelUnpause(b, caller);
      && (r.Ok? <==> caller == b.admin && 0 < b.unlocksAt)
      && (r.Ok? ==> r.value.0 == b.(unlocksAt := 0) && forall now: nat :: ExecuteUnpause(r.value.0, now).Err?)
  {
  }

  /** In every reachable state an unpause can be executed, by anybody, exactly when one is pending
      from an initiation that nothing has replaced, used or cancelled, and the timelock of that
      initiation is over.  It sets the tier that was asked for then, once, and touches nothing
      else; in particular it does not end a cooldown. */
  lemma ExecuteOutcome(admin: Address, timelock: nat, volatility: int, events: seq<Event>, now: nat)
    ensures var start := Initial(admin, timelock, volatility); var b := Run(start, events); var r := ExecuteUnpause(b, now);
      && (r.Ok? <==> 0 < b.unlocksAt <= now)
      && (0 < b.unlocksAt ==> exists j: nat :: PendingFrom(start, events, j) && StoredFrom(start, events, j))
      && (r.Ok? ==> b.pendingTier.Some?
                    && r.value.0 == b.(tier := b.pendingTier.value, pausedFlag := b.pendingTier.value != NoPause, unlocksAt := 0)
                    && ExecuteUnpause(r.value.0, now).Err?
                    && EffectiveTier(r.value.0, now) == if now < b.cooldownUntil then All else b.pendingTier.value)
  {
    var start := Initial(admin, timelock, volatility);
    if 0 < Run(start, events).unlocksAt {
      PendingHasOrigin(admin, timelock, volatility, events);
      PendingKnown(admin, timelock, volatility, events);
    }
  }

  lemma PendingKnown(admin: Address, timelock: nat, volatility: int, events: seq<Event>)
    requires 0 < Run(Initial(admin, timelock, volatility), events).unlocksAt
    ensures Run(Initial(admin, timelock, volatility), events).pendingTier.Some?
  {
    PendingHasOrigin(admin, timelock, volatility, events);
    var j: nat :| PendingFrom(Initial(admin, timelock, volatility), events, j) && StoredFrom(Initial(admin, timelock, volatility), events, j);
  }

  /** An executed initiation: event j asked for this tier, nothing since has replaced, used or
      withdrawn it, and its timelock is over.  The execution sets exactly that tier. */
  lemma ExecutionDeliversTarget(admin: Address, timelock: nat, volatility: int, events: seq<Event>, j: nat, now: nat)
    requires var start := Initial(admin, timelock, volatility);
      PendingFrom(start, events, j) && StoredFrom(start, events, j) && ExecuteUnpause(Run(start, events), now).Ok?
    ensures var start := Initial(admin, timelock, volatility); var c := ExecuteUnpause(Run(start, events), now).value.0;
      && events[j].call.InitiateCall? && c.tier == events[j].call.target && (c.pausedFlag <==> events[j].call.target != NoPause)
      && now >= events[j].now + Run(start, events[..j]).timelock
  {
  }

  // ---- trips ----

  /** A trip is for the admin or a bot, to a real pause, and sets that tier. */
  lemma TripOutcome(b: Breaker, caller: Address, tier: Tier)
    ensures var r := Trip(b, caller, tier);
      && (r.Ok? <==> tier != NoPause && (caller == b.admin || caller in b.bots) && b.tripCount < U32_MAX)
      && (r.Ok? ==> r.value.0 == b.(tier := tier, pausedFlag := true, tripCount := b.tripCount + 1))
  {
  }

  /** The price has moved from the remembered one by more basis points than allowed. */
  predicate Moved(b: Breaker, asset: Address, price: int) {
    && asset in b.referencePrices
    && Max(price - b.referencePrices[asset], b.referencePrices[asset] - price) * 10_000 >= (b.volatilityBps + 1) * b.referencePrices[asset]
  }

  predicate PriceFits(b: Breaker, asset: Address, price: int) {
    asset in b.referencePrices ==> IsI128(Max(price - b.referencePrices[asset], b.referencePrices[asset] - price) * 10_000)
  }

  /** A price check goes through for every positive price whose sums fit.  It remembers the price,
      and if it has moved too far sets SwapOnly. */
  lemma CheckPriceOutcome(b: Breaker, asset: Address, price: int)
    requires Inv(b) && price <= I128_MAX && forall a :: a in b.referencePrices ==> b.referencePrices[a] <= I128_MAX
    ensures var r := CheckPrice(b, asset, price);
      && (r.Ok? <==> 0 < price && PriceFits(b, asset, price) && (Moved(b, asset, price) ==> b.tripCount < U32_MAX))
      && (r.Ok? ==> var c := b.(referencePrices := b.referencePrices[asset := price]);
            r.value == if Moved(b, asset, price) then (c.(tier := SwapOnly, pausedFlag := true, tripCount := b.tripCount + 1), true) else (c, false))
  {
    if asset in b.referencePrices {
      var r := b.referencePrices[asset];
      FloorAtLeast(b.volatilityBps + 1, Max(price - r, r - price) * 10_000, r);
    }
  }

  // ---- volume ----

  /** The amounts recorded less than 3600 seconds before now. */
  function LastHour(w: Window, now: nat): int {
    if w == [] then 0 else LastHour(w[..|w| - 1], now) + (if now < w[|w| - 1].timestamp + 3600 then w[|w| - 1].amount else 0)
  }

  lemma {:induction false} LastHourIsRecent(w: Window, now: nat)
    ensures LastHour(w, now) == Total(Recent(w, now))
  {
    if w != [] {
      var init, last := w[..|w| - 1], w[|w| - 1];
      LastHourIsRecent(init, now);
      if InWindow(last, now) {
        TotalConcat(Recent(init, now), [last]);
        OneEntry(last, now);
      } else {
        assert Recent(w, now) == Recent(init, now);
      }
    }
  }

  /** At any time from the last call on the window volume is the sum of every amount ever recorded
      less than 3600 seconds ago. */
  lemma WindowVolumeIsLastHour(admin: Address, timelock: nat, volatility: int, events: seq<Event>, now: nat)
    requires InOrder(events) && (events != [] ==> events[|events| - 1].now <= now)
    ensures var b := Initial(admin, timelock, volatility); var volume := LastHour(FullLog(b, events), now);
      RecentTotal(Run(b, events).window, now) == if volume <= I128_MAX then Ok(volume) else Err(Overflow)
  {
    WindowVolumeIsTrue(admin, timelock, volatility, events, now);
    LastHourIsRecent(FullLog(Initial(admin, timelock, volatility), events), now);
  }

  /** The volume exceeds the configured multiple of the baseline, if there is one. */
  predicate IsSpike(b: Breaker, volume: int) {
    b.baseline != 0 && volume * 10_000 > b.baseline * b.spikeMultiplierBps
  }

  /** What the setters keep in range. */
  predicate InRange(b: Breaker) {
    0 <= b.baseline && 10_000 < b.spikeMultiplierBps && 0 < b.volumeThreshold && 0 < b.timelock
  }

  lemma StepInRange(b: Breaker, e: Event)
    requires InRange(b)
    ensures InRange(Step(b, e))
  {
    match e.call
    case ConfigureCall(caller, s) =>
    case RecordCall(amount) =>
      if RecordVolume(b, amount, e.now).Ok? { RecordKeepsSettings(b, amount, e.now); }
    case _ =>
  }

  lemma RecordKeepsSettings(b: Breaker, amount: int, now: nat)
    requires RecordVolume(b, amount, now).Ok?
    ensures var c := RecordVolume(b, amount, now).value.0;
      c == b.(tier := c.tier, pausedFlag := c.pausedFlag, tripCount := c.tripCount, window := c.window, cooldownUntil := c.cooldownUntil)
  {
  }

  lemma {:induction false} ReachableInRange(admin: Address, timelock: nat, volatility: int, events: seq<Event>)
    ensures InRange(Run(Initial(admin, timelock, volatility), events))
  {
    if events != [] {
      ReachableInRange(admin, timelock, volatility, events[..|events| - 1]);
      StepInRange(Run(Initial(admin, timelock, volatility), events[..|events| - 1]), events[|events| - 1]);
    }
  }

  lemma SpikeIff(b: Breaker, volume: int)
    requires InRange(b)
    ensures 0 <= b.baseline * b.spikeMultiplierBps
    ensures volume > Quot(b.baseline * b.spikeMultiplierBps, 10_000) <==> volume * 10_000 > b.baseline * b.spikeMultiplierBps
  {
    MulLe(0, b.baseline, b.spikeMultiplierBps);
    FloorDiv(b.baseline * b.spikeMultiplierBps, 10_000);
  }

  /** How often a record counts as a trip: for the threshold, and for a spike outside a cooldown. */
  function TripsBy(b: Breaker, volume: int, now: nat): nat {
    (if volume > b.volumeThreshold then 1 else 0) + (if IsSpike(b, volume) && now >= b.cooldownUntil then 1 else 0)
  }

  /** The sums and counts of storing this volume fit. */
  predicate VolumeFits(b: Breaker, volume: int, now: nat) {
    && (b.baseline != 0 ==> b.baseline * b.spikeMultiplierBps <= I128_MAX)
    && (IsSpike(b, volume) ==> now + 7_200 <= U64_MAX)
    && (TripsBy(b, volume, now) > 0 ==> b.tripCount + TripsBy(b, volume, now) <= U32_MAX)
  }

  /** Above the threshold everything is paused, and a spike starts or extends a cooldown to 7200
      seconds from now. */
  predicate PausedBy(b: Breaker, c: Breaker, volume: int, now: nat) {
    && c.tier == (if volume > b.volumeThreshold then All else b.tier)
    && c.pausedFlag == (volume > b.volumeThreshold || b.pausedFlag)
    && c.cooldownUntil == (if IsSpike(b, volume) then Max(now + 7_200, b.cooldownUntil) else b.cooldownUntil)
    && c.tripCount == b.tripCount + TripsBy(b, volume, now)
  }

  lemma StoreOutcome(b: Breaker, w: Window, volume: int, now: nat)
    requires InRange(b)
    ensures var r := StoreVolume(b, w, volume, now);
      (r.Ok? <==> VolumeFits(b, volume, now)) && (r.Ok? ==> PausedBy(b, r.value, volume, now))
  {
    SpikeIff(b, volume);
  }

  /** Recording a positive amount goes through exactly when the sums fit.  The volume that counts is
      that of the last 3600 seconds and the amount. */
  lemma RecordOutcome(b: Breaker, amount: int, now: nat)
    requires InRange(b) && Positive(b.window)
    ensures var r := RecordVolume(b, amount, now); var volume := LastHour(b.window, now) + amount;
      && (r.Ok? <==> 0 < amount && volume <= I128_MAX && VolumeFits(b, volume, now))
      && (r.Ok? ==> PausedBy(b, r.value.0, volume, now))
  {
    LoopIsLastHour(b.window, now);
    RecordOutcomeFor(b, amount, now, LastHour(b.window, now));
  }

  lemma LoopIsLastHour(w: Window, now: nat)
    requires Positive(w)
    ensures 0 <= LastHour(w, now)
    ensures RecentTotal(w, now) == if LastHour(w, now) <= I128_MAX then Ok(LastHour(w, now)) else Err(Overflow)
  {
    LastHourIsRecent(w, now);
    LoopFitsIff(w, now);
  }

  lemma RecordOutcomeFor(b: Breaker, amount: int, now: nat, before: nat)
    requires InRange(b) && RecentTotal(b.window, now) == if before <= I128_MAX then Ok(before) else Err(Overflow)
    ensures var r := RecordVolume(b, amount, now); var volume := before + amount;
      && (r.Ok? <==> 0 < amount && volume <= I128_MAX && VolumeFits(b, volume, now))
      && (r.Ok? ==> PausedBy(b, r.value.0, volume, now))
  {
    RecordIsStore(b, amount, now, before);
    StoreOutcome(b, Recent(b.window, now) + [Entry(now, amount)], before + amount, now);
  }

  lemma RecordIsStore(b: Breaker, amount: int, now: nat, before: nat)
    requires RecentTotal(b.window, now) == if before <= I128_MAX then Ok(before) else Err(Overflow)
    ensures var r, s := RecordVolume(b, amount, now), StoreVolume(b, Recent(b.window, now) + [Entry(now, amount)], before + amount, now);
      && (r.Ok? <==> 0 < amount && before + amount <= I128_MAX && s.Ok?)
      && (r.Ok? ==> r.value.0 == s.value)
  {
  }

  /** What a record adds to the volume of any later moment is its amount, for 3600 seconds; it
      drops nothing that a later moment would have counted, and moves no setting. */
  lemma RecordAddsItself(b: Breaker, amount: int, now: nat, later: nat)
    requires RecordVolume(b, amount, now).Ok? && now <= later
    ensures var c := RecordVolume(b, amount, now).value.0;
      && LastHour(c.window, later) == LastHour(b.window, later) + (if later < now + 3_600 then amount else 0)
      && c == b.(tier := c.tier, pausedFlag := c.pausedFlag, tripCount := c.tripCount, window := c.window, cooldownUntil := c.cooldownUntil)
  {
    RecordKeepsSettings(b, amount, now);
    RecordEffect(b, amount, now);
    var kept, entry := Recent(b.window, now), Entry(now, amount);
    assert (kept + [entry])[..|kept|] == kept;
    LastHourIsRecent(kept, later);
    LastHourIsRecent(b.window, later);
    PruningLosesNothing(b.window, now, later);
  }

  // ---- settings ----

  /** Every setter is for the admin and has its range; it moves its own setting only. */
  lemma ConfigureOutcome(b: Breaker, caller: Address, s: Setting)
    ensures Configure(b, caller, s).Ok? <==>
              caller == b.admin &&
              match s
              case Timelock(n) => 1 <= n
              case Volatility(n) => 1 <= n <= 10_000
              case Threshold(n) => 1 <= n
              case Baseline(n) => 0 <= n
              case SpikeMultiplier(n) => 10_001 <= n
              case AddBot(a) => |b.bots| < 10 && a !in b.bots
              case RemoveBot(a) => a in b.bots
    ensures Configure(b, caller, s).Ok? ==>
              Configure(b, caller, s).value.0 ==
              match s
              case Timelock(n) => b.(timelock := n)
              case Volatility(n) => b.(volatilityBps := n)
              case Threshold(n) => b.(volumeThreshold := n)
              case Baseline(n) => b.(baseline := n)
              case SpikeMultiplier(n) => b.(spikeMultiplierBps := n)
              case AddBot(a) => b.(bots := b.bots + {a})
              case RemoveBot(a) => b.(bots := b.bots - {a})
  {
  }

  /** A new breaker pauses nothing; it waits an hour and allows a tenth, unless told otherwise. */
  lemma InitialOutcome(admin: Address, timelock: nat, volatility: int)
    ensures var b := Initial(admin, timelock, volatility);
      && b.admin == admin && b.bots == {} && b.tier == NoPause && !b.pausedFlag && b.unlocksAt == 0 && b.cooldownUntil == 0 && b.pendingTier == None && b.referencePrices == map[]
      && b.timelock == (if timelock == 0 then 3_600 else timelock) && b.volatilityBps == (if volatility == 0 then 1_000 else volatility)
      && b.tripCount == 0 && b.volumeThreshold == 1_000_000 && b.window == [] && b.baseline == 0 && b.spikeMultiplierBps == 30_000
  {
  }

  // ---- lifting a pause ----

  /** The call trips, or is a record whose volume exceeds the threshold or spikes. */
  predicate Pauses(b: Breaker, e: Event) {
    match e.call
    case TripCall(caller, tier) => true
    case CheckPriceCall(asset, price) => CheckPrice(b, asset, price).Ok? && CheckPrice(b, asset, price).value.1
    case RecordCall(amount) =>
      var volume := LastHour(b.window, e.now) + amount; volume > b.volumeThreshold || IsSpike(b, volume)
    case _ => false
  }

  /** Nothing along the run does. */
  predicate Quiet(b: Breaker, events: seq<Event>) {
    events == [] || (Quiet(b, events[..|events| - 1]) && !Pauses(Run(b, events[..|events| - 1]), events[|events| - 1]))
  }

  /** The breaker pauses nothing now or later, and has nothing scheduled. */
  predicate Resumed(b: Breaker) {
    && b.tier == NoPause && !b.pausedFlag && b.cooldownUntil == 0 && b.unlocksAt == 0
    && InRange(b) && Positive(b.window)
  }

  lemma StepStaysResumed(b: Breaker, e: Event)
    requires Resumed(b) && !Pauses(b, e)
    ensures Resumed(Step(b, e))
  {
    StepInRange(b, e);
    if Records(b, e) {
      RecordOutcome(b, e.call.amount, e.now);
      RecordKeepsSettings(b, e.call.amount, e.now);
      RecordEffect(b, e.call.amount, e.now);
      LoopFitsIff(b.window, e.now);
    } else {
      OthersKeepWindow(b, e);
      OthersStayResumed(b, e);
    }
  }

  lemma OthersStayResumed(b: Breaker, e: Event)
    requires Resumed(b) && !Pauses(b, e) && !Records(b, e)
    ensures var c := Step(b, e); c.tier == NoPause && !c.pausedFlag && c.cooldownUntil == 0 && c.unlocksAt == 0
  {
    match e.call
    case ConfigureCall(caller, s) =>
    case _ =>
  }

  lemma {:induction false} StaysResumed(b: Breaker, events: seq<Event>)
    requires Resumed(b) && Quiet(b, events)
    ensures Resumed(Run(b, events))
  {
    if events != [] {
      StaysResumed(b, events[..|events| - 1]);
      StepStaysResumed(Run(b, events[..|events| - 1]), events[|events| - 1]);
    }
  }

  /** What `unpause` writes. */
  lemma UnpauseOutcome(b: Breaker, caller: Address, now: nat)
    ensures var r := Unpause(b, caller, now);
      && (r.Ok? <==> caller == b.admin && (b.tier != NoPause || now < b.cooldownUntil))
      && (r.Ok? ==> r.value.0 == b.(tier := NoPause, pausedFlag := false, cooldownUntil := 0, unlocksAt := 0))
  {
  }

  /** In every reachable state `unpause` is for the admin, of a breaker that is paused or cooling
      down.  From then on nothing is paused at any time, whatever is called, until something trips
      or spikes. */
  lemma UnpauseResumes(admin: Address, timelock: nat, volatility: int, events: seq<Event>, caller: Address, now: nat, later: seq<Event>, time: nat)
    ensures var b := Run(Initial(admin, timelock, volatility), events);
      && (Unpause(b, caller, now).Ok? <==> caller == b.admin && IsPaused(b, now))
      && (Unpause(b, caller, now).Ok? && Quiet(Unpause(b, caller, now).value.0, later) ==>
            var c := Run(Unpause(b, caller, now).value.0, later);
            EffectiveTier(c, time) == NoPause && !IsPaused(c, time))
  {
    var b := Run(Initial(admin, timelock, volatility), events);
    ReachableInv(admin, timelock, volatility, events);
    ReachableInRange(admin, timelock, volatility, events);
    WindowPositive(admin, timelock, volatility, events);
    UnpauseOutcome(b, caller, now);
    if Unpause(b, caller, now).Ok? && Quiet(Unpause(b, caller, now).value.0, later) {
      StaysResumed(Unpause(b, caller, now).value.0, later);
    }
  }

  /** The call pauses, lifts or executes. */
  predicate Retiers(b: Breaker, e: Event) {
    || Pauses(b, e)
    || (e.call.UnpauseCall? && Unpause(b, e.call.caller, e.now).Ok?)
    || (e.call.ExecuteCall? && ExecuteUnpause(b, e.now).Ok?)
  }

  predicate Undisturbed(b: Breaker, events: seq<Event>) {
    events == [] || (Undisturbed(b, events[..|events| - 1]) && !Retiers(Run(b, events[..|events| - 1]), events[|events| - 1]))
  }

  lemma StepKeepsTier(b: Breaker, e: Event)
    requires InRange(b) && Positive(b.window) && !Retiers(b, e)
    ensures var c := Step(b, e);
      InRange(c) && Positive(c.window) && c.tier == b.tier && c.pausedFlag == b.pausedFlag && c.cooldownUntil == b.cooldownUntil
  {
    StepInRange(b, e);
    if Records(b, e) {
      RecordOutcome(b, e.call.amount, e.now);
      RecordEffect(b, e.call.amount, e.now);
      LoopFitsIff(b.window, e.now);
    } else {
      OthersKeepWindow(b, e);
      OthersKeepTier(b, e);
    }
  }

  lemma OthersKeepTier(b: Breaker, e: Event)
    requires !Retiers(b, e) && !Records(b, e)
    ensures var c := Step(b, e); c.tier == b.tier && c.pausedFlag == b.pausedFlag && c.cooldownUntil == b.cooldownUntil
  {
    match e.call
    case ConfigureCall(caller, s) =>
    case _ =>
  }

  lemma {:induction false} TierStays(b: Breaker, events: seq<Event>)
    requires InRange(b) && Positive(b.window) && Undisturbed(b, events)
    ensures var c := Run(b, events);
      InRange(c) && Positive(c.window) && c.tier == b.tier && c.pausedFlag == b.pausedFlag && c.cooldownUntil == b.cooldownUntil
  {
    if events != [] {
      TierStays(b, events[..|events| - 1]);
      StepKeepsTier(Run(b, events[..|events| - 1]), events[|events| - 1]);
    }
  }

  /** In every reachable state: once the pending unpause of event j is executed, the tier it asked
      for is in force at every time, but for a cooldown already running, until something trips,
      spikes, lifts the pause or executes another. */
  lemma ExecutedTierStays(admin: Address, timelock: nat, volatility: int, events: seq<Event>, j: nat, now: nat, later: seq<Event>, time: nat)
    requires var start := Initial(admin, timelock, volatility);
      && PendingFrom(start, events, j) && StoredFrom(start, events, j)
      && ExecuteUnpause(Run(start, events), now).Ok? && Undisturbed(ExecuteUnpause(Run(start, events), now).value.0, later)
    ensures var b := Run(Initial(admin, timelock, volatility), events); var c := Run(ExecuteUnpause(b, now).value.0, later);
      && events[j].call.InitiateCall?
      && EffectiveTier(c, time) == (if time < b.cooldownUntil then All else events[j].call.target)
      && (IsPaused(c, time) <==> EffectiveTier(c, time) != NoPause)
  {
    var start := Initial(admin, timelock, volatility);
    ReachableInRange(admin, timelock, volatility, events);
    WindowPositive(admin, timelock, volatility, events);
    ExecutionDeliversTarget(admin, timelock, volatility, events, j, now);
    TierStays(ExecuteUnpause(Run(start, events), now).value.0, later);
  }
}
