/** Pausing and unpausing: the two ways of asking agree, and a pause ends only as it should. */
module BreakerPause {
  import opened Host
  import opened Arith
  import opened BreakerModel

  predicate Inv(b: Breaker) {
    && (b.pausedFlag <==> b.tier != NoPause) && 0 < b.timelock
    && forall a :: a in b.referencePrices ==> b.referencePrices[a] > 0
  }

  lemma StepKeeps(b: Breaker, e: Event)
    requires Inv(b)
    ensures Inv(Step(b, e))
  {
    match e.call
    case RecordCall(amount) =>
      if RecordVolume(b, amount, e.now).Ok? { RecordKeeps(b, amount, e.now); }
    case CheckPriceCall(asset, price) =>
      if CheckPrice(b, asset, price).Ok? { CheckPriceKeeps(b, asset, price); }
    case ConfigureCall(caller, s) =>
    case _ =>
  }

  lemma RecordKeeps(b: Breaker, amount: int, now: nat)
    requires Inv(b) && RecordVolume(b, amount, now).Ok?
    ensures Inv(RecordVolume(b, amount, now).value.0)
  {
  }

  lemma CheckPriceKeeps(b: Breaker, asset: Address, price: int)
    requires Inv(b) && CheckPrice(b, asset, price).Ok?
    ensures Inv(CheckPrice(b, asset, price).value.0)
  {
  }

  lemma {:induction false} ReachableInv(admin: Address, timelock: nat, volatility: int, events: seq<Event>)
    ensures Inv(Run(Initial(admin, timelock, volatility), events))
  {
    if events != [] {
      ReachableInv(admin, timelock, volatility, events[..|events| - 1]);
      StepKeeps(Run(Initial(admin, timelock, volatility), events[..|events| - 1]), events[|events| - 1]);
    }
  }

  /** In every reachable state and at every time, the cheap flag and the tier give one answer. */
  lemma FlagMatchesTier(admin: Address, timelock: nat, volatility: int, events: seq<Event>, now: nat)
    ensures var b := Run(Initial(admin, timelock, volatility), events);
      IsPaused(b, now) <==> EffectiveTier(b, now) != NoPause
  {
    ReachableInv(admin, timelock, volatility, events);
  }

  // ---- the pending unpause ----

  predicate Initiates(b: Breaker, e: Event) {
    e.call.InitiateCall? && InitiateUnpause(b, e.call.caller, e.call.target, e.now).Ok?
  }

  /** A call that uses up or withdraws the pending unpause. */
  predicate Settles(b: Breaker, e: Event) {
    || (e.call.ExecuteCall? && ExecuteUnpause(b, e.now).Ok?)
    || (e.call.UnpauseCall? && Unpause(b, e.call.caller, e.now).Ok?)
    || (e.call.CancelCall? && CancelUnpause(b, e.call.caller).Ok?)
  }

  /** Event j initiated an unpause that nothing since has replaced, used up or withdrawn. */
  ghost predicate PendingFrom(b: Breaker, events: seq<Event>, j: nat) {
    && j < |events| && Initiates(Run(b, events[..j]), events[j])
    && forall k :: j < k < |events| ==> LeavesPending(b, events, k)
  }

  predicate LeavesPending(b: Breaker, events: seq<Event>, k: nat)
    requires k < |events|
  {
    !Initiates(Run(b, events[..k]), events[k]) && !Settles(Run(b, events[..k]), events[k])
  }

  /** What is stored about the pending unpause is what event j asked for, under the timelock
      configured when it did. */
  ghost predicate StoredFrom(b: Breaker, events: seq<Event>, j: nat)
    requires j < |events| && events[j].call.InitiateCall?
  {
    var s := Run(b, events);
    && s.unlocksAt == events[j].now + Run(b, events[..j]).timelock
    && s.pendingTier == Some(events[j].call.target)
  }

  lemma OthersKeepPending(b: Breaker, e: Event)
    requires !Initiates(b, e) && !Settles(b, e)
    ensures Step(b, e).unlocksAt == b.unlocksAt && Step(b, e).pendingTier == b.pendingTier
  {
    match e.call
    case RecordCall(amount) =>
    case ConfigureCall(caller, s) =>
    case _ =>
  }

  /** A non-zero unlock time always comes from such an event. */
  lemma {:induction false} PendingHasOrigin(admin: Address, timelock: nat, volatility: int, events: seq<Event>)
    requires Run(Initial(admin, timelock, volatility), events).unlocksAt > 0
    ensures var b := Initial(admin, timelock, volatility);
      exists j: nat :: PendingFrom(b, events, j) && StoredFrom(b, events, j)
  {
    var b := Initial(admin, timelock, volatility);
    var init, last := events[..|events| - 1], events[|events| - 1];
    var s := Run(b, init);
    if Initiates(s, last) {
      assert PendingFrom(b, events, |init|) && StoredFrom(b, events, |init|);
    } else {
      assert !Settles(s, last);
      OthersKeepPending(s, last);
      PendingHasOrigin(admin, timelock, volatility, init);
      QuietEventKeepsOrigin(b, init, last);
      assert events == init + [last];
    }
  }

  lemma QuietEventKeepsOrigin(b: Breaker, init: seq<Event>, last: Event)
    requires exists j: nat :: PendingFrom(b, init, j) && StoredFrom(b, init, j)
    requires !Initiates(Run(b, init), last) && !Settles(Run(b, init), last)
    ensures exists j: nat :: PendingFrom(b, init + [last], j) && StoredFrom(b, init + [last], j)
  {
    var j: nat :| PendingFrom(b, init, j) && StoredFrom(b, init, j);
    OneMoreQuietEvent(b, init, last, j);
  }

  /** An event that neither initiates nor settles leaves the pending unpause as it was. */
  lemma OneMoreQuietEvent(b: Breaker, init: seq<Event>, last: Event, j: nat)
    requires PendingFrom(b, init, j) && StoredFrom(b, init, j)
    requires !Initiates(Run(b, init), last) && !Settles(Run(b, init), last)
    ensures PendingFrom(b, init + [last], j) && StoredFrom(b, init + [last], j)
  {
    var events := init + [last];
    OthersKeepPending(Run(b, init), last);
    assert events[..|init|] == init && events[..j] == init[..j];
    forall k | j < k < |events|
      ensures LeavesPending(b, events, k)
    {
      if k < |init| {
        assert events[..k] == init[..k] && LeavesPending(b, init, k);
      }
    }
  }

  lemma OnlyTheseUnpause(b: Breaker, e: Event)
    requires b.tier != NoPause && Step(b, e).tier == NoPause
    ensures || (e.call.UnpauseCall? && e.call.caller == b.admin && Unpause(b, e.call.caller, e.now).Ok?)
            || (e.call.ExecuteCall? && ExecuteUnpause(b, e.now).Ok?)
  {
    match e.call
    case RecordCall(amount) =>
    case ConfigureCall(caller, s) =>
    case _ =>
  }

  /** A pause ends in one of two ways only: the admin lifts it, or a scheduled unpause to NoPause
      is executed, no sooner than the timelock that was configured when it was initiated, and
      with nothing having replaced or withdrawn it in between. */
  lemma PauseEndsProperly(admin: Address, timelock: nat, volatility: int, events: seq<Event>)
    requires events != []
    requires var b := Initial(admin, timelock, volatility);
      Run(b, events[..|events| - 1]).tier != NoPause && Run(b, events).tier == NoPause
    ensures var b := Initial(admin, timelock, volatility);
      var init, last := events[..|events| - 1], events[|events| - 1];
      || (last.call.UnpauseCall? && last.call.caller == Run(b, init).admin)
      || (last.call.ExecuteCall? && exists j: nat :: ScheduledAndDue(b, init, j, last.now))
  {
    var b := Initial(admin, timelock, volatility);
    var init, last := events[..|events| - 1], events[|events| - 1];
    OnlyTheseUnpause(Run(b, init), last);
    if last.call.ExecuteCall? {
      PendingHasOrigin(admin, timelock, volatility, init);
      var j: nat :| PendingFrom(b, init, j) && StoredFrom(b, init, j);
      ExecutedAsStored(Run(b, init), last);
      assert ScheduledAndDue(b, init, j, last.now);
    }
  }

  /** Event j asked for NoPause, nothing has replaced or withdrawn it, and the timelock that was
      configured when it did is over. */
  ghost predicate ScheduledAndDue(b: Breaker, events: seq<Event>, j: nat, now: nat) {
    PendingFrom(b, events, j) && events[j].call.target == NoPause && now >= events[j].now + Run(b, events[..j]).timelock
  }

  lemma ExecutedAsStored(b: Breaker, e: Event)
    requires e.call.ExecuteCall? && b.tier != NoPause && Step(b, e).tier == NoPause
    ensures b.unlocksAt > 0 && e.now >= b.unlocksAt
    ensures b.pendingTier.Some? ==> b.pendingTier.value == NoPause
  {
  }

  // ---- oracle trips ----

  /** A price check that goes through trips exactly when the price has moved from the remembered
      one by more than the limit, to the basis point; and it always remembers the new price. */
  lemma PriceCheckTripsIff(b: Breaker, asset: Address, price: int)
    requires Inv(b) && CheckPrice(b, asset, price).Ok?
    ensures var (c, tripped) := CheckPrice(b, asset, price).value;
      && c.referencePrices == b.referencePrices[asset := price] && price > 0
      && (asset !in b.referencePrices ==> !tripped)
      && (asset in b.referencePrices ==>
            var r := b.referencePrices[asset];
            tripped <==> Max(price - r, r - price) * 10_000 >= (b.volatilityBps + 1) * r)
      && (tripped ==> c.tier == SwapOnly) && (!tripped ==> c.tier == b.tier)
  {
    if asset in b.referencePrices {
      var r := b.referencePrices[asset];
      FloorAtLeast(b.volatilityBps + 1, Max(price - r, r - price) * 10_000, r);
    }
  }

  // ---- trips that reopen ----

  datatype Action = Swapping | Withdrawing

  /** What a tier halts, as `is_swap_paused` and `is_withdraw_paused` read it. */
  predicate Halts(tier: Tier, action: Action) {
    tier == All || tier == (if action == Swapping then SwapOnly else WithdrawOnly)
  }

  predicate Halted(b: Breaker, action: Action, time: nat) {
    Halts(EffectiveTier(b, time), action)
  }

  /** At some time from now on an action goes through that the earlier state would have halted. */
  ghost predicate Reopens(b: Breaker, c: Breaker, action: Action, now: nat) {
    exists later: nat :: now <= later && Halted(b, action, later) && !Halted(c, action, later)
  }

  /** A new tier under the same cooldown shows at the latest when the cooldown ends. */
  lemma NewTierReopensIff(b: Breaker, c: Breaker, action: Action, now: nat)
    requires c.cooldownUntil == b.cooldownUntil
    ensures Reopens(b, c, action, now) <==> Halts(b.tier, action) && !Halts(c.tier, action)
  {
    if Halts(b.tier, action) && !Halts(c.tier, action) {
      var later: nat := Max(now, b.cooldownUntil);
      assert Halted(b, action, later) && !Halted(c, action, later);
    }
  }

  /** An oracle trip replaces the stored tier by SwapOnly, whatever it was.  At once or when a
      cooldown ends it lets withdrawals through exactly when the stored tier halted them, and it
      never reopens swaps. */
  lemma OracleTripWeakensIff(b: Breaker, asset: Address, price: int, now: nat)
    requires CheckPrice(b, asset, price).Ok? && CheckPrice(b, asset, price).value.1
    ensures var c := CheckPrice(b, asset, price).value.0;
      && (Reopens(b, c, Withdrawing, now) <==> b.tier in {WithdrawOnly, All})
      && !Reopens(b, c, Swapping, now)
  {
    var c := CheckPrice(b, asset, price).value.0;
    NewTierReopensIff(b, c, Withdrawing, now);
    NewTierReopensIff(b, c, Swapping, now);
  }

  /** It does so at this very moment exactly when, besides, no cooldown is running. */
  lemma OracleTripWeakensNowIff(b: Breaker, asset: Address, price: int, now: nat)
    requires CheckPrice(b, asset, price).Ok? && CheckPrice(b, asset, price).value.1
    ensures var c := CheckPrice(b, asset, price).value.0;
      Halted(b, Withdrawing, now) && !Halted(c, Withdrawing, now) <==> b.tier in {WithdrawOnly, All} && !InCooldown(b, now)
  {
  }

  /** A trip by the admin or a bot replaces the tier as well, and may loosen it: it reopens an
      action exactly when the old tier halted it and the new one does not. */
  lemma TripReopensIff(b: Breaker, caller: Address, tier: Tier, action: Action, now: nat)
    requires Trip(b, caller, tier).Ok?
    ensures Reopens(b, Trip(b, caller, tier).value.0, action, now) <==> Halts(b.tier, action) && !Halts(tier, action)
  {
    NewTierReopensIff(b, Trip(b, caller, tier).value.0, action, now);
  }

  lemma RunOfThree(b: Breaker, x: Event, y: Event, z: Event)
    ensures Run(b, [x, y, z]) == Step(Step(Step(b, x), y), z)
    ensures Run(b, [x, y]) == Step(Step(b, x), y)
  {
    assert [x, y, z][..2] == [x, y] && [x, y][..1] == [x] && [x][..0] == [];
    assert Run(b, [x]) == Step(Run(b, []), x);
  }

  /** Such a run: a price of 100, a full stop by the admin, and a price of 200, which lets
      withdrawals through again. */
  lemma OracleTripReopens(admin: Address, asset: Address)
    ensures var first, stop, jump := Event(0, CheckPriceCall(asset, 100)), Event(0, TripCall(admin, All)), Event(0, CheckPriceCall(asset, 200));
      && EffectiveTier(Run(Initial(admin, 0, 0), [first, stop]), 0) == All
      && EffectiveTier(Run(Initial(admin, 0, 0), [first, stop, jump]), 0) == SwapOnly
  {
    var b := Initial(admin, 0, 0);
    RunOfThree(b, Event(0, CheckPriceCall(asset, 100)), Event(0, TripCall(admin, All)), Event(0, CheckPriceCall(asset, 200)));
    var c := Step(b, Event(0, CheckPriceCall(asset, 100)));
    assert c == b.(referencePrices := map[asset := 100]);
    assert Quot(1_000_000, 100) == 10_000;
  }

  lemma RunOneMore(b: Breaker, events: seq<Event>, e: Event)
    ensures Run(b, events + [e]) == Step(Run(b, events), e)
    ensures Run(b, []) == b && (events == [] ==> events + [e] == [e])
  {
    assert (events + [e])[..|events|] == events;
  }

  /** A price of 100 and a full stop during a volume cooldown. */
  function StopInCooldown(admin: Address, asset: Address): seq<Event> {
    [Event(0, CheckPriceCall(asset, 100)), Event(0, ConfigureCall(admin, Baseline(1))), Event(0, RecordCall(4)), Event(0, TripCall(admin, All))]
  }

  lemma StopInCooldownState(admin: Address, asset: Address)
    ensures var b := Run(Initial(admin, 0, 0), StopInCooldown(admin, asset));
      && b.tier == All && b.cooldownUntil == 7_200 && b.tripCount == 2 && b.volatilityBps == 1_000
      && b.referencePrices == map[asset := 100]
  {
    var b, e := Initial(admin, 0, 0), StopInCooldown(admin, asset);
    RunOneMore(b, [], e[0]);
    RunOneMore(b, [e[0]], e[1]);
    RunOneMore(b, [e[0], e[1]], e[2]);
    RunOneMore(b, [e[0], e[1], e[2]], e[3]);
    assert [e[0]] + [e[1]] == [e[0], e[1]] && [e[0], e[1]] + [e[2]] == [e[0], e[1], e[2]] && [e[0], e[1], e[2]] + [e[3]] == e;
    var c := Step(Step(b, e[0]), e[1]);
    assert c == b.(referencePrices := map[asset := 100], baseline := 1);
    SpikeOfFour(c);
  }

  lemma SpikeOfFour(b: Breaker)
    requires b.window == [] && b.baseline == 1 && b.spikeMultiplierBps == 30_000 && b.volumeThreshold == 1_000_000
    requires b.cooldownUntil == 0 && b.tripCount == 0
    ensures RecordVolume(b, 4, 0) == Ok((b.(window := [Entry(0, 4)], cooldownUntil := 7_200, tripCount := 1), ()))
  {
    assert Recent(b.window, 0) + [Entry(0, 4)] == [Entry(0, 4)];
    assert StoreVolume(b, [Entry(0, 4)], 4, 0) == Ok(b.(window := [Entry(0, 4)], cooldownUntil := 7_200, tripCount := 1));
  }

  /** An oracle trip during the cooldown changes nothing yet; but when the cooldown ends only
      swaps are halted, where the full stop would have stood. */
  lemma OracleTripReopensLater(admin: Address, asset: Address)
    ensures var stopped := Run(Initial(admin, 0, 0), StopInCooldown(admin, asset));
      var tripped := Run(Initial(admin, 0, 0), StopInCooldown(admin, asset) + [Event(0, CheckPriceCall(asset, 200))]);
      && EffectiveTier(stopped, 0) == EffectiveTier(tripped, 0) == All
      && EffectiveTier(stopped, 7_200) == All && EffectiveTier(tripped, 7_200) == SwapOnly
  {
    StopInCooldownState(admin, asset);
    RunOneMore(Initial(admin, 0, 0), StopInCooldown(admin, asset), Event(0, CheckPriceCall(asset, 200)));
    DoubledPrice(Run(Initial(admin, 0, 0), StopInCooldown(admin, asset)), asset);
  }

  lemma DoubledPrice(b: Breaker, asset: Address)
    requires b.referencePrices == map[asset := 100] && b.volatilityBps == 1_000 && b.tripCount < U32_MAX
    ensures CheckPrice(b, asset, 200).Ok? && CheckPrice(b, asset, 200).value.0.tier == SwapOnly
    ensures CheckPrice(b, asset, 200).value.0.cooldownUntil == b.cooldownUntil
  {
    assert Quot(1_000_000, 100) == 10_000;
  }

  /** A bot loosens the admin's full stop to SwapOnly. */
  lemma BotLoosensStop(admin: Address, bot: Address)
    ensures var add, stop, loosen := Event(0, ConfigureCall(admin, AddBot(bot))), Event(0, TripCall(admin, All)), Event(0, TripCall(bot, SwapOnly));
      && EffectiveTier(Run(Initial(admin, 0, 0), [add, stop]), 0) == All
      && EffectiveTier(Run(Initial(admin, 0, 0), [add, stop, loosen]), 0) == SwapOnly
  {
    RunOfThree(Initial(admin, 0, 0), Event(0, ConfigureCall(admin, AddBot(bot))), Event(0, TripCall(admin, All)), Event(0, TripCall(bot, SwapOnly)));
    assert |Initial(admin, 0, 0).bots| == 0;
  }
}
