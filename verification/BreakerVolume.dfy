/** The pruned window against everything ever recorded, and the cooldown it drives. */
module BreakerVolume {
  import opened Host
  import opened BreakerModel

  /** The call is a record that went through. */
  predicate Records(b: Breaker, e: Event) {
    e.call.RecordCall? && RecordVolume(b, e.call.amount, e.now).Ok?
  }

  /** Every amount ever recorded along a run, never pruned. */
  function FullLog(b: Breaker, events: seq<Event>): Window {
    if events == [] then b.window
    else
      var init, last := events[..|events| - 1], events[|events| - 1];
      FullLog(b, init) + (if Records(Run(b, init), last) then [Entry(last.now, last.call.amount)] else [])
  }

  // ---- pruning ----

  lemma {:induction false} RecentConcat(a: Window, b: Window, now: nat)
    ensures Recent(a + b, now) == Recent(a, now) + Recent(b, now)
  {
    if b == [] {
      assert a + b == a;
    } else {
      assert (a + b)[..|a + b| - 1] == a + b[..|b| - 1];
      RecentConcat(a, b[..|b| - 1], now);
    }
  }

  lemma {:induction false} TotalConcat(a: Window, b: Window)
    ensures Total(a + b) == Total(a) + Total(b)
  {
    if b == [] {
      assert a + b == a;
    } else {
      assert (a + b)[..|a + b| - 1] == a + b[..|b| - 1];
      TotalConcat(a, b[..|b| - 1]);
    }
  }

  /** Whatever is still recent later was recent before, so pruning early loses nothing. */
  lemma {:induction false} PruningLosesNothing(w: Window, before: nat, now: nat)
    requires before <= now
    ensures Recent(Recent(w, before), now) == Recent(w, now)
  {
    if w != [] {
      var init, last := w[..|w| - 1], [w[|w| - 1]];
      PruningLosesNothing(init, before, now);
      if InWindow(w[|w| - 1], before) {
        RecentConcat(Recent(init, before), last, now);
        OneEntry(w[|w| - 1], now);
      } else {
        assert Recent(w, before) == Recent(init, before);
      }
    }
  }

  /** The checked loop adds up what is recent, unless it panics. */
  lemma {:induction false} LoopAddsUp(w: Window, now: nat)
    requires RecentTotal(w, now).Ok?
    ensures RecentTotal(w, now).value == Total(Recent(w, now))
  {
    if w != [] {
      LoopAddsUp(w[..|w| - 1], now);
      if InWindow(w[|w| - 1], now) {
        TotalConcat(Recent(w[..|w| - 1], now), [w[|w| - 1]]);
        OneEntry(w[|w| - 1], now);
      } else {
        assert Recent(w, now) == Recent(w[..|w| - 1], now);
      }
    }
  }

  lemma RecordEffect(b: Breaker, amount: int, now: nat)
    requires RecordVolume(b, amount, now).Ok?
    ensures RecordVolume(b, amount, now).value.0.window == Recent(b.window, now) + [Entry(now, amount)]
    ensures amount > 0
  {
  }

  lemma OthersKeepWindow(b: Breaker, e: Event)
    requires !Records(b, e)
    ensures Step(b, e).window == b.window
  {
    match e.call
    case ConfigureCall(caller, s) =>
    case CheckPriceCall(asset, price) =>
    case _ =>
  }

  /** At any time from the last call on, the stored window and the full log agree on what is
      recent. */
  lemma {:induction false} WindowRefinesLog(admin: Address, timelock: nat, volatility: int, events: seq<Event>, now: nat)
    requires InOrder(events) && (events != [] ==> events[|events| - 1].now <= now)
    ensures var b := Initial(admin, timelock, volatility);
      Recent(Run(b, events).window, now) == Recent(FullLog(b, events), now)
  {
    var b := Initial(admin, timelock, volatility);
    if events != [] {
      var init, last := events[..|events| - 1], events[|events| - 1];
      var s := Run(b, init);
      WindowRefinesLog(admin, timelock, volatility, init, now);
      if Records(s, last) {
        var entry := [Entry(last.now, last.call.amount)];
        RecordEffect(s, last.call.amount, last.now);
        RecentConcat(Recent(s.window, last.now), entry, now);
        PruningLosesNothing(s.window, last.now, now);
        RecentConcat(FullLog(b, init), entry, now);
      } else {
        OthersKeepWindow(s, last);
        assert FullLog(b, events) == FullLog(b, init);
      }
    }
  }

  /** The volume of the last hour, from the full log. */
  function TrailingVolume(b: Breaker, events: seq<Event>, now: nat): int {
    Total(Recent(FullLog(b, events), now))
  }

  predicate Positive(w: Window) {
    forall i :: 0 <= i < |w| ==> w[i].amount > 0
  }

  /** Positive amounts only add, so the loop panics exactly when the final sum does not fit. */
  lemma {:induction false} LoopFitsIff(w: Window, now: nat)
    requires Positive(w)
    ensures 0 <= Total(Recent(w, now)) && Positive(Recent(w, now))
    ensures RecentTotal(w, now) == if Total(Recent(w, now)) <= I128_MAX then Ok(Total(Recent(w, now))) else Err(Overflow)
  {
    if w != [] {
      var init, last := w[..|w| - 1], w[|w| - 1];
      LoopFitsIff(init, now);
      if InWindow(last, now) {
        TotalConcat(Recent(init, now), [last]);
        OneEntry(last, now);
      } else {
        assert Recent(w, now) == Recent(init, now);
      }
    }
  }

  lemma {:induction false} WindowPositive(admin: Address, timelock: nat, volatility: int, events: seq<Event>)
    ensures Positive(Run(Initial(admin, timelock, volatility), events).window)
  {
    if events != [] {
      var init, last := events[..|events| - 1], events[|events| - 1];
      var s := Run(Initial(admin, timelock, volatility), init);
      WindowPositive(admin, timelock, volatility, init);
      if Records(s, last) {
        RecordEffect(s, last.call.amount, last.now);
        LoopFitsIff(s.window, last.now);
      } else {
        OthersKeepWindow(s, last);
      }
    }
  }

  /** `get_window_volume`, at any time from the last call on, is the true trailing volume, and
      panics exactly when that does not fit an `i128`. */
  lemma WindowVolumeIsTrue(admin: Address, timelock: nat, volatility: int, events: seq<Event>, now: nat)
    requires InOrder(events) && (events != [] ==> events[|events| - 1].now <= now)
    ensures var b := Initial(admin, timelock, volatility); var volume := TrailingVolume(b, events, now);
      RecentTotal(Run(b, events).window, now) == if volume <= I128_MAX then Ok(volume) else Err(Overflow)
  {
    WindowRefinesLog(admin, timelock, volatility, events, now);
    WindowPositive(admin, timelock, volatility, events);
    LoopFitsIff(Run(Initial(admin, timelock, volatility), events).window, now);
  }

  lemma TotalAfterRecord(w: Window, amount: int, now: nat)
    ensures Total(Recent(w + [Entry(now, amount)], now)) == Total(Recent(w, now)) + amount
  {
    var entry := Entry(now, amount);
    RecentConcat(w, [entry], now);
    OneEntry(entry, now);
    TotalConcat(Recent(w, now), [entry]);
  }

  lemma OneEntry(e: Entry, now: nat)
    ensures Recent([e], now) == if InWindow(e, now) then [e] else []
    ensures Total([e]) == e.amount
  {
    assert [e][..0] == [];
  }

  lemma RecordTrips(b: Breaker, amount: int, now: nat)
    requires RecordVolume(b, amount, now).Ok? && Total(Recent(b.window, now)) + amount > b.volumeThreshold
    ensures RecordVolume(b, amount, now).value.0.tier == All
  {
    LoopAddsUp(b.window, now);
  }

  /** After a record, if the true volume of the last hour exceeds the threshold, everything is
      paused. */
  lemma HighVolumePausesAll(admin: Address, timelock: nat, volatility: int, events: seq<Event>)
    requires InOrder(events) && events != []
    requires var b := Initial(admin, timelock, volatility); var init, last := events[..|events| - 1], events[|events| - 1];
      && Records(Run(b, init), last)
      && TrailingVolume(b, events, last.now) > Run(b, events).volumeThreshold
    ensures Run(Initial(admin, timelock, volatility), events).tier == All
  {
    var b := Initial(admin, timelock, volatility);
    var init, last := events[..|events| - 1], events[|events| - 1];
    WindowRefinesLog(admin, timelock, volatility, init, last.now);
    TotalAfterRecord(FullLog(b, init), last.call.amount, last.now);
    ThresholdUntouched(Run(b, init), last);
    RecordTrips(Run(b, init), last.call.amount, last.now);
  }

  lemma ThresholdUntouched(b: Breaker, e: Event)
    requires Records(b, e)
    ensures Step(b, e).volumeThreshold == b.volumeThreshold
  {
  }

  // ---- the cooldown ----

  /** A record that goes through with the true volume of the last hour above the configured
      multiple of the baseline. */
  predicate Spikes(b: Breaker, init: seq<Event>, e: Event) {
    var s := Run(b, init);
    && Records(s, e) && s.baseline != 0
    && TrailingVolume(b, init, e.now) + e.call.amount > Quot(s.baseline * s.spikeMultiplierBps, 10_000)
  }

  predicate Lifts(b: Breaker, e: Event) {
    e.call.UnpauseCall? && Unpause(b, e.call.caller, e.now).Ok?
  }

  /** When the latest spike happened, forgetting those before the last `unpause`. */
  function LatestSpike(b: Breaker, events: seq<Event>): Option<nat> {
    if events == [] then None
    else
      var init, last := events[..|events| - 1], events[|events| - 1];
      if Lifts(Run(b, init), last) then None
      else if Spikes(b, init, last) then Some(last.now)
      else LatestSpike(b, init)
  }

  lemma RecordCooldown(b: Breaker, amount: int, now: nat)
    requires RecordVolume(b, amount, now).Ok?
    ensures var c := RecordVolume(b, amount, now).value.0;
      c.cooldownUntil ==
        if b.baseline != 0 && Total(Recent(b.window, now)) + amount > Quot(b.baseline * b.spikeMultiplierBps, 10_000)
        then Max(now + SPIKE_COOLDOWN_SECONDS, b.cooldownUntil) else b.cooldownUntil
  {
    LoopAddsUp(b.window, now);
  }

  lemma OthersKeepCooldown(b: Breaker, e: Event)
    requires !Records(b, e) && !Lifts(b, e)
    ensures Step(b, e).cooldownUntil == b.cooldownUntil
  {
  }

  /** The stored cooldown end is two hours after the latest spike since the last `unpause`, or 0. */
  lemma {:induction false} CooldownIsLatestSpike(admin: Address, timelock: nat, volatility: int, events: seq<Event>)
    requires InOrder(events)
    ensures var b := Initial(admin, timelock, volatility);
      && Run(b, events).cooldownUntil == (match LatestSpike(b, events) case None => 0 case Some(t) => t + SPIKE_COOLDOWN_SECONDS)
      && (LatestSpike(b, events).Some? ==> events != [] && LatestSpike(b, events).value <= events[|events| - 1].now)
  {
    var b := Initial(admin, timelock, volatility);
    if events != [] {
      var init, last := events[..|events| - 1], events[|events| - 1];
      var s := Run(b, init);
      CooldownIsLatestSpike(admin, timelock, volatility, init);
      if Records(s, last) {
        WindowRefinesLog(admin, timelock, volatility, init, last.now);
        RecordCooldown(s, last.call.amount, last.now);
      } else if !Lifts(s, last) {
        OthersKeepCooldown(s, last);
      }
    }
  }
}
