/** The circuit breaker as a state machine: a rolling volume window, pause tiers, a timelocked
    unpause and an automatic cooldown. */
module BreakerModel {
  import opened Host

  const DEFAULT_TIMELOCK_SECONDS := 3_600
  const MAX_BOTS := 10
  const DEFAULT_VOLATILITY_BPS := 1_000
  const DEFAULT_VOLUME_THRESHOLD := 1_000_000
  const WINDOW_DURATION_SECONDS := 3_600
  const DEFAULT_SPIKE_MULTIPLIER_BPS := 30_000
  const SPIKE_COOLDOWN_SECONDS := 7_200

  datatype Error =
    | Unauthorized
    | BadArgument
    | BotListFull
    | BotKnown
    | BotUnknown
    | UseUnpause
    | NotPaused
    | NoUnpausePending
    | TimelockRunning
    | Overflow

  datatype Tier = NoPause | SwapOnly | WithdrawOnly | All

  datatype Entry = Entry(timestamp: nat, amount: int)

  type Window = seq<Entry>

  datatype Breaker = Breaker(
    admin: Address,
    bots: set<Address>,
    tier: Tier,
    pausedFlag: bool,
    unlocksAt: nat,
    pendingTier: Option<Tier>,
    timelock: nat,
    referencePrices: map<Address, int>,
    volatilityBps: int,
    tripCount: nat,
    volumeThreshold: int,
    window: Window,
    baseline: int,
    spikeMultiplierBps: int,
    cooldownUntil: nat)

  function Initial(admin: Address, timelockSecs: nat, volatilityBps: int): Breaker {
    Breaker(admin, {}, NoPause, false, 0, None,
            if timelockSecs == 0 then DEFAULT_TIMELOCK_SECONDS else timelockSecs,
            map[], if volatilityBps == 0 then DEFAULT_VOLATILITY_BPS else volatilityBps,
            0, DEFAULT_VOLUME_THRESHOLD, [], 0, DEFAULT_SPIKE_MULTIPLIER_BPS, 0)
  }

  // ---- the rolling window ----

  predicate InWindow(e: Entry, now: nat) {
    (if now >= e.timestamp then now - e.timestamp else 0) < WINDOW_DURATION_SECONDS
  }

  /** The entries recorded less than an hour before now. */
  function Recent(w: Window, now: nat): Window {
    if w == [] then []
    else Recent(w[..|w| - 1], now) + (if InWindow(w[|w| - 1], now) then [w[|w| - 1]] else [])
  }

  function Total(w: Window): int {
    if w == [] then 0 else Total(w[..|w| - 1]) + w[|w| - 1].amount
  }

  /** The summing loop of `record_volume` and `get_window_volume`, checked entry by entry. */
  function RecentTotal(w: Window, now: nat): Result<int, Error> {
    if w == [] then Ok(0)
    else
      var total :- RecentTotal(w[..|w| - 1], now);
      if InWindow(w[|w| - 1], now) then Checked(total + w[|w| - 1].amount, Overflow) else Ok(total)
  }

  // ---- reading the state ----

  predicate InCooldown(b: Breaker, now: nat) {
    now < b.cooldownUntil
  }

  function EffectiveTier(b: Breaker, now: nat): Tier {
    if InCooldown(b, now) then All else b.tier
  }

  predicate IsPaused(b: Breaker, now: nat) {
    b.pausedFlag || InCooldown(b, now)
  }

  // ---- entry points ----

  function ApplyTrip(b: Breaker, tier: Tier): Result<Breaker, Error> {
    if b.tripCount >= U32_MAX then Err(Overflow) else
    Ok(b.(tier := tier, pausedFlag := tier != NoPause, tripCount := b.tripCount + 1))
  }

  function Trip(b: Breaker, caller: Address, tier: Tier): Result<(Breaker, ()), Error> {
    if tier == NoPause then Err(UseUnpause) else
    :- Need(caller == b.admin || caller in b.bots, Unauthorized);
    var c :- ApplyTrip(b, tier);
    Ok((c, ()))
  }

  /** `check_price`, behind both oracle entry points: remembers the price, and trips on a move. */
  function CheckPrice(b: Breaker, asset: Address, price: int): Result<(Breaker, bool), Error> {
    if price <= 0 then Err(BadArgument) else
    var c := b.(referencePrices := b.referencePrices[asset := price]);
    if asset !in b.referencePrices then Ok((c, false)) else
    var reference := b.referencePrices[asset];
    var diff :- Checked(if price > reference then price - reference else reference - price, Overflow);
    var scaled :- Checked(diff * 10_000, Overflow);
    :- Need(reference != 0, Overflow);
    if Quot(scaled, reference) > b.volatilityBps then
      var d :- ApplyTrip(c, SwapOnly);
      Ok((d, true))
    else Ok((c, false))
  }

  /** `check_volume_spike`: no baseline, no cooldown; otherwise start or extend it. */
  function CheckVolumeSpike(b: Breaker, now: nat, total: int): Result<Breaker, Error> {
    if b.baseline == 0 then Ok(b) else
    var scaled :- Checked(b.baseline * b.spikeMultiplierBps, Overflow);
    if total <= Quot(scaled, 10_000) then Ok(b) else
    :- Need(now + SPIKE_COOLDOWN_SECONDS <= U64_MAX, Overflow);
    :- Need(InCooldown(b, now) || b.tripCount < U32_MAX, Overflow);
    Ok(b.(cooldownUntil := Max(now + SPIKE_COOLDOWN_SECONDS, b.cooldownUntil),
          tripCount := if InCooldown(b, now) then b.tripCount else b.tripCount + 1))
  }

  /** The second half of `record_volume`: keep the window, trip on the threshold, look for a spike. */
  function StoreVolume(b: Breaker, w: Window, total: int, now: nat): Result<Breaker, Error> {
    var c := b.(window := w);
    var d :- if total > b.volumeThreshold then ApplyTrip(c, All) else Ok(c);
    CheckVolumeSpike(d, now, total)
  }

  function RecordVolume(b: Breaker, amount: int, now: nat): Result<(Breaker, ()), Error> {
    if amount <= 0 then Err(BadArgument) else
    var before :- RecentTotal(b.window, now);
    var total :- Checked(before + amount, Overflow);
    var c :- StoreVolume(b, Recent(b.window, now) + [Entry(now, amount)], total, now);
    Ok((c, ()))
  }

  function InitiateUnpause(b: Breaker, caller: Address, target: Tier, now: nat): Result<(Breaker, ()), Error> {
    if caller != b.admin then Err(Unauthorized) else
    :- Need(b.tier != NoPause, NotPaused);
    :- Need(now + b.timelock <= U64_MAX, Overflow);
    Ok((b.(unlocksAt := now + b.timelock, pendingTier := Some(target)), ()))
  }

  function ExecuteUnpause(b: Breaker, now: nat): Result<(Breaker, ()), Error> {
    if b.unlocksAt <= 0 then Err(NoUnpausePending) else
    :- Need(now >= b.unlocksAt, TimelockRunning);
    var target := if b.pendingTier.Some? then b.pendingTier.value else NoPause;
    Ok((b.(tier := target, pausedFlag := target != NoPause, unlocksAt := 0), ()))
  }

  function Unpause(b: Breaker, caller: Address, now: nat): Result<(Breaker, ()), Error> {
    if caller != b.admin then Err(Unauthorized) else
    :- Need(b.tier != NoPause || InCooldown(b, now), NotPaused);
    Ok((b.(tier := NoPause, pausedFlag := false, cooldownUntil := 0, unlocksAt := 0), ()))
  }

  function CancelUnpause(b: Breaker, caller: Address): Result<(Breaker, ()), Error> {
    if caller != b.admin then Err(Unauthorized) else
    :- Need(b.unlocksAt > 0, NoUnpausePending);
    Ok((b.(unlocksAt := 0), ()))
  }

  // ---- configuration ----

  datatype Setting =
    | Timelock(seconds: nat)
    | Volatility(bps: int)
    | Threshold(amount: int)
    | Baseline(volume: int)
    | SpikeMultiplier(multiplierBps: int)
    | AddBot(bot: Address)
    | RemoveBot(bot: Address)

  /** The admin-only setters, each with its own range check. */
  function Configure(b: Breaker, caller: Address, s: Setting): Result<(Breaker, ()), Error> {
    if caller != b.admin then Err(Unauthorized) else
    match s
    case Timelock(seconds) => if seconds > 0 then Ok((b.(timelock := seconds), ())) else Err(BadArgument)
    case Volatility(bps) => if 0 < bps <= 10_000 then Ok((b.(volatilityBps := bps), ())) else Err(BadArgument)
    case Threshold(amount) => if amount > 0 then Ok((b.(volumeThreshold := amount), ())) else Err(BadArgument)
    case Baseline(volume) => if volume >= 0 then Ok((b.(baseline := volume), ())) else Err(BadArgument)
    case SpikeMultiplier(bps) => if bps > 10_000 then Ok((b.(spikeMultiplierBps := bps), ())) else Err(BadArgument)
    case AddBot(bot) =>
      if |b.bots| >= MAX_BOTS then Err(BotListFull)
      else if bot in b.bots then Err(BotKnown)
      else Ok((b.(bots := b.bots + {bot}), ()))
    case RemoveBot(bot) => if bot in b.bots then Ok((b.(bots := b.bots - {bot}), ())) else Err(BotUnknown)
  }

  // ---- runs ----

  datatype Call =
    | TripCall(caller: Address, tier: Tier)
    | CheckPriceCall(asset: Address, price: int)
    | RecordCall(amount: int)
    | InitiateCall(caller: Address, target: Tier)
    | ExecuteCall
    | UnpauseCall(caller: Address)
    | CancelCall(caller: Address)
    | ConfigureCall(caller: Address, setting: Setting)

  datatype Event = Event(now: nat, call: Call)

  function Perform(b: Breaker, e: Event): Result<Breaker, Error> {
    match e.call
    case TripCall(caller, tier) => State(Trip(b, caller, tier))
    case CheckPriceCall(asset, price) => State(CheckPrice(b, asset, price))
    case RecordCall(amount) => State(RecordVolume(b, amount, e.now))
    case InitiateCall(caller, target) => State(InitiateUnpause(b, caller, target, e.now))
    case ExecuteCall => State(ExecuteUnpause(b, e.now))
    case UnpauseCall(caller) => State(Unpause(b, caller, e.now))
    case CancelCall(caller) => State(CancelUnpause(b, caller))
    case ConfigureCall(caller, s) => State(Configure(b, caller, s))
  }

  function State<V>(r: Result<(Breaker, V), Error>): Result<Breaker, Error> {
    match r
    case Ok((b, _)) => Ok(b)
    case Err(e) => Err(e)
  }

  function Step(b: Breaker, e: Event): Breaker {
    match Perform(b, e)
    case Ok(c) => c
    case Err(_) => b
  }

  function Run(b: Breaker, events: seq<Event>): Breaker {
    if events == [] then b else Step(Run(b, events[..|events| - 1]), events[|events| - 1])
  }

  predicate InOrder(events: seq<Event>) {
    forall i, j :: 0 <= i <= j < |events| ==> events[i].now <= events[j].now
  }
}
