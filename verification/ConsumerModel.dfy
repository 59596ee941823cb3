/** The oracle consumer as a state machine: price updates with a fallback oracle, and the TWAP read. */
module ConsumerModel {
  import opened Host
  import opened Arith
  import opened TwapModel
  import opened TwapTheorems

  datatype ConsumerError =
    | OracleFailed
    | MismatchedAsset
    | PriceNotPositive
    | StalePrice
    | NoSecondaryOracle
    | NoRecord
    | LookbackZero
    | StalenessZero
    | HistoryTooShort
    | SumOverflow

  /** What comes of calling `get_price` on an oracle contract. */
  datatype Reply = Report(asset: Address, price: int, timestamp: nat) | Fault

  datatype Consumer = Consumer(
    records: map<Address, Observation>,
    histories: map<Address, History>,
    maxStaleness: nat)

  function Initial(maxStaleness: nat): Consumer {
    Consumer(map[], map[], maxStaleness)
  }

  function Stale(timestamp: nat, maxAge: nat, now: nat): bool {
    SaturatingSub(now, timestamp) > maxAge
  }

  /** `try_fetch_price`: a failing oracle, a wrong asset or a wrong price panics, and only
      staleness is an error to fall back on. */
  function Fetch(reply: Reply, asset: Address, maxStaleness: nat, now: nat): Result<Observation, ConsumerError> {
    if reply.Fault? then Err(OracleFailed) else
    :- Need(reply.asset == asset, MismatchedAsset);
    :- Need(reply.price > 0, PriceNotPositive);
    :- Need(!Stale(reply.timestamp, maxStaleness, now), StalePrice);
    Ok(Observation(reply.price, reply.timestamp))
  }

  /** The primary oracle's price, or the secondary's when the primary's is stale. */
  function FetchWithFallback(primary: Reply, secondary: Option<Reply>, asset: Address, maxStaleness: nat, now: nat): Result<Observation, ConsumerError> {
    var first := Fetch(primary, asset, maxStaleness, now);
    if first != Err(StalePrice) then first
    else if secondary.None? then Err(NoSecondaryOracle)
    else Fetch(secondary.value, asset, maxStaleness, now)
  }

  function UpdatePrice(c: Consumer, asset: Address, primary: Reply, secondary: Option<Reply>, now: nat): Result<(Consumer, Observation), ConsumerError> {
    var o :- FetchWithFallback(primary, secondary, asset, c.maxStaleness, now);
    Ok((c.(records := c.records[asset := o], histories := c.histories[asset := Cap(GetOr(c.histories, asset, []) + [o])]), o))
  }

  /** `set_max_staleness`, the admin's. */
  function SetMaxStaleness(c: Consumer, seconds: nat): Result<(Consumer, ()), ConsumerError> {
    if seconds <= 0 then Err(StalenessZero) else Ok((c.(maxStaleness := seconds), ()))
  }

  /** An oracle's reply is a price of the asset, whatever its age. */
  predicate Sane(reply: Reply, asset: Address) {
    reply.Report? && reply.asset == asset && reply.price > 0
  }

  predicate Usable(reply: Reply, asset: Address, maxStaleness: nat, now: nat) {
    Sane(reply, asset) && now <= reply.timestamp + maxStaleness
  }

  /** Exactly when an update succeeds, and with which oracle's price: the primary's if usable, the
      secondary's if that is usable and the primary's is sane but stale. */
  lemma UpdateSucceedsIff(c: Consumer, asset: Address, primary: Reply, secondary: Option<Reply>, now: nat)
    ensures var r := Answer(UpdatePrice(c, asset, primary, secondary, now));
      var falls := Sane(primary, asset) && !Usable(primary, asset, c.maxStaleness, now)
                   && secondary.Some? && Usable(secondary.value, asset, c.maxStaleness, now);
      && (r.Ok? <==> Usable(primary, asset, c.maxStaleness, now) || falls)
      && (Usable(primary, asset, c.maxStaleness, now) ==> r.value == Observation(primary.price, primary.timestamp))
      && (falls ==> r.value == Observation(secondary.value.price, secondary.value.timestamp))
  {
  }

  /** The doc comment promises the secondary oracle whenever the primary errors or is stale.  With
      a usable secondary that promise is kept exactly when the primary's reply is sane. */
  lemma FallbackWorksIff(c: Consumer, asset: Address, primary: Reply, secondary: Reply, now: nat)
    requires !Usable(primary, asset, c.maxStaleness, now) && Usable(secondary, asset, c.maxStaleness, now)
    ensures Answer(UpdatePrice(c, asset, primary, Some(secondary), now)) == Ok(Observation(secondary.price, secondary.timestamp))
            <==> Sane(primary, asset)
  {
    UpdateSucceedsIff(c, asset, primary, Some(secondary), now);
  }

  /** A primary that fails, or answers 0, blocks the update although the secondary is good. */
  lemma BadPrimaryBlocks(asset: Address)
    ensures var good := Report(asset, 10, 100);
      && Answer(UpdatePrice(Initial(300), asset, Report(asset, 0, 100), Some(good), 100)) == Err(PriceNotPositive)
      && Answer(UpdatePrice(Initial(300), asset, Fault, Some(good), 100)) == Err(OracleFailed)
      && Answer(UpdatePrice(Initial(300), asset, good, None, 100)) == Ok(Observation(10, 100))
  {
  }

  /** `get_twap_price`.  With positive prices the loop overflows exactly when its total does. */
  function GetTwap(c: Consumer, asset: Address, lookback: nat, maxAge: nat, now: nat): Result<int, ConsumerError> {
    if lookback <= 0 then Err(LookbackZero) else
    :- Need(asset in c.records, NoRecord);
    :- Need(!Stale(c.records[asset].timestamp, maxAge, now), StalePrice);
    var h, start := GetOr(c.histories, asset, []), SaturatingSub(now, lookback);
    :- Need(WeightedSum(h, |h|, start, now) <= I128_MAX, SumOverflow);
    :- Need(Covered(h, start), HistoryTooShort);
    Ok(WeightedSum(h, |h|, start, now) / lookback)
  }

  // ---- runs, with the full log of every asset kept by an observer ----

  datatype Update =
    | Update(asset: Address, primary: Reply, secondary: Option<Reply>, now: nat)
    | SetStaleness(seconds: nat)

  datatype World = World(consumer: Consumer, logs: map<Address, History>)

  function LogOf(w: World, asset: Address): History {
    GetOr(w.logs, asset, [])
  }

  function Observe(w: World, u: Update): World {
    if u.SetStaleness? then w.(consumer := After(w.consumer, SetMaxStaleness(w.consumer, u.seconds))) else
    match UpdatePrice(w.consumer, u.asset, u.primary, u.secondary, u.now)
    case Ok((c, o)) => World(c, w.logs[u.asset := LogOf(w, u.asset) + [o]])
    case Err(_) => w
  }

  function Watch(w: World, updates: seq<Update>): World {
    if updates == [] then w else Observe(Watch(w, updates[..|updates| - 1]), updates[|updates| - 1])
  }

  /** The stored history is the capped log, and the stored record its last entry. */
  ghost predicate Inv(w: World) {
    && w.consumer.records.Keys == w.logs.Keys && w.consumer.histories.Keys == w.logs.Keys
    && forall a :: a in w.logs ==> Logged(w.logs[a], w.consumer.histories[a], w.consumer.records[a])
  }

  ghost predicate Logged(log: History, history: History, record: Observation) {
    log != [] && Priced(log) && history == Cap(log) && record == log[|log| - 1]
  }

  lemma OneMoreLogged(log: History, o: Observation)
    requires Priced(log) && o.price > 0
    ensures Logged(log + [o], Cap(Cap(log) + [o]), o)
  {
    CapThenPush(log, o);
  }

  lemma ObserveKeeps(w: World, u: Update)
    requires Inv(w)
    ensures Inv(Observe(w, u))
  {
    if u.Update? {
      var r := UpdatePrice(w.consumer, u.asset, u.primary, u.secondary, u.now);
      if r.Ok? {
        OneMoreLogged(LogOf(w, u.asset), r.value.1);
      }
    }
  }

  lemma {:induction false} ReachableInv(maxStaleness: nat, updates: seq<Update>)
    ensures Inv(Watch(World(Initial(maxStaleness), map[]), updates))
  {
    if updates != [] {
      ReachableInv(maxStaleness, updates[..|updates| - 1]);
      ObserveKeeps(Watch(World(Initial(maxStaleness), map[]), updates[..|updates| - 1]), updates[|updates| - 1]);
    }
  }

  /** The world after a run of updates. */
  function Reached(maxStaleness: nat, updates: seq<Update>): World {
    Watch(World(Initial(maxStaleness), map[]), updates)
  }

  /** What the window of the stored history says of the window of the log. */
  lemma WindowOfLog(log: History, h: History, record: Observation, start: nat, now: nat)
    requires Logged(log, h, record) && Covered(h, start) && start <= now
    ensures WeightedSum(h, |h|, start, now) == PriceSum(log, start, now) + Overlap(h, start, now, now)
    ensures 0 <= Overlap(h, start, now, now)
    ensures Overlap(h, start, now, now) == 0 <==> Single(h, start, now, now)
    ensures InTimeOrder(log) ==> Single(h, start, now, now)
  {
    LoopIsPriceSumPlusOverlap(h, start, now);
    CapChangesNoPrice(log, start, now);
    OverlapZeroIff(h, start, now, now);
    if InTimeOrder(log) {
      OrderedIsSingle(h, start, now, now);
    }
  }

  lemma AnsweredFrom(w: World, asset: Address, lookback: nat, maxAge: nat, now: nat)
    requires Inv(w) && GetTwap(w.consumer, asset, lookback, maxAge, now).Ok?
    ensures asset in w.logs && asset in w.consumer.histories
    ensures var log, h, start := w.logs[asset], w.consumer.histories[asset], SaturatingSub(now, lookback);
      var sum := PriceSum(log, start, now) + Overlap(h, start, now, now);
      && 0 < lookback && WeightedSum(h, |h|, start, now) == sum
      && GetTwap(w.consumer, asset, lookback, maxAge, now) == Ok(sum / lookback)
      && 0 <= Overlap(h, start, now, now) && sum / lookback >= PriceSum(log, start, now) / lookback
      && (Overlap(h, start, now, now) == 0 <==> Single(h, start, now, now))
      && (InTimeOrder(log) ==> Single(h, start, now, now))
  {
    var log, h, start := w.logs[asset], w.consumer.histories[asset], SaturatingSub(now, lookback);
    WindowOfLog(log, h, w.consumer.records[asset], start, now);
    FloorLe(PriceSum(log, start, now), WeightedSum(h, |h|, start, now), lookback);
  }

  /** After any run of updates, whatever the oracles' time stamps, every TWAP the contract answers
      is the sum, over each second of the window, of the price in force in the full log, plus the
      overlap, divided by the lookback.  The cap never shows, and the answer is never too low. */
  lemma TwapIsSecondwiseAverage(maxStaleness: nat, updates: seq<Update>, asset: Address, lookback: nat, maxAge: nat, now: nat)
    requires GetTwap(Reached(maxStaleness, updates).consumer, asset, lookback, maxAge, now).Ok?
    ensures var w := Reached(maxStaleness, updates); var start := SaturatingSub(now, lookback);
      && asset in w.consumer.histories
      && GetTwap(w.consumer, asset, lookback, maxAge, now)
         == Ok((PriceSum(LogOf(w, asset), start, now) + Overlap(w.consumer.histories[asset], start, now, now)) / lookback)
      && 0 <= Overlap(w.consumer.histories[asset], start, now, now)
      && GetTwap(w.consumer, asset, lookback, maxAge, now).value >= PriceSum(LogOf(w, asset), start, now) / lookback
  {
    ReachableInv(maxStaleness, updates);
    AnsweredFrom(Reached(maxStaleness, updates), asset, lookback, maxAge, now);
  }

  /** Adding to a sum leaves its floored average alone exactly while the addition stays below what
      is missing to the next unit. */
  lemma SameFloorIff(sum: int, more: int, d: int)
    requires 0 < d
    ensures 0 <= more ==> ((sum + more) / d == sum / d <==> more < d - sum % d)
  {
    FloorDiv(sum, d);
    assert sum == sum / d * d + sum % d;
    assert (sum / d + 1) * d == sum / d * d + d;
    if 0 <= more {
      FloorAtLeast(sum / d, sum + more, d);
      FloorAtLeast(sum / d + 1, sum + more, d);
    }
  }

  /** What the contract divides is exactly the sum of the prices in force if and only if no
      observation is counted beside a later one, which time stamps that came in order never are.
      The answer itself can only hide an overlap that is lost in the rounding. */
  lemma TwapExactIff(maxStaleness: nat, updates: seq<Update>, asset: Address, lookback: nat, maxAge: nat, now: nat)
    requires GetTwap(Reached(maxStaleness, updates).consumer, asset, lookback, maxAge, now).Ok?
    ensures var w := Reached(maxStaleness, updates); var start := SaturatingSub(now, lookback);
      var h := GetOr(w.consumer.histories, asset, []);
      && (WeightedSum(h, |h|, start, now) == PriceSum(LogOf(w, asset), start, now) <==> Single(h, start, now, now))
      && (Single(h, start, now, now) ==> GetTwap(w.consumer, asset, lookback, maxAge, now) == Ok(PriceSum(LogOf(w, asset), start, now) / lookback))
      && (InTimeOrder(LogOf(w, asset)) ==> Single(h, start, now, now))
      && (GetTwap(w.consumer, asset, lookback, maxAge, now) == Ok(PriceSum(LogOf(w, asset), start, now) / lookback)
          <==> Overlap(h, start, now, now) < lookback - PriceSum(LogOf(w, asset), start, now) % lookback)
  {
    ReachableInv(maxStaleness, updates);
    var w, start := Reached(maxStaleness, updates), SaturatingSub(now, lookback);
    SameFloorIff(PriceSum(LogOf(w, asset), start, now), Overlap(GetOr(w.consumer.histories, asset, []), start, now, now), lookback);
    AnsweredFrom(Reached(maxStaleness, updates), asset, lookback, maxAge, now);
  }

  /** On a full window the answer is never below the least price in force, and without overlap
      never above the greatest. */
  lemma TwapBetween(maxStaleness: nat, updates: seq<Update>, asset: Address, lookback: nat, maxAge: nat, now: nat, lo: int, hi: int)
    requires lookback <= now && GetTwap(Reached(maxStaleness, updates).consumer, asset, lookback, maxAge, now).Ok?
    requires var log := LogOf(Reached(maxStaleness, updates), asset);
      forall t {:trigger PriceAt(log, t)} :: now - lookback <= t < now ==> lo <= PriceAt(log, t) <= hi
    ensures var w := Reached(maxStaleness, updates); var twap := GetTwap(w.consumer, asset, lookback, maxAge, now).value;
      lo <= twap && (Single(GetOr(w.consumer.histories, asset, []), now - lookback, now, now) ==> twap <= hi)
  {
    TwapIsSecondwiseAverage(maxStaleness, updates, asset, lookback, maxAge, now);
    TwapExactIff(maxStaleness, updates, asset, lookback, maxAge, now);
    AverageBetween(LogOf(Reached(maxStaleness, updates), asset), lookback, now, lo, hi);
  }

  /** A price that never changed is reported as itself exactly once a full lookback has passed
      since time 0: before that the window is cut short but the divisor is not. */
  lemma SteadyPriceReportedIff(maxStaleness: nat, updates: seq<Update>, asset: Address, lookback: nat, maxAge: nat, now: nat, price: nat)
    requires 0 < price && GetTwap(Reached(maxStaleness, updates).consumer, asset, lookback, maxAge, now).Ok?
    requires var w := Reached(maxStaleness, updates);
      && Single(GetOr(w.consumer.histories, asset, []), SaturatingSub(now, lookback), now, now)
      && forall t {:trigger PriceAt(LogOf(w, asset), t)} :: 0 <= t < now ==> PriceAt(LogOf(w, asset), t) == price
    ensures GetTwap(Reached(maxStaleness, updates).consumer, asset, lookback, maxAge, now) == Ok(price) <==> now >= lookback
  {
    TwapExactIff(maxStaleness, updates, asset, lookback, maxAge, now);
    SteadyAverageIff(LogOf(Reached(maxStaleness, updates), asset), lookback, now, price);
  }

  // ---- two runs ----

  lemma WatchOneMore(w: World, updates: seq<Update>, u: Update)
    ensures Watch(w, updates + [u]) == Observe(Watch(w, updates), u)
    ensures Watch(w, []) == w && (updates == [] ==> updates + [u] == [u])
  {
    assert (updates + [u])[..|updates|] == updates;
  }

  /** An update from the primary oracle alone, at time 100. */
  function Stamped(asset: Address, timestamp: nat): Update {
    Update(asset, Report(asset, 10, timestamp), None, 100)
  }

  lemma ObserveStamped(w: World, asset: Address, timestamp: nat)
    requires w.consumer.maxStaleness == 300 && timestamp <= 100
    ensures var o := Observation(10, timestamp);
      Observe(w, Stamped(asset, timestamp))
      == World(Consumer(w.consumer.records[asset := o], w.consumer.histories[asset := Cap(GetOr(w.consumer.histories, asset, []) + [o])], 300),
               w.logs[asset := LogOf(w, asset) + [o]])
  {
  }

  /** Three updates at time 100 with the price 10, stamped 0, 100 and 0: the average over the last
      100 seconds is reported as 20. */
  lemma DisorderDoubleCounts(asset: Address)
    ensures var w := Reached(300, [Stamped(asset, 0), Stamped(asset, 100), Stamped(asset, 0)]);
      GetTwap(w.consumer, asset, 100, 100, 100) == Ok(20)
  {
    var w0 := World(Initial(300), map[]);
    var a, b := Stamped(asset, 0), Stamped(asset, 100);
    WatchOneMore(w0, [], a);
    WatchOneMore(w0, [a], b);
    WatchOneMore(w0, [a, b], a);
    assert [a] + [b] == [a, b] && [a, b] + [a] == [a, b, a];
    ObserveStamped(w0, asset, 0);
    var w1 := Observe(w0, a);
    assert w1.consumer.histories[asset] == [Observation(10, 0)];
    ObserveStamped(w1, asset, 100);
    var w2 := Observe(w1, b);
    assert w2.consumer.histories[asset] == [Observation(10, 0), Observation(10, 100)];
    ObserveStamped(w2, asset, 0);
    DisorderedSum(Observe(w2, a).consumer, asset);
  }

  lemma DisorderedSum(c: Consumer, asset: Address)
    requires asset in c.histories && c.histories[asset] == [Observation(10, 0), Observation(10, 100), Observation(10, 0)]
    requires asset in c.records && c.records[asset] == Observation(10, 0)
    ensures GetTwap(c, asset, 100, 100, 100) == Ok(20)
  {
    var h := c.histories[asset];
    assert WeightedSum(h, 1, 0, 100) == 1_000;
    assert WeightedSum(h, 2, 0, 100) == 1_000;
    assert WeightedSum(h, 3, 0, 100) == 2_000;
    assert h[0].timestamp <= 0;
  }

  /** One update at time 100 with the price 10, stamped 0: over a lookback of 200 seconds it is
      reported as 5. */
  lemma SteadyPriceHalved(asset: Address)
    ensures GetTwap(Reached(300, [Stamped(asset, 0)]).consumer, asset, 200, 100, 100) == Ok(5)
  {
    var w0 := World(Initial(300), map[]);
    WatchOneMore(w0, [], Stamped(asset, 0));
    ObserveStamped(w0, asset, 0);
    var h := [Observation(10, 0)];
    assert Observe(w0, Stamped(asset, 0)).consumer.histories[asset] == h;
    assert WeightedSum(h, 1, 0, 100) == 1_000;
    assert h[0].timestamp <= 0;
  }
}
