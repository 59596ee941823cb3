/** The oracle consumer contract, storage as fields; the full log is a ghost. */
module ConsumerContract {
  import opened Host
  import opened Arith
  import opened TwapModel
  import opened ConsumerModel

  /** Positive prices only add to the sum, so the total bounds every partial sum. */
  lemma {:induction false} PartialSumsGrow(h: History, n: nat, start: nat, now: nat)
    requires n <= |h| && Priced(h)
    ensures 0 <= WeightedSum(h, n, start, now) <= WeightedSum(h, |h|, start, now)
    decreases |h| - n
  {
    SumNotNegative(h, n, start, now);
    if n < |h| {
      MulLe(0, h[n].price, Clipped(h, n, start, now));
      PartialSumsGrow(h, n + 1, start, now);
    }
  }

  lemma {:induction false} SumNotNegative(h: History, n: nat, start: nat, now: nat)
    requires n <= |h| && Priced(h)
    ensures 0 <= WeightedSum(h, n, start, now)
  {
    if n > 0 {
      SumNotNegative(h, n - 1, start, now);
      MulLe(0, h[n - 1].price, Clipped(h, n - 1, start, now));
    }
  }

  /** The loop of `get_twap_price`: the weighted sum over the window, and whether it is covered. */
  method WeighWindow(history: History, windowStart: nat, now: nat) returns (r: Result<int, ConsumerError>)
    requires Priced(history)
    ensures r == if WeightedSum(history, |history|, windowStart, now) > I128_MAX then Err(SumOverflow)
                 else if !Covered(history, windowStart) then Err(HistoryTooShort)
                 else Ok(WeightedSum(history, |history|, windowStart, now))
  {
    var covered, weightedSum := false, 0;
    for i := 0 to |history|
      invariant covered <==> exists j :: 0 <= j < i && history[j].timestamp <= windowStart
      invariant weightedSum == WeightedSum(history, i, windowStart, now) <= I128_MAX
    {
      var next := if i + 1 < |history| then history[i + 1].timestamp else now;
      if history[i].timestamp <= windowStart {
        covered := true;
      }
      var intervalStart := if history[i].timestamp > windowStart then history[i].timestamp else windowStart;
      var intervalEnd := if next < now then next else now;
      assert Clipped(history, i, windowStart, now) == SaturatingSub(intervalEnd, intervalStart);
      if intervalEnd > intervalStart {
        var weighted := history[i].price * (intervalEnd - intervalStart);
        if weighted > I128_MAX || weightedSum + weighted > I128_MAX {
          PartialSumsGrow(history, i, windowStart, now);
          PartialSumsGrow(history, i + 1, windowStart, now);
          return Err(SumOverflow);
        }
        weightedSum := weightedSum + weighted;
      }
    }
    if !covered {
      return Err(HistoryTooShort);
    }
    return Ok(weightedSum);
  }

  class OracleConsumer {
    var records: map<Address, Observation>
    var histories: map<Address, History>
    var maxStaleness: nat
    ghost var logs: map<Address, History>

    function View(): Consumer
      reads this
    {
      Consumer(records, histories, maxStaleness)
    }

    ghost predicate Valid()
      reads this
    {
      Inv(World(View(), logs))
    }

    constructor (maxStaleness: nat)
      ensures Valid() && View() == Initial(maxStaleness) && logs == map[]
    {
      records, histories, this.maxStaleness, logs := map[], map[], maxStaleness, map[];
    }

    method UpdatePrice(asset: Address, primary: Reply, secondary: Option<Reply>, now: nat) returns (r: Result<Observation, ConsumerError>)
      requires Valid()
      modifies this
      ensures Valid()
      ensures World(View(), logs) == Observe(old(World(View(), logs)), Update(asset, primary, secondary, now))
      ensures r == Answer(ConsumerModel.UpdatePrice(old(View()), asset, primary, secondary, now))
    {
      ObserveKeeps(World(View(), logs), Update(asset, primary, secondary, now));
      var o :- FetchWithFallback(primary, secondary, asset, maxStaleness, now);
      ghost var log := LogOf(World(View(), logs), asset);
      records := records[asset := o];
      StoreObservation(asset, o);
      logs := logs[asset := log + [o]];
      return Ok(o);
    }

    method SetMaxStaleness(seconds: nat) returns (r: Result<(), ConsumerError>)
      requires Valid()
      modifies this`maxStaleness
      ensures Valid()
      ensures View() == After(old(View()), ConsumerModel.SetMaxStaleness(old(View()), seconds))
      ensures r == Answer(ConsumerModel.SetMaxStaleness(old(View()), seconds))
    {
      if seconds <= 0 {
        return Err(StalenessZero);
      }
      maxStaleness := seconds;
      return Ok(());
    }

    method StoreObservation(asset: Address, o: Observation)
      modifies this`histories
      ensures histories == old(histories)[asset := Cap(GetOr(old(histories), asset, []) + [o])]
    {
      var history := if asset in histories then histories[asset] else [];
      history := history + [o];
      ghost var pushed := history;
      while |history| > MAX_OBSERVATIONS
        invariant |history| <= |pushed| && history == pushed[|pushed| - |history|..]
        invariant |history| == |pushed| || |history| >= MAX_OBSERVATIONS
      {
        history := history[1..];
      }
      assert history == Cap(pushed);
      histories := histories[asset := history];
    }

    method GetTwapPrice(asset: Address, lookback: nat, maxAge: nat, now: nat) returns (r: Result<int, ConsumerError>)
      requires Valid()
      ensures r == GetTwap(View(), asset, lookback, maxAge, now)
    {
      if lookback <= 0 {
        return Err(LookbackZero);
      }
      :- Need(asset in records, NoRecord);
      :- Need(!Stale(records[asset].timestamp, maxAge, now), StalePrice);
      var windowSum :- WeighWindow(histories[asset], SaturatingSub(now, lookback), now);
      return Ok(windowSum / lookback);
    }
  }
}
