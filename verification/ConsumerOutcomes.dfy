/** When a TWAP is answered at all and which whole number it is, from the log alone; and what an
    update and a setting leave. */
module ConsumerOutcomes {
  import opened Host
  import opened Arith
  import opened TwapModel
  import opened TwapTheorems
  import opened ConsumerModel

  /** One of the last 24 entries of the log was stamped at or before start. */
  predicate ReachesBack(log: History, start: nat) {
    exists i :: 0 <= i < |log| && |log| - 24 <= i && log[i].timestamp <= start
  }

  /** In every reachable state a TWAP is answered exactly when a window is asked for, the asset has
      a price that is recent enough, the last 24 observations reach back to its start, and the sum
      fits; the answer is that sum over the lookback, rounded down. */
  lemma TwapOutcome(maxStaleness: nat, updates: seq<Update>, asset: Address, lookback: nat, maxAge: nat, now: nat, v: int)
    ensures var w := Reached(maxStaleness, updates); var r := GetTwap(w.consumer, asset, lookback, maxAge, now);
      var start := if now >= lookback then now - lookback else 0;
      var log, h := LogOf(w, asset), if asset in w.consumer.histories then w.consumer.histories[asset] else [];
      var sum := PriceSum(log, start, now) + Overlap(h, start, now, now);
      && (r.Ok? <==> 0 < lookback && log != [] && now <= log[|log| - 1].timestamp + maxAge && ReachesBack(log, start) && sum <= I128_MAX)
      && (r.Ok? ==> (r.value == v <==> v * lookback <= sum < (v + 1) * lookback))
  {
    ReachableInv(maxStaleness, updates);
    OutcomeIn(Reached(maxStaleness, updates), asset, lookback, maxAge, now, v);
  }

  lemma OutcomeIn(w: World, asset: Address, lookback: nat, maxAge: nat, now: nat, v: int)
    requires Inv(w)
    ensures var r := GetTwap(w.consumer, asset, lookback, maxAge, now);
      var start := SaturatingSub(now, lookback);
      var log, h := LogOf(w, asset), GetOr(w.consumer.histories, asset, []);
      var sum := PriceSum(log, start, now) + Overlap(h, start, now, now);
      && (r.Ok? <==> 0 < lookback && log != [] && now <= log[|log| - 1].timestamp + maxAge && ReachesBack(log, start) && sum <= I128_MAX)
      && (r.Ok? ==> (r.value == v <==> v * lookback <= sum < (v + 1) * lookback))
  {
    if asset in w.logs {
      var log, h, start := w.logs[asset], w.consumer.histories[asset], SaturatingSub(now, lookback);
      assert Logged(log, h, w.consumer.records[asset]);
      CoveredIff(log, start);
      if Covered(h, start) {
        WindowOfLog(log, h, w.consumer.records[asset], start, now);
        if 0 < lookback { FloorOnly(PriceSum(log, start, now) + Overlap(h, start, now, now), lookback, v); }
      }
    }
  }

  lemma FloorOnly(n: int, d: int, v: int)
    requires 0 < d
    ensures n / d == v <==> v * d <= n < (v + 1) * d
  {
    FloorDiv(n, d);
    if v * d <= n < (v + 1) * d {
      FloorUnique(n, d, v);
    }
  }

  lemma CoveredIff(log: History, start: nat)
    ensures Covered(Cap(log), start) <==> ReachesBack(log, start)
  {
    var h, d := Cap(log), if |log| > 24 then |log| - 24 else 0;
    assert forall i :: 0 <= i < |h| ==> h[i] == log[d + i];
    if ReachesBack(log, start) {
      var i :| 0 <= i < |log| && |log| - 24 <= i && log[i].timestamp <= start;
      assert h[i - d].timestamp <= start;
    }
    if Covered(h, start) {
      var i :| 0 <= i < |h| && h[i].timestamp <= start;
      assert log[d + i].timestamp <= start;
    }
  }

  /** In every reachable state an asset has a record exactly when something was accepted for it: the
      record is the last of those, and the history the last 24. */
  lemma StoredOutcome(maxStaleness: nat, updates: seq<Update>, asset: Address)
    ensures var w := Reached(maxStaleness, updates); var c, log := w.consumer, LogOf(w, asset);
      && (asset in c.records <==> log != []) && (asset in c.histories <==> log != [])
      && (log != [] ==> c.records[asset] == log[|log| - 1]
                        && |c.histories[asset]| == (if |log| < 24 then |log| else 24) && c.histories[asset] == log[|log| - |c.histories[asset]|..])
  {
    ReachableInv(maxStaleness, updates);
    var w := Reached(maxStaleness, updates);
    if asset in w.logs {
      assert Logged(w.logs[asset], w.consumer.histories[asset], w.consumer.records[asset]);
    }
  }

  /** An update adds what it answers to its asset's log and touches no other asset; a refused one
      touches nothing. */
  lemma UpdateOutcome(w: World, asset: Address, primary: Reply, secondary: Option<Reply>, now: nat, other: Address)
    requires Inv(w)
    ensures var r := UpdatePrice(w.consumer, asset, primary, secondary, now); var v := Observe(w, Update(asset, primary, secondary, now));
      && (r.Err? ==> v == w)
      && (r.Ok? ==> LogOf(v, asset) == LogOf(w, asset) + [r.value.1] && v.consumer == r.value.0 && v.consumer.maxStaleness == w.consumer.maxStaleness)
      && (other != asset ==>
            && LogOf(v, other) == LogOf(w, other)
            && GetOr(v.consumer.histories, other, []) == GetOr(w.consumer.histories, other, [])
            && (other in w.consumer.records <==> other in v.consumer.records)
            && (other in w.consumer.records ==> v.consumer.records[other] == w.consumer.records[other]))
  {
  }

  lemma SetStalenessOutcome(c: Consumer, seconds: nat)
    ensures SetMaxStaleness(c, seconds).Ok? <==> 0 < seconds
    ensures 0 < seconds ==> SetMaxStaleness(c, seconds).value.0 == c.(maxStaleness := seconds)
  {
  }

  lemma InitialOutcome(maxStaleness: nat)
    ensures Initial(maxStaleness).records == map[] && Initial(maxStaleness).histories == map[] && Initial(maxStaleness).maxStaleness == maxStaleness
  {
  }
}
