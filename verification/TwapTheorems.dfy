/** The clipped-interval average against its meaning: for every second of the window, the price in
    force at that second, taken from the full log of everything ever observed. */
module TwapTheorems {
  import opened Arith
  import opened TwapModel

  predicate InTimeOrder(h: History) {
    forall i, j :: 0 <= i <= j < |h| ==> h[i].timestamp <= h[j].timestamp
  }

  /** The price in force at second t: that of the last observation made at or before t. */
  function PriceAt(h: History, t: int): int {
    if h == [] then 0
    else if h[|h| - 1].timestamp <= t then h[|h| - 1].price
    else PriceAt(h[..|h| - 1], t)
  }

  /** The sum of the prices in force over the seconds from a up to but not including b. */
  function PriceSum(h: History, a: int, b: int): int
    decreases b - a
  {
    if a >= b then 0 else PriceSum(h, a, b - 1) + PriceAt(h, b - 1)
  }

  // ---- the loop, second by second ----

  /** The loop counts observation i at second t. */
  predicate Counted(h: History, i: nat, t: int, now: nat)
    requires i < |h|
  {
    h[i].timestamp <= t < NextTimestamp(h, i, now)
  }

  /** The prices the loop counts at second t among the first n observations. */
  function CountedPrices(h: History, n: nat, t: int, now: nat): int
    requires n <= |h|
  {
    if n == 0 then 0 else CountedPrices(h, n - 1, t, now) + (if Counted(h, n - 1, t, now) then h[n - 1].price else 0)
  }

  function CountedSum(h: History, n: nat, a: int, b: int, now: nat): int
    requires n <= |h|
    decreases b - a
  {
    if a >= b then 0 else CountedSum(h, n, a, b - 1, now) + CountedPrices(h, n, b - 1, now)
  }

  /** The seconds of [a, b) at which observation i is counted. */
  function Seconds(h: History, i: nat, a: nat, b: nat, now: nat): nat
    requires i < |h|
  {
    var from := if h[i].timestamp > a then h[i].timestamp else a;
    var to := if NextTimestamp(h, i, now) < b then NextTimestamp(h, i, now) else b;
    if to > from then to - from else 0
  }

  lemma OneMoreSecond(h: History, i: nat, a: nat, b: nat, now: nat)
    requires i < |h| && a < b
    ensures Seconds(h, i, a, b, now) == Seconds(h, i, a, b - 1, now) + (if Counted(h, i, b - 1, now) then 1 else 0)
  {
  }

  lemma {:induction false} OneMoreObservation(h: History, n: nat, a: nat, b: nat, now: nat)
    requires 0 < n <= |h| && a <= b
    ensures CountedSum(h, n, a, b, now) == CountedSum(h, n - 1, a, b, now) + h[n - 1].price * Seconds(h, n - 1, a, b, now)
    decreases b - a
  {
    var price, i := h[n - 1].price, n - 1;
    if a < b {
      OneMoreObservation(h, n, a, b - 1, now);
      OneMoreSecond(h, i, a, b, now);
      if Counted(h, i, b - 1, now) {
        assert price * (Seconds(h, i, a, b - 1, now) + 1) == price * Seconds(h, i, a, b - 1, now) + price;
      }
    } else {
      assert Seconds(h, i, a, b, now) == 0;
    }
  }

  /** The loop's partial sums, exchanged into a sum over seconds. */
  lemma {:induction false} LoopBySeconds(h: History, n: nat, start: nat, now: nat)
    requires n <= |h| && start <= now
    ensures WeightedSum(h, n, start, now) == CountedSum(h, n, start, now, now)
  {
    if n == 0 {
      NothingCounted(h, start, now, now);
    } else {
      LoopBySeconds(h, n - 1, start, now);
      OneMoreObservation(h, n, start, now, now);
      assert Seconds(h, n - 1, start, now, now) == Clipped(h, n - 1, start, now);
    }
  }

  lemma {:induction false} NothingCounted(h: History, a: int, b: int, now: nat)
    ensures CountedSum(h, 0, a, b, now) == 0
    decreases b - a
  {
    if a < b {
      NothingCounted(h, a, b - 1, now);
    }
  }

  // ---- what it counts beside the price in force ----

  /** The last observation made at or before t, or -1. */
  function LastAt(h: History, t: int): (i: int)
    ensures -1 <= i < |h|
    ensures 0 <= i ==> h[i].timestamp <= t && PriceAt(h, t) == h[i].price
    ensures i < 0 ==> PriceAt(h, t) == 0
    ensures forall j :: i < j < |h| ==> t < h[j].timestamp
  {
    if h == [] then -1
    else if h[|h| - 1].timestamp <= t then |h| - 1
    else LastAt(h[..|h| - 1], t)
  }

  /** The prices of earlier observations that are counted at t as well. */
  function OverlapAt(h: History, t: int, now: nat): int {
    if LastAt(h, t) < 0 then 0 else CountedPrices(h, LastAt(h, t), t, now)
  }

  function Overlap(h: History, a: int, b: int, now: nat): int
    decreases b - a
  {
    if a >= b then 0 else Overlap(h, a, b - 1, now) + OverlapAt(h, b - 1, now)
  }

  lemma {:induction false} LaterNotCounted(h: History, n: nat, t: int, now: nat)
    requires LastAt(h, t) < n <= |h| && t < now
    ensures CountedPrices(h, n, t, now) == PriceAt(h, t) + OverlapAt(h, t, now)
  {
    var last := LastAt(h, t);
    if last + 1 < n {
      LaterNotCounted(h, n - 1, t, now);
    } else if 0 <= last {
      assert Counted(h, last, t, now);
    }
  }

  lemma {:induction false} SecondsAddUp(h: History, a: int, b: int, now: nat)
    requires b <= now
    ensures CountedSum(h, |h|, a, b, now) == PriceSum(h, a, b) + Overlap(h, a, b, now)
    decreases b - a
  {
    if a < b {
      SecondsAddUp(h, a, b - 1, now);
      LaterNotCounted(h, |h|, b - 1, now);
    }
  }

  /** For every history, in order or not: the loop adds the price in force at each second of the
      window, and the overlap. */
  lemma LoopIsPriceSumPlusOverlap(h: History, start: nat, now: nat)
    requires start <= now
    ensures WeightedSum(h, |h|, start, now) == PriceSum(h, start, now) + Overlap(h, start, now, now)
  {
    LoopBySeconds(h, |h|, start, now);
    SecondsAddUp(h, start, now, now);
  }

  // ---- when there is no overlap ----

  /** No observation is still counted at t after a later one has come into force. */
  predicate SingleAt(h: History, t: int, now: nat) {
    forall i, j :: 0 <= i < j < |h| && Counted(h, i, t, now) ==> t < h[j].timestamp
  }

  predicate Single(h: History, a: int, b: int, now: nat) {
    forall t {:trigger SingleAt(h, t, now)} :: a <= t < b ==> SingleAt(h, t, now)
  }

  lemma {:induction false} CountedPricesZeroIff(h: History, n: nat, t: int, now: nat)
    requires n <= |h| && Priced(h)
    ensures 0 <= CountedPrices(h, n, t, now)
    ensures CountedPrices(h, n, t, now) == 0 <==> forall i :: 0 <= i < n ==> !Counted(h, i, t, now)
  {
    if n > 0 {
      CountedPricesZeroIff(h, n - 1, t, now);
    }
  }

  lemma OverlapAtZeroIff(h: History, t: int, now: nat)
    requires Priced(h)
    ensures 0 <= OverlapAt(h, t, now)
    ensures OverlapAt(h, t, now) == 0 <==> SingleAt(h, t, now)
  {
    var last := LastAt(h, t);
    if 0 <= last {
      CountedPricesZeroIff(h, last, t, now);
    }
  }

  lemma {:induction false} OverlapZeroIff(h: History, a: int, b: int, now: nat)
    requires Priced(h)
    ensures 0 <= Overlap(h, a, b, now)
    ensures Overlap(h, a, b, now) == 0 <==> Single(h, a, b, now)
    decreases b - a
  {
    if a < b {
      OverlapZeroIff(h, a, b - 1, now);
      OverlapAtZeroIff(h, b - 1, now);
      assert Single(h, a, b, now) <==> Single(h, a, b - 1, now) && SingleAt(h, b - 1, now);
    }
  }

  /** The loop never adds less than the price in force at each second, and adds exactly that if and
      only if at no second of the window an observation is counted beside a later one. */
  lemma LoopIsPriceSumIff(h: History, start: nat, now: nat)
    requires Priced(h) && start <= now
    ensures PriceSum(h, start, now) <= WeightedSum(h, |h|, start, now)
    ensures WeightedSum(h, |h|, start, now) == PriceSum(h, start, now) <==> Single(h, start, now, now)
  {
    LoopIsPriceSumPlusOverlap(h, start, now);
    OverlapZeroIff(h, start, now, now);
  }

  /** Time stamps that came in order never overlap. */
  lemma OrderedIsSingle(h: History, a: int, b: int, now: nat)
    requires InTimeOrder(h)
    ensures Single(h, a, b, now)
  {
    forall t, i, j | 0 <= i < j < |h| && Counted(h, i, t, now)
      ensures t < h[j].timestamp
    {
      assert h[i + 1].timestamp <= h[j].timestamp;
    }
  }

  // ---- the cap ----

  /** Dropping the oldest entries changes no price in force while a kept one is. */
  lemma {:induction false} SuffixSamePrices(log: History, d: nat, t: int)
    requires d <= |log| && exists i :: d <= i < |log| && log[i].timestamp <= t
    ensures PriceAt(log[d..], t) == PriceAt(log, t)
    decreases |log|
  {
    var n := |log| - 1;
    if log[n].timestamp > t {
      assert log[d..][..n - d] == log[..n][d..];
      SuffixSamePrices(log[..n], d, t);
    }
  }

  lemma {:induction false} SuffixSameSums(log: History, d: nat, i: nat, a: int, b: int)
    requires d <= i < |log| && log[i].timestamp <= a
    ensures PriceSum(log[d..], a, b) == PriceSum(log, a, b)
    decreases b - a
  {
    if a < b {
      SuffixSameSums(log, d, i, a, b - 1);
      SuffixSamePrices(log, d, b - 1);
    }
  }

  /** Whenever the capped history reaches back far enough, it has the full log's prices for the
      whole window. */
  lemma CapChangesNoPrice(log: History, start: nat, now: nat)
    requires Covered(Cap(log), start) && start <= now
    ensures PriceSum(Cap(log), start, now) == PriceSum(log, start, now)
  {
    if |log| > MAX_OBSERVATIONS {
      var d := |log| - MAX_OBSERVATIONS;
      var i :| 0 <= i < |Cap(log)| && Cap(log)[i].timestamp <= start;
      SuffixSameSums(log, d, d + i, start, now);
    }
  }

  /** Capping after every push is the same as capping the whole log. */
  lemma CapThenPush(log: History, o: Observation)
    ensures Cap(Cap(log) + [o]) == Cap(log + [o])
  {
  }

  // ---- bounds ----

  lemma {:induction false} SumBetween(h: History, a: int, b: int, lo: int, hi: int)
    requires a <= b && forall t {:trigger PriceAt(h, t)} :: a <= t < b ==> lo <= PriceAt(h, t) <= hi
    ensures lo * (b - a) <= PriceSum(h, a, b) <= hi * (b - a)
    decreases b - a
  {
    if a < b {
      SumBetween(h, a, b - 1, lo, hi);
      assert lo * (b - a) == lo * (b - 1 - a) + lo && hi * (b - a) == hi * (b - 1 - a) + hi;
    }
  }

  /** On a full window the floored average lies between the least and the greatest price in force. */
  lemma AverageBetween(log: History, lookback: nat, now: nat, lo: int, hi: int)
    requires 0 < lookback <= now
    requires forall t {:trigger PriceAt(log, t)} :: now - lookback <= t < now ==> lo <= PriceAt(log, t) <= hi
    ensures lo <= PriceSum(log, now - lookback, now) / lookback <= hi
  {
    SumBetween(log, now - lookback, now, lo, hi);
    FloorAtLeast(lo, PriceSum(log, now - lookback, now), lookback);
    FloorAtLeast(hi + 1, PriceSum(log, now - lookback, now), lookback);
    assert (hi + 1) * lookback == hi * lookback + lookback;
  }

  /** A price that never changed averages to itself exactly on a full window: a shorter one is
      still divided by the whole lookback. */
  lemma SteadyAverageIff(log: History, lookback: nat, now: nat, price: nat)
    requires 0 < lookback && 0 < price
    requires forall t {:trigger PriceAt(log, t)} :: 0 <= t < now ==> PriceAt(log, t) == price
    ensures PriceSum(log, SaturatingSub(now, lookback), now) / lookback == price <==> now >= lookback
  {
    var start := SaturatingSub(now, lookback);
    SumBetween(log, start, now, price, price);
    if now >= lookback {
      FloorUnique(price * lookback, lookback, price);
    } else {
      MulLe(now + 1, lookback, price);
      FloorAtLeast(price, price * now, lookback);
      assert price * now < price * lookback;
    }
  }
}
