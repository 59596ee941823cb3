/** The time-weighted average price of the oracle consumer: a capped history of observations, and
    an average computed from clipped intervals. */
module TwapModel {
  const MAX_OBSERVATIONS := 24

  datatype Observation = Observation(price: int, timestamp: nat)

  type History = seq<Observation>

  /** Until when observation i was in force: the next observation, or now. */
  function NextTimestamp(h: History, i: nat, now: nat): nat
    requires i < |h|
  {
    if i + 1 < |h| then h[i + 1].timestamp else now
  }

  /** Seconds of [start, now) in which observation i was in force. */
  function Clipped(h: History, i: nat, start: nat, now: nat): nat
    requires i < |h|
  {
    var from := if h[i].timestamp > start then h[i].timestamp else start;
    var to := if NextTimestamp(h, i, now) < now then NextTimestamp(h, i, now) else now;
    if to > from then to - from else 0
  }

  /** The loop's accumulated sum after the first n observations. */
  function WeightedSum(h: History, n: nat, start: nat, now: nat): int
    requires n <= |h|
  {
    if n == 0 then 0 else WeightedSum(h, n - 1, start, now) + h[n - 1].price * Clipped(h, n - 1, start, now)
  }

  predicate Priced(h: History) {
    forall i :: 0 <= i < |h| ==> h[i].price > 0
  }

  predicate Covered(h: History, start: nat) {
    exists i :: 0 <= i < |h| && h[i].timestamp <= start
  }

  /** The last n entries kept by `store_observation`. */
  function Cap(h: History): History {
    if |h| > MAX_OBSERVATIONS then h[|h| - MAX_OBSERVATIONS..] else h
  }

  function SaturatingSub(a: nat, b: nat): nat {
    if a >= b then a - b else 0
  }
}
