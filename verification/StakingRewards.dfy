/** What a position earns: how the schedule of claims matters, and how the size of the pool does. */
module StakingRewards {
  import opened Host
  import opened Arith
  import opened Sums
  import opened StakingModel
  import opened StakingTheorems

  // ---- the emission curve ----

  /** Configurations the contract accepts. */
  predicate Accepted(e: EmissionParams) {
    e.targetCapacity >= 0 && 0 <= e.minMultiplierBps <= e.maxMultiplierBps
  }

  /** Between its configured limits, and never up as the pool fills. */
  lemma EmissionFallsAsPoolFills(e: EmissionParams, total: int, more: int)
    requires Accepted(e) && total <= more && EmissionMultiplier(e, total).Ok? && EmissionMultiplier(e, more).Ok?
    ensures EmissionMultiplier(e, more).value <= EmissionMultiplier(e, total).value
    ensures 0 < e.targetCapacity ==> e.minMultiplierBps <= EmissionMultiplier(e, total).value <= e.maxMultiplierBps
  {
    if 0 < e.targetCapacity {
      FloorLe(Max(total, 0) * BPS, Max(more, 0) * BPS, e.targetCapacity);
    }
  }

  /** At the target the rate is exactly 1x, within the limits. */
  lemma EmissionAtTarget(e: EmissionParams)
    requires Accepted(e) && 0 < e.targetCapacity && EmissionMultiplier(e, e.targetCapacity).Ok?
    ensures EmissionMultiplier(e, e.targetCapacity) == Ok(Min(Max(BPS, e.minMultiplierBps), e.maxMultiplierBps))
  {
    FloorUnique(e.targetCapacity * BPS, e.targetCapacity, BPS);
  }

  /** The doc comment puts an empty pool at the configured maximum.  The curve itself starts at
      2x, so that is true exactly for maxima up to 2x; and without a target capacity the rate is
      always 1x. */
  lemma EmptyPoolAtMaximumIff(e: EmissionParams)
    requires Accepted(e)
    ensures EmissionMultiplier(e, 0) == Ok(e.maxMultiplierBps)
            <==> if e.targetCapacity == 0 then e.maxMultiplierBps == BPS
                 else e.maxMultiplierBps <= 20_000 || e.minMultiplierBps == e.maxMultiplierBps
  {
    if 0 < e.targetCapacity {
      FloorUnique(0, e.targetCapacity, 0);
    }
  }

  /** The default limits are accepted without a target capacity, and an empty pool then runs at 1x. */
  lemma NoTargetNoMaximum(admin: Address)
    ensures var p := Run(Initial(admin, 1, 0), [Event(1, 0, ConfigureCall(admin, Emission(EmissionParams(0, 2_500, 20_000))))]);
      p.params.maxMultiplierBps == 20_000 && p.totalStaked == 0 && EmissionMultiplier(p.params, p.totalStaked) == Ok(10_000)
  {
    RunOneMore(Initial(admin, 1, 0), [], Event(1, 0, ConfigureCall(admin, Emission(EmissionParams(0, 2_500, 20_000)))));
  }

  /** A maximum of 3x is accepted, and an empty pool then runs at 2x. */
  lemma EmptyPoolBelowMaximum(admin: Address)
    ensures var p := Run(Initial(admin, 1, 0), [Event(1, 0, ConfigureCall(admin, Emission(EmissionParams(1_000, 0, 30_000))))]);
      p.params.maxMultiplierBps == 30_000 && p.totalStaked == 0 && EmissionMultiplier(p.params, p.totalStaked) == Ok(20_000)
  {
    RunOneMore(Initial(admin, 1, 0), [], Event(1, 0, ConfigureCall(admin, Emission(EmissionParams(1_000, 0, 30_000)))));
  }

  // ---- accrual as one product ----

  /** The part of a position's accrual that does not depend on time. */
  function Slope(baseRate: int, emissionBps: int, info: StakeInfo): int {
    info.amount * baseRate * info.rateMultiplier * emissionBps
  }

  /** Accrual is the truncated slope times the seconds since the last settlement. */
  lemma AccrualIsSlope(baseRate: int, emissionBps: int, info: StakeInfo, now: nat)
    requires NewRewards(baseRate, emissionBps, info, now).Ok? && 0 < info.lastUpdated <= now
    ensures NewRewards(baseRate, emissionBps, info, now)
            == Ok(Quot(Slope(baseRate, emissionBps, info) * (now - info.lastUpdated), REWARD_DIVISOR))
  {
    var a, s, r, m := info.amount * baseRate, now - info.lastUpdated, info.rateMultiplier, emissionBps;
    if info.amount == 0 {
      assert a == 0 && a * r == 0 && a * r * m == 0;
    } else if s == 0 {
    } else {
      Rearrange(a, s, r, m);
    }
  }

  lemma Rearrange(a: int, s: int, r: int, m: int)
    ensures a * s * r * m == (a * r * m) * s
  {
    assert a * s * r == (a * r) * s;
    assert (a * r) * s * m == (a * r * m) * s;
  }

  // ---- how the pool's size matters ----

  lemma QuotMonotone(a: int, b: int, d: int)
    requires 0 < d && a <= b
    ensures Quot(a, d) <= Quot(b, d)
  {
    if a >= 0 {
      FloorLe(a, b, d);
    } else if b < 0 {
      FloorLe(-b, -a, d);
    } else {
      FloorAtLeast(0, b, d);
      FloorAtLeast(0, -a, d);
    }
  }

  /** A fixed position's pending reward never rises as the pool grows.  (With a negative rate or
      tier multiplier rewards are negative and the comparison turns round.) */
  lemma PendingFallsAsPoolFills(p: Pool, q: Pool, info: StakeInfo, now: nat)
    requires Accepted(p.params) && q == p.(totalStaked := q.totalStaked) && p.totalStaked <= q.totalStaked
    requires 0 <= info.amount
    requires Pending(p, info, now).Ok? && Pending(q, info, now).Ok?
    ensures 0 <= p.baseRate * info.rateMultiplier ==> Pending(q, info, now).value <= Pending(p, info, now).value
    ensures p.baseRate * info.rateMultiplier <= 0 ==> Pending(q, info, now).value >= Pending(p, info, now).value
  {
    var e, f := EmissionMultiplier(p.params, p.totalStaked).value, EmissionMultiplier(p.params, q.totalStaked).value;
    if 0 < info.lastUpdated <= now {
      EmissionFallsAsPoolFills(p.params, p.totalStaked, q.totalStaked);
      AccrualIsSlope(p.baseRate, e, info, now);
      AccrualIsSlope(p.baseRate, f, info, now);
      SlopeOrder(info.amount, p.baseRate, info.rateMultiplier, f, e, now - info.lastUpdated);
    }
  }

  lemma SlopeOrder(amount: nat, rate: int, multiplier: int, f: int, e: int, seconds: nat)
    requires f <= e
    ensures 0 <= rate * multiplier ==>
      Quot((amount * rate * multiplier * f) * seconds, REWARD_DIVISOR) <= Quot((amount * rate * multiplier * e) * seconds, REWARD_DIVISOR)
    ensures rate * multiplier <= 0 ==>
      Quot((amount * rate * multiplier * f) * seconds, REWARD_DIVISOR) >= Quot((amount * rate * multiplier * e) * seconds, REWARD_DIVISOR)
  {
    var k := amount * rate * multiplier;
    assert k == amount * (rate * multiplier);
    if 0 <= rate * multiplier {
      MulLe(0, rate * multiplier, amount);
      ScaledOrder(k, f, e, seconds);
    }
    if rate * multiplier <= 0 {
      MulLe(rate * multiplier, 0, amount);
      NegativeScaledOrder(k, f, e, seconds);
    }
  }

  lemma NegativeScaledOrder(k: int, f: int, e: int, seconds: nat)
    requires f <= e && k <= 0
    ensures Quot((k * e) * seconds, REWARD_DIVISOR) <= Quot((k * f) * seconds, REWARD_DIVISOR)
  {
    MulLe(f, e, -k);
    assert f * (-k) == -(k * f) && e * (-k) == -(k * e);
    MulLe(k * e, k * f, seconds);
    QuotMonotone((k * e) * seconds, (k * f) * seconds, REWARD_DIVISOR);
  }

  lemma ScaledOrder(k: nat, f: int, e: int, seconds: nat)
    requires f <= e
    ensures Quot((k * f) * seconds, REWARD_DIVISOR) <= Quot((k * e) * seconds, REWARD_DIVISOR)
  {
    MulLe(f, e, k);
    assert f * k == k * f && e * k == k * e;
    MulLe(k * f, k * e, seconds);
    QuotMonotone((k * f) * seconds, (k * e) * seconds, REWARD_DIVISOR);
  }

  // ---- how the schedule of claims matters ----

  /** Claims by one user at the given times, with nothing else happening; all must succeed. */
  function Claims(p: Pool, user: Address, times: seq<nat>): Result<(Pool, int), Error> {
    if times == [] then Ok((p, 0))
    else
      var before :- Claims(p, user, times[..|times| - 1]);
      var last :- ClaimRewards(before.0, user, times[|times| - 1]);
      Ok((last.0, before.1 + last.1))
  }

  /** The seconds between settlements. */
  function Gaps(start: nat, times: seq<nat>): seq<int> {
    if times == [] then []
    else Gaps(start, times[..|times| - 1]) + [times[|times| - 1] - (if |times| == 1 then start else times[|times| - 2])]
  }

  predicate Ascending(start: nat, times: seq<nat>) {
    (times != [] ==> start <= times[0]) && forall i, j :: 0 <= i <= j < |times| ==> times[i] <= times[j]
  }

  lemma {:induction false} GapsAddUp(start: nat, times: seq<nat>)
    ensures |Gaps(start, times)| == |times|
    ensures times != [] ==> SeqSum(Gaps(start, times)) == times[|times| - 1] - start
  {
    if times != [] {
      var init := times[..|times| - 1];
      GapsAddUp(start, init);
      assert Gaps(start, times)[..|init|] == Gaps(start, init);
    }
  }

  /** The position and rates a schedule of claims starts from. */
  predicate Earning(p: Pool, user: Address, emission: int) {
    && user in p.stakes && 0 < p.stakes[user].lastUpdated
    && EmissionMultiplier(p.params, p.totalStaked) == Ok(emission)
  }

  function SlopeOf(p: Pool, user: Address, emission: int): int
    requires user in p.stakes
  {
    Slope(p.baseRate, emission, p.stakes[user])
  }

  /** One claim pays what was settled plus the truncated accrual, and resets the position. */
  lemma OneClaim(p: Pool, user: Address, emission: int, now: nat)
    requires Earning(p, user, emission) && p.stakes[user].lastUpdated <= now && ClaimRewards(p, user, now).Ok?
    ensures var (q, paid) := ClaimRewards(p, user, now).value; var info := p.stakes[user];
      && paid == info.accumulatedRewards + Quot(SlopeOf(p, user, emission) * (now - info.lastUpdated), REWARD_DIVISOR)
      && paid > 0
      && Earning(q, user, emission) && SlopeOf(q, user, emission) == SlopeOf(p, user, emission)
      && q.stakes[user].lastUpdated == now && q.stakes[user].accumulatedRewards == 0
  {
    ClaimEffect(p, user, now);
    AccrualIsSlope(p.baseRate, emission, p.stakes[user], now);
  }

  /** A claim that pays out fresh accrual shows the slope to be positive. */
  lemma PayingSlopePositive(slope: int, seconds: nat)
    requires Quot(slope * seconds, REWARD_DIVISOR) > 0
    ensures slope > 0
  {
    if slope <= 0 {
      MulLe(slope, 0, seconds);
      FloorAtLeast(0, -(slope * seconds), REWARD_DIVISOR);
    }
  }

  /** What a schedule of successful claims on a position pays in all. */
  predicate PaidInAll(info: StakeInfo, slope: int, times: seq<nat>, paid: int)
    requires times != []
  {
    && (|times| > 1 ==> slope > 0)
    && (0 <= slope ==> paid == info.accumulatedRewards + FloorParts(slope, REWARD_DIVISOR, Gaps(info.lastUpdated, times)))
    && (|times| == 1 ==> paid == info.accumulatedRewards + Quot(slope * (times[0] - info.lastUpdated), REWARD_DIVISOR))
  }

  lemma FirstClaimPays(info: StakeInfo, slope: int, time: nat)
    requires info.lastUpdated <= time
    ensures PaidInAll(info, slope, [time], info.accumulatedRewards + Quot(slope * (time - info.lastUpdated), REWARD_DIVISOR))
  {
    assert [time][..0] == [];
    assert Gaps(info.lastUpdated, [time]) == [time - info.lastUpdated];
    assert [time - info.lastUpdated][..0] == [];
    if 0 <= slope { MulLe(0, slope, time - info.lastUpdated); }
  }

  lemma NextClaimPays(info: StakeInfo, slope: int, times: seq<nat>, paid: int, seconds: int)
    requires |times| > 1 && 0 <= seconds && times[|times| - 2] + seconds == times[|times| - 1]
    requires PaidInAll(info, slope, times[..|times| - 1], paid) && Quot(slope * seconds, REWARD_DIVISOR) > 0
    ensures PaidInAll(info, slope, times, paid + Quot(slope * seconds, REWARD_DIVISOR))
  {
    var init := times[..|times| - 1];
    GapsAddUp(info.lastUpdated, init);
    assert Gaps(info.lastUpdated, times)[..|init|] == Gaps(info.lastUpdated, init);
    PayingSlopePositive(slope, seconds);
    MulLe(0, slope, seconds);
  }

  /** The state and the sum paid after a schedule of successful claims. */
  lemma {:induction false} ClaimsPay(p: Pool, user: Address, emission: int, times: seq<nat>)
    requires Earning(p, user, emission) && times != [] && Claims(p, user, times).Ok?
    requires Ascending(p.stakes[user].lastUpdated, times)
    ensures var (q, paid) := Claims(p, user, times).value; var slope := SlopeOf(p, user, emission);
      && Earning(q, user, emission) && SlopeOf(q, user, emission) == slope
      && q.stakes[user].lastUpdated == times[|times| - 1] && q.stakes[user].accumulatedRewards == 0
      && PaidInAll(p.stakes[user], slope, times, paid)
  {
    var init, last := times[..|times| - 1], times[|times| - 1];
    var info, slope := p.stakes[user], SlopeOf(p, user, emission);
    if init == [] {
      OneClaim(p, user, emission, last);
      FirstClaimPays(info, slope, last);
      assert times == [last];
    } else {
      ClaimsPay(p, user, emission, init);
      var (mid, paid) := Claims(p, user, init).value;
      assert init[|init| - 1] <= last;
      OneClaim(mid, user, emission, last);
      NextClaimPays(info, slope, times, paid, last - init[|init| - 1]);
    }
  }

  /** Claiming often never pays more than claiming once at the end, and costs at most one unit per
      extra claim.  No sign of the rate is assumed: claims only succeed when they pay. */
  lemma ClaimingOftenCostsLittle(p: Pool, user: Address, times: seq<nat>)
    requires times != [] && Claims(p, user, times).Ok?
    requires user in p.stakes && 0 < p.stakes[user].lastUpdated && Ascending(p.stakes[user].lastUpdated, times)
    requires ClaimRewards(p, user, times[|times| - 1]).Ok?
    ensures var often := Claims(p, user, times).value.1; var once := ClaimRewards(p, user, times[|times| - 1]).value.1;
      often <= once <= often + |times| - 1
  {
    var emission := EmissionMultiplier(p.params, p.totalStaked).value;
    var info, end := p.stakes[user], times[|times| - 1];
    assert times[0] <= end;
    OneClaim(p, user, emission, end);
    ClaimsPay(p, user, emission, times);
    if |times| > 1 {
      GapsAddUp(info.lastUpdated, times);
      PartsVersusWhole(SlopeOf(p, user, emission), Gaps(info.lastUpdated, times));
    }
  }

  lemma PartsVersusWhole(slope: nat, gaps: seq<int>)
    requires gaps != [] && 0 <= SeqSum(gaps)
    ensures FloorParts(slope, REWARD_DIVISOR, gaps) <= Quot(slope * SeqSum(gaps), REWARD_DIVISOR)
            <= FloorParts(slope, REWARD_DIVISOR, gaps) + |gaps| - 1
  {
    MulLe(0, slope, SeqSum(gaps));
    FloorPartsBounds(slope, REWARD_DIVISOR, gaps);
  }

  /** In reachable states a user with something to claim has a settled position, so the previous
      lemma applies to every user who can claim at all. */
  lemma ClaimantIsSettled(admin: Address, baseRate: int, penaltyBps: int, events: seq<Event>, user: Address, now: nat)
    requires InOrder(events) && (events != [] ==> events[|events| - 1].now <= now)
    requires ClaimRewards(Run(Initial(admin, baseRate, penaltyBps), events), user, now).Ok?
    ensures var p := Run(Initial(admin, baseRate, penaltyBps), events);
      user in p.stakes && 0 < p.stakes[user].lastUpdated <= now
  {
    ReachableSettledBy(admin, baseRate, penaltyBps, events, now);
    ClaimantSettled(Run(Initial(admin, baseRate, penaltyBps), events), user, now);
  }

  lemma ClaimantSettled(p: Pool, user: Address, now: nat)
    requires AllSettledBy(p, now) && ClaimRewards(p, user, now).Ok?
    ensures user in p.stakes && 0 < p.stakes[user].lastUpdated <= now
  {
    ClaimEffect(p, user, now);
  }

  /** Adding to a position first settles it at the old pool size: what was pending is still
      pending, to the unit, right after. */
  lemma StakeKeepsPending(p: Pool, user: Address, amount: int, tier: nat, now: nat, ledger: nat)
    requires Stake(p, user, amount, tier, now, ledger).Ok?
    requires var q := Stake(p, user, amount, tier, now, ledger).value.0; Pending(q, InfoOf(q, user), now).Ok?
    ensures var q := Stake(p, user, amount, tier, now, ledger).value.0;
      Pending(q, InfoOf(q, user), now) == Pending(p, InfoOf(p, user), now)
  {
  }

  /** A claim pays exactly what was pending and leaves nothing pending. */
  lemma ClaimTakesPending(p: Pool, user: Address, now: nat)
    requires ClaimRewards(p, user, now).Ok?
    ensures var (q, paid) := ClaimRewards(p, user, now).value;
      Pending(p, InfoOf(p, user), now) == Ok(paid) && Pending(q, InfoOf(q, user), now) == Ok(0)
  {
    ClaimEffect(p, user, now);
  }

  /** The lock counted in ledgers is the shortest that covers the tier's seconds. */
  lemma LockCoversSeconds(lockSeconds: nat, ledgers: nat)
    ensures LockLedgers(lockSeconds) <= ledgers <==> lockSeconds <= ledgers * SECONDS_PER_LEDGER
  {
  }
}
