/** What a calculation answers and stores, fixed by counting prices, and when each of the other
    calls goes through. */
module MedianizerOutcomes {
  import opened Host
  import opened Arith
  import opened OrderStatistics
  import opened MedianizerModel
  import opened MedianizerTheorems

  // ---- ranks by counting ----

  /** The places of a list that hold at most x. */
  function PlacesUpTo(p: seq<int>, x: int): set<nat> {
    set i: nat | i < |p| && p[i] <= x
  }

  lemma {:induction false} CountIsCardinality(p: seq<int>, x: int)
    ensures CountLe(p, x) == |PlacesUpTo(p, x)|
  {
    if p == [] {
      assert PlacesUpTo(p, x) == {};
    } else {
      var init := p[..|p| - 1];
      CountIsCardinality(init, x);
      assert PlacesUpTo(p, x) == PlacesUpTo(init, x) + (if p[|p| - 1] <= x then {|p| - 1} else {});
    }
  }

  /** x stands at rank k: more than k of the values are at most x, and no more than k are less. */
  predicate AtRank(p: seq<int>, k: nat, x: int) {
    |PlacesUpTo(p, x)| > k >= |PlacesUpTo(p, x - 1)|
  }

  lemma RankIsOrdered(p: seq<int>, k: nat, x: int)
    requires k < |p|
    ensures AtRank(p, k, x) <==> Ordered(p)[k] == x
  {
    CountIsCardinality(p, x);
    CountIsCardinality(p, x - 1);
    OrderedCounts(p, x);
    OrderedCounts(p, x - 1);
    RankByCounting(Ordered(p), k, x);
    RankByCounting(Ordered(p), k, x - 1);
  }

  /** The count behind the honest majority, in places of the list. */
  lemma {:induction false} CountWithinIsCardinality(p: seq<int>, lo: int, hi: int)
    ensures CountWithin(p, lo, hi) == |set i: nat | i < |p| && lo <= p[i] <= hi|
  {
    var places := set i: nat | i < |p| && lo <= p[i] <= hi;
    if p == [] {
      assert places == {};
    } else {
      var init := p[..|p| - 1];
      CountWithinIsCardinality(init, lo, hi);
      var before := set i: nat | i < |init| && lo <= init[i] <= hi;
      assert places == before + (if lo <= p[|p| - 1] <= hi then {|p| - 1} else {});
    }
  }

  // ---- what is collected ----

  /** The listed sources, by place, that have a feed of at most x. */
  function ListedUpTo(feeds: Feeds, asset: Address, sources: seq<Address>, x: int): set<nat> {
    set i: nat | i < |sources| && (asset, sources[i]) in feeds && feeds[(asset, sources[i])].price <= x
  }

  /** Every feed of the asset is collected once for each time its source is listed, and nothing else. */
  lemma {:induction false} CollectedByPlace(feeds: Feeds, asset: Address, sources: seq<Address>, x: int)
    ensures |PlacesUpTo(Collect(feeds, asset, sources), x)| == |ListedUpTo(feeds, asset, sources, x)|
  {
    var p := Collect(feeds, asset, sources);
    CountIsCardinality(p, x);
    if sources == [] {
      assert ListedUpTo(feeds, asset, sources, x) == {};
    } else {
      var init, last := sources[..|sources| - 1], (asset, sources[|sources| - 1]);
      var q := Collect(feeds, asset, init);
      CollectedByPlace(feeds, asset, init, x);
      CountIsCardinality(q, x);
      assert ListedUpTo(feeds, asset, sources, x)
          == ListedUpTo(feeds, asset, init, x) + (if last in feeds && feeds[last].price <= x then {|sources| - 1} else {});
      if last in feeds {
        assert p[..|q|] == q;
      } else {
        assert p == q;
      }
    }
  }

  // ---- the answer ----

  /** The one or two prices in the middle: the same twice for an odd number. */
  predicate AreMiddle(p: seq<int>, x: int, y: int)
    requires p != []
  {
    AtRank(p, (|p| - 1) / 2, x) && AtRank(p, |p| / 2, y)
  }

  /** Half the sum of the middle prices, rounded down, is the median. */
  lemma MedianIs(p: seq<int>, x: int, y: int, m: int)
    requires p != [] && AreMiddle(p, x, y) && 2 * m <= x + y <= 2 * m + 1 && CountLe(p, 0) == 0
    ensures Middle(Ordered(p)) == (x, y) && m == MedianOf(Ordered(p))
  {
    RankIsOrdered(p, (|p| - 1) / 2, x);
    RankIsOrdered(p, |p| / 2, y);
    RankPositive(p, |p| / 2);
    RankPositive(p, (|p| - 1) / 2);
  }

  /** The answer is the middle price, or of an even number of prices half the sum of the two in the
      middle, rounded down. */
  lemma AnswerIsMiddle(o: Oracle, asset: Address, sources: seq<Address>, now: nat, x: int, y: int)
    requires Inv(o) && CalculateMedian(o, asset, sources, now).Ok? && Collect(o.feeds, asset, sources) != []
    requires AreMiddle(Collect(o.feeds, asset, sources), x, y)
    ensures var p, m := Collect(o.feeds, asset, sources), CalculateMedian(o, asset, sources, now).value.1;
      && (|p| % 2 == 1 ==> m == x == y)
      && 2 * m <= x + y <= 2 * m + 1
  {
    var p := Collect(o.feeds, asset, sources);
    CollectedPositive(o.feeds, asset, sources);
    PositiveCount(p);
    RankIsOrdered(p, (|p| - 1) / 2, x);
    RankIsOrdered(p, |p| / 2, y);
    RankPositive(p, |p| / 2);
    RankPositive(p, (|p| - 1) / 2);
    MedianIs(p, x, y, (x + y) / 2);
  }

  /** Two sources that say 10 and 20 make 15. */
  lemma TwoMakeTheirAverage(o: Oracle, asset: Address, a: Address, b: Address)
    requires a != b && o.feeds == map[(asset, a) := Feed(10, 0), (asset, b) := Feed(20, 0)]
    requires o.minSources == 2 && o.heartbeat == map[] && o.deviationThreshold == map[]
    ensures Answer(CalculateMedian(o, asset, [b, a], 0)) == Ok(15)
  {
    CollectPair(o.feeds, asset, a, b);
    TenAndTwenty();
    PairAnswers(o, asset);
  }

  lemma CollectPair(feeds: Feeds, asset: Address, a: Address, b: Address)
    requires a != b && feeds == map[(asset, a) := Feed(10, 0), (asset, b) := Feed(20, 0)]
    ensures Collect(feeds, asset, [b, a]) == [20, 10]
  {
    assert [b, a][..1] == [b] && [b][..0] == [];
    assert Collect(feeds, asset, [b]) == [20];
  }

  lemma TenAndTwenty()
    ensures Ordered([20, 10]) == [10, 20]
  {
    assert [20, 10][..1] == [20] && [20][..0] == [];
    assert Ordered([20]) == [20];
    assert Insert([], 10) == [10];
  }

  lemma PairAnswers(o: Oracle, asset: Address)
    requires o.minSources == 2 && o.heartbeat == map[] && o.deviationThreshold == map[]
    ensures Answer(UpdateFrom(o, asset, [10, 20], 0)) == Ok(15)
  {
  }

  // ---- when it answers, and what it stores ----

  /** The stored price of the asset is due for replacement by this one: there is none, the
      heartbeat is over, or it has moved by the threshold. */
  predicate Due(o: Oracle, asset: Address, price: int, now: nat) {
    || asset !in o.medianPrice
    || (asset in o.heartbeat && now > (if asset in o.lastUpdate then o.lastUpdate[asset] else 0) + o.heartbeat[asset])
    || (asset in o.deviationThreshold
        && Max(price - o.medianPrice[asset], o.medianPrice[asset] - price) * 10_000 >= o.deviationThreshold[asset] * o.medianPrice[asset])
  }

  /** The sums behind that question fit. */
  predicate DueFits(o: Oracle, asset: Address, price: int, now: nat) {
    var last := if asset in o.lastUpdate then o.lastUpdate[asset] else 0;
    && (asset in o.heartbeat ==> last + o.heartbeat[asset] <= U64_MAX)
    && (asset in o.deviationThreshold && asset in o.medianPrice && !(asset in o.heartbeat && now > last + o.heartbeat[asset]) ==>
          IsI128(Max(price - o.medianPrice[asset], o.medianPrice[asset] - price) * 10_000))
  }

  lemma DueIff(o: Oracle, asset: Address, price: int, now: nat)
    requires Inv(o)
    ensures ShouldUpdate(o, asset, price, now).Ok? <==> DueFits(o, asset, price, now)
    ensures ShouldUpdate(o, asset, price, now).Ok? ==> (ShouldUpdate(o, asset, price, now).value <==> Due(o, asset, price, now))
  {
    if asset in o.medianPrice && asset in o.deviationThreshold {
      var kept := o.medianPrice[asset];
      FloorAtLeast(o.deviationThreshold[asset], Max(price - kept, kept - price) * 10_000, kept);
    }
  }

  /** A calculation answers exactly when enough sources are listed and have feeds, and the sums
      fit.  The answer is half the sum of the middle prices; it is stored, stamped now, exactly when
      that is due, and nothing else changes. */
  lemma CalculateOutcome(o: Oracle, asset: Address, sources: seq<Address>, now: nat, x: int, y: int, m: int)
    requires Inv(o) && 2 * m <= x + y <= 2 * m + 1
    requires Collect(o.feeds, asset, sources) != [] ==> AreMiddle(Collect(o.feeds, asset, sources), x, y)
    ensures var p, r := Collect(o.feeds, asset, sources), CalculateMedian(o, asset, sources, now);
      && (r.Ok? <==>
            && |sources| >= o.minSources && |p| >= o.minSources && p != []
            && (|p| % 2 == 0 ==> IsI128(x + y)) && DueFits(o, asset, m, now))
      && (r.Ok? ==> r.value == (if Due(o, asset, m, now)
                                then o.(medianPrice := o.medianPrice[asset := m], lastUpdate := o.lastUpdate[asset := now]) else o, m))
  {
    var p := Collect(o.feeds, asset, sources);
    if p != [] {
      CollectedPositive(o.feeds, asset, sources);
      PositiveCount(p);
      MedianIs(p, x, y, m);
      UpdateOutcome(o, asset, Ordered(p), now, m);
    }
  }

  lemma UpdateOutcome(o: Oracle, asset: Address, s: seq<int>, now: nat, m: int)
    requires Inv(o) && s != [] && m == MedianOf(s)
    ensures var r := UpdateFrom(o, asset, s, now);
      && (r.Ok? <==> |s| >= o.minSources && (|s| % 2 == 0 ==> IsI128(Middle(s).0 + Middle(s).1)) && DueFits(o, asset, m, now))
      && (r.Ok? ==> r.value == (if Due(o, asset, m, now)
                                then o.(medianPrice := o.medianPrice[asset := m], lastUpdate := o.lastUpdate[asset := now]) else o, m))
  {
    DueIff(o, asset, m, now);
  }

  // ---- the other calls ----

  lemma SubmitOutcome(o: Oracle, source: Address, asset: Address, price: int, now: nat)
    ensures var r := SubmitPrice(o, source, asset, price, now);
      && (r.Ok? <==> source in o.isSource && 0 < price)
      && (r.Ok? ==> r.value.0 == o.(feeds := o.feeds[(asset, source) := Feed(price, now)]))
  {
  }

  lemma AddSourceOutcome(o: Oracle, caller: Address, source: Address)
    ensures var r := AddSource(o, caller, source);
      && (r.Ok? <==> caller == o.admin && source !in o.isSource && o.oracleCount < U32_MAX)
      && (r.Ok? ==> r.value.0 == o.(isSource := o.isSource + {source}, oracleCount := o.oracleCount + 1))
  {
  }

  lemma RemoveSourceOutcome(o: Oracle, caller: Address, source: Address)
    ensures var r := RemoveSource(o, caller, source);
      && (r.Ok? <==> caller == o.admin)
      && (r.Ok? ==> r.value.0 == o.(isSource := o.isSource - {source}, oracleCount := Max(o.oracleCount - 1, 0)))
  {
  }

  lemma SettingOutcome(o: Oracle, caller: Address, asset: Address, n: nat)
    ensures SetHeartbeat(o, caller, asset, n).Ok? <==> caller == o.admin
    ensures SetDeviationThreshold(o, caller, asset, n).Ok? <==> caller == o.admin
    ensures caller == o.admin ==>
              && SetHeartbeat(o, caller, asset, n).value.0 == o.(heartbeat := o.heartbeat[asset := n])
              && SetDeviationThreshold(o, caller, asset, n).value.0 == o.(deviationThreshold := o.deviationThreshold[asset := n])
  {
  }

  /** A new contract has no sources, no prices and no settings. */
  lemma InitialOutcome(admin: Address, minSources: nat)
    ensures var o := Initial(admin, minSources);
      && o.admin == admin && o.minSources == minSources && o.isSource == {} && o.oracleCount == 0 && o.feeds == map[]
      && o.medianPrice == map[] && o.lastUpdate == map[] && o.heartbeat == map[] && o.deviationThreshold == map[]
  {
  }

  // ---- a run ----

  /** One source submits 7; the calculation stores it, stamped with its time. */
  lemma StoredRun(admin: Address, source: Address, asset: Address)
    ensures var o := Run(Initial(admin, 1), [Event(0, AddSourceCall(admin, source)), Event(0, SubmitCall(source, asset, 7)), Event(3, CalculateCall(asset, [source]))]);
      o.medianPrice == map[asset := 7] && o.lastUpdate == map[asset := 3]
  {
    var a, b, c := Event(0, AddSourceCall(admin, source)), Event(0, SubmitCall(source, asset, 7)), Event(3, CalculateCall(asset, [source]));
    assert [a, b, c][..2] == [a, b];
    RunOfTwo(Initial(admin, 1), a, b);
    var o := Step(Step(Initial(admin, 1), a), b);
    assert o.feeds == map[(asset, source) := Feed(7, 0)] && o.minSources == 1;
    StoresSeven(o, source, asset);
  }

  lemma StoresSeven(o: Oracle, source: Address, asset: Address)
    requires o.feeds == map[(asset, source) := Feed(7, 0)] && o.minSources == 1
    requires o.medianPrice == map[] && o.lastUpdate == map[] && o.heartbeat == map[] && o.deviationThreshold == map[]
    ensures var p := Step(o, Event(3, CalculateCall(asset, [source])));
      p.medianPrice == map[asset := 7] && p.lastUpdate == map[asset := 3]
  {
    assert [source][..0] == [];
    assert Collect(o.feeds, asset, [source]) == [7];
    SevenAlone();
    CalculateOutcome(o, asset, [source], 3, 7, 7, 7);
  }

  lemma SevenAlone()
    ensures AreMiddle([7], 7, 7)
  {
    assert PlacesUpTo([7], 7) == {0} && PlacesUpTo([7], 6) == {};
  }

  /** The settings that the admin's calls leave. */
  lemma SettingsRun(admin: Address, asset: Address)
    ensures var o := Run(Initial(admin, 1), [Event(0, SetHeartbeatCall(admin, asset, 60)), Event(0, SetDeviationCall(admin, asset, 50))]);
      o.heartbeat == map[asset := 60] && o.deviationThreshold == map[asset := 50]
  {
    RunOfTwo(Initial(admin, 1), Event(0, SetHeartbeatCall(admin, asset, 60)), Event(0, SetDeviationCall(admin, asset, 50)));
  }
}
