/** What the medianizer promises about its answer and about the price it keeps. */
module MedianizerTheorems {
  import opened Host
  import opened Arith
  import opened OrderStatistics
  import opened MedianizerModel

  type Feeds = map<FeedKey, Feed>

  // ---- the order of the list does not matter ----

  lemma {:induction false} CollectConcat(feeds: Feeds, asset: Address, a: seq<Address>, b: seq<Address>)
    ensures Collect(feeds, asset, a + b) == Collect(feeds, asset, a) + Collect(feeds, asset, b)
  {
    if b == [] {
      assert a + b == a;
    } else {
      assert (a + b)[..|a + b| - 1] == a + b[..|b| - 1];
      CollectConcat(feeds, asset, a, b[..|b| - 1]);
    }
  }

  /** Taking one source out of the list takes its price out of the collection. */
  lemma CollectWithout(feeds: Feeds, asset: Address, before: seq<Address>, x: Address, after: seq<Address>)
    ensures multiset(Collect(feeds, asset, before + [x] + after))
            == multiset(Collect(feeds, asset, before + after)) + multiset(Collect(feeds, asset, [x]))
  {
    CollectConcat(feeds, asset, before, after);
    CollectConcat(feeds, asset, before + [x], after);
    CollectConcat(feeds, asset, before, [x]);
  }

  lemma WithoutOne(s: seq<Address>, i: nat)
    requires i < |s|
    ensures s == s[..i] + [s[i]] + s[i + 1..]
    ensures multiset(s[..i] + s[i + 1..]) == multiset(s) - multiset{s[i]}
  {
    var without := s[..i] + s[i + 1..];
    assert s == s[..i] + [s[i]] + s[i + 1..];
    assert multiset(s) == multiset(without) + multiset{s[i]};
  }

  lemma {:induction false} ReorderedPrices(feeds: Feeds, asset: Address, a: seq<Address>, b: seq<Address>)
    requires multiset(a) == multiset(b)
    ensures multiset(Collect(feeds, asset, a)) == multiset(Collect(feeds, asset, b))
  {
    if a == [] {
      assert |multiset(b)| == 0;
    } else {
      var x := a[0];
      assert x in multiset(b);
      var i :| 0 <= i < |b| && b[i] == x;
      WithoutOne(a, 0);
      WithoutOne(b, i);
      ReorderedPrices(feeds, asset, a[..0] + a[1..], b[..i] + b[i + 1..]);
      CollectWithout(feeds, asset, a[..0], x, a[1..]);
      CollectWithout(feeds, asset, b[..i], x, b[i + 1..]);
    }
  }

  lemma SameElementsSameOrder(p: seq<int>, q: seq<int>)
    requires multiset(p) == multiset(q)
    ensures Ordered(p) == Ordered(q)
  {
    OrderedElements(p);
    OrderedElements(q);
    SortedUnique(Ordered(p), Ordered(q));
  }

  lemma SameLength(a: seq<Address>, b: seq<Address>)
    requires multiset(a) == multiset(b)
    ensures |a| == |b|
  {
    assert |a| == |multiset(a)| && |b| == |multiset(b)|;
  }

  /** Listing the sources in another order changes nothing: neither the answer or the panic, nor
      what is stored. */
  lemma SourceOrderIrrelevant(o: Oracle, asset: Address, a: seq<Address>, b: seq<Address>, now: nat)
    requires multiset(a) == multiset(b)
    ensures CalculateMedian(o, asset, a, now) == CalculateMedian(o, asset, b, now)
  {
    SameLength(a, b);
    ReorderedPrices(o.feeds, asset, a, b);
    SameElementsSameOrder(Collect(o.feeds, asset, a), Collect(o.feeds, asset, b));
  }

  // ---- higher prices, higher median ----

  /** g reports for the same sources as f, and nowhere less. */
  predicate RaisedFeeds(f: Feeds, g: Feeds) {
    f.Keys == g.Keys && forall k :: k in f ==> f[k].price <= g[k].price
  }

  lemma {:induction false} RaisedPrices(f: Feeds, g: Feeds, asset: Address, sources: seq<Address>)
    requires RaisedFeeds(f, g)
    ensures var p, q := Collect(f, asset, sources), Collect(g, asset, sources);
      |p| == |q| && forall i :: 0 <= i < |p| ==> p[i] <= q[i]
  {
    if sources != [] {
      RaisedPrices(f, g, asset, sources[..|sources| - 1]);
    }
  }

  /** Raising any submitted prices never lowers the answer. */
  lemma AnswerMonotone(o: Oracle, h: Oracle, asset: Address, sources: seq<Address>, now: nat)
    requires RaisedFeeds(o.feeds, h.feeds)
    requires CalculateMedian(o, asset, sources, now).Ok? && CalculateMedian(h, asset, sources, now).Ok?
    ensures CalculateMedian(o, asset, sources, now).value.1 <= CalculateMedian(h, asset, sources, now).value.1
  {
    RaisedPrices(o.feeds, h.feeds, asset, sources);
    MedianMonotone(Collect(o.feeds, asset, sources), Collect(h.feeds, asset, sources));
  }

  /** If more than half of the collected prices lie in a range, so does the answer. */
  lemma AnswerBounded(o: Oracle, asset: Address, sources: seq<Address>, now: nat, lo: int, hi: int)
    requires CalculateMedian(o, asset, sources, now).Ok?
    requires 2 * CountWithin(Collect(o.feeds, asset, sources), lo, hi) > |Collect(o.feeds, asset, sources)|
    ensures lo <= CalculateMedian(o, asset, sources, now).value.1 <= hi
  {
    HonestMajorityBounds(Collect(o.feeds, asset, sources), lo, hi);
  }

  // ---- reachable states ----

  ghost predicate Inv(o: Oracle) {
    && (forall k :: k in o.feeds ==> o.feeds[k].price > 0)
    && (forall a :: a in o.medianPrice ==> o.medianPrice[a] > 0)
  }

  lemma {:induction false} CollectedPositive(feeds: Feeds, asset: Address, sources: seq<Address>)
    requires forall k :: k in feeds ==> feeds[k].price > 0
    ensures forall i :: 0 <= i < |Collect(feeds, asset, sources)| ==> Collect(feeds, asset, sources)[i] > 0
  {
    if sources != [] {
      CollectedPositive(feeds, asset, sources[..|sources| - 1]);
    }
  }

  lemma {:induction false} PositiveCount(p: seq<int>)
    requires forall i :: 0 <= i < |p| ==> p[i] > 0
    ensures CountLe(p, 0) == 0
  {
    if p != [] {
      PositiveCount(p[..|p| - 1]);
    }
  }

  lemma RankPositive(p: seq<int>, k: nat)
    requires k < |p| && CountLe(p, 0) == 0
    ensures Ordered(p)[k] > 0
  {
    OrderedCounts(p, 0);
    RankByCounting(Ordered(p), k, 0);
  }

  lemma PositiveMiddle(s: seq<int>)
    requires s != [] && Middle(s).0 > 0 && Middle(s).1 > 0
    ensures MedianOf(s) > 0
  {
  }

  lemma MedianPositive(p: seq<int>)
    requires p != [] && CountLe(p, 0) == 0
    ensures MedianOf(Ordered(p)) > 0
  {
    RankPositive(p, (|p| - 1) / 2);
    RankPositive(p, |p| / 2);
    PositiveMiddle(Ordered(p));
  }

  lemma AnswerPositive(o: Oracle, asset: Address, sources: seq<Address>, now: nat)
    requires Inv(o) && CalculateMedian(o, asset, sources, now).Ok?
    ensures CalculateMedian(o, asset, sources, now).value.1 > 0
  {
    CollectedPositive(o.feeds, asset, sources);
    PositiveCount(Collect(o.feeds, asset, sources));
    MedianPositive(Collect(o.feeds, asset, sources));
  }

  lemma CalculateStores(o: Oracle, asset: Address, sources: seq<Address>, now: nat)
    requires CalculateMedian(o, asset, sources, now).Ok?
    ensures var (h, median) := CalculateMedian(o, asset, sources, now).value;
      h.feeds == o.feeds && h.isSource == o.isSource && h.oracleCount == o.oracleCount && (h.medianPrice == o.medianPrice || h.medianPrice == o.medianPrice[asset := median])
  {
  }

  lemma CalculateKeeps(o: Oracle, asset: Address, sources: seq<Address>, now: nat)
    requires Inv(o)
    ensures Inv(After(o, CalculateMedian(o, asset, sources, now)))
  {
    if CalculateMedian(o, asset, sources, now).Ok? {
      AnswerPositive(o, asset, sources, now);
      CalculateStores(o, asset, sources, now);
    }
  }

  lemma StepKeeps(o: Oracle, e: Event)
    requires Inv(o)
    ensures Inv(Step(o, e))
  {
    match e.call
    case CalculateCall(asset, sources) => CalculateKeeps(o, asset, sources, e.now);
    case SubmitCall(source, asset, price) =>
    case _ =>
  }

  lemma {:induction false} ReachableInv(admin: Address, minSources: nat, events: seq<Event>)
    ensures Inv(Run(Initial(admin, minSources), events))
  {
    if events != [] {
      ReachableInv(admin, minSources, events[..|events| - 1]);
      StepKeeps(Run(Initial(admin, minSources), events[..|events| - 1]), events[|events| - 1]);
    }
  }

  // ---- the price that is kept ----

  /** In a reachable state a successful calculation leaves behind either its own answer, stamped
      now, or an untouched stored price that is recent enough for the heartbeat, if one is set,
      and closer to the answer than the threshold, if one is set. */
  lemma KeptPriceIsCloseEnough(o: Oracle, asset: Address, sources: seq<Address>, now: nat)
    requires Inv(o) && CalculateMedian(o, asset, sources, now).Ok?
    ensures var (h, median) := CalculateMedian(o, asset, sources, now).value;
      && asset in h.medianPrice
      && var kept := h.medianPrice[asset];
      || (kept == median && asset in h.lastUpdate && h.lastUpdate[asset] == now)
      || (&& h == o
          && (asset in o.heartbeat ==> now <= GetOr(o.lastUpdate, asset, 0) + o.heartbeat[asset])
          && (asset in o.deviationThreshold ==>
                (median - kept) * 10_000 < o.deviationThreshold[asset] * kept && (kept - median) * 10_000 < o.deviationThreshold[asset] * kept))
  {
    var median := CalculateMedian(o, asset, sources, now).value.1;
    if asset in o.medianPrice && asset in o.deviationThreshold {
      var kept, t := o.medianPrice[asset], o.deviationThreshold[asset];
      var moved := if median > kept then median - kept else kept - median;
      FloorAtLeast(t, moved * 10_000, kept);
    }
  }

  // ---- how many sources an answer rests on ----

  /** The distinct sources of the list that have a feed. */
  function Feeding(feeds: Feeds, asset: Address, sources: seq<Address>): set<Address> {
    set s | s in sources && (asset, s) in feeds
  }

  /** No source with a feed is listed twice. */
  predicate ListedOnce(feeds: Feeds, asset: Address, sources: seq<Address>) {
    forall i, j :: 0 <= i < j < |sources| && (asset, sources[i]) in feeds ==> sources[i] != sources[j]
  }

  lemma FeedingOneMore(feeds: Feeds, asset: Address, sources: seq<Address>)
    requires sources != []
    ensures var init, last := sources[..|sources| - 1], sources[|sources| - 1];
      && Feeding(feeds, asset, sources) == Feeding(feeds, asset, init) + (if (asset, last) in feeds then {last} else {})
      && (ListedOnce(feeds, asset, sources) <==> ListedOnce(feeds, asset, init) && last !in Feeding(feeds, asset, init))
  {
    var init, last := sources[..|sources| - 1], sources[|sources| - 1];
    assert sources == init + [last];
    if ListedOnce(feeds, asset, init) && last !in Feeding(feeds, asset, init) {
      forall i, j | 0 <= i < j < |sources| && (asset, sources[i]) in feeds
        ensures sources[i] != sources[j]
      {
        assert sources[i] == init[i] && init[i] in Feeding(feeds, asset, init);
      }
    }
  }

  /** There is a collected price for every feeding source, and no more exactly when none of them
      is listed twice. */
  lemma {:induction false} CollectedPerSource(feeds: Feeds, asset: Address, sources: seq<Address>)
    ensures |Feeding(feeds, asset, sources)| <= |Collect(feeds, asset, sources)|
    ensures |Feeding(feeds, asset, sources)| == |Collect(feeds, asset, sources)| <==> ListedOnce(feeds, asset, sources)
  {
    if sources != [] {
      CollectedPerSource(feeds, asset, sources[..|sources| - 1]);
      FeedingOneMore(feeds, asset, sources);
    }
  }

  /** An answer rests on at least `minSources` prices of the list; they are of that many different
      sources when the list names each once. */
  lemma AnswerRestsOnEnough(o: Oracle, asset: Address, sources: seq<Address>, now: nat)
    requires CalculateMedian(o, asset, sources, now).Ok?
    ensures |Collect(o.feeds, asset, sources)| >= o.minSources
    ensures ListedOnce(o.feeds, asset, sources) ==> |Feeding(o.feeds, asset, sources)| >= o.minSources
  {
    CollectedPerSource(o.feeds, asset, sources);
  }

  lemma RunOfTwo(o: Oracle, a: Event, b: Event)
    ensures Run(o, [a, b]) == Step(Step(o, a), b)
  {
    assert [a, b][..1] == [a] && [a][..0] == [];
    assert Run(o, [a]) == Step(Run(o, []), a);
  }

  /** One source, listed twice, satisfies a minimum of two. */
  lemma OneSourceCountsTwice(admin: Address, source: Address, asset: Address)
    ensures var o := Run(Initial(admin, 2), [Event(0, AddSourceCall(admin, source)), Event(0, SubmitCall(source, asset, 7))]);
      && Feeding(o.feeds, asset, [source, source]) == {source}
      && Answer(CalculateMedian(o, asset, [source, source], 0)) == Ok(7)
  {
    RunOfTwo(Initial(admin, 2), Event(0, AddSourceCall(admin, source)), Event(0, SubmitCall(source, asset, 7)));
    SubmittedOnce(admin, source, asset);
    TwiceTheSame(Run(Initial(admin, 2), [Event(0, AddSourceCall(admin, source)), Event(0, SubmitCall(source, asset, 7))]), source, asset);
  }

  lemma TwiceTheSame(o: Oracle, source: Address, asset: Address)
    requires o.feeds == map[(asset, source) := Feed(7, 0)] && o.minSources == 2 && o.heartbeat == map[] && o.deviationThreshold == map[]
    ensures Feeding(o.feeds, asset, [source, source]) == {source}
    ensures Answer(CalculateMedian(o, asset, [source, source], 0)) == Ok(7)
  {
    CollectTwice(o.feeds, asset, source);
    PairOfSevens(o, asset);
  }

  lemma SubmittedOnce(admin: Address, source: Address, asset: Address)
    ensures Step(Step(Initial(admin, 2), Event(0, AddSourceCall(admin, source))), Event(0, SubmitCall(source, asset, 7)))
            == Oracle(admin, 2, {source}, 1, map[(asset, source) := Feed(7, 0)], map[], map[], map[], map[])
  {
    assert Initial(admin, 2).isSource + {source} == {source};
  }

  lemma PairOfSevens(o: Oracle, asset: Address)
    requires o.minSources == 2 && o.heartbeat == map[] && o.deviationThreshold == map[]
    ensures Answer(UpdateFrom(o, asset, [7, 7], 0)) == Ok(7)
  {
  }

  lemma CollectTwice(feeds: Feeds, asset: Address, source: Address)
    requires feeds == map[(asset, source) := Feed(7, 0)]
    ensures Collect(feeds, asset, [source, source]) == [7, 7] && Ordered([7, 7]) == [7, 7]
  {
    assert [source, source][..1] == [source] && [source][..0] == [];
    assert Collect(feeds, asset, [source]) == [7];
    OrderedElements([7, 7]);
    SortedUnique(Ordered([7, 7]), [7, 7]);
  }

  // ---- sources that were removed ----

  /** The source has been removed, and not added again since. */
  predicate Dismissed(o: Oracle, events: seq<Event>, source: Address) {
    events != [] &&
    var init, last := events[..|events| - 1], events[|events| - 1];
    if last.call == RemoveSourceCall(Run(o, init).admin, source) then true
    else Dismissed(o, init, source) && !Adds(Run(o, init), last.call, source)
  }

  predicate Adds(o: Oracle, c: Call, source: Address) {
    c.AddSourceCall? && c.source == source && AddSource(o, c.caller, source).Ok?
  }

  /** A source that has submitted anything is authorised now exactly when it has not been
      dismissed; and nobody who has been dismissed is. */
  ghost predicate Tracked(o: Oracle, dismissed: bool, source: Address) {
    && (dismissed ==> source !in o.isSource)
    && (!dismissed ==> source in o.isSource || forall asset :: (asset, source) !in o.feeds)
  }

  lemma StepTracked(o: Oracle, e: Event, dismissed: bool, source: Address)
    requires Tracked(o, dismissed, source)
    ensures Tracked(Step(o, e), e.call == RemoveSourceCall(o.admin, source) || (dismissed && !Adds(o, e.call, source)), source)
  {
    match e.call
    case AddSourceCall(caller, s) =>
    case RemoveSourceCall(caller, s) =>
    case SubmitCall(s, asset, price) =>
    case CalculateCall(asset, sources) =>
      if CalculateMedian(o, asset, sources, e.now).Ok? { CalculateStores(o, asset, sources, e.now); }
    case _ =>
  }

  lemma {:induction false} ReachableTracked(admin: Address, minSources: nat, events: seq<Event>, source: Address)
    ensures var o := Initial(admin, minSources); Tracked(Run(o, events), Dismissed(o, events, source), source)
  {
    if events != [] {
      ReachableTracked(admin, minSources, events[..|events| - 1], source);
      StepTracked(Run(Initial(admin, minSources), events[..|events| - 1]), events[|events| - 1],
                  Dismissed(Initial(admin, minSources), events[..|events| - 1], source), source);
    }
  }

  /** The median is promised over registered sources.  In every reachable state the prices of a
      list come from authorised sources only exactly when none of those with a feed has been
      dismissed. */
  lemma AuthorisedOnlyIff(admin: Address, minSources: nat, events: seq<Event>, asset: Address, sources: seq<Address>)
    ensures var o := Initial(admin, minSources); var q := Run(o, events);
      Feeding(q.feeds, asset, sources) <= q.isSource
      <==> forall s :: s in Feeding(q.feeds, asset, sources) ==> !Dismissed(o, events, s)
  {
    var o := Initial(admin, minSources);
    var q := Run(o, events);
    var feeding := Feeding(q.feeds, asset, sources);
    if feeding <= q.isSource {
      forall s | s in feeding
        ensures !Dismissed(o, events, s)
      {
        ReachableTracked(admin, minSources, events, s);
      }
    } else {
      var s :| s in feeding && s !in q.isSource;
      ReachableTracked(admin, minSources, events, s);
      assert Dismissed(o, events, s);
    }
  }

  /** A source that was removed after submitting still answers alone. */
  lemma RemovedSourceStillCounts(admin: Address, source: Address, asset: Address)
    ensures var o := Run(Initial(admin, 1), [Event(0, AddSourceCall(admin, source)), Event(0, SubmitCall(source, asset, 7)), Event(0, RemoveSourceCall(admin, source))]);
      o.isSource == {} && Answer(CalculateMedian(o, asset, [source], 0)) == Ok(7)
  {
    var a, b, c := Event(0, AddSourceCall(admin, source)), Event(0, SubmitCall(source, asset, 7)), Event(0, RemoveSourceCall(admin, source));
    assert [a, b, c][..2] == [a, b];
    RunOfTwo(Initial(admin, 1), a, b);
    var o := Step(Step(Initial(admin, 1), a), b);
    assert o.isSource == {source} && o.feeds == map[(asset, source) := Feed(7, 0)];
    RemovedAlone(Step(o, c), source, asset);
  }

  lemma RemovedAlone(o: Oracle, source: Address, asset: Address)
    requires o.feeds == map[(asset, source) := Feed(7, 0)] && o.minSources == 1 && o.heartbeat == map[] && o.deviationThreshold == map[]
    ensures Answer(CalculateMedian(o, asset, [source], 0)) == Ok(7)
  {
    assert [source][..0] == [];
    assert Collect(o.feeds, asset, [source]) == [7];
    OrderedElements([7]);
    SortedUnique(Ordered([7]), [7]);
  }

  // ---- the stored count of sources ----

  /** The count is right after a removal exactly when there was such a source, or none at all. */
  lemma CountRightIff(o: Oracle, source: Address)
    requires o.oracleCount == |o.isSource|
    ensures var p := Step(o, Event(0, RemoveSourceCall(o.admin, source)));
      p.oracleCount == |p.isSource| <==> source in o.isSource || o.isSource == {}
  {
    if source !in o.isSource {
      assert o.isSource - {source} == o.isSource;
    }
  }

  lemma StepCount(o: Oracle, e: Event)
    requires o.oracleCount <= |o.isSource|
    ensures Step(o, e).oracleCount <= |Step(o, e).isSource|
    ensures !e.call.RemoveSourceCall? && o.oracleCount == |o.isSource| ==> Step(o, e).oracleCount == |Step(o, e).isSource|
  {
    match e.call
    case AddSourceCall(caller, source) => AddCounts(o, caller, source);
    case RemoveSourceCall(caller, source) => RemoveCounts(o, caller, source);
    case _ => OthersKeepSources(o, e);
  }

  lemma AddCounts(o: Oracle, caller: Address, source: Address)
    ensures var p := After(o, AddSource(o, caller, source));
      p.oracleCount - |p.isSource| == o.oracleCount - |o.isSource|
  {
  }

  lemma RemoveCounts(o: Oracle, caller: Address, source: Address)
    requires o.oracleCount <= |o.isSource|
    ensures var p := After(o, RemoveSource(o, caller, source)); p.oracleCount <= |p.isSource|
  {
    if source !in o.isSource {
      assert o.isSource - {source} == o.isSource;
    }
  }

  lemma OthersKeepSources(o: Oracle, e: Event)
    requires !e.call.AddSourceCall? && !e.call.RemoveSourceCall?
    ensures Step(o, e).isSource == o.isSource && Step(o, e).oracleCount == o.oracleCount
  {
    match e.call
    case CalculateCall(asset, sources) => CalculateKeepsSources(o, asset, sources, e.now);
    case _ =>
  }

  lemma CalculateKeepsSources(o: Oracle, asset: Address, sources: seq<Address>, now: nat)
    ensures var p := After(o, CalculateMedian(o, asset, sources, now));
      p.isSource == o.isSource && p.oracleCount == o.oracleCount
  {
    if CalculateMedian(o, asset, sources, now).Ok? {
      CalculateStores(o, asset, sources, now);
    }
  }

  /** Over any run the count never exceeds the number of authorised sources, and is that number
      as long as none is removed. */
  lemma {:induction false} CountNeverTooHigh(admin: Address, minSources: nat, events: seq<Event>)
    ensures var o := Run(Initial(admin, minSources), events);
      && o.oracleCount <= |o.isSource|
      && ((forall i :: 0 <= i < |events| ==> !events[i].call.RemoveSourceCall?) ==> o.oracleCount == |o.isSource|)
  {
    if events != [] {
      CountNeverTooHigh(admin, minSources, events[..|events| - 1]);
      StepCount(Run(Initial(admin, minSources), events[..|events| - 1]), events[|events| - 1]);
    }
  }

  /** One source is added and another, unknown one removed: the count says none. */
  lemma CountTooLow(admin: Address, source: Address, other: Address)
    requires source != other
    ensures var o := Run(Initial(admin, 1), [Event(0, AddSourceCall(admin, source)), Event(0, RemoveSourceCall(admin, other))]);
      o.isSource == {source} && o.oracleCount == 0
  {
    RunOfTwo(Initial(admin, 1), Event(0, AddSourceCall(admin, source)), Event(0, RemoveSourceCall(admin, other)));
  }
}
