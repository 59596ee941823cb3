/** The oracle medianizer: prices submitted per asset and source, and a stored median that is
    replaced when it is old or has moved. */
module MedianizerModel {
  import opened Host
  import opened OrderStatistics

  datatype Error =
    | Unauthorized
    | SourceExists
    | NotAuthorizedSource
    | PriceNotPositive
    | MinimumSourcesNotMet
    | InsufficientFeeds
    | NoPrices
    | MedianOverflow
    | HeartbeatOverflow
    | DeviationOverflow
    | CountOverflow

  datatype Feed = Feed(price: int, timestamp: nat)

  /** A feed is stored under the asset and the source. */
  type FeedKey = (Address, Address)

  datatype Oracle = Oracle(
    admin: Address,
    minSources: nat,
    isSource: set<Address>,
    oracleCount: nat,
    feeds: map<FeedKey, Feed>,
    medianPrice: map<Address, int>,
    lastUpdate: map<Address, nat>,
    heartbeat: map<Address, nat>,
    deviationThreshold: map<Address, nat>)

  function Initial(admin: Address, minSources: nat): Oracle {
    Oracle(admin, minSources, {}, 0, map[], map[], map[], map[], map[])
  }

  /** The prices found for a list of sources, in list order; sources without a feed are skipped. */
  function Collect(feeds: map<FeedKey, Feed>, asset: Address, sources: seq<Address>): seq<int> {
    if sources == [] then []
    else
      var k := (asset, sources[|sources| - 1]);
      Collect(feeds, asset, sources[..|sources| - 1]) + (if k in feeds then [feeds[k].price] else [])
  }

  /** `should_update_price`: the heartbeat has passed, or the price has moved by the threshold,
      or there is no stored price yet. */
  function ShouldUpdate(o: Oracle, asset: Address, price: int, now: nat): Result<bool, Error> {
    var last := GetOr(o.lastUpdate, asset, 0);
    if asset in o.heartbeat && last + o.heartbeat[asset] > U64_MAX then Err(HeartbeatOverflow)
    else if asset in o.heartbeat && now > last + o.heartbeat[asset] then Ok(true)
    else if asset in o.deviationThreshold && asset in o.medianPrice && o.medianPrice[asset] > 0 then
      var before := o.medianPrice[asset];
      var scaled :- Checked((if price > before then price - before else before - price) * 10_000, DeviationOverflow);
      // a stored price always makes the last test of the contract false
      Ok(Quot(scaled, before) >= o.deviationThreshold[asset])
    else Ok(asset !in o.medianPrice)
  }

  /** The second half of `calculate_median`, from the collected prices in ascending order. */
  function UpdateFrom(o: Oracle, asset: Address, s: seq<int>, now: nat): Result<(Oracle, int), Error> {
    if |s| < o.minSources then Err(InsufficientFeeds) else
    if s == [] then Err(NoPrices)
    else if |s| % 2 == 0 && !IsI128(Middle(s).0 + Middle(s).1) then Err(MedianOverflow)
    else
      var median := MedianOf(s);
      var update :- ShouldUpdate(o, asset, median, now);
      Ok((if update then o.(medianPrice := o.medianPrice[asset := median], lastUpdate := o.lastUpdate[asset := now]) else o,
          median))
  }

  /** `calculate_median`, said with the plain median of all collected prices.  That the trimmed
      one is the same is `OrderStatistics.TrimmingChangesNothing`. */
  function CalculateMedian(o: Oracle, asset: Address, sources: seq<Address>, now: nat): Result<(Oracle, int), Error> {
    if |sources| < o.minSources then Err(MinimumSourcesNotMet) else
    UpdateFrom(o, asset, Ordered(Collect(o.feeds, asset, sources)), now)
  }

  function SubmitPrice(o: Oracle, source: Address, asset: Address, price: int, now: nat): Result<(Oracle, ()), Error> {
    if source !in o.isSource then Err(NotAuthorizedSource) else
    :- Need(price > 0, PriceNotPositive);
    Ok((o.(feeds := o.feeds[(asset, source) := Feed(price, now)]), ()))
  }

  function AddSource(o: Oracle, caller: Address, source: Address): Result<(Oracle, ()), Error> {
    if caller != o.admin then Err(Unauthorized) else
    :- Need(source !in o.isSource, SourceExists);
    :- Need(o.oracleCount < U32_MAX, CountOverflow);
    Ok((o.(isSource := o.isSource + {source}, oracleCount := o.oracleCount + 1), ()))
  }

  /** Removing a source keeps the feeds it has submitted, and takes one off the count whether or
      not it was a source. */
  function RemoveSource(o: Oracle, caller: Address, source: Address): Result<(Oracle, ()), Error> {
    if caller != o.admin then Err(Unauthorized) else
    Ok((o.(isSource := o.isSource - {source}, oracleCount := if o.oracleCount > 0 then o.oracleCount - 1 else 0), ()))
  }

  function SetHeartbeat(o: Oracle, caller: Address, asset: Address, seconds: nat): Result<(Oracle, ()), Error> {
    if caller != o.admin then Err(Unauthorized) else
    Ok((o.(heartbeat := o.heartbeat[asset := seconds]), ()))
  }

  function SetDeviationThreshold(o: Oracle, caller: Address, asset: Address, bps: nat): Result<(Oracle, ()), Error> {
    if caller != o.admin then Err(Unauthorized) else
    Ok((o.(deviationThreshold := o.deviationThreshold[asset := bps]), ()))
  }

  datatype Call =
    | SubmitCall(source: Address, asset: Address, price: int)
    | CalculateCall(asset: Address, sources: seq<Address>)
    | AddSourceCall(caller: Address, source: Address)
    | RemoveSourceCall(caller: Address, source: Address)
    | SetHeartbeatCall(caller: Address, asset: Address, seconds: nat)
    | SetDeviationCall(caller: Address, asset: Address, bps: nat)

  datatype Event = Event(now: nat, call: Call)

  function Step(o: Oracle, e: Event): Oracle {
    match e.call
    case SubmitCall(source, asset, price) => After(o, SubmitPrice(o, source, asset, price, e.now))
    case CalculateCall(asset, sources) => After(o, CalculateMedian(o, asset, sources, e.now))
    case AddSourceCall(caller, source) => After(o, AddSource(o, caller, source))
    case RemoveSourceCall(caller, source) => After(o, RemoveSource(o, caller, source))
    case SetHeartbeatCall(caller, asset, seconds) => After(o, SetHeartbeat(o, caller, asset, seconds))
    case SetDeviationCall(caller, asset, bps) => After(o, SetDeviationThreshold(o, caller, asset, bps))
  }

  function Run(o: Oracle, events: seq<Event>): Oracle {
    if events == [] then o else Step(Run(o, events[..|events| - 1]), events[|events| - 1])
  }
}
