/** The medianizer contract, storage as fields. */
module MedianizerContract {
  import opened Host
  import opened OrderStatistics
  import opened MedianizerModel

  class OracleMedianizer {
    var admin: Address
    var minSources: nat
    var isSource: set<Address>
    var oracleCount: nat
    var feeds: map<FeedKey, Feed>
    var medianPrice: map<Address, int>
    var lastUpdate: map<Address, nat>
    var heartbeat: map<Address, nat>
    var deviationThreshold: map<Address, nat>

    function View(): Oracle
      reads this
    {
      Oracle(admin, minSources, isSource, oracleCount, feeds, medianPrice, lastUpdate, heartbeat, deviationThreshold)
    }

    constructor (admin: Address, minSources: nat)
      ensures View() == Initial(admin, minSources)
    {
      this.admin, this.minSources, isSource, oracleCount := admin, minSources, {}, 0;
      feeds, medianPrice, lastUpdate, heartbeat, deviationThreshold := map[], map[], map[], map[], map[];
    }

    method SubmitPrice(source: Address, asset: Address, price: int, now: nat) returns (r: Result<(), Error>)
      modifies this`feeds
      ensures View() == After(old(View()), MedianizerModel.SubmitPrice(old(View()), source, asset, price, now))
      ensures r == Answer(MedianizerModel.SubmitPrice(old(View()), source, asset, price, now))
    {
      if source !in isSource {
        return Err(NotAuthorizedSource);
      }
      :- Need(price > 0, PriceNotPositive);
      feeds := feeds[(asset, source) := Feed(price, now)];
      return Ok(());
    }

    method AddSource(caller: Address, source: Address) returns (r: Result<(), Error>)
      modifies this`isSource, this`oracleCount
      ensures View() == After(old(View()), MedianizerModel.AddSource(old(View()), caller, source))
      ensures r == Answer(MedianizerModel.AddSource(old(View()), caller, source))
    {
      if caller != admin {
        return Err(Unauthorized);
      }
      :- Need(source !in isSource, SourceExists);
      :- Need(oracleCount < U32_MAX, CountOverflow);
      isSource := isSource + {source};
      oracleCount := oracleCount + 1;
      return Ok(());
    }

    method RemoveSource(caller: Address, source: Address) returns (r: Result<(), Error>)
      modifies this`isSource, this`oracleCount
      ensures View() == After(old(View()), MedianizerModel.RemoveSource(old(View()), caller, source))
      ensures r == Answer(MedianizerModel.RemoveSource(old(View()), caller, source))
    {
      if caller != admin {
        return Err(Unauthorized);
      }
      isSource := isSource - {source};
      if oracleCount > 0 {
        oracleCount := oracleCount - 1;
      }
      return Ok(());
    }

    method SetHeartbeat(caller: Address, asset: Address, seconds: nat) returns (r: Result<(), Error>)
      modifies this`heartbeat
      ensures View() == After(old(View()), MedianizerModel.SetHeartbeat(old(View()), caller, asset, seconds))
      ensures r == Answer(MedianizerModel.SetHeartbeat(old(View()), caller, asset, seconds))
    {
      if caller != admin {
        return Err(Unauthorized);
      }
      heartbeat := heartbeat[asset := seconds];
      return Ok(());
    }

    method SetDeviationThreshold(caller: Address, asset: Address, bps: nat) returns (r: Result<(), Error>)
      modifies this`deviationThreshold
      ensures View() == After(old(View()), MedianizerModel.SetDeviationThreshold(old(View()), caller, asset, bps))
      ensures r == Answer(MedianizerModel.SetDeviationThreshold(old(View()), caller, asset, bps))
    {
      if caller != admin {
        return Err(Unauthorized);
      }
      deviationThreshold := deviationThreshold[asset := bps];
      return Ok(());
    }

    method ShouldUpdatePrice(asset: Address, newPrice: int, now: nat) returns (r: Result<bool, Error>)
      ensures r == ShouldUpdate(View(), asset, newPrice, now)
    {
      if asset in heartbeat {
        var last := if asset in lastUpdate then lastUpdate[asset] else 0;
        :- Need(last + heartbeat[asset] <= U64_MAX, HeartbeatOverflow);
        if now > last + heartbeat[asset] {
          return Ok(true);
        }
      }
      if asset in deviationThreshold && asset in medianPrice && medianPrice[asset] > 0 {
        var oldPrice := medianPrice[asset];
        var deviation := if newPrice > oldPrice then newPrice - oldPrice else oldPrice - newPrice;
        var scaled :- Checked(deviation * 10_000, DeviationOverflow);
        if Quot(scaled, oldPrice) >= deviationThreshold[asset] {
          return Ok(true);
        }
      }
      return Ok(asset !in medianPrice);
    }

    /** Collects, sorts in place, drops the extremes of five or more, and takes the middle. */
    method CalculateMedian(asset: Address, sources: seq<Address>, now: nat) returns (r: Result<int, Error>)
      modifies this`medianPrice, this`lastUpdate
      ensures View() == After(old(View()), MedianizerModel.CalculateMedian(old(View()), asset, sources, now))
      ensures r == Answer(MedianizerModel.CalculateMedian(old(View()), asset, sources, now))
    {
      if |sources| < minSources {
        return Err(MinimumSourcesNotMet);
      }
      var prices := CollectPrices(asset, sources);
      :- Need(|prices| >= minSources, InsufficientFeeds);
      :- Need(|prices| > 0, NoPrices);
      var sorted := SortPrices(prices);
      var median :- MedianOfSorted(sorted);
      var update :- ShouldUpdatePrice(asset, median, now);
      if update {
        medianPrice := medianPrice[asset := median];
        lastUpdate := lastUpdate[asset := now];
      }
      return Ok(median);
    }

    method CollectPrices(asset: Address, sources: seq<Address>) returns (prices: seq<int>)
      ensures prices == Collect(feeds, asset, sources)
    {
      prices := [];
      for i := 0 to |sources|
        invariant prices == Collect(feeds, asset, sources[..i])
      {
        assert sources[..i + 1][..i] == sources[..i];
        if (asset, sources[i]) in feeds {
          prices := prices + [feeds[(asset, sources[i])].price];
        }
      }
      assert sources[..|sources|] == sources;
    }

    /** `sort_prices`: sorts a copy. */
    method SortPrices(prices: seq<int>) returns (sorted: array<int>)
      ensures fresh(sorted) && sorted[..] == Ordered(prices)
    {
      sorted := new int[|prices|](i requires 0 <= i < |prices| => prices[i]);
      assert sorted[..] == prices;
      BubbleSort(sorted);
    }

    /** The trimming and averaging half of `calculate_median`. */
    method MedianOfSorted(sorted: array<int>) returns (r: Result<int, Error>)
      requires sorted.Length > 0
      ensures r == if sorted.Length % 2 == 0 && !IsI128(Middle(sorted[..]).0 + Middle(sorted[..]).1)
                   then Err(MedianOverflow) else Ok(MedianOf(sorted[..]))
    {
      var n := sorted.Length;
      var filtered: seq<int> := [];
      if n >= 5 {
        for i := 1 to n - 1
          invariant filtered == sorted[1..i]
        {
          filtered := filtered + [sorted[i]];
        }
      } else {
        filtered := sorted[..];
      }
      assert filtered == Trimmed(sorted[..]);
      TrimmingChangesNothing(sorted[..]);
      var len := |filtered|;
      if len % 2 == 0 {
        var sum :- Checked(filtered[len / 2 - 1] + filtered[len / 2], MedianOverflow);
        return Ok(Quot(sum, 2));
      }
      return Ok(filtered[len / 2]);
    }
  }
}
