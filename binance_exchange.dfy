/**
 * The Alpha 2.0 part of the Binance exchange class. Unlike the adapter, it
 * sits behind the `enable_savings` feature flag, caches the funding balances
 * for `cache_ttl` seconds (falling back to the stale value when a fetch
 * fails), lets transfer failures propagate, and after a successful transfer
 * resets both balance caches.
 *
 * Requests go through oracles and a ghost trace as in the adapter; `now` is
 * the wall clock in seconds, read once per operation, and every request
 * timestamp is `int(now * 1000 + time_diff)`.
 */
module Exchanges {
  import opened Wire
  import opened Alpha

  /** Python's `int()` on a number: truncation toward zero. */
  function TruncateToInt(x: real): (r: int)
    ensures 0.0 <= x ==> r as real <= x < r as real + 1.0
    ensures x < 0.0 ==> r as real - 1.0 < x <= r as real
  {
    if x >= 0.0 then x.Floor else -((-x).Floor)
  }

  /** The request timestamp: milliseconds of the clock corrected by the measured offset. */
  function AlphaTimestamp(now: real, timeDiff: int): int {
    TruncateToInt(now * 1000.0 + timeDiff as real)
  }

  /** Timestamps never run backwards while the offset stays the same. */
  lemma AlphaTimestampMonotone(now1: real, now2: real, timeDiff: int)
    requires now1 <= now2
    ensures AlphaTimestamp(now1, timeDiff) <= AlphaTimestamp(now2, timeDiff)
  {
    var x1, x2 := now1 * 1000.0 + timeDiff as real, now2 * 1000.0 + timeDiff as real;
    assert x1 <= x2;
  }

  /** With a whole-second clock and a millisecond offset, the timestamp is exact. */
  lemma AlphaTimestampExact(seconds: int, timeDiff: int)
    ensures AlphaTimestamp(seconds as real, timeDiff) == seconds * 1000 + timeDiff
  {
  }

  /** The loop of `_get_alpha_symbol_info`: the first tradable entry, in list order, or `InstrumentNotFound`. */
  method ScanSymbols(info: ExchangeInfo, quoteAsset: string) returns (r: Result<Instrument>)
    ensures r == ResolveInstrument(info, quoteAsset)
  {
    var symbols := SymbolsOf(info);
    var i := 0;
    while i < |symbols|
      invariant 0 <= i <= |symbols|
      invariant forall j | 0 <= j < i :: !Tradable(symbols[j], quoteAsset)
    {
      var symbol := symbols[i];
      if symbol.quoteAsset == Some(quoteAsset) && symbol.status == Some("TRADING") {
        FirstTradableAt(symbols, quoteAsset, i);
        return Ok(symbol);
      }
      i := i + 1;
    }
    return Err(InstrumentNotFound(quoteAsset));
  }

  /** The first tradable entry is the one before which none is tradable. */
  lemma FirstTradableAt(symbols: seq<Instrument>, asset: string, i: nat)
    requires i < |symbols| && Tradable(symbols[i], asset)
    requires forall j | 0 <= j < i :: !Tradable(symbols[j], asset)
    ensures FirstTradable(symbols, asset) == Some(i)
  {
    var k := FirstTradable(symbols, asset);
    assert k.Some?;
    assert !(k.value < i) && !(i < k.value);
  }

  /** `funding_balance_cache`: when the balances were stored and what they were. */
  datatype FundingCache = FundingCache(timestamp: real, data: map<string, real>)

  /** `balance_cache` as this class resets it; its contents are owned by the shared exchange base. */
  datatype BalanceCache = BalanceCache(timestamp: real, data: Option<map<string, real>>)

  /** The value both caches take after a successful transfer. */
  const ClearedFunding: FundingCache := FundingCache(0.0, map[])
  const ClearedBalance: BalanceCache := BalanceCache(0.0, None)

  /** What one funding-balance read returns, the cache it leaves and the requests it issues. */
  datatype FundingRun = FundingRun(balances: map<string, real>, cache: FundingCache, requests: seq<Request>)

  /**
   * One funding-balance read: nothing when the feature is off; the cached
   * data while younger than `ttl`; otherwise one request whose parsed result
   * replaces the cache, or, when the request or the parse fails, the cached
   * data with the cache left as it was.
   */
  function FundingSpec(enabled: bool, ttl: real, cache: FundingCache, now: real, ts: int,
                       reply: Reply<seq<AssetItem>>): FundingRun
  {
    if !enabled then FundingRun(map[], cache, [])
    else if now - cache.timestamp < ttl then FundingRun(cache.data, cache, [])
    else
      var reqs := [GetAlphaAsset(ts, RecvWindow)];
      match FundingRead(reply)
      case Err(_) => FundingRun(cache.data, cache, reqs)
      case Ok(m) => FundingRun(m, FundingCache(now, m), reqs)
  }

  /**
   * With the feature on, a read issues a request exactly when the cache has
   * expired; the cache afterwards holds the balances returned, or is
   * unchanged; a fresh map holds only positive amounts.
   */
  lemma FundingSound(ttl: real, cache: FundingCache, now: real, ts: int, reply: Reply<seq<AssetItem>>)
    ensures var run := FundingSpec(true, ttl, cache, now, ts, reply);
      (run.requests == [] <==> now - cache.timestamp < ttl)
      && (run.requests != [] ==> run.requests == [GetAlphaAsset(ts, RecvWindow)])
      && (run.cache == cache || run.cache == FundingCache(now, run.balances))
      && (run.requests != [] && FundingRead(reply).Ok? ==>
            run.cache == FundingCache(now, run.balances)
            && forall c | c in run.balances :: run.balances[c] > 0.0)
      && (FundingRead(reply).Err? ==> run.balances == cache.data && run.cache == cache)
      && (now - cache.timestamp < ttl ==> run.balances == cache.data && run.cache == cache)
      && (now - cache.timestamp >= ttl && FundingRead(reply).Ok? ==> run.balances == FundingRead(reply).value)
  {
  }

  /** With the feature off, a read returns `{}`, issues nothing and keeps the cache. */
  lemma FundingDisabled(ttl: real, cache: FundingCache, now: real, ts: int, reply: Reply<seq<AssetItem>>)
    ensures FundingSpec(false, ttl, cache, now, ts, reply) == FundingRun(map[], cache, [])
  {
  }

  /** A read within `ttl` of a successful fetch returns the fetched balances without a request. */
  lemma FundingReuse(ttl: real, cache: FundingCache, now1: real, ts1: int, reply1: Reply<seq<AssetItem>>,
                     now2: real, ts2: int, reply2: Reply<seq<AssetItem>>)
    requires FundingSpec(true, ttl, cache, now1, ts1, reply1).requests != [] && FundingRead(reply1).Ok?
    requires now2 - now1 < ttl
    ensures var run1 := FundingSpec(true, ttl, cache, now1, ts1, reply1);
      FundingSpec(true, ttl, run1.cache, now2, ts2, reply2) == FundingRun(run1.balances, run1.cache, [])
  {
  }

  /** After the caches are cleared, the next read (at a clock at least `ttl`) asks the exchange again. */
  lemma ClearedFundingRefetches(ttl: real, now: real, ts: int, reply: Reply<seq<AssetItem>>)
    requires now >= ttl
    ensures FundingSpec(true, ttl, ClearedFunding, now, ts, reply).requests == [GetAlphaAsset(ts, RecvWindow)]
  {
  }

  class BinanceExchange {
    /** `config.enable_savings`: the Alpha 2.0 feature flag. */
    const enableSavings: bool
    /** `cache_ttl` of the exchange base, in seconds. */
    const cacheTtl: real
    /** `time_diff`: the measured offset of the exchange clock, in milliseconds. */
    const timeDiff: int

    var fundingBalanceCache: FundingCache
    var balanceCache: BalanceCache
    /** The catalog cache slot. */
    var alphaExchangeCache: Option<CatalogEntry>
    /** Every request issued so far, oldest first. */
    ghost var requests: seq<Request>

    /** `__init__`: empty funding cache stamped 0, no catalog; the base class's balance cache is given. */
    constructor (enableSavings: bool, cacheTtl: real, timeDiff: int, balanceCache: BalanceCache)
      ensures this.enableSavings == enableSavings && this.cacheTtl == cacheTtl && this.timeDiff == timeDiff
      ensures fundingBalanceCache == FundingCache(0.0, map[]) && this.balanceCache == balanceCache
      ensures alphaExchangeCache == None && requests == []
    {
      this.enableSavings := enableSavings;
      this.cacheTtl := cacheTtl;
      this.timeDiff := timeDiff;
      this.balanceCache := balanceCache;
      fundingBalanceCache := FundingCache(0.0, map[]);
      alphaExchangeCache := None;
      requests := [];
    }

    /** The Alpha wallet balances, cached for `cache_ttl` seconds, stale on failure. */
    method FetchFundingBalance(now: real, reply: Reply<seq<AssetItem>>) returns (balances: map<string, real>)
      modifies this
      ensures var run := FundingSpec(enableSavings, cacheTtl, old(fundingBalanceCache), now, AlphaTimestamp(now, timeDiff), reply);
        balances == run.balances && fundingBalanceCache == run.cache && requests == old(requests) + run.requests
      ensures balanceCache == old(balanceCache) && alphaExchangeCache == old(alphaExchangeCache)
    {
      if !enableSavings {
        return map[];
      }
      if now - fundingBalanceCache.timestamp < cacheTtl {
        return fundingBalanceCache.data;
      }
      requests := requests + [GetAlphaAsset(AlphaTimestamp(now, timeDiff), RecvWindow)];
      if reply.Failed? {
        return fundingBalanceCache.data;
      }
      var parsed := CollectBalances(reply.body);
      if parsed.Err? {
        return fundingBalanceCache.data;
      }
      fundingBalanceCache := FundingCache(now, parsed.value);
      return parsed.value;
    }

    /** The first tradable instrument quoted in `quoteAsset`, from a catalog cached for 30 seconds. */
    method GetAlphaSymbolInfo(quoteAsset: string, now: real, reply: Reply<ExchangeInfo>) returns (r: Result<Instrument>)
      modifies this
      ensures var run := CatalogRead(old(alphaExchangeCache), now, AlphaTimestamp(now, timeDiff), reply);
        r == (match run.result case Err(e) => Err(e) case Ok(info) => ResolveInstrument(info, quoteAsset))
        && alphaExchangeCache == run.cache && requests == old(requests) + run.requests
      ensures fundingBalanceCache == old(fundingBalanceCache) && balanceCache == old(balanceCache)
    {
      var cache := alphaExchangeCache;
      var exchangeInfo;
      if cache.Some? && now - cache.value.fetchedAt < CatalogTtl {
        exchangeInfo := cache.value.info;
      } else {
        requests := requests + [GetExchangeInfo(AlphaTimestamp(now, timeDiff), RecvWindow)];
        if reply.Failed? {
          return Err(NetworkError);
        }
        exchangeInfo := reply.body;
        alphaExchangeCache := Some(CatalogEntry(now, exchangeInfo));
      }
      r := ScanSymbols(exchangeInfo, quoteAsset);
    }

    /** The latest price of `symbol`; a missing or empty price reads as 0. */
    method GetAlphaTickerPrice(symbol: string, now: real, reply: Reply<Ticker>) returns (r: Result<real>)
      modifies this
      ensures r == TickerRead(reply)
      ensures requests == old(requests) + [TickerPrice(symbol, AlphaTimestamp(now, timeDiff), RecvWindow)]
      ensures alphaExchangeCache == old(alphaExchangeCache)
      ensures fundingBalanceCache == old(fundingBalanceCache) && balanceCache == old(balanceCache)
    {
      requests := requests + [TickerPrice(symbol, AlphaTimestamp(now, timeDiff), RecvWindow)];
      if reply.Failed? {
        return Err(NetworkError);
      }
      r := FloatOrZero(reply.body.price);
    }

    /** `_clear_balance_cache`: both balance caches go back to timestamp 0. */
    method ClearBalanceCache()
      modifies this
      ensures balanceCache == ClearedBalance && fundingBalanceCache == ClearedFunding
      ensures alphaExchangeCache == old(alphaExchangeCache) && requests == old(requests)
    {
      balanceCache := BalanceCache(0.0, None);
      fundingBalanceCache := FundingCache(0.0, map[]);
    }

    /**
     * The build steps of a transfer: resolve the instrument, read its price,
     * refuse a price of 0 or less, render the quantity and then the price, and
     * read the base asset. Rendering in the opposite order to the adapter
     * yields the same outcome.
     */
    method BuildAlphaOrder(asset: string, amount: real, now: real,
                           catalogReply: Reply<ExchangeInfo>, tickerReply: Reply<Ticker>)
      returns (r: Result<OrderFields>)
      modifies this
      ensures var run := BuildSpec(old(alphaExchangeCache), now, AlphaTimestamp(now, timeDiff), asset, amount,
                                   catalogReply, tickerReply);
        r == run.result && alphaExchangeCache == run.cache && requests == old(requests) + run.requests
      ensures fundingBalanceCache == old(fundingBalanceCache) && balanceCache == old(balanceCache)
    {
      var symbolInfo :- GetAlphaSymbolInfo(asset, now, catalogReply);
      if symbolInfo.symbol.None? {
        return Err(MissingField("symbol"));
      }
      var symbolName := symbolInfo.symbol.value;
      var priceValue :- GetAlphaTickerPrice(symbolName, now, tickerReply);
      if priceValue <= 0.0 {
        return Err(InvalidPrice(symbolName));
      }
      var quantityValue := amount / priceValue;
      var quantity :- FormatFixed(quantityValue, PrecisionOf(symbolInfo.quantityPrecision));
      var price :- FormatFixed(priceValue, PrecisionOf(symbolInfo.pricePrecision));
      if symbolInfo.baseAsset.None? {
        return Err(MissingField("baseAsset"));
      }
      return Ok(OrderFields(symbolInfo.baseAsset.value, asset, price, quantity));
    }

    /**
     * One transfer on `side`: refuse when the feature is off, build the order,
     * submit it, and on success clear both balance caches; any failure is
     * returned and leaves them as they were.
     */
    method AlphaTransfer(side: Side, asset: string, amount: real, now: real,
                         catalogReply: Reply<ExchangeInfo>, tickerReply: Reply<Ticker>, placeReply: Reply<PlaceAck>)
      returns (r: Result<PlaceAck>)
      modifies this
      ensures !enableSavings ==>
        r == Err(FeatureDisabled) && requests == old(requests) && alphaExchangeCache == old(alphaExchangeCache)
        && fundingBalanceCache == old(fundingBalanceCache) && balanceCache == old(balanceCache)
      ensures enableSavings ==>
        var run := TransferSpec(old(alphaExchangeCache), now, AlphaTimestamp(now, timeDiff), asset, amount, side,
                                catalogReply, tickerReply, placeReply);
        r == run.result && alphaExchangeCache == run.cache && requests == old(requests) + run.requests
      ensures r.Ok? ==> fundingBalanceCache == ClearedFunding && balanceCache == ClearedBalance
      ensures r.Err? ==> fundingBalanceCache == old(fundingBalanceCache) && balanceCache == old(balanceCache)
    {
      if !enableSavings {
        return Err(FeatureDisabled);
      }
      ghost var b := BuildSpec(alphaExchangeCache, now, AlphaTimestamp(now, timeDiff), asset, amount, catalogReply, tickerReply);
      assert TransferSpec(alphaExchangeCache, now, AlphaTimestamp(now, timeDiff), asset, amount, side,
                          catalogReply, tickerReply, placeReply)
          == Submit(b, side, AlphaTimestamp(now, timeDiff), placeReply);
      var built := BuildAlphaOrder(asset, amount, now, catalogReply, tickerReply);
      if built.Err? {
        return Err(built.error);
      }
      var params := PlaceParams(built.value, side, AlphaTimestamp(now, timeDiff));
      requests := requests + [PlaceOrder(params)];
      if placeReply.Failed? {
        return Err(NetworkError);
      }
      ClearBalanceCache();
      return Ok(placeReply.body);
    }

    /** `transfer_to_savings`: a BUY order moves the quote asset into Alpha liquidity. */
    method TransferToSavings(asset: string, amount: real, now: real,
                             catalogReply: Reply<ExchangeInfo>, tickerReply: Reply<Ticker>, placeReply: Reply<PlaceAck>)
      returns (r: Result<PlaceAck>)
      modifies this
      ensures !enableSavings ==>
        r == Err(FeatureDisabled) && requests == old(requests) && alphaExchangeCache == old(alphaExchangeCache)
        && fundingBalanceCache == old(fundingBalanceCache) && balanceCache == old(balanceCache)
      ensures enableSavings ==>
        var run := TransferSpec(old(alphaExchangeCache), now, AlphaTimestamp(now, timeDiff), asset, amount, Buy,
                                catalogReply, tickerReply, placeReply);
        r == run.result && alphaExchangeCache == run.cache && requests == old(requests) + run.requests
      ensures r.Ok? ==> fundingBalanceCache == ClearedFunding && balanceCache == ClearedBalance
      ensures r.Err? ==> fundingBalanceCache == old(fundingBalanceCache) && balanceCache == old(balanceCache)
    {
      r := AlphaTransfer(Buy, asset, amount, now, catalogReply, tickerReply, placeReply);
    }

    /** `transfer_to_spot`: a SELL order moves the position back to the spot wallet. */
    method TransferToSpot(asset: string, amount: real, now: real,
                          catalogReply: Reply<ExchangeInfo>, tickerReply: Reply<Ticker>, placeReply: Reply<PlaceAck>)
      returns (r: Result<PlaceAck>)
      modifies this
      ensures !enableSavings ==>
        r == Err(FeatureDisabled) && requests == old(requests) && alphaExchangeCache == old(alphaExchangeCache)
        && fundingBalanceCache == old(fundingBalanceCache) && balanceCache == old(balanceCache)
      ensures enableSavings ==>
        var run := TransferSpec(old(alphaExchangeCache), now, AlphaTimestamp(now, timeDiff), asset, amount, Sell,
                                catalogReply, tickerReply, placeReply);
        r == run.result && alphaExchangeCache == run.cache && requests == old(requests) + run.requests
      ensures r.Ok? ==> fundingBalanceCache == ClearedFunding && balanceCache == ClearedBalance
      ensures r.Err? ==> fundingBalanceCache == old(fundingBalanceCache) && balanceCache == old(balanceCache)
    {
      r := AlphaTransfer(Sell, asset, amount, now, catalogReply, tickerReply, placeReply);
    }
  }

  /**
   * A successful transfer followed by a funding-balance read at a clock of at
   * least `cache_ttl` makes that read ask the exchange, so the balances
   * reflect the transfer rather than the cache.
   */
  method TransferThenFetch(x: BinanceExchange, asset: string, amount: real, now1: real, now2: real,
                           catalogReply: Reply<ExchangeInfo>, tickerReply: Reply<Ticker>, placeReply: Reply<PlaceAck>,
                           fundingReply: Reply<seq<AssetItem>>)
    returns (transfer: Result<PlaceAck>, balances: map<string, real>)
    requires now2 >= x.cacheTtl
    modifies x
    ensures transfer.Ok? ==>
      |x.requests| > 0 && x.requests[|x.requests| - 1] == GetAlphaAsset(AlphaTimestamp(now2, x.timeDiff), RecvWindow)
      && balances == (match FundingRead(fundingReply) case Ok(m) => m case Err(_) => map[])
  {
    transfer := x.TransferToSavings(asset, amount, now1, catalogReply, tickerReply, placeReply);
    balances := x.FetchFundingBalance(now2, fundingReply);
  }
}
