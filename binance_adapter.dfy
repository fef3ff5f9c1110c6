/**
 * The Alpha 2.0 part of the ccxt-based Binance adapter. The adapter keeps no
 * balance cache; it caches the instrument catalog for 30 seconds, and its
 * transfers report success as a boolean, swallowing every failure.
 *
 * Each request goes through an oracle: the caller supplies the reply the
 * exchange gives (`Reply.Answered` or `Reply.Failed`), and the request is
 * appended to the ghost trace `requests`. `now` is the wall clock in seconds
 * and `nowMs` the client's millisecond clock, one reading per operation.
 */
module ExchangeAdapter {
  import opened Wire
  import opened Alpha

  class BinanceAdapter {
    /** The catalog cache slot: when it was filled and with which `get-exchange-info` answer. */
    var alphaExchangeCache: Option<CatalogEntry>
    /** Every request issued so far, oldest first. */
    ghost var requests: seq<Request>

    /** The state `initialize` leaves: an empty catalog cache and no request yet. */
    constructor ()
      ensures alphaExchangeCache == None && requests == []
    {
      alphaExchangeCache := None;
      requests := [];
    }

    /**
     * The Alpha wallet balances: one `get-alpha-asset` request, parsed into
     * positive amounts by asset code; any failure yields the empty map.
     */
    method FetchFundingBalance(nowMs: int, reply: Reply<seq<AssetItem>>) returns (balances: map<string, real>)
      modifies this
      ensures requests == old(requests) + [GetAlphaAsset(nowMs, RecvWindow)]
      ensures alphaExchangeCache == old(alphaExchangeCache)
      ensures balances == match FundingRead(reply) case Ok(m) => m case Err(_) => map[]
    {
      requests := requests + [GetAlphaAsset(nowMs, RecvWindow)];
      if reply.Failed? {
        return map[];
      }
      var parsed := CollectBalances(reply.body);
      if parsed.Err? {
        return map[];
      }
      return parsed.value;
    }

    /** The catalog, from the cache while it is younger than 30 seconds, else fetched and cached. */
    method GetAlphaExchangeInfo(now: real, nowMs: int, reply: Reply<ExchangeInfo>) returns (r: Result<ExchangeInfo>)
      modifies this
      ensures var run := CatalogRead(old(alphaExchangeCache), now, nowMs, reply);
        r == run.result && alphaExchangeCache == run.cache && requests == old(requests) + run.requests
    {
      var cache := alphaExchangeCache;
      if cache.Some? && now - cache.value.fetchedAt < CatalogTtl {
        return Ok(cache.value.info);
      }
      requests := requests + [GetExchangeInfo(nowMs, RecvWindow)];
      if reply.Failed? {
        return Err(NetworkError);
      }
      alphaExchangeCache := Some(CatalogEntry(now, reply.body));
      return Ok(reply.body);
    }

    /** The latest price of `symbol`; a missing or empty price reads as 0. */
    method GetAlphaTickerPrice(symbol: string, nowMs: int, reply: Reply<Ticker>) returns (r: Result<real>)
      modifies this
      ensures r == TickerRead(reply)
      ensures requests == old(requests) + [TickerPrice(symbol, nowMs, RecvWindow)]
      ensures alphaExchangeCache == old(alphaExchangeCache)
    {
      requests := requests + [TickerPrice(symbol, nowMs, RecvWindow)];
      if reply.Failed? {
        return Err(NetworkError);
      }
      r := FloatOrZero(reply.body.price);
    }

    /** `_build_alpha_order`: base asset, quote asset, price text and quantity text for `amount` of `quoteAsset`. */
    method BuildAlphaOrder(quoteAsset: string, amount: real, now: real, nowMs: int,
                           catalogReply: Reply<ExchangeInfo>, tickerReply: Reply<Ticker>)
      returns (r: Result<OrderFields>)
      modifies this
      ensures var run := BuildSpec(old(alphaExchangeCache), now, nowMs, quoteAsset, amount, catalogReply, tickerReply);
        r == run.result && alphaExchangeCache == run.cache && requests == old(requests) + run.requests
    {
      var info :- GetAlphaExchangeInfo(now, nowMs, catalogReply);
      var symbolInfo :- ResolveInstrument(info, quoteAsset);
      if symbolInfo.symbol.None? {
        return Err(MissingField("symbol"));
      }
      var symbolName := symbolInfo.symbol.value;
      var priceValue :- GetAlphaTickerPrice(symbolName, nowMs, tickerReply);
      if priceValue <= 0.0 {
        return Err(InvalidPrice(symbolName));
      }
      var quantityValue := amount / priceValue;
      var price :- FormatFixed(priceValue, PrecisionOf(symbolInfo.pricePrecision));
      var quantity :- FormatFixed(quantityValue, PrecisionOf(symbolInfo.quantityPrecision));
      if symbolInfo.baseAsset.None? {
        return Err(MissingField("baseAsset"));
      }
      return Ok(OrderFields(symbolInfo.baseAsset.value, quoteAsset, price, quantity));
    }

    /** Build an order and submit it on `side`; true exactly when both steps succeed. */
    method PlaceAlphaOrder(side: Side, asset: string, amount: real, now: real, nowMs: int,
                           catalogReply: Reply<ExchangeInfo>, tickerReply: Reply<Ticker>, placeReply: Reply<PlaceAck>)
      returns (ok: bool)
      modifies this
      ensures var run := TransferSpec(old(alphaExchangeCache), now, nowMs, asset, amount, side, catalogReply, tickerReply, placeReply);
        ok == run.result.Ok? && alphaExchangeCache == run.cache && requests == old(requests) + run.requests
    {
      ghost var b := BuildSpec(alphaExchangeCache, now, nowMs, asset, amount, catalogReply, tickerReply);
      assert TransferSpec(alphaExchangeCache, now, nowMs, asset, amount, side, catalogReply, tickerReply, placeReply)
          == Submit(b, side, nowMs, placeReply);
      var built := BuildAlphaOrder(asset, amount, now, nowMs, catalogReply, tickerReply);
      if built.Err? {
        return false;
      }
      var params := PlaceParams(built.value, side, nowMs);
      requests := requests + [PlaceOrder(params)];
      return placeReply.Answered?;
    }

    /** `transfer_to_funding`: a BUY order moves the quote asset into Alpha liquidity. */
    method TransferToFunding(asset: string, amount: real, now: real, nowMs: int,
                             catalogReply: Reply<ExchangeInfo>, tickerReply: Reply<Ticker>, placeReply: Reply<PlaceAck>)
      returns (ok: bool)
      modifies this
      ensures var run := TransferSpec(old(alphaExchangeCache), now, nowMs, asset, amount, Buy, catalogReply, tickerReply, placeReply);
        ok == run.result.Ok? && alphaExchangeCache == run.cache && requests == old(requests) + run.requests
    {
      ok := PlaceAlphaOrder(Buy, asset, amount, now, nowMs, catalogReply, tickerReply, placeReply);
    }

    /** `transfer_to_spot`: a SELL order moves the position back to the spot wallet. */
    method TransferToSpot(asset: string, amount: real, now: real, nowMs: int,
                          catalogReply: Reply<ExchangeInfo>, tickerReply: Reply<Ticker>, placeReply: Reply<PlaceAck>)
      returns (ok: bool)
      modifies this
      ensures var run := TransferSpec(old(alphaExchangeCache), now, nowMs, asset, amount, Sell, catalogReply, tickerReply, placeReply);
        ok == run.result.Ok? && alphaExchangeCache == run.cache && requests == old(requests) + run.requests
    {
      ok := PlaceAlphaOrder(Sell, asset, amount, now, nowMs, catalogReply, tickerReply, placeReply);
    }
  }
}
