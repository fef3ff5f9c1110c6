# Alpha 2.0 liquidity transfers, modelled in Dafny

The repository moves funds between the Binance spot wallet and the Alpha 2.0
liquidity wallet by placing BUY or SELL orders against a special instrument.
The logic lives in two classes:

- the ccxt-based adapter `BinanceAdapter` (`src/core/exchange/binance_adapter.py`);
- the exchange class `BinanceExchange` (`src/core/exchanges/binance.py`).

Both classes do the same things:

- resolve the first TRADING instrument quoted in the settlement asset, from an
  instrument catalog cached for 30 seconds;
- read its ticker price and refuse a price of 0 or less;
- render price and quantity (`amount / price`) as fixed-point text at the
  instrument precisions, with 8 as the default;
- submit the order;
- parse the Alpha wallet balances.

They differ in seven ways:

- `BinanceExchange` sits behind the `enable_savings` flag.
- `BinanceExchange` caches the balances for `cache_ttl` seconds and falls back
  to the stale value when a fetch fails. The adapter returns `{}` instead.
- `BinanceExchange` clears both balance caches after a successful transfer.
- A successful transfer returns `True` from the adapter. `BinanceExchange`
  returns the exchange's acknowledgement.
- `BinanceExchange` propagates transfer errors. The adapter turns them into
  `False`.
- The request timestamp differs. The adapter uses the ccxt client's
  `milliseconds()` clock. `BinanceExchange` uses `int(time.time() * 1000 +
  time_diff)`, with the server offset added and truncated toward zero.
- The rendering order differs. The adapter renders the price before the
  quantity. `BinanceExchange` renders the quantity first.

The model is sequential. Every network request is an oracle: the caller passes
in the exchange's reply (`Reply.Answered(body)` or `Reply.Failed`), and the
method appends the request to a ghost trace `requests`. Timestamps, endpoint
paths and parameters are part of each trace entry. The clock is an input.

Files:

- `wire.dfy` (`Wire`): typed response records, the error kinds and the request
  trace entries.
- `decimal.dfy` (`Decimal`): Python's `format(v, '.Nf')` on exact values, and
  `float()` on decimal text. `FormatDenotes` connects them: reading a rendering
  back yields the rounded value.
- `alpha.dfy` (`Alpha`): the logic both classes share, as functions, plus the
  balance loop. It covers:
  - field readings;
  - the balance map;
  - first-match resolution;
  - the catalog cache policy (`CatalogRead`);
  - the order build (`BuildSpec`) and a transfer (`TransferSpec`).
- `binance_adapter.dfy` (`ExchangeAdapter`): the adapter class. Its methods
  update the catalog cache and the trace, and are proved equal to the shared
  functions.
- `binance_exchange.dfy` (`Exchanges`): the exchange class. It includes:
  - the funding-balance cache (`FundingSpec`);
  - timestamp truncation;
  - the catalog-scan loop;
  - the transfer methods that clear the caches.
- `scenarios.dfy` (`Scenarios`): worked examples proved about the model, on the
  inputs of the repository's unit tests and on a few further worked examples.

## Model

| member | source | states |
|---|---|---|
| Decimal.RoundHalfEven | src/core/exchange/binance_adapter.py:279-281 | the integer the rendering scales to is within 0.5 of the scaled value, and an exact tie goes to the even neighbour |
| Decimal.FormatShape | src/core/exchange/binance_adapter.py:279-281 | `format(v, '.Nf')` gives an optional '-' and then digits. With N > 0 the digits are followed by '.' and exactly N more digits. With N = 0 there is no point. There is never an exponent |
| Decimal.FormatDenotes | src/core/exchange/binance_adapter.py:279-281 | reading the rendering back as a decimal numeral gives exactly the sign, whole part and N-digit fraction of the rounded scaled value |
| Decimal.RenderedValue | src/core/exchange/binance_adapter.py:279-281 | the numeral a rendering denotes has the value of `v` rounded to N fractional digits |
| Decimal.RoundedClose | src/core/exchange/binance_adapter.py:279-281 | the rounded value is within half a unit in the N-th fractional place of `v` |
| Alpha.FloatOrZero | src/core/exchange/binance_adapter.py:247 | `float(d.get(k, 0) or 0)`: an absent or falsy field reads 0, a number reads as itself, `True` reads 1. Text reads as the decimal it spells. It fails (InvalidNumber) exactly on non-empty text that is not a decimal numeral |
| Alpha.FormatFixed | src/core/exchange/binance_adapter.py:279-281 | the f-string raises (InvalidPrecision) exactly when the precision is negative |
| Alpha.FormatFixedSound | src/core/exchanges/binance.py:244-246 | for any non-negative precision the rendering succeeds. It has fixed-point shape with exactly `precision` fractional digits, it parses as the numeral of the rounded value, and `float()` of it is `value` rounded to that precision (the same one-liner as the adapter's helper) |
| Alpha.AssetCode | src/core/exchange/binance_adapter.py:158-160 | the code is `cexAssetCode` when it is non-empty, else `alphaId` when it is non-empty, else there is none (the item is skipped). It is never empty |
| Alpha.BalancesOf | src/core/exchange/binance_adapter.py:156-164 | a successful parse holds only positive amounts |
| Alpha.BalancesErrSticky | src/core/exchange/binance_adapter.py:157-161 | an exception raised on one item ends the whole parse with that error |
| Alpha.BalancesErrIff | src/core/exchange/binance_adapter.py:157-161 | the parse fails exactly when some item that has a code carries an amount `float()` refuses, and the error is InvalidNumber |
| Alpha.BalancesKeys | src/core/exchange/binance_adapter.py:157-164 | a successful parse maps code `c` exactly when some item is counted under `c` (it has the code and an amount > 0) |
| Alpha.BalancesKeysAll | src/core/exchange/binance_adapter.py:157-164 | the same key characterisation, for every code at once |
| Alpha.BalancesLastWins | src/core/exchange/binance_adapter.py:157-164 | the value under a mapped code is the amount of the last item counted under it, so later positive items overwrite earlier ones and zero items never erase |
| Alpha.CollectBalances | src/core/exchanges/binance.py:104-111 | the loop over the response, with an early exit on an unreadable amount, computes exactly `BalancesOf` |
| Alpha.FundingRead | src/core/exchange/binance_adapter.py:150-164 | a failed request yields NetworkError. An answered one fails, with InvalidNumber, exactly when some item with a code has an amount `float()` refuses. Otherwise every value is positive and a code is mapped exactly when some item is counted under it |
| Alpha.FirstTradable | src/core/exchange/binance_adapter.py:253-259 | returns the index of an entry with `quoteAsset == asset` and `status == 'TRADING'` that comes before every other such entry, or none when no entry qualifies |
| Alpha.ResolveInstrument | src/core/exchange/binance_adapter.py:251-262 | succeeds exactly when some catalog entry is tradable for the asset, and then returns the first one in list order. A missing `symbols` list counts as empty. Otherwise it fails with InstrumentNotFound(asset) |
| Alpha.CatalogReadSound | src/core/exchange/binance_adapter.py:220-235 | a read issues a request exactly when the cache is absent or at least 30 s old. A fresh hit returns the cached catalog and leaves the cache as it was. One read issues at most one `get-exchange-info` request. A successful read leaves the cache holding what it returned, and a fetched answer is cached as (now, info). A read fails exactly when it had to fetch and the request failed, and then the cache is unchanged |
| Alpha.CatalogReuse | src/core/exchange/binance_adapter.py:223-224 | after a successful read, a second read less than 30 s later makes the two issue at most one request between them. If the first one fetched, the second returns the same catalog without a request |
| Alpha.CatalogExpires | src/core/exchanges/binance.py:213-225 | a catalog fetched at t is fetched again by any read at t + 30 s or later |
| Alpha.TickerRead | src/core/exchange/binance_adapter.py:237-247 | a failed request yields NetworkError. An absent or falsy price reads 0 and a numeric one reads as itself. It fails exactly when the request failed or the price is non-empty text that is not a decimal numeral; an answered failure is InvalidNumber |
| Alpha.MissingPriceIsZero | src/core/exchange/binance_adapter.py:247 | a ticker whose price is absent, null or empty text reads as 0 |
| Alpha.BuildSound | src/core/exchange/binance_adapter.py:249-277 | a built order comes from a successful catalog read and the first tradable instrument. That instrument has a `symbol`, its ticker price is positive, and the base asset is the instrument's. The quote asset is the caller's asset. Price and quantity `amount / price` are rendered at the instrument precisions (default 8). The build issued exactly the catalog read's requests and one ticker request for the instrument's symbol |
| Alpha.BuildOnlyReads | src/core/exchange/binance_adapter.py:249-277 | building issues at most two requests, and none is an order placement; all are GETs |
| Alpha.BuildFailures | src/core/exchange/binance_adapter.py:261-267 | when no instrument is tradable, the build fails with InstrumentNotFound and issues no ticker request. When the ticker price is 0 or less, the build fails with InvalidPrice for the instrument's symbol |
| Alpha.BuildKeepsCatalog | src/core/exchanges/binance.py:214-231 | when the catalog had to be fetched and the fetch was answered, the build leaves (now, info) in the cache whatever happens after the lookup, even when no instrument matches |
| Alpha.Placements | src/core/exchange/binance_adapter.py:186-188 | counts the order placements in a trace; it is zero exactly when the trace holds none |
| Alpha.TransferPlacesOnce | src/core/exchange/binance_adapter.py:170-193 | a transfer submits exactly one order when the build succeeds and none otherwise. That order is a POST to `v1/alpha-trade/order/place`, it is the last request, and it carries the built fields, the side and the timestamp. The transfer succeeds exactly when both the build and the submission do. A failed build's error is the transfer's |
| Alpha.SubmitPlacesOnce | src/core/exchange/binance_adapter.py:176-190 | the submission step on its own: for any build whose requests place nothing, it adds exactly one POST to `v1/alpha-trade/order/place` after a successful build and none after a failed one |
| Alpha.TransferOrderSound | src/core/exchanges/binance.py:125-147 | any order a transfer submits has the transfer's side, `recvWindow` 5000, the call's timestamp and the caller's quote asset. Its base asset is the first tradable instrument's, and its price and quantity are rendered from the positive ticker price |
| ExchangeAdapter.BinanceAdapter.constructor | src/core/exchange/binance_adapter.py:43-47 | `initialize` leaves the catalog cache empty; the trace starts empty |
| ExchangeAdapter.BinanceAdapter.FetchFundingBalance | src/core/exchange/binance_adapter.py:145-168 | one `get-alpha-asset` request with the client timestamp and `recvWindow` 5000. It returns the balance parse of the answer, and `{}` when the request fails or the parse raises. The catalog cache is untouched |
| ExchangeAdapter.BinanceAdapter.GetAlphaExchangeInfo | src/core/exchange/binance_adapter.py:220-235 | result, new cache and requests are those of `CatalogRead` on the old cache |
| ExchangeAdapter.BinanceAdapter.GetAlphaTickerPrice | src/core/exchange/binance_adapter.py:237-247 | one ticker request for the symbol; the price is `TickerRead` of the reply |
| ExchangeAdapter.BinanceAdapter.BuildAlphaOrder | src/core/exchange/binance_adapter.py:249-277 | the step-by-step build (price rendered before quantity) yields exactly `BuildSpec`'s result, cache and requests |
| ExchangeAdapter.BinanceAdapter.PlaceAlphaOrder | src/core/exchange/binance_adapter.py:170-218 | build then submit: it returns true exactly when `TransferSpec` succeeds, with its cache and requests; every failure becomes false |
| ExchangeAdapter.BinanceAdapter.TransferToFunding | src/core/exchange/binance_adapter.py:170-193 | the transfer on side BUY, true exactly when build and submission succeed |
| ExchangeAdapter.BinanceAdapter.TransferToSpot | src/core/exchange/binance_adapter.py:195-218 | the transfer on side SELL, true exactly when build and submission succeed |
| Exchanges.TruncateToInt | src/core/exchanges/binance.py:97 | `int(x)` truncates toward zero: for x >= 0 the result is the largest integer not above x, for x < 0 the smallest not below it |
| Exchanges.AlphaTimestampMonotone | src/core/exchanges/binance.py:97 | with a fixed offset, a later clock never gives an earlier request timestamp |
| Exchanges.AlphaTimestampExact | src/core/exchanges/binance.py:145 | with a whole-second clock, the timestamp is `now * 1000 + time_diff` exactly |
| Exchanges.ScanSymbols | src/core/exchanges/binance.py:227-231 | the loop with an early return yields exactly `ResolveInstrument`: the first tradable entry, or InstrumentNotFound |
| Exchanges.FirstTradableAt | src/core/exchanges/binance.py:227-229 | a tradable entry with no tradable entry before it is the first match |
| Exchanges.FundingSound | src/core/exchanges/binance.py:86-118 | with the feature on, a read issues at most the one `get-alpha-asset` request, and issues it exactly when `now - timestamp >= cache_ttl`. After the read the cache is unchanged or holds (now, balances). A successful fetch replaces it wholesale with (now, balances) of positive amounts. A failed fetch or parse returns the cached data and keeps the cache, and so does a hit within `cache_ttl` |
| Exchanges.FundingDisabled | src/core/exchanges/binance.py:88-89 | with `enable_savings` off, a read returns `{}`, issues no request and keeps the cache |
| Exchanges.FundingReuse | src/core/exchanges/binance.py:91-93 | a read less than `cache_ttl` after a successful fetch returns the fetched balances with no request |
| Exchanges.ClearedFundingRefetches | src/core/exchanges/binance.py:248-251 | once the funding cache is reset to timestamp 0, a read at a clock of at least `cache_ttl` issues a request |
| Exchanges.BinanceExchange.constructor | src/core/exchanges/binance.py:36-50 | funding cache `{timestamp: 0, data: {}}`, no catalog, configuration fixed, the base class's balance cache as given, and an empty trace |
| Exchanges.BinanceExchange.FetchFundingBalance | src/core/exchanges/binance.py:86-118 | result, new funding cache and requests are those of `FundingSpec`, with timestamp `int(now*1000 + time_diff)`; the other caches are untouched |
| Exchanges.BinanceExchange.GetAlphaSymbolInfo | src/core/exchanges/binance.py:212-231 | the catalog read of `CatalogRead` (stored before the scan), then the scan's first match or InstrumentNotFound; balance caches untouched |
| Exchanges.BinanceExchange.GetAlphaTickerPrice | src/core/exchanges/binance.py:233-242 | one ticker request with the corrected timestamp; the price is `TickerRead` of the reply |
| Exchanges.BinanceExchange.ClearBalanceCache | src/core/exchanges/binance.py:248-251 | `balance_cache` becomes `{timestamp: 0, data: None}` and `funding_balance_cache` `{timestamp: 0, data: {}}`; nothing else changes |
| Exchanges.BinanceExchange.BuildAlphaOrder | src/core/exchanges/binance.py:125-147 | the build steps in this file's order (quantity rendered before price) yield exactly `BuildSpec`'s result, cache and requests; balance caches untouched |
| Exchanges.BinanceExchange.AlphaTransfer | src/core/exchanges/binance.py:120-206 | with the flag off: FeatureDisabled, no request, no state change. Otherwise the result, catalog cache and requests are `TransferSpec`'s on the given side. On success both balance caches are cleared; on any failure they are unchanged |
| Exchanges.BinanceExchange.TransferToSavings | src/core/exchanges/binance.py:120-162 | `AlphaTransfer`'s contract on side BUY |
| Exchanges.BinanceExchange.TransferToSpot | src/core/exchanges/binance.py:164-206 | `AlphaTransfer`'s contract on side SELL |
| Exchanges.TransferThenFetch | src/core/exchanges/binance.py:91-93 | after a successful transfer, a balance read at a clock of at least `cache_ttl` asks the exchange (its last request is `get-alpha-asset`). It returns the fresh parse, or the cleared `{}` when that fetch fails |
| Scenarios.BalanceExample | tests/unit/test_exchange_client.py:196-211 | the assets USDT "800", ALPHA_1 (by `alphaId`) "12.5" and ZERO "0" parse to {USDT: 800, ALPHA_1: 12.5} |
| Scenarios.FormatExamples | tests/unit/test_exchange_client.py:317-342 | 0.5 at precision 4 renders "0.5000"; 2001 at precision 3 renders "2001.000" |
| Scenarios.BalancesStep | src/core/exchange/binance_adapter.py:157-164 | parsing one more item extends a successful parse by exactly that item's effect on the map |
| Scenarios.AlphaOneBuild | tests/unit/test_exchange_client.py:317-342 | with an empty cache, the build for 1000.5 USDT at ticker "0.5000" yields base ALPHA_1, price "0.5000" and quantity "2001.000", caches the catalog, and issues the catalog and ticker requests |
| Scenarios.SavingsTransferExample | tests/unit/test_exchange_client.py:317-342 | a savings transfer of 1000.5 USDT at ticker "0.5000" issues a catalog request, a ticker request for ALPHA_1USDT, and a BUY of 2001.000 ALPHA_1 at 0.5000; it returns the acknowledgement |
| Scenarios.NotFoundExample | tests/unit/test_exchange_client.py:796-814 | with only a BNB-quoted instrument, a USDT transfer fails with InstrumentNotFound after the catalog request alone, and the fetched catalog stays cached |
| Scenarios.FormatThird | src/core/exchange/binance_adapter.py:279-281 | 1/3 at precision 8 renders "0.33333333", cut after eight digits |
| Scenarios.FormatWhole | src/core/exchange/binance_adapter.py:279-281 | 2 at precision 0 renders "2", with no point |
| Scenarios.QuarterPriceFields | src/core/exchange/binance_adapter.py:269-277 | 100 USDT at price 2.5 with precisions 2 and 4 builds price "2.50" and quantity "40.0000" |

The unit tests cited above exercise a sibling client class that is not part of
this model. Its interface differs from both classes modelled here:

- a transfer returns a dictionary with a `success` key, where the adapter
  returns a boolean;
- the feature flag is read from `settings` instead of the instance config
  (the funding cache has the same `{timestamp, data}` shape as
  `BinanceExchange`'s; the adapter has no funding cache);
- the not-found message is worded differently.

Only the tests' inputs and the values they expect are used:

- the balance map;
- the request paths and the order's side, base asset and quote asset;
- the error kind.

The rendered price and quantity are computed from the tests' inputs; the tests
do not assert them. The cache-reset tests (tests/unit/test_exchange_client.py
lines 693-750) check that a successful transfer resets both balance-cache
timestamps to 0. `Exchanges.BinanceExchange.AlphaTransfer` states this in its
success clause.

Three facts about the code that the model relies on:

- Resolution takes the first TRADING match in list order. Uniqueness is not
  assumed.
- `format` rounds half to even. It does not round half away from zero.
- Precisions are not assumed non-negative. A negative precision makes the
  format call raise, which is modelled as the error InvalidPrecision.

## Left out

- Floating point:
  - Amounts, prices and `amount / price` are exact reals.
  - `format(v, '.Nf')` is modelled as correctly rounded, half to even, on the
    exact value. Python rounds the binary double, so ties and last digits can
    differ.
  - `float()` of text is the exact decimal value, not the nearest double.
- Alpha.FloatOrZero: `float()` is modelled on
  plain decimal text only, with an optional sign, digits and an optional point.
  Exponents, `inf`/`nan`, surrounding whitespace and underscores are not
  accepted. For such text the model raises InvalidNumber where Python would
  return a number. A NaN price, which would slip past `price_value <= 0` in
  Python, cannot arise.
- Field types are not checked dynamically. A precision is an integer or absent;
  a precision given as text, which Python's f-string would still accept, is not
  modelled. Codes are strings. A `symbols` value of JSON `null` is not
  distinguished from an absent one. `symbol` and `baseAsset` are strings or
  absent (an absent one raises, modelled as MissingField). A JSON `null` value,
  which the source would put into the request, is not modelled.
- The exception raised by an unformattable value is folded into
  InvalidPrecision. Both files' formatting order (price first in the adapter,
  quantity first in `binance.py`) therefore gives the same error.
  `Exchanges.BinanceExchange.BuildAlphaOrder` proves that the two orders agree.
- Clock readings:
  - Each operation reads the clock once. The source calls `time.time()` and
    `milliseconds()` anew for the cache check and for every request.
  - The adapter's millisecond clock (`nowMs`) is an independent input beside
    the seconds clock `now`.
  - In `binance.py` the request timestamp is derived from the same `now` as the
    cache check.
- The ccxt client, HTTP transport, request signing, async/await and
  concurrency. Each request is one oracle reply plus one trace entry; NetworkError
  covers every transport or exchange-side failure.
- The passthrough methods of the adapter (`fetch_balance`, tickers, order book,
  orders, trades, OHLCV, precision helpers, `load_markets`), `close`,
  `capabilities`, `get_account_status`, `get_api_trading_status`,
  `_create_ccxt_instance`: forwarding calls with no logic of their own.
  `initialize` is modelled only for the cache it resets.
- Logging, including the messages of raised exceptions.
- Time synchronisation and the exchange base class. `time_diff`, `cache_ttl`
  and `config.enable_savings` are fixed at construction. The contents of
  `balance_cache` belong to the base class, which is not part of this model;
  only its reset is modelled.
- Aliasing of the balance caches: `binance.py` returns the cached dictionary
  object itself (lines 93 and 115), so a caller that mutates the result also
  changes the cache. The model returns map values and does not capture this.
- The order acknowledgement is passed through as an opaque map; its fields are
  not interpreted.
