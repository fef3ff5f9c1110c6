/**
 * The data that crosses the wire between the connector and the exchange's
 * Alpha 2.0 endpoints, as typed values, plus the record of every request the
 * connector issues.
 *
 * Exchange responses are loosely typed dictionaries in the original; here a
 * field that may be absent is an `Option`, and a field whose JSON type varies
 * is a `Scalar`.
 */
module Wire {

  datatype Option<+T> = None | Some(value: T) {
    /** `d.get(key, default)` on a field that may be absent. */
    function GetOr(default: T): T {
      if Some? then value else default
    }
  }

  /** The exceptions the code raises, one constructor per distinguishable cause. */
  datatype Error =
    | NetworkError                        // the request itself failed (transport or exchange rejection)
    | InstrumentNotFound(quoteAsset: string)
    | InvalidPrice(symbol: string)        // ticker price <= 0
    | MissingField(name: string)          // `d['key']` on an absent key
    | InvalidNumber                       // float() refused the text
    | InvalidPrecision                    // format spec with a negative precision
    | FeatureDisabled                     // Alpha 2.0 is switched off in the configuration

  datatype Result<+T> = Ok(value: T) | Err(error: Error) {
    predicate IsFailure() { Err? }
    function PropagateFailure<U>(): Result<U>
      requires Err?
    {
      Err(error)
    }
    function Extract(): T
      requires Ok?
    {
      value
    }
  }

  /** What the exchange answers to one request: a body, or a failure. */
  datatype Reply<+T> = Answered(body: T) | Failed

  /** A JSON scalar as it may appear in a response field. */
  datatype Scalar = Null | Bool(b: bool) | Num(n: real) | Str(s: string)

  /** One entry of the `symbols` list of `get-exchange-info`. */
  datatype Instrument = Instrument(
    symbol: Option<string>,
    status: Option<string>,
    baseAsset: Option<string>,
    quoteAsset: Option<string>,
    pricePrecision: Option<int>,
    quantityPrecision: Option<int>)

  /** The `get-exchange-info` response; `symbols` may be absent. */
  datatype ExchangeInfo = ExchangeInfo(symbols: Option<seq<Instrument>>)

  /** The `market/ticker-price` response. */
  datatype Ticker = Ticker(price: Option<Scalar>)

  /** One item of the `get-alpha-asset` response. */
  datatype AssetItem = AssetItem(cexAssetCode: Option<string>, alphaId: Option<string>, amount: Option<Scalar>)

  /** The `order/place` response, passed back to the caller unchanged. */
  datatype PlaceAck = PlaceAck(fields: map<string, Scalar>)

  datatype Side = Buy | Sell

  /** The four strings the order builder produces. */
  datatype OrderFields = OrderFields(baseAsset: string, quoteAsset: string, price: string, quantity: string)

  /** The parameters of an `order/place` request. */
  datatype OrderParams = OrderParams(
    baseAsset: string,
    quoteAsset: string,
    side: Side,
    quantity: string,
    price: string,
    timestamp: int,
    recvWindow: int)

  /** One request issued to the exchange, with its parameters. */
  datatype Request =
    | GetAlphaAsset(timestamp: int, recvWindow: int)
    | GetExchangeInfo(timestamp: int, recvWindow: int)
    | TickerPrice(symbol: string, timestamp: int, recvWindow: int)
    | PlaceOrder(params: OrderParams)

  /** The single slot of the instrument-catalog cache: when it was filled and with what. */
  datatype CatalogEntry = CatalogEntry(fetchedAt: real, info: ExchangeInfo)

  /** Milliseconds the exchange accepts between a request's timestamp and its arrival. */
  const RecvWindow: int := 5000

  /** The endpoint path of a request (all of them go to the `sapi` API). */
  function Path(r: Request): string {
    match r
    case GetAlphaAsset(_, _) => "v1/asset/get-alpha-asset"
    case GetExchangeInfo(_, _) => "v1/alpha-trade/get-exchange-info"
    case TickerPrice(_, _, _) => "v1/alpha-trade/market/ticker-price"
    case PlaceOrder(_) => "v1/alpha-trade/order/place"
  }

  /** The HTTP method of a request: only order placement writes. */
  function Verb(r: Request): string {
    if r.PlaceOrder? then "POST" else "GET"
  }
}
