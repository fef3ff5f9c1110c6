/**
 * The Alpha 2.0 liquidity logic both connectors share: the value readings of
 * loosely typed response fields, the funding-balance map, the instrument
 * catalog cache policy, first-match instrument resolution and the order
 * builder. Each is a function of the cache state, the clock reading and the
 * exchange's replies; the connector classes run them step by step.
 */
module Alpha {
  import opened Wire
  import opened Decimal

  /** Seconds a catalog stays usable after it was fetched. */
  const CatalogTtl: real := 30.0

  /** Fractional digits used when an instrument does not state a precision. */
  const DefaultPrecision: int := 8

  // ---------------------------------------------------------------- field values

  /** Python truthiness of a JSON scalar. */
  predicate Truthy(x: Scalar) {
    match x
    case Null => false
    case Bool(b) => b
    case Num(n) => n != 0.0
    case Str(s) => s != ""
  }

  /** `float(d.get(key, 0) or 0)`: an absent or falsy field reads as zero, text must be a decimal numeral. */
  function FloatOrZero(field: Option<Scalar>): (r: Result<real>)
    ensures field.None? || !Truthy(field.value) ==> r == Ok(0.0)
    ensures field.Some? && field.value.Num? ==> r == Ok(field.value.n)
    ensures field.Some? && field.value == Bool(true) ==> r == Ok(1.0)
    ensures r.Err? <==> field.Some? && field.value.Str? && field.value.s != "" && ParseDecimal(field.value.s).None?
    ensures r.Err? ==> r.error == InvalidNumber
    ensures field.Some? && field.value.Str? && ParseDecimal(field.value.s).Some? ==>
      r == Ok(NumeralValue(ParseDecimal(field.value.s).value))
  {
    if field.None? || !Truthy(field.value) then Ok(0.0)
    else match field.value
      case Bool(_) => Ok(1.0)
      case Num(n) => Ok(n)
      case Str(s) =>
        match ParseDecimal(s)
        case None => Err(InvalidNumber)
        case Some(x) => Ok(NumeralValue(x))
  }

  // ---------------------------------------------------------------- formatting

  /**
   * `format(value, f'.{precision}f')`. A negative precision is not a valid
   * format specification and raises; `FormatFixedSound` states what the text
   * is otherwise.
   */
  function FormatFixed(value: real, precision: int): (r: Result<string>)
    ensures r.Err? <==> precision < 0
    ensures r.Err? ==> r.error == InvalidPrecision
  {
    if precision < 0 then Err(InvalidPrecision) else Ok(Format(value, precision))
  }

  /**
   * With a non-negative precision the text is plain fixed-point notation with
   * exactly `precision` fractional digits; it spells the rounded value, so
   * `float()` reads it back as `value` rounded to `precision` digits (within
   * half a unit in the last place, by `RoundedClose`).
   */
  lemma FormatFixedSound(value: real, precision: int)
    requires precision >= 0
    ensures FormatFixed(value, precision).Ok?
    ensures FixedPointShape(FormatFixed(value, precision).value, precision)
    ensures ParseDecimal(FormatFixed(value, precision).value) == Some(Rendered(value, precision))
    ensures FloatOrZero(Some(Str(FormatFixed(value, precision).value))) == Ok(Rounded(value, precision))
  {
    FormatShape(value, precision);
    FormatDenotes(value, precision);
    RenderedValue(value, precision);
  }

  /** `d.get('pricePrecision', 8)` and its `quantityPrecision` twin. */
  function PrecisionOf(field: Option<int>): int {
    field.GetOr(DefaultPrecision)
  }

  // ---------------------------------------------------------------- balances

  /** `item.get('cexAssetCode') or item.get('alphaId')`, None when neither is a non-empty string. */
  function AssetCode(item: AssetItem): (r: Option<string>)
    ensures r.Some? ==> r.value != ""
    ensures item.cexAssetCode.Some? && item.cexAssetCode.value != "" ==> r == item.cexAssetCode
    ensures (item.cexAssetCode.None? || item.cexAssetCode.value == "") ==>
      r == (if item.alphaId.Some? && item.alphaId.value != "" then item.alphaId else None)
  {
    if item.cexAssetCode.Some? && item.cexAssetCode.value != "" then item.cexAssetCode
    else if item.alphaId.Some? && item.alphaId.value != "" then item.alphaId
    else None
  }

  /** The amount of an item, as `float(item.get('amount', 0) or 0)` reads it. */
  function AmountOf(item: AssetItem): Result<real> {
    FloatOrZero(item.amount)
  }

  /** The item enters the balance map under code `c`. */
  predicate Counted(item: AssetItem, c: string) {
    AssetCode(item) == Some(c) && AmountOf(item).Ok? && AmountOf(item).value > 0.0
  }

  /** The item stops the parse: it has a code, but its amount is not a number. */
  predicate Faulty(item: AssetItem) {
    AssetCode(item).Some? && AmountOf(item).Err?
  }

  /** One step of the balance loop: skip an item without a code, keep only positive amounts. */
  function AddItem(acc: map<string, real>, item: AssetItem): Result<map<string, real>> {
    match AssetCode(item)
    case None => Ok(acc)
    case Some(c) =>
      match AmountOf(item)
      case Err(e) => Err(e)
      case Ok(a) => if a > 0.0 then Ok(acc[c := a]) else Ok(acc)
  }

  /** The balance map the loop over a `get-alpha-asset` response builds, or the error that stops it. */
  function BalancesOf(items: seq<AssetItem>): (r: Result<map<string, real>>)
    ensures r.Ok? ==> forall c | c in r.value :: r.value[c] > 0.0
    decreases |items|
  {
    if items == [] then Ok(map[])
    else
      match BalancesOf(items[..|items| - 1])
      case Err(e) => Err(e)
      case Ok(m) => AddItem(m, items[|items| - 1])
  }

  /** Once the loop has failed on a prefix, the whole response fails with that error. */
  lemma {:induction false} BalancesErrSticky(items: seq<AssetItem>, i: nat)
    requires i <= |items| && BalancesOf(items[..i]).Err?
    ensures BalancesOf(items) == BalancesOf(items[..i])
    decreases |items| - i
  {
    if i < |items| {
      var longer := items[..i + 1];
      assert longer[..i] == items[..i];
      assert BalancesOf(longer) == BalancesOf(items[..i]);
      BalancesErrSticky(items, i + 1);
    } else {
      assert items[..i] == items;
    }
  }

  /** The parse fails exactly when some item with a code carries an unreadable amount. */
  lemma {:induction false} BalancesErrIff(items: seq<AssetItem>)
    ensures BalancesOf(items).Err? <==> exists i | 0 <= i < |items| :: Faulty(items[i])
    ensures BalancesOf(items).Err? ==> BalancesOf(items).error == InvalidNumber
    decreases |items|
  {
    if items != [] {
      var init := items[..|items| - 1];
      BalancesErrIff(init);
      forall i | 0 <= i < |init| ensures init[i] == items[i] { }
      if BalancesOf(init).Err? {
        var i :| 0 <= i < |init| && Faulty(init[i]);
        assert Faulty(items[i]);
      }
    }
  }

  /** A successful parse maps `c` exactly when some item is counted under `c`. */
  lemma {:induction false} BalancesKeys(items: seq<AssetItem>, c: string)
    requires BalancesOf(items).Ok?
    ensures c in BalancesOf(items).value <==> exists i | 0 <= i < |items| :: Counted(items[i], c)
    decreases |items|
  {
    if items != [] {
      var init := items[..|items| - 1];
      BalancesKeys(init, c);
      forall i | 0 <= i < |init| ensures init[i] == items[i] { }
      if exists i | 0 <= i < |items| :: Counted(items[i], c) {
        var i :| 0 <= i < |items| && Counted(items[i], c);
        if i < |init| {
          assert Counted(init[i], c);
        }
      }
    }
  }

  /** A mapped code carries the amount of the last item counted under it: later positive items overwrite. */
  lemma {:induction false} BalancesLastWins(items: seq<AssetItem>, c: string)
    requires BalancesOf(items).Ok? && c in BalancesOf(items).value
    ensures exists i | 0 <= i < |items| ::
      (Counted(items[i], c)
       && BalancesOf(items).value[c] == AmountOf(items[i]).value
       && forall j | i < j < |items| :: !Counted(items[j], c))
    decreases |items|
  {
    var init := items[..|items| - 1];
    var last := items[|items| - 1];
    var n := |items| - 1;
    if Counted(last, c) {
      assert BalancesOf(items).value[c] == AmountOf(items[n]).value;
    } else {
      var m := BalancesOf(init).value;
      assert c in m && BalancesOf(items).value[c] == m[c];
      BalancesLastWins(init, c);
      var i :| 0 <= i < |init| && Counted(init[i], c) && m[c] == AmountOf(init[i]).value
        && forall j | i < j < |init| :: !Counted(init[j], c);
      assert init[i] == items[i];
      forall j | i < j < |items| ensures !Counted(items[j], c) {
        if j < n {
          assert init[j] == items[j];
        }
      }
    }
  }

  /** The balance loop, proved to compute `BalancesOf`; a bad amount ends it, as the exception does. */
  method CollectBalances(items: seq<AssetItem>) returns (r: Result<map<string, real>>)
    ensures r == BalancesOf(items)
  {
    var balances: map<string, real> := map[];
    var i := 0;
    while i < |items|
      invariant 0 <= i <= |items|
      invariant BalancesOf(items[..i]) == Ok(balances)
    {
      var item := items[i];
      assert items[..i + 1][..i] == items[..i];
      var code := AssetCode(item);
      if code.Some? {
        var amount := AmountOf(item);
        if amount.Err? {
          BalancesErrSticky(items, i + 1);
          return Err(amount.error);
        }
        if amount.value > 0.0 {
          balances := balances[code.value := amount.value];
        }
      }
      i := i + 1;
    }
    assert items[..i] == items;
    return Ok(balances);
  }

  /** Every code of a successful parse, at once: mapped exactly when some item is counted under it. */
  lemma BalancesKeysAll(items: seq<AssetItem>)
    requires BalancesOf(items).Ok?
    ensures forall c :: c in BalancesOf(items).value <==> exists i | 0 <= i < |items| :: Counted(items[i], c)
  {
    forall c ensures c in BalancesOf(items).value <==> exists i | 0 <= i < |items| :: Counted(items[i], c) {
      BalancesKeys(items, c);
    }
  }

  /**
   * What one `get-alpha-asset` request yields: the balance map, or why there
   * is none. A failed request is a NetworkError; an answer fails exactly when
   * some item with a code has an unreadable amount; otherwise the map holds
   * the positive amounts of the counted items.
   */
  function FundingRead(reply: Reply<seq<AssetItem>>): (r: Result<map<string, real>>)
    ensures reply.Failed? ==> r == Err(NetworkError)
    ensures r.Err? <==> reply.Failed? || exists i | 0 <= i < |reply.body| :: Faulty(reply.body[i])
    ensures reply.Answered? && r.Err? ==> r.error == InvalidNumber
    ensures r.Ok? ==> forall c | c in r.value :: r.value[c] > 0.0
    ensures reply.Answered? && r.Ok? ==>
      forall c :: c in r.value <==> exists i | 0 <= i < |reply.body| :: Counted(reply.body[i], c)
  {
    match reply
    case Failed => Err(NetworkError)
    case Answered(items) =>
      BalancesErrIff(items);
      if BalancesOf(items).Ok? then BalancesKeysAll(items); BalancesOf(items)
      else BalancesOf(items)
  }

  // ---------------------------------------------------------------- instrument resolution

  /** The catalog entry can carry an order for `asset`. */
  predicate Tradable(i: Instrument, asset: string) {
    i.quoteAsset == Some(asset) && i.status == Some("TRADING")
  }

  /** The index of the first tradable entry, in list order. */
  function FirstTradable(symbols: seq<Instrument>, asset: string): (r: Option<nat>)
    ensures r.Some? ==> (r.value < |symbols| && Tradable(symbols[r.value], asset)
                         && forall j | 0 <= j < r.value :: !Tradable(symbols[j], asset))
    ensures r.None? ==> forall j | 0 <= j < |symbols| :: !Tradable(symbols[j], asset)
  {
    if symbols == [] then None
    else if Tradable(symbols[0], asset) then Some(0)
    else match FirstTradable(symbols[1..], asset)
      case None => None
      case Some(k) => Some(k + 1)
  }

  /** `exchange_info.get('symbols', [])`. */
  function SymbolsOf(info: ExchangeInfo): seq<Instrument> {
    info.symbols.GetOr([])
  }

  /** The first tradable instrument of the catalog, or `InstrumentNotFound`. */
  function ResolveInstrument(info: ExchangeInfo, asset: string): (r: Result<Instrument>)
    ensures r.Ok? <==> exists k | 0 <= k < |SymbolsOf(info)| :: Tradable(SymbolsOf(info)[k], asset)
    ensures r.Ok? ==> exists k | 0 <= k < |SymbolsOf(info)| ::
      (SymbolsOf(info)[k] == r.value && Tradable(r.value, asset)
       && forall j | 0 <= j < k :: !Tradable(SymbolsOf(info)[j], asset))
    ensures r.Err? ==> r.error == InstrumentNotFound(asset)
  {
    match FirstTradable(SymbolsOf(info), asset)
    case None => Err(InstrumentNotFound(asset))
    case Some(k) => Ok(SymbolsOf(info)[k])
  }

  // ---------------------------------------------------------------- catalog cache

  /** A cached catalog is used when it exists and is less than 30 seconds old. */
  predicate CatalogFresh(cache: Option<CatalogEntry>, now: real) {
    cache.Some? && now - cache.value.fetchedAt < CatalogTtl
  }

  /** What one catalog read returns, the cache it leaves and the requests it issues. */
  datatype CatalogRun = CatalogRun(result: Result<ExchangeInfo>, cache: Option<CatalogEntry>, requests: seq<Request>)

  /**
   * One catalog read at clock `now` with request timestamp `ts`: the cached
   * info while fresh, otherwise one `get-exchange-info` request whose answer
   * replaces the cache. A failed request raises and leaves the cache as it was.
   */
  function CatalogRead(cache: Option<CatalogEntry>, now: real, ts: int, reply: Reply<ExchangeInfo>): CatalogRun {
    if CatalogFresh(cache, now) then CatalogRun(Ok(cache.value.info), cache, [])
    else
      var reqs := [GetExchangeInfo(ts, RecvWindow)];
      match reply
      case Failed => CatalogRun(Err(NetworkError), cache, reqs)
      case Answered(info) => CatalogRun(Ok(info), Some(CatalogEntry(now, info)), reqs)
  }

  /** A read issues a request exactly when the cache is not fresh, and leaves the cache holding what it returns. */
  lemma CatalogReadSound(cache: Option<CatalogEntry>, now: real, ts: int, reply: Reply<ExchangeInfo>)
    ensures var run := CatalogRead(cache, now, ts, reply);
      (run.requests == [] <==> CatalogFresh(cache, now))
      && (run.requests != [] ==> run.requests == [GetExchangeInfo(ts, RecvWindow)])
      && (run.result.Ok? ==> run.cache.Some? && run.cache.value.info == run.result.value)
      && (run.result.Err? <==> !CatalogFresh(cache, now) && reply.Failed?)
      && (run.result.Err? ==> run.cache == cache)
      && (run.requests != [] && run.result.Ok? ==> run.cache == Some(CatalogEntry(now, reply.body)))
      && (CatalogFresh(cache, now) ==> run.result == Ok(cache.value.info) && run.cache == cache)
  {
  }

  /** After a successful read, a second read less than 30 seconds later makes the pair issue at most one request. */
  lemma CatalogReuse(cache: Option<CatalogEntry>, now1: real, ts1: int, reply1: Reply<ExchangeInfo>,
                     now2: real, ts2: int, reply2: Reply<ExchangeInfo>)
    requires CatalogRead(cache, now1, ts1, reply1).result.Ok?
    requires now1 <= now2 < now1 + CatalogTtl
    ensures var run1 := CatalogRead(cache, now1, ts1, reply1);
      var run2 := CatalogRead(run1.cache, now2, ts2, reply2);
      |run1.requests| + |run2.requests| <= 1
      && (run1.requests != [] ==> run2.requests == [] && run2.result == run1.result)
  {
  }

  /** A catalog fetched at `now1` is fetched again by any read 30 seconds or more later. */
  lemma CatalogExpires(cache: Option<CatalogEntry>, now1: real, ts1: int, reply1: Reply<ExchangeInfo>,
                       now2: real, ts2: int, reply2: Reply<ExchangeInfo>)
    requires !CatalogFresh(cache, now1) && reply1.Answered?
    requires now2 >= now1 + CatalogTtl
    ensures var run1 := CatalogRead(cache, now1, ts1, reply1);
      CatalogRead(run1.cache, now2, ts2, reply2).requests == [GetExchangeInfo(ts2, RecvWindow)]
  {
  }

  // ---------------------------------------------------------------- ticker and order

  /** The price one `ticker-price` request yields: `float(ticker.get('price', 0) or 0)`. */
  function TickerRead(reply: Reply<Ticker>): (r: Result<real>)
    ensures reply.Failed? ==> r == Err(NetworkError)
    ensures reply.Answered? && (reply.body.price.None? || !Truthy(reply.body.price.value)) ==> r == Ok(0.0)
    ensures reply.Answered? && reply.body.price.Some? && reply.body.price.value.Num? ==>
      r == Ok(reply.body.price.value.n)
    ensures r.Err? <==> reply.Failed? || (reply.body.price.Some? && reply.body.price.value.Str?
                                          && reply.body.price.value.s != ""
                                          && ParseDecimal(reply.body.price.value.s).None?)
    ensures reply.Answered? && r.Err? ==> r.error == InvalidNumber
  {
    match reply
    case Failed => Err(NetworkError)
    case Answered(t) => FloatOrZero(t.price)
  }

  /** A ticker with no price, or an empty one, reads as 0 and so never passes the price check. */
  lemma MissingPriceIsZero(t: Ticker)
    requires t.price.None? || t.price == Some(Null) || t.price == Some(Str(""))
    ensures TickerRead(Answered(t)) == Ok(0.0)
  {
  }

  /**
   * The order fields for `amount` of `asset` at a positive ticker `price`:
   * the price is rendered first, then the quantity `amount / price`, each at
   * its precision; the instrument's base asset is read last.
   */
  function BuildFields(inst: Instrument, asset: string, amount: real, price: real): (r: Result<OrderFields>)
    requires price > 0.0
  {
    var p :- FormatFixed(price, PrecisionOf(inst.pricePrecision));
    var q :- FormatFixed(amount / price, PrecisionOf(inst.quantityPrecision));
    if inst.baseAsset.None? then Err(MissingField("baseAsset"))
    else Ok(OrderFields(inst.baseAsset.value, asset, p, q))
  }

  /** The parameters of the `order/place` request for built fields. */
  function PlaceParams(f: OrderFields, side: Side, ts: int): OrderParams {
    OrderParams(f.baseAsset, f.quoteAsset, side, f.quantity, f.price, ts, RecvWindow)
  }

  /** What one order build returns, the catalog cache it leaves and the requests it issues. */
  datatype BuildRun = BuildRun(result: Result<OrderFields>, cache: Option<CatalogEntry>, requests: seq<Request>)

  /**
   * Building an order for `amount` of `asset`: read the catalog, resolve the
   * first tradable instrument, read its `symbol`, ask for its ticker price,
   * refuse a price of 0 or less, then render the fields.
   */
  function BuildSpec(cache: Option<CatalogEntry>, now: real, ts: int, asset: string, amount: real,
                     catalogReply: Reply<ExchangeInfo>, tickerReply: Reply<Ticker>): BuildRun
  {
    var c := CatalogRead(cache, now, ts, catalogReply);
    match c.result
    case Err(e) => BuildRun(Err(e), c.cache, c.requests)
    case Ok(info) =>
      match ResolveInstrument(info, asset)
      case Err(e) => BuildRun(Err(e), c.cache, c.requests)
      case Ok(inst) =>
        if inst.symbol.None? then BuildRun(Err(MissingField("symbol")), c.cache, c.requests)
        else
          var reqs := c.requests + [TickerPrice(inst.symbol.value, ts, RecvWindow)];
          match TickerRead(tickerReply)
          case Err(e) => BuildRun(Err(e), c.cache, reqs)
          case Ok(price) =>
            if price <= 0.0 then BuildRun(Err(InvalidPrice(inst.symbol.value)), c.cache, reqs)
            else BuildRun(BuildFields(inst, asset, amount, price), c.cache, reqs)
  }

  /**
   * A built order names the first tradable instrument of the catalog read,
   * a positive ticker price of that instrument, and the price and quantity
   * `amount / price` rendered at the instrument's precisions; the build
   * issues at most the catalog request and then the ticker request.
   */
  lemma BuildSound(cache: Option<CatalogEntry>, now: real, ts: int, asset: string, amount: real,
                   catalogReply: Reply<ExchangeInfo>, tickerReply: Reply<Ticker>)
    requires BuildSpec(cache, now, ts, asset, amount, catalogReply, tickerReply).result.Ok?
    ensures var run := BuildSpec(cache, now, ts, asset, amount, catalogReply, tickerReply);
      var c := CatalogRead(cache, now, ts, catalogReply);
      var f := run.result.value;
      c.result.Ok? && ResolveInstrument(c.result.value, asset).Ok?
      && var inst := ResolveInstrument(c.result.value, asset).value;
      TickerRead(tickerReply).Ok? && TickerRead(tickerReply).value > 0.0
      && var price := TickerRead(tickerReply).value;
      inst.symbol.Some? && inst.baseAsset == Some(f.baseAsset) && f.quoteAsset == asset
      && PrecisionOf(inst.pricePrecision) >= 0 && PrecisionOf(inst.quantityPrecision) >= 0
      && f.price == Format(price, PrecisionOf(inst.pricePrecision))
      && f.quantity == Format(amount / price, PrecisionOf(inst.quantityPrecision))
      && run.requests == c.requests + [TickerPrice(inst.symbol.value, ts, RecvWindow)]
  {
  }

  /** A build never places an order: every request it issues is a read. */
  lemma BuildOnlyReads(cache: Option<CatalogEntry>, now: real, ts: int, asset: string, amount: real,
                       catalogReply: Reply<ExchangeInfo>, tickerReply: Reply<Ticker>)
    ensures var run := BuildSpec(cache, now, ts, asset, amount, catalogReply, tickerReply);
      |run.requests| <= 2 && forall r | r in run.requests :: !r.PlaceOrder? && Verb(r) == "GET"
  {
  }

  /**
   * The ways a build fails: no tradable instrument (and then no ticker
   * request), or a ticker price of 0 or less.
   */
  lemma BuildFailures(cache: Option<CatalogEntry>, now: real, ts: int, asset: string, amount: real,
                      catalogReply: Reply<ExchangeInfo>, tickerReply: Reply<Ticker>)
    ensures var run := BuildSpec(cache, now, ts, asset, amount, catalogReply, tickerReply);
      var c := CatalogRead(cache, now, ts, catalogReply);
      (c.result.Ok? && ResolveInstrument(c.result.value, asset).Err? ==>
         run.result == Err(InstrumentNotFound(asset)) && run.requests == c.requests)
      && (c.result.Ok? && ResolveInstrument(c.result.value, asset).Ok?
          && ResolveInstrument(c.result.value, asset).value.symbol.Some?
          && TickerRead(tickerReply).Ok? && TickerRead(tickerReply).value <= 0.0 ==>
            run.result == Err(InvalidPrice(ResolveInstrument(c.result.value, asset).value.symbol.value)))
  {
  }

  /** The catalog read stores its answer before the lookup, so the cache a build leaves is the read's. */
  lemma BuildKeepsCatalog(cache: Option<CatalogEntry>, now: real, ts: int, asset: string, amount: real,
                          catalogReply: Reply<ExchangeInfo>, tickerReply: Reply<Ticker>)
    requires !CatalogFresh(cache, now) && catalogReply.Answered?
    ensures BuildSpec(cache, now, ts, asset, amount, catalogReply, tickerReply).cache
      == Some(CatalogEntry(now, catalogReply.body))
  {
  }

  // ---------------------------------------------------------------- transfer

  /** What one transfer returns, the catalog cache it leaves and the requests it issues. */
  datatype TransferRun = TransferRun(result: Result<PlaceAck>, cache: Option<CatalogEntry>, requests: seq<Request>)

  /** The submission step after a build: nothing on a failed build, else one `order/place` request on `side`. */
  function Submit(b: BuildRun, side: Side, ts: int, placeReply: Reply<PlaceAck>): TransferRun {
    match b.result
    case Err(e) => TransferRun(Err(e), b.cache, b.requests)
    case Ok(f) =>
      var reqs := b.requests + [PlaceOrder(PlaceParams(f, side, ts))];
      match placeReply
      case Failed => TransferRun(Err(NetworkError), b.cache, reqs)
      case Answered(ack) => TransferRun(Ok(ack), b.cache, reqs)
  }

  /** A transfer: build the order, then submit it on `side`; the exchange's acknowledgement is the result. */
  function TransferSpec(cache: Option<CatalogEntry>, now: real, ts: int, asset: string, amount: real, side: Side,
                        catalogReply: Reply<ExchangeInfo>, tickerReply: Reply<Ticker>, placeReply: Reply<PlaceAck>): TransferRun
  {
    Submit(BuildSpec(cache, now, ts, asset, amount, catalogReply, tickerReply), side, ts, placeReply)
  }

  /** The number of order placements in a request trace. */
  function Placements(rs: seq<Request>): (n: nat)
    ensures n <= |rs|
    ensures n == 0 <==> forall r | r in rs :: !r.PlaceOrder?
  {
    if rs == [] then 0
    else Placements(rs[..|rs| - 1]) + (if rs[|rs| - 1].PlaceOrder? then 1 else 0)
  }

  /**
   * A transfer submits exactly one order when the build succeeds and none
   * otherwise; the submission is its last request and carries the built
   * fields, the transfer's side, its timestamp and a 5000 ms receive window.
   * It succeeds exactly when both the build and the submission do.
   */
  lemma TransferPlacesOnce(cache: Option<CatalogEntry>, now: real, ts: int, asset: string, amount: real, side: Side,
                           catalogReply: Reply<ExchangeInfo>, tickerReply: Reply<Ticker>, placeReply: Reply<PlaceAck>)
    ensures var b := BuildSpec(cache, now, ts, asset, amount, catalogReply, tickerReply);
      var t := TransferSpec(cache, now, ts, asset, amount, side, catalogReply, tickerReply, placeReply);
      Placements(t.requests) == (if b.result.Ok? then 1 else 0)
      && t.cache == b.cache
      && (b.result.Err? ==> t.requests == b.requests && t.result == Err(b.result.error))
      && (b.result.Ok? ==>
            t.requests == b.requests + [PlaceOrder(PlaceParams(b.result.value, side, ts))]
            && Verb(t.requests[|t.requests| - 1]) == "POST"
            && Path(t.requests[|t.requests| - 1]) == "v1/alpha-trade/order/place")
      && (t.result.Ok? <==> b.result.Ok? && placeReply.Answered?)
  {
    var b := BuildSpec(cache, now, ts, asset, amount, catalogReply, tickerReply);
    BuildOnlyReads(cache, now, ts, asset, amount, catalogReply, tickerReply);
    SubmitPlacesOnce(b, side, ts, placeReply);
  }

  /** `TransferPlacesOnce` for any build run whose requests place nothing. */
  lemma SubmitPlacesOnce(b: BuildRun, side: Side, ts: int, placeReply: Reply<PlaceAck>)
    requires forall r | r in b.requests :: !r.PlaceOrder?
    ensures var t := Submit(b, side, ts, placeReply);
      Placements(t.requests) == (if b.result.Ok? then 1 else 0)
      && t.cache == b.cache
      && (b.result.Err? ==> t.requests == b.requests && t.result == Err(b.result.error))
      && (b.result.Ok? ==>
            t.requests == b.requests + [PlaceOrder(PlaceParams(b.result.value, side, ts))]
            && Verb(t.requests[|t.requests| - 1]) == "POST"
            && Path(t.requests[|t.requests| - 1]) == "v1/alpha-trade/order/place")
      && (t.result.Ok? <==> b.result.Ok? && placeReply.Answered?)
  {
    assert Placements(b.requests) == 0;
    if b.result.Ok? {
      var last := PlaceOrder(PlaceParams(b.result.value, side, ts));
      var t := b.requests + [last];
      assert t[..|t| - 1] == b.requests;
      assert t[|t| - 1] == last;
    }
  }

  /**
   * The order a transfer submits is for the caller's asset against the base
   * asset of the first tradable instrument, on the transfer's side, at a
   * positive ticker price, with price and quantity `amount / price` rendered at
   * the instrument precisions.
   */
  lemma TransferOrderSound(cache: Option<CatalogEntry>, now: real, ts: int, asset: string, amount: real, side: Side,
                           catalogReply: Reply<ExchangeInfo>, tickerReply: Reply<Ticker>, placeReply: Reply<PlaceAck>,
                           p: OrderParams)
    requires PlaceOrder(p) in TransferSpec(cache, now, ts, asset, amount, side, catalogReply, tickerReply, placeReply).requests
    ensures var c := CatalogRead(cache, now, ts, catalogReply);
      c.result.Ok? && ResolveInstrument(c.result.value, asset).Ok?
      && var inst := ResolveInstrument(c.result.value, asset).value;
      TickerRead(tickerReply).Ok? && TickerRead(tickerReply).value > 0.0
      && var price := TickerRead(tickerReply).value;
      p.side == side && p.recvWindow == RecvWindow && p.timestamp == ts
      && p.quoteAsset == asset && inst.baseAsset == Some(p.baseAsset)
      && p.price == Format(price, PrecisionOf(inst.pricePrecision))
      && p.quantity == Format(amount / price, PrecisionOf(inst.quantityPrecision))
  {
    var b := BuildSpec(cache, now, ts, asset, amount, catalogReply, tickerReply);
    BuildOnlyReads(cache, now, ts, asset, amount, catalogReply, tickerReply);
    assert b.result.Ok?;
    BuildSound(cache, now, ts, asset, amount, catalogReply, tickerReply);
    assert PlaceOrder(p) in b.requests || p == PlaceParams(b.result.value, side, ts);
  }
}
