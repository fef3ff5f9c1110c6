/**
 * Worked examples proved about the model, on the inputs of the repository's unit tests:
 * the balance parse of an Alpha asset list, the renderings and the requests of
 * a savings transfer, and a lookup that finds no instrument.
 */
module Scenarios {
  import opened Wire
  import opened Decimal
  import opened Alpha

  /** The powers of ten the examples need. */
  lemma Pow10Small()
    ensures Pow10(1) == 10 && Pow10(2) == 100 && Pow10(3) == 1000 && Pow10(4) == 10000
  {
    assert Pow10(1) == 10; assert Pow10(2) == 100; assert Pow10(3) == 1000;
  }

  /** `float()` readings of the numerals in the examples. */
  lemma ReadEightHundred()
    ensures ParseDecimal("800") == Some(Numeral(false, 800, 0, 0))
  {
    assert IndexOf("800", '.') == None;
    assert ValueOf("800") == 800 by {
      assert "800"[..2] == "80" && "80"[..1] == "8";
    }
  }

  lemma ReadTwelveAndHalf()
    ensures ParseDecimal("12.5") == Some(Numeral(false, 12, 5, 1))
  {
    assert IndexOf("12.5", '.') == Some(2);
    assert "12.5"[..2] == "12" && "12.5"[3..] == "5";
    assert ValueOf("12") == 12 by { assert "12"[..1] == "1"; }
  }

  lemma ReadZero()
    ensures ParseDecimal("0") == Some(Numeral(false, 0, 0, 0))
  {
    assert IndexOf("0", '.') == None;
  }

  lemma ReadHalf()
    ensures ParseDecimal("0.5000") == Some(Numeral(false, 0, 5000, 4))
  {
    assert IndexOf("0.5000", '.') == Some(1);
    assert "0.5000"[..1] == "0" && "0.5000"[2..] == "5000";
    assert ValueOf("5000") == 5000 by {
      assert "5000"[..3] == "500" && "500"[..2] == "50" && "50"[..1] == "5";
    }
  }

  /** One more item extends the parse of the items before it by one loop step. */
  lemma BalancesStep(items: seq<AssetItem>, item: AssetItem, m: map<string, real>)
    requires BalancesOf(items) == Ok(m)
    ensures BalancesOf(items + [item]) == AddItem(m, item)
  {
    assert (items + [item])[..|items|] == items;
  }

  const UsdtItem := AssetItem(Some("USDT"), None, Some(Str("800")))
  const AlphaItem := AssetItem(None, Some("ALPHA_1"), Some(Str("12.5")))
  const ZeroItem := AssetItem(Some("ZERO"), None, Some(Str("0")))

  /** The USDT item is counted under its `cexAssetCode`. */
  lemma UsdtStep()
    ensures AddItem(map[], UsdtItem) == Ok(map["USDT" := 800.0])
  {
    ReadEightHundred();
  }

  /** The ALPHA_1 item has no `cexAssetCode` and is counted under its `alphaId`. */
  lemma AlphaStep()
    ensures AddItem(map["USDT" := 800.0], AlphaItem) == Ok(map["USDT" := 800.0, "ALPHA_1" := 12.5])
  {
    ReadTwelveAndHalf();
    Pow10Small();
  }

  /** The ZERO item is dropped. */
  lemma ZeroStep(m: map<string, real>)
    ensures AddItem(m, ZeroItem) == Ok(m)
  {
    ReadZero();
  }

  /** Codes fall back to `alphaId`; a zero amount is dropped. */
  lemma BalanceExample(items: seq<AssetItem>)
    requires items == [UsdtItem, AlphaItem, ZeroItem]
    ensures BalancesOf(items) == Ok(map["USDT" := 800.0, "ALPHA_1" := 12.5])
  {
    UsdtStep();
    AlphaStep();
    ZeroStep(map["USDT" := 800.0, "ALPHA_1" := 12.5]);
    BalancesStep([], UsdtItem, map[]);
    assert [] + [UsdtItem] == [UsdtItem];
    BalancesStep([UsdtItem], AlphaItem, map["USDT" := 800.0]);
    assert [UsdtItem] + [AlphaItem] == [UsdtItem, AlphaItem];
    BalancesStep([UsdtItem, AlphaItem], ZeroItem, map["USDT" := 800.0, "ALPHA_1" := 12.5]);
    assert [UsdtItem, AlphaItem] + [ZeroItem] == [UsdtItem, AlphaItem, ZeroItem];
  }

  /** Renderings padded to the precision with trailing zeros. */
  lemma FormatExamples()
    ensures Format(0.5, 4) == "0.5000"
    ensures Format(2001.0, 3) == "2001.000"
  {
    Pow10Small();
    assert ScaleUp(0.5, 4) == 5000.0;
    assert Scaled(0.5, 4) == 5000;
    assert WholeOf(5000, 4) == 0 && FracOf(5000, 4) == 5000;
    assert DigitsOf(0) == "0";
    assert DigitsOf(5000) == "5000" by {
      assert DigitsOf(5) == "5"; assert DigitsOf(50) == "50"; assert DigitsOf(500) == "500";
    }
    assert PadLeft("5000", 4) == "5000";
    assert ScaleUp(2001.0, 3) == 2001000.0;
    assert Scaled(2001.0, 3) == 2001000;
    assert WholeOf(2001000, 3) == 2001 && FracOf(2001000, 3) == 0;
    assert DigitsOf(2001) == "2001" by {
      assert DigitsOf(2) == "2"; assert DigitsOf(20) == "20"; assert DigitsOf(200) == "200";
    }
    assert PadLeft("0", 3) == "000";
  }

  /** The catalog of the savings-transfer test: one TRADING instrument quoted in USDT. */
  const AlphaOneCatalog := ExchangeInfo(Some([
    Instrument(Some("ALPHA_1USDT"), Some("TRADING"), Some("ALPHA_1"), Some("USDT"), Some(4), Some(3))]))

  /** The ticker answer of the test reads as 0.5. */
  lemma HalfTicker()
    ensures TickerRead(Answered(Ticker(Some(Str("0.5000"))))) == Ok(0.5)
  {
    ReadHalf();
    Pow10Small();
  }

  /** 1000.5 USDT at 0.5 renders as 2001.000 at quantity precision 3, the price as 0.5000 at price precision 4. */
  lemma AlphaOneFields()
    ensures BuildFields(AlphaOneCatalog.symbols.value[0], "USDT", 1000.5, 0.5)
      == Ok(OrderFields("ALPHA_1", "USDT", "0.5000", "2001.000"))
  {
    FormatExamples();
    assert 1000.5 / 0.5 == 2001.0;
  }

  /** A build whose catalog read, lookup and ticker read all succeed, at a positive price, yields the rendered fields. */
  lemma BuildHappyPath(cache: Option<CatalogEntry>, now: real, ts: int, asset: string, amount: real,
                       catalogReply: Reply<ExchangeInfo>, tickerReply: Reply<Ticker>,
                       info: ExchangeInfo, inst: Instrument, symbol: string, price: real)
    requires CatalogRead(cache, now, ts, catalogReply).result == Ok(info)
    requires ResolveInstrument(info, asset) == Ok(inst) && inst.symbol == Some(symbol)
    requires TickerRead(tickerReply) == Ok(price) && price > 0.0
    ensures BuildSpec(cache, now, ts, asset, amount, catalogReply, tickerReply)
      == BuildRun(BuildFields(inst, asset, amount, price), CatalogRead(cache, now, ts, catalogReply).cache,
                  CatalogRead(cache, now, ts, catalogReply).requests + [TickerPrice(symbol, ts, RecvWindow)])
  {
  }

  /** The USDT lookup in the savings-transfer catalog finds its only instrument. */
  lemma AlphaOneLookup(catalog: ExchangeInfo)
    requires catalog == AlphaOneCatalog
    ensures ResolveInstrument(catalog, "USDT") == Ok(catalog.symbols.value[0])
  {
    assert FirstTradable(SymbolsOf(catalog), "USDT") == Some(0);
  }

  /** The build of the savings-transfer test: a catalog request, then a ticker request. */
  lemma AlphaOneBuild(now: real, ts: int, catalog: ExchangeInfo, ticker: Ticker)
    requires catalog == AlphaOneCatalog && ticker == Ticker(Some(Str("0.5000")))
    ensures BuildSpec(None, now, ts, "USDT", 1000.5, Answered(catalog), Answered(ticker))
      == BuildRun(Ok(OrderFields("ALPHA_1", "USDT", "0.5000", "2001.000")), Some(CatalogEntry(now, catalog)),
                  [GetExchangeInfo(ts, RecvWindow), TickerPrice("ALPHA_1USDT", ts, RecvWindow)])
  {
    var inst := catalog.symbols.value[0];
    HalfTicker();
    AlphaOneFields();
    AlphaOneLookup(catalog);
    BuildHappyPath(None, now, ts, "USDT", 1000.5, Answered(catalog), Answered(ticker), catalog, inst, "ALPHA_1USDT", 0.5);
  }

  /** The savings-transfer test: catalog, ticker, then one BUY order with the rendered fields. */
  lemma SavingsTransferExample(now: real, ts: int, ack: PlaceAck, catalog: ExchangeInfo, ticker: Ticker)
    requires catalog == AlphaOneCatalog && ticker == Ticker(Some(Str("0.5000")))
    ensures var t := TransferSpec(None, now, ts, "USDT", 1000.5, Buy, Answered(catalog), Answered(ticker), Answered(ack));
      t.result == Ok(ack)
      && t.requests == [GetExchangeInfo(ts, RecvWindow), TickerPrice("ALPHA_1USDT", ts, RecvWindow),
                        PlaceOrder(OrderParams("ALPHA_1", "USDT", Buy, "2001.000", "0.5000", ts, RecvWindow))]
  {
    AlphaOneBuild(now, ts, catalog, ticker);
  }

  /** A catalog whose only instrument is quoted in BNB. */
  const BnbOnlyCatalog := ExchangeInfo(Some([
    Instrument(Some("ALPHA_XBNB"), Some("TRADING"), Some("ALPHA_X"), Some("BNB"), Some(4), Some(4))]))

  /** No USDT instrument: the transfer fails after the catalog request, with no ticker request and no order. */
  lemma NotFoundExample(now: real, ts: int, tickerReply: Reply<Ticker>, placeReply: Reply<PlaceAck>)
    ensures var t := TransferSpec(None, now, ts, "USDT", 100.0, Buy, Answered(BnbOnlyCatalog), tickerReply, placeReply);
      t.result == Err(InstrumentNotFound("USDT")) && t.requests == [GetExchangeInfo(ts, RecvWindow)]
      && t.cache == Some(CatalogEntry(now, BnbOnlyCatalog))
  {
    assert FirstTradable(SymbolsOf(BnbOnlyCatalog), "USDT") == None;
  }

  /** A third at eight digits rounds down. */
  lemma FormatThird()
    ensures Format(1.0 / 3.0, 8) == "0.33333333"
  {
    Pow10Small();
    assert Pow10(8) == 100000000 by {
      assert Pow10(5) == 100000; assert Pow10(6) == 1000000; assert Pow10(7) == 10000000;
    }
    assert ScaleUp(1.0 / 3.0, 8) == 100000000.0 / 3.0;
    assert Scaled(1.0 / 3.0, 8) == 33333333 by {
      assert (100000000.0 / 3.0).Floor == 33333333;
    }
    assert WholeOf(33333333, 8) == 0 && FracOf(33333333, 8) == 33333333;
    assert DigitsOf(33333333) == "33333333" by {
      assert DigitsOf(3) == "3"; assert DigitsOf(33) == "33"; assert DigitsOf(333) == "333";
      assert DigitsOf(3333) == "3333"; assert DigitsOf(33333) == "33333"; assert DigitsOf(333333) == "333333";
      assert DigitsOf(3333333) == "3333333";
    }
    assert PadLeft("33333333", 8) == "33333333";
    assert DigitsOf(0) == "0";
  }

  /** A whole number at precision 0 has no point. */
  lemma FormatWhole()
    ensures Format(2.0, 0) == "2"
  {
    assert Scaled(2.0, 0) == 2;
    assert WholeOf(2, 0) == 2;
    assert DigitsOf(2) == "2";
  }

  /** 100 USDT at a price of 2.5 with price precision 2 and quantity precision 4. */
  lemma QuarterPriceFields()
    ensures BuildFields(Instrument(Some("ALPHA_QUSDT"), Some("TRADING"), Some("ALPHA_Q"), Some("USDT"), Some(2), Some(4)),
                        "USDT", 100.0, 2.5)
      == Ok(OrderFields("ALPHA_Q", "USDT", "2.50", "40.0000"))
  {
    Pow10Small();
    assert 100.0 / 2.5 == 40.0;
    assert Scaled(2.5, 2) == 250;
    assert WholeOf(250, 2) == 2 && FracOf(250, 2) == 50;
    assert DigitsOf(50) == "50" by { assert DigitsOf(5) == "5"; }
    assert DigitsOf(2) == "2";
    assert PadLeft("50", 2) == "50";
    assert Format(2.5, 2) == "2.50";
    assert Scaled(40.0, 4) == 400000;
    assert WholeOf(400000, 4) == 40 && FracOf(400000, 4) == 0;
    assert DigitsOf(40) == "40" by { assert DigitsOf(4) == "4"; }
    assert DigitsOf(0) == "0";
    assert PadLeft("0", 4) == "0000";
    assert Format(40.0, 4) == "40.0000";
  }
}
