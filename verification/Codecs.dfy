/** The two stored forms of a quote: the cached ticker and the database row. */
module Codecs {
  import opened Wrappers
  import opened Decimals
  import opened DecimalText
  import opened Precision
  import opened Quotes

  // ---------------------------------------------------------------- exchange symbols

  datatype SymbolInfo = SymbolInfo(symbol: string, baseAsset: string, quoteAsset: string)

  predicate AcceptedSymbol(info: SymbolInfo) {
    && info.symbol != "" && IsUpperText(info.symbol)
    && info.baseAsset != "" && info.quoteAsset != ""
    && info.symbol == info.baseAsset + info.quoteAsset
  }

  // ---------------------------------------------------------------- cached tickers

  /** What the cache holds: symbol and rate as text. */
  datatype Ticker = Ticker(symbol: string, rate: string, timestamp: int)

  predicate AcceptedTicker(symbol: string, rate: real) {
    symbol != "" && IsUpperText(symbol) && rate >= 0.0
  }

  function EncodeTicker(q: Quote): Result<Ticker, Error> {
    if AcceptedTicker(q.pair.Code(), GridValue(q.rate)) then
      Ok(Ticker(q.pair.Code(), Format(q.rate), q.timestamp))
    else Err(ValueError)
  }

  /** Reading back puts the pair that was asked for into the quote. */
  function DecodeTicker(t: Ticker, pair: Pair): Result<Quote, Error> {
    match Parse(t.rate)
    case None => Err(ValueError)
    case Some(decimal) =>
      if !AcceptedTicker(t.symbol, decimal.Value()) then Err(ValueError)
      else
        match CreateRate(decimal.Value())
        case Err(e) => Err(e)
        case Ok(rate) => Ok(Quote(pair, rate, t.timestamp))
  }

  // ---------------------------------------------------------------- database rows

  /** Symbol and timestamp are the primary key; the rate column stores decimals exactly. */
  datatype Row = Row(symbol: string, timestamp: int, base: string, quote: string, rate: real)

  function EncodeRow(q: Quote): Row {
    Row(q.pair.Code(), q.timestamp, q.pair.base, q.pair.quote, GridValue(q.rate))
  }

  function DecodeRow(row: Row): Result<Quote, Error> {
    match CreatePair(row.base, row.quote)
    case Err(e) => Err(e)
    case Ok(pair) =>
      match CreateRate(row.rate)
      case Err(e) => Err(e)
      case Ok(rate) => Ok(Quote(pair, rate, row.timestamp))
  }

  // ---------------------------------------------------------------- round trips

  /** A stored row reads back as the quote that was stored. */
  lemma RowRoundTrip(q: Quote)
    requires ValidQuote(q)
    ensures DecodeRow(EncodeRow(q)) == Ok(q)
  {
    RecreateRate(q.rate);
  }

  /** A quote can be cached exactly when its code has a letter: the ticker wants upper-case
      text, and digits and underscores alone are not. */
  lemma EncodeTickerDefinedIff(q: Quote)
    requires ValidQuote(q)
    ensures EncodeTicker(q).Ok? <==> exists i | 0 <= i < |q.pair.Code()| :: IsUpper(q.pair.Code()[i])
  {
    ValidPairsHaveNoLower(q.pair);
  }

  /** A cached ticker can be read exactly if its rate is the text of a decimal that makes a rate
      and its symbol is upper-case text; it yields that rate under the requested pair. */
  lemma DecodeTickerIff(t: Ticker, pair: Pair, rate: int)
    ensures DecodeTicker(t, pair) == Ok(Quote(pair, rate, t.timestamp)) <==>
              && Parse(t.rate).Some? && CreateRate(Parse(t.rate).value.Value()) == Ok(rate)
              && (exists i :: 0 <= i < |t.symbol| && 'A' <= t.symbol[i] <= 'Z')
              && (forall i | 0 <= i < |t.symbol| :: !('a' <= t.symbol[i] <= 'z'))
    ensures DecodeTicker(t, pair).Ok? ==>
              DecodeTicker(t, pair).value == Quote(pair, DecodeTicker(t, pair).value.rate, t.timestamp)
  {
    if Parse(t.rate).Some? {
      CreateRateDefinedIff(Parse(t.rate).value.Value());
    }
  }

  /** A row can be read exactly if its two currencies make a pair and its decimal a rate. */
  lemma DecodeRowIff(row: Row, pair: Pair, rate: int)
    ensures DecodeRow(row) == Ok(Quote(pair, rate, row.timestamp)) <==>
              CreatePair(row.base, row.quote) == Ok(pair) && CreateRate(row.rate) == Ok(rate)
  {
  }

  /** A cached quote reads back with the stored rate and timestamp and the requested pair. */
  lemma TickerRoundTrip(q: Quote, requested: Pair)
    requires ValidQuote(q) && EncodeTicker(q).Ok?
    ensures DecodeTicker(EncodeTicker(q).value, requested) == Ok(q.(pair := requested))
  {
    TextRoundTrip(q.rate);
    GridDecimalValue(q.rate);
    RecreateRate(q.rate);
  }

  /** For every accepted exchange symbol whose two currencies construct, the pair's code is the
      symbol itself, and every quote of that pair can be cached and read back unchanged. */
  lemma SymbolsGuaranteeCodec(info: SymbolInfo, rate: int, timestamp: int)
    requires AcceptedSymbol(info) && CreatePair(info.baseAsset, info.quoteAsset).Ok?
    requires 1 <= rate < LIMIT
    ensures
      var pair := CreatePair(info.baseAsset, info.quoteAsset).value;
      var q := Quote(pair, rate, timestamp);
      && pair.Code() == info.symbol
      && ValidQuote(q)
      && EncodeTicker(q).Ok?
      && DecodeTicker(EncodeTicker(q).value, pair) == Ok(q)
  {
    var pair := CreatePair(info.baseAsset, info.quoteAsset).value;
    var q := Quote(pair, rate, timestamp);
    UpperOfUpperText(info.baseAsset, info.quoteAsset);
    assert pair == Pair(info.baseAsset, info.quoteAsset);
    assert q.pair.Code() == info.symbol;
    TickerRoundTrip(q, pair);
  }

  /** The pair of an accepted exchange symbol, as ingest builds it. */
  ghost predicate Ingested(p: Pair) {
    exists info :: AcceptedSymbol(info) && CreatePair(info.baseAsset, info.quoteAsset) == Ok(p)
  }

  /** Ingest delivers exactly the valid pairs whose code has a letter, so none of its quotes
      is refused by the cache. */
  lemma IngestedIff(p: Pair)
    ensures Ingested(p) <==> ValidPair(p) && exists i | 0 <= i < |p.Code()| :: IsUpper(p.Code()[i])
  {
    if Ingested(p) {
      var info :| AcceptedSymbol(info) && CreatePair(info.baseAsset, info.quoteAsset) == Ok(p);
      ConstructedPairsAreValid(info.baseAsset, info.quoteAsset);
      SymbolsGuaranteeCodec(info, 1, 0);
    }
    if ValidPair(p) && exists i | 0 <= i < |p.Code()| :: IsUpper(p.Code()[i]) {
      ValidPairsHaveNoLower(p);
      assert AcceptedSymbol(SymbolInfo(p.Code(), p.base, p.quote));
    }
  }

  lemma IngestedEncodes(q: Quote)
    requires ValidQuote(q) && Ingested(q.pair)
    ensures EncodeTicker(q).Ok?
  {
    IngestedIff(q.pair);
    EncodeTickerDefinedIff(q);
  }

  lemma UpperOfUpperText(base: string, quote: string)
    requires IsUpperText(base + quote)
    ensures Upper(base) == base && Upper(quote) == quote
  {
    assert forall i | 0 <= i < |base| :: (base + quote)[i] == base[i];
    assert forall i | 0 <= i < |quote| :: (base + quote)[|base| + i] == quote[i];
  }
}
