/** Joining one tick's ticker prices with the tracked pairs. */
module TickerJoin {
  import opened Wrappers
  import opened Decimals
  import opened Precision
  import opened Quotes
  import opened Sequences

  datatype ExchangeTicker = ExchangeTicker(symbol: string, price: real)

  // ---------------------------------------------------------------- specification

  function LastTicker(tickers: seq<ExchangeTicker>, symbol: string): Option<ExchangeTicker> {
    if tickers == [] then None
    else
      var last := tickers[|tickers| - 1];
      if last.symbol == symbol then Some(last) else LastTicker(tickers[..|tickers| - 1], symbol)
  }

  function LastPair(pairs: seq<Pair>, symbol: string): Option<Pair> {
    if pairs == [] then None
    else
      var last := pairs[|pairs| - 1];
      if last.Code() == symbol then Some(last) else LastPair(pairs[..|pairs| - 1], symbol)
  }

  /** The codes of the pairs, each once, in the order of their first occurrence. */
  function Symbols(pairs: seq<Pair>): (symbols: seq<string>)
    ensures forall s | s in symbols :: LastPair(pairs, s).Some?
  {
    if pairs == [] then []
    else
      var before, code := Symbols(pairs[..|pairs| - 1]), pairs[|pairs| - 1].Code();
      if code in before then before else before + [code]
  }

  /** The rate for a symbol: none without a ticker or when the price rounds to nothing. */
  function RateFor(tickers: seq<ExchangeTicker>, symbol: string): Result<Option<int>, Error> {
    match LastTicker(tickers, symbol)
    case None => Ok(None)
    case Some(t) =>
      if t.price < HALF_UNIT then Ok(None)
      else if t.price >= (LIMIT as real - 0.5) / SCALE then Err(InvalidOperation)
      else Ok(Some(HalfUp(t.price * SCALE)))
  }

  function Join(symbols: seq<string>, tickers: seq<ExchangeTicker>, pairs: seq<Pair>, timestamp: int):
      Result<seq<Quote>, Error>
    requires forall s | s in symbols :: LastPair(pairs, s).Some?
  {
    if symbols == [] then Ok([])
    else
      var n := |symbols| - 1;
      match Join(symbols[..n], tickers, pairs, timestamp)
      case Err(e) => Err(e)
      case Ok(quotes) =>
        match RateFor(tickers, symbols[n])
        case Err(e) => Err(e)
        case Ok(None) => Ok(quotes)
        case Ok(Some(rate)) => Ok(quotes + [Quote(LastPair(pairs, symbols[n]).value, rate, timestamp)])
  }

  // ---------------------------------------------------------------- the mapper

  method TickerMap(tickers: seq<ExchangeTicker>) returns (m: map<string, ExchangeTicker>)
    ensures forall s :: LastTicker(tickers, s) == if s in m then Some(m[s]) else None
  {
    m := map[];
    for i := 0 to |tickers|
      invariant forall s :: LastTicker(tickers[..i], s) == if s in m then Some(m[s]) else None
    {
      assert tickers[..i + 1][..i] == tickers[..i];
      m := m[tickers[i].symbol := tickers[i]];
    }
    assert tickers[..|tickers|] == tickers;
  }

  /** A dictionary keeps its keys in the order they were first inserted. */
  method PairMap(pairs: seq<Pair>) returns (order: seq<string>, m: map<string, Pair>)
    ensures order == Symbols(pairs)
    ensures forall s :: LastPair(pairs, s) == if s in m then Some(m[s]) else None
    ensures forall s :: s in order <==> s in m
  {
    order, m := [], map[];
    for i := 0 to |pairs|
      invariant order == Symbols(pairs[..i])
      invariant forall s :: LastPair(pairs[..i], s) == if s in m then Some(m[s]) else None
      invariant forall s :: s in order <==> s in m
    {
      assert pairs[..i + 1][..i] == pairs[..i];
      var code := pairs[i].Code();
      if code !in m {
        order := order + [code];
      }
      m := m[code := pairs[i]];
    }
    assert pairs[..|pairs|] == pairs;
  }

  /** What the rate factory says to the price is what the specification says to the symbol. */
  lemma CreatedRate(tickers: seq<ExchangeTicker>, symbol: string)
    requires LastTicker(tickers, symbol).Some? && LastTicker(tickers, symbol).value.price > 0.0
    ensures
      var created := CreateRate(LastTicker(tickers, symbol).value.price);
      RateFor(tickers, symbol) ==
        match created
        case Ok(rate) => Ok(Some(rate))
        case Err(ValueError) => Ok(None)
        case Err(InvalidOperation) => Err(InvalidOperation)
  {
    var price := LastTicker(tickers, symbol).value.price;
    CreateRateDefinedIff(price);
    if CreateRate(price).Ok? {
      ClampUnreachable(price);
    }
  }

  /** Only a value error of the rate factory skips a ticker; any other error ends the tick. */
  method TickersToQuotes(tickers: seq<ExchangeTicker>, pairs: seq<Pair>, timestamp: int)
    returns (r: Result<seq<Quote>, Error>)
    ensures r == Join(Symbols(pairs), tickers, pairs, timestamp)
  {
    var tickerMap := TickerMap(tickers);
    var order, pairMap := PairMap(pairs);
    var quotes: seq<Quote> := [];
    for i := 0 to |order|
      invariant forall s | s in order[..i] :: LastPair(pairs, s).Some?
      invariant Ok(quotes) == Join(order[..i], tickers, pairs, timestamp)
    {
      var symbol := order[i];
      assert order[..i + 1][..i] == order[..i];
      assert LastPair(pairs, symbol) == Some(pairMap[symbol]);
      assert LastTicker(tickers, symbol) == if symbol in tickerMap then Some(tickerMap[symbol]) else None;
      if symbol in tickerMap && tickerMap[symbol].price > 0.0 {
        CreatedRate(tickers, symbol);
        match CreateRate(tickerMap[symbol].price) {
          case Ok(rate) =>
            quotes := quotes + [Quote(pairMap[symbol], rate, timestamp)];
          case Err(ValueError) =>
          case Err(InvalidOperation) =>
            ErrorStays(order, i + 1, tickers, pairs, timestamp);
            return Err(InvalidOperation);
        }
      }
    }
    assert order[..|order|] == order;
    r := Ok(quotes);
  }

  lemma {:induction false} ErrorStays(
      symbols: seq<string>, n: nat, tickers: seq<ExchangeTicker>, pairs: seq<Pair>, timestamp: int)
    requires n <= |symbols| && forall s | s in symbols :: LastPair(pairs, s).Some?
    requires Join(symbols[..n], tickers, pairs, timestamp).Err?
    ensures Join(symbols, tickers, pairs, timestamp) == Join(symbols[..n], tickers, pairs, timestamp)
  {
    if n == |symbols| {
      assert symbols[..n] == symbols;
    } else {
      assert symbols[..|symbols| - 1][..n] == symbols[..n];
      ErrorStays(symbols[..|symbols| - 1], n, tickers, pairs, timestamp);
    }
  }

  // ---------------------------------------------------------------- what the join means

  function Codes(quotes: seq<Quote>): (codes: seq<string>)
    ensures |codes| == |quotes| && forall i | 0 <= i < |quotes| :: codes[i] == quotes[i].pair.Code()
  {
    if quotes == [] then [] else Codes(quotes[..|quotes| - 1]) + [quotes[|quotes| - 1].pair.Code()]
  }

  /** The last of the pairs with this code, and none exactly if no pair has it. */
  lemma {:induction false} LastPairIsLast(pairs: seq<Pair>, symbol: string)
    ensures LastPair(pairs, symbol).None? <==> forall i | 0 <= i < |pairs| :: pairs[i].Code() != symbol
    ensures LastPair(pairs, symbol).Some? ==>
              exists i :: 0 <= i < |pairs| && pairs[i] == LastPair(pairs, symbol).value && pairs[i].Code() == symbol
                       && forall j | i < j < |pairs| :: pairs[j].Code() != symbol
  {
    if pairs != [] && pairs[|pairs| - 1].Code() != symbol {
      LastPairIsLast(pairs[..|pairs| - 1], symbol);
    }
  }

  /** Each code of the pairs once, in the order of the first occurrences. */
  lemma {:induction false} SymbolsAreFirstOccurrences(pairs: seq<Pair>)
    ensures forall s :: s in Symbols(pairs) <==> LastPair(pairs, s).Some?
    ensures forall i, j | 0 <= i < j < |Symbols(pairs)| :: Symbols(pairs)[i] != Symbols(pairs)[j]
    ensures forall i, j | 0 <= i < j < |Symbols(pairs)| ::
              FirstIndex(pairs, Symbols(pairs)[i]) < FirstIndex(pairs, Symbols(pairs)[j])
  {
    if pairs != [] {
      var before := pairs[..|pairs| - 1];
      SymbolsAreFirstOccurrences(before);
      forall s | s in Symbols(before) ensures FirstIndex(pairs, s) == FirstIndex(before, s) < |before| {
        FirstIndexOfPrefix(pairs, s);
      }
      var code := pairs[|pairs| - 1].Code();
      if code !in Symbols(before) {
        FirstIndexOfPrefix(pairs, code);
      }
    }
  }

  /** Where a code occurs first; the number of pairs if it does not. */
  function FirstIndex(pairs: seq<Pair>, symbol: string): nat {
    if pairs == [] then 0
    else
      var before := FirstIndex(pairs[..|pairs| - 1], symbol);
      if before < |pairs| - 1 || pairs[|pairs| - 1].Code() == symbol then before else |pairs|
  }

  lemma FirstIndexOfPrefix(pairs: seq<Pair>, symbol: string)
    requires pairs != []
    ensures
      var before := pairs[..|pairs| - 1];
      && (LastPair(before, symbol).Some? ==> FirstIndex(pairs, symbol) == FirstIndex(before, symbol) < |before|)
      && (LastPair(before, symbol).None? ==> FirstIndex(before, symbol) == |before|)
  {
    FirstIndexIsFirst(pairs[..|pairs| - 1], symbol);
    LastPairIsLast(pairs[..|pairs| - 1], symbol);
  }

  lemma {:induction false} FirstIndexIsFirst(pairs: seq<Pair>, symbol: string)
    ensures FirstIndex(pairs, symbol) <= |pairs|
    ensures FirstIndex(pairs, symbol) < |pairs| ==> pairs[FirstIndex(pairs, symbol)].Code() == symbol
    ensures forall i | 0 <= i < FirstIndex(pairs, symbol) :: pairs[i].Code() != symbol
  {
    if pairs != [] {
      FirstIndexIsFirst(pairs[..|pairs| - 1], symbol);
    }
  }

  /** What the specification makes of a symbol. */
  ghost predicate Yields(q: Quote, symbol: string, tickers: seq<ExchangeTicker>, pairs: seq<Pair>, timestamp: int) {
    && LastPair(pairs, symbol) == Some(q.pair)
    && RateFor(tickers, symbol) == Ok(Some(q.rate))
    && q.timestamp == timestamp
  }

  lemma LastHasCode(pairs: seq<Pair>, symbol: string)
    requires LastPair(pairs, symbol).Some?
    ensures LastPair(pairs, symbol).value.Code() == symbol
  {
    LastPairIsLast(pairs, symbol);
  }

  lemma CodesOfOneMore(quotes: seq<Quote>, q: Quote)
    ensures Codes(quotes + [q]) == Codes(quotes) + [q.pair.Code()]
  {
    assert (quotes + [q])[..|quotes|] == quotes;
  }

  lemma {:induction false} JoinMember(
      q: Quote, symbols: seq<string>, tickers: seq<ExchangeTicker>, pairs: seq<Pair>, timestamp: int)
    requires forall s | s in symbols :: LastPair(pairs, s).Some?
    requires Join(symbols, tickers, pairs, timestamp).Ok?
    ensures q in Join(symbols, tickers, pairs, timestamp).value
       <==> exists s :: s in symbols && Yields(q, s, tickers, pairs, timestamp)
  {
    if symbols != [] {
      var n := |symbols| - 1;
      JoinMember(q, symbols[..n], tickers, pairs, timestamp);
      assert forall s :: s in symbols <==> s in symbols[..n] || s == symbols[n];
      LastQuote(q, symbols, tickers, pairs, timestamp);
    }
  }

  lemma LastQuote(q: Quote, symbols: seq<string>, tickers: seq<ExchangeTicker>, pairs: seq<Pair>, timestamp: int)
    requires symbols != [] && forall s | s in symbols :: LastPair(pairs, s).Some?
    requires Join(symbols, tickers, pairs, timestamp).Ok?
    ensures
      var n := |symbols| - 1;
      && Join(symbols[..n], tickers, pairs, timestamp).Ok?
      && (q in Join(symbols, tickers, pairs, timestamp).value
          <==> q in Join(symbols[..n], tickers, pairs, timestamp).value
               || Yields(q, symbols[n], tickers, pairs, timestamp))
  {
  }

  lemma {:induction false} JoinOrder(
      symbols: seq<string>, tickers: seq<ExchangeTicker>, pairs: seq<Pair>, timestamp: int)
    requires forall s | s in symbols :: LastPair(pairs, s).Some?
    requires Join(symbols, tickers, pairs, timestamp).Ok?
    ensures IsSubsequence(Codes(Join(symbols, tickers, pairs, timestamp).value), symbols)
  {
    if symbols != [] {
      var n := |symbols| - 1;
      JoinOrder(symbols[..n], tickers, pairs, timestamp);
      var before := Join(symbols[..n], tickers, pairs, timestamp).value;
      var rate := RateFor(tickers, symbols[n]).value;
      assert symbols == symbols[..n] + [symbols[n]];
      if rate == None {
        SkipLast(Codes(before), symbols[..n], symbols[n]);
      } else {
        LastHasCode(pairs, symbols[n]);
        CodesOfOneMore(before, Quote(LastPair(pairs, symbols[n]).value, rate.value, timestamp));
        KeepLast(Codes(before), symbols[..n], symbols[n]);
      }
    }
  }

  // ---------------------------------------------------------------- said of the tickers themselves

  /** Entry `i` is the last one of the symbol. */
  predicate IsLastTicker(tickers: seq<ExchangeTicker>, i: int, symbol: string) {
    && 0 <= i < |tickers| && tickers[i].symbol == symbol
    && forall j | i < j < |tickers| :: tickers[j].symbol != symbol
  }

  predicate IsLastPair(pairs: seq<Pair>, i: int, symbol: string) {
    && 0 <= i < |pairs| && pairs[i].Code() == symbol
    && forall j | i < j < |pairs| :: pairs[j].Code() != symbol
  }

  /** The price of the last ticker of the symbol is at least half a unit and rounds to `rate`. */
  ghost predicate PricedAt(tickers: seq<ExchangeTicker>, symbol: string, rate: int) {
    exists i ::
      && IsLastTicker(tickers, i, symbol)
      && HALF_UNIT <= tickers[i].price && rate < LIMIT
      && rate as real - 0.5 <= tickers[i].price * SCALE < rate as real + 0.5
  }

  /** ... or is too large to be rounded. */
  ghost predicate Overflows(tickers: seq<ExchangeTicker>, symbol: string) {
    exists i :: IsLastTicker(tickers, i, symbol) && tickers[i].price >= (LIMIT as real - 0.5) / SCALE
  }

  /** `q` is the quote of `symbol`: its last pair at the rounded price of its last ticker. */
  ghost predicate IsQuoteOf(
      q: Quote, symbol: string, tickers: seq<ExchangeTicker>, pairs: seq<Pair>, timestamp: int)
  {
    && (exists i :: IsLastPair(pairs, i, symbol) && pairs[i] == q.pair)
    && PricedAt(tickers, symbol, q.rate)
    && q.timestamp == timestamp
  }

  /** The last of the tickers of the symbol, and none exactly if there is none. */
  lemma {:induction false} LastTickerIsLast(tickers: seq<ExchangeTicker>, symbol: string)
    ensures LastTicker(tickers, symbol).None? <==> forall i | 0 <= i < |tickers| :: tickers[i].symbol != symbol
    ensures LastTicker(tickers, symbol).Some? ==>
              exists i :: IsLastTicker(tickers, i, symbol) && tickers[i] == LastTicker(tickers, symbol).value
  {
    if tickers != [] {
      var n := |tickers| - 1;
      if tickers[n].symbol == symbol {
        assert IsLastTicker(tickers, n, symbol);
      } else {
        LastTickerIsLast(tickers[..n], symbol);
        if LastTicker(tickers, symbol).Some? {
          var i :| IsLastTicker(tickers[..n], i, symbol) && tickers[..n][i] == LastTicker(tickers, symbol).value;
          assert IsLastTicker(tickers, i, symbol);
        }
      }
    }
  }

  lemma OneLastTicker(tickers: seq<ExchangeTicker>, i: int, symbol: string)
    requires IsLastTicker(tickers, i, symbol)
    ensures LastTicker(tickers, symbol) == Some(tickers[i])
  {
    LastTickerIsLast(tickers, symbol);
    var j :| IsLastTicker(tickers, j, symbol) && tickers[j] == LastTicker(tickers, symbol).value;
    assert i == j;
  }

  /** A symbol has a rate exactly if the last of its tickers has a price that rounds to it: none
      without a ticker, and none at a price below half a unit. */
  lemma RateForIff(tickers: seq<ExchangeTicker>, symbol: string, rate: int)
    ensures RateFor(tickers, symbol) == Ok(Some(rate)) <==> PricedAt(tickers, symbol, rate)
    ensures RateFor(tickers, symbol).Err? <==> Overflows(tickers, symbol)
  {
    LastTickerIsLast(tickers, symbol);
    if LastTicker(tickers, symbol).Some? {
      var i :| IsLastTicker(tickers, i, symbol) && tickers[i] == LastTicker(tickers, symbol).value;
      forall j | IsLastTicker(tickers, j, symbol) ensures j == i {
      }
      HalfUpCharacterised(tickers[i].price * SCALE, rate);
    }
  }

  lemma OneLastPair(pairs: seq<Pair>, i: int, symbol: string)
    requires IsLastPair(pairs, i, symbol)
    ensures LastPair(pairs, symbol) == Some(pairs[i])
  {
    LastPairIsLast(pairs, symbol);
  }

  lemma LastPairIff(pairs: seq<Pair>, symbol: string, pair: Pair)
    ensures LastPair(pairs, symbol) == Some(pair) <==> exists i :: IsLastPair(pairs, i, symbol) && pairs[i] == pair
  {
    LastPairIsLast(pairs, symbol);
    if LastPair(pairs, symbol) == Some(pair) {
      var i :| 0 <= i < |pairs| && pairs[i] == pair && pairs[i].Code() == symbol
            && forall j | i < j < |pairs| :: pairs[j].Code() != symbol;
      assert IsLastPair(pairs, i, symbol);
    }
    if i :| IsLastPair(pairs, i, symbol) && pairs[i] == pair {
      OneLastPair(pairs, i, symbol);
    }
  }

  lemma YieldsIff(q: Quote, symbol: string, tickers: seq<ExchangeTicker>, pairs: seq<Pair>, timestamp: int)
    ensures Yields(q, symbol, tickers, pairs, timestamp) <==> IsQuoteOf(q, symbol, tickers, pairs, timestamp)
  {
    RateForIff(tickers, symbol, q.rate);
    LastPairIff(pairs, symbol, q.pair);
  }

  /** The quotes that come out are exactly the quotes of the tracked symbols, in their order. */
  lemma JoinExact(symbols: seq<string>, tickers: seq<ExchangeTicker>, pairs: seq<Pair>, timestamp: int)
    requires forall s | s in symbols :: LastPair(pairs, s).Some?
    requires Join(symbols, tickers, pairs, timestamp).Ok?
    ensures
      var out := Join(symbols, tickers, pairs, timestamp).value;
      && (forall q :: q in out <==> exists s :: s in symbols && IsQuoteOf(q, s, tickers, pairs, timestamp))
      && IsSubsequence(Codes(out), symbols)
  {
    JoinOrder(symbols, tickers, pairs, timestamp);
    forall q: Quote
      ensures q in Join(symbols, tickers, pairs, timestamp).value
         <==> exists s :: s in symbols && IsQuoteOf(q, s, tickers, pairs, timestamp)
    {
      JoinMember(q, symbols, tickers, pairs, timestamp);
      forall s ensures Yields(q, s, tickers, pairs, timestamp) <==> IsQuoteOf(q, s, tickers, pairs, timestamp) {
        YieldsIff(q, s, tickers, pairs, timestamp);
      }
    }
  }

  /** Over a whole tick: a quote comes out exactly if it is the quote of its own code. */
  lemma TickQuotesExact(q: Quote, tickers: seq<ExchangeTicker>, pairs: seq<Pair>, timestamp: int)
    requires Join(Symbols(pairs), tickers, pairs, timestamp).Ok?
    ensures q in Join(Symbols(pairs), tickers, pairs, timestamp).value
       <==> IsQuoteOf(q, q.pair.Code(), tickers, pairs, timestamp)
  {
    JoinExact(Symbols(pairs), tickers, pairs, timestamp);
    SymbolsAreFirstOccurrences(pairs);
    LastPairIff(pairs, q.pair.Code(), q.pair);
  }

  /** The tick fails exactly when some tracked symbol's last price needs more than 28 digits,
      and then with the error no caller expects. */
  lemma {:induction false} JoinFailsIff(
      symbols: seq<string>, tickers: seq<ExchangeTicker>, pairs: seq<Pair>, timestamp: int)
    requires forall s | s in symbols :: LastPair(pairs, s).Some?
    ensures Join(symbols, tickers, pairs, timestamp).Err? <==>
              exists s :: s in symbols && Overflows(tickers, s)
    ensures Join(symbols, tickers, pairs, timestamp).Err? ==>
              Join(symbols, tickers, pairs, timestamp) == Err(InvalidOperation)
  {
    if symbols != [] {
      var n := |symbols| - 1;
      JoinFailsIff(symbols[..n], tickers, pairs, timestamp);
      assert symbols == symbols[..n] + [symbols[n]];
      assert forall s :: s in symbols <==> s in symbols[..n] || s == symbols[n];
      RateForIff(tickers, symbols[n], 0);
    }
  }

  /** One price that is too large costs a tick all its quotes: the same tickers without the
      last one give a quote. */
  lemma HugePriceEndsTick(timestamp: int) returns (tickers: seq<ExchangeTicker>, pairs: seq<Pair>)
    ensures tickers != [] && forall i | 0 <= i < |pairs| :: ValidPair(pairs[i])
    ensures Join(Symbols(pairs), tickers, pairs, timestamp) == Err(InvalidOperation)
    ensures
      var rest := Join(Symbols(pairs), tickers[..|tickers| - 1], pairs, timestamp);
      rest.Ok? && rest.value != []
  {
    var ab, xy := Pair("A", "B"), Pair("X", "Y");
    var fine, huge := ExchangeTicker("XY", 1.0), ExchangeTicker("AB", 100_000_000_000_000_000_000.0);
    tickers, pairs := [fine, huge], [xy, ab];
    SingleLetters();
    SymbolsOfTwo(xy, ab);
    HugeTickerFails(Symbols(pairs), [fine], huge, pairs, timestamp);
    FineTickerGivesQuote(Symbols(pairs), fine, pairs, timestamp);
    assert [fine] + [huge] == tickers && tickers[..1] == [fine];
  }

  lemma SymbolsOfTwo(p: Pair, p': Pair)
    ensures p.Code() in Symbols([p, p']) && p'.Code() in Symbols([p, p'])
  {
    SymbolsAreFirstOccurrences([p, p']);
    LastPairIsLast([p, p'], p.Code());
    LastPairIsLast([p, p'], p'.Code());
    assert [p, p'][0] == p && [p, p'][1] == p';
  }

  lemma HugeTickerFails(
      symbols: seq<string>, tickers: seq<ExchangeTicker>, huge: ExchangeTicker, pairs: seq<Pair>, timestamp: int)
    requires forall s | s in symbols :: LastPair(pairs, s).Some?
    requires huge.symbol in symbols && huge.price == 100_000_000_000_000_000_000.0
    ensures Join(symbols, tickers + [huge], pairs, timestamp) == Err(InvalidOperation)
  {
    assert IsLastTicker(tickers + [huge], |tickers|, huge.symbol);
    JoinFailsIff(symbols, tickers + [huge], pairs, timestamp);
  }

  lemma SingleLetters()
    ensures ValidPair(Pair("A", "B")) && Pair("A", "B").Code() == "AB"
    ensures ValidPair(Pair("X", "Y")) && Pair("X", "Y").Code() == "XY"
  {
    assert IsAlnum("A"[0]) && IsAlnum("B"[0]) && IsAlnum("X"[0]) && IsAlnum("Y"[0]);
    assert Upper("A") == "A" && Upper("B") == "B" && Upper("X") == "X" && Upper("Y") == "Y";
  }

  lemma FineTickerGivesQuote(symbols: seq<string>, fine: ExchangeTicker, pairs: seq<Pair>, timestamp: int)
    requires forall s | s in symbols :: LastPair(pairs, s).Some?
    requires fine.price == 1.0 && fine.symbol in symbols
    ensures Join(symbols, [fine], pairs, timestamp).Ok? && Join(symbols, [fine], pairs, timestamp).value != []
  {
    assert [fine][..0] == [];
    assert forall s :: LastTicker([fine], s) == if s == fine.symbol then Some(fine) else None;
    JoinFailsIff(symbols, [fine], pairs, timestamp);
    assert forall s, i | IsLastTicker([fine], i, s) :: [fine][i] == fine;
    HalfUpOfInteger(100_000_000);
    assert RateFor([fine], fine.symbol) == Ok(Some(100_000_000));
    var q := Quote(LastPair(pairs, fine.symbol).value, 100_000_000, timestamp);
    assert Yields(q, fine.symbol, [fine], pairs, timestamp);
    JoinMember(q, symbols, [fine], pairs, timestamp);
  }

  lemma QuoteOfIsValid(q: Quote, symbol: string, tickers: seq<ExchangeTicker>, pairs: seq<Pair>, timestamp: int)
    requires forall i | 0 <= i < |pairs| :: ValidPair(pairs[i])
    requires Yields(q, symbol, tickers, pairs, timestamp)
    ensures ValidQuote(q) && q.timestamp == timestamp
  {
    LastPairIsLast(pairs, symbol);
    HalfUpCharacterised(LastTicker(tickers, symbol).value.price * SCALE, q.rate);
  }

  /** For tracked pairs that were constructed, one tick's quotes are a batch: valid quotes with
      one timestamp and pairwise different codes. */
  lemma JoinIsBatch(tickers: seq<ExchangeTicker>, pairs: seq<Pair>, timestamp: int)
    requires forall i | 0 <= i < |pairs| :: ValidPair(pairs[i])
    requires Join(Symbols(pairs), tickers, pairs, timestamp).Ok?
    ensures IsBatch(Join(Symbols(pairs), tickers, pairs, timestamp).value, timestamp)
  {
    var symbols := Symbols(pairs);
    var out := Join(symbols, tickers, pairs, timestamp).value;
    JoinExact(symbols, tickers, pairs, timestamp);
    SymbolsAreFirstOccurrences(pairs);
    forall i | 0 <= i < |out| ensures ValidQuote(out[i]) && out[i].timestamp == timestamp {
      assert out[i] in out;
      JoinMember(out[i], symbols, tickers, pairs, timestamp);
      var s :| s in symbols && Yields(out[i], s, tickers, pairs, timestamp);
      QuoteOfIsValid(out[i], s, tickers, pairs, timestamp);
    }
    StayDistinct(Codes(out), symbols);
  }
}
