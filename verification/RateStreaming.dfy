/** The streaming rate source: a bounded queue between scheduled ticks and one stream. */
module RateStreaming {
  import opened Wrappers
  import opened Quotes
  import opened Codecs
  import opened QuoteCache
  import opened TickerJoin

  datatype RateBatch = RateBatch(quotes: seq<Quote>)

  /** A maximum size of zero or less means no bound. */
  datatype Source = Source(maxsize: int, queue: seq<RateBatch>, shutdown: bool, started: bool)
  {
    predicate Full() {
      maxsize > 0 && |queue| >= maxsize
    }
  }

  datatype Fate = Ignored | Dropped | Enqueued

  function FateOf(s: Source): Fate {
    if s.shutdown then Ignored else if s.Full() then Dropped else Enqueued
  }

  function Offer(s: Source, batch: RateBatch): Source {
    if FateOf(s) == Enqueued then s.(queue := s.queue + [batch]) else s
  }

  /** What a tick has fetched: nothing if a request failed. */
  datatype Fetched = Fetched(tickers: seq<ExchangeTicker>, timestamp: int)

  /** The batch offered after a fetch: none if the fetch or the join failed or nothing was left. */
  function FetchedBatch(pairs: seq<Pair>, fetched: Option<Fetched>): Option<RateBatch> {
    match fetched
    case None => None
    case Some(f) =>
      match Join(Symbols(pairs), f.tickers, pairs, f.timestamp)
      case Err(_) => None
      case Ok(quotes) => if quotes == [] then None else Some(RateBatch(quotes))
  }

  function OfferFetched(s: Source, pairs: seq<Pair>, fetched: Option<Fetched>): Source {
    match FetchedBatch(pairs, fetched)
    case None => s
    case Some(batch) => Offer(s, batch)
  }

  /** The batch holds quotes, and exactly the quotes that the fetch has for the tracked pairs. */
  ghost predicate IsFetchOf(batch: RateBatch, pairs: seq<Pair>, fetched: Option<Fetched>) {
    && fetched.Some? && batch.quotes != []
    && forall q :: q in batch.quotes <==>
         IsQuoteOf(q, q.pair.Code(), fetched.value.tickers, pairs, fetched.value.timestamp)
  }

  /** The fetch failed, has too large a price for a tracked pair, or has no quote for any. */
  ghost predicate Missed(pairs: seq<Pair>, fetched: Option<Fetched>) {
    || fetched.None?
    || (exists i, symbol :: IsLastPair(pairs, i, symbol) && Overflows(fetched.value.tickers, symbol))
    || forall q: Quote :: !IsQuoteOf(q, q.pair.Code(), fetched.value.tickers, pairs, fetched.value.timestamp)
  }

  /** Nothing is offered after a fetch exactly if it failed, if a tracked price is too large, or
      if it has no quote for any tracked pair. */
  lemma FetchedBatchExact(pairs: seq<Pair>, fetched: Option<Fetched>)
    ensures FetchedBatch(pairs, fetched).None? <==> Missed(pairs, fetched)
    ensures FetchedBatch(pairs, fetched).Some? ==> IsFetchOf(FetchedBatch(pairs, fetched).value, pairs, fetched)
  {
    if fetched.Some? {
      var f, symbols := fetched.value, Symbols(pairs);
      var joined := Join(symbols, f.tickers, pairs, f.timestamp);
      JoinFailsIff(symbols, f.tickers, pairs, f.timestamp);
      forall symbol ensures symbol in symbols <==> exists i :: IsLastPair(pairs, i, symbol) {
        TrackedIff(pairs, symbol);
      }
      if joined.Ok? {
        forall q: Quote
          ensures q in joined.value <==> IsQuoteOf(q, q.pair.Code(), f.tickers, pairs, f.timestamp)
        {
          TickQuotesExact(q, f.tickers, pairs, f.timestamp);
        }
        if joined.value != [] {
          assert joined.value[0] in joined.value;
        }
      }
    }
  }

  lemma TrackedIff(pairs: seq<Pair>, symbol: string)
    ensures symbol in Symbols(pairs) <==> exists i :: IsLastPair(pairs, i, symbol)
  {
    SymbolsAreFirstOccurrences(pairs);
    if LastPair(pairs, symbol).Some? {
      LastPairIff(pairs, symbol, LastPair(pairs, symbol).value);
    }
    if i :| IsLastPair(pairs, i, symbol) {
      OneLastPair(pairs, i, symbol);
    }
  }

  function Drained(s: Source): Source {
    s.(queue := [], started := false)
  }

  /** What is offered after a fetch, over constructed pairs, is a batch that the stores accept. */
  lemma FetchOffersBatch(pairs: seq<Pair>, fetched: Option<Fetched>)
    requires forall i | 0 <= i < |pairs| :: ValidPair(pairs[i])
    requires FetchedBatch(pairs, fetched).Some?
    ensures
      var batch := FetchedBatch(pairs, fetched).value;
      fetched.Some? && batch.quotes != [] && IsBatch(batch.quotes, fetched.value.timestamp)
  {
    JoinIsBatch(fetched.value.tickers, pairs, fetched.value.timestamp);
  }

  /** Every quote offered after a fetch over pairs of accepted symbols can be cached. */
  lemma FetchedBatchEncodes(pairs: seq<Pair>, fetched: Option<Fetched>)
    requires forall i | 0 <= i < |pairs| :: Ingested(pairs[i])
    requires FetchedBatch(pairs, fetched).Some?
    ensures AllEncode(FetchedBatch(pairs, fetched).value.quotes)
  {
    forall i | 0 <= i < |pairs| ensures ValidPair(pairs[i]) {
      IngestedIff(pairs[i]);
    }
    FetchOffersBatch(pairs, fetched);
    var f, quotes := fetched.value, FetchedBatch(pairs, fetched).value.quotes;
    forall i | 0 <= i < |quotes| ensures EncodeTicker(quotes[i]).Ok? {
      JoinMember(quotes[i], Symbols(pairs), f.tickers, pairs, f.timestamp);
      var s :| s in Symbols(pairs) && Yields(quotes[i], s, f.tickers, pairs, f.timestamp);
      LastPairIsLast(pairs, s);
      IngestedEncodes(quotes[i]);
    }
  }

  class BinanceStreamingRateSource {
    const maxsize: int
    var queue: seq<RateBatch>
    var trackedPairs: seq<Pair>
    var shutdown: bool
    var started: bool

    ghost function View(): Source
      reads this
    {
      Source(maxsize, queue, shutdown, started)
    }

    constructor (maxsize: int)
      ensures View() == Source(maxsize, [], false, false) && trackedPairs == []
    {
      this.maxsize := maxsize;
      queue, trackedPairs := [], [];
      shutdown, started := false, false;
    }

    method OfferBatch(batch: RateBatch)
      modifies this`queue
      ensures View() == Offer(old(View()), batch)
      ensures queue ==
                if !shutdown && (maxsize <= 0 || |old(queue)| < maxsize) then old(queue) + [batch]
                else old(queue)
    {
      if shutdown {
        return;
      }
      if !(maxsize > 0 && |queue| >= maxsize) {
        queue := queue + [batch];
      }
    }

    /** A rates tick up to its requests; without pairs it sends none and offers an empty batch. */
    method BeginRatesTick() returns (fetching: bool)
      modifies this`queue
      ensures fetching <==> trackedPairs != []
      ensures View() == if fetching then old(View()) else Offer(old(View()), RateBatch([]))
    {
      fetching := trackedPairs != [];
      if !fetching {
        OfferBatch(RateBatch([]));
      }
    }

    /** The rest of a rates tick, with the pairs tracked by then; every error is swallowed. */
    method FinishRatesTick(fetched: Option<Fetched>)
      modifies this`queue
      ensures View() == OfferFetched(old(View()), trackedPairs, fetched)
      ensures queue != old(queue) ==>
                && !shutdown && (maxsize <= 0 || |old(queue)| < maxsize) && |queue| == |old(queue)| + 1
                && queue[..|old(queue)|] == old(queue) && IsFetchOf(queue[|old(queue)|], trackedPairs, fetched)
    {
      if fetched.Some? {
        var joined := TickersToQuotes(fetched.value.tickers, trackedPairs, fetched.value.timestamp);
        if joined.Ok? && joined.value != [] {
          FetchedBatchExact(trackedPairs, fetched);
          OfferBatch(RateBatch(joined.value));
        }
      }
    }

    /** A failed refresh keeps the pairs tracked so far. */
    method SymbolsTick(pairs: Option<seq<Pair>>)
      modifies this`trackedPairs
      ensures trackedPairs == if pairs.Some? then pairs.value else old(trackedPairs)
    {
      if pairs.Some? {
        trackedPairs := pairs.value;
      }
    }

    /** `close` up to its first wait; only the first caller goes on. */
    method BeginClose() returns (first: bool)
      modifies this`shutdown
      ensures first <==> !old(shutdown)
      ensures View() == old(View()).(shutdown := true)
    {
      first := !shutdown;
      shutdown := true;
    }

    /** The rest of `close`. */
    method FinishClose()
      modifies this`queue, this`started
      ensures View() == Drained(old(View()))
      ensures queue == [] && !started
    {
      while queue != []
        decreases |queue|
      {
        queue := queue[1..];
      }
      started := false;
    }
  }
}
