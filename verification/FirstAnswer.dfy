/** The whole way of one price: from an empty system to a reader's answer. */
module FirstAnswer {
  import opened Wrappers
  import opened Decimals
  import opened Quotes
  import opened Codecs
  import opened QuoteLog
  import opened Queries
  import opened TickerJoin
  import opened RateStreaming
  import opened EndToEnd
  import Pipeline
  import StoreRuns
  import StreamProgress

  /** The one ticker of the fetch is of the pair, and its price rounds to the quote's rate. */
  ghost predicate Prices(f: Fetched, q: Quote) {
    && Ingested(q.pair) && f.timestamp == q.timestamp
    && |f.tickers| == 1 && f.tickers[0].symbol == q.pair.Code()
    && PricedAt(f.tickers, q.pair.Code(), q.rate)
  }

  lemma SymbolOfOne(pair: Pair)
    ensures Symbols([pair]) == [pair.Code()] && LastPair([pair], pair.Code()) == Some(pair)
  {
    assert [pair][..0] == [];
    assert Symbols([]) == [];
  }

  lemma SingleJoin(f: Fetched, q: Quote)
    requires Prices(f, q)
    ensures FetchedBatch([q.pair], Some(f)) == Some(RateBatch([q]))
  {
    var pairs, code := [q.pair], q.pair.Code();
    SymbolOfOne(q.pair);
    RateForIff(f.tickers, code, q.rate);
    assert [code][..0] == [];
    assert Join([], f.tickers, pairs, f.timestamp) == Ok([]);
    assert [] + [q] == [q];
    assert Join([code], f.tickers, pairs, f.timestamp) == Ok([q]);
  }

  /** The store's two steps with the quote, and the answer after them. */
  lemma StoredAndAnswered(ttl: nat, w: StoreRuns.World, q: Quote)
    requires StoreRuns.Initial(w) && Ingested(q.pair) && 1 <= q.rate < LIMIT
    ensures
      var saving := BeginSave(w, [q]);
      var w' := StoreRuns.Step(ttl, saving, StoreRuns.AttemptCommits);
      && w'.Some? && w'.value.now == w.now
      && GetLatest(w'.value.rows, w'.value.entries, q.pair, w.now) == Ok(Some(q))
  {
    IngestedIff(q.pair);
    RowRoundTrip(q);
    assert [q][..0] == [];
    assert InsertBatch([], []) == [];
    assert InsertBatch([], [q]) == [EncodeRow(q)];
    assert [EncodeRow(q)][..0] == [];
    assert Newest([EncodeRow(q)], q.pair.Code(), None) == Some(EncodeRow(q));
  }

  /** A run of `n` events that ends in `s`. */
  ghost predicate RunTo(ttl: nat, maxsize: int, ss: seq<System>, es: seq<Event>, n: nat, s: System) {
    IsRun(ttl, maxsize, ss, es) && |es| == n && ss[n] == s
  }

  lemma Then(ttl: nat, maxsize: int, ss: seq<System>, es: seq<Event>, n: nat, s: System, e: Event, s': System)
    returns (ss': seq<System>, es': seq<Event>)
    requires RunTo(ttl, maxsize, ss, es, n, s) && Step(ttl, s, e) == Some(s')
    ensures RunTo(ttl, maxsize, ss', es', n + 1, s')
  {
    ss', es' := ss + [s'], es + [e];
    assert forall k | 0 <= k < n :: es'[k] == es[k];
  }

  lemma StreamStep(ttl: nat, s: System, e: Pipeline.Event, pipe: Pipeline.State)
    requires Pipeline.Step(s.pipe, e) == Some(pipe) && !e.Tick? && e != Pipeline.Decide && e != Pipeline.Finish
    ensures Step(ttl, s, Stream(e)) == Some(s.(pipe := pipe))
  {
  }

  lemma OfferIsTick(pipe: Pipeline.State, batch: RateBatch)
    ensures Pipeline.Step(pipe, Pipeline.Tick(batch)) == Some(Pipeline.OfferStep(pipe, batch))
  {
  }

  lemma FetchSteps(ttl: nat, s: System, f: Fetched, q: Quote)
    requires Prices(f, q) && s.fetching == 0 && s.fetches == []
    ensures Step(ttl, s, SymbolsTick([q.pair])) == Some(s.(tracked := [q.pair]))
    ensures Step(ttl, s.(tracked := [q.pair]), BeginRatesTick) == Some(s.(tracked := [q.pair], fetching := 1))
    ensures Step(ttl, s.(tracked := [q.pair], fetching := 1), FinishRatesTick(Some(f)))
         == Some(s.(tracked := [q.pair], fetches := [Fetch([q.pair], f)],
                    pipe := Pipeline.OfferStep(s.pipe, RateBatch([q]))))
  {
    SingleJoin(f, q);
    assert [] + [Fetch([q.pair], f)] == [Fetch([q.pair], f)];
  }

  lemma SaveSteps(ttl: nat, s: System, q: Quote, pipe: Pipeline.State, w': StoreRuns.World)
    requires s.pipe.hand.Holding? && s.pipe.hand.batch == RateBatch([q]) && !s.pipe.stopping
    requires pipe == Pipeline.DecideStep(s.pipe)
    requires StoreRuns.Step(ttl, BeginSave(s.stores, [q]), StoreRuns.AttemptCommits) == Some(w')
    ensures Step(ttl, s, Consume) == Some(s.(pipe := pipe, stores := BeginSave(s.stores, [q])))
    ensures Step(ttl, s.(pipe := pipe, stores := BeginSave(s.stores, [q])), Store(StoreRuns.AttemptCommits))
         == Some(s.(pipe := pipe, stores := w'))
  {
  }

  lemma PricedRange(f: Fetched, q: Quote)
    requires Prices(f, q)
    ensures 1 <= q.rate < LIMIT
  {
  }

  /** The stream is started, and nothing else has happened. */
  lemma StartSegment(ttl: nat, maxsize: int, s: System) returns (ss: seq<System>, es: seq<Event>)
    requires Initial(maxsize, s)
    ensures RunTo(ttl, maxsize, ss, es, 2, s.(pipe := Started(maxsize)))
  {
    StreamProgress.FirstSteps(maxsize, RateBatch([]));
    var starting := Pipeline.Step(s.pipe, Pipeline.CallStream(0)).value;
    StreamStep(ttl, s, Pipeline.CallStream(0), starting);
    StreamStep(ttl, s.(pipe := starting), Pipeline.InitSucceeds(0, true), Started(maxsize));
    ss, es := [s], [];
    assert RunTo(ttl, maxsize, ss, es, 0, s);
    ss, es := Then(ttl, maxsize, ss, es, 0, s, Stream(Pipeline.CallStream(0)), s.(pipe := starting));
    ss, es := Then(ttl, maxsize, ss, es, 1, s.(pipe := starting),
                   Stream(Pipeline.InitSucceeds(0, true)), s.(pipe := Started(maxsize)));
  }

  function Started(maxsize: int): Pipeline.State {
    var past := Pipeline.Past([], [], [], [], [], [], [], [], []);
    StreamProgress.Stage(maxsize, [], Pipeline.LoopHead, Pipeline.Empty, past)
  }

  function Queued(maxsize: int, pc: Pipeline.Pc, batch: RateBatch): Pipeline.State {
    StreamProgress.Stage(maxsize, [batch], pc, Pipeline.Empty, StreamProgress.Offered(batch))
  }

  function InHand(maxsize: int, batch: RateBatch): Pipeline.State {
    StreamProgress.Stage(maxsize, [], Pipeline.Yielded, Pipeline.Holding(0, batch), StreamProgress.Taken(batch))
  }

  /** A tick brings the batch of the fetch into the queue. */
  lemma FetchSegment(ttl: nat, maxsize: int, ss: seq<System>, es: seq<Event>, s: System, f: Fetched, q: Quote)
    returns (ss': seq<System>, es': seq<Event>)
    requires RunTo(ttl, maxsize, ss, es, 2, s) && s.pipe == Started(maxsize)
    requires Prices(f, q) && s.fetching == 0 && s.fetches == []
    ensures RunTo(ttl, maxsize, ss', es', 5,
                  s.(tracked := [q.pair], fetches := [Fetch([q.pair], f)],
                     pipe := Queued(maxsize, Pipeline.LoopHead, RateBatch([q]))))
  {
    FetchSteps(ttl, s, f, q);
    StreamProgress.FirstSteps(maxsize, RateBatch([q]));
    OfferIsTick(s.pipe, RateBatch([q]));
    var tracking := s.(tracked := [q.pair]);
    var fetching := s.(tracked := [q.pair], fetching := 1);
    var fetched := s.(tracked := [q.pair], fetches := [Fetch([q.pair], f)],
                      pipe := Queued(maxsize, Pipeline.LoopHead, RateBatch([q])));
    ss', es' := Then(ttl, maxsize, ss, es, 2, s, SymbolsTick([q.pair]), tracking);
    ss', es' := Then(ttl, maxsize, ss', es', 3, tracking, BeginRatesTick, fetching);
    ss', es' := Then(ttl, maxsize, ss', es', 4, fetching, FinishRatesTick(Some(f)), fetched);
  }

  /** The stream delivers it. */
  lemma TakeSegment(ttl: nat, maxsize: int, ss: seq<System>, es: seq<Event>, s: System, batch: RateBatch)
    returns (ss': seq<System>, es': seq<Event>)
    requires RunTo(ttl, maxsize, ss, es, 5, s) && s.pipe == Queued(maxsize, Pipeline.LoopHead, batch)
    ensures RunTo(ttl, maxsize, ss', es', 7, s.(pipe := InHand(maxsize, batch)))
  {
    StreamProgress.TakingSteps(maxsize, batch);
    var waiting := s.(pipe := Queued(maxsize, Pipeline.Awaiting, batch));
    StreamStep(ttl, s, Pipeline.LoopTest(0), waiting.pipe);
    StreamStep(ttl, waiting, Pipeline.Take(0), InHand(maxsize, batch));
    ss', es' := Then(ttl, maxsize, ss, es, 5, s, Stream(Pipeline.LoopTest(0)), waiting);
    ss', es' := Then(ttl, maxsize, ss', es', 6, waiting, Stream(Pipeline.Take(0)), s.(pipe := InHand(maxsize, batch)));
  }

  /** The consumer stores it. */
  lemma SaveSegment(ttl: nat, maxsize: int, ss: seq<System>, es: seq<Event>, s: System, q: Quote, w: StoreRuns.World)
    returns (ss': seq<System>, es': seq<Event>, s': System)
    requires RunTo(ttl, maxsize, ss, es, 7, s) && s.pipe == InHand(maxsize, RateBatch([q]))
    requires StoreRuns.Step(ttl, BeginSave(s.stores, [q]), StoreRuns.AttemptCommits) == Some(w)
    ensures RunTo(ttl, maxsize, ss', es', 9, s') && s'.stores == w && s'.fetches == s.fetches
  {
    var pipe := Pipeline.DecideStep(s.pipe);
    SaveSteps(ttl, s, q, pipe, w);
    var saving := s.(pipe := pipe, stores := BeginSave(s.stores, [q]));
    s' := s.(pipe := pipe, stores := w);
    ss', es' := Then(ttl, maxsize, ss, es, 7, s, Consume, saving);
    ss', es' := Then(ttl, maxsize, ss', es', 8, saving, Store(StoreRuns.AttemptCommits), s');
  }

  /** Nothing stands in the way of the first price: for every pair that ingest can deliver and
      every price that rounds to a rate, an empty system reaches, in nine steps, a state in
      which a reader gets exactly that quote. */
  lemma FirstPriceIsAnswered(ttl: nat, maxsize: int, f: Fetched, q: Quote) returns (ss: seq<System>, es: seq<Event>)
    requires Prices(f, q)
    ensures IsRun(ttl, maxsize, ss, es) && |es| == 9
    ensures GetLatest(ss[9].stores.rows, ss[9].stores.entries, q.pair, ss[9].stores.now) == Ok(Some(q))
    ensures ss[9].fetches == [Fetch([q.pair], f)]
  {
    var none: set<string> := {};
    var stores := StoreRuns.World([], map[], 0, StoreRuns.Idle, None, none);
    var s := System(Pipeline.InitialState(maxsize), stores, [], 0, []);
    PricedRange(f, q);
    StoredAndAnswered(ttl, s.stores, q);
    var w := StoreRuns.Step(ttl, BeginSave(s.stores, [q]), StoreRuns.AttemptCommits).value;
    ss, es := StartSegment(ttl, maxsize, s);
    ss, es := FetchSegment(ttl, maxsize, ss, es, s.(pipe := Started(maxsize)), f, q);
    var queued := s.(tracked := [q.pair], fetches := [Fetch([q.pair], f)],
                     pipe := Queued(maxsize, Pipeline.LoopHead, RateBatch([q])));
    ss, es := TakeSegment(ttl, maxsize, ss, es, queued, RateBatch([q]));
    var last: System;
    ss, es, last := SaveSegment(ttl, maxsize, ss, es, queued.(pipe := InHand(maxsize, RateBatch([q]))), q, w);
  }
}
