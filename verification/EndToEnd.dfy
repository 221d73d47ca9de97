/** From the exchange's tickers to a reader's answer: the source, the pipeline and the stores as
    one machine. Its hypotheses are about the exchange alone: tracked pairs come from accepted
    symbols, and a fetch finds the server's clock later than the fetch before. */
module EndToEnd {
  import opened Wrappers
  import opened Decimals
  import opened Quotes
  import opened Codecs
  import opened Queries
  import opened QuoteCache
  import opened Sequences
  import opened TickerJoin
  import opened RateStreaming
  import opened Writers
  import QuoteLog
  import Pipeline
  import PipelineProperties
  import StoreRuns
  import ReadProperties

  /** A successful fetch and the pairs it was joined with. */
  datatype Fetch = Fetch(pairs: seq<Pair>, fetched: Fetched)

  /** `fetching` counts the ticks whose requests are under way; `fetches` is the past. */
  datatype System = System(
    pipe: Pipeline.State, stores: StoreRuns.World, tracked: seq<Pair>, fetching: nat, fetches: seq<Fetch>)

  datatype Event =
    | SymbolsTick(pairs: seq<Pair>)
    | BeginRatesTick
    | FinishRatesTick(fetched: Option<Fetched>)
    | Consume
    | Done
    | Stream(source: Pipeline.Event)
    | Store(store: StoreRuns.Event)

  ghost predicate AllIngested(pairs: seq<Pair>) {
    forall i | 0 <= i < |pairs| :: Ingested(pairs[i])
  }

  function OfferIfAny(pipe: Pipeline.State, batch: Option<RateBatch>): Pipeline.State {
    match batch
    case None => pipe
    case Some(b) => Pipeline.OfferStep(pipe, b)
  }

  /** The consumer hands a batch to the writer. Nothing is checked here. */
  function BeginSave(w: StoreRuns.World, quotes: seq<Quote>): StoreRuns.World
    requires quotes != []
  {
    w.(writer := StoreRuns.Trying(quotes, 1), last := Some(quotes[0].timestamp))
  }

  predicate Later(fetches: seq<Fetch>, fetched: Fetched) {
    fetches != [] ==> fetches[|fetches| - 1].fetched.timestamp < fetched.timestamp
  }

  /** The consumer takes the batch it holds to the stores. */
  predicate Saves(pipe: Pipeline.State) {
    pipe.hand.Holding? && Pipeline.VerdictOn(pipe.stopping, pipe.hand.batch) == Pipeline.Process
  }

  ghost function Step(ttl: nat, s: System, e: Event): Option<System> {
    match e
    case SymbolsTick(pairs) =>
      if AllIngested(pairs) then Some(s.(tracked := pairs)) else None
    case BeginRatesTick =>
      if s.tracked == [] then Some(s.(pipe := Pipeline.OfferStep(s.pipe, RateBatch([]))))
      else Some(s.(fetching := s.fetching + 1))
    case FinishRatesTick(fetched) =>
      if s.fetching == 0 || (fetched.Some? && !Later(s.fetches, fetched.value)) then None
      else
        Some(s.(fetching := s.fetching - 1,
                fetches := if fetched.Some? then s.fetches + [Fetch(s.tracked, fetched.value)] else s.fetches,
                pipe := OfferIfAny(s.pipe, FetchedBatch(s.tracked, fetched))))
    case Consume =>
      if !s.pipe.hand.Holding? then None
      else
        Some(s.(pipe := Pipeline.DecideStep(s.pipe),
                stores := if Saves(s.pipe) then BeginSave(s.stores, s.pipe.hand.batch.quotes) else s.stores))
    case Done =>
      if s.stores.writer != StoreRuns.Idle then None
      else
        (match Pipeline.Step(s.pipe, Pipeline.Finish)
         case None => None
         case Some(pipe) => Some(s.(pipe := pipe)))
    case Stream(source) =>
      if source.Tick? || source.Decide? || source.Finish? then None
      else
        (match Pipeline.Step(s.pipe, source)
         case None => None
         case Some(pipe) => Some(s.(pipe := pipe)))
    case Store(store) =>
      if store.Begin? then None
      else
        (match StoreRuns.Step(ttl, s.stores, store)
         case None => None
         case Some(stores) => Some(s.(stores := stores)))
  }

  ghost predicate Initial(maxsize: int, s: System) {
    && s.pipe == Pipeline.InitialState(maxsize) && StoreRuns.Initial(s.stores)
    && s.tracked == [] && s.fetching == 0 && s.fetches == []
  }

  ghost predicate IsRun(ttl: nat, maxsize: int, ss: seq<System>, es: seq<Event>) {
    && |ss| == |es| + 1
    && Initial(maxsize, ss[0])
    && forall k {:trigger es[k]} | 0 <= k < |es| :: Step(ttl, ss[k], es[k]) == Some(ss[k + 1])
  }

  // ---------------------------------------------------------------- the pipeline goes through a run of its own

  /** What the pipeline does in an event, if anything. */
  function Piped(s: System, e: Event): Option<Pipeline.Event> {
    match e
    case SymbolsTick(_) => None
    case BeginRatesTick => if s.tracked == [] then Some(Pipeline.Tick(RateBatch([]))) else None
    case FinishRatesTick(fetched) =>
      (match FetchedBatch(s.tracked, fetched)
       case None => None
       case Some(batch) => Some(Pipeline.Tick(batch)))
    case Consume => Some(Pipeline.Decide)
    case Done => Some(Pipeline.Finish)
    case Stream(source) => Some(source)
    case Store(_) => None
  }

  lemma PipedStep(ttl: nat, s: System, e: Event, s': System)
    requires Step(ttl, s, e) == Some(s')
    ensures match Piped(s, e)
            case None => s'.pipe == s.pipe
            case Some(event) => Pipeline.Step(s.pipe, event) == Some(s'.pipe)
  {
  }

  ghost predicate PipeOk(pipe: Pipeline.State) {
    && Pipeline.Conserved(pipe.past, pipe.src, pipe.closing)
    && Pipeline.ShutdownOrder(pipe.past, pipe.src, pipe.closing)
    && Pipeline.Settled(pipe.past, pipe.hand) && Pipeline.InOrder(pipe.past, pipe.hand)
  }

  /** The pipeline of the composed machine goes through a run of Pipeline. */
  lemma {:induction false} PipelineRun(ttl: nat, maxsize: int, ss: seq<System>, es: seq<Event>, k: nat)
    returns (ps: seq<Pipeline.State>, pes: seq<Pipeline.Event>)
    requires IsRun(ttl, maxsize, ss, es) && k <= |es|
    ensures Pipeline.IsRun(maxsize, ps, pes) && ps[|pes|] == ss[k].pipe
  {
    if k == 0 {
      ps, pes := [ss[0].pipe], [];
    } else {
      ps, pes := PipelineRun(ttl, maxsize, ss, es, k - 1);
      PipedStep(ttl, ss[k - 1], es[k - 1], ss[k]);
      if Piped(ss[k - 1], es[k - 1]).Some? {
        var e := Piped(ss[k - 1], es[k - 1]).value;
        Pipeline.RunGrows(maxsize, ps, pes, e, ss[k].pipe);
        ps, pes := ps + [ss[k].pipe], pes + [e];
      }
    }
  }

  lemma PipeOkAlways(ttl: nat, maxsize: int, ss: seq<System>, es: seq<Event>, k: nat)
    requires IsRun(ttl, maxsize, ss, es) && k <= |es|
    ensures PipeOk(ss[k].pipe)
  {
    var ps, pes := PipelineRun(ttl, maxsize, ss, es, k);
    Pipeline.ConservedAlways(maxsize, ps, pes, |pes|);
  }

  // ---------------------------------------------------------------- what is offered

  /** The batch is what fetch number `i` was joined to. */
  ghost predicate JoinedBy(batch: RateBatch, fetches: seq<Fetch>, i: int) {
    && 0 <= i < |fetches| && AllIngested(fetches[i].pairs)
    && FetchedBatch(fetches[i].pairs, Some(fetches[i].fetched)) == Some(batch)
  }

  ghost predicate FromFetch(batch: RateBatch, fetches: seq<Fetch>) {
    exists i :: JoinedBy(batch, fetches, i)
  }

  ghost predicate FetchesOk(fetches: seq<Fetch>) {
    forall i, j | 0 <= i < j < |fetches| :: fetches[i].fetched.timestamp < fetches[j].fetched.timestamp
  }

  ghost predicate OfferedOk(offered: seq<RateBatch>, fetches: seq<Fetch>) {
    && FetchesOk(fetches)
    && (forall i | 0 <= i < |offered| && offered[i].quotes != [] :: FromFetch(offered[i], fetches))
    && PipelineProperties.Increasing(offered)
  }

  lemma FetchedBatchIsBatch(batch: RateBatch, fetches: seq<Fetch>, i: int)
    requires JoinedBy(batch, fetches, i)
    ensures batch.quotes != [] && IsBatch(batch.quotes, fetches[i].fetched.timestamp)
    ensures batch.quotes[0].timestamp == fetches[i].fetched.timestamp
  {
    forall j | 0 <= j < |fetches[i].pairs| ensures ValidPair(fetches[i].pairs[j]) {
      IngestedIff(fetches[i].pairs[j]);
    }
    FetchOffersBatch(fetches[i].pairs, Some(fetches[i].fetched));
  }

  lemma StillFromFetch(batch: RateBatch, fetches: seq<Fetch>, fetch: Fetch)
    requires FromFetch(batch, fetches)
    ensures FromFetch(batch, fetches + [fetch])
  {
    var i :| JoinedBy(batch, fetches, i);
    assert JoinedBy(batch, fetches + [fetch], i);
  }

  lemma MoreFetches(offered: seq<RateBatch>, fetches: seq<Fetch>, fetch: Fetch)
    requires OfferedOk(offered, fetches) && Later(fetches, fetch.fetched)
    ensures OfferedOk(offered, fetches + [fetch])
  {
    forall i | 0 <= i < |offered| && offered[i].quotes != [] ensures FromFetch(offered[i], fetches + [fetch]) {
      StillFromFetch(offered[i], fetches, fetch);
    }
  }

  /** A batch of a fetch is earlier than a later fetch. */
  lemma FetchedBefore(batch: RateBatch, fetches: seq<Fetch>, fetch: Fetch)
    requires FromFetch(batch, fetches) && FetchesOk(fetches) && Later(fetches, fetch.fetched)
    ensures batch.quotes != [] && batch.quotes[0].timestamp < fetch.fetched.timestamp
  {
    var i := FetchTimeOf(batch, fetches);
    EarlierFetch(fetches, fetch, i);
  }

  lemma FetchTimeOf(batch: RateBatch, fetches: seq<Fetch>) returns (i: nat)
    requires FromFetch(batch, fetches)
    ensures i < |fetches| && batch.quotes != [] && batch.quotes[0].timestamp == fetches[i].fetched.timestamp
  {
    i :| JoinedBy(batch, fetches, i);
    FetchedBatchIsBatch(batch, fetches, i);
  }

  lemma EarlierFetch(fetches: seq<Fetch>, fetch: Fetch, i: nat)
    requires FetchesOk(fetches) && Later(fetches, fetch.fetched) && i < |fetches|
    ensures fetches[i].fetched.timestamp < fetch.fetched.timestamp
  {
    assert fetches[i].fetched.timestamp <= fetches[|fetches| - 1].fetched.timestamp;
  }

  lemma NewestFromFetch(batch: RateBatch, fetches: seq<Fetch>, fetch: Fetch)
    requires AllIngested(fetch.pairs) && FetchedBatch(fetch.pairs, Some(fetch.fetched)) == Some(batch)
    ensures FromFetch(batch, fetches + [fetch])
    ensures batch.quotes != [] && batch.quotes[0].timestamp == fetch.fetched.timestamp
  {
    assert JoinedBy(batch, fetches + [fetch], |fetches|);
    FetchedBatchIsBatch(batch, fetches + [fetch], |fetches|);
  }

  lemma AppendOffered(offered: seq<RateBatch>, fetches: seq<Fetch>, batch: RateBatch)
    requires OfferedOk(offered, fetches) && FromFetch(batch, fetches) && batch.quotes != []
    requires forall i | 0 <= i < |offered| && offered[i].quotes != [] ::
               offered[i].quotes[0].timestamp < batch.quotes[0].timestamp
    ensures OfferedOk(offered + [batch], fetches)
  {
  }

  lemma OneMoreOffered(offered: seq<RateBatch>, fetches: seq<Fetch>, batch: RateBatch, fetch: Fetch)
    requires OfferedOk(offered, fetches) && Later(fetches, fetch.fetched) && AllIngested(fetch.pairs)
    requires FetchedBatch(fetch.pairs, Some(fetch.fetched)) == Some(batch)
    ensures OfferedOk(offered + [batch], fetches + [fetch])
  {
    MoreFetches(offered, fetches, fetch);
    NewestFromFetch(batch, fetches, fetch);
    forall i | 0 <= i < |offered| && offered[i].quotes != []
      ensures offered[i].quotes[0].timestamp < batch.quotes[0].timestamp
    {
      FetchedBefore(offered[i], fetches, fetch);
    }
    AppendOffered(offered, fetches + [fetch], batch);
  }

  /** How offers and fetches move: an empty batch and no fetch, or a fetch and what came of it. */
  lemma OffersMove(ttl: nat, s: System, e: Event, s': System)
    requires Step(ttl, s, e) == Some(s')
    ensures AllIngested(s.tracked) ==> AllIngested(s'.tracked)
    ensures
      var offered, offered' := s.pipe.past.offered, s'.pipe.past.offered;
      if e.FinishRatesTick? && e.fetched.Some? then
        && Later(s.fetches, e.fetched.value)
        && s'.fetches == s.fetches + [Fetch(s.tracked, e.fetched.value)]
        && (offered' == offered
            || (FetchedBatch(s.tracked, e.fetched).Some?
                && offered' == offered + [FetchedBatch(s.tracked, e.fetched).value]))
      else
        && s'.fetches == s.fetches
        && (offered' == offered || offered' == offered + [RateBatch([])])
  {
    PipedStep(ttl, s, e, s');
    if Piped(s, e).Some? {
      PipeOffers(s.pipe, Piped(s, e).value, s'.pipe);
    }
  }

  lemma PipeOffers(pipe: Pipeline.State, e: Pipeline.Event, pipe': Pipeline.State)
    requires Pipeline.Step(pipe, e) == Some(pipe')
    ensures pipe'.past.offered == pipe.past.offered || (e.Tick? && pipe'.past.offered == pipe.past.offered + [e.batch])
  {
  }

  lemma OffersStep(ttl: nat, s: System, e: Event, s': System)
    requires AllIngested(s.tracked) && OfferedOk(s.pipe.past.offered, s.fetches) && Step(ttl, s, e) == Some(s')
    ensures AllIngested(s'.tracked) && OfferedOk(s'.pipe.past.offered, s'.fetches)
  {
    OffersMove(ttl, s, e, s');
    if e.FinishRatesTick? && e.fetched.Some? {
      var fetch := Fetch(s.tracked, e.fetched.value);
      MoreFetches(s.pipe.past.offered, s.fetches, fetch);
      if FetchedBatch(s.tracked, e.fetched).Some? {
        OneMoreOffered(s.pipe.past.offered, s.fetches, FetchedBatch(s.tracked, e.fetched).value, fetch);
      }
    }
  }

  lemma {:induction false} OffersAlways(ttl: nat, maxsize: int, ss: seq<System>, es: seq<Event>, k: nat)
    requires IsRun(ttl, maxsize, ss, es) && k <= |es|
    ensures AllIngested(ss[k].tracked) && OfferedOk(ss[k].pipe.past.offered, ss[k].fetches)
  {
    if k > 0 {
      OffersAlways(ttl, maxsize, ss, es, k - 1);
      OffersStep(ttl, ss[k - 1], es[k - 1], ss[k]);
    }
  }

  /** What a tick does to the queue: without tracked pairs an empty batch is put in it; after a
      fetch, the batch of exactly the quotes it has for the tracked pairs, if it has any and no
      price is too large; and nothing once the flag is up or while the queue is full. */
  lemma TickReachesQueue(ttl: nat, maxsize: int, ss: seq<System>, es: seq<Event>, k: nat)
    requires IsRun(ttl, maxsize, ss, es) && k < |es|
    requires es[k] == BeginRatesTick || es[k].FinishRatesTick?
    ensures
      var s, queue, queue' := ss[k], ss[k].pipe.src.queue, ss[k + 1].pipe.src.queue;
      if s.pipe.src.shutdown || 0 < s.pipe.src.maxsize <= |queue| then queue' == queue
      else if es[k] == BeginRatesTick then
        queue' == if s.tracked == [] then queue + [RateBatch([])] else queue
      else if Missed(s.tracked, es[k].fetched) then queue' == queue
      else exists batch :: IsFetchOf(batch, s.tracked, es[k].fetched) && queue' == queue + [batch]
  {
    assert Step(ttl, ss[k], es[k]) == Some(ss[k + 1]);
    if es[k].FinishRatesTick? {
      FetchedBatchExact(ss[k].tracked, es[k].fetched);
    }
  }

  // ---------------------------------------------------------------- what is begun

  ghost predicate BatchesOk(batches: seq<RateBatch>) {
    && PipelineProperties.Increasing(batches)
    && forall i | 0 <= i < |batches| ::
         batches[i].quotes != [] ==> IsBatch(batches[i].quotes, batches[i].quotes[0].timestamp)
  }

  lemma OfferedAreBatches(offered: seq<RateBatch>, fetches: seq<Fetch>)
    requires OfferedOk(offered, fetches)
    ensures BatchesOk(offered)
  {
    forall i | 0 <= i < |offered| && offered[i].quotes != []
      ensures IsBatch(offered[i].quotes, offered[i].quotes[0].timestamp)
    {
      var f :| JoinedBy(offered[i], fetches, f);
      FetchedBatchIsBatch(offered[i], fetches, f);
    }
  }

  lemma BegunAreOffered(pipe: Pipeline.State)
    requires PipeOk(pipe)
    ensures IsSubsequence(pipe.past.begun, pipe.past.offered)
    ensures forall i | 0 <= i < |pipe.past.begun| :: pipe.past.begun[i].quotes != []
  {
    PipelineProperties.BegunFromTaken(pipe.past, pipe.hand);
    PipelineProperties.OrderKept(pipe.past, pipe.src, pipe.closing);
  }

  function LastTime(begun: seq<RateBatch>): Option<int> {
    if begun == [] || begun[|begun| - 1].quotes == [] then None
    else Some(begun[|begun| - 1].quotes[0].timestamp)
  }

  /** A batch that is begun is one the stores accept, and later than the batch begun before. */
  lemma BegunIsLater(begun: seq<RateBatch>, batch: RateBatch, offered: seq<RateBatch>)
    requires BatchesOk(offered) && IsSubsequence(begun + [batch], offered) && batch.quotes != []
    ensures IsBatch(batch.quotes, batch.quotes[0].timestamp)
    ensures LastTime(begun).Some? ==> LastTime(begun).value < batch.quotes[0].timestamp
  {
    var all := begun + [batch];
    var place := PlaceOf(all, offered, |begun|);
    if begun != [] {
      var i', j' := PlacesOf(all, offered, |begun| - 1, |begun|);
    }
  }

  /** Between handing over and coming back, the writer is busy with the batch being processed. */
  ghost predicate InStep(w: StoreRuns.World, begun: seq<RateBatch>, hand: Pipeline.Hand) {
    && w.last == LastTime(begun)
    && (w.writer != StoreRuns.Idle ==> hand.Processing? && begun != [] && begun[|begun| - 1] == hand.batch)
    && (w.writer.Trying? ==> w.writer.batch == hand.batch.quotes)
  }

  lemma SaveMoves(ttl: nat, s: System, s': System)
    requires Step(ttl, s, Consume) == Some(s') && Saves(s.pipe)
    ensures s'.stores == BeginSave(s.stores, s.pipe.hand.batch.quotes)
    ensures s'.pipe.past.begun == s.pipe.past.begun + [s.pipe.hand.batch] && s'.pipe.past.offered == s.pipe.past.offered
    ensures s'.pipe.hand.Processing? && s'.pipe.hand.batch == s.pipe.hand.batch
  {
  }

  lemma PipeLeavesBegun(pipe: Pipeline.State, e: Pipeline.Event, pipe': Pipeline.State)
    requires Pipeline.Step(pipe, e) == Some(pipe') && (e == Pipeline.Decide ==> !Saves(pipe))
    ensures pipe'.past.begun == pipe.past.begun
    ensures pipe.hand.Processing? && e != Pipeline.Finish ==> pipe'.hand == pipe.hand
  {
  }

  /** How the stores move when no batch is handed over. */
  lemma StoreLeaves(ttl: nat, w: StoreRuns.World, e: StoreRuns.Event, w': StoreRuns.World)
    requires StoreRuns.Step(ttl, w, e) == Some(w') && !e.Begin?
    ensures w'.last == w.last && (w'.writer != StoreRuns.Idle ==> w.writer != StoreRuns.Idle)
    ensures w'.writer.Trying? ==> w.writer.Trying? && w'.writer.batch == w.writer.batch
    ensures w'.rows == w.rows || (w.writer.Trying? && w'.rows == QuoteLog.InsertBatch(w.rows, w.writer.batch))
  {
  }

  lemma OthersMove(ttl: nat, s: System, e: Event, s': System)
    requires Step(ttl, s, e) == Some(s') && !e.Store? && !(e == Consume && Saves(s.pipe))
    ensures s'.stores == s.stores && s'.pipe.past.begun == s.pipe.past.begun
    ensures s.pipe.hand.Processing? && s.stores.writer != StoreRuns.Idle ==> s'.pipe.hand == s.pipe.hand
  {
    PipedStep(ttl, s, e, s');
    if Piped(s, e).Some? {
      PipeLeavesBegun(s.pipe, Piped(s, e).value, s'.pipe);
    }
  }

  lemma StoreMoves(ttl: nat, s: System, e: Event, s': System)
    requires Step(ttl, s, e) == Some(s') && e.Store?
    ensures s'.pipe == s.pipe && !e.store.Begin? && StoreRuns.Step(ttl, s.stores, e.store) == Some(s'.stores)
  {
  }

  lemma InStepStep(ttl: nat, s: System, e: Event, s': System)
    requires InStep(s.stores, s.pipe.past.begun, s.pipe.hand) && Step(ttl, s, e) == Some(s')
    ensures InStep(s'.stores, s'.pipe.past.begun, s'.pipe.hand)
  {
    if e.Store? {
      StoreMoves(ttl, s, e, s');
      StoreLeaves(ttl, s.stores, e.store, s'.stores);
    } else if e == Consume && Saves(s.pipe) {
      SaveMoves(ttl, s, s');
    } else {
      OthersMove(ttl, s, e, s');
    }
  }

  lemma {:induction false} InStepAlways(ttl: nat, maxsize: int, ss: seq<System>, es: seq<Event>, k: nat)
    requires IsRun(ttl, maxsize, ss, es) && k <= |es|
    ensures InStep(ss[k].stores, ss[k].pipe.past.begun, ss[k].pipe.hand)
  {
    if k > 0 {
      InStepAlways(ttl, maxsize, ss, es, k - 1);
      InStepStep(ttl, ss[k - 1], es[k - 1], ss[k]);
    }
  }

  /** The batch the consumer hands over is one the idle writer can begin with. */
  lemma SaveIsAccepted(ttl: nat, maxsize: int, ss: seq<System>, es: seq<Event>, k: nat)
    requires IsRun(ttl, maxsize, ss, es) && k < |es| && es[k] == Consume && Saves(ss[k].pipe)
    ensures ss[k].stores.writer == StoreRuns.Idle && StoreRuns.CanBegin(ss[k].stores, ss[k].pipe.hand.batch.quotes)
  {
    var s, s' := ss[k], ss[k + 1];
    assert Step(ttl, s, es[k]) == Some(s');
    SaveMoves(ttl, s, s');
    InStepAlways(ttl, maxsize, ss, es, k);
    OffersAlways(ttl, maxsize, ss, es, k);
    OfferedAreBatches(s.pipe.past.offered, s.fetches);
    PipeOkAlways(ttl, maxsize, ss, es, k + 1);
    BegunAreOffered(s'.pipe);
    BegunIsLater(s.pipe.past.begun, s.pipe.hand.batch, s.pipe.past.offered);
  }

  // ---------------------------------------------------------------- the stores see a run of theirs

  /** What the stores see of an event; the passing of no time if nothing. */
  function Seen(s: System, e: Event): StoreRuns.Event {
    match e
    case Store(store) => store
    case Consume => if Saves(s.pipe) then StoreRuns.Begin(s.pipe.hand.batch.quotes) else StoreRuns.Tick(0)
    case _ => StoreRuns.Tick(0)
  }

  function Stores(ss: seq<System>): seq<StoreRuns.World> {
    seq(|ss|, i requires 0 <= i < |ss| => ss[i].stores)
  }

  function SeenEvents(ss: seq<System>, es: seq<Event>): seq<StoreRuns.Event>
    requires |ss| == |es| + 1
  {
    seq(|es|, i requires 0 <= i < |es| => Seen(ss[i], es[i]))
  }

  lemma SeenStep(ttl: nat, s: System, e: Event, s': System)
    requires Step(ttl, s, e) == Some(s')
    requires e == Consume && Saves(s.pipe) ==>
               s.stores.writer == StoreRuns.Idle && StoreRuns.CanBegin(s.stores, s.pipe.hand.batch.quotes)
    ensures StoreRuns.Step(ttl, s.stores, Seen(s, e)) == Some(s'.stores)
  {
    if e.Store? {
      StoreMoves(ttl, s, e, s');
    } else if e == Consume && Saves(s.pipe) {
      SaveMoves(ttl, s, s');
    } else {
      OthersMove(ttl, s, e, s');
    }
  }

  lemma SeenStepAt(ttl: nat, maxsize: int, ss: seq<System>, es: seq<Event>, k: nat)
    requires IsRun(ttl, maxsize, ss, es) && k < |es|
    ensures StoreRuns.Step(ttl, Stores(ss)[k], SeenEvents(ss, es)[k]) == Some(Stores(ss)[k + 1])
  {
    if es[k] == Consume && Saves(ss[k].pipe) {
      SaveIsAccepted(ttl, maxsize, ss, es, k);
    }
    SeenStep(ttl, ss[k], es[k], ss[k + 1]);
  }

  /** Whatever the ticks, the stream, the shutdowns and the consumer do, the stores go through a
      run of StoreRuns: every batch that reaches them is one they accept, after the last. */
  lemma StoresRun(ttl: nat, maxsize: int, ss: seq<System>, es: seq<Event>)
    requires IsRun(ttl, maxsize, ss, es)
    ensures StoreRuns.IsRun(ttl, Stores(ss), SeenEvents(ss, es))
  {
    var stores, seen := Stores(ss), SeenEvents(ss, es);
    assert StoreRuns.Initial(stores[0]);
    forall k {:trigger seen[k]} | 0 <= k < |es| ensures StoreRuns.Step(ttl, stores[k], seen[k]) == Some(stores[k + 1]) {
      SeenStepAt(ttl, maxsize, ss, es, k);
    }
  }

  /** Monotonic reads from end to end. */
  lemma ReadsNeverGoBack(ttl: nat, maxsize: int, ss: seq<System>, es: seq<Event>, j: nat, k: nat, pair: Pair)
    requires IsRun(ttl, maxsize, ss, es) && j <= k <= |es|
    ensures ReadProperties.Answer(ss[j].stores, pair).Ok? && ReadProperties.Answer(ss[k].stores, pair).Ok?
    ensures
      var earlier, later :=
        ReadProperties.Answer(ss[j].stores, pair).value, ReadProperties.Answer(ss[k].stores, pair).value;
      earlier.Some? ==> later.Some? && earlier.value.timestamp <= later.value.timestamp
  {
    StoresRun(ttl, maxsize, ss, es);
    ReadProperties.MonotonicReads(ttl, Stores(ss), SeenEvents(ss, es), j, k, pair);
  }

  // ---------------------------------------------------------------- cache and table

  lemma FromFetchEncodes(batch: RateBatch, fetches: seq<Fetch>)
    requires FromFetch(batch, fetches)
    ensures AllEncode(batch.quotes)
  {
    var i :| JoinedBy(batch, fetches, i);
    FetchedBatchEncodes(fetches[i].pairs, Some(fetches[i].fetched));
  }

  /** Whatever the writer stores can be cached. */
  lemma StoredBatchEncodes(ttl: nat, maxsize: int, ss: seq<System>, es: seq<Event>, k: nat)
    requires IsRun(ttl, maxsize, ss, es) && k <= |es| && ss[k].stores.writer.Trying?
    ensures AllEncode(ss[k].stores.writer.batch)
  {
    InStepAlways(ttl, maxsize, ss, es, k);
    OffersAlways(ttl, maxsize, ss, es, k);
    PipeOkAlways(ttl, maxsize, ss, es, k);
    BegunAreOffered(ss[k].pipe);
    LastBegunFromFetch(ss[k].pipe.past.begun, ss[k].pipe.past.offered, ss[k].fetches);
  }

  lemma LastBegunFromFetch(begun: seq<RateBatch>, offered: seq<RateBatch>, fetches: seq<Fetch>)
    requires begun != [] && IsSubsequence(begun, offered) && OfferedOk(offered, fetches)
    requires begun[|begun| - 1].quotes != []
    ensures AllEncode(begun[|begun| - 1].quotes)
  {
    var place := PlaceOf(begun, offered, |begun| - 1);
    FromFetchEncodes(offered[place], fetches);
  }

  /** No cache command is lost, and a save is given up only if none of its attempts committed. */
  ghost predicate Delivers(ss: seq<System>, es: seq<Event>)
    requires |ss| == |es| + 1
  {
    forall k {:trigger es[k]} | 0 <= k < |es| && es[k].Store? :: DeliversStep(ss[k].stores, es[k].store)
  }

  ghost predicate DeliversStep(w: StoreRuns.World, e: StoreRuns.Event) {
    && (e.CachePut? ==> e.delivered)
    && (e.AttemptFails? && w.writer.Trying? && w.writer.attempt >= MAX_ATTEMPTS ==>
          !e.committed && !ReadProperties.CommittedNow(w))
  }

  lemma DeliversIsFaithful(ttl: nat, maxsize: int, ss: seq<System>, es: seq<Event>)
    requires IsRun(ttl, maxsize, ss, es) && Delivers(ss, es)
    ensures ReadProperties.Faithful(Stores(ss), SeenEvents(ss, es))
  {
    var seen := SeenEvents(ss, es);
    forall k {:trigger seen[k]} | 0 <= k < |es| ensures ReadProperties.FaithfulStep(ss[k].stores, seen[k]) {
      if es[k].Store? && ss[k].stores.writer.Trying? {
        StoredBatchEncodes(ttl, maxsize, ss, es, k);
      }
    }
  }

  /** The cache refines the table from end to end: that a quote could not be cached is not among
      the things that can go wrong. */
  lemma CacheRefinesTable(ttl: nat, maxsize: int, ss: seq<System>, es: seq<Event>, k: nat, pair: Pair)
    requires IsRun(ttl, maxsize, ss, es) && Delivers(ss, es)
    requires k <= |es| && ss[k].stores.writer == StoreRuns.Idle
    ensures
      var w := ss[k].stores;
      (ReadProperties.Answer(w, pair) == PostgresGet(w.rows, pair, None))
        <==> !(Live(w.entries, pair.Code(), w.now) && ReadProperties.StoredForAnother(w.rows, pair))
  {
    StoresRun(ttl, maxsize, ss, es);
    DeliversIsFaithful(ttl, maxsize, ss, es);
    ReadProperties.CacheRefinesLog(ttl, Stores(ss), SeenEvents(ss, es), k, pair);
  }

  // ---------------------------------------------------------------- where an answer comes from

  /** The fetch has a ticker of the symbol, the price of the last one rounds to this rate, the
      symbol was tracked and the server's clock showed this time. */
  ghost predicate Reported(fetch: Fetch, symbol: string, rate: int, timestamp: int) {
    && (exists i :: IsLastPair(fetch.pairs, i, symbol))
    && PricedAt(fetch.fetched.tickers, symbol, rate)
    && fetch.fetched.timestamp == timestamp
  }

  lemma JoinedQuoteReported(fetch: Fetch, q: Quote)
    requires FetchedBatch(fetch.pairs, Some(fetch.fetched)).Some?
    requires q in FetchedBatch(fetch.pairs, Some(fetch.fetched)).value.quotes
    ensures Reported(fetch, q.pair.Code(), q.rate, q.timestamp)
  {
    TickQuotesExact(q, fetch.fetched.tickers, fetch.pairs, fetch.fetched.timestamp);
  }

  ghost predicate RowFromBegun(row: Row, begun: seq<RateBatch>) {
    exists j, k :: 0 <= j < |begun| && 0 <= k < |begun[j].quotes| && row == EncodeRow(begun[j].quotes[k])
  }

  ghost predicate RowsFromBegun(rows: seq<Row>, begun: seq<RateBatch>) {
    forall i | 0 <= i < |rows| :: RowFromBegun(rows[i], begun)
  }

  lemma MoreBegun(rows: seq<Row>, begun: seq<RateBatch>, batch: RateBatch)
    requires RowsFromBegun(rows, begun)
    ensures RowsFromBegun(rows, begun + [batch])
  {
    forall i | 0 <= i < |rows| ensures RowFromBegun(rows[i], begun + [batch]) {
      var j, k :| 0 <= j < |begun| && 0 <= k < |begun[j].quotes| && rows[i] == EncodeRow(begun[j].quotes[k]);
      assert (begun + [batch])[j] == begun[j];
    }
  }

  lemma InsertedFromBegun(rows: seq<Row>, begun: seq<RateBatch>, batch: RateBatch)
    requires RowsFromBegun(rows, begun) && begun != [] && begun[|begun| - 1] == batch
    ensures RowsFromBegun(QuoteLog.InsertBatch(rows, batch.quotes), begun)
  {
    var after := QuoteLog.InsertBatch(rows, batch.quotes);
    QuoteLog.InsertBatchLaws(rows, batch.quotes);
    forall i | 0 <= i < |after| ensures RowFromBegun(after[i], begun) {
      if i < |rows| {
        assert after[i] == rows[i];
      } else {
        var k :| 0 <= k < |batch.quotes| && after[i] == EncodeRow(batch.quotes[k]);
        assert begun[|begun| - 1].quotes[k] == batch.quotes[k];
      }
    }
  }

  lemma RowsStep(ttl: nat, s: System, e: Event, s': System)
    requires RowsFromBegun(s.stores.rows, s.pipe.past.begun)
    requires InStep(s.stores, s.pipe.past.begun, s.pipe.hand) && Step(ttl, s, e) == Some(s')
    ensures RowsFromBegun(s'.stores.rows, s'.pipe.past.begun)
  {
    if e.Store? {
      StoreMoves(ttl, s, e, s');
      StoreLeaves(ttl, s.stores, e.store, s'.stores);
      if s.stores.writer.Trying? {
        InsertedFromBegun(s.stores.rows, s.pipe.past.begun, s.pipe.hand.batch);
      }
    } else if e == Consume && Saves(s.pipe) {
      SaveMoves(ttl, s, s');
      MoreBegun(s.stores.rows, s.pipe.past.begun, s.pipe.hand.batch);
    } else {
      OthersMove(ttl, s, e, s');
    }
  }

  lemma {:induction false} RowsAlways(ttl: nat, maxsize: int, ss: seq<System>, es: seq<Event>, k: nat)
    requires IsRun(ttl, maxsize, ss, es) && k <= |es|
    ensures RowsFromBegun(ss[k].stores.rows, ss[k].pipe.past.begun)
  {
    if k > 0 {
      RowsAlways(ttl, maxsize, ss, es, k - 1);
      InStepAlways(ttl, maxsize, ss, es, k - 1);
      RowsStep(ttl, ss[k - 1], es[k - 1], ss[k]);
    }
  }

  lemma BegunReported(batch: RateBatch, fetches: seq<Fetch>, k: nat) returns (f: nat)
    requires FromFetch(batch, fetches) && k < |batch.quotes|
    ensures
      var q := batch.quotes[k];
      f < |fetches| && Reported(fetches[f], q.pair.Code(), q.rate, q.timestamp)
  {
    f :| JoinedBy(batch, fetches, f);
    JoinedQuoteReported(fetches[f], batch.quotes[k]);
  }

  lemma RowReported(
      row: Row, rate: int, begun: seq<RateBatch>, offered: seq<RateBatch>, fetches: seq<Fetch>)
    returns (f: nat)
    requires RowFromBegun(row, begun) && row.rate == GridValue(rate)
    requires IsSubsequence(begun, offered) && OfferedOk(offered, fetches)
    ensures f < |fetches| && Reported(fetches[f], row.symbol, rate, row.timestamp)
  {
    var j, k :| 0 <= j < |begun| && 0 <= k < |begun[j].quotes| && row == EncodeRow(begun[j].quotes[k]);
    var place := PlaceOf(begun, offered, j);
    f := BegunReported(begun[j], fetches, k);
    SameGridValue(begun[j].quotes[k].rate, rate);
  }

  lemma SameGridValue(a: int, b: int)
    requires GridValue(a) == GridValue(b)
    ensures a == b
  {
  }

  /** Every answer is a price of the exchange: the rounded price that some fetch reported for
      exactly this symbol, at the server time the answer carries. */
  lemma AnswersWereReported(
      ttl: nat, maxsize: int, ss: seq<System>, es: seq<Event>, k: nat, pair: Pair)
    returns (f: nat)
    requires IsRun(ttl, maxsize, ss, es) && k <= |es|
    requires ReadProperties.Answer(ss[k].stores, pair).Ok? && ReadProperties.Answer(ss[k].stores, pair).value.Some?
    ensures
      var q := ReadProperties.Answer(ss[k].stores, pair).value.value;
      f < |ss[k].fetches| && Reported(ss[k].fetches[f], pair.Code(), q.rate, q.timestamp)
  {
    StoresRun(ttl, maxsize, ss, es);
    RowsAlways(ttl, maxsize, ss, es, k);
    OffersAlways(ttl, maxsize, ss, es, k);
    PipeOkAlways(ttl, maxsize, ss, es, k);
    BegunAreOffered(ss[k].pipe);
    ReadProperties.AnswerIsCommitted(ttl, Stores(ss), SeenEvents(ss, es), k, pair);
    var q, rows := ReadProperties.Answer(ss[k].stores, pair).value.value, ss[k].stores.rows;
    var i :| 0 <= i < |rows| && rows[i].symbol == pair.Code()
          && rows[i].timestamp == q.timestamp && rows[i].rate == GridValue(q.rate);
    f := RowReported(rows[i], q.rate, ss[k].pipe.past.begun, ss[k].pipe.past.offered, ss[k].fetches);
  }
}
