/** What readers can rely on, over every run of the two stores. */
module ReadProperties {
  import opened Wrappers
  import opened Decimals
  import opened Quotes
  import opened Codecs
  import opened QuoteLog
  import opened QuoteCache
  import opened Writers
  import opened Queries
  import opened StoreRuns

  /** The composite's answer in a world. */
  function Answer(w: World, pair: Pair): Result<Option<Quote>, Error> {
    GetLatest(w.rows, w.entries, pair, w.now)
  }

  /** A committed row of the pair's code carries this rate and timestamp. */
  predicate CommittedQuote(rows: seq<Row>, pair: Pair, q: Quote) {
    exists i | 0 <= i < |rows| ::
      rows[i].symbol == pair.Code() && rows[i].timestamp == q.timestamp && rows[i].rate == GridValue(q.rate)
  }

  /** Same rate at the same time, whatever the pair is called. */
  predicate SameData(a: Quote, b: Quote) {
    a.rate == b.rate && a.timestamp == b.timestamp
  }

  // ---------------------------------------------------------------- what an answer is

  lemma MirrorDecodes(entry: Entry, row: Row, pair: Pair)
    requires GoodRow(row) && Mirrors(entry, row)
    ensures DecodeTicker(entry.ticker, pair) == Ok(Quote(pair, DecodeRow(row).value.rate, row.timestamp))
    ensures entry.ticker.timestamp == row.timestamp && row.rate == GridValue(DecodeRow(row).value.rate)
  {
    TickerRoundTrip(DecodeRow(row).value, pair);
  }

  lemma MirrorIsCommitted(rows: seq<Row>, i: nat, entry: Entry, pair: Pair, q: Quote)
    requires i < |rows| && rows[i].symbol == pair.Code() && GoodRow(rows[i]) && Mirrors(entry, rows[i])
    requires DecodeTicker(entry.ticker, pair) == Ok(q)
    ensures CommittedQuote(rows, pair, q) && q.pair == pair && q.timestamp == entry.ticker.timestamp
  {
    MirrorDecodes(entry, rows[i], pair);
  }

  lemma EntryIsGoodRow(w: World, symbol: string) returns (i: nat)
    requires Inv(w) && symbol in w.entries
    ensures i < |w.rows| && w.rows[i].symbol == symbol && GoodRow(w.rows[i]) && Mirrors(w.entries[symbol], w.rows[i])
  {
    i :| 0 <= i < |w.rows| && w.rows[i].symbol == symbol && Mirrors(w.entries[symbol], w.rows[i]);
  }

  lemma CachedAnswer(w: World, pair: Pair)
    requires Inv(w) && Live(w.entries, pair.Code(), w.now)
    ensures GetCached(w.entries, pair, w.now).Some?
    ensures
      var q := GetCached(w.entries, pair, w.now).value;
      && CommittedQuote(w.rows, pair, q) && q.pair == pair
      && q.timestamp == w.entries[pair.Code()].ticker.timestamp
  {
    var entry := w.entries[pair.Code()];
    var i := EntryIsGoodRow(w, pair.Code());
    MirrorDecodes(entry, w.rows[i], pair);
    MirrorIsCommitted(w.rows, i, entry, pair, DecodeTicker(entry.ticker, pair).value);
  }

  lemma LoggedAnswer(w: World, pair: Pair, bound: Option<int>)
    requires Inv(w)
    ensures PostgresGet(w.rows, pair, bound).Ok?
    ensures PostgresGet(w.rows, pair, bound).value.None? <==> Newest(w.rows, pair.Code(), bound).None?
    ensures PostgresGet(w.rows, pair, bound).value.Some? ==>
              var q := PostgresGet(w.rows, pair, bound).value.value;
              && CommittedQuote(w.rows, pair, q)
              && q.timestamp == Newest(w.rows, pair.Code(), bound).value.timestamp
  {
    if Newest(w.rows, pair.Code(), bound).Some? {
      var row := Newest(w.rows, pair.Code(), bound).value;
      var i :| 0 <= i < |w.rows| && w.rows[i] == row;
      assert GoodRow(w.rows[i]);
    }
  }

  lemma AnswerCommittedIn(w: World, pair: Pair)
    requires Inv(w)
    ensures Answer(w, pair).Ok?
    ensures Answer(w, pair).value.Some? ==> CommittedQuote(w.rows, pair, Answer(w, pair).value.value)
    ensures Answer(w, pair).value.None? <==> forall i | 0 <= i < |w.rows| :: w.rows[i].symbol != pair.Code()
  {
    LoggedAnswer(w, pair, None);
    if Live(w.entries, pair.Code(), w.now) {
      CachedAnswer(w, pair);
    } else {
      assert forall i | 0 <= i < |w.rows| :: Matches(w.rows[i], pair.Code(), None) <==> w.rows[i].symbol == pair.Code();
    }
  }

  /** In every reachable state, whatever cache writes were lost, a read answers with the rate
      and timestamp of a committed row of the symbol, and with nothing only if there is none. */
  lemma AnswerIsCommitted(ttl: nat, ws: seq<World>, es: seq<Event>, k: nat, pair: Pair)
    requires IsRun(ttl, ws, es) && k <= |es|
    ensures Answer(ws[k], pair).Ok?
    ensures Answer(ws[k], pair).value.Some? ==> CommittedQuote(ws[k].rows, pair, Answer(ws[k], pair).value.value)
    ensures Answer(ws[k], pair).value.None? <==> forall i | 0 <= i < |ws[k].rows| :: ws[k].rows[i].symbol != pair.Code()
  {
    InvAlways(ttl, ws, es, k);
    AnswerCommittedIn(ws[k], pair);
  }

  // ---------------------------------------------------------------- cache against table

  lemma SameKeySameData(w: World, pair: Pair, a: Quote, b: Quote)
    requires Inv(w) && CommittedQuote(w.rows, pair, a) && CommittedQuote(w.rows, pair, b)
    requires a.timestamp == b.timestamp
    ensures GridValue(a.rate) == GridValue(b.rate) && SameData(a, b)
  {
  }

  lemma AgreesIn(w: World, pair: Pair)
    requires Inv(w)
    ensures Answer(w, pair).Ok? && PostgresGet(w.rows, pair, None).Ok?
    ensures
      var cached, logged := Answer(w, pair).value, PostgresGet(w.rows, pair, None).value;
      var agree := if cached.Some? && logged.Some? then SameData(cached.value, logged.value) else cached == logged;
      agree <==> !(Live(w.entries, pair.Code(), w.now) && pair.Code() in w.behind)
  {
    LoggedAnswer(w, pair, None);
    if Live(w.entries, pair.Code(), w.now) {
      CachedAnswer(w, pair);
      var cached, logged := Answer(w, pair).value.value, PostgresGet(w.rows, pair, None).value.value;
      if pair.Code() !in w.behind {
        var i :| 0 <= i < |w.rows| && w.rows[i].symbol == pair.Code() && w.rows[i].timestamp == cached.timestamp;
        assert Matches(w.rows[i], pair.Code(), None);
        SameKeySameData(w, pair, cached, logged);
      }
    }
  }

  /** In every reachable state a read agrees with the table alone exactly unless the entry is
      live and its symbol was committed again without the cache hearing of it. */
  lemma AgreesIff(ttl: nat, ws: seq<World>, es: seq<Event>, k: nat, pair: Pair)
    requires IsRun(ttl, ws, es) && k <= |es|
    ensures Answer(ws[k], pair).Ok? && PostgresGet(ws[k].rows, pair, None).Ok?
    ensures
      var cached, logged := Answer(ws[k], pair).value, PostgresGet(ws[k].rows, pair, None).value;
      var agree := if cached.Some? && logged.Some? then SameData(cached.value, logged.value) else cached == logged;
      agree <==> !(Live(ws[k].entries, pair.Code(), ws[k].now) && pair.Code() in ws[k].behind)
  {
    InvAlways(ttl, ws, es, k);
    AgreesIn(ws[k], pair);
  }

  /** Every committed batch reaches the cache: no command is lost, every quote can be encoded,
      and a save is given up only if none of its attempts has committed. */
  ghost predicate Faithful(ws: seq<World>, es: seq<Event>)
    requires |ws| == |es| + 1
  {
    forall k {:trigger es[k]} | 0 <= k < |es| :: FaithfulStep(ws[k], es[k])
  }

  ghost predicate FaithfulStep(w: World, e: Event) {
    && (e.CachePut? ==> e.delivered)
    && (e == AttemptCommits && w.writer.Trying? ==> AllEncode(w.writer.batch))
    && (e.AttemptFails? && w.writer.Trying? && w.writer.attempt >= MAX_ATTEMPTS ==> !e.committed && !CommittedNow(w))
  }

  /** The table already has a row of the batch being stored. */
  ghost predicate CommittedNow(w: World) {
    exists i | 0 <= i < |w.rows| :: w.last == Some(w.rows[i].timestamp)
  }

  /** Only the quotes still to be cached are behind. */
  ghost predicate OnlyPendingBehind(w: World) {
    match w.writer
    case Idle => w.behind == {}
    case Trying(batch, _) => w.behind <= CodesOf(batch) && (w.behind != {} ==> CommittedNow(w))
    case Caching(batch, next) =>
      forall s | s in w.behind :: exists i :: next <= i < |batch| && batch[i].pair.Code() == s
  }

  lemma {:induction false} FaithfulKeepsUp(ttl: nat, ws: seq<World>, es: seq<Event>, k: nat)
    requires IsRun(ttl, ws, es) && Faithful(ws, es) && k <= |es|
    ensures OnlyPendingBehind(ws[k])
  {
    if k > 0 {
      FaithfulKeepsUp(ttl, ws, es, k - 1);
      if es[k - 1] == AttemptFails(true) {
        InvAlways(ttl, ws, es, k - 1);
        CommitShows(ws[k - 1]);
      }
      PendingStep(ttl, ws[k - 1], es[k - 1], ws[k]);
    }
  }

  lemma PendingStep(ttl: nat, w: World, e: Event, w': World)
    requires OnlyPendingBehind(w) && FaithfulStep(w, e) && Step(ttl, w, e) == Some(w')
    requires e == AttemptFails(true) ==> CommittedNow(w.(rows := InsertBatch(w.rows, w.writer.batch)))
    ensures OnlyPendingBehind(w')
  {
    match e {
      case Begin(batch) => PendingOtherwise(ttl, w, e, w');
      case AttemptFails(committed) => PendingAfterFailure(ttl, w, committed, w');
      case AttemptCommits => PendingAfterCommit(w.writer.batch, w'.behind);
      case CachePut(delivered) => PendingAfterPut(ttl, w, w');
      case Evict(symbol) => PendingOtherwise(ttl, w, e, w');
      case Tick(ticks) => PendingOtherwise(ttl, w, e, w');
    }
  }

  lemma PendingOtherwise(ttl: nat, w: World, e: Event, w': World)
    requires OnlyPendingBehind(w) && Step(ttl, w, e) == Some(w') && (e.Begin? || e.Evict? || e.Tick?)
    ensures OnlyPendingBehind(w')
  {
  }

  lemma PendingAfterFailure(ttl: nat, w: World, committed: bool, w': World)
    requires OnlyPendingBehind(w) && FaithfulStep(w, AttemptFails(committed))
    requires Step(ttl, w, AttemptFails(committed)) == Some(w')
    requires committed ==> CommittedNow(w.(rows := InsertBatch(w.rows, w.writer.batch)))
    ensures OnlyPendingBehind(w')
  {
  }

  lemma CommitShows(w: World)
    requires Inv(w) && w.writer.Trying?
    ensures CommittedNow(w.(rows := InsertBatch(w.rows, w.writer.batch)))
  {
    var batch := w.writer.batch;
    InsertKeepsRows(w.rows, batch, w.last.value);
    assert EncodeRow(batch[0]) in InsertBatch(w.rows, batch);
    var i :| 0 <= i < |InsertBatch(w.rows, batch)| && InsertBatch(w.rows, batch)[i] == EncodeRow(batch[0]);
  }

  lemma PendingAfterCommit(batch: seq<Quote>, behind: set<string>)
    requires behind <= CodesOf(batch)
    ensures forall s | s in behind :: exists i :: 0 <= i < |batch| && batch[i].pair.Code() == s
  {
  }

  lemma PendingAfterPut(ttl: nat, w: World, w': World)
    requires OnlyPendingBehind(w) && Step(ttl, w, CachePut(true)) == Some(w')
    ensures OnlyPendingBehind(w')
  {
    var batch, next := w.writer.batch, w.writer.next;
    forall s | s in w'.behind ensures exists i :: next + 1 <= i < |batch| && batch[i].pair.Code() == s {
      var i :| next <= i < |batch| && batch[i].pair.Code() == s;
      assert next + 1 <= i;
    }
    if w'.writer == Idle {
      assert w'.behind == {};
    }
  }

  /** In every reachable state a read answers exactly what the table alone answers, pair and
      all, unless the entry is live and either behind or about a row that was stored for another
      pair with the same code: such an entry is given out under the pair asked for. */
  lemma AnswersAlikeIff(ttl: nat, ws: seq<World>, es: seq<Event>, k: nat, pair: Pair)
    requires IsRun(ttl, ws, es) && k <= |es|
    ensures
      var w, code := ws[k], pair.Code();
      (Answer(w, pair) == PostgresGet(w.rows, pair, None))
        <==> !(Live(w.entries, code, w.now) && (code in w.behind || StoredForAnother(w.rows, pair)))
  {
    InvAlways(ttl, ws, es, k);
    AgreesIn(ws[k], pair);
    LoggedAnswer(ws[k], pair, None);
    if Live(ws[k].entries, pair.Code(), ws[k].now) {
      CachedAnswer(ws[k], pair);
      LoggedPair(ws[k], pair);
    }
  }

  /** The cache refines the table: between saves of a run in which every committed batch
      reached the cache, only the pair can differ, whichever entries have expired or were
      evicted. */
  lemma CacheRefinesLog(ttl: nat, ws: seq<World>, es: seq<Event>, k: nat, pair: Pair)
    requires IsRun(ttl, ws, es) && Faithful(ws, es) && k <= |es| && ws[k].writer == Idle
    ensures
      var w := ws[k];
      (Answer(w, pair) == PostgresGet(w.rows, pair, None))
        <==> !(Live(w.entries, pair.Code(), w.now) && StoredForAnother(w.rows, pair))
  {
    FaithfulKeepsUp(ttl, ws, es, k);
    AnswersAlikeIff(ttl, ws, es, k, pair);
  }

  predicate StoredForAnother(rows: seq<Row>, pair: Pair) {
    match Newest(rows, pair.Code(), None)
    case None => false
    case Some(row) => Pair(row.base, row.quote) != pair
  }

  lemma LoggedPair(w: World, pair: Pair)
    requires Inv(w) && Newest(w.rows, pair.Code(), None).Some?
    ensures
      var row, r := Newest(w.rows, pair.Code(), None).value, PostgresGet(w.rows, pair, None);
      r.Ok? && r.value.Some? && r.value.value.pair == Pair(row.base, row.quote)
  {
    var row := Newest(w.rows, pair.Code(), None).value;
    var i :| 0 <= i < |w.rows| && w.rows[i] == row;
    assert GoodRow(w.rows[i]);
  }

  // ---------------------------------------------------------------- monotonic reads

  /** The timestamp a read would answer with. */
  function AnswerTime(w: World, symbol: string): Option<int> {
    if Live(w.entries, symbol, w.now) then Some(w.entries[symbol].ticker.timestamp)
    else TimeOf(Newest(w.rows, symbol, None))
  }

  function TimeOf(row: Option<Row>): Option<int> {
    match row
    case None => None
    case Some(r) => Some(r.timestamp)
  }

  lemma AnswerHasTime(w: World, pair: Pair)
    requires Inv(w)
    ensures Answer(w, pair).Ok?
    ensures AnswerTime(w, pair.Code()) ==
              match Answer(w, pair).value
              case None => None
              case Some(q) => Some(q.timestamp)
  {
    LoggedAnswer(w, pair, None);
    if Live(w.entries, pair.Code(), w.now) {
      CachedAnswer(w, pair);
    }
  }

  predicate NotBefore(a: Option<int>, b: Option<int>) {
    a.Some? ==> b.Some? && a.value <= b.value
  }

  lemma NewestGrows(rows: seq<Row>, more: seq<Row>, symbol: string)
    requires rows <= more && Newest(rows, symbol, None).Some?
    ensures Newest(more, symbol, None).Some?
    ensures Newest(rows, symbol, None).value.timestamp <= Newest(more, symbol, None).value.timestamp
  {
    var row := Newest(rows, symbol, None).value;
    var i :| 0 <= i < |rows| && rows[i] == row;
    assert more[i] == row && Matches(more[i], symbol, None);
  }

  lemma EntryNotAfterNewest(w: World, symbol: string)
    requires Inv(w) && symbol in w.entries
    ensures Newest(w.rows, symbol, None).Some?
    ensures w.entries[symbol].ticker.timestamp <= Newest(w.rows, symbol, None).value.timestamp
  {
    var i :| 0 <= i < |w.rows| && w.rows[i].symbol == symbol && Mirrors(w.entries[symbol], w.rows[i]);
    assert Matches(w.rows[i], symbol, None);
  }

  lemma AnswerTimeBelowLast(w: World, symbol: string)
    requires Inv(w) && AnswerTime(w, symbol).Some?
    ensures w.last.Some? && AnswerTime(w, symbol).value <= w.last.value
  {
    if Live(w.entries, symbol, w.now) {
      EntryTimes(w, symbol);
    } else {
      var row := Newest(w.rows, symbol, None).value;
      var i :| 0 <= i < |w.rows| && w.rows[i] == row;
    }
  }

  lemma AnswerTimeAfterPut(ttl: nat, w: World, w': World, symbol: string)
    requires Inv(w) && Step(ttl, w, CachePut(true)) == Some(w')
    requires symbol == w.writer.batch[w.writer.next].pair.Code()
    ensures AnswerTime(w', symbol) == w.last
  {
    NewestOfTheBatch(w.rows, w.last.value, w.writer.batch[w.writer.next]);
  }

  /** While the entry stays as it is or goes away, and the table only grows. */
  lemma AnswerTimeOtherwise(w: World, w': World, symbol: string)
    requires Inv(w) && w.rows <= w'.rows && w.now <= w'.now
    requires symbol in w'.entries ==> symbol in w.entries && w'.entries[symbol] == w.entries[symbol]
    ensures NotBefore(AnswerTime(w, symbol), AnswerTime(w', symbol))
  {
    if symbol in w.entries {
      EntryNotAfterNewest(w, symbol);
    }
    if Newest(w.rows, symbol, None).Some? {
      NewestGrows(w.rows, w'.rows, symbol);
    }
  }

  lemma RowsStep(ttl: nat, w: World, e: Event, w': World)
    requires Step(ttl, w, e) == Some(w')
    ensures w.rows <= w'.rows && w.now <= w'.now
  {
    if w.writer.Trying? {
      InsertBatchLaws(w.rows, w.writer.batch);
    }
  }

  /** Only a delivered cache command changes what is stored under a key that stays. */
  lemma EntriesStep(ttl: nat, w: World, e: Event, w': World, symbol: string)
    requires Step(ttl, w, e) == Some(w') && symbol in w'.entries
    requires e == CachePut(true) ==> symbol != w.writer.batch[w.writer.next].pair.Code()
    ensures symbol in w.entries && w'.entries[symbol] == w.entries[symbol]
  {
  }

  lemma AnswerTimeStep(ttl: nat, w: World, e: Event, w': World, symbol: string)
    requires Inv(w) && Step(ttl, w, e) == Some(w')
    ensures NotBefore(AnswerTime(w, symbol), AnswerTime(w', symbol))
  {
    if e == CachePut(true) && symbol == w.writer.batch[w.writer.next].pair.Code() {
      if AnswerTime(w, symbol).Some? {
        AnswerTimeBelowLast(w, symbol);
      }
      AnswerTimeAfterPut(ttl, w, w', symbol);
    } else {
      RowsStep(ttl, w, e, w');
      if symbol in w'.entries {
        EntriesStep(ttl, w, e, w', symbol);
      }
      AnswerTimeOtherwise(w, w', symbol);
    }
  }

  lemma {:induction false} AnswerTimeGrows(ttl: nat, ws: seq<World>, es: seq<Event>, j: nat, k: nat, symbol: string)
    requires IsRun(ttl, ws, es) && j <= k <= |es|
    ensures NotBefore(AnswerTime(ws[j], symbol), AnswerTime(ws[k], symbol))
  {
    if j < k {
      AnswerTimeGrows(ttl, ws, es, j, k - 1, symbol);
      InvAlways(ttl, ws, es, k - 1);
      AnswerTimeStep(ttl, ws[k - 1], es[k - 1], ws[k], symbol);
    }
  }

  /** Reads of a pair never go back in time: not through lost or late cache writes, retried or
      unacknowledged commits, expiry or eviction. */
  lemma MonotonicReads(ttl: nat, ws: seq<World>, es: seq<Event>, j: nat, k: nat, pair: Pair)
    requires IsRun(ttl, ws, es) && j <= k <= |es|
    ensures Answer(ws[j], pair).Ok? && Answer(ws[k], pair).Ok?
    ensures
      var earlier, later := Answer(ws[j], pair).value, Answer(ws[k], pair).value;
      earlier.Some? ==> later.Some? && earlier.value.timestamp <= later.value.timestamp
  {
    InvAlways(ttl, ws, es, j);
    InvAlways(ttl, ws, es, k);
    AnswerHasTime(ws[j], pair);
    AnswerHasTime(ws[k], pair);
    AnswerTimeGrows(ttl, ws, es, j, k, pair.Code());
  }
}
