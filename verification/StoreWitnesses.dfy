/** Runs that show which promises the two stores do not keep. */
module StoreWitnesses {
  import opened Wrappers
  import opened Quotes
  import opened Codecs
  import opened QuoteLog
  import opened QuoteCache
  import opened Queries
  import opened StoreRuns
  import opened ReadProperties
  import opened QueryProperties

  /** Two quotes of one pair, both of which can be cached, the second one later. */
  ghost predicate Successive(q: Quote, q': Quote) {
    && ValidQuote(q) && ValidQuote(q') && q.pair == q'.pair && q.timestamp < q'.timestamp
    && EncodeTicker(q).Ok? && EncodeTicker(q').Ok?
  }

  lemma {:induction false} InsertOne(rows: seq<Row>, q: Quote)
    requires forall i | 0 <= i < |rows| :: rows[i].timestamp < q.timestamp
    ensures InsertBatch(rows, [q]) == rows + [EncodeRow(q)]
  {
    assert [q][..0] == [];
    assert InsertBatch(rows, []) == rows;
  }

  /** The first quote is stored and cached; `wait` ticks later the second one is stored, but
      its cache command is lost. */
  lemma LostWrite(ttl: nat, q: Quote, q': Quote, wait: nat) returns (ws: seq<World>, es: seq<Event>)
    requires Successive(q, q')
    ensures IsRun(ttl, ws, es) && |es| == 7
    ensures ws[0].entries == map[]
    ensures ws[7].rows == [EncodeRow(q), EncodeRow(q')] && ws[7].now == q.timestamp + wait
    ensures ws[7].entries == map[q.pair.Code() := Entry(EncodeTicker(q).value, q.timestamp + ttl)]
  {
    var none: set<string> := {};
    ws, es := FirstSave(ttl, World([], map[], q.timestamp, Idle, None, none), q);
    var later := ws[3].(now := ws[3].now + wait);
    RunGrows(ttl, ws, es, Tick(wait), later);
    ws, es := ws + [later], es + [Tick(wait)];
    ws, es := SecondSave(ttl, ws, es, q');
  }

  lemma FirstSave(ttl: nat, w0: World, q: Quote) returns (ws: seq<World>, es: seq<Event>)
    requires Initial(w0) && ValidQuote(q) && EncodeTicker(q).Ok?
    ensures IsRun(ttl, ws, es) && |es| == 3 && ws[0] == w0
    ensures ws[3].rows == [EncodeRow(q)] && ws[3].now == w0.now
    ensures ws[3].writer == Idle && ws[3].last == Some(q.timestamp)
    ensures ws[3].entries == map[q.pair.Code() := Entry(EncodeTicker(q).value, w0.now + ttl)]
  {
    ws, es := OneCommitted(ttl, [w0], [], q);
    var cached := Step(ttl, ws[2], CachePut(true)).value;
    RunGrows(ttl, ws, es, CachePut(true), cached);
    ws, es := ws + [cached], es + [CachePut(true)];
  }

  lemma SecondSave(ttl: nat, ws: seq<World>, es: seq<Event>, q: Quote) returns (ws': seq<World>, es': seq<Event>)
    requires IsRun(ttl, ws, es) && ValidQuote(q) && EncodeTicker(q).Ok?
    requires
      var w := ws[|es|];
      && w.writer == Idle && w.last.Some? && w.last.value < q.timestamp
      && forall i | 0 <= i < |w.rows| :: w.rows[i].timestamp < q.timestamp
    ensures IsRun(ttl, ws', es') && |es'| == |es| + 3 && ws'[0] == ws[0]
    ensures
      var w, w' := ws[|es|], ws'[|es'|];
      w'.rows == w.rows + [EncodeRow(q)] && w'.now == w.now && w'.entries == w.entries
  {
    ws', es' := OneCommitted(ttl, ws, es, q);
    var lost := Step(ttl, ws'[|es'|], CachePut(false)).value;
    RunGrows(ttl, ws', es', CachePut(false), lost);
    ws', es' := ws' + [lost], es' + [CachePut(false)];
  }

  /** A run goes on with the commit of one quote. */
  lemma OneCommitted(ttl: nat, ws: seq<World>, es: seq<Event>, q: Quote) returns (ws': seq<World>, es': seq<Event>)
    requires IsRun(ttl, ws, es) && ValidQuote(q) && EncodeTicker(q).Ok?
    requires
      var w := ws[|es|];
      && w.writer == Idle && (w.last.Some? ==> w.last.value < q.timestamp)
      && forall i | 0 <= i < |w.rows| :: w.rows[i].timestamp < q.timestamp
    ensures IsRun(ttl, ws', es') && |es'| == |es| + 2 && ws'[0] == ws[0]
    ensures
      var w, w' := ws[|es|], ws'[|es'|];
      && w'.rows == w.rows + [EncodeRow(q)] && w'.entries == w.entries && w'.now == w.now
      && w'.last == Some(q.timestamp) && w'.writer == Caching([q], 0)
  {
    var w := ws[|es|];
    assert IsBatch([q], q.timestamp);
    var begun := w.(writer := Trying([q], 1), last := Some(q.timestamp));
    RunGrows(ttl, ws, es, Begin([q]), begun);
    InsertOne(w.rows, q);
    var done := Step(ttl, begun, AttemptCommits).value;
    RunGrows(ttl, ws + [begun], es + [Begin([q])], AttemptCommits, done);
    ws', es' := ws + [begun] + [done], es + [Begin([q])] + [AttemptCommits];
  }

  lemma AnswersAfterLostWrite(q: Quote, q': Quote, now: int, ttl: nat)
    requires Successive(q, q') && now < q.timestamp + ttl
    ensures GetCached(map[q.pair.Code() := Entry(EncodeTicker(q).value, q.timestamp + ttl)], q.pair, now) == Some(q)
    ensures PostgresGet([EncodeRow(q), EncodeRow(q')], q.pair, None) == Ok(Some(q'))
  {
    TickerRoundTrip(q, q.pair);
    RowRoundTrip(q');
    var rows := [EncodeRow(q), EncodeRow(q')];
    NewestIsUnique(rows, q.pair.Code(), None, rows[1]);
  }

  /** Monotonic reads need the two lookups of a read to be one step: a read that misses the
      cache, waits and then asks the table can be followed by a read that answers with an
      older quote. */
  lemma SplitReadCanRegress(ttl: nat, q: Quote, q': Quote) returns (ws: seq<World>, es: seq<Event>)
    requires Successive(q, q') && ttl >= 1
    ensures IsRun(ttl, ws, es) && |es| == 7
    ensures GetCached(ws[0].entries, q.pair, ws[0].now) == None
    ensures PostgresGet(ws[7].rows, q.pair, None) == Ok(Some(q'))
    ensures Answer(ws[7], q.pair) == Ok(Some(q)) && q.timestamp < q'.timestamp
  {
    ws, es := LostWrite(ttl, q, q', 0);
    AnswersAfterLostWrite(q, q', ws[7].now, ttl);
  }

  /** A lost cache write can make the latest query fail although the table has a fresh row:
      the older entry is still live, but already too old to be used. */
  lemma LiveEntryHidesFreshRow(ttl: nat, maxAge: nat, q: Quote, q': Quote, amount: nat)
    returns (ws: seq<World>, es: seq<Event>)
    requires maxAge + 1 < ttl && Successive(q, q') && q'.timestamp == q.timestamp + maxAge + 1
    ensures IsRun(ttl, ws, es) && |es| == 7
    ensures RowFreshAt(ws[7].rows, q.pair, ws[7].now, maxAge, 1)
    ensures
      var w := ws[7];
      HandleLatest(w.rows, w.entries, amount, q.pair, w.now, w.now, maxAge) == Err(TooOld)
  {
    ws, es := LostWrite(ttl, q, q', maxAge + 1);
    AnswersAfterLostWrite(q, q', ws[7].now, ttl);
  }
}
