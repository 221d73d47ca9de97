/** What conversion queries answer, over every run of the two stores. */
module QueryProperties {
  import opened Wrappers
  import opened Decimals
  import opened Precision
  import opened Quotes
  import opened Codecs
  import opened QuoteLog
  import opened QuoteCache
  import opened Queries
  import opened StoreRuns
  import opened ReadProperties

  // ---------------------------------------------------------------- history

  lemma {:induction false} RowsOnlyAppended(ttl: nat, ws: seq<World>, es: seq<Event>, j: nat, k: nat)
    requires IsRun(ttl, ws, es) && j <= k <= |es|
    ensures ws[j].rows <= ws[k].rows && DistinctKeys(ws[k].rows)
  {
    InvAlways(ttl, ws, es, k);
    if j < k {
      RowsOnlyAppended(ttl, ws, es, j, k - 1);
      RowsStep(ttl, ws[k - 1], es[k - 1], ws[k]);
    }
  }

  /** A batch with a quote of the symbol lies after `t`. */
  predicate LiesAfter(batch: seq<Quote>, symbol: string, t: int) {
    symbol in CodesOf(batch) ==> batch != [] && t < batch[0].timestamp
  }

  /** No batch that the writer may still commit has a row of the symbol up to `t`. */
  predicate NothingPending(w: World, symbol: string, t: int) {
    w.writer.Trying? ==> LiesAfter(w.writer.batch, symbol, t)
  }

  lemma PendingLiesAfter(ttl: nat, w: World, e: Event, w': World, symbol: string, t: int)
    requires Step(ttl, w, e) == Some(w') && NothingPending(w, symbol, t)
    requires e.Begin? ==> LiesAfter(e.batch, symbol, t)
    ensures NothingPending(w', symbol, t)
  {
  }

  lemma AppendedRows(ttl: nat, w: World, e: Event, w': World, symbol: string, t: int)
    requires Inv(w) && Step(ttl, w, e) == Some(w') && NothingPending(w, symbol, t)
    ensures w.rows <= w'.rows
    ensures forall i | |w.rows| <= i < |w'.rows| :: !Matches(w'.rows[i], symbol, Some(t))
  {
    RowsMove(ttl, w, e, w');
    if w'.rows != w.rows {
      TryingIsBatch(w);
      InsertBatchLaws(w.rows, w.writer.batch);
      InsertedLiesAfter(w.rows, w.writer.batch, symbol, t);
    }
  }

  lemma InsertedLiesAfter(rows: seq<Row>, batch: seq<Quote>, symbol: string, t: int)
    requires batch != [] && IsBatch(batch, batch[0].timestamp) && LiesAfter(batch, symbol, t)
    ensures
      var after := InsertBatch(rows, batch);
      forall i | |rows| <= i < |after| :: !Matches(after[i], symbol, Some(t))
  {
    var after := InsertBatch(rows, batch);
    InsertBatchLaws(rows, batch);
    forall i | |rows| <= i < |after| ensures !Matches(after[i], symbol, Some(t)) {
      var k :| 0 <= k < |batch| && after[i] == EncodeRow(batch[k]);
      assert batch[k].pair.Code() in CodesOf(batch);
    }
  }

  lemma NewestUnchanged(rows: seq<Row>, after: seq<Row>, symbol: string, t: int)
    requires rows <= after && forall i | |rows| <= i < |after| :: !Matches(after[i], symbol, Some(t))
    ensures Newest(after, symbol, Some(t)) == Newest(rows, symbol, Some(t))
  {
    assert after == rows + after[|rows|..];
    LaterRowsIrrelevant(rows, after[|rows|..], symbol, Some(t));
  }

  /** The historical answer at `t` stays the same over every stretch of a run in which no batch
      with a quote of the symbol is under way or begun that does not lie after `t`. */
  lemma {:induction false} HistoryIsStable(
      ttl: nat, ws: seq<World>, es: seq<Event>, j: nat, k: nat, pair: Pair, t: int)
    requires IsRun(ttl, ws, es) && j <= k <= |es|
    requires NothingPending(ws[j], pair.Code(), t)
    requires forall i | j <= i < k && es[i].Begin? :: LiesAfter(es[i].batch, pair.Code(), t)
    ensures NothingPending(ws[k], pair.Code(), t)
    ensures GetLatestBefore(ws[k].rows, pair, t) == GetLatestBefore(ws[j].rows, pair, t)
  {
    if j < k {
      HistoryIsStable(ttl, ws, es, j, k - 1, pair, t);
      InvAlways(ttl, ws, es, k - 1);
      PendingLiesAfter(ttl, ws[k - 1], es[k - 1], ws[k], pair.Code(), t);
      AppendedRows(ttl, ws[k - 1], es[k - 1], ws[k], pair.Code(), t);
      NewestUnchanged(ws[k - 1].rows, ws[k].rows, pair.Code(), t);
    }
  }

  /** No batch up to `t` is under way, and one at or after `t` was begun already. */
  ghost predicate HistoryClosed(w: World, t: int) {
    w.last.Some? && t <= w.last.value && (w.writer.Trying? ==> t < w.last.value)
  }

  /** From then on the answer at `t` is final: it is the same after every continuation. */
  lemma ClosedHistoryIsFinal(ttl: nat, ws: seq<World>, es: seq<Event>, j: nat, k: nat, pair: Pair, t: int)
    requires IsRun(ttl, ws, es) && j <= k <= |es| && HistoryClosed(ws[j], t)
    ensures GetLatestBefore(ws[k].rows, pair, t) == GetLatestBefore(ws[j].rows, pair, t)
  {
    InvAlways(ttl, ws, es, j);
    forall i | j <= i < k && es[i].Begin? ensures LiesAfter(es[i].batch, pair.Code(), t) {
      LastGrows(ttl, ws, es, j, i);
      assert Step(ttl, ws[i], es[i]).Some?;
    }
    HistoryIsStable(ttl, ws, es, j, k, pair, t);
  }

  // ---------------------------------------------------------------- historical queries

  /** Row `i` is of the pair's code, at or before `t`. */
  predicate RowUpTo(rows: seq<Row>, pair: Pair, t: int, i: int) {
    0 <= i < |rows| && rows[i].symbol == pair.Code() && rows[i].timestamp <= t
  }

  /** ... and not older than `maxAge` then. */
  predicate RowFreshAt(rows: seq<Row>, pair: Pair, t: int, maxAge: nat, i: int) {
    RowUpTo(rows, pair, t, i) && t - maxAge <= rows[i].timestamp
  }

  /** The outcome read off the newest row at or before `t`. */
  lemma OutcomeOfNewest(w: World, amount: nat, pair: Pair, t: int, maxAge: nat)
    requires Inv(w)
    ensures
      var newest, r := Newest(w.rows, pair.Code(), Some(t)), HandleAt(w.rows, amount, pair, t, maxAge);
      && (newest.None? ==> r == Err(NotFound))
      && (newest.Some? && newest.value.timestamp < t - maxAge ==> r == Err(TooOld))
      && (newest.Some? && t - maxAge <= newest.value.timestamp ==> r.Ok?)
  {
    if Newest(w.rows, pair.Code(), Some(t)).Some? {
      var row := Newest(w.rows, pair.Code(), Some(t)).value;
      var i :| 0 <= i < |w.rows| && w.rows[i] == row;
      GoodRate(w.rows[i]);
    }
  }

  lemma GoodRate(row: Row)
    requires GoodRow(row)
    ensures DecodeRow(row).value.rate >= 1 && DecodeRow(row).value.timestamp == row.timestamp
  {
  }

  lemma NewestUpTo(rows: seq<Row>, pair: Pair, t: int, maxAge: nat)
    ensures Newest(rows, pair.Code(), Some(t)).Some? <==> exists i :: RowUpTo(rows, pair, t, i)
    ensures (exists i :: RowFreshAt(rows, pair, t, maxAge, i)) <==>
              Newest(rows, pair.Code(), Some(t)).Some?
              && t - maxAge <= Newest(rows, pair.Code(), Some(t)).value.timestamp
  {
    var newest := Newest(rows, pair.Code(), Some(t));
    assert forall i | 0 <= i < |rows| :: Matches(rows[i], pair.Code(), Some(t)) <==> RowUpTo(rows, pair, t, i);
    if newest.Some? {
      var i :| 0 <= i < |rows| && rows[i] == newest.value;
      assert RowUpTo(rows, pair, t, i);
      assert t - maxAge <= newest.value.timestamp ==> RowFreshAt(rows, pair, t, maxAge, i);
    }
  }

  /** A query at `t` succeeds exactly if some row of the symbol lies in [t - maxAge, t], is
      not found exactly if no row lies at or before t, and is too old in every other case;
      no other error is possible. */
  lemma HistoricalOutcome(
      ttl: nat, ws: seq<World>, es: seq<Event>, k: nat, amount: nat, pair: Pair, t: int, maxAge: nat)
    requires IsRun(ttl, ws, es) && k <= |es|
    ensures
      var rows, r := ws[k].rows, HandleAt(ws[k].rows, amount, pair, t, maxAge);
      && (r.Ok? <==> exists i :: RowFreshAt(rows, pair, t, maxAge, i))
      && (r == Err(NotFound) <==> !exists i :: RowUpTo(rows, pair, t, i))
      && (r.Err? ==> r.error in {NotFound, TooOld})
  {
    InvAlways(ttl, ws, es, k);
    OutcomeOfNewest(ws[k], amount, pair, t, maxAge);
    NewestUpTo(ws[k].rows, pair, t, maxAge);
  }

  /** A successful query at `t` uses the greatest timestamp at or before t, which only one row
      of the symbol carries, and converts at that row's rate. */
  lemma HistoricalChoice(
      ttl: nat, ws: seq<World>, es: seq<Event>, k: nat, amount: nat, pair: Pair, t: int, maxAge: nat, i: nat)
    requires IsRun(ttl, ws, es) && k <= |es|
    requires RowFreshAt(ws[k].rows, pair, t, maxAge, i)
    requires forall j :: RowUpTo(ws[k].rows, pair, t, j) ==> ws[k].rows[j].timestamp <= ws[k].rows[i].timestamp
    ensures
      var r, row := HandleAt(ws[k].rows, amount, pair, t, maxAge), ws[k].rows[i];
      && r.Ok? && r.value.timestamp == row.timestamp && GridValue(r.value.rate) == row.rate
      && r.value.amount == Product(amount, r.value.rate) && r.value.original == amount
  {
    InvAlways(ttl, ws, es, k);
    var rows := ws[k].rows;
    assert forall j | 0 <= j < |rows| && Matches(rows[j], pair.Code(), Some(t)) :: RowUpTo(rows, pair, t, j);
    NewestIsUnique(rows, pair.Code(), Some(t), rows[i]);
    assert GoodRow(rows[i]);
  }

  // ---------------------------------------------------------------- latest queries

  /** A latest query whose quote is checked at `t` succeeds exactly when the answer it got lies
      in [t - maxAge, t]; a quote from the future is the one other error. */
  lemma LatestOutcome(ttl: nat, ws: seq<World>, es: seq<Event>, k: nat, amount: nat, pair: Pair, t: int, maxAge: nat)
    requires IsRun(ttl, ws, es) && k <= |es|
    ensures
      var w, r := ws[k], HandleLatest(ws[k].rows, ws[k].entries, amount, pair, ws[k].now, t, maxAge);
      var answer := AnswerTime(w, pair.Code());
      && (r.Ok? <==> answer.Some? && t - maxAge <= answer.value <= t)
      && (r == Err(NotFound) <==> answer.None?)
      && (r == Err(TooOld) <==> answer.Some? && answer.value < t - maxAge)
      && (r == Err(NegativeAge) <==> answer.Some? && t < answer.value)
  {
    InvAlways(ttl, ws, es, k);
    AnswerHasTime(ws[k], pair);
    AnswerRate(ws[k], pair);
  }

  /** When the table holds a fresh row, a latest query finds a fresh quote exactly if the entry,
      while live, is neither too old nor from the future, and, without a live entry, no row of
      the symbol is from the future. */
  lemma FreshRowUsedIff(
      ttl: nat, ws: seq<World>, es: seq<Event>, k: nat, amount: nat, pair: Pair, t: int, maxAge: nat, i: int)
    requires IsRun(ttl, ws, es) && k <= |es| && RowFreshAt(ws[k].rows, pair, t, maxAge, i)
    ensures
      var w, code := ws[k], pair.Code();
      (HandleLatest(w.rows, w.entries, amount, pair, w.now, t, maxAge).Ok?)
        <==> if Live(w.entries, code, w.now) then t - maxAge <= w.entries[code].ticker.timestamp <= t
             else forall j | 0 <= j < |w.rows| && w.rows[j].symbol == code :: w.rows[j].timestamp <= t
  {
    LatestOutcome(ttl, ws, es, k, amount, pair, t, maxAge);
    NewestFrom(ws[k].rows, pair, t, i);
  }

  /** The newest row is no older than a given one, and from the future iff any row is. */
  lemma NewestFrom(rows: seq<Row>, pair: Pair, t: int, i: int)
    requires RowUpTo(rows, pair, t, i)
    ensures Newest(rows, pair.Code(), None).Some?
    ensures rows[i].timestamp <= Newest(rows, pair.Code(), None).value.timestamp
    ensures Newest(rows, pair.Code(), None).value.timestamp <= t
       <==> forall j | 0 <= j < |rows| && rows[j].symbol == pair.Code() :: rows[j].timestamp <= t
  {
    assert Matches(rows[i], pair.Code(), None);
    var j :| 0 <= j < |rows| && rows[j] == Newest(rows, pair.Code(), None).value;
    assert forall j | 0 <= j < |rows| :: Matches(rows[j], pair.Code(), None) <==> rows[j].symbol == pair.Code();
  }

  /** A fresh row that is there but not used: among quotes that are not from the future, exactly
      if the live entry is too old, and then the query fails as too old. */
  lemma HidesFreshRowIff(
      ttl: nat, ws: seq<World>, es: seq<Event>, k: nat, amount: nat, pair: Pair, t: int, maxAge: nat, i: int)
    requires IsRun(ttl, ws, es) && k <= |es| && RowFreshAt(ws[k].rows, pair, t, maxAge, i)
    requires forall j | 0 <= j < |ws[k].rows| && ws[k].rows[j].symbol == pair.Code() :: ws[k].rows[j].timestamp <= t
    ensures
      var w, code := ws[k], pair.Code();
      var r := HandleLatest(w.rows, w.entries, amount, pair, w.now, t, maxAge);
      && (r.Ok? <==> !(Live(w.entries, code, w.now) && w.entries[code].ticker.timestamp < t - maxAge))
      && (r.Err? ==> r == Err(TooOld))
  {
    FreshRowUsedIff(ttl, ws, es, k, amount, pair, t, maxAge, i);
    LatestOutcome(ttl, ws, es, k, amount, pair, t, maxAge);
    NewestFrom(ws[k].rows, pair, t, i);
    InvAlways(ttl, ws, es, k);
    if pair.Code() in ws[k].entries {
      EntryNotAfterNewest(ws[k], pair.Code());
    }
  }

  /** What a successful latest query answers: the exact request amount, the time of the answer,
      the rate of a row of the symbol with that time, and the rounded product of both. */
  lemma LatestChoice(
      ttl: nat, ws: seq<World>, es: seq<Event>, k: nat, amount: nat, pair: Pair, t: int, maxAge: nat)
    requires IsRun(ttl, ws, es) && k <= |es|
    requires HandleLatest(ws[k].rows, ws[k].entries, amount, pair, ws[k].now, t, maxAge).Ok?
    ensures
      var w, r := ws[k], HandleLatest(ws[k].rows, ws[k].entries, amount, pair, ws[k].now, t, maxAge).value;
      && r.original == amount && r.rate >= 1 && r.amount == Product(amount, r.rate)
      && AnswerTime(w, pair.Code()) == Some(r.timestamp)
      && exists i ::
           RowUpTo(w.rows, pair, t, i) && w.rows[i].timestamp == r.timestamp && w.rows[i].rate == GridValue(r.rate)
  {
    LatestOutcome(ttl, ws, es, k, amount, pair, t, maxAge);
    InvAlways(ttl, ws, es, k);
    AnswerHasTime(ws[k], pair);
    AnswerCommittedIn(ws[k], pair);
    var w, q := ws[k], Answer(ws[k], pair).value.value;
    var i :| 0 <= i < |w.rows| && w.rows[i].symbol == pair.Code()
          && w.rows[i].timestamp == q.timestamp && w.rows[i].rate == GridValue(q.rate);
    assert RowUpTo(w.rows, pair, t, i);
    GoodRate(w.rows[i]);
  }

  lemma AnswerRate(w: World, pair: Pair)
    requires Inv(w)
    ensures Answer(w, pair).Ok? && (Answer(w, pair).value.Some? ==> Answer(w, pair).value.value.rate >= 0)
  {
    AnswerCommittedIn(w, pair);
    if Answer(w, pair).value.Some? {
      var q := Answer(w, pair).value.value;
      var i :| 0 <= i < |w.rows| && w.rows[i].rate == GridValue(q.rate) && w.rows[i].symbol == pair.Code();
      GoodRate(w.rows[i]);
    }
  }

  /** Nothing is evicted, and no quote is from the future when it reaches the cache. */
  ghost predicate CalmRun(ws: seq<World>, es: seq<Event>)
    requires |ws| == |es| + 1
  {
    forall k {:trigger es[k]} | 0 <= k < |es| :: CalmStep(ws[k], es[k])
  }

  predicate CalmStep(w: World, e: Event) {
    && !e.Evict?
    && (e == CachePut(true) && w.writer.Caching? && w.writer.next < |w.writer.batch| ==>
          w.writer.batch[w.writer.next].timestamp <= w.now)
  }

  /** Every symbol that is not behind has an entry that outlives its quote by the ttl, and no
      row of it is from the future. */
  ghost predicate Covered(ttl: nat, w: World) {
    && (forall i | 0 <= i < |w.rows| ::
          w.rows[i].symbol in w.behind || (w.rows[i].symbol in w.entries && w.rows[i].timestamp <= w.now))
    && (forall s | s in w.entries :: w.entries[s].ticker.timestamp + ttl <= w.entries[s].expiresAt)
  }

  lemma CoveredAfterCommit(ttl: nat, w: World, w': World)
    requires Covered(ttl, w) && w.writer.Trying?
    requires w' == w.(rows := InsertBatch(w.rows, w.writer.batch),
                      behind := w.behind + CodesOf(w.writer.batch), writer := w'.writer)
    ensures Covered(ttl, w')
  {
    var batch := w.writer.batch;
    InsertBatchLaws(w.rows, batch);
    forall i | |w.rows| <= i < |w'.rows| ensures w'.rows[i].symbol in CodesOf(batch) {
      var k :| 0 <= k < |batch| && w'.rows[i] == EncodeRow(batch[k]);
      assert batch[k].pair.Code() in CodesOf(batch);
    }
  }

  lemma CoveredAfterPut(ttl: nat, w: World, w': World)
    requires Inv(w) && Covered(ttl, w) && Step(ttl, w, CachePut(true)) == Some(w') && CalmStep(w, CachePut(true))
    ensures Covered(ttl, w')
  {
    assert w.writer.batch[w.writer.next].timestamp == w.last.value;
  }

  lemma CoveredStep(ttl: nat, w: World, e: Event, w': World)
    requires Inv(w) && Covered(ttl, w) && Step(ttl, w, e) == Some(w') && CalmStep(w, e)
    ensures Covered(ttl, w')
  {
    if e == AttemptCommits || e == AttemptFails(true) {
      CoveredAfterCommit(ttl, w, w');
    } else if e == AttemptFails(false) {
      assert w'.behind == w.behind;
    } else if e == CachePut(true) {
      CoveredAfterPut(ttl, w, w');
    }
  }

  lemma {:induction false} CoveredAlways(ttl: nat, ws: seq<World>, es: seq<Event>, k: nat)
    requires IsRun(ttl, ws, es) && CalmRun(ws, es) && k <= |es|
    ensures Covered(ttl, ws[k])
  {
    if k > 0 {
      CoveredAlways(ttl, ws, es, k - 1);
      InvAlways(ttl, ws, es, k - 1);
      CoveredStep(ttl, ws[k - 1], es[k - 1], ws[k]);
    }
  }

  /** With a ttl above the maximum age, a miss for a symbol whose last commit has reached the
      cache means that the table has nothing fresh either, then or later: its newest row of the
      symbol is already too old. */
  lemma MissImpliesStale(ttl: nat, maxAge: nat, ws: seq<World>, es: seq<Event>, k: nat, pair: Pair, t: int, i: int)
    requires maxAge < ttl && IsRun(ttl, ws, es) && CalmRun(ws, es)
    requires k <= |es| && pair.Code() !in ws[k].behind && ws[k].now <= t
    requires GetCached(ws[k].entries, pair, ws[k].now).None?
    ensures !RowFreshAt(ws[k].rows, pair, t, maxAge, i)
  {
    var w, code := ws[k], pair.Code();
    InvAlways(ttl, ws, es, k);
    CoveredAlways(ttl, ws, es, k);
    if Live(w.entries, code, w.now) {
      CachedAnswer(w, pair);
    } else if RowUpTo(w.rows, pair, t, i) {
      assert code in w.entries;
      assert Matches(w.rows[i], code, None);
      assert w.rows[i].timestamp <= w.entries[code].ticker.timestamp;
    }
  }

  /** So the latest query, checked at any time `t` from the lookup on, succeeds exactly when
      the table holds a row of the symbol that is fresh at `t`, and whenever it does, the cache
      alone had the answer. */
  lemma LatestSucceedsIff(
      ttl: nat, maxAge: nat, ws: seq<World>, es: seq<Event>, k: nat, amount: nat, pair: Pair, t: int)
    requires maxAge < ttl && IsRun(ttl, ws, es) && CalmRun(ws, es)
    requires k <= |es| && pair.Code() !in ws[k].behind && ws[k].now <= t
    ensures
      var w := ws[k];
      var r := HandleLatest(w.rows, w.entries, amount, pair, w.now, t, maxAge);
      && (r.Ok? <==> exists i :: RowFreshAt(w.rows, pair, t, maxAge, i))
      && (r.Ok? ==> GetCached(w.entries, pair, w.now).Some?)
  {
    var w := ws[k];
    CalmAnswers(ttl, ws, es, k, pair.Code());
    LatestOutcome(ttl, ws, es, k, amount, pair, t, maxAge);
    NewestAt(w, pair, t, maxAge);
    if GetCached(w.entries, pair, w.now).None? {
      forall i ensures !RowFreshAt(w.rows, pair, t, maxAge, i) {
        MissImpliesStale(ttl, maxAge, ws, es, k, pair, t, i);
      }
    }
  }

  /** Between saves, if every committed batch reached the cache, that holds for every pair. */
  lemma LatestSucceedsBetweenSaves(
      ttl: nat, maxAge: nat, ws: seq<World>, es: seq<Event>, k: nat, amount: nat, pair: Pair, t: int)
    requires maxAge < ttl && IsRun(ttl, ws, es) && CalmRun(ws, es) && Faithful(ws, es)
    requires k <= |es| && ws[k].writer == Idle && ws[k].now <= t
    ensures
      var w := ws[k];
      var r := HandleLatest(w.rows, w.entries, amount, pair, w.now, t, maxAge);
      && (r.Ok? <==> exists i :: RowFreshAt(w.rows, pair, t, maxAge, i))
      && (r.Ok? ==> GetCached(w.entries, pair, w.now).Some?)
  {
    FaithfulKeepsUp(ttl, ws, es, k);
    LatestSucceedsIff(ttl, maxAge, ws, es, k, amount, pair, t);
  }

  /** In a calm run, for a symbol that is not behind, no row is from the future and a read
      answers with the newest. */
  lemma CalmAnswers(ttl: nat, ws: seq<World>, es: seq<Event>, k: nat, symbol: string)
    requires IsRun(ttl, ws, es) && CalmRun(ws, es) && k <= |es| && symbol !in ws[k].behind
    ensures forall i | 0 <= i < |ws[k].rows| && ws[k].rows[i].symbol == symbol ::
              ws[k].rows[i].timestamp <= ws[k].now
    ensures AnswerTime(ws[k], symbol) == TimeOf(Newest(ws[k].rows, symbol, None))
  {
    InvAlways(ttl, ws, es, k);
    CoveredAlways(ttl, ws, es, k);
    AnswerTimeIsNewest(ws[k], symbol);
  }

  lemma AnswerTimeIsNewest(w: World, symbol: string)
    requires Inv(w) && symbol !in w.behind
    ensures AnswerTime(w, symbol) == TimeOf(Newest(w.rows, symbol, None))
  {
    if symbol in w.entries {
      EntryNotAfterNewest(w, symbol);
    }
  }

  /** When no row of the symbol is from the future and a read answers with the newest one, that row decides
      whether there is a fresh one. */
  lemma NewestAt(w: World, pair: Pair, t: int, maxAge: nat)
    requires forall i | 0 <= i < |w.rows| && w.rows[i].symbol == pair.Code() :: w.rows[i].timestamp <= t
    requires AnswerTime(w, pair.Code()) == TimeOf(Newest(w.rows, pair.Code(), None))
    ensures (exists i :: RowFreshAt(w.rows, pair, t, maxAge, i)) <==>
              AnswerTime(w, pair.Code()).Some? && t - maxAge <= AnswerTime(w, pair.Code()).value
    ensures AnswerTime(w, pair.Code()).Some? ==> AnswerTime(w, pair.Code()).value <= t
  {
    NewestUpTo(w.rows, pair, t, maxAge);
    NewestBoundIrrelevant(w.rows, pair.Code(), t);
  }

  lemma {:induction false} NewestBoundIrrelevant(rows: seq<Row>, symbol: string, t: int)
    requires forall i | 0 <= i < |rows| && rows[i].symbol == symbol :: rows[i].timestamp <= t
    ensures Newest(rows, symbol, Some(t)) == Newest(rows, symbol, None)
    ensures Newest(rows, symbol, None).Some? ==> Newest(rows, symbol, None).value.timestamp <= t
  {
    if rows != [] {
      NewestBoundIrrelevant(rows[..|rows| - 1], symbol, t);
    }
  }
}
