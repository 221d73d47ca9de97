/** Reads that the table answers: what they are worth beside reads that work. */
module TableReads {
  import opened Wrappers
  import opened Quotes
  import opened QuoteLog
  import opened QuoteCache
  import opened Queries
  import opened StoreRuns
  import opened ReadProperties

  /** The timestamp a read answers with while the cache raises or times out: any failure there
      is a miss, so the table answers alone. */
  function TableTime(w: World, symbol: string): Option<int> {
    TimeOf(Newest(w.rows, symbol, None))
  }

  lemma TableTimeCompares(w: World, symbol: string)
    requires Inv(w)
    ensures NotBefore(AnswerTime(w, symbol), TableTime(w, symbol))
    ensures NotBefore(TableTime(w, symbol), AnswerTime(w, symbol))
       <==> !(Live(w.entries, symbol, w.now) && symbol in w.behind)
  {
    if symbol in w.entries {
      EntryNotAfterNewest(w, symbol);
    }
  }

  /** The entry that was behind at state `k` is still there at state `m`, and live. */
  predicate BehindUntil(w: World, w': World, symbol: string) {
    && symbol in w.behind && symbol in w.entries
    && Live(w'.entries, symbol, w'.now) && w'.entries[symbol] == w.entries[symbol]
  }

  /** As long as an entry is older than the table was at state `k`, it is the one from then. */
  lemma {:induction false} OldEntryStays(ttl: nat, ws: seq<World>, es: seq<Event>, k: nat, m: nat, symbol: string)
    requires IsRun(ttl, ws, es) && k <= m <= |es| && symbol in ws[m].entries
    requires ws[k].last.Some? && ws[m].entries[symbol].ticker.timestamp < ws[k].last.value
    ensures symbol in ws[k].entries && ws[m].entries[symbol] == ws[k].entries[symbol]
  {
    if k < m {
      LastGrows(ttl, ws, es, k, m - 1);
      OldEntryBefore(ttl, ws, es, m, symbol);
      OldEntryStays(ttl, ws, es, k, m - 1, symbol);
    }
  }

  lemma OldEntryBefore(ttl: nat, ws: seq<World>, es: seq<Event>, m: nat, symbol: string)
    requires IsRun(ttl, ws, es) && 0 < m <= |es| && symbol in ws[m].entries
    requires ws[m - 1].last.Some? && ws[m].entries[symbol].ticker.timestamp < ws[m - 1].last.value
    ensures symbol in ws[m - 1].entries && ws[m].entries[symbol] == ws[m - 1].entries[symbol]
  {
    InvAlways(ttl, ws, es, m - 1);
    OldEntryStep(ttl, ws[m - 1], es[m - 1], ws[m], symbol);
  }

  lemma OldEntryStep(ttl: nat, w: World, e: Event, w': World, symbol: string)
    requires Inv(w) && Step(ttl, w, e) == Some(w') && symbol in w'.entries
    requires w.last.Some? && w'.entries[symbol].ticker.timestamp < w.last.value
    ensures symbol in w.entries && w'.entries[symbol] == w.entries[symbol]
  {
    if e == CachePut(true) && symbol == w.writer.batch[w.writer.next].pair.Code() {
      PutHasLastTime(ttl, w, w');
      assert false;
    } else {
      EntriesStep(ttl, w, e, w', symbol);
    }
  }

  lemma PutHasLastTime(ttl: nat, w: World, w': World)
    requires Inv(w) && Step(ttl, w, CachePut(true)) == Some(w')
    ensures
      var symbol := w.writer.batch[w.writer.next].pair.Code();
      w.last.Some? && symbol in w'.entries && w'.entries[symbol].ticker.timestamp == w.last.value
  {
  }

  lemma NewestBelowLast(w: World, symbol: string)
    requires Inv(w) && Newest(w.rows, symbol, None).Some?
    ensures w.last.Some? && Newest(w.rows, symbol, None).value.timestamp <= w.last.value
  {
    var i :| 0 <= i < |w.rows| && w.rows[i] == Newest(w.rows, symbol, None).value;
  }

  lemma LaterTimeIff(ttl: nat, ws: seq<World>, es: seq<Event>, k: nat, m: nat, symbol: string)
    requires IsRun(ttl, ws, es) && k <= m <= |es|
    ensures NotBefore(TableTime(ws[k], symbol), AnswerTime(ws[m], symbol)) <==> !BehindUntil(ws[k], ws[m], symbol)
  {
    InvAlways(ttl, ws, es, k);
    if !NotBefore(TableTime(ws[k], symbol), AnswerTime(ws[m], symbol)) {
      EarlierIsBehind(ttl, ws, es, k, m, symbol);
    }
  }

  lemma EarlierIsBehind(ttl: nat, ws: seq<World>, es: seq<Event>, k: nat, m: nat, symbol: string)
    requires IsRun(ttl, ws, es) && k <= m <= |es|
    requires !NotBefore(TableTime(ws[k], symbol), AnswerTime(ws[m], symbol))
    ensures BehindUntil(ws[k], ws[m], symbol)
  {
    InvAlways(ttl, ws, es, k);
    TableTimeGrows(ttl, ws, es, k, m, symbol);
    NewestBelowLast(ws[k], symbol);
    OldEntryStays(ttl, ws, es, k, m, symbol);
  }

  lemma {:induction false} TableTimeGrows(ttl: nat, ws: seq<World>, es: seq<Event>, k: nat, m: nat, symbol: string)
    requires IsRun(ttl, ws, es) && k <= m <= |es|
    ensures NotBefore(TableTime(ws[k], symbol), TableTime(ws[m], symbol))
  {
    if k < m {
      TableTimeGrows(ttl, ws, es, k, m - 1, symbol);
      RowsStep(ttl, ws[m - 1], es[m - 1], ws[m]);
      TableTimeStep(ws[m - 1], ws[m], symbol);
    }
  }

  lemma TableTimeStep(w: World, w': World, symbol: string)
    requires w.rows <= w'.rows
    ensures NotBefore(TableTime(w, symbol), TableTime(w', symbol))
  {
    if Newest(w.rows, symbol, None).Some? {
      NewestGrows(w.rows, w'.rows, symbol);
    }
  }

  lemma TableHasTime(w: World, pair: Pair)
    requires Inv(w)
    ensures PostgresGet(w.rows, pair, None).Ok?
    ensures TableTime(w, pair.Code()) ==
              match PostgresGet(w.rows, pair, None).value
              case None => None
              case Some(q) => Some(q.timestamp)
  {
    LoggedAnswer(w, pair, None);
  }

  /** A read that gets its answer from the table, because the cache failed or had missed some
      time before, is never behind an earlier read; and any later read goes back in time
      exactly if it still finds the live entry that was behind when the table answered. */
  lemma TableReadRegressesIff(ttl: nat, ws: seq<World>, es: seq<Event>, j: nat, k: nat, m: nat, pair: Pair)
    requires IsRun(ttl, ws, es) && j <= k <= m <= |es|
    ensures Answer(ws[j], pair).Ok? && Answer(ws[m], pair).Ok? && PostgresGet(ws[k].rows, pair, None).Ok?
    ensures
      var earlier, table := Answer(ws[j], pair).value, PostgresGet(ws[k].rows, pair, None).value;
      earlier.Some? ==> table.Some? && earlier.value.timestamp <= table.value.timestamp
    ensures
      var table, later := PostgresGet(ws[k].rows, pair, None).value, Answer(ws[m], pair).value;
      (table.Some? ==> later.Some? && table.value.timestamp <= later.value.timestamp)
        <==> !BehindUntil(ws[k], ws[m], pair.Code())
  {
    InvAlways(ttl, ws, es, j);
    InvAlways(ttl, ws, es, k);
    InvAlways(ttl, ws, es, m);
    AnswerHasTime(ws[j], pair);
    AnswerHasTime(ws[m], pair);
    TableHasTime(ws[k], pair);
    AnswerTimeGrows(ttl, ws, es, j, k, pair.Code());
    TableTimeCompares(ws[k], pair.Code());
    LaterTimeIff(ttl, ws, es, k, m, pair.Code());
  }
}
