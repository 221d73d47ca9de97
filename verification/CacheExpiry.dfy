/** When the cache answers, said of the commands that reached it and of the clock. */
module CacheExpiry {
  import opened Wrappers
  import opened Quotes
  import opened Codecs
  import opened QuoteCache
  import opened Queries
  import opened StoreRuns
  import opened ReadProperties

  /** In this event a cache command for the symbol takes effect. */
  predicate Puts(w: World, e: Event, symbol: string) {
    && e == CachePut(true) && w.writer.Caching? && w.writer.next < |w.writer.batch|
    && w.writer.batch[w.writer.next].pair.Code() == symbol
  }

  /** The quote of the command that is next. */
  function NextQuote(w: World): Quote
    requires w.writer.Caching? && w.writer.next < |w.writer.batch|
  {
    w.writer.batch[w.writer.next]
  }

  /** Command `i` for the symbol is the last one before state `k`, and nothing was evicted since. */
  ghost predicate LastPut(ws: seq<World>, es: seq<Event>, i: int, k: nat, symbol: string)
    requires |ws| == |es| + 1 && k <= |es|
  {
    && 0 <= i < k && Puts(ws[i], es[i], symbol)
    && forall j | i < j < k :: !Puts(ws[j], es[j], symbol) && es[j] != Evict(symbol)
  }

  ghost predicate IsEntryOf(entry: Entry, w: World, ttl: nat)
    requires w.writer.Caching? && w.writer.next < |w.writer.batch|
  {
    EncodeTicker(NextQuote(w)) == Ok(entry.ticker) && entry.expiresAt == w.now + ttl
  }

  lemma PutStep(ttl: nat, w: World, e: Event, w': World, symbol: string)
    requires Step(ttl, w, e) == Some(w') && Puts(w, e, symbol)
    ensures symbol in w'.entries && IsEntryOf(w'.entries[symbol], w, ttl)
  {
  }

  lemma OtherStep(ttl: nat, w: World, e: Event, w': World, symbol: string)
    requires Step(ttl, w, e) == Some(w') && !Puts(w, e, symbol)
    ensures symbol in w'.entries <==> symbol in w.entries && e != Evict(symbol)
    ensures symbol in w'.entries ==> w'.entries[symbol] == w.entries[symbol]
  {
  }

  /** The entry of a symbol, if there is one, is that of the last command. */
  ghost predicate EntryOfLast(ttl: nat, ws: seq<World>, es: seq<Event>, k: nat, symbol: string)
    requires |ws| == |es| + 1 && k <= |es|
  {
    && (symbol in ws[k].entries <==> exists i :: LastPut(ws, es, i, k, symbol))
    && forall i | LastPut(ws, es, i, k, symbol) :: IsEntryOf(ws[k].entries[symbol], ws[i], ttl)
  }

  /** A symbol has an entry exactly if a command for it took effect that was not evicted since,
      and the entry is that of the last such command. */
  lemma {:induction false} EntryIff(ttl: nat, ws: seq<World>, es: seq<Event>, k: nat, symbol: string)
    requires IsRun(ttl, ws, es) && k <= |es|
    ensures EntryOfLast(ttl, ws, es, k, symbol)
  {
    if k > 0 {
      assert Step(ttl, ws[k - 1], es[k - 1]) == Some(ws[k]);
      if Puts(ws[k - 1], es[k - 1], symbol) {
        PutStep(ttl, ws[k - 1], es[k - 1], ws[k], symbol);
        EntryAfterPut(ttl, ws, es, k, symbol);
      } else {
        EntryIff(ttl, ws, es, k - 1, symbol);
        OtherStep(ttl, ws[k - 1], es[k - 1], ws[k], symbol);
        EntryAfterOther(ttl, ws, es, k, symbol);
      }
    }
  }

  lemma EntryAfterPut(ttl: nat, ws: seq<World>, es: seq<Event>, k: nat, symbol: string)
    requires |ws| == |es| + 1 && 0 < k <= |es| && Puts(ws[k - 1], es[k - 1], symbol)
    requires symbol in ws[k].entries && IsEntryOf(ws[k].entries[symbol], ws[k - 1], ttl)
    ensures EntryOfLast(ttl, ws, es, k, symbol)
  {
    assert LastPut(ws, es, k - 1, k, symbol);
    forall i | LastPut(ws, es, i, k, symbol) ensures i == k - 1 {
    }
  }

  lemma EntryAfterOther(ttl: nat, ws: seq<World>, es: seq<Event>, k: nat, symbol: string)
    requires |ws| == |es| + 1 && 0 < k <= |es| && !Puts(ws[k - 1], es[k - 1], symbol)
    requires EntryOfLast(ttl, ws, es, k - 1, symbol)
    requires symbol in ws[k].entries <==> symbol in ws[k - 1].entries && es[k - 1] != Evict(symbol)
    requires symbol in ws[k].entries ==> ws[k].entries[symbol] == ws[k - 1].entries[symbol]
    ensures EntryOfLast(ttl, ws, es, k, symbol)
  {
    LastPutStays(ws, es, k, symbol);
    if symbol in ws[k].entries {
      var i :| LastPut(ws, es, i, k - 1, symbol);
      assert LastPut(ws, es, i, k, symbol);
    }
    forall i | LastPut(ws, es, i, k, symbol) ensures LastPut(ws, es, i, k - 1, symbol) && symbol in ws[k].entries {
    }
  }

  lemma LastPutStays(ws: seq<World>, es: seq<Event>, k: nat, symbol: string)
    requires |ws| == |es| + 1 && 0 < k <= |es| && !Puts(ws[k - 1], es[k - 1], symbol)
    ensures forall i :: LastPut(ws, es, i, k, symbol) <==>
              LastPut(ws, es, i, k - 1, symbol) && es[k - 1] != Evict(symbol)
  {
  }

  /** Command `i` for the symbol took effect less than the ttl ago and was not evicted since. */
  ghost predicate FreshPut(ttl: nat, ws: seq<World>, es: seq<Event>, i: int, k: nat, symbol: string)
    requires |ws| == |es| + 1 && k <= |es|
  {
    && 0 <= i < k && Puts(ws[i], es[i], symbol) && ws[k].now < ws[i].now + ttl
    && forall j | i < j < k :: es[j] != Evict(symbol)
  }

  /** After a command there is a last one. */
  lemma {:induction false} SomePutIsLast(ws: seq<World>, es: seq<Event>, i: nat, k: nat, symbol: string)
    returns (last: nat)
    requires |ws| == |es| + 1 && i < k <= |es| && Puts(ws[i], es[i], symbol)
    requires forall j | i < j < k :: es[j] != Evict(symbol)
    ensures i <= last && LastPut(ws, es, last, k, symbol)
    decreases k - i
  {
    if j :| i < j < k && Puts(ws[j], es[j], symbol) {
      last := SomePutIsLast(ws, es, j, k, symbol);
    } else {
      last := i;
    }
  }

  /** In every reachable state the cache has an answer exactly if a command for the symbol took
      effect less than the ttl ago and was not evicted since; the answer is the quote of the last
      command, under the pair asked for. */
  lemma HitIff(ttl: nat, ws: seq<World>, es: seq<Event>, k: nat, pair: Pair)
    requires IsRun(ttl, ws, es) && k <= |es|
    ensures GetCached(ws[k].entries, pair, ws[k].now).Some?
       <==> exists i :: FreshPut(ttl, ws, es, i, k, pair.Code())
    ensures forall i | LastPut(ws, es, i, k, pair.Code()) && FreshPut(ttl, ws, es, i, k, pair.Code()) ::
              var q := NextQuote(ws[i]);
              && GetCached(ws[k].entries, pair, ws[k].now) == Some(Quote(pair, q.rate, q.timestamp))
              && Answer(ws[k], pair) == Ok(Some(Quote(pair, q.rate, q.timestamp)))
  {
    var w, code := ws[k], pair.Code();
    EntryIff(ttl, ws, es, k, code);
    if GetCached(w.entries, pair, w.now).Some? {
      var i :| LastPut(ws, es, i, k, code);
      assert FreshPut(ttl, ws, es, i, k, code);
    }
    if i :| FreshPut(ttl, ws, es, i, k, code) {
      var last := SomePutIsLast(ws, es, i, k, code);
      LastGrows(ttl, ws, es, i, last);
      FreshEntryHits(ttl, ws, es, last, k, pair);
    }
    forall i | LastPut(ws, es, i, k, code) && FreshPut(ttl, ws, es, i, k, code)
      ensures GetCached(w.entries, pair, w.now) == Some(NextQuote(ws[i]).(pair := pair))
    {
      FreshEntryHits(ttl, ws, es, i, k, pair);
    }
  }

  lemma FreshEntryHits(ttl: nat, ws: seq<World>, es: seq<Event>, i: nat, k: nat, pair: Pair)
    requires IsRun(ttl, ws, es) && k <= |es| && LastPut(ws, es, i, k, pair.Code()) && ws[k].now < ws[i].now + ttl
    ensures GetCached(ws[k].entries, pair, ws[k].now) == Some(NextQuote(ws[i]).(pair := pair))
  {
    EntryIff(ttl, ws, es, k, pair.Code());
    InvAlways(ttl, ws, es, i);
    CachedQuoteIsValid(ws[i]);
    TickerRoundTrip(NextQuote(ws[i]), pair);
  }

  lemma CachedQuoteIsValid(w: World)
    requires WriterOk(w) && w.writer.Caching? && w.writer.next < |w.writer.batch|
    ensures ValidQuote(NextQuote(w)) && EncodeTicker(NextQuote(w)).Ok?
  {
  }

  /** Without such a command a read is answered by the table alone. */
  lemma ExpiredAnswersFromTable(ttl: nat, ws: seq<World>, es: seq<Event>, k: nat, pair: Pair)
    requires IsRun(ttl, ws, es) && k <= |es|
    requires forall i :: !FreshPut(ttl, ws, es, i, k, pair.Code())
    ensures GetCached(ws[k].entries, pair, ws[k].now) == None
    ensures Answer(ws[k], pair) == PostgresGet(ws[k].rows, pair, None)
  {
    HitIff(ttl, ws, es, k, pair);
  }

  /** An entry can be evicted at any time, and is a miss from then on. */
  lemma EvictedIsMiss(ttl: nat, w: World, symbol: string, pair: Pair)
    requires pair.Code() == symbol
    ensures Step(ttl, w, Evict(symbol)).Some?
    ensures
      var w' := Step(ttl, w, Evict(symbol)).value;
      && GetCached(w'.entries, pair, w.now) == None && w'.rows == w.rows
      && forall s | s in w.entries && s != symbol :: s in w'.entries && w'.entries[s] == w.entries[s]
  {
  }
}
