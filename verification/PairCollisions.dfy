/** Pairs that share a code, and what that does to the reads of either. */
module PairCollisions {
  import opened Wrappers
  import opened Decimals
  import opened Quotes
  import opened Codecs
  import opened QuoteLog
  import opened QuoteCache
  import opened StoreRuns
  import opened ReadProperties

  /** The longer base is the shorter one and a stretch that the other pair's quote begins with. */
  predicate Overlaps(p: Pair, p': Pair) {
    |p.base| < |p'.base| && p.base <= p'.base && p.quote == p'.base[|p.base|..] + p'.quote
  }

  /** Two pairs have one code exactly if they are equal or overlap one way or the other. */
  lemma CollideIff(p: Pair, p': Pair)
    ensures p.Code() == p'.Code() <==> p == p' || Overlaps(p, p') || Overlaps(p', p)
  {
    if |p.base| <= |p'.base| {
      ShorterFirst(p, p');
    } else {
      ShorterFirst(p', p);
    }
  }

  lemma ShorterFirst(p: Pair, p': Pair)
    requires |p.base| <= |p'.base|
    ensures p.Code() == p'.Code() <==> p.base <= p'.base && p.quote == p'.base[|p.base|..] + p'.quote
    ensures p.base <= p'.base && |p.base| == |p'.base| ==>
              p.base == p'.base && p'.base[|p.base|..] + p'.quote == p'.quote
  {
    var n := |p.base|;
    assert p.Code()[..n] == p.base && p.Code()[n..] == p.quote;
    assert p'.Code()[..n] == p'.base[..n] && p'.Code()[n..] == p'.base[n..] + p'.quote;
    if p.base <= p'.base {
      assert p'.base[..n] == p.base;
      assert p'.Code() == p'.Code()[..n] + p'.Code()[n..];
      assert p.Code() == p.Code()[..n] + p.Code()[n..];
    }
  }

  // ---------------------------------------------------------------- reads

  /** Row `i` of the symbol holds the rate and time of `q` and was stored for `stored`. */
  predicate FromRow(rows: seq<Row>, i: int, symbol: string, q: Quote, stored: Pair) {
    && 0 <= i < |rows| && rows[i].symbol == symbol
    && rows[i].timestamp == q.timestamp && rows[i].rate == GridValue(q.rate)
    && rows[i].base == stored.base && rows[i].quote == stored.quote
  }

  /** Asking for `p` yields the data that was stored for `p'`. */
  ghost predicate AnswersWith(w: World, p: Pair, p': Pair) {
    && Answer(w, p).Ok? && Answer(w, p).value.Some?
    && exists i :: FromRow(w.rows, i, p.Code(), Answer(w, p).value.value, p')
  }

  /** Every answer is the data of exactly one stored pair, which has the requested code: the
      requested pair itself, or one that overlaps it. */
  lemma AnswerHasOneOwner(ttl: nat, ws: seq<World>, es: seq<Event>, k: nat, p: Pair) returns (owner: Pair)
    requires IsRun(ttl, ws, es) && k <= |es|
    requires Answer(ws[k], p).Ok? && Answer(ws[k], p).value.Some?
    ensures AnswersWith(ws[k], p, owner) && ValidPair(owner)
    ensures forall p' | AnswersWith(ws[k], p, p') :: p' == owner
    ensures owner == p || Overlaps(owner, p) || Overlaps(p, owner)
  {
    InvAlways(ttl, ws, es, k);
    AnswerCommittedIn(ws[k], p);
    var w, q := ws[k], Answer(ws[k], p).value.value;
    var i :| 0 <= i < |w.rows| && w.rows[i].symbol == p.Code()
          && w.rows[i].timestamp == q.timestamp && w.rows[i].rate == GridValue(q.rate);
    owner := Pair(w.rows[i].base, w.rows[i].quote);
    assert FromRow(w.rows, i, p.Code(), q, owner);
    GoodRowsOwner(w.rows[i]);
    CollideIff(owner, p);
    forall p' | AnswersWith(w, p, p') ensures p' == owner {
      OneRowOnly(w, i, p, q, owner, p');
    }
  }

  lemma OneRowOnly(w: World, i: int, p: Pair, q: Quote, owner: Pair, p': Pair)
    requires DistinctKeys(w.rows) && FromRow(w.rows, i, p.Code(), q, owner)
    requires AnswersWith(w, p, p') && Answer(w, p).value.value == q
    ensures p' == owner
  {
    var j :| FromRow(w.rows, j, p.Code(), q, p');
    assert i == j;
  }

  lemma GoodRowsOwner(row: Row)
    requires GoodRow(row)
    ensures ValidPair(Pair(row.base, row.quote)) && Pair(row.base, row.quote).Code() == row.symbol
  {
  }

  ghost predicate CanAnswerWith(ttl: nat, p: Pair, p': Pair) {
    exists ws, es, k: nat :: IsRun(ttl, ws, es) && k <= |es| && AnswersWith(ws[k], p, p')
  }

  /** Asking for `p` can yield what was stored for `p'` exactly if their codes are equal, that
      is, if they are one pair or overlap. */
  lemma ReadsMixIff(ttl: nat, p: Pair, p': Pair)
    requires ValidPair(p')
    ensures CanAnswerWith(ttl, p, p') <==> p == p' || Overlaps(p, p') || Overlaps(p', p)
  {
    if CanAnswerWith(ttl, p, p') {
      var ws, es, k: nat :| IsRun(ttl, ws, es) && k <= |es| && AnswersWith(ws[k], p, p');
      var owner := AnswerHasOneOwner(ttl, ws, es, k, p);
    }
    CollideIff(p, p');
    if p.Code() == p'.Code() {
      var q := Quote(p', 1, 0);
      var ws, es := CommittedRun(ttl, q);
      StoredAnswer(ws[2], q, p);
    }
  }

  lemma InsertFirst(q: Quote)
    ensures InsertBatch([], [q]) == [EncodeRow(q)]
  {
    assert [q][..0] == [];
    assert InsertBatch([], []) == [];
  }

  lemma FirstCommit(ttl: nat, q: Quote, w0: World, w1: World, w2: World)
    requires ValidQuote(q) && w0.rows == [] && w0.writer == Idle && w0.last == None
    requires w1 == w0.(writer := Trying([q], 1), last := Some(q.timestamp))
    requires w2 == w1.(rows := [EncodeRow(q)], behind := w1.behind + CodesOf([q]),
                       writer := if AllEncode([q]) then Caching([q], 0) else Idle)
    ensures Step(ttl, w0, Begin([q])) == Some(w1)
    ensures Step(ttl, w1, AttemptCommits) == Some(w2)
  {
    InsertFirst(q);
    assert IsBatch([q], q.timestamp);
  }

  lemma CommittedRun(ttl: nat, q: Quote) returns (ws: seq<World>, es: seq<Event>)
    requires ValidQuote(q)
    ensures IsRun(ttl, ws, es) && |es| == 2
    ensures ws[2].rows == [EncodeRow(q)] && ws[2].entries == map[]
  {
    var none: set<string> := {};
    var w0 := World([], map[], 0, Idle, None, none);
    var w1 := w0.(writer := Trying([q], 1), last := Some(q.timestamp));
    var w2 := w1.(rows := [EncodeRow(q)], behind := w1.behind + CodesOf([q]),
                  writer := if AllEncode([q]) then Caching([q], 0) else Idle);
    FirstCommit(ttl, q, w0, w1, w2);
    RunGrows(ttl, [w0], [], Begin([q]), w1);
    RunGrows(ttl, [w0, w1], [Begin([q])], AttemptCommits, w2);
    ws, es := [w0, w1] + [w2], [Begin([q])] + [AttemptCommits];
  }

  lemma StoredAnswer(w: World, q: Quote, p: Pair)
    requires w.rows == [EncodeRow(q)] && w.entries == map[] && ValidQuote(q) && p.Code() == q.pair.Code()
    ensures AnswersWith(w, p, q.pair)
  {
    RowRoundTrip(q);
    assert [EncodeRow(q)][..0] == [];
    assert Newest(w.rows, p.Code(), None) == Some(EncodeRow(q));
    assert Answer(w, p) == Ok(Some(q));
    assert FromRow(w.rows, 0, p.Code(), q, q.pair);
  }
}
