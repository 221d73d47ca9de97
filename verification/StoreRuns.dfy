/** Every run of the two stores: one writer storing batches of increasing timestamps, with
    attempts that fail before or after their commit, cache commands that are lost one by one,
    entries that expire or are evicted, and reads at any point in between. */
module StoreRuns {
  import opened Wrappers
  import opened Quotes
  import opened Codecs
  import opened QuoteLog
  import opened QuoteCache
  import opened Writers

  /** Where the writer is: between batches, before attempt number `attempt` (from 1) has
      committed, or after it, with the cache command of quote number `next` still to send. */
  datatype Writer = Idle | Trying(batch: seq<Quote>, attempt: nat) | Caching(batch: seq<Quote>, next: nat)

  datatype Event =
    | Begin(batch: seq<Quote>)
    | AttemptFails(committed: bool)
    | AttemptCommits
    | CachePut(delivered: bool)
    | Evict(symbol: string)
    | Tick(ticks: nat)

  /** The stores, the clock and the writer; and two facts about the past: the timestamp of the
      last batch begun, and the symbols committed since a cache command for them last arrived. */
  datatype World = World(
    rows: seq<Row>, entries: Entries, now: int, writer: Writer, last: Option<int>, behind: set<string>)

  predicate Initial(w: World) {
    w.rows == [] && w.entries == map[] && w.writer == Idle && w.last == None && w.behind == {}
  }

  function CodesOf(batch: seq<Quote>): set<string> {
    set i | 0 <= i < |batch| :: batch[i].pair.Code()
  }

  /** Batches are not empty and each is later than all before it. */
  ghost predicate CanBegin(w: World, batch: seq<Quote>) {
    && batch != [] && IsBatch(batch, batch[0].timestamp)
    && (w.last.Some? ==> w.last.value < batch[0].timestamp)
  }

  ghost function Step(ttl: nat, w: World, e: Event): Option<World> {
    match e
    case Begin(batch) =>
      if w.writer == Idle && CanBegin(w, batch) then
        Some(w.(writer := Trying(batch, 1), last := Some(batch[0].timestamp)))
      else None
    case AttemptFails(committed) =>
      if !w.writer.Trying? then None
      else
        Some(w.(rows := SavedRows(w.rows, w.writer.batch, committed),
                behind := w.behind + (if committed then CodesOf(w.writer.batch) else {}),
                writer := if w.writer.attempt < MAX_ATTEMPTS then w.writer.(attempt := w.writer.attempt + 1) else Idle))
    case AttemptCommits =>
      if !w.writer.Trying? then None
      else
        Some(w.(rows := InsertBatch(w.rows, w.writer.batch),
                behind := w.behind + CodesOf(w.writer.batch),
                writer := if AllEncode(w.writer.batch) then Caching(w.writer.batch, 0) else Idle))
    case CachePut(delivered) =>
      if !w.writer.Caching? || w.writer.next >= |w.writer.batch| || !AllEncode(w.writer.batch) then None
      else
        var q := w.writer.batch[w.writer.next];
        Some(w.(entries := if delivered then Apply(w.entries, PutCommand(q, w.now, ttl)) else w.entries,
                behind := if delivered then w.behind - {q.pair.Code()} else w.behind,
                writer := if w.writer.next + 1 < |w.writer.batch| then w.writer.(next := w.writer.next + 1) else Idle))
    case Evict(symbol) => Some(w.(entries := w.entries - {symbol}))
    case Tick(ticks) => Some(w.(now := w.now + ticks))
  }

  /** `ws[k]` is the world before event `k`. */
  ghost predicate IsRun(ttl: nat, ws: seq<World>, es: seq<Event>) {
    && |ws| == |es| + 1
    && Initial(ws[0])
    && forall k {:trigger es[k]} | 0 <= k < |es| :: Step(ttl, ws[k], es[k]) == Some(ws[k + 1])
  }

  lemma RunGrows(ttl: nat, ws: seq<World>, es: seq<Event>, e: Event, w: World)
    requires IsRun(ttl, ws, es) && Step(ttl, ws[|es|], e) == Some(w)
    ensures IsRun(ttl, ws + [w], es + [e])
  {
    assert forall k | 0 <= k < |es| :: (es + [e])[k] == es[k];
  }

  // ---------------------------------------------------------------- invariant

  /** The row of a valid quote. */
  predicate GoodRow(row: Row) {
    DecodeRow(row).Ok? && ValidQuote(DecodeRow(row).value) && EncodeRow(DecodeRow(row).value) == row
  }

  /** The entry holds exactly what caching the row's quote writes. */
  predicate Mirrors(entry: Entry, row: Row) {
    DecodeRow(row).Ok? && EncodeTicker(DecodeRow(row).value) == Ok(entry.ticker)
  }

  predicate CommittedEntry(rows: seq<Row>, symbol: string, entry: Entry) {
    exists i | 0 <= i < |rows| :: rows[i].symbol == symbol && Mirrors(entry, rows[i])
  }

  ghost predicate RowsOk(rows: seq<Row>, last: Option<int>) {
    && DistinctKeys(rows)
    && forall i | 0 <= i < |rows| :: GoodRow(rows[i]) && last.Some? && rows[i].timestamp <= last.value
  }

  ghost predicate EntriesOk(rows: seq<Row>, entries: Entries, behind: set<string>) {
    forall s | s in entries ::
      && CommittedEntry(rows, s, entries[s])
      && Newest(rows, s, None).Some?
      && (s in behind <==> entries[s].ticker.timestamp < Newest(rows, s, None).value.timestamp)
  }

  ghost predicate WriterOk(w: World) {
    match w.writer
    case Idle => true
    case Trying(batch, attempt) =>
      && batch != [] && w.last.Some? && IsBatch(batch, w.last.value)
      && (forall i | 0 <= i < |w.rows| && w.rows[i].timestamp == w.last.value :: IsRowOf(w.rows[i], batch))
      && (forall s | s in w.entries :: w.entries[s].ticker.timestamp < w.last.value)
    case Caching(batch, next) =>
      && next < |batch| && w.last.Some? && IsBatch(batch, w.last.value) && AllEncode(batch)
      && (forall k | 0 <= k < |batch| :: EncodeRow(batch[k]) in w.rows)
  }

  ghost predicate IsRowOf(row: Row, batch: seq<Quote>) {
    exists k | 0 <= k < |batch| :: row == EncodeRow(batch[k])
  }

  ghost predicate Inv(w: World) {
    RowsOk(w.rows, w.last) && EntriesOk(w.rows, w.entries, w.behind) && WriterOk(w)
  }

  lemma EntryTimes(w: World, symbol: string)
    requires RowsOk(w.rows, w.last) && EntriesOk(w.rows, w.entries, w.behind) && symbol in w.entries
    ensures w.last.Some? && w.entries[symbol].ticker.timestamp <= w.last.value
  {
  }

  /** Inserting a batch: the table stays in order, every quote of the batch has its own row,
      and the newest row changes only for symbols of the batch, whose newest is the batch's. */
  lemma InsertKeepsRows(rows: seq<Row>, batch: seq<Quote>, timestamp: int)
    requires RowsOk(rows, Some(timestamp)) && IsBatch(batch, timestamp)
    requires forall i | 0 <= i < |rows| && rows[i].timestamp == timestamp :: IsRowOf(rows[i], batch)
    ensures RowsOk(InsertBatch(rows, batch), Some(timestamp))
    ensures forall i | 0 <= i < |InsertBatch(rows, batch)| && InsertBatch(rows, batch)[i].timestamp == timestamp ::
              IsRowOf(InsertBatch(rows, batch)[i], batch)
    ensures forall k | 0 <= k < |batch| :: EncodeRow(batch[k]) in InsertBatch(rows, batch)
  {
    var after := InsertBatch(rows, batch);
    InsertBatchLaws(rows, batch);
    forall i | |rows| <= i < |after|
      ensures IsRowOf(after[i], batch) && GoodRow(after[i]) && after[i].timestamp == timestamp
    {
      var k :| 0 <= k < |batch| && after[i] == EncodeRow(batch[k]);
      RowRoundTrip(batch[k]);
    }
    assert forall i | 0 <= i < |rows| :: after[i] == rows[i];
    forall k | 0 <= k < |batch| ensures EncodeRow(batch[k]) in after {
      assert HasKey(after, batch[k].pair.Code(), batch[k].timestamp);
      var i :| 0 <= i < |after| && after[i].symbol == batch[k].pair.Code() && after[i].timestamp == batch[k].timestamp;
      assert IsRowOf(after[i], batch);
      var k' :| 0 <= k' < |batch| && after[i] == EncodeRow(batch[k']);
      assert batch[k'].pair.Code() == batch[k].pair.Code();
    }
  }

  lemma NewestOfTheBatch(rows: seq<Row>, timestamp: int, q: Quote)
    requires RowsOk(rows, Some(timestamp)) && q.timestamp == timestamp && EncodeRow(q) in rows
    ensures Newest(rows, q.pair.Code(), None).Some?
    ensures Newest(rows, q.pair.Code(), None).value.timestamp == timestamp
  {
    var i :| 0 <= i < |rows| && rows[i] == EncodeRow(q);
    assert Matches(rows[i], q.pair.Code(), None);
  }

  lemma NewRowsAreOfTheBatch(rows: seq<Row>, batch: seq<Quote>, symbol: string, i: nat)
    requires symbol !in CodesOf(batch) && |rows| <= i < |InsertBatch(rows, batch)|
    ensures InsertBatch(rows, batch)[i].symbol != symbol
  {
    InsertBatchLaws(rows, batch);
    var k :| 0 <= k < |batch| && InsertBatch(rows, batch)[i] == EncodeRow(batch[k]);
    assert batch[k].pair.Code() in CodesOf(batch);
  }

  lemma NewestOfOthers(rows: seq<Row>, batch: seq<Quote>, symbol: string)
    requires symbol !in CodesOf(batch)
    ensures Newest(InsertBatch(rows, batch), symbol, None) == Newest(rows, symbol, None)
  {
    var after := InsertBatch(rows, batch);
    InsertBatchLaws(rows, batch);
    forall i | |rows| <= i < |after| ensures after[i].symbol != symbol {
      NewRowsAreOfTheBatch(rows, batch, symbol, i);
    }
    AppendedOthers(rows, after, symbol);
  }

  lemma AppendedOthers(rows: seq<Row>, after: seq<Row>, symbol: string)
    requires rows <= after && forall i | |rows| <= i < |after| :: after[i].symbol != symbol
    ensures Newest(after, symbol, None) == Newest(rows, symbol, None)
  {
    assert after == rows + after[|rows|..];
    LaterRowsIrrelevant(rows, after[|rows|..], symbol, None);
  }

  lemma NewestAfterInsert(rows: seq<Row>, batch: seq<Quote>, timestamp: int, symbol: string)
    requires RowsOk(rows, Some(timestamp)) && IsBatch(batch, timestamp)
    requires forall i | 0 <= i < |rows| && rows[i].timestamp == timestamp :: IsRowOf(rows[i], batch)
    ensures symbol in CodesOf(batch) ==>
              Newest(InsertBatch(rows, batch), symbol, None).Some?
              && Newest(InsertBatch(rows, batch), symbol, None).value.timestamp == timestamp
    ensures symbol !in CodesOf(batch) ==> Newest(InsertBatch(rows, batch), symbol, None) == Newest(rows, symbol, None)
  {
    if symbol in CodesOf(batch) {
      InsertKeepsRows(rows, batch, timestamp);
      var k :| 0 <= k < |batch| && batch[k].pair.Code() == symbol;
      NewestOfTheBatch(InsertBatch(rows, batch), timestamp, batch[k]);
    } else {
      NewestOfOthers(rows, batch, symbol);
    }
  }

  lemma CommitKeepsInv(w: World, writer: Writer)
    requires Inv(w) && w.writer.Trying?
    requires writer == Idle || (writer.Trying? && writer.batch == w.writer.batch)
          || (writer == Caching(w.writer.batch, 0) && AllEncode(w.writer.batch))
    ensures Inv(w.(rows := InsertBatch(w.rows, w.writer.batch),
                   behind := w.behind + CodesOf(w.writer.batch), writer := writer))
  {
    var batch, timestamp := w.writer.batch, w.last.value;
    var after := InsertBatch(w.rows, batch);
    InsertKeepsRows(w.rows, batch, timestamp);
    InsertBatchLaws(w.rows, batch);
    forall s | s in w.entries
      ensures CommittedEntry(after, s, w.entries[s]) && Newest(after, s, None).Some?
      ensures s in w.behind + CodesOf(batch) <==> w.entries[s].ticker.timestamp < Newest(after, s, None).value.timestamp
    {
      NewestAfterInsert(w.rows, batch, timestamp, s);
      var i :| 0 <= i < |w.rows| && w.rows[i].symbol == s && Mirrors(w.entries[s], w.rows[i]);
      assert after[i] == w.rows[i];
    }
  }

  lemma PutIsCommitted(rows: seq<Row>, q: Quote, now: int, ttl: nat)
    requires ValidQuote(q) && EncodeRow(q) in rows && EncodeTicker(q).Ok?
    ensures CommittedEntry(rows, q.pair.Code(), PutCommand(q, now, ttl).entry)
  {
    var i :| 0 <= i < |rows| && rows[i] == EncodeRow(q);
    RowRoundTrip(q);
    assert Mirrors(PutCommand(q, now, ttl).entry, rows[i]);
  }

  lemma PutKeepsEntries(w: World, q: Quote, ttl: nat)
    requires RowsOk(w.rows, w.last) && EntriesOk(w.rows, w.entries, w.behind)
    requires ValidQuote(q) && w.last == Some(q.timestamp) && EncodeRow(q) in w.rows && EncodeTicker(q).Ok?
    ensures EntriesOk(w.rows, Apply(w.entries, PutCommand(q, w.now, ttl)), w.behind - {q.pair.Code()})
  {
    PutIsCommitted(w.rows, q, w.now, ttl);
    NewestOfTheBatch(w.rows, q.timestamp, q);
  }

  /** The quote of the next command is a committed quote of the batch begun last. */
  lemma NextIsCommitted(ttl: nat, w: World, w': World)
    requires WriterOk(w) && Step(ttl, w, CachePut(true)) == Some(w')
    ensures
      var q := w.writer.batch[w.writer.next];
      && ValidQuote(q) && w.last == Some(q.timestamp) && EncodeRow(q) in w.rows && EncodeTicker(q).Ok?
      && w'.entries == Apply(w.entries, PutCommand(q, w.now, ttl)) && w'.behind == w.behind - {q.pair.Code()}
    ensures w'.rows == w.rows && w'.last == w.last && WriterOk(w')
  {
  }

  lemma PutKeepsInv(ttl: nat, w: World, w': World)
    requires Inv(w) && Step(ttl, w, CachePut(true)) == Some(w')
    ensures Inv(w')
  {
    NextIsCommitted(ttl, w, w');
    PutKeepsEntries(w, w.writer.batch[w.writer.next], ttl);
  }

  lemma BeginKeepsInv(ttl: nat, w: World, w': World, batch: seq<Quote>)
    requires Inv(w) && Step(ttl, w, Begin(batch)) == Some(w')
    ensures Inv(w')
  {
    forall s | s in w.entries ensures w.entries[s].ticker.timestamp < batch[0].timestamp {
      EntryTimes(w, s);
    }
  }

  lemma InvStep(ttl: nat, w: World, e: Event, w': World)
    requires Inv(w) && Step(ttl, w, e) == Some(w')
    ensures Inv(w')
  {
    match e {
      case Begin(batch) => BeginKeepsInv(ttl, w, w', batch);
      case AttemptFails(committed) =>
        if committed {
          CommitKeepsInv(w, w'.writer);
        } else {
          assert w'.behind == w.behind;
        }
      case AttemptCommits => CommitKeepsInv(w, w'.writer);
      case CachePut(delivered) =>
        if delivered {
          PutKeepsInv(ttl, w, w');
        }
      case Evict(symbol) =>
      case Tick(ticks) =>
    }
  }

  lemma {:induction false} InvAlways(ttl: nat, ws: seq<World>, es: seq<Event>, k: nat)
    requires IsRun(ttl, ws, es) && k <= |es|
    ensures Inv(ws[k])
  {
    if k > 0 {
      InvAlways(ttl, ws, es, k - 1);
      InvStep(ttl, ws[k - 1], es[k - 1], ws[k]);
    }
  }

  lemma {:induction false} LastGrows(ttl: nat, ws: seq<World>, es: seq<Event>, k: nat, m: nat)
    requires IsRun(ttl, ws, es) && k <= m <= |es|
    ensures ws[k].now <= ws[m].now
    ensures ws[k].last.Some? ==> ws[m].last.Some? && ws[k].last.value <= ws[m].last.value
  {
    if k < m {
      LastGrows(ttl, ws, es, k, m - 1);
      LastStep(ttl, ws[m - 1], es[m - 1], ws[m]);
    }
  }

  lemma LastStep(ttl: nat, w: World, e: Event, w': World)
    requires Step(ttl, w, e) == Some(w')
    ensures w.now <= w'.now && (w.last.Some? ==> w'.last.Some? && w.last.value <= w'.last.value)
  {
  }

  /** The table changes only by inserting the batch being tried. */
  lemma RowsMove(ttl: nat, w: World, e: Event, w': World)
    requires Step(ttl, w, e) == Some(w')
    ensures w'.rows == w.rows || (w.writer.Trying? && w'.rows == InsertBatch(w.rows, w.writer.batch))
  {
  }

  lemma TryingIsBatch(w: World)
    requires WriterOk(w) && w.writer.Trying?
    ensures w.writer.batch != [] && IsBatch(w.writer.batch, w.writer.batch[0].timestamp)
  {
  }

  // ---------------------------------------------------------------- steps and methods

  /** The world after sending the first `n` cache commands of a committed batch, one step each. */
  ghost function AfterPuts(ttl: nat, w: World, delivered: seq<bool>, n: nat): Option<World>
    requires w.writer.Caching? && n <= |delivered| == |w.writer.batch|
  {
    if n == 0 then Some(w)
    else
      match AfterPuts(ttl, w, delivered, n - 1)
      case None => None
      case Some(before) => Step(ttl, before, CachePut(delivered[n - 1]))
  }

  /** The cache steps of a batch, taken one by one, do what one pipeline of the cache writer
      does, and end the save. */
  lemma {:induction false} PutsAreOnePipeline(ttl: nat, w: World, delivered: seq<bool>, n: nat)
    requires w.writer.Caching? && w.writer.next == 0 && AllEncode(w.writer.batch)
    requires n <= |delivered| == |w.writer.batch|
    ensures AfterPuts(ttl, w, delivered, n).Some?
    ensures
      var batch, after := w.writer.batch, AfterPuts(ttl, w, delivered, n).value;
      && after.writer == (if 0 < n == |batch| then Idle else Caching(batch, n))
      && after.entries == PutDelivered(w.entries, batch[..n], delivered[..n], w.now, ttl)
      && after.rows == w.rows && after.now == w.now
  {
    if n > 0 {
      PutsAreOnePipeline(ttl, w, delivered, n - 1);
      var commands := PutCommands(w.writer.batch[..n], w.now, ttl);
      assert commands[..n - 1] == PutCommands(w.writer.batch[..n - 1], w.now, ttl);
      assert delivered[..n][..n - 1] == delivered[..n - 1];
    }
  }

  ghost function Exec(ttl: nat, w: World, es: seq<Event>): Option<World> {
    if es == [] then Some(w)
    else
      match Exec(ttl, w, es[..|es| - 1])
      case None => None
      case Some(before) => Step(ttl, before, es[|es| - 1])
  }

  lemma {:induction false} ExecConcat(ttl: nat, w: World, es: seq<Event>, more: seq<Event>)
    requires Exec(ttl, w, es).Some?
    ensures Exec(ttl, w, es + more) == Exec(ttl, Exec(ttl, w, es).value, more)
  {
    if more == [] {
      assert es + more == es;
    } else {
      ExecConcat(ttl, w, es, more[..|more| - 1]);
      assert (es + more)[..|es + more| - 1] == es + more[..|more| - 1];
    }
  }

  lemma {:induction false} PutsAreEvents(ttl: nat, w: World, delivered: seq<bool>, n: nat) returns (es: seq<Event>)
    requires w.writer.Caching? && n <= |delivered| == |w.writer.batch|
    ensures Exec(ttl, w, es) == AfterPuts(ttl, w, delivered, n)
  {
    if n == 0 {
      es := [];
    } else {
      var before := PutsAreEvents(ttl, w, delivered, n - 1);
      es := before + [CachePut(delivered[n - 1])];
      assert es[..|es| - 1] == before;
    }
  }

  lemma FailIsARun(ttl: nat, w: World, committed: bool) returns (es: seq<Event>, w': World)
    requires w.writer.Trying?
    ensures Exec(ttl, w, es) == Some(w') && Step(ttl, w, AttemptFails(committed)) == Some(w')
    ensures w'.rows == SavedRows(w.rows, w.writer.batch, committed) && w'.entries == w.entries && w'.now == w.now
    ensures w'.writer == if w.writer.attempt < MAX_ATTEMPTS then w.writer.(attempt := w.writer.attempt + 1) else Idle
  {
    es, w' := [AttemptFails(committed)], Step(ttl, w, AttemptFails(committed)).value;
    OneEvent(ttl, w, AttemptFails(committed), w');
  }

  lemma WaitFirst(ttl: nat, w: World, now: int, more: seq<Event>, w': World) returns (es: seq<Event>)
    requires w.now <= now && Exec(ttl, w.(now := now), more) == Some(w')
    ensures Exec(ttl, w, es) == Some(w')
  {
    var wait := Tick(now - w.now);
    OneEvent(ttl, w, wait, w.(now := now));
    ExecConcat(ttl, w, [wait], more);
    es := [wait] + more;
  }

  lemma StoredByLast(rows: seq<Row>, entries: Entries, batch: seq<Quote>, attempts: seq<Attempt>, from: nat, ttl: nat)
    requires from < |attempts| && attempts[from].transaction == Commits
    requires forall i | 0 <= i < |attempts| :: |attempts[i].delivered| == |batch|
    ensures StoredRows(rows, batch, attempts, from) == InsertBatch(rows, batch)
    ensures StoredEntries(entries, batch, attempts, from, ttl) ==
              if AllEncode(batch) then
                PutDelivered(entries, batch, attempts[from].delivered, attempts[from].now, ttl)
              else entries
  {
    assert AttemptsMade(attempts, from) == from + 1;
  }

  lemma CommittedFrom(attempts: seq<Attempt>, from: nat, n: nat)
    requires from < n <= |attempts|
    ensures Committed(attempts, from, n)
       <==> attempts[from].transaction != FailsBeforeCommit || Committed(attempts, from + 1, n)
  {
  }

  lemma SavedTwice(rows: seq<Row>, batch: seq<Quote>, first: bool, second: bool)
    ensures SavedRows(SavedRows(rows, batch, first), batch, second) == SavedRows(rows, batch, first || second)
  {
    InsertTwice(rows, batch);
  }

  lemma RowsStoredByRest(rows: seq<Row>, batch: seq<Quote>, attempts: seq<Attempt>, from: nat)
    requires from < |attempts| && attempts[from].transaction != Commits
    ensures
      var saved := SavedRows(rows, batch, attempts[from].transaction == FailsAfterCommit);
      StoredRows(rows, batch, attempts, from) == StoredRows(saved, batch, attempts, from + 1)
  {
    var made := AttemptsMade(attempts, from + 1);
    CommittedFrom(attempts, from, made);
    SavedTwice(rows, batch, attempts[from].transaction == FailsAfterCommit, Committed(attempts, from + 1, made));
  }

  lemma EntriesStoredByRest(entries: Entries, batch: seq<Quote>, attempts: seq<Attempt>, from: nat, ttl: nat)
    requires from < |attempts| && attempts[from].transaction != Commits
    requires forall i | 0 <= i < |attempts| :: |attempts[i].delivered| == |batch|
    ensures StoredEntries(entries, batch, attempts, from, ttl) == StoredEntries(entries, batch, attempts, from + 1, ttl)
  {
    assert AttemptsMade(attempts, from) == AttemptsMade(attempts, from + 1);
  }

  /** A batch is tried three times and no more: after two failures the third attempt is made,
      and after its failure the writer is idle. */
  lemma GivesUpAfterThree(ttl: nat, w: World, first: bool, second: bool, third: bool)
    returns (w2: World, w3: World, w4: World)
    requires w.writer.Trying? && w.writer.attempt == 1
    ensures Step(ttl, w, AttemptFails(first)) == Some(w2) && w2.writer == w.writer.(attempt := 2)
    ensures Step(ttl, w2, AttemptFails(second)) == Some(w3) && w3.writer == w.writer.(attempt := 3)
    ensures Step(ttl, w3, AttemptFails(third)) == Some(w4) && w4.writer == Idle
    ensures w4.entries == w.entries
    ensures w4.rows == if first || second || third then InsertBatch(w.rows, w.writer.batch) else w.rows
  {
    var es;
    es, w2 := FailIsARun(ttl, w, first);
    es, w3 := FailIsARun(ttl, w2, second);
    es, w4 := FailIsARun(ttl, w3, third);
    SavedTwice(w.rows, w.writer.batch, first, second);
    SavedTwice(w.rows, w.writer.batch, first || second, third);
  }

  /** The consumer's retry loop is a stretch of such a run: whatever its attempts do, the
      machine can get from the batch being tried to the table and the cache the loop leaves. */
  lemma {:induction false} RetriesAreARun(ttl: nat, w: World, attempts: seq<Attempt>, from: nat)
    returns (es: seq<Event>, w': World)
    requires |attempts| == MAX_ATTEMPTS && from < MAX_ATTEMPTS
    requires w.writer.Trying? && w.writer.batch != [] && w.writer.attempt == from + 1
    requires forall i | 0 <= i < |attempts| :: |attempts[i].delivered| == |w.writer.batch|
    requires w.now <= attempts[from].now
    requires forall i, j | 0 <= i < j < |attempts| :: attempts[i].now <= attempts[j].now
    ensures Exec(ttl, w, es) == Some(w') && w'.writer == Idle
    ensures w'.rows == StoredRows(w.rows, w.writer.batch, attempts, from)
    ensures w'.entries == StoredEntries(w.entries, w.writer.batch, attempts, from, ttl)
    decreases MAX_ATTEMPTS - from
  {
    var attempt := attempts[from];
    var arrived := w.(now := attempt.now);
    if attempt.transaction == Commits {
      StoredByLast(w.rows, w.entries, w.writer.batch, attempts, from, ttl);
      es, w' := CommitIsARun(ttl, arrived, attempt.delivered);
    } else {
      RowsStoredByRest(w.rows, w.writer.batch, attempts, from);
      EntriesStoredByRest(w.entries, w.writer.batch, attempts, from, ttl);
      var failed: World;
      es, failed := FailIsARun(ttl, arrived, attempt.transaction == FailsAfterCommit);
      w' := failed;
      if from + 1 < MAX_ATTEMPTS {
        var rest: seq<Event>;
        rest, w' := RetriesAreARun(ttl, failed, attempts, from + 1);
        ExecConcat(ttl, arrived, es, rest);
        es := es + rest;
      }
    }
    es := WaitFirst(ttl, w, attempt.now, es, w');
  }

  lemma OneEvent(ttl: nat, w: World, e: Event, w': World)
    requires Step(ttl, w, e) == Some(w')
    ensures Exec(ttl, w, [e]) == Some(w')
  {
    assert [e][..0] == [];
    assert Exec(ttl, w, []) == Some(w);
  }

  lemma CommitIsARun(ttl: nat, w: World, delivered: seq<bool>) returns (es: seq<Event>, w': World)
    requires w.writer.Trying? && w.writer.batch != [] && |delivered| == |w.writer.batch|
    ensures Exec(ttl, w, es) == Some(w') && w'.writer == Idle
    ensures w'.rows == InsertBatch(w.rows, w.writer.batch)
    ensures w'.entries ==
              if AllEncode(w.writer.batch) then PutDelivered(w.entries, w.writer.batch, delivered, w.now, ttl)
              else w.entries
  {
    var batch := w.writer.batch;
    w' := Step(ttl, w, AttemptCommits).value;
    OneEvent(ttl, w, AttemptCommits, w');
    es := [];
    if AllEncode(batch) {
      PutsAreOnePipeline(ttl, w', delivered, |batch|);
      es := PutsAreEvents(ttl, w', delivered, |batch|);
      assert batch[..|batch|] == batch && delivered[..|batch|] == delivered;
      ExecConcat(ttl, w, [AttemptCommits], es);
      w' := AfterPuts(ttl, w', delivered, |batch|).value;
    } else {
      assert Exec(ttl, w', es) == Some(w');
      ExecConcat(ttl, w, [AttemptCommits], es);
    }
    es := [AttemptCommits] + es;
  }
}
