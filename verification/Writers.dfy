/** Writing a batch: the table first, then the cache, and up to three attempts. */
module Writers {
  import opened Wrappers
  import opened Quotes
  import opened Codecs
  import opened QuoteLog
  import opened QuoteCache

  /** How the transaction ends. A connection can fail before the commit or after it. */
  datatype Transaction = Commits | FailsBeforeCommit | FailsAfterCommit

  function SavedRows(rows: seq<Row>, quotes: seq<Quote>, committed: bool): seq<Row> {
    if committed then InsertBatch(rows, quotes) else rows
  }

  class PostgresQuoteWriter {
    var rows: seq<Row>

    constructor ()
      ensures rows == []
    {
      rows := [];
    }

    method SaveBatch(quotes: seq<Quote>, transaction: Transaction) returns (raised: bool)
      modifies this
      ensures raised <==> quotes != [] && transaction != Commits
      ensures rows == SavedRows(old(rows), quotes, transaction != FailsBeforeCommit)
    {
      if quotes == [] {
        return false;
      }
      if transaction != FailsBeforeCommit {
        rows := InsertBatch(rows, quotes);
      }
      raised := transaction != Commits;
    }
  }

  class RedisQuoteWriter {
    const ttl: nat
    var entries: Entries

    constructor (ttl: nat)
      ensures this.ttl == ttl && entries == map[]
    {
      this.ttl := ttl;
      entries := map[];
    }

    /** Building the commands; none is sent if one quote cannot be encoded. */
    method BuildPipeline(quotes: seq<Quote>, now: int) returns (pipeline: Option<seq<Command>>)
      ensures pipeline.Some? <==> AllEncode(quotes)
      ensures pipeline.Some? ==> pipeline.value == PutCommands(quotes, now, ttl)
    {
      var commands: seq<Command> := [];
      for i := 0 to |quotes|
        invariant |commands| == i && forall k | 0 <= k < i :: EncodeTicker(quotes[k]).Ok?
        invariant forall k | 0 <= k < i :: commands[k] == PutCommand(quotes[k], now, ttl)
      {
        var encoded := EncodeTicker(quotes[i]);
        if encoded.Err? {
          return None;
        }
        commands := commands + [Command(quotes[i].pair.Code(), Entry(encoded.value, now + ttl))];
      }
      pipeline := Some(commands);
    }

    /** `delivered` says which commands of the pipeline take effect. Every error is swallowed. */
    method SaveBatch(quotes: seq<Quote>, delivered: seq<bool>, now: int)
      requires |delivered| == |quotes|
      modifies this
      ensures entries ==
                if AllEncode(quotes) then PutDelivered(old(entries), quotes, delivered, now, ttl)
                else old(entries)
    {
      var pipeline := BuildPipeline(quotes, now);
      if pipeline.Some? {
        entries := Execute(entries, pipeline.value, delivered);
      }
    }
  }

  /** One attempt to store a batch, as the outside world lets it go. */
  datatype Attempt = Attempt(transaction: Transaction, delivered: seq<bool>, now: int)

  class CompositeQuoteWriter {
    const primary: PostgresQuoteWriter
    const secondary: RedisQuoteWriter

    constructor (primary: PostgresQuoteWriter, secondary: RedisQuoteWriter)
      ensures this.primary == primary && this.secondary == secondary
    {
      this.primary := primary;
      this.secondary := secondary;
    }

    method SaveBatch(quotes: seq<Quote>, attempt: Attempt) returns (raised: bool)
      requires |attempt.delivered| == |quotes|
      modifies primary, secondary
      ensures raised <==> quotes != [] && attempt.transaction != Commits
      ensures primary.rows == SavedRows(old(primary.rows), quotes, attempt.transaction != FailsBeforeCommit)
      ensures secondary.entries ==
                (if raised || !AllEncode(quotes) then old(secondary.entries)
                 else PutDelivered(old(secondary.entries), quotes, attempt.delivered, attempt.now, secondary.ttl))
    {
      raised := primary.SaveBatch(quotes, attempt.transaction);
      if !raised {
        secondary.SaveBatch(quotes, attempt.delivered, attempt.now);
      }
    }
  }

  const MAX_ATTEMPTS: nat := 3

  /** How many attempts are made: up to and including the first that does not raise. */
  function AttemptsMade(attempts: seq<Attempt>, from: nat): (n: nat)
    requires from <= |attempts|
    ensures from <= n <= |attempts| && (from < |attempts| ==> from < n)
    ensures forall i | from <= i < n - 1 :: attempts[i].transaction != Commits
    ensures n < |attempts| ==> attempts[n - 1].transaction == Commits
    decreases |attempts| - from
  {
    if from == |attempts| then from
    else if attempts[from].transaction == Commits then from + 1
    else AttemptsMade(attempts, from + 1)
  }

  /** One of the attempts `from` up to `n` committed its transaction. */
  predicate Committed(attempts: seq<Attempt>, from: nat, n: nat)
    requires n <= |attempts|
  {
    exists i | from <= i < n :: attempts[i].transaction != FailsBeforeCommit
  }

  lemma CommittedStep(attempts: seq<Attempt>, n: nat)
    requires n < |attempts|
    ensures Committed(attempts, 0, n + 1) <==> Committed(attempts, 0, n) || attempts[n].transaction != FailsBeforeCommit
  {
  }

  /** The table after the attempts from `from` on: the batch is in it, once, exactly if one of
      the attempts that are made commits. */
  function StoredRows(rows: seq<Row>, quotes: seq<Quote>, attempts: seq<Attempt>, from: nat): seq<Row>
    requires from <= |attempts|
  {
    SavedRows(rows, quotes, Committed(attempts, from, AttemptsMade(attempts, from)))
  }

  predicate Stored(attempts: seq<Attempt>, from: nat)
    requires from <= |attempts|
  {
    var made := AttemptsMade(attempts, from);
    from < made && attempts[made - 1].transaction == Commits
  }

  /** The cache after the attempts from `from` on: written by the one that did not raise. */
  function StoredEntries(entries: Entries, quotes: seq<Quote>, attempts: seq<Attempt>, from: nat, ttl: nat): Entries
    requires from <= |attempts| && forall i | 0 <= i < |attempts| :: |attempts[i].delivered| == |quotes|
  {
    if Stored(attempts, from) && AllEncode(quotes) then
      var last := attempts[AttemptsMade(attempts, from) - 1];
      PutDelivered(entries, quotes, last.delivered, last.now, ttl)
    else entries
  }

  /** How often a key occurs in the table. */
  function Occurrences(rows: seq<Row>, symbol: string, timestamp: int): nat {
    if rows == [] then 0
    else
      var last := rows[|rows| - 1];
      Occurrences(rows[..|rows| - 1], symbol, timestamp)
        + (if last.symbol == symbol && last.timestamp == timestamp then 1 else 0)
  }

  lemma {:induction false} OccurrencesOfDistinct(rows: seq<Row>, symbol: string, timestamp: int)
    requires DistinctKeys(rows)
    ensures Occurrences(rows, symbol, timestamp) == if HasKey(rows, symbol, timestamp) then 1 else 0
  {
    if rows != [] {
      var before := rows[..|rows| - 1];
      OccurrencesOfDistinct(before, symbol, timestamp);
      if HasKey(before, symbol, timestamp) {
        KeyStays(before, rows, symbol, timestamp);
      }
    }
  }

  /** The exactly-once effect of the retries: whichever attempts raised and whether or not they
      had committed, the old rows stay, and either nothing was added, or every quote of the
      batch has exactly one row and nothing else was added. */
  lemma ExactlyOnce(rows: seq<Row>, quotes: seq<Quote>, attempts: seq<Attempt>)
    requires DistinctKeys(rows)
    ensures
      var after := StoredRows(rows, quotes, attempts, 0);
      && rows <= after
      && (!Committed(attempts, 0, AttemptsMade(attempts, 0)) ==> after == rows)
      && (Committed(attempts, 0, AttemptsMade(attempts, 0)) ==>
            (forall k | 0 <= k < |quotes| :: Occurrences(after, quotes[k].pair.Code(), quotes[k].timestamp) == 1)
            && (forall i | |rows| <= i < |after| :: exists k :: 0 <= k < |quotes| && after[i] == EncodeRow(quotes[k])))
  {
    InsertBatchLaws(rows, quotes);
    var after := InsertBatch(rows, quotes);
    forall k | 0 <= k < |quotes| ensures Occurrences(after, quotes[k].pair.Code(), quotes[k].timestamp) == 1 {
      OccurrencesOfDistinct(after, quotes[k].pair.Code(), quotes[k].timestamp);
    }
  }
}
