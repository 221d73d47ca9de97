/** The quote table: rows appended under the key (symbol, timestamp), the first write winning. */
module QuoteLog {
  import opened Wrappers
  import opened Quotes
  import opened Codecs

  predicate HasKey(rows: seq<Row>, symbol: string, timestamp: int) {
    exists i | 0 <= i < |rows| :: rows[i].symbol == symbol && rows[i].timestamp == timestamp
  }

  /** INSERT ... ON CONFLICT DO NOTHING, row by row. */
  function InsertBatch(rows: seq<Row>, batch: seq<Quote>): seq<Row> {
    if batch == [] then rows
    else
      var before := InsertBatch(rows, batch[..|batch| - 1]);
      var row := EncodeRow(batch[|batch| - 1]);
      if HasKey(before, row.symbol, row.timestamp) then before else before + [row]
  }

  predicate Matches(row: Row, symbol: string, bound: Option<int>) {
    row.symbol == symbol && (bound.Some? ==> row.timestamp <= bound.value)
  }

  /** Rows of one symbol (up to a bound), newest first, the first of them. */
  function Newest(rows: seq<Row>, symbol: string, bound: Option<int>): (r: Option<Row>)
    ensures r.None? <==> forall i | 0 <= i < |rows| :: !Matches(rows[i], symbol, bound)
    ensures r.Some? ==> r.value in rows && Matches(r.value, symbol, bound)
    ensures r.Some? ==>
              forall i | 0 <= i < |rows| && Matches(rows[i], symbol, bound) :: rows[i].timestamp <= r.value.timestamp
  {
    if rows == [] then None
    else
      var before := Newest(rows[..|rows| - 1], symbol, bound);
      var row := rows[|rows| - 1];
      if Matches(row, symbol, bound) && (before.None? || before.value.timestamp < row.timestamp) then Some(row)
      else before
  }

  // ---------------------------------------------------------------- laws

  ghost predicate DistinctKeys(rows: seq<Row>) {
    forall i, j | 0 <= i < j < |rows| :: rows[i].symbol != rows[j].symbol || rows[i].timestamp != rows[j].timestamp
  }

  /** With distinct keys there is only one newest row, so any way of choosing it agrees. */
  lemma NewestIsUnique(rows: seq<Row>, symbol: string, bound: Option<int>, row: Row)
    requires DistinctKeys(rows) && row in rows && Matches(row, symbol, bound)
    requires forall i | 0 <= i < |rows| && Matches(rows[i], symbol, bound) :: rows[i].timestamp <= row.timestamp
    ensures Newest(rows, symbol, bound) == Some(row)
  {
    var r := Newest(rows, symbol, bound).value;
    var i :| 0 <= i < |rows| && rows[i] == r;
    var j :| 0 <= j < |rows| && rows[j] == row;
  }

  lemma KeyStays(rows: seq<Row>, more: seq<Row>, symbol: string, timestamp: int)
    requires rows <= more && HasKey(rows, symbol, timestamp)
    ensures HasKey(more, symbol, timestamp)
  {
    var i :| 0 <= i < |rows| && rows[i].symbol == symbol && rows[i].timestamp == timestamp;
    assert more[i] == rows[i];
  }

  /** What one batch does to the table: old rows stay where they are, keys stay distinct,
      every key of the batch is there, and every new row is a row of the batch. */
  lemma {:induction false} InsertBatchLaws(rows: seq<Row>, batch: seq<Quote>)
    ensures rows <= InsertBatch(rows, batch)
    ensures DistinctKeys(rows) ==> DistinctKeys(InsertBatch(rows, batch))
    ensures forall k | 0 <= k < |batch| :: HasKey(InsertBatch(rows, batch), batch[k].pair.Code(), batch[k].timestamp)
    ensures forall i | |rows| <= i < |InsertBatch(rows, batch)| ::
              exists k :: 0 <= k < |batch| && InsertBatch(rows, batch)[i] == EncodeRow(batch[k])
  {
    if batch != [] {
      var shorter := batch[..|batch| - 1];
      InsertBatchLaws(rows, shorter);
      var before, after := InsertBatch(rows, shorter), InsertBatch(rows, batch);
      var row := EncodeRow(batch[|batch| - 1]);
      forall k | 0 <= k < |batch| ensures HasKey(after, batch[k].pair.Code(), batch[k].timestamp) {
        if k < |shorter| {
          assert shorter[k] == batch[k];
          KeyStays(before, after, batch[k].pair.Code(), batch[k].timestamp);
        } else if after == before + [row] {
          assert after[|before|] == row;
        }
      }
      forall i | |rows| <= i < |after| ensures exists k :: 0 <= k < |batch| && after[i] == EncodeRow(batch[k]) {
        if i < |before| {
          var k :| 0 <= k < |shorter| && before[i] == EncodeRow(shorter[k]);
          assert batch[k] == shorter[k];
        } else {
          assert after[i] == EncodeRow(batch[|batch| - 1]);
        }
      }
    }
  }

  /** Inserting a batch whose keys are all present changes nothing. */
  lemma {:induction false} NothingNew(rows: seq<Row>, batch: seq<Quote>)
    requires forall k | 0 <= k < |batch| :: HasKey(rows, batch[k].pair.Code(), batch[k].timestamp)
    ensures InsertBatch(rows, batch) == rows
  {
    if batch != [] {
      NothingNew(rows, batch[..|batch| - 1]);
    }
  }

  /** A second insert of the same batch is a no-op. */
  lemma InsertTwice(rows: seq<Row>, batch: seq<Quote>)
    ensures InsertBatch(InsertBatch(rows, batch), batch) == InsertBatch(rows, batch)
  {
    InsertBatchLaws(rows, batch);
    NothingNew(InsertBatch(rows, batch), batch);
  }

  /** Rows beyond a bound never change what is newest up to that bound. */
  lemma {:induction false} LaterRowsIrrelevant(rows: seq<Row>, more: seq<Row>, symbol: string, bound: Option<int>)
    requires forall i | 0 <= i < |more| :: !Matches(more[i], symbol, bound)
    ensures Newest(rows + more, symbol, bound) == Newest(rows, symbol, bound)
  {
    if more == [] {
      assert rows + more == rows;
    } else {
      LaterRowsIrrelevant(rows, more[..|more| - 1], symbol, bound);
      assert (rows + more)[..|rows + more| - 1] == rows + more[..|more| - 1];
    }
  }
}
