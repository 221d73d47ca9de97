/** The quote consumer: what it does with each batch of the stream, and how it stops. */
module Consumer {
  import opened Quotes
  import opened QuoteLog
  import opened QuoteCache
  import opened Writers
  import opened RateStreaming
  import Pipeline

  class QuoteConsumer {
    const source: BinanceStreamingRateSource
    const writer: CompositeQuoteWriter
    var shutdownEvent: bool

    constructor (source: BinanceStreamingRateSource, writer: CompositeQuoteWriter)
      ensures this.source == source && this.writer == writer && !shutdownEvent
    {
      this.source := source;
      this.writer := writer;
      shutdownEvent := false;
    }

    /** The body of the consuming loop; the loop goes on unless the verdict is to discard. */
    method HandleBatch(batch: RateBatch, attempts: seq<Attempt>) returns (verdict: Pipeline.Verdict)
      requires |attempts| == MAX_ATTEMPTS && forall i | 0 <= i < |attempts| :: |attempts[i].delivered| == |batch.quotes|
      modifies writer.primary, writer.secondary
      ensures verdict == Pipeline.VerdictOn(shutdownEvent, batch)
      ensures verdict == Pipeline.Discard <==> shutdownEvent
      ensures verdict == Pipeline.Process <==> !shutdownEvent && batch.quotes != []
      ensures writer.primary.rows ==
                (if verdict == Pipeline.Process then StoredRows(old(writer.primary.rows), batch.quotes, attempts, 0)
                 else old(writer.primary.rows))
      ensures writer.secondary.entries ==
                (if verdict == Pipeline.Process
                 then StoredEntries(old(writer.secondary.entries), batch.quotes, attempts, 0, writer.secondary.ttl)
                 else old(writer.secondary.entries))
    {
      if shutdownEvent {
        return Pipeline.Discard;
      }
      if batch.quotes == [] {
        return Pipeline.Skip;
      }
      var _ := ProcessBatch(batch.quotes, attempts);
      verdict := Pipeline.Process;
    }

    /** Up to three attempts; that all of them raised is only logged. */
    method ProcessBatch(quotes: seq<Quote>, attempts: seq<Attempt>) returns (stored: bool)
      requires quotes != [] && |attempts| == MAX_ATTEMPTS
      requires forall i | 0 <= i < |attempts| :: |attempts[i].delivered| == |quotes|
      modifies writer.primary, writer.secondary
      ensures stored <==> Stored(attempts, 0)
      ensures writer.primary.rows == StoredRows(old(writer.primary.rows), quotes, attempts, 0)
      ensures writer.secondary.entries ==
                StoredEntries(old(writer.secondary.entries), quotes, attempts, 0, writer.secondary.ttl)
    {
      ghost var rows, entries := writer.primary.rows, writer.secondary.entries;
      var attempt := 0;
      stored := false;
      while attempt < MAX_ATTEMPTS && !stored
        invariant 0 <= attempt <= MAX_ATTEMPTS
        invariant AttemptsMade(attempts, 0) == if stored then attempt else AttemptsMade(attempts, attempt)
        invariant stored <==> attempt > 0 && attempts[attempt - 1].transaction == Commits
        invariant writer.primary.rows == SavedRows(rows, quotes, Committed(attempts, 0, attempt))
        invariant writer.secondary.entries ==
                    (if stored && AllEncode(quotes)
                     then PutDelivered(entries, quotes, attempts[attempt - 1].delivered,
                                       attempts[attempt - 1].now, writer.secondary.ttl)
                     else entries)
      {
        InsertTwice(rows, quotes);
        CommittedStep(attempts, attempt);
        var raised := writer.SaveBatch(quotes, attempts[attempt]);
        attempt := attempt + 1;
        stored := !raised;
      }
    }

    /** Raises the consumer's flag and closes the source; a second call does nothing. */
    method Stop()
      modifies this`shutdownEvent, source`shutdown, source`queue, source`started
      ensures shutdownEvent
      ensures !old(shutdownEvent) ==>
                source.shutdown && (!old(source.shutdown) ==> source.queue == [] && !source.started)
      ensures source.View() ==
                (if old(shutdownEvent) || old(source.shutdown) then old(source.View())
                 else Drained(old(source.View()).(shutdown := true)))
    {
      if shutdownEvent {
        return;
      }
      shutdownEvent := true;
      var first := source.BeginClose();
      if first {
        source.FinishClose();
      }
    }
  }
}
