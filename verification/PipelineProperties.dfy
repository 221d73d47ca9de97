/** What holds on every run of the pipeline: nothing is lost, order is kept, one stream call
    yields, and both shutdowns hold. */
module PipelineProperties {
  import opened Wrappers
  import opened Quotes
  import opened Sequences
  import opened RateStreaming
  import opened Pipeline

  // ---------------------------------------------------------------- conservation

  /** Every batch offered before shutdown was dropped on a full queue, is queued, was taken or
      was drained; every batch taken was processed, skipped as empty, discarded at stop or is
      the one in hand; and a bounded queue keeps its bound. */
  lemma Conservation(maxsize: int, ss: seq<State>, es: seq<Event>, k: nat)
    requires IsRun(maxsize, ss, es) && k <= |es|
    ensures
      var s, p := ss[k], ss[k].past;
      && multiset(p.offered) == multiset(p.dropped) + multiset(s.src.queue) + multiset(p.taken) + multiset(p.drained)
      && multiset(p.taken) ==
           multiset(p.processed) + multiset(p.skipped) + multiset(p.discarded) + multiset(InHand(s.hand))
      && |InHand(s.hand)| <= 1
      && (maxsize > 0 ==> |s.src.queue| <= maxsize)
  {
    ConservedAlways(maxsize, ss, es, k);
    var s, p := ss[k], ss[k].past;
    assert multiset(p.taken + p.drained + s.src.queue)
        == multiset(p.taken) + multiset(p.drained) + multiset(s.src.queue);
  }

  /** Batches are processed in the order of the ticks that offered them: the batches whose
      processing has begun are a subsequence of those offered, and none of them is empty. */
  lemma ProcessedInTickOrder(maxsize: int, ss: seq<State>, es: seq<Event>, k: nat)
    requires IsRun(maxsize, ss, es) && k <= |es|
    ensures IsSubsequence(ss[k].past.begun, ss[k].past.offered)
    ensures IsSubsequence(ss[k].past.processed, ss[k].past.begun)
    ensures forall i | 0 <= i < |ss[k].past.begun| :: ss[k].past.begun[i].quotes != []
  {
    ConservedAlways(maxsize, ss, es, k);
    BegunFromTaken(ss[k].past, ss[k].hand);
    OrderKept(ss[k].past, ss[k].src, ss[k].closing);
    PrefixIsSubsequence(ss[k].past.processed, if ss[k].hand.Processing? then [ss[k].hand.batch] else []);
  }

  lemma OrderKept(p: Past, src: Source, closing: bool)
    requires Conserved(p, src, closing) && IsSubsequence(p.begun, p.taken)
    ensures IsSubsequence(p.begun, p.offered)
  {
    PrefixIsSubsequence(p.taken, p.drained + src.queue);
    assert p.taken + (p.drained + src.queue) == p.accepted;
    Transitive(p.begun, p.taken, p.accepted);
    Transitive(p.begun, p.accepted, p.offered);
  }

  lemma BegunFromTaken(p: Past, hand: Hand)
    requires InOrder(p, hand)
    ensures IsSubsequence(p.begun, p.taken)
  {
    if hand.Holding? {
      SkipLast(p.begun, p.taken[..|p.taken| - 1], hand.batch);
      assert p.taken[..|p.taken| - 1] + [hand.batch] == p.taken;
    }
  }

  /** Among batches that are not empty, later ones carry later timestamps. */
  ghost predicate Increasing(batches: seq<RateBatch>) {
    forall i, j | 0 <= i < j < |batches| && batches[i].quotes != [] && batches[j].quotes != [] ::
      batches[i].quotes[0].timestamp < batches[j].quotes[0].timestamp
  }

  /** What the stores assume of their one writer is what the pipeline delivers: if the ticks
      offered batches with increasing timestamps, the batches are stored with increasing
      timestamps, whatever was dropped, skipped or discarded on the way. */
  lemma StoredTimestampsIncrease(maxsize: int, ss: seq<State>, es: seq<Event>, k: nat)
    requires IsRun(maxsize, ss, es) && k <= |es|
    requires Increasing(ss[k].past.offered)
    ensures Increasing(ss[k].past.begun)
    ensures forall i | 0 <= i < |ss[k].past.begun| :: ss[k].past.begun[i].quotes != []
  {
    ProcessedInTickOrder(maxsize, ss, es, k);
    var begun, offered := ss[k].past.begun, ss[k].past.offered;
    forall i, j | 0 <= i < j < |begun| && begun[i].quotes != [] && begun[j].quotes != []
      ensures begun[i].quotes[0].timestamp < begun[j].quotes[0].timestamp {
      var i', j' := PlacesOf(begun, offered, i, j);
    }
  }

  /** What an offer does: nothing after the flag was raised; before, it is recorded, and the batch
      is put last in the queue if that is unbounded or has room, and dropped otherwise. */
  lemma OfferEffect(maxsize: int, ss: seq<State>, es: seq<Event>, k: nat)
    requires IsRun(maxsize, ss, es) && k < |es| && es[k].Tick?
    ensures
      var s, s', batch := ss[k], ss[k + 1], es[k].batch;
      if s.src.shutdown then s' == s
      else if maxsize <= 0 || |s.src.queue| < maxsize then
        s' == s.(src := s.src.(queue := s.src.queue + [batch]),
                 past := s.past.(offered := s.past.offered + [batch], accepted := s.past.accepted + [batch]))
      else
        s' == s.(past := s.past.(offered := s.past.offered + [batch], dropped := s.past.dropped + [batch]))
  {
    MaxsizeStays(maxsize, ss, es, k);
    assert Step(ss[k], es[k]) == Some(ss[k + 1]);
  }

  /** How many batches a bounded queue has room for. */
  function Room(maxsize: int, s: State): int {
    maxsize - |s.src.queue|
  }

  ghost predicate DropsWithin(maxsize: int, s: State, s': State) {
    && |s.past.dropped| <= |s'.past.dropped|
    && |s'.past.offered| - |s.past.offered| ==
         |s'.past.dropped| - |s.past.dropped| + |s'.past.accepted| - |s.past.accepted|
    && |s'.src.queue| <= |s.src.queue| + |s'.past.accepted| - |s.past.accepted|
    && (|s.past.dropped| < |s'.past.dropped| ==>
          maxsize > 0 && Room(maxsize, s) <= |s'.past.accepted| - |s.past.accepted|)
  }

  lemma DropsStep(maxsize: int, s: State, t: State, e: Event, t': State)
    requires DropsWithin(maxsize, s, t) && t.src.maxsize == maxsize && Step(t, e) == Some(t')
    ensures DropsWithin(maxsize, s, t')
  {
    if e.Tick? {
    } else if e == Decide || e == Finish {
      ConsumerLeavesSource(t, e, t');
    }
  }

  lemma MaxsizeStays(maxsize: int, ss: seq<State>, es: seq<Event>, k: nat)
    requires IsRun(maxsize, ss, es) && k <= |es|
    ensures ss[k].src.maxsize == maxsize
  {
    ConservedAlways(maxsize, ss, es, k);
  }

  lemma DropsStepAt(maxsize: int, ss: seq<State>, es: seq<Event>, s: State, k: nat)
    requires IsRun(maxsize, ss, es) && k < |es| && DropsWithin(maxsize, s, ss[k])
    ensures DropsWithin(maxsize, s, ss[k + 1])
  {
    MaxsizeStays(maxsize, ss, es, k);
    DropsStep(maxsize, s, ss[k], es[k], ss[k + 1]);
  }

  lemma {:induction false} DropsWithinAlways(maxsize: int, ss: seq<State>, es: seq<Event>, j: nat, k: nat)
    requires IsRun(maxsize, ss, es) && j <= k <= |es|
    ensures DropsWithin(maxsize, ss[j], ss[k])
  {
    if j < k {
      DropsWithinAlways(maxsize, ss, es, j, k - 1);
      DropsStepAt(maxsize, ss, es, ss[j], k - 1);
    }
  }

  /** From any state on, a source drops nothing until it was offered more batches than its
      queue has room for, and of the batches offered it drops at most those beyond that number,
      however slow the consumer is; an unbounded queue drops nothing at all. */
  lemma DropsOnlyBeyondRoom(maxsize: int, ss: seq<State>, es: seq<Event>, j: nat, k: nat)
    requires IsRun(maxsize, ss, es) && j <= k <= |es|
    ensures
      var drops, offers := |ss[k].past.dropped| - |ss[j].past.dropped|, |ss[k].past.offered| - |ss[j].past.offered|;
      && 0 <= drops <= offers
      && (drops > 0 ==> maxsize > 0 && drops <= offers - Room(maxsize, ss[j]))
  {
    DropsWithinAlways(maxsize, ss, es, j, k);
    AcceptedGrows(maxsize, ss, es, j, k);
  }

  lemma {:induction false} AcceptedGrows(maxsize: int, ss: seq<State>, es: seq<Event>, j: nat, k: nat)
    requires IsRun(maxsize, ss, es) && j <= k <= |es|
    ensures |ss[j].past.accepted| <= |ss[k].past.accepted|
  {
    if j < k {
      AcceptedGrows(maxsize, ss, es, j, k - 1);
      AcceptedStep(ss[k - 1], es[k - 1], ss[k]);
    }
  }

  lemma AcceptedStep(s: State, e: Event, s': State)
    requires Step(s, e) == Some(s')
    ensures |s.past.accepted| <= |s'.past.accepted|
  {
  }

  /** Every batch that reaches the stores is a batch they can store, if the ticks offered such
      batches. */
  lemma BegunAreBatches(maxsize: int, ss: seq<State>, es: seq<Event>, k: nat)
    requires IsRun(maxsize, ss, es) && k <= |es|
    requires forall i | 0 <= i < |ss[k].past.offered| && ss[k].past.offered[i].quotes != [] ::
               IsBatch(ss[k].past.offered[i].quotes, ss[k].past.offered[i].quotes[0].timestamp)
    ensures forall i | 0 <= i < |ss[k].past.begun| ::
              ss[k].past.begun[i].quotes != []
              && IsBatch(ss[k].past.begun[i].quotes, ss[k].past.begun[i].quotes[0].timestamp)
  {
    ProcessedInTickOrder(maxsize, ss, es, k);
    var begun, offered := ss[k].past.begun, ss[k].past.offered;
    forall i | 0 <= i < |begun|
      ensures begun[i].quotes != [] && IsBatch(begun[i].quotes, begun[i].quotes[0].timestamp)
    {
      var i' := PlaceOf(begun, offered, i);
    }
  }

  // ---------------------------------------------------------------- one stream

  ghost predicate StreamsOk(s: State) {
    && (forall c | c in s.calls && s.calls[c] == Initialising :: s.lock == Some(c))
    && (s.lock.Some? ==> At(s, s.lock.value, Initialising))
    && (s.closing ==> s.src.shutdown)
    && (!s.src.shutdown ==> (s.src.started <==> s.primary.Some?) && (s.lock.Some? ==> !s.src.started))
    && (forall c | c in s.calls && (s.calls[c] == Awaiting || s.calls[c] == Yielded) :: s.primary == Some(c))
    && (forall c | c in s.calls && s.calls[c] == LoopHead :: s.src.shutdown || s.primary == Some(c))
    && (s.primary.Some? ==> s.primary.value in s.calls)
    && (s.late ==> s.src.shutdown && forall c | c in s.calls :: s.calls[c] != Awaiting)
  }

  lemma CallStep(s: State, call: nat, s': State)
    requires StreamsOk(s) && Step(s, CallStream(call)) == Some(s')
    ensures StreamsOk(s') && s'.primary == s.primary
  {
  }

  lemma InitFailsStep(s: State, call: nat, s': State)
    requires StreamsOk(s) && Step(s, InitFails(call)) == Some(s')
    ensures StreamsOk(s') && s'.primary == s.primary
  {
  }

  lemma InitSucceedsStep(s: State, call: nat, scheduled: bool, s': State)
    requires StreamsOk(s) && Step(s, InitSucceeds(call, scheduled)) == Some(s')
    ensures StreamsOk(s') && (s.primary.Some? ==> s'.primary == s.primary)
  {
  }

  lemma LoopStep(s: State, e: Event, s': State)
    requires StreamsOk(s) && Step(s, e) == Some(s') && (e.LoopTest? || e.TimeOut? || e.Take? || e.Abandon?)
    ensures StreamsOk(s') && s'.primary == s.primary
  {
    match e {
      case LoopTest(call) =>
      case TimeOut(call) =>
      case Take(call) =>
      case Abandon(call) =>
    }
  }

  lemma ResumeStep(s: State, call: nat)
    requires StreamsOk(s)
    ensures StreamsOk(Resume(s, call))
  {
  }

  lemma ConsumerStep(s: State, e: Event, s': State)
    requires StreamsOk(s) && Step(s, e) == Some(s') && (e == Decide || e == Finish)
    ensures StreamsOk(s') && s'.primary == s.primary
  {
    ResumeStep(s, s.hand.call);
  }

  lemma StreamsStep(s: State, e: Event, s': State)
    requires StreamsOk(s) && Step(s, e) == Some(s')
    ensures StreamsOk(s') && (s.primary.Some? ==> s'.primary == s.primary)
  {
    if e.CallStream? {
      CallStep(s, e.call, s');
    } else if e.InitFails? {
      InitFailsStep(s, e.call, s');
    } else if e.InitSucceeds? {
      InitSucceedsStep(s, e.call, e.scheduled, s');
    } else if e.LoopTest? || e.TimeOut? || e.Take? || e.Abandon? {
      LoopStep(s, e, s');
    } else if e == Decide || e == Finish {
      ConsumerStep(s, e, s');
    }
  }

  lemma FlagsStay(s: State, e: Event, s': State)
    requires Step(s, e) == Some(s')
    ensures s.late ==> s'.late
    ensures s.src.shutdown ==> s'.src.shutdown
    ensures s.stopping ==> s'.stopping
  {
  }

  lemma {:induction false} StreamsAlways(maxsize: int, ss: seq<State>, es: seq<Event>, k: nat)
    requires IsRun(maxsize, ss, es) && k <= |es|
    ensures StreamsOk(ss[k])
  {
    if k > 0 {
      StreamsAlways(maxsize, ss, es, k - 1);
      StreamsStep(ss[k - 1], es[k - 1], ss[k]);
    }
  }

  lemma {:induction false} PrimaryStays(maxsize: int, ss: seq<State>, es: seq<Event>, j: nat, k: nat)
    requires IsRun(maxsize, ss, es) && j <= k <= |es|
    ensures ss[j].primary.Some? ==> ss[k].primary == ss[j].primary
    ensures ss[j].late ==> ss[k].late
    ensures ss[j].src.shutdown ==> ss[k].src.shutdown
    ensures ss[j].stopping ==> ss[k].stopping
  {
    if j < k {
      PrimaryStays(maxsize, ss, es, j, k - 1);
      StreamsAlways(maxsize, ss, es, k - 1);
      StreamsStep(ss[k - 1], es[k - 1], ss[k]);
      FlagsStay(ss[k - 1], es[k - 1], ss[k]);
    }
  }

  /** However often `stream` is called, before or after shutdown, only one of the calls ever
      yields a batch. */
  lemma OneStreamYields(maxsize: int, ss: seq<State>, es: seq<Event>, i: nat, j: nat)
    requires IsRun(maxsize, ss, es) && i <= j < |es| && es[i].Take? && es[j].Take?
    ensures es[i].call == es[j].call
  {
    StreamsAlways(maxsize, ss, es, i);
    StreamsAlways(maxsize, ss, es, j);
    PrimaryStays(maxsize, ss, es, i, j);
    assert Step(ss[i], es[i]).Some? && Step(ss[j], es[j]).Some?;
  }

  // ---------------------------------------------------------------- shutdown

  /** After the source's flag is raised at most one more batch is taken. */
  lemma AtMostOneLateTake(maxsize: int, ss: seq<State>, es: seq<Event>, i: nat, j: nat)
    requires IsRun(maxsize, ss, es) && i < j < |es| && ss[i].src.shutdown && es[i].Take?
    ensures !es[j].Take?
  {
    assert Step(ss[i], es[i]) == Some(ss[i + 1]);
    assert ss[i + 1].late;
    PrimaryStays(maxsize, ss, es, i + 1, j);
    StreamsAlways(maxsize, ss, es, j);
    assert Step(ss[j], es[j]).Some?;
  }

  /** The flag is up, these batches were accepted before, at most `waiting` of them still
      wait, and none of them does if the queue was `drained`. */
  ghost predicate Shut(s: State, accepted: seq<RateBatch>, waiting: nat, drained: bool) {
    && s.src.shutdown && s.past.accepted == accepted && |s.src.queue| <= waiting
    && (drained ==> !s.closing && s.src.queue == [])
  }

  lemma ShutStep(s: State, e: Event, s': State, accepted: seq<RateBatch>, waiting: nat, drained: bool)
    requires Step(s, e) == Some(s') && Shut(s, accepted, waiting, drained)
    ensures Shut(s', accepted, waiting, drained)
  {
  }

  lemma {:induction false} StaysShut(
      maxsize: int, ss: seq<State>, es: seq<Event>, j: nat, k: nat, waiting: nat, drained: bool)
    requires IsRun(maxsize, ss, es) && j <= k <= |es| && Shut(ss[j], ss[j].past.accepted, waiting, drained)
    ensures Shut(ss[k], ss[j].past.accepted, waiting, drained)
  {
    if j < k {
      StaysShut(maxsize, ss, es, j, k - 1, waiting, drained);
      ShutStep(ss[k - 1], es[k - 1], ss[k], ss[j].past.accepted, waiting, drained);
    }
  }

  /** After the flag is raised no batch is enqueued any more, and once the queue was drained it
      stays empty. */
  lemma NothingAfterShutdown(maxsize: int, ss: seq<State>, es: seq<Event>, j: nat, k: nat)
    requires IsRun(maxsize, ss, es) && j <= k <= |es| && ss[j].src.shutdown
    ensures ss[k].past.accepted == ss[j].past.accepted && |ss[k].src.queue| <= |ss[j].src.queue|
    ensures !ss[j].closing ==> ss[k].src.queue == [] && !ss[k].closing
  {
    ConservedAlways(maxsize, ss, es, j);
    StaysShut(maxsize, ss, es, j, k, |ss[j].src.queue|, !ss[j].closing);
  }

  lemma StoppedStep(s: State, e: Event, s': State)
    requires Step(s, e) == Some(s') && s.stopping
    ensures s'.past.begun == s.past.begun && s'.stopping
  {
  }

  /** After the consumer's flag is set it begins to process nothing more. */
  lemma {:induction false} NothingBegunAfterStop(maxsize: int, ss: seq<State>, es: seq<Event>, j: nat, k: nat)
    requires IsRun(maxsize, ss, es) && j <= k <= |es| && ss[j].stopping
    ensures ss[k].past.begun == ss[j].past.begun && ss[k].stopping
  {
    if j < k {
      NothingBegunAfterStop(maxsize, ss, es, j, k - 1);
      StoppedStep(ss[k - 1], es[k - 1], ss[k]);
    }
  }

  /** Once a batch is discarded the consumer never asks its stream for another one. */
  ghost predicate DiscardEnds(s: State) {
    && (s.hand != Empty ==> s.primary == Some(s.hand.call)
                            && (At(s, s.hand.call, Yielded) || At(s, s.hand.call, Finished)))
    && |s.past.discarded| <= 1
    && (s.past.discarded != [] ==>
          s.stopping && s.hand == Empty && s.primary.Some?
          && (At(s, s.primary.value, Yielded) || At(s, s.primary.value, Finished)))
  }

  lemma DiscardStep(s: State, e: Event, s': State)
    requires StreamsOk(s) && DiscardEnds(s) && Step(s, e) == Some(s')
    ensures DiscardEnds(s')
  {
    if e == Decide || e == Finish {
      ConsumerLeavesSource(s, e, s');
    } else if e.Take? {
      assert At(s, e.call, Awaiting);
    } else {
      SourceLeavesConsumer(s, e, s');
    }
  }

  /** Stopping discards at most one batch, and nothing is discarded before the stop. */
  lemma {:induction false} DiscardsAtMostOne(maxsize: int, ss: seq<State>, es: seq<Event>, k: nat)
    requires IsRun(maxsize, ss, es) && k <= |es|
    ensures DiscardEnds(ss[k])
    ensures |ss[k].past.discarded| <= 1 && (ss[k].past.discarded != [] ==> ss[k].stopping)
  {
    if k > 0 {
      DiscardsAtMostOne(maxsize, ss, es, k - 1);
      StreamsAlways(maxsize, ss, es, k - 1);
      DiscardStep(ss[k - 1], es[k - 1], ss[k]);
    }
  }
}
