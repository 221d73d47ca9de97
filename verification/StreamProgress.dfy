/** What the stream can still do: when it can deliver the next batch, and when never again. */
module StreamProgress {
  import opened Wrappers
  import opened RateStreaming
  import opened Pipeline
  import opened PipelineProperties

  /** `es` leads from `s` to `s'`. */
  ghost predicate Leads(s: State, es: seq<Event>, s': State)
    decreases |es|
  {
    if es == [] then s' == s
    else
      var middle := Step(s, es[0]);
      middle.Some? && Leads(middle.value, es[1..], s')
  }

  lemma OneStep(s: State, e: Event, s': State)
    requires Step(s, e) == Some(s')
    ensures Leads(s, [e], s')
  {
    assert [e][1..] == [];
  }

  lemma StepThen(s: State, e: Event, middle: State, es: seq<Event>, s': State)
    requires Step(s, e) == Some(middle) && Leads(middle, es, s')
    ensures Leads(s, [e] + es, s')
  {
    assert ([e] + es)[1..] == es;
  }

  /** Some stream call is at the head of its loop or waits for the queue. */
  ghost predicate Listening(s: State) {
    exists call :: At(s, call, LoopHead) || At(s, call, Awaiting)
  }

  /** A batch was delivered: the front of the queue is in the consumer's hands. */
  predicate Delivered(s: State, s': State) {
    && s.src.queue != [] && s'.hand.Holding? && s'.hand.batch == s.src.queue[0]
    && s'.src.queue == s.src.queue[1..] && s'.past.taken == s.past.taken + [s.src.queue[0]]
  }

  /** While the flag is down, a listening source with a batch in the queue and nothing in the
      consumer's hands can deliver exactly the front of the queue, in at most two steps. */
  lemma DeliversNext(maxsize: int, ss: seq<State>, es: seq<Event>, k: nat) returns (steps: seq<Event>, s': State)
    requires IsRun(maxsize, ss, es) && k <= |es|
    requires !ss[k].src.shutdown && ss[k].src.queue != [] && ss[k].hand == Empty && Listening(ss[k])
    ensures |steps| <= 2 && Leads(ss[k], steps, s') && Delivered(ss[k], s')
  {
    var s := ss[k];
    var call :| At(s, call, LoopHead) || At(s, call, Awaiting);
    if At(s, call, Awaiting) {
      s' := TakeStep(s, call);
      OneStep(s, Take(call), s');
      steps := [Take(call)];
    } else {
      var waiting := Goto(s, call, Awaiting);
      s' := TakeStep(waiting, call);
      OneStep(waiting, Take(call), s');
      StepThen(s, LoopTest(call), waiting, [Take(call)], s');
      steps := [LoopTest(call)] + [Take(call)];
    }
  }

  /** After a batch that is skipped or processed the stream that delivered it listens again;
      after one that is discarded it does not, and nothing is in hand. */
  lemma ComesBack(maxsize: int, ss: seq<State>, es: seq<Event>, k: nat)
    requires IsRun(maxsize, ss, es) && k < |es| && ss[k].hand != Empty && At(ss[k], ss[k].hand.call, Yielded)
    ensures es[k] == Finish ==> At(ss[k + 1], ss[k].hand.call, LoopHead) && ss[k + 1].hand == Empty
    ensures es[k] == Decide && ss[k].stopping ==> At(ss[k + 1], ss[k].hand.call, Yielded) && ss[k + 1].hand == Empty
    ensures es[k] == Decide && !ss[k].stopping && ss[k].hand.batch.quotes == [] ==>
              At(ss[k + 1], ss[k].hand.call, LoopHead) && ss[k + 1].hand == Empty
    ensures es[k] == Decide && !ss[k].stopping && ss[k].hand.batch.quotes != [] ==>
              At(ss[k + 1], ss[k].hand.call, Yielded) && ss[k + 1].hand == Processing(ss[k].hand.call, ss[k].hand.batch)
  {
    assert Step(ss[k], es[k]) == Some(ss[k + 1]);
  }

  /** Nobody listens or ever will: the source counts as started, or the flag is up. */
  ghost predicate Silent(s: State) {
    && s.hand == Empty && (s.closing ==> s.src.shutdown)
    && (forall c | c in s.calls :: s.calls[c] != Awaiting)
    && (s.src.shutdown
        || (s.src.started && forall c | c in s.calls :: s.calls[c] != LoopHead && s.calls[c] != Initialising))
  }

  lemma SilentStep(s: State, e: Event, s': State)
    requires Silent(s) && Step(s, e) == Some(s')
    ensures Silent(s') && !e.Take?
  {
  }

  lemma {:induction false} StaysSilent(maxsize: int, ss: seq<State>, es: seq<Event>, j: nat, k: nat)
    requires IsRun(maxsize, ss, es) && j <= k <= |es| && Silent(ss[j])
    ensures Silent(ss[k])
  {
    if j < k {
      StaysSilent(maxsize, ss, es, j, k - 1);
      SilentStep(ss[k - 1], es[k - 1], ss[k]);
    }
  }

  /** A started source to which nobody listens while the consumer's hands are empty never
      delivers again, in any continuation, even if a new stream call comes: the call that
      started it has failed to schedule its ticks, or the consumer has left its loop. */
  lemma NeverDeliversAgain(maxsize: int, ss: seq<State>, es: seq<Event>, j: nat, k: nat)
    requires IsRun(maxsize, ss, es) && j <= k < |es|
    requires !ss[j].src.shutdown && ss[j].src.started && ss[j].hand == Empty && !Listening(ss[j])
    ensures !es[k].Take?
  {
    StreamsAlways(maxsize, ss, es, j);
    forall c | c in ss[j].calls ensures ss[j].calls[c] != LoopHead && ss[j].calls[c] != Awaiting {
      assert !At(ss[j], c, LoopHead) && !At(ss[j], c, Awaiting);
    }
    StaysSilent(maxsize, ss, es, j, k);
    assert Step(ss[k], es[k]) == Some(ss[k + 1]);
    SilentStep(ss[k], es[k], ss[k + 1]);
  }

  /** A listening source goes on listening for as long as the flag is down and it has not
      delivered a batch, whatever else happens and however often it waits in vain. */
  lemma {:induction false} ListensOn(maxsize: int, ss: seq<State>, es: seq<Event>, j: nat, k: nat)
    requires IsRun(maxsize, ss, es) && j <= k <= |es|
    requires Listening(ss[j]) && !ss[k].src.shutdown && forall i | j <= i < k :: !es[i].Take?
    ensures Listening(ss[k])
  {
    if j < k {
      PrimaryStays(maxsize, ss, es, k - 1, k);
      ListensOn(maxsize, ss, es, j, k - 1);
      ListenStep(ss[k - 1], es[k - 1], ss[k]);
    }
  }

  lemma ListenStep(s: State, e: Event, s': State)
    requires Listening(s) && Step(s, e) == Some(s') && !e.Take? && !s'.src.shutdown
    ensures Listening(s')
  {
    var call :| At(s, call, LoopHead) || At(s, call, Awaiting);
    assert At(s', call, LoopHead) || At(s', call, Awaiting);
  }

  /** Once the flag is up a stream call in its loop can end in at most two steps, without having
      delivered anything. */
  lemma StreamEnds(s: State, call: nat) returns (steps: seq<Event>, s': State)
    requires s.src.shutdown && (At(s, call, LoopHead) || At(s, call, Awaiting))
    ensures |steps| <= 2 && Leads(s, steps, s') && At(s', call, Finished)
    ensures s'.past == s.past && s'.hand == s.hand && s'.src == s.src
  {
    if At(s, call, LoopHead) {
      s' := Goto(s, call, Finished);
      OneStep(s, LoopTest(call), s');
      steps := [LoopTest(call)];
    } else {
      var head := Goto(s, call, LoopHead);
      s' := Goto(head, call, Finished);
      OneStep(head, LoopTest(call), s');
      StepThen(s, TimeOut(call), head, [LoopTest(call)], s');
      steps := [TimeOut(call)] + [LoopTest(call)];
    }
  }

  /** Closing the source, or leaving its generator, raises the flag for good: nothing is accepted
      after it, and unless the flag was up before, the queue is left to be drained. */
  lemma CloseEndsOffers(maxsize: int, ss: seq<State>, es: seq<Event>, j: nat, k: nat)
    requires IsRun(maxsize, ss, es) && j < k <= |es| && (es[j] == BeginClose || es[j].Abandon?)
    ensures ss[k].src.shutdown && ss[k].past.accepted == ss[j].past.accepted
    ensures !ss[j].src.shutdown ==> ss[j + 1].closing && ss[j + 1].src.queue == ss[j].src.queue
    ensures es[j].Abandon? ==> At(ss[j + 1], es[j].call, Finished)
  {
    assert Step(ss[j], es[j]) == Some(ss[j + 1]);
    NothingAfterShutdown(maxsize, ss, es, j + 1, k);
    PrimaryStays(maxsize, ss, es, j + 1, k);
  }

  /** After a stop nothing is begun to be processed. */
  lemma StopEndsProcessing(maxsize: int, ss: seq<State>, es: seq<Event>, j: nat, k: nat)
    requires IsRun(maxsize, ss, es) && j < k <= |es| && es[j] == Stop
    ensures ss[k].stopping && ss[k].past.begun == ss[j].past.begun
  {
    assert Step(ss[j], es[j]) == Some(ss[j + 1]);
    NothingBegunAfterStop(maxsize, ss, es, j + 1, k);
  }

  /** Stopping and closing are possible in every state, and a stream that waits for the queue or
      for the consumer can be left at any time. */
  lemma CanAlwaysStop(s: State, call: nat)
    ensures Step(s, Stop) == Some(s.(stopping := true)) && Step(s, BeginClose).Some?
    ensures At(s, call, Awaiting) || At(s, call, Yielded) ==> Step(s, Abandon(call)).Some?
  {
  }

  /** A source can end up like that: scheduling fails after the source was marked as started,
      and every later stream call is turned away. */
  lemma SchedulingFailureIsFinal(maxsize: int) returns (ss: seq<State>, es: seq<Event>)
    ensures IsRun(maxsize, ss, es) && |es| == 3 && !ss[3].src.shutdown && ss[3].src.started
    ensures es[2] == CallStream(1) && At(ss[3], 1, Finished) && ss[3].hand == Empty && !Listening(ss[3])
  {
    var s0 := InitialState(maxsize);
    var s1 := Step(s0, CallStream(0)).value;
    var s2 := Step(s1, InitSucceeds(0, false)).value;
    var s3 := Step(s2, CallStream(1)).value;
    ss, es := [s0, s1, s2, s3], [CallStream(0), InitSucceeds(0, false), CallStream(1)];
  }

  /** A failed initialisation leaves the source as it was, and another call may try. */
  lemma FailedInitCanRetry(s: State, call: nat, next: nat)
    requires At(s, call, Initialising) && next !in s.calls
    ensures Step(s, InitFails(call)).Some?
    ensures
      var failed := Step(s, InitFails(call)).value;
      && failed.src.queue == s.src.queue && failed.src.shutdown == s.src.shutdown && failed.past == s.past
      && Step(failed, CallStream(next)).Some? && At(Step(failed, CallStream(next)).value, next, Initialising)
  {
  }

  /** A close in progress can always be completed: everything queued is drained, and a stream
      call that comes later ends without having delivered anything. */
  lemma CloseCompletes(maxsize: int, ss: seq<State>, es: seq<Event>, k: nat)
    requires IsRun(maxsize, ss, es) && k <= |es| && ss[k].closing
    ensures Step(ss[k], FinishClose).Some?
    ensures
      var s, s' := ss[k], Step(ss[k], FinishClose).value;
      && s'.src.queue == [] && !s'.src.started && s'.src.shutdown && !s'.closing
      && s'.past == s.past.(drained := s.past.drained + s.src.queue)
      && s'.hand == s.hand && s'.calls == s.calls
  {
    ConservedAlways(maxsize, ss, es, k);
  }

  /** The source is started, call 0 is at `pc`, the consumer holds `hand` and knows of one batch. */
  function Stage(maxsize: int, queue: seq<RateBatch>, pc: Pc, hand: Hand, past: Past): State {
    State(Source(maxsize, queue, false, true), false, None, map[0 := pc], false, hand, past, Some(0), false)
  }

  function Offered(batch: RateBatch): Past {
    Past([batch], [], [batch], [], [], [], [], [], [])
  }

  function Taken(batch: RateBatch): Past {
    Past([batch], [], [batch], [batch], [], [], [], [], [])
  }

  lemma FirstSteps(maxsize: int, batch: RateBatch)
    ensures
      var none := Past([], [], [], [], [], [], [], [], []);
      var waiting := InitialState(maxsize).(calls := map[0 := Initialising], lock := Some(0));
      && Step(InitialState(maxsize), CallStream(0)) == Some(waiting)
      && Step(waiting, InitSucceeds(0, true)) == Some(Stage(maxsize, [], LoopHead, Empty, none))
      && Step(Stage(maxsize, [], LoopHead, Empty, none), Tick(batch))
         == Some(Stage(maxsize, [batch], LoopHead, Empty, Offered(batch)))
  {
    assert [] + [batch] == [batch];
    OneCall(Initialising, LoopHead);
    assert InitialState(maxsize).calls[0 := Initialising] == map[0 := Initialising];
  }

  lemma OneCall(pc: Pc, pc': Pc)
    ensures map[0 := pc][0 := pc'] == map[0 := pc']
  {
  }

  lemma TakingSteps(maxsize: int, batch: RateBatch)
    ensures Step(Stage(maxsize, [batch], LoopHead, Empty, Offered(batch)), LoopTest(0))
         == Some(Stage(maxsize, [batch], Awaiting, Empty, Offered(batch)))
    ensures Step(Stage(maxsize, [batch], Awaiting, Empty, Offered(batch)), Take(0))
         == Some(Stage(maxsize, [], Yielded, Holding(0, batch), Taken(batch)))
  {
    assert [] + [batch] == [batch] && [batch][1..] == [];
    OneCall(LoopHead, Awaiting);
    OneCall(Awaiting, Yielded);
  }

  lemma ProcessingSteps(maxsize: int, batch: RateBatch, begun: Past)
    requires batch.quotes != [] && begun == Taken(batch).(begun := [batch])
    ensures Step(Stage(maxsize, [], Yielded, Holding(0, batch), Taken(batch)), Decide)
         == Some(Stage(maxsize, [], Yielded, Processing(0, batch), begun))
    ensures Step(Stage(maxsize, [], Yielded, Processing(0, batch), begun), Finish)
         == Some(Stage(maxsize, [], LoopHead, Empty, begun.(processed := [batch])))
  {
    assert [] + [batch] == [batch];
    OneCall(Yielded, LoopHead);
  }

  /** From an empty source to a processed batch. */
  lemma FirstBatchIsProcessed(maxsize: int, batch: RateBatch) returns (ss: seq<State>, es: seq<Event>)
    requires batch.quotes != []
    ensures IsRun(maxsize, ss, es) && |es| == 7
    ensures ss[7] == Stage(maxsize, [], LoopHead, Empty, Taken(batch).(begun := [batch], processed := [batch]))
    ensures Listening(ss[7])
  {
    FirstSteps(maxsize, batch);
    var none := Past([], [], [], [], [], [], [], [], []);
    var begun := Taken(batch).(begun := [batch]);
    TakingSteps(maxsize, batch);
    ProcessingSteps(maxsize, batch, begun);
    var states := [
      InitialState(maxsize).(calls := map[0 := Initialising], lock := Some(0)),
      Stage(maxsize, [], LoopHead, Empty, none),
      Stage(maxsize, [batch], LoopHead, Empty, Offered(batch)),
      Stage(maxsize, [batch], Awaiting, Empty, Offered(batch)),
      Stage(maxsize, [], Yielded, Holding(0, batch), Taken(batch)),
      Stage(maxsize, [], Yielded, Processing(0, batch), begun),
      Stage(maxsize, [], LoopHead, Empty, begun.(processed := [batch]))];
    var events := [CallStream(0), InitSucceeds(0, true), Tick(batch), LoopTest(0), Take(0), Decide, Finish];
    ss, es := [InitialState(maxsize)], [];
    for i := 0 to 7
      invariant |es| == i && IsRun(maxsize, ss, es)
      invariant ss[i] == if i == 0 then InitialState(maxsize) else states[i - 1]
    {
      RunGrows(maxsize, ss, es, events[i], states[i]);
      ss, es := ss + [states[i]], es + [events[i]];
    }
    assert At(ss[7], 0, LoopHead);
  }
}
