/** Every interleaving of ticks, stream calls, the consumer, and the two shutdowns. */
module Pipeline {
  import opened Wrappers
  import opened Sequences
  import opened RateStreaming

  /** Where one call of `stream` is. `Yielded` waits for the consumer to come back. */
  datatype Pc = Initialising | LoopHead | Awaiting | Yielded | Finished

  /** What the consumer has in its hands, and from which stream call. */
  datatype Hand = Empty | Holding(call: nat, batch: RateBatch) | Processing(call: nat, batch: RateBatch)

  /** What became of every batch so far, in order. */
  datatype Past = Past(
    offered: seq<RateBatch>, dropped: seq<RateBatch>, accepted: seq<RateBatch>,
    taken: seq<RateBatch>, drained: seq<RateBatch>,
    begun: seq<RateBatch>, processed: seq<RateBatch>, skipped: seq<RateBatch>, discarded: seq<RateBatch>)

  /** `closing` is set while a `close` has raised the flag but has not drained the queue yet;
      `primary` is the stream call that started the source, `late` tells whether a batch was
      taken after the flag was raised. */
  datatype State = State(
    src: Source, closing: bool, lock: Option<nat>, calls: map<nat, Pc>, stopping: bool, hand: Hand,
    past: Past, primary: Option<nat>, late: bool)

  datatype Event =
    | Tick(batch: RateBatch)
    | CallStream(call: nat)
    | InitFails(call: nat)
    | InitSucceeds(call: nat, scheduled: bool)
    | LoopTest(call: nat)
    | TimeOut(call: nat)
    | Take(call: nat)
    | Decide
    | Finish
    | Abandon(call: nat)
    | BeginClose
    | FinishClose
    | Stop

  function InitialState(maxsize: int): State {
    State(Source(maxsize, [], false, false), false, None, map[], false, Empty,
          Past([], [], [], [], [], [], [], [], []), None, false)
  }

  predicate At(s: State, call: nat, pc: Pc) {
    call in s.calls && s.calls[call] == pc
  }

  function Goto(s: State, call: nat, pc: Pc): State {
    s.(calls := s.calls[call := pc])
  }

  /** The consumer asks for the next batch. */
  function Resume(s: State, call: nat): State {
    if At(s, call, Yielded) then Goto(s, call, LoopHead) else s
  }

  function RaiseFlag(s: State): State {
    if s.src.shutdown then s else s.(src := s.src.(shutdown := true), closing := true)
  }

  /** What the consumer does with a batch it was given. */
  datatype Verdict = Discard | Skip | Process

  function VerdictOn(stopping: bool, batch: RateBatch): Verdict {
    if stopping then Discard else if batch.quotes == [] then Skip else Process
  }

  function OfferStep(s: State, batch: RateBatch): State {
    var p := s.past;
    s.(src := Offer(s.src, batch),
       past := match FateOf(s.src)
               case Ignored => p
               case Dropped => p.(offered := p.offered + [batch], dropped := p.dropped + [batch])
               case Enqueued => p.(offered := p.offered + [batch], accepted := p.accepted + [batch]))
  }

  function TakeStep(s: State, call: nat): State
    requires s.src.queue != []
  {
    var batch := s.src.queue[0];
    Goto(s, call, Yielded).(src := s.src.(queue := s.src.queue[1..]), hand := Holding(call, batch),
                            past := s.past.(taken := s.past.taken + [batch]), late := s.late || s.src.shutdown)
  }

  function DecidePast(p: Past, verdict: Verdict, batch: RateBatch): Past {
    match verdict
    case Discard => p.(discarded := p.discarded + [batch])
    case Skip => p.(skipped := p.skipped + [batch])
    case Process => p.(begun := p.begun + [batch])
  }

  /** A discarded batch ends the consumer's loop, a skipped one goes straight to the next. */
  function DecideStep(s: State): State
    requires s.hand.Holding?
  {
    var batch, call := s.hand.batch, s.hand.call;
    var verdict := VerdictOn(s.stopping, batch);
    var s' := if verdict == Skip then Resume(s, call) else s;
    s'.(hand := if verdict == Process then Processing(call, batch) else Empty,
        past := DecidePast(s.past, verdict, batch))
  }

  function Step(s: State, e: Event): Option<State> {
    match e
    case Tick(batch) => Some(OfferStep(s, batch))
    case CallStream(call) =>
      if call in s.calls || s.lock.Some? then None
      else if s.src.started then Some(Goto(s, call, Finished))
      else Some(Goto(s, call, Initialising).(lock := Some(call)))
    case InitFails(call) =>
      if !At(s, call, Initialising) then None
      else Some(Goto(s, call, Finished).(lock := None, src := s.src.(started := false)))
    case InitSucceeds(call, scheduled) =>
      if !At(s, call, Initialising) then None
      else
        Some(Goto(s, call, if scheduled then LoopHead else Finished).(
               lock := None, src := s.src.(started := true),
               primary := if s.src.shutdown then s.primary else Some(call)))
    case LoopTest(call) =>
      if !At(s, call, LoopHead) then None
      else Some(Goto(s, call, if s.src.shutdown then Finished else Awaiting))
    case TimeOut(call) =>
      if !At(s, call, Awaiting) then None else Some(Goto(s, call, LoopHead))
    case Take(call) =>
      if !At(s, call, Awaiting) || s.src.queue == [] || s.hand != Empty then None else Some(TakeStep(s, call))
    case Decide =>
      if !s.hand.Holding? then None else Some(DecideStep(s))
    case Finish =>
      if !s.hand.Processing? then None
      else
        Some(Resume(s, s.hand.call).(hand := Empty, past := s.past.(processed := s.past.processed + [s.hand.batch])))
    case Abandon(call) =>
      if !At(s, call, Awaiting) && !At(s, call, Yielded) then None else Some(RaiseFlag(Goto(s, call, Finished)))
    case BeginClose => Some(RaiseFlag(s))
    case FinishClose =>
      if !s.closing then None
      else
        Some(s.(src := Drained(s.src), closing := false, past := s.past.(drained := s.past.drained + s.src.queue)))
    case Stop => Some(s.(stopping := true))
  }

  ghost predicate IsRun(maxsize: int, ss: seq<State>, es: seq<Event>) {
    && |ss| == |es| + 1
    && ss[0] == InitialState(maxsize)
    && forall k {:trigger es[k]} | 0 <= k < |es| :: Step(ss[k], es[k]) == Some(ss[k + 1])
  }

  lemma RunGrows(maxsize: int, ss: seq<State>, es: seq<Event>, e: Event, s: State)
    requires IsRun(maxsize, ss, es) && Step(ss[|es|], e) == Some(s)
    ensures IsRun(maxsize, ss + [s], es + [e])
  {
    assert forall k | 0 <= k < |es| :: (es + [e])[k] == es[k];
  }

  // ---------------------------------------------------------------- conservation and order

  function InHand(hand: Hand): seq<RateBatch> {
    if hand == Empty then [] else [hand.batch]
  }

  /** Offered batches were dropped or accepted; accepted ones were taken, drained or wait, in
      this order. */
  ghost predicate Conserved(p: Past, src: Source, closing: bool) {
    && multiset(p.offered) == multiset(p.dropped) + multiset(p.accepted)
    && IsSubsequence(p.accepted, p.offered)
    && p.accepted == p.taken + p.drained + src.queue
    && (p.drained != [] ==> src.queue == [])
    && (src.maxsize > 0 ==> |src.queue| <= src.maxsize)
  }

  /** The flag is raised first, the queue drained next, and then it stays empty. */
  ghost predicate ShutdownOrder(p: Past, src: Source, closing: bool) {
    && (closing ==> src.shutdown)
    && (p.drained != [] ==> src.shutdown && !closing)
    && (src.shutdown && !closing ==> src.queue == [])
  }

  /** Taken batches were processed, skipped, discarded or are in hand. */
  ghost predicate Settled(p: Past, hand: Hand) {
    && multiset(p.taken) == multiset(p.processed) + multiset(p.skipped) + multiset(p.discarded) + multiset(InHand(hand))
    && p.begun == p.processed + (if hand.Processing? then [hand.batch] else [])
    && (forall i | 0 <= i < |p.begun| :: p.begun[i].quotes != [])
    && (forall i | 0 <= i < |p.skipped| :: p.skipped[i].quotes == [])
  }

  /** Processing begins in the order of taking, and what is held was taken last. */
  ghost predicate InOrder(p: Past, hand: Hand) {
    if hand.Holding? then
      p.taken != [] && hand.batch == p.taken[|p.taken| - 1] && IsSubsequence(p.begun, p.taken[..|p.taken| - 1])
    else IsSubsequence(p.begun, p.taken)
  }

  lemma Recorded(p: Past, src: Source, closing: bool, batch: RateBatch)
    requires Conserved(p, src, closing)
    ensures Conserved(p.(offered := p.offered + [batch], dropped := p.dropped + [batch]), src, closing)
  {
    SkipLast(p.accepted, p.offered, batch);
    assert multiset(p.offered + [batch]) == multiset(p.offered) + multiset{batch};
    assert multiset(p.dropped + [batch]) == multiset(p.dropped) + multiset{batch};
  }

  lemma Appended(p: Past, src: Source, closing: bool, batch: RateBatch)
    requires Conserved(p, src, closing) && p.drained == [] && !src.Full()
    ensures Conserved(p.(offered := p.offered + [batch], accepted := p.accepted + [batch]),
                      src.(queue := src.queue + [batch]), closing)
  {
    KeepLast(p.accepted, p.offered, batch);
    assert multiset(p.offered + [batch]) == multiset(p.offered) + multiset{batch};
    assert multiset(p.accepted + [batch]) == multiset(p.accepted) + multiset{batch};
    assert p.accepted + [batch] == p.taken + p.drained + (src.queue + [batch]);
  }

  lemma OfferConserves(s: State, batch: RateBatch)
    requires Conserved(s.past, s.src, s.closing) && ShutdownOrder(s.past, s.src, s.closing)
    ensures
      var s' := OfferStep(s, batch);
      Conserved(s'.past, s'.src, s'.closing) && ShutdownOrder(s'.past, s'.src, s'.closing)
  {
    match FateOf(s.src) {
      case Ignored =>
      case Dropped => Recorded(s.past, s.src, s.closing, batch);
      case Enqueued => Appended(s.past, s.src, s.closing, batch);
    }
  }

  lemma TakeConserves(s: State, call: nat)
    requires Conserved(s.past, s.src, s.closing) && ShutdownOrder(s.past, s.src, s.closing) && s.src.queue != []
    ensures
      var s' := TakeStep(s, call);
      Conserved(s'.past, s'.src, s'.closing) && ShutdownOrder(s'.past, s'.src, s'.closing)
  {
    var p, queue := s.past, s.src.queue;
    assert queue == [queue[0]] + queue[1..];
    assert p.taken + p.drained + queue == (p.taken + [queue[0]]) + p.drained + queue[1..];
  }

  lemma DrainConserves(s: State, s': State)
    requires Conserved(s.past, s.src, s.closing) && ShutdownOrder(s.past, s.src, s.closing)
    requires Step(s, FinishClose) == Some(s')
    ensures Conserved(s'.past, s'.src, s'.closing) && ShutdownOrder(s'.past, s'.src, s'.closing)
  {
    var p := s.past;
    assert p.taken + p.drained + s.src.queue == p.taken + (p.drained + s.src.queue) + [];
  }

  /** The batches that move are the business of four events and the consumer's two. */
  predicate MovesBatches(e: Event) {
    e.Tick? || e.Take? || e.Decide? || e.Finish? || e.FinishClose?
  }

  lemma OthersMoveNothing(s: State, e: Event, s': State)
    requires Step(s, e) == Some(s') && !MovesBatches(e)
    ensures s'.past == s.past && s'.hand == s.hand
    ensures s'.src.queue == s.src.queue && s'.src.maxsize == s.src.maxsize
    ensures (s'.src.shutdown, s'.closing) == (s.src.shutdown, s.closing)
         || (!s.src.shutdown && s'.src.shutdown && s'.closing)
  {
  }

  /** Deciding and finishing touch neither the queue nor the source's books. */
  lemma ConsumerLeavesSource(s: State, e: Event, s': State)
    requires Step(s, e) == Some(s') && (e == Decide || e == Finish)
    ensures s'.src == s.src && s'.closing == s.closing
    ensures (s'.past.offered, s'.past.dropped, s'.past.accepted, s'.past.taken, s'.past.drained)
         == (s.past.offered, s.past.dropped, s.past.accepted, s.past.taken, s.past.drained)
  {
  }

  lemma ConservedStep(s: State, e: Event, s': State)
    requires Conserved(s.past, s.src, s.closing) && ShutdownOrder(s.past, s.src, s.closing)
    requires Step(s, e) == Some(s')
    ensures Conserved(s'.past, s'.src, s'.closing) && ShutdownOrder(s'.past, s'.src, s'.closing)
    ensures s'.src.maxsize == s.src.maxsize
  {
    if e.Tick? {
      OfferConserves(s, e.batch);
    } else if e.Take? {
      TakeConserves(s, e.call);
    } else if e == FinishClose {
      DrainConserves(s, s');
    } else if e == Decide || e == Finish {
      ConsumerLeavesSource(s, e, s');
    } else {
      OthersMoveNothing(s, e, s');
    }
  }

  lemma TakeSettles(s: State, call: nat)
    requires Settled(s.past, s.hand) && InOrder(s.past, s.hand) && s.hand == Empty && s.src.queue != []
    ensures Settled(TakeStep(s, call).past, TakeStep(s, call).hand)
    ensures InOrder(TakeStep(s, call).past, TakeStep(s, call).hand)
  {
    assert (s.past.taken + [s.src.queue[0]])[..|s.past.taken|] == s.past.taken;
  }

  lemma DecideCounts(p: Past, call: nat, batch: RateBatch, stopping: bool)
    requires Settled(p, Holding(call, batch))
    ensures
      var verdict := VerdictOn(stopping, batch);
      Settled(DecidePast(p, verdict, batch), if verdict == Process then Processing(call, batch) else Empty)
  {
    match VerdictOn(stopping, batch) {
      case Discard => assert multiset(p.discarded + [batch]) == multiset(p.discarded) + multiset{batch};
      case Skip => assert multiset(p.skipped + [batch]) == multiset(p.skipped) + multiset{batch};
      case Process =>
    }
  }

  lemma DecideKeepsOrder(p: Past, call: nat, batch: RateBatch, verdict: Verdict)
    requires InOrder(p, Holding(call, batch))
    ensures InOrder(DecidePast(p, verdict, batch), if verdict == Process then Processing(call, batch) else Empty)
  {
    var before := p.taken[..|p.taken| - 1];
    assert before + [batch] == p.taken;
    SkipLast(p.begun, before, batch);
    KeepLast(p.begun, before, batch);
  }

  lemma FinishSettles(s: State, s': State)
    requires Settled(s.past, s.hand) && InOrder(s.past, s.hand) && Step(s, Finish) == Some(s')
    ensures Settled(s'.past, s'.hand) && InOrder(s'.past, s'.hand)
  {
    assert s.past.begun == s.past.processed + [s.hand.batch];
  }

  lemma SettledStep(s: State, e: Event, s': State)
    requires Settled(s.past, s.hand) && InOrder(s.past, s.hand) && Step(s, e) == Some(s')
    ensures Settled(s'.past, s'.hand) && InOrder(s'.past, s'.hand)
  {
    if e.Take? {
      TakeSettles(s, e.call);
    } else if e == Decide {
      DecideCounts(s.past, s.hand.call, s.hand.batch, s.stopping);
      DecideKeepsOrder(s.past, s.hand.call, s.hand.batch, VerdictOn(s.stopping, s.hand.batch));
    } else if e == Finish {
      FinishSettles(s, s');
    } else {
      SourceLeavesConsumer(s, e, s');
    }
  }

  lemma SourceLeavesConsumer(s: State, e: Event, s': State)
    requires Step(s, e) == Some(s') && !e.Take? && e != Decide && e != Finish
    ensures s'.hand == s.hand
    ensures (s'.past.taken, s'.past.begun, s'.past.processed, s'.past.skipped, s'.past.discarded)
         == (s.past.taken, s.past.begun, s.past.processed, s.past.skipped, s.past.discarded)
  {
  }

  lemma {:induction false} ConservedAlways(maxsize: int, ss: seq<State>, es: seq<Event>, k: nat)
    requires IsRun(maxsize, ss, es) && k <= |es|
    ensures Conserved(ss[k].past, ss[k].src, ss[k].closing) && ss[k].src.maxsize == maxsize
    ensures ShutdownOrder(ss[k].past, ss[k].src, ss[k].closing)
    ensures Settled(ss[k].past, ss[k].hand) && InOrder(ss[k].past, ss[k].hand)
  {
    if k > 0 {
      ConservedAlways(maxsize, ss, es, k - 1);
      ConservedStep(ss[k - 1], es[k - 1], ss[k]);
      SettledStep(ss[k - 1], es[k - 1], ss[k]);
    }
  }
}
