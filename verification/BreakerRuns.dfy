/** Every interleaving of calls on one circuit breaker, with a clock that never runs back. */
module BreakerRuns {
  import opened Wrappers
  import opened CircuitBreaking

  /** `Complete(call, _)` ends the call admitted by event number `call`. */
  datatype Event = Admit | Complete(call: nat, outcome: Outcome) | Advance(ticks: nat)

  /** `inFlight` maps the number of an admitting event to the phase its call was admitted in. */
  datatype System = System(breaker: Breaker, inFlight: map<nat, Phase>, now: int)

  function Step(c: Config, s: System, number: nat, e: Event): Option<System> {
    match e
    case Admit =>
      var (b, admission) := AdmitCall(c, s.breaker, s.now);
      (match admission
       case Rejected => Some(s.(breaker := b))
       case Admitted(snapshot) => Some(s.(breaker := b, inFlight := s.inFlight[number := snapshot])))
    case Complete(call, outcome) =>
      if call !in s.inFlight then None
      else Some(s.(breaker := CompleteCall(c, s.breaker, s.inFlight[call], outcome, s.now),
                   inFlight := s.inFlight - {call}))
    case Advance(ticks) => Some(s.(now := s.now + ticks))
  }

  /** `ss[k]` is the state before event `k`; the run starts at construction. */
  ghost predicate IsRun(c: Config, ss: seq<System>, es: seq<Event>) {
    && c.Valid()
    && |ss| == |es| + 1
    && ss[0].breaker == INITIAL && ss[0].inFlight == map[]
    && forall k {:trigger es[k]} | 0 <= k < |es| :: Step(c, ss[k], k, es[k]) == Some(ss[k + 1])
  }

  predicate IsFailure(e: Event) {
    e.Complete? && e.outcome == ExpectedFailure
  }

  /** A call admitted in HALF_OPEN returns: the only event that sets the counter to zero. */
  predicate IsReset(s: System, e: Event) {
    e.Complete? && e.outcome == Returned && e.call in s.inFlight && s.inFlight[e.call] == HalfOpen
  }

  function Failures(es: seq<Event>, from: nat, to: nat): nat
    requires from <= to <= |es|
  {
    if from == to then 0
    else Failures(es, from, to - 1) + (if IsFailure(es[to - 1]) then 1 else 0)
  }

  // ---------------------------------------------------------------- invariants

  ghost predicate Inv(c: Config, s: System, number: nat) {
    && (s.breaker.phase == Closed <==> s.breaker.failureCount < c.threshold)
    && (s.breaker.phase != Closed ==> s.breaker.lastFailure.Some?)
    && (s.breaker.lastFailure.Some? ==> s.breaker.lastFailure.value <= s.now)
    && (forall id | id in s.inFlight :: id < number)
  }

  /** In every reachable state the breaker is CLOSED exactly when the count is below the
      threshold, and once it is not CLOSED the time of the last failure is known. */
  lemma {:induction false} InvAlways(c: Config, ss: seq<System>, es: seq<Event>, k: nat)
    requires IsRun(c, ss, es) && k <= |es|
    ensures Inv(c, ss[k], k)
  {
    if k > 0 {
      InvAlways(c, ss, es, k - 1);
      assert Step(c, ss[k - 1], k - 1, es[k - 1]) == Some(ss[k]);
    }
  }

  lemma {:induction false} ClockNeverRunsBack(c: Config, ss: seq<System>, es: seq<Event>, j: nat, k: nat)
    requires IsRun(c, ss, es) && j <= k <= |es|
    ensures ss[j].now <= ss[k].now
  {
    if j < k {
      ClockNeverRunsBack(c, ss, es, j, k - 1);
      assert Step(c, ss[k - 1], k - 1, es[k - 1]) == Some(ss[k]);
    }
  }

  // ---------------------------------------------------------------- counting

  /** The counter holds the number of expected failures recorded since the last reset,
      whatever else was admitted, returned or raised in between. */
  lemma {:induction false} CountsFailuresSinceReset(c: Config, ss: seq<System>, es: seq<Event>, from: nat, k: nat)
    requires IsRun(c, ss, es) && from <= k <= |es|
    requires from == 0 || IsReset(ss[from - 1], es[from - 1])
    requires forall i | from <= i < k :: !IsReset(ss[i], es[i])
    ensures ss[k].breaker.failureCount == Failures(es, from, k)
  {
    if from < k {
      CountsFailuresSinceReset(c, ss, es, from, k - 1);
      assert Step(c, ss[k - 1], k - 1, es[k - 1]) == Some(ss[k]);
    } else if 0 < k {
      assert Step(c, ss[k - 1], k - 1, es[k - 1]) == Some(ss[k]);
    }
  }

  /** While the breaker has only been CLOSED, every call in flight was admitted in CLOSED. */
  lemma {:induction false} ClosedAdmitsClosed(c: Config, ss: seq<System>, es: seq<Event>, k: nat)
    requires IsRun(c, ss, es) && k <= |es|
    requires forall i | 0 <= i <= k :: ss[i].breaker.phase == Closed
    ensures forall id | id in ss[k].inFlight :: ss[k].inFlight[id] == Closed
    ensures forall i | 0 <= i < k :: !IsReset(ss[i], es[i])
  {
    if k > 0 {
      ClosedAdmitsClosed(c, ss, es, k - 1);
      assert Step(c, ss[k - 1], k - 1, es[k - 1]) == Some(ss[k]);
    }
  }

  /** The breaker has stayed CLOSED since construction exactly as long as fewer than
      `threshold` failures were recorded: it first opens at the threshold-th one. */
  lemma {:induction false} FirstOpensAtThreshold(c: Config, ss: seq<System>, es: seq<Event>, k: nat)
    requires IsRun(c, ss, es) && k <= |es|
    ensures (forall i | 0 <= i <= k :: ss[i].breaker.phase == Closed) <==> Failures(es, 0, k) < c.threshold
  {
    if k > 0 {
      FirstOpensAtThreshold(c, ss, es, k - 1);
      InvAlways(c, ss, es, k);
      if forall i | 0 <= i <= k - 1 :: ss[i].breaker.phase == Closed {
        ClosedAdmitsClosed(c, ss, es, k - 1);
        assert Step(c, ss[k - 1], k - 1, es[k - 1]) == Some(ss[k]);
        CountsFailuresSinceReset(c, ss, es, 0, k);
      }
    }
  }

  // ---------------------------------------------------------------- provenance of closing

  /** The last recorded failure is no earlier than any failure of the run so far. */
  lemma {:induction false} LastFailureIsLatest(c: Config, ss: seq<System>, es: seq<Event>, f: nat, k: nat)
    requires IsRun(c, ss, es) && f < k <= |es| && IsFailure(es[f])
    ensures ss[k].breaker.lastFailure.Some? && ss[f].now <= ss[k].breaker.lastFailure.value
  {
    assert Step(c, ss[k - 1], k - 1, es[k - 1]) == Some(ss[k]);
    if f < k - 1 {
      LastFailureIsLatest(c, ss, es, f, k - 1);
      ClockNeverRunsBack(c, ss, es, f, k - 1);
    }
  }

  /** Event `j` moves the breaker from OPEN to HALF_OPEN a full recovery time after every
      failure before it, and the breaker stays HALF_OPEN until event `k` is over. */
  ghost predicate ProbingSince(c: Config, ss: seq<System>, es: seq<Event>, j: nat, k: nat)
    requires |ss| == |es| + 1
  {
    && j <= k < |es|
    && es[j] == Admit && ss[j].breaker.phase == Open
    && (forall i | j < i <= k + 1 :: ss[i].breaker.phase == HalfOpen)
    && (forall f | 0 <= f < j && IsFailure(es[f]) :: ss[f].now + c.recovery <= ss[j].now)
  }

  lemma {:induction false} HalfOpenHasProbe(c: Config, ss: seq<System>, es: seq<Event>, k: nat) returns (j: nat)
    requires IsRun(c, ss, es) && k < |es| && ss[k + 1].breaker.phase == HalfOpen
    ensures ProbingSince(c, ss, es, j, k)
  {
    assert Step(c, ss[k], k, es[k]) == Some(ss[k + 1]);
    if ss[k].breaker.phase == HalfOpen {
      j := HalfOpenHasProbe(c, ss, es, k - 1);
    } else {
      j := k;
      forall f | 0 <= f < j && IsFailure(es[f]) ensures ss[f].now + c.recovery <= ss[j].now {
        LastFailureIsLatest(c, ss, es, f, j);
      }
    }
  }

  /** A call still in flight carries the phase the breaker was in right after admitting it. */
  lemma {:induction false} SnapshotIsAdmissionPhase(c: Config, ss: seq<System>, es: seq<Event>, call: nat, k: nat)
    requires IsRun(c, ss, es) && k <= |es| && call in ss[k].inFlight
    ensures call < k && es[call] == Admit && ss[k].inFlight[call] == ss[call + 1].breaker.phase
  {
    assert k > 0;
    assert Step(c, ss[k - 1], k - 1, es[k - 1]) == Some(ss[k]);
    if call in ss[k - 1].inFlight {
      InvAlways(c, ss, es, k - 1);
      SnapshotIsAdmissionPhase(c, ss, es, call, k - 1);
    }
  }

  /** Every step that leaves the breaker CLOSED from another phase completes, successfully, a
      call that was admitted in HALF_OPEN, and that HALF_OPEN spell began with an admission
      a full recovery time after every failure recorded before it. */
  lemma ClosingProvenance(c: Config, ss: seq<System>, es: seq<Event>, k: nat)
    requires IsRun(c, ss, es) && k < |es|
    requires ss[k].breaker.phase != Closed && ss[k + 1].breaker.phase == Closed
    ensures es[k].Complete? && es[k].outcome == Returned
    ensures es[k].call < k && es[es[k].call] == Admit
    ensures exists j: nat :: ProbingSince(c, ss, es, j, es[k].call)
  {
    assert Step(c, ss[k], k, es[k]) == Some(ss[k + 1]);
    InvAlways(c, ss, es, k);
    SnapshotIsAdmissionPhase(c, ss, es, es[k].call, k);
    var j := HalfOpenHasProbe(c, ss, es, es[k].call);
  }

  /** A probe does not have to be the last word: with two probes in flight, one that fails
      re-opens the breaker and the other, returning later, closes it straight from OPEN,
      with no recovery time after that failure. */
  lemma OpenCanCloseDirectly() returns (c: Config, ss: seq<System>, es: seq<Event>)
    ensures IsRun(c, ss, es) && |es| == 7
    ensures IsFailure(es[5]) && ss[6].breaker.phase == Open && ss[7].breaker.phase == Closed
    ensures ss[7].now - ss[5].now < c.recovery
  {
    c := Config(1, 10);
    es := [Admit, Complete(0, ExpectedFailure), Advance(10), Admit, Admit,
           Complete(3, ExpectedFailure), Complete(4, Returned)];
    var s0 := System(INITIAL, map[], 0);
    var s1 := s0.(inFlight := map[0 := Closed]);
    var s2 := System(Breaker(Open, 1, Some(0)), map[0 := Closed] - {0}, 0);
    var s3 := s2.(now := 10);
    var probing := Breaker(HalfOpen, 1, Some(0));
    var s4 := System(probing, s3.inFlight[3 := HalfOpen], 10);
    var s5 := System(probing, s4.inFlight[4 := HalfOpen], 10);
    var s6 := System(Breaker(Open, 2, Some(10)), s5.inFlight - {3}, 10);
    var s7 := System(Breaker(Closed, 0, Some(10)), s6.inFlight - {4}, 10);
    ss := [s0, s1, s2, s3, s4, s5, s6, s7];
  }
}
