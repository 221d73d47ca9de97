/** Which closing steps of a breaker come a full recovery time after the last failure. */
module BreakerClosing {
  import opened Wrappers
  import opened CircuitBreaking
  import opened BreakerRuns
  import opened BreakerLoad

  /** The time the breaker remembers is the time of a failure of the run. */
  lemma {:induction false} LastFailureHappened(c: Config, ss: seq<System>, es: seq<Event>, k: nat) returns (f: nat)
    requires IsRun(c, ss, es) && k <= |es| && ss[k].breaker.lastFailure.Some?
    ensures f < k && IsFailure(es[f]) && ss[k].breaker.lastFailure == Some(ss[f].now)
  {
    assert k > 0;
    assert Step(c, ss[k - 1], k - 1, es[k - 1]) == Some(ss[k]);
    if IsFailure(es[k - 1]) {
      f := k - 1;
    } else {
      f := LastFailureHappened(c, ss, es, k - 1);
    }
  }

  /** At state `k` every failure of the run is at least a recovery time ago. */
  ghost predicate Recovered(c: Config, ss: seq<System>, es: seq<Event>, k: nat)
    requires |ss| == |es| + 1 && k <= |es|
  {
    forall f | 0 <= f < k && IsFailure(es[f]) :: ss[f].now + c.recovery <= ss[k].now
  }

  lemma RecoveredIffReset(c: Config, ss: seq<System>, es: seq<Event>, k: nat)
    requires IsRun(c, ss, es) && k <= |es| && ss[k].breaker.phase != Closed
    ensures Recovered(c, ss, es, k) <==> ShouldAttemptReset(c, ss[k].breaker, ss[k].now)
  {
    InvAlways(c, ss, es, k);
    var last := LastFailureHappened(c, ss, es, k);
    forall f | 0 <= f < k && IsFailure(es[f]) ensures ss[f].now <= ss[k].breaker.lastFailure.value {
      LastFailureIsLatest(c, ss, es, f, k);
    }
  }

  /** No failure is recorded while the breaker stays HALF_OPEN: it would have opened. */
  lemma HalfOpenIsRecovered(c: Config, ss: seq<System>, es: seq<Event>, k: nat)
    requires IsRun(c, ss, es) && k <= |es| && ss[k].breaker.phase == HalfOpen
    ensures Recovered(c, ss, es, k)
  {
    assert k > 0;
    var j := HalfOpenHasProbe(c, ss, es, k - 1);
    ClockNeverRunsBack(c, ss, es, j, k);
    forall f | j < f < k ensures !IsFailure(es[f]) {
      InvAlways(c, ss, es, f);
      assert Step(c, ss[f], f, es[f]) == Some(ss[f + 1]);
    }
  }

  /** A step that closes the breaker comes a full recovery time after every failure recorded
      before it exactly if the breaker was HALF_OPEN, or OPEN with a reset already due. */
  lemma ClosesRecoveredIff(c: Config, ss: seq<System>, es: seq<Event>, k: nat)
    requires IsRun(c, ss, es) && k < |es|
    requires ss[k].breaker.phase != Closed && ss[k + 1].breaker.phase == Closed
    ensures Recovered(c, ss, es, k)
       <==> (ss[k].breaker.phase == HalfOpen || ShouldAttemptReset(c, ss[k].breaker, ss[k].now))
  {
    RecoveredIffReset(c, ss, es, k);
    if ss[k].breaker.phase == HalfOpen {
      HalfOpenIsRecovered(c, ss, es, k);
    }
  }

  lemma {:induction false} SerialOpenIsIdle(c: Config, ss: seq<System>, es: seq<Event>, k: nat)
    requires IsRun(c, ss, es) && k <= |es| && AtMostInFlight(ss, 1)
    ensures ss[k].breaker.phase == Open ==> ss[k].inFlight == map[]
  {
    if k > 0 {
      SerialOpenIsIdle(c, ss, es, k - 1);
      SerialStep(c, k - 1, ss[k - 1], es[k - 1], ss[k]);
    }
  }

  lemma SerialStep(c: Config, number: nat, s: System, e: Event, s': System)
    requires Step(c, s, number, e) == Some(s') && |s.inFlight| <= 1
    requires s.breaker.phase == Open ==> s.inFlight == map[]
    ensures s'.breaker.phase == Open ==> s'.inFlight == map[]
  {
    if e.Complete? {
      RemovingOne(s.inFlight, e.call);
    }
  }

  /** With at most one call in flight the breaker never goes from OPEN to CLOSED, and every
      closing step comes a full recovery time after every failure. */
  lemma SerialClosesRecovered(c: Config, ss: seq<System>, es: seq<Event>, k: nat)
    requires IsRun(c, ss, es) && k < |es| && AtMostInFlight(ss, 1)
    requires ss[k].breaker.phase != Closed && ss[k + 1].breaker.phase == Closed
    ensures ss[k].breaker.phase == HalfOpen && Recovered(c, ss, es, k)
  {
    SerialOpenIsIdle(c, ss, es, k);
    assert Step(c, ss[k], k, es[k]) == Some(ss[k + 1]);
    ClosesRecoveredIff(c, ss, es, k);
  }
}
