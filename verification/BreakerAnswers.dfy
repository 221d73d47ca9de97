/** What a caller and the breaker get from each call, said of the run alone: its failures, its
    resets and its clock. */
module BreakerAnswers {
  import opened Wrappers
  import opened CircuitBreaking
  import opened BreakerRuns
  import opened BreakerClosing

  /** An admission lets the call through exactly if the breaker is not OPEN or every failure of
      the run is a full recovery time ago. */
  lemma AdmittedIff(c: Config, ss: seq<System>, es: seq<Event>, k: nat)
    requires IsRun(c, ss, es) && k < |es| && es[k] == Admit
    ensures k in ss[k + 1].inFlight <==> ss[k].breaker.phase != Open || Recovered(c, ss, es, k)
  {
    assert Step(c, ss[k], k, es[k]) == Some(ss[k + 1]);
    InvAlways(c, ss, es, k);
    if ss[k].breaker.phase == Open {
      RecoveredIffReset(c, ss, es, k);
    }
  }

  /** What it leaves behind: an admitted call carries the phase the breaker then has, which
      changes only from OPEN to HALF_OPEN; a rejection changes nothing at all. */
  lemma AdmissionEffect(c: Config, ss: seq<System>, es: seq<Event>, k: nat)
    requires IsRun(c, ss, es) && k < |es| && es[k] == Admit
    ensures k !in ss[k + 1].inFlight ==> ss[k + 1] == ss[k]
    ensures k in ss[k + 1].inFlight ==>
              && ss[k + 1].breaker.phase == (if ss[k].breaker.phase == Open then HalfOpen else ss[k].breaker.phase)
              && ss[k + 1].inFlight == ss[k].inFlight[k := ss[k + 1].breaker.phase]
              && ss[k + 1].breaker.failureCount == ss[k].breaker.failureCount
              && ss[k + 1].breaker.lastFailure == ss[k].breaker.lastFailure
              && ss[k + 1].now == ss[k].now
  {
    assert Step(c, ss[k], k, es[k]) == Some(ss[k + 1]);
    InvAlways(c, ss, es, k);
  }

  /** The phase after a completion: CLOSED if a call admitted in HALF_OPEN returned, OPEN if a
      failure was recorded and at least threshold of them since the last reset, and otherwise
      what it was. */
  lemma CompletionEffect(c: Config, ss: seq<System>, es: seq<Event>, from: nat, k: nat)
    requires IsRun(c, ss, es) && from <= k < |es| && es[k].Complete?
    requires from == 0 || IsReset(ss[from - 1], es[from - 1])
    requires forall i | from <= i < k :: !IsReset(ss[i], es[i])
    ensures ss[k + 1].breaker.phase ==
              if IsReset(ss[k], es[k]) then Closed
              else if IsFailure(es[k]) && Failures(es, from, k + 1) >= c.threshold then Open
              else ss[k].breaker.phase
    ensures ss[k + 1].inFlight == ss[k].inFlight - {es[k].call}
  {
    assert Step(c, ss[k], k, es[k]) == Some(ss[k + 1]);
    CountsFailuresSinceReset(c, ss, es, from, k);
  }
}
