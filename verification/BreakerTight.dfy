/** The load bound of module BreakerLoad cannot be improved: a run that attains it. */
module BreakerTight {
  import opened Wrappers
  import opened CircuitBreaking
  import opened BreakerRuns
  import opened BreakerLoad

  datatype History = History(ss: seq<System>, es: seq<Event>, ts: seq<Tally>)
  {
    function Now(): System
      requires |ss| > 0
    {
      ss[|ss| - 1]
    }

    function Sum(): Tally
      requires |ts| > 0
    {
      ts[|ts| - 1]
    }
  }

  /** A run with at most `limit` calls in flight in which every completion is a failure. */
  ghost predicate Outage(c: Config, limit: nat, h: History) {
    && IsRun(c, h.ss, h.es) && IsTally(h.ss, h.es, h.ts)
    && AtMostInFlight(h.ss, limit)
    && forall e | e in h.es && e.Complete? :: IsFailure(e)
  }

  lemma Extend(c: Config, limit: nat, h: History, e: Event) returns (h': History)
    requires Outage(c, limit, h) && (e.Complete? ==> IsFailure(e))
    requires Step(c, h.Now(), |h.es|, e).Some?
    requires |Step(c, h.Now(), |h.es|, e).value.inFlight| <= limit
    ensures Outage(c, limit, h') && |h'.es| == |h.es| + 1
    ensures Some(h'.Now()) == Step(c, h.Now(), |h.es|, e)
    ensures h'.Sum() == TallyStep(h.Sum(), |h.es|, h.Now(), e, h'.Now())
    ensures h'.ss[0] == h.ss[0]
  {
    var s' := Step(c, h.Now(), |h.es|, e).value;
    h' := History(h.ss + [s'], h.es + [e], h.ts + [TallyStep(h.Sum(), |h.es|, h.Now(), e, s')]);
    assert forall k | 0 <= k < |h.es| :: h'.es[k] == h.es[k];
  }

  /** What admitting a call makes of a breaker that is due for a reset, if it is open. */
  function Probing(b: Breaker): Breaker {
    if b.phase == Open then b.(phase := HalfOpen) else b
  }

  lemma AdmitOne(c: Config, limit: nat, h: History) returns (h': History)
    requires Outage(c, limit, h) && |h.Now().inFlight| < limit
    requires h.Now().breaker.phase == Open ==> ShouldAttemptReset(c, h.Now().breaker, h.Now().now)
    ensures Outage(c, limit, h') && h'.ss[0] == h.ss[0] && h'.Now().now == h.Now().now
    ensures |h'.Now().inFlight| == |h.Now().inFlight| + 1
    ensures h'.Sum().admitted == h.Sum().admitted + 1
    ensures h'.Now().breaker == Probing(h.Now().breaker)
  {
    InvAlways(c, h.ss, h.es, |h.es|);
    assert |h.es| !in h.Now().inFlight;
    h' := Extend(c, limit, h, Admit);
  }

  lemma FailOne(c: Config, limit: nat, h: History) returns (h': History)
    requires Outage(c, limit, h) && |h.Now().inFlight| > 0
    ensures Outage(c, limit, h') && h'.ss[0] == h.ss[0] && h'.Now().now == h.Now().now
    ensures |h'.Now().inFlight| == |h.Now().inFlight| - 1
    ensures h'.Sum().admitted == h.Sum().admitted
    ensures h'.Now().breaker == RecordFailure(c, h.Now().breaker, h.Now().now)
  {
    assert h.Now().inFlight.Keys != {};
    var call :| call in h.Now().inFlight.Keys;
    RemovingOne(h.Now().inFlight, call);
    h' := Extend(c, limit, h, Complete(call, ExpectedFailure));
  }

  lemma {:induction false} Fill(c: Config, limit: nat, h: History) returns (h': History)
    requires Outage(c, limit, h)
    requires h.Now().breaker.phase == Open ==>
               |h.Now().inFlight| < limit && ShouldAttemptReset(c, h.Now().breaker, h.Now().now)
    ensures Outage(c, limit, h') && h'.ss[0] == h.ss[0] && h'.Now().now == h.Now().now
    ensures |h'.Now().inFlight| == limit
    ensures h'.Sum().admitted == h.Sum().admitted + limit - |h.Now().inFlight|
    ensures h'.Now().breaker == Probing(h.Now().breaker)
    decreases limit - |h.Now().inFlight|
  {
    assert |h.ss[|h.es|].inFlight| <= limit;
    if |h.Now().inFlight| == limit {
      h' := h;
    } else {
      h' := AdmitOne(c, limit, h);
      h' := Fill(c, limit, h');
    }
  }

  /** Every call in flight fails: the breaker is open with its last failure just now. */
  lemma {:induction false} FailAll(c: Config, limit: nat, h: History) returns (h': History)
    requires Outage(c, limit, h) && |h.Now().inFlight| > 0
    requires h.Now().breaker.failureCount + 1 >= c.threshold
    ensures Outage(c, limit, h') && h'.ss[0] == h.ss[0] && h'.Now().now == h.Now().now
    ensures |h'.Now().inFlight| == 0 && h'.Sum().admitted == h.Sum().admitted
    ensures h'.Now().breaker.phase == Open && h'.Now().breaker.lastFailure == Some(h.Now().now)
    ensures h'.Now().breaker.failureCount >= c.threshold
    decreases |h.Now().inFlight|
  {
    h' := FailOne(c, limit, h);
    if |h'.Now().inFlight| > 0 {
      h' := FailAll(c, limit, h');
    }
  }

  /** One call fails and another takes its place, until one more failure would open the breaker. */
  lemma {:induction false} UseUpThreshold(c: Config, limit: nat, h: History) returns (h': History)
    requires Outage(c, limit, h) && limit >= 1 && |h.Now().inFlight| == limit
    requires h.Now().breaker.phase == Closed && h.Now().breaker.failureCount < c.threshold
    ensures Outage(c, limit, h') && h'.ss[0] == h.ss[0] && h'.Now().now == h.Now().now
    ensures |h'.Now().inFlight| == limit && h'.Now().breaker.failureCount == c.threshold - 1
    ensures h'.Sum().admitted == h.Sum().admitted + c.threshold - 1 - h.Now().breaker.failureCount
    decreases c.threshold - h.Now().breaker.failureCount
  {
    h' := h;
    if h.Now().breaker.failureCount + 1 < c.threshold {
      h' := FailOne(c, limit, h);
      h' := AdmitOne(c, limit, h');
      h' := UseUpThreshold(c, limit, h');
    }
  }

  /** For every threshold, recovery time, limit on the calls in flight and number of recovery
      times there is an outage that lasts exactly that long and admits exactly as many calls
      as the load bound allows. */
  lemma {:induction false} BoundAttained(c: Config, limit: nat, periods: nat) returns (h: History)
    requires c.Valid() && limit >= 1
    ensures Outage(c, limit, h) && |h.Now().inFlight| == limit
    ensures h.Now().now - h.ss[0].now == Times(periods, c.recovery)
    ensures h.Now().breaker.failureCount + 1 >= c.threshold
    ensures h.Sum().admitted == c.threshold + limit - 1 + Times(periods, limit)
  {
    if periods == 0 {
      h := History([System(INITIAL, map[], 0)], [], [Tally(0, 0, 0, 0, 0)]);
      h := Fill(c, limit, h);
      h := UseUpThreshold(c, limit, h);
    } else {
      h := BoundAttained(c, limit, periods - 1);
      h := FailAll(c, limit, h);
      h := Extend(c, limit, h, Advance(c.recovery));
      h := Fill(c, limit, h);
    }
  }

  /** The bound of OutageLoadBound is the best possible one after any whole number of
      recovery times. */
  lemma BoundIsTight(c: Config, limit: nat, periods: nat)
    requires c.Valid() && limit >= 1
    ensures exists h :: Outage(c, limit, h)
                     && h.Now().now - h.ss[0].now == periods * c.recovery
                     && h.Sum().admitted == c.threshold + limit - 1 + periods * limit
  {
    var h := BoundAttained(c, limit, periods);
    TimesIsProduct(periods, c.recovery);
    TimesIsProduct(periods, limit);
    assert Outage(c, limit, h);
  }
}
