/** How many calls one circuit breaker can let through to the exchange. */
module BreakerLoad {
  import opened Wrappers
  import opened CircuitBreaking
  import opened BreakerRuns

  /** What a run has done so far, read off its events and states. */
  datatype Tally = Tally(admitted: nat, failed: nat, others: nat, resets: nat, spells: nat)

  /** `others` counts completions that are not expected failures (resets among them) and
      `spells` the steps from OPEN to HALF_OPEN. */
  function TallyStep(t: Tally, number: nat, s: System, e: Event, s': System): Tally {
    Tally(t.admitted + (if e == Admit && number in s'.inFlight then 1 else 0),
          t.failed + (if IsFailure(e) then 1 else 0),
          t.others + (if e.Complete? && !IsFailure(e) then 1 else 0),
          t.resets + (if IsReset(s, e) then 1 else 0),
          t.spells + (if s.breaker.phase == Open && s'.breaker.phase == HalfOpen then 1 else 0))
  }

  /** `ts[k]` is the tally of the first `k` events. */
  ghost predicate IsTally(ss: seq<System>, es: seq<Event>, ts: seq<Tally>) {
    && |ss| == |ts| == |es| + 1
    && ts[0] == Tally(0, 0, 0, 0, 0)
    && forall k {:trigger es[k]} | 0 <= k < |es| :: ts[k + 1] == TallyStep(ts[k], k, ss[k], es[k], ss[k + 1])
  }

  ghost predicate AtMostInFlight(ss: seq<System>, limit: nat) {
    forall k | 0 <= k < |ss| :: |ss[k].inFlight| <= limit
  }

  /** n * x, unfolded one spell at a time. */
  function Times(n: nat, x: int): int {
    if n == 0 then 0 else Times(n - 1, x) + x
  }

  lemma {:induction false} TimesIsProduct(n: nat, x: int)
    ensures Times(n, x) == n * x
  {
    if n > 0 {
      TimesIsProduct(n - 1, x);
      assert n * x == (n - 1) * x + x;
    }
  }

  /** The accounting invariant: nothing is lost, and in each phase the failures (in OPEN
      together with the calls in flight) stay within what the spells so far allow. */
  ghost predicate Accounts(c: Config, limit: nat, s: System, t: Tally) {
    var burst := c.threshold + limit - 1;
    && t.admitted == t.failed + t.others + |s.inFlight|
    && (match s.breaker.phase
        case Closed =>
          t.failed <= Times(t.resets, burst) + Times(t.spells, limit) + s.breaker.failureCount
        case Open =>
          t.failed + |s.inFlight| <= Times(t.resets + 1, burst) + Times(t.spells, limit)
        case HalfOpen =>
          t.spells >= 1 && t.failed <= Times(t.resets + 1, burst) + Times(t.spells - 1, limit))
  }

  /** Half-open spells begin at least a recovery time apart. */
  ghost predicate Paced(c: Config, start: int, s: System, t: Tally) {
    && start + Times(t.spells, c.recovery) <= s.now
    && (s.breaker.phase == Open ==>
          s.breaker.lastFailure.Some? && start + Times(t.spells, c.recovery) <= s.breaker.lastFailure.value)
  }

  lemma {:induction false} AccountsAlways(
      c: Config, limit: nat, ss: seq<System>, es: seq<Event>, ts: seq<Tally>, k: nat)
    requires IsRun(c, ss, es) && IsTally(ss, es, ts) && k <= |es| && AtMostInFlight(ss, limit)
    ensures Accounts(c, limit, ss[k], ts[k])
  {
    if k > 0 {
      AccountsAlways(c, limit, ss, es, ts, k - 1);
      InvAlways(c, ss, es, k - 1);
      AccountsStep(c, limit, k - 1, ss[k - 1], es[k - 1], ss[k], ts[k - 1]);
    }
  }

  lemma AccountsStep(c: Config, limit: nat, number: nat, s: System, e: Event, s': System, t: Tally)
    requires c.Valid() && Step(c, s, number, e) == Some(s')
    requires |s.inFlight| <= limit && |s'.inFlight| <= limit
    requires Inv(c, s, number) && Accounts(c, limit, s, t)
    ensures Accounts(c, limit, s', TallyStep(t, number, s, e, s'))
  {
    if e.Complete? {
      RemovingOne(s.inFlight, e.call);
    }
  }

  lemma RemovingOne<K, V>(m: map<K, V>, key: K)
    requires key in m
    ensures |m - {key}| == |m| - 1
  {
    assert (m - {key}).Keys == m.Keys - {key};
  }

  lemma {:induction false} PacedAlways(c: Config, ss: seq<System>, es: seq<Event>, ts: seq<Tally>, k: nat)
    requires IsRun(c, ss, es) && IsTally(ss, es, ts) && k <= |es|
    ensures Paced(c, ss[0].now, ss[k], ts[k])
  {
    if k > 0 {
      PacedAlways(c, ss, es, ts, k - 1);
      InvAlways(c, ss, es, k - 1);
      assert Step(c, ss[k - 1], k - 1, es[k - 1]) == Some(ss[k]);
    }
  }

  /** threshold + limit - 1 calls for each closed spell (one more than there were resets) and
      `limit` for each full recovery time. */
  function Bound(c: Config, limit: nat, resets: nat, elapsed: nat): int
    requires c.Valid()
  {
    Times(resets + 1, c.threshold + limit - 1) + Times(elapsed / c.recovery, limit)
  }

  lemma BoundInClosedForm(c: Config, limit: nat, resets: nat, elapsed: nat)
    requires c.Valid()
    ensures Bound(c, limit, resets, elapsed)
         == (resets + 1) * (c.threshold + limit - 1) + elapsed / c.recovery * limit
  {
    TimesIsProduct(resets + 1, c.threshold + limit - 1);
    TimesIsProduct(elapsed / c.recovery, limit);
  }

  /** The load bound, for every run: with at most `limit` calls in flight, the calls admitted
      by state `k` exceed the bound by at most the number of completions that were not
      expected failures. */
  lemma LoadBound(c: Config, limit: nat, ss: seq<System>, es: seq<Event>, ts: seq<Tally>, k: nat)
    requires IsRun(c, ss, es) && IsTally(ss, es, ts) && k <= |es| && AtMostInFlight(ss, limit)
    ensures ss[0].now <= ss[k].now
    ensures
      var t := ts[k];
      t.admitted <= Bound(c, limit, t.resets, ss[k].now - ss[0].now) + t.others
  {
    AccountsAlways(c, limit, ss, es, ts, k);
    PacedAlways(c, ss, es, ts, k);
    InvAlways(c, ss, es, k);
    ClockNeverRunsBack(c, ss, es, 0, k);
    assert |ss[k].inFlight| <= limit;
    BoundAt(c, limit, ss[0].now, ss[k], ts[k]);
  }

  lemma BoundAt(c: Config, limit: nat, start: int, s: System, t: Tally)
    requires c.Valid() && start <= s.now && |s.inFlight| <= limit
    requires s.breaker.phase == Closed ==> s.breaker.failureCount < c.threshold
    requires Accounts(c, limit, s, t) && Paced(c, start, s, t)
    ensures t.admitted <= Bound(c, limit, t.resets, s.now - start) + t.others
  {
    SpellsFit(t.spells, c.recovery, s.now - start);
    TimesGrows(t.spells, (s.now - start) / c.recovery, limit);
  }

  lemma SpellsFit(spells: nat, recovery: nat, elapsed: nat)
    requires recovery >= 1 && Times(spells, recovery) <= elapsed
    ensures spells <= elapsed / recovery
  {
    var periods := elapsed / recovery;
    TimesIsProduct(periods + 1, recovery);
    if periods + 1 <= spells {
      TimesGrows(periods + 1, spells, recovery);
    }
  }

  lemma {:induction false} TimesGrows(n: nat, n': nat, x: nat)
    requires n <= n'
    ensures Times(n, x) <= Times(n', x)
  {
    if n < n' {
      TimesGrows(n, n' - 1, x);
    }
  }

  /** The outage case: if every completed call failed, at most
      threshold + limit - 1 + limit * floor(elapsed / recovery) calls were let through. */
  lemma OutageLoadBound(c: Config, limit: nat, ss: seq<System>, es: seq<Event>, ts: seq<Tally>)
    requires IsRun(c, ss, es) && IsTally(ss, es, ts) && AtMostInFlight(ss, limit)
    requires forall e | e in es && e.Complete? :: IsFailure(e)
    ensures
      var elapsed := ss[|es|].now - ss[0].now;
      ts[|es|].admitted <= c.threshold + limit - 1 + elapsed / c.recovery * limit
  {
    OnlyFailures(ss, es, ts, |es|);
    LoadBound(c, limit, ss, es, ts, |es|);
    BoundInClosedForm(c, limit, 0, ss[|es|].now - ss[0].now);
  }

  lemma {:induction false} OnlyFailures(ss: seq<System>, es: seq<Event>, ts: seq<Tally>, k: nat)
    requires IsTally(ss, es, ts) && k <= |es|
    requires forall e | e in es && e.Complete? :: IsFailure(e)
    ensures ts[k].others == 0 && ts[k].resets == 0
  {
    if k > 0 {
      OnlyFailures(ss, es, ts, k - 1);
      assert es[k - 1] in es;
    }
  }
}
