/** The circuit breaker in front of the exchange client: its three-state logic as functions
    on a record, and the class whose methods update the fields in place.

    `call` awaits its function without holding the lock, so one call is two atomic steps:
    the admission (which records the state the call was admitted in) and the completion. */
module CircuitBreaking {
  import opened Wrappers

  datatype Phase = Closed | Open | HalfOpen

  /** `threshold` counts failures, `recovery` is a duration in clock ticks. */
  datatype Config = Config(threshold: nat, recovery: nat)
  {
    /** The lower bounds the settings put on both numbers. */
    predicate Valid() {
      threshold >= 1 && recovery >= 1
    }
  }

  datatype Breaker = Breaker(phase: Phase, failureCount: nat, lastFailure: Option<int>)

  /** How the protected function ends: it returns, it raises the exception the breaker
      counts, or it raises anything else (which the breaker does not see). */
  datatype Outcome = Returned | ExpectedFailure | OtherException

  datatype Admission = Rejected | Admitted(snapshot: Phase)

  const INITIAL := Breaker(Closed, 0, None)

  predicate ShouldAttemptReset(c: Config, b: Breaker, now: int) {
    match b.lastFailure
    case None => false
    case Some(t) => now - t >= c.recovery
  }

  function AdmitCall(c: Config, b: Breaker, now: int): (Breaker, Admission) {
    if b.phase == Open then
      if ShouldAttemptReset(c, b, now) then (b.(phase := HalfOpen), Admitted(HalfOpen))
      else (b, Rejected)
    else (b, Admitted(b.phase))
  }

  function RecordSuccess(b: Breaker): Breaker {
    b.(failureCount := 0, phase := Closed)
  }

  function RecordFailure(c: Config, b: Breaker, now: int): Breaker {
    var counted := b.(failureCount := b.failureCount + 1, lastFailure := Some(now));
    if counted.failureCount >= c.threshold then counted.(phase := Open) else counted
  }

  function CompleteCall(c: Config, b: Breaker, snapshot: Phase, outcome: Outcome, now: int): Breaker {
    match outcome
    case Returned => if snapshot == HalfOpen then RecordSuccess(b) else b
    case ExpectedFailure => RecordFailure(c, b, now)
    case OtherException => b
  }

  class CircuitBreaker {
    const config: Config
    var failureCount: nat
    var lastFailureTime: Option<int>
    var state: Phase

    ghost function View(): Breaker
      reads this
    {
      Breaker(state, failureCount, lastFailureTime)
    }

    constructor (config: Config)
      ensures View() == INITIAL && this.config == config
    {
      this.config := config;
      failureCount := 0;
      lastFailureTime := None;
      state := Closed;
    }

    /** The part of `call` before the protected function runs. */
    method Admit(now: int) returns (admission: Admission)
      modifies this
      ensures (View(), admission) == AdmitCall(config, old(View()), now)
      ensures admission.Rejected? <==>
                old(state) == Open && !(lastFailureTime.Some? && now - lastFailureTime.value >= config.recovery)
      ensures admission.Admitted? ==> admission.snapshot == state
      ensures state == if admission.Admitted? && old(state) == Open then HalfOpen else old(state)
      ensures failureCount == old(failureCount) && lastFailureTime == old(lastFailureTime)
    {
      if state == Open {
        var attempt := AttemptReset(now);
        if attempt {
          state := HalfOpen;
        } else {
          return Rejected;
        }
      }
      admission := Admitted(state);
    }

    method AttemptReset(now: int) returns (attempt: bool)
      ensures attempt == ShouldAttemptReset(config, View(), now)
      ensures attempt <==> lastFailureTime.Some? && now - lastFailureTime.value >= config.recovery
    {
      if lastFailureTime == None {
        return false;
      }
      return now - lastFailureTime.value >= config.recovery;
    }

    method OnSuccess()
      modifies this
      ensures View() == RecordSuccess(old(View()))
      ensures failureCount == 0 && state == Closed && lastFailureTime == old(lastFailureTime)
    {
      failureCount := 0;
      state := Closed;
    }

    method OnFailure(now: int)
      modifies this
      ensures View() == RecordFailure(config, old(View()), now)
      ensures failureCount == old(failureCount) + 1 && lastFailureTime == Some(now)
      ensures state == if failureCount >= config.threshold then Open else old(state)
    {
      failureCount := failureCount + 1;
      lastFailureTime := Some(now);
      if failureCount >= config.threshold {
        state := Open;
      }
    }

    /** The part of `call` after the protected function ended; `now` is read under the lock. */
    method Complete(snapshot: Phase, outcome: Outcome, now: int)
      modifies this
      ensures View() == CompleteCall(config, old(View()), snapshot, outcome, now)
      ensures state != old(state) ==>
                (state == Closed && outcome == Returned && snapshot == HalfOpen)
                || (state == Open && outcome == ExpectedFailure && failureCount >= config.threshold)
      ensures outcome == Returned && snapshot == HalfOpen ==> state == Closed && failureCount == 0
      ensures outcome == ExpectedFailure ==> failureCount == old(failureCount) + 1 && lastFailureTime == Some(now)
      ensures outcome == OtherException || (outcome == Returned && snapshot != HalfOpen) ==> View() == old(View())
    {
      match outcome {
        case Returned =>
          if snapshot == HalfOpen {
            OnSuccess();
          }
        case ExpectedFailure =>
          OnFailure(now);
        case OtherException =>
      }
    }
  }
}
