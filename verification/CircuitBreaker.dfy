/** The quote circuit breaker of one provider.

    The clock is a parameter of every method that reads it and is assumed never to go back. The log
    is ghost: it exists to say what the fields mean (see BreakerHistory). */
module CircuitBreaker {
  import opened BreakerHistory
  import opened Options

  class ProviderCircuitBreaker {
    const providerId: string
    const failureThreshold: int
    const cooldownMs: int

    var state: Position
    var consecutiveFailures: nat
    var openedAtMs: Option<int>
    var halfOpenInFlight: bool

    ghost var log: Log

    ghost function Settings(): Config {
      Config(failureThreshold, cooldownMs)
    }

    /** Each field is a function of the log, except that `state` may lag: an elapsed cooldown only
        shows once somebody asks. */
    ghost predicate Valid()
      reads this
    {
      && Ordered(log)
      && consecutiveFailures == TrailingFailures(log)
      && (state.Closed? <==> !Tripped(Settings(), log))
      && openedAtMs == (if Tripped(Settings(), log) then Some(LastFailureAt(log)) else None)
      && halfOpenInFlight == (Tripped(Settings(), log) && AllowedSinceOutcome(Settings(), log))
      && (halfOpenInFlight ==> state.HalfOpen?)
      && (state.HalfOpen? ==> CooledDown(Settings(), log, Last(log).at))
    }

    constructor (providerId: string, failureThreshold: int, cooldownMs: int)
      ensures Valid() && log == []
      ensures this.providerId == providerId
      ensures this.failureThreshold == failureThreshold && this.cooldownMs == cooldownMs
    {
      this.providerId := providerId;
      this.failureThreshold := failureThreshold;
      this.cooldownMs := cooldownMs;
      state, consecutiveFailures, openedAtMs, halfOpenInFlight := Closed, 0, None, false;
      log := [];
    }

    method AdmitCall(now: int) returns (allowed: bool)
      requires Valid() && NotBefore(log, now)
      modifies this
      ensures Valid() && log == old(log) + [Event(Admit, now)]
      ensures Admission(allowed) == AnswerTo(Settings(), old(log), Event(Admit, now))
      ensures old(state).Closed? ==> allowed
      ensures old(state).HalfOpen? ==> allowed == !old(halfOpenInFlight)
    {
      hide TrailingFailures, LastFailureAt, AllowedSinceOutcome;
      AskingAdds(Settings(), log, now);
      StateTells(now);
      MaybeEnterHalfOpen(now);
      if state == Open {
        allowed := false;
      } else if state == HalfOpen {
        if halfOpenInFlight {
          allowed := false;
        } else {
          halfOpenInFlight := true;
          allowed := true;
        }
      } else {
        allowed := true;
      }
      Append(Event(Admit, now));
    }

    /** Asked before quotes are compared: only an open breaker keeps its provider out. */
    method AllowsCandidates(now: int) returns (allowed: bool)
      requires Valid() && NotBefore(log, now)
      modifies this
      ensures Valid() && log == old(log) + [Event(Candidates, now)]
      ensures Candidacy(allowed) == AnswerTo(Settings(), old(log), Event(Candidates, now))
    {
      MaybeEnterHalfOpen(now);
      allowed := state != Open;
      Append(Event(Candidates, now));
    }

    /** `now` only dates the log entry; recording a success does not read the clock. */
    method RecordSuccess(ghost now: int)
      requires Valid() && NotBefore(log, now)
      modifies this
      ensures Valid() && log == old(log) + [Event(Success, now)]
    {
      hide LastFailureAt, CooledDown, Admits;
      consecutiveFailures := 0;
      openedAtMs := None;
      halfOpenInFlight := false;
      state := Closed;
      Append(Event(Success, now));
      assert TrailingFailures(log) == 0;
      assert !Tripped(Settings(), log);
    }

    method RecordFailure(now: int)
      requires Valid() && NotBefore(log, now)
      modifies this
      ensures Valid() && log == old(log) + [Event(Failure, now)]
    {
      hide CooledDown, Admits;
      consecutiveFailures := consecutiveFailures + 1;
      halfOpenInFlight := false;
      if state == HalfOpen || consecutiveFailures >= failureThreshold {
        Trip(now);
      }
      Append(Event(Failure, now));
      assert TrailingFailures(log) == consecutiveFailures && LastFailureAt(log) == now;
    }

    method TakeSnapshot(now: int) returns (view: View)
      requires Valid() && NotBefore(log, now)
      modifies this
      ensures Valid() && log == old(log) + [Event(Snapshot, now)]
      ensures Status(view) == AnswerTo(Settings(), old(log), Event(Snapshot, now))
    {
      MaybeEnterHalfOpen(now);
      view := View(state, consecutiveFailures, openedAtMs, Config(failureThreshold, cooldownMs));
      Append(Event(Snapshot, now));
    }

    method Trip(now: int)
      modifies this`state, this`openedAtMs
      ensures state == Open && openedAtMs == Some(now)
    {
      state := Open;
      openedAtMs := Some(now);
    }

    /** Afterwards `state` no longer lags behind the clock. */
    method MaybeEnterHalfOpen(now: int)
      requires Valid() && NotBefore(log, now)
      modifies this`state, this`halfOpenInFlight
      ensures halfOpenInFlight == old(halfOpenInFlight)
      ensures state == ViewAt(Settings(), log, now).state
    {
      if state != Open || openedAtMs == None {
        return;
      }
      if now - openedAtMs.value < cooldownMs {
        return;
      }
      state := HalfOpen;
      halfOpenInFlight := false;
    }

    ghost method Append(e: Event)
      requires NotBefore(log, e.at) && Ordered(log)
      modifies this`log
      ensures log == old(log) + [e] && Ordered(log)
      ensures Last(log) == e && Earlier(log) == old(log)
    {
      log := log + [e];
    }

    /** What the position says of the next call: closed lets it through, half-open does unless one is out. */
    lemma StateTells(now: int)
      requires Valid() && NotBefore(log, now)
      ensures state.Closed? ==> Admits(Settings(), log, now)
      ensures state.HalfOpen? ==> (Admits(Settings(), log, now) <==> !halfOpenInFlight)
    {
    }

    /** The `half_open` test in RecordFailure never decides anything: a half-open breaker has already
        counted enough failures to trip again. */
    lemma HalfOpenImpliesCount()
      requires Valid() && state.HalfOpen?
      ensures consecutiveFailures + 1 >= failureThreshold
    {
    }
  }
}
