/** What a circuit breaker's event log says about it, with no reference to the breaker's fields.

    The class in CircuitBreaker.dfy keeps four mutable fields and moves time lazily, inside its
    queries. Here the same answers are defined directly from the log of calls, and the facts a
    reader wants over a whole run are proved about those definitions. */
module BreakerHistory {
  import opened Arithmetic
  import opened Options

  datatype Kind = Admit | Candidates | Snapshot | Success | Failure

  /** One call on the breaker and the clock reading it happened at. */
  datatype Event = Event(kind: Kind, at: int)

  type Log = seq<Event>

  datatype Config = Config(failureThreshold: int, cooldownMs: int)

  datatype Position = Closed | Open | HalfOpen

  /** The public snapshot, with `openedAt` as the millisecond count behind the ISO string. */
  datatype View = View(state: Position, consecutiveFailures: nat, openedAt: Option<int>, config: Config)

  datatype Answer = Admission(allowed: bool) | Candidacy(allowed: bool) | Status(view: View) | Recorded

  function Last(log: Log): Event
    requires log != []
  {
    log[|log| - 1]
  }

  function Earlier(log: Log): Log
    requires log != []
  {
    log[..|log| - 1]
  }

  /** The clock never goes back. */
  ghost predicate Ordered(log: Log) {
    forall i, j :: 0 <= i < j < |log| ==> log[i].at <= log[j].at
  }

  predicate NotBefore(log: Log, now: int) {
    log != [] ==> Last(log).at <= now
  }

  /** Failures recorded since the last success. */
  function TrailingFailures(log: Log): nat {
    if log == [] then 0
    else match Last(log).kind
      case Success => 0
      case Failure => TrailingFailures(Earlier(log)) + 1
      case _ => TrailingFailures(Earlier(log))
  }

  function LastFailureAt(log: Log): int
    requires TrailingFailures(log) > 0
  {
    if Last(log).kind.Failure? then Last(log).at else LastFailureAt(Earlier(log))
  }

  /** A threshold below one trips on the first failure, exactly as a threshold of one does. */
  predicate Tripped(c: Config, log: Log) {
    TrailingFailures(log) > 0 && TrailingFailures(log) >= c.failureThreshold
  }

  predicate CooledDown(c: Config, log: Log, now: int)
    requires Tripped(c, log)
  {
    now - LastFailureAt(log) >= c.cooldownMs
  }

  /** A call is allowed when the breaker is not tripped, or when the cooldown has passed since the
      last failure and no call has been allowed since that failure. */
  predicate Admits(c: Config, log: Log, now: int)
    decreases |log|, 1
  {
    !Tripped(c, log) || (CooledDown(c, log, now) && !AllowedSinceOutcome(c, log))
  }

  /** Some call was allowed after the last recorded success or failure. */
  predicate AllowedSinceOutcome(c: Config, log: Log)
    decreases |log|, 0
  {
    if log == [] then false
    else match Last(log).kind
      case Success => false
      case Failure => false
      case Admit => Admits(c, Earlier(log), Last(log).at) || AllowedSinceOutcome(c, Earlier(log))
      case _ => AllowedSinceOutcome(c, Earlier(log))
  }

  /** Asking changes at most whether a call was allowed since the last outcome. */
  lemma AskingAdds(c: Config, log: Log, now: int)
    ensures var l := log + [Event(Admit, now)];
            && TrailingFailures(l) == TrailingFailures(log) && (TrailingFailures(log) > 0 ==> log != [])
            && (TrailingFailures(log) > 0 ==> LastFailureAt(l) == LastFailureAt(log))
            && (AllowedSinceOutcome(c, l) <==> Admits(c, log, now) || AllowedSinceOutcome(c, log))
  {
    var l := log + [Event(Admit, now)];
    assert Earlier(l) == log && Last(l) == Event(Admit, now);
  }

  function ViewAt(c: Config, log: Log, now: int): View {
    if !Tripped(c, log) then View(Closed, TrailingFailures(log), None, c)
    else View(if CooledDown(c, log, now) then HalfOpen else Open,
              TrailingFailures(log), Some(LastFailureAt(log)), c)
  }

  /** The answer to the next call `e` after `log`. */
  function AnswerTo(c: Config, log: Log, e: Event): Answer {
    match e.kind
    case Admit => Admission(Admits(c, log, e.at))
    case Candidates => Candidacy(!Tripped(c, log) || CooledDown(c, log, e.at))
    case Snapshot => Status(ViewAt(c, log, e.at))
    case _ => Recorded
  }

  // ---------------------------------------------------------------- observers change nothing

  /** The log without the calls that only look. */
  function WithoutObservers(log: Log): Log {
    if log == [] then []
    else if Last(log).kind in {Candidates, Snapshot} then WithoutObservers(Earlier(log))
    else WithoutObservers(Earlier(log)) + [Last(log)]
  }

  lemma {:induction false} ObserversLeaveNoTrace(c: Config, log: Log)
    ensures TrailingFailures(WithoutObservers(log)) == TrailingFailures(log)
    ensures TrailingFailures(log) > 0 ==> LastFailureAt(WithoutObservers(log)) == LastFailureAt(log)
    ensures AllowedSinceOutcome(c, WithoutObservers(log)) == AllowedSinceOutcome(c, log)
    decreases |log|
  {
    if log != [] {
      ObserversLeaveNoTrace(c, Earlier(log));
      if Last(log).kind !in {Candidates, Snapshot} {
        var kept := WithoutObservers(Earlier(log));
        assert Earlier(kept + [Last(log)]) == kept;
      }
    }
  }

  /** Two runs that differ only in how often, and when, someone looked are indistinguishable to
      every later call. */
  lemma ObserverTransparency(c: Config, log: Log, other: Log, e: Event)
    requires WithoutObservers(log) == WithoutObservers(other)
    ensures AnswerTo(c, log, e) == AnswerTo(c, other, e)
  {
    ObserversLeaveNoTrace(c, log);
    ObserversLeaveNoTrace(c, other);
  }

  // ---------------------------------------------------------------- the answers, by counting

  /** Failures recorded among events `from`, ..., `until - 1`. */
  function FailuresIn(log: Log, from: nat, until: nat): nat
    requires from <= until <= |log|
  {
    if from == until then 0 else FailuresIn(log, from, until - 1) + (if log[until - 1].kind.Failure? then 1 else 0)
  }

  ghost predicate NoSuccess(log: Log, from: nat, until: nat)
    requires from <= until <= |log|
  {
    forall i :: from <= i < until ==> !log[i].kind.Success?
  }

  /** Position `from` is where the log starts, or starts again after the last success before `until`. */
  ghost predicate SinceSuccess(log: Log, from: nat, until: nat) {
    from <= until <= |log| && (from == 0 || log[from - 1].kind.Success?) && NoSuccess(log, from, until)
  }

  /** The last outcome before `until` is the failure at `f`. */
  ghost predicate LastFailure(log: Log, f: nat, until: nat) {
    && f < until <= |log| && log[f].kind.Failure?
    && forall i :: f < i < until ==> !log[i].kind.Failure? && !log[i].kind.Success?
  }

  predicate BelowThreshold(c: Config, failures: nat) {
    failures == 0 || failures < c.failureThreshold
  }

  lemma {:induction false} FailuresCounted(log: Log, from: nat, until: nat)
    requires SinceSuccess(log, from, until)
    ensures TrailingFailures(log[..until]) == FailuresIn(log, from, until)
    decreases until
  {
    if until > 0 {
      var l := log[..until];
      assert Earlier(l) == log[..until - 1] && Last(l) == log[until - 1];
      if from < until {
        FailuresCounted(log, from, until - 1);
      }
    }
  }

  lemma {:induction false} LastFailureFound(c: Config, log: Log, f: nat, until: nat)
    requires LastFailure(log, f, until)
    ensures TrailingFailures(log[..until]) > 0 && LastFailureAt(log[..until]) == log[f].at
    decreases until
  {
    var l := log[..until];
    assert Earlier(l) == log[..until - 1] && Last(l) == log[until - 1];
    if f < until - 1 {
      LastFailureFound(c, log, f, until - 1);
    }
  }

  /** Below the threshold every call is let through, whatever else has happened. */
  lemma UntrippedAdmits(c: Config, log: Log, from: nat, i: nat)
    requires SinceSuccess(log, from, i) && i < |log| && log[i].kind.Admit?
    requires BelowThreshold(c, FailuresIn(log, from, i))
    ensures AllowedAt(c, log, i)
  {
    FailuresCounted(log, from, i);
  }

  /** At the threshold, the one call let through is the first that asks once the cooldown has passed since
      the last failure. */
  lemma TrippedAdmits(c: Config, log: Log, from: nat, f: nat, i: nat)
    requires SinceSuccess(log, from, i) && from <= f && LastFailure(log, f, i) && i < |log| && log[i].kind.Admit?
    requires !BelowThreshold(c, FailuresIn(log, from, i))
    ensures AllowedAt(c, log, i) <==>
            && log[i].at - log[f].at >= c.cooldownMs
            && forall j :: f < j < i && log[j].kind.Admit? ==> log[j].at - log[f].at < c.cooldownMs
  {
    FailuresCounted(log, from, i);
    LastFailureFound(c, log, f, i);
    FirstSinceCooldown(c, log, f, i);
  }

  lemma {:induction false} FirstSinceCooldown(c: Config, log: Log, f: nat, until: nat)
    requires LastFailure(log, f, until) && Tripped(c, log[..until])
    ensures AllowedSinceOutcome(c, log[..until]) <==>
            exists j :: f < j < until && log[j].kind.Admit? && log[j].at - log[f].at >= c.cooldownMs
    decreases until
  {
    var l := log[..until];
    assert Earlier(l) == log[..until - 1] && Last(l) == log[until - 1];
    if f < until - 1 {
      FirstSinceCooldown(c, log, f, until - 1);
      LastFailureFound(c, log, f, until - 1);
    }
  }

  /** What candidacy and the snapshot say, by the same count: the cooldown alone decides both. */
  lemma LooksTell(c: Config, log: Log, from: nat, f: nat, now: int)
    requires SinceSuccess(log, from, |log|)
    requires !BelowThreshold(c, FailuresIn(log, from, |log|)) ==> from <= f && LastFailure(log, f, |log|)
    ensures var failures := FailuresIn(log, from, |log|);
            if BelowThreshold(c, failures) then
              && AnswerTo(c, log, Event(Candidates, now)) == Candidacy(true)
              && AnswerTo(c, log, Event(Snapshot, now)) == Status(View(Closed, failures, None, c))
            else
              var cooled := now - log[f].at >= c.cooldownMs;
              && AnswerTo(c, log, Event(Candidates, now)) == Candidacy(cooled)
              && AnswerTo(c, log, Event(Snapshot, now)) ==
                 Status(View(if cooled then HalfOpen else Open, failures, Some(log[f].at), c))
  {
    FailuresCounted(log, from, |log|);
    assert log[..|log|] == log;
    if !BelowThreshold(c, FailuresIn(log, from, |log|)) {
      LastFailureFound(c, log, f, |log|);
    }
  }

  /** Candidacy is refused only while no call at all would be let through. */
  lemma RefusedCandidacyAdmitsNone(c: Config, log: Log, now: int)
    requires AnswerTo(c, log, Event(Candidates, now)) == Candidacy(false)
    ensures AnswerTo(c, log, Event(Admit, now)) == Admission(false)
  {
  }

  // ---------------------------------------------------------------- probe spacing

  predicate AllowedAt(c: Config, log: Log, i: nat)
    requires i < |log|
  {
    log[i].kind.Admit? && Admits(c, log[..i], log[i].at)
  }

  /** How many calls the breaker let through among events `from`, ..., `until - 1`. */
  function AllowedCalls(c: Config, log: Log, from: nat, until: nat): nat
    requires from <= until <= |log|
  {
    if from == until then 0
    else AllowedCalls(c, log, from, until - 1) + (if AllowedAt(c, log, until - 1) then 1 else 0)
  }

  /** With every coming event at `now` or later, the next call to get through after `log` cannot come
      before `base` plus one cooldown. */
  ghost predicate HeldUntil(c: Config, log: Log, base: int, now: int)
  {
    && Tripped(c, log)
    && base <= now
    && (!AllowedSinceOutcome(c, log) ==> base <= LastFailureAt(log))
  }

  lemma HoldStep(c: Config, log: Log, e: Event, base: int, now: int)
    requires HeldUntil(c, log, base, now) && now <= e.at && !e.kind.Success?
    ensures HeldUntil(c, log + [e],
              if e.kind.Admit? && Admits(c, log, e.at) then base + c.cooldownMs else base, e.at)
  {
    assert Earlier(log + [e]) == log && Last(log + [e]) == e;
  }

  /** The time of the last event before position `until`, or `now` when there is none since `from`. */
  function Clock(log: Log, from: nat, until: nat, now: int): int
    requires from <= until <= |log|
  {
    if from < until then log[until - 1].at else now
  }

  /** Every allowed call moves the holding point on by a whole cooldown; late failures never move
      it back. */
  lemma {:induction false} HoldAdvances(c: Config, log: Log, from: nat, until: nat, base: int, now: int)
    requires Ordered(log) && from <= until <= |log|
    requires HeldUntil(c, log[..from], base, now) && (from < |log| ==> now <= log[from].at)
    requires NoSuccess(log, from, until)
    ensures HeldUntil(c, log[..until], base + AllowedCalls(c, log, from, until) * c.cooldownMs,
              Clock(log, from, until, now))
    decreases until - from
  {
    if from < until {
      HoldAdvances(c, log, from, until - 1, base, now);
      var n := AllowedCalls(c, log, from, until - 1);
      assert (n + 1) * c.cooldownMs == n * c.cooldownMs + c.cooldownMs;
      HoldStep(c, log[..until - 1], log[until - 1], base + n * c.cooldownMs, Clock(log, from, until - 1, now));
      assert log[..until] == log[..until - 1] + [log[until - 1]];
    }
  }

  lemma FailureHolds(c: Config, log: Log, trip: nat)
    requires trip < |log| && log[trip].kind.Failure? && Tripped(c, log[..trip + 1])
    ensures HeldUntil(c, log[..trip + 1], log[trip].at, log[trip].at)
  {
    assert Last(log[..trip + 1]) == log[trip];
  }

  /** After a trip at t0, and until the next recorded success, the N-th call let through comes no
      earlier than t0 + N * cooldown, whatever failures are still being reported. */
  lemma ProbeSpacing(c: Config, log: Log, trip: nat, i: nat)
    requires Ordered(log) && trip < i < |log|
    requires log[trip].kind.Failure? && Tripped(c, log[..trip + 1])
    requires NoSuccess(log, trip + 1, i) && AllowedAt(c, log, i)
    ensures log[i].at >= log[trip].at + AllowedCalls(c, log, trip + 1, i + 1) * c.cooldownMs
  {
    FailureHolds(c, log, trip);
    assert NoSuccess(log, trip + 1, i + 1);
    hide Tripped, AllowedAt, AllowedCalls, AllowedSinceOutcome, LastFailureAt, NoSuccess;
    HoldAdvances(c, log, trip + 1, i + 1, log[trip].at, log[trip].at);
    assert Clock(log, trip + 1, i + 1, log[trip].at) == log[i].at;
  }

  // ---------------------------------------------------------------- windows

  /** `more` continues `log` without a success, inside a window of width `width` opening at `s`. */
  ghost predicate InWindow(log: Log, more: Log, s: int, width: nat) {
    && Ordered(log + more)
    && forall i :: 0 <= i < |more| ==> s <= more[i].at <= s + width && !more[i].kind.Success?
  }

  function AllowedIn(c: Config, log: Log, more: Log): nat {
    AllowedCalls(c, log + more, |log|, |log + more|)
  }

  ghost predicate WindowsHoldQuotient(c: Config, log: Log, s: int)
    requires c.cooldownMs > 0
  {
    forall more: Log, width: nat :: InWindow(log, more, s, width) ==> AllowedIn(c, log, more) <= width / c.cooldownMs
  }

  /** The window opens on a tripped breaker that has a call out since its last failure, or failed at
      that very moment: then it holds at most floor(W / cooldown) calls. */
  lemma HeldWindow(c: Config, log: Log, more: Log, s: int, width: nat)
    requires Tripped(c, log) && NotBefore(log, s) && c.cooldownMs > 0
    requires AllowedSinceOutcome(c, log) || LastFailureAt(log) >= s
    requires InWindow(log, more, s, width)
    ensures AllowedIn(c, log, more) <= width / c.cooldownMs
  {
    var all := log + more;
    assert all[..|log|] == log;
    HoldAdvances(c, all, |log|, |all|, s, s);
    DivAtLeast(AllowedIn(c, log, more), c.cooldownMs, width);
  }

  /** Otherwise a call can be let through before a whole cooldown of the window has passed. */
  lemma OpenWindow(c: Config, log: Log, s: int) returns (more: Log, width: nat)
    requires Tripped(c, log) && Ordered(log) && NotBefore(log, s) && c.cooldownMs > 0
    requires !AllowedSinceOutcome(c, log) && LastFailureAt(log) < s
    ensures InWindow(log, more, s, width) && width < c.cooldownMs
    ensures AllowedIn(c, log, more) == 1
  {
    var free := LastFailureAt(log) + c.cooldownMs;
    var at := if free < s then s else free;
    more, width := [Event(Admit, at)], at - s;
    AllowedNext(c, log, at);
  }

  lemma AllowedNext(c: Config, log: Log, at: int)
    ensures AllowedIn(c, log, [Event(Admit, at)]) == if Admits(c, log, at) then 1 else 0
  {
    var all := log + [Event(Admit, at)];
    assert all[..|log|] == log && all[|log|] == Event(Admit, at);
    assert AllowedCalls(c, all, |log|, |log|) == 0;
  }

  /** Exactly when windows opening at `s` hold at most floor(W / cooldown) calls, for every width and
      every way the run can go on without a success. */
  lemma WindowBoundExact(c: Config, log: Log, s: int)
    requires Tripped(c, log) && Ordered(log) && NotBefore(log, s) && c.cooldownMs > 0
    ensures WindowsHoldQuotient(c, log, s) <==> AllowedSinceOutcome(c, log) || LastFailureAt(log) >= s
  {
    if AllowedSinceOutcome(c, log) || LastFailureAt(log) >= s {
      forall more: Log, width: nat | InWindow(log, more, s, width)
        ensures AllowedIn(c, log, more) <= width / c.cooldownMs
      {
        HeldWindow(c, log, more, s, width);
      }
    } else {
      var more, width := OpenWindow(c, log, s);
      assert width / c.cooldownMs == 0;
    }
  }

  /** A window that opens with the trip is such a window. */
  lemma ProbesAfterTrip(c: Config, log: Log, more: Log, width: nat)
    requires log != [] && Last(log).kind.Failure? && Tripped(c, log) && c.cooldownMs > 0
    requires InWindow(log, more, Last(log).at, width)
    ensures AllowedIn(c, log, more) <= width / c.cooldownMs
  {
    HeldWindow(c, log, more, Last(log).at, width);
  }

  /** Wherever it opens while the breaker stays tripped, a window holds at most one call more. */
  lemma {:induction false} ProbesInAnyWindow(c: Config, log: Log, more: Log, s: int, width: nat)
    requires Tripped(c, log) && c.cooldownMs > 0 && InWindow(log, more, s, width)
    ensures AllowedIn(c, log, more) <= width / c.cooldownMs + 1
    decreases |more|
  {
    hide Tripped, InWindow, Admits, AllowedCalls, AllowedSinceOutcome;
    DivAtLeast(0, c.cooldownMs, width);
    if more == [] {
      NoneInNothing(c, log);
    } else {
      FirstOfWindow(c, log, more, s, width);
      if Admits(c, log, more[0].at) && more[0].kind.Admit? {
        HeldWindow(c, log + [more[0]], more[1..], more[0].at, width);
      } else {
        ProbesInAnyWindow(c, log + [more[0]], more[1..], s, width);
      }
    }
  }

  lemma NoneInNothing(c: Config, log: Log)
    ensures AllowedIn(c, log, []) == 0
  {
  }

  lemma FirstOfWindow(c: Config, log: Log, more: Log, s: int, width: nat)
    requires more != [] && Tripped(c, log) && InWindow(log, more, s, width)
    ensures var next, rest, allowed := log + [more[0]], more[1..], more[0].kind.Admit? && Admits(c, log, more[0].at);
            && Tripped(c, next) && NotBefore(next, more[0].at)
            && InWindow(next, rest, s, width) && InWindow(next, rest, more[0].at, width)
            && (allowed ==> AllowedSinceOutcome(c, next))
            && AllowedIn(c, log, more) == (if allowed then 1 else 0) + AllowedIn(c, next, rest)
  {
    var next, all := log + [more[0]], log + more;
    assert Earlier(next) == log && Last(next) == more[0];
    assert next + more[1..] == all;
    assert all[..|log|] == log && all[|log|] == more[0];
    forall i | 0 <= i < |more| ensures more[0].at <= more[i].at {
      assert all[|log|] == more[0] && all[|log| + i] == more[i];
    }
    AllowedCallsSplit(c, all, |log|, |log| + 1, |all|);
    AllowedCallsOne(c, all, |log|);
  }

  lemma AllowedCallsOne(c: Config, log: Log, i: nat)
    requires i < |log|
    ensures AllowedCalls(c, log, i, i + 1) == if AllowedAt(c, log, i) then 1 else 0
  {
    assert AllowedCalls(c, log, i, i) == 0;
  }

  /** Every `period` from `s` on, `n + 1` times in all: a call that fails at once. */
  function FailingProbes(s: int, period: nat, n: nat): Log {
    if n == 0 then ProbeAt(s) else FailingProbes(s, period, n - 1) + ProbeAt(s + n * period)
  }

  function ProbeAt(at: int): Log {
    [Event(Admit, at), Event(Failure, at)]
  }

  ghost predicate Between(log: Log, s: int, end: int) {
    Ordered(log) && forall i :: 0 <= i < |log| ==> s <= log[i].at <= end && !log[i].kind.Success?
  }

  lemma BetweenAppend(log: Log, pair: Log, s: int, end: int, at: int)
    requires Between(log, s, end) && Between(pair, at, at) && s <= end <= at
    ensures Between(log + pair, s, at)
  {
  }

  lemma {:induction false} FailingProbesOrdered(s: int, period: nat, n: nat)
    ensures Between(FailingProbes(s, period, n), s, s + n * period)
  {
    hide Between;
    PairBetween(s + n * period);
    if n == 0 {
      assert FailingProbes(s, period, 0) == ProbeAt(s);
    } else {
      FailingProbesOrdered(s, period, n - 1);
      OneMore(n, period);
      BetweenAppend(FailingProbes(s, period, n - 1), ProbeAt(s + n * period), s, s + (n - 1) * period, s + n * period);
    }
  }

  lemma PairBetween(at: int)
    ensures Between(ProbeAt(at), at, at)
  {
  }

  lemma FailingProbesInWindow(log: Log, s: int, period: nat, n: nat, width: nat)
    requires Ordered(log) && NotBefore(log, s) && n * period <= width
    ensures InWindow(log, FailingProbes(s, period, n), s, width)
  {
    FailingProbesOrdered(s, period, n);
    OrderedConcat(log, FailingProbes(s, period, n), s);
  }

  lemma OrderedConcat(log: Log, more: Log, now: int)
    requires Ordered(log) && Ordered(more) && NotBefore(log, now)
    requires forall i :: 0 <= i < |more| ==> now <= more[i].at
    ensures Ordered(log + more)
  {
    forall i, j | 0 <= i < j < |log + more| ensures (log + more)[i].at <= (log + more)[j].at {
      if i < |log| <= j {
        assert log[i].at <= Last(log).at && now <= more[j - |log|].at;
      }
    }
  }

  lemma {:induction false} FailingProbesAllowed(c: Config, log: Log, s: int, n: nat)
    requires Tripped(c, log) && c.cooldownMs > 0 && CooledDown(c, log, s) && !AllowedSinceOutcome(c, log)
    ensures var more := FailingProbes(s, c.cooldownMs, n);
            && AllowedIn(c, log, more) == n + 1
            && Tripped(c, log + more) && !AllowedSinceOutcome(c, log + more)
            && LastFailureAt(log + more) == s + n * c.cooldownMs
  {
    if n == 0 {
      assert log + [] == log && [] + ProbeAt(s) == ProbeAt(s);
      NoneInNothing(c, log);
      FailingProbeAllowed(c, log, [], s);
    } else {
      FailingProbesAllowed(c, log, s, n - 1);
      OneMore(n, c.cooldownMs);
      FailingProbeAllowed(c, log, FailingProbes(s, c.cooldownMs, n - 1), s + n * c.cooldownMs);
    }
  }

  lemma FailingProbeAllowed(c: Config, log: Log, before: Log, at: int)
    requires Tripped(c, log + before) && Admits(c, log + before, at)
    ensures var more := before + ProbeAt(at);
            && AllowedIn(c, log, more) == AllowedIn(c, log, before) + 1
            && Tripped(c, log + more) && !AllowedSinceOutcome(c, log + more)
            && LastFailureAt(log + more) == at
  {
    var mid := log + before;
    var more := before + ProbeAt(at);
    var all := log + more;
    assert all == (mid + [Event(Admit, at)]) + [Event(Failure, at)];
    assert Earlier(all) == mid + [Event(Admit, at)] && Earlier(mid + [Event(Admit, at)]) == mid;
    AllowedCallsPrefix(c, mid, all, |log|, |mid|);
    assert all[..|mid|] == mid && AllowedAt(c, all, |mid|) && !AllowedAt(c, all, |mid| + 1);
    assert AllowedCalls(c, all, |log|, |mid| + 1) == AllowedCalls(c, all, |log|, |mid|) + 1;
  }

  /** What was let through is not changed by what comes later. */
  lemma {:induction false} AllowedCallsPrefix(c: Config, log: Log, longer: Log, from: nat, until: nat)
    requires from <= until <= |log| && log <= longer
    ensures AllowedCalls(c, longer, from, until) == AllowedCalls(c, log, from, until)
    decreases until - from
  {
    if from < until {
      AllowedCallsPrefix(c, log, longer, from, until - 1);
      assert longer[..until - 1] == log[..until - 1];
    }
  }

  lemma OneMore(n: nat, d: nat)
    requires n > 0
    ensures n * d == (n - 1) * d + d && n * d >= (n - 1) * d >= 0
  {
    assert (n - 1) * d >= 0;
  }

  /** The extra call is real for every width, cooldown and history: once the cooldown has passed with
      nothing let through since, some run fills the window with floor(W / cooldown) + 1 calls. */
  lemma AnyWindowBoundIsTight(c: Config, log: Log, s: int, width: nat)
    requires Tripped(c, log) && Ordered(log) && NotBefore(log, s) && c.cooldownMs > 0
    requires CooledDown(c, log, s) && !AllowedSinceOutcome(c, log)
    ensures exists more :: InWindow(log, more, s, width) && AllowedIn(c, log, more) == width / c.cooldownMs + 1
  {
    var n := width / c.cooldownMs;
    var more := FailingProbes(s, c.cooldownMs, n);
    DivRange(width, c.cooldownMs);
    FailingProbesInWindow(log, s, c.cooldownMs, n, width);
    FailingProbesAllowed(c, log, s, n);
  }

  lemma {:induction false} AllowedCallsSplit(c: Config, log: Log, from: nat, mid: nat, until: nat)
    requires from <= mid <= until <= |log|
    ensures AllowedCalls(c, log, from, until) == AllowedCalls(c, log, from, mid) + AllowedCalls(c, log, mid, until)
    decreases until - mid
  {
    if mid < until {
      AllowedCallsSplit(c, log, from, mid, until - 1);
    }
  }

  /** At most one probe per half-open period: two calls let through while tripped have a recorded
      outcome between them. */
  lemma OneProbePerPeriod(c: Config, log: Log, i: nat, j: nat)
    requires i < j < |log| && Tripped(c, log[..i])
    requires AllowedAt(c, log, i) && AllowedAt(c, log, j)
    ensures exists k :: i < k < j && log[k].kind in {Success, Failure}
  {
    if forall k :: i < k < j ==> log[k].kind !in {Success, Failure} {
      var k := i + 1;
      assert Earlier(log[..k]) == log[..i] && Last(log[..k]) == log[i];
      while k < j
        invariant i < k <= j
        invariant AllowedSinceOutcome(c, log[..k]) && Tripped(c, log[..k])
      {
        assert Earlier(log[..k + 1]) == log[..k] && Last(log[..k + 1]) == log[k];
        k := k + 1;
      }
      assert false;
    }
  }

  // ---------------------------------------------------------------- outcomes

  /** Successes and failures recorded among events `from`, ..., `until - 1`. */
  function Outcomes(log: Log, from: nat, until: nat): nat
    requires from <= until <= |log|
  {
    if from == until then 0
    else Outcomes(log, from, until - 1) + (if log[until - 1].kind in {Success, Failure} then 1 else 0)
  }

  /** While tripped, letting one more call through takes one more outcome. */
  lemma {:induction false} ProbesPaidFor(c: Config, log: Log, from: nat, until: nat)
    requires from <= until <= |log| && Tripped(c, log[..from]) && NoSuccess(log, from, until)
    ensures Tripped(c, log[..until])
    ensures AllowedCalls(c, log, from, until) + (if AllowedSinceOutcome(c, log[..until]) then 0 else 1)
            <= Outcomes(log, from, until) + 1
    decreases until - from
  {
    if from < until {
      ProbesPaidFor(c, log, from, until - 1);
      assert Earlier(log[..until]) == log[..until - 1] && Last(log[..until]) == log[until - 1];
    }
  }

  lemma {:induction false} OutcomesSplit(log: Log, from: nat, mid: nat, until: nat)
    requires from <= mid <= until <= |log|
    ensures Outcomes(log, from, until) == Outcomes(log, from, mid) + Outcomes(log, mid, until)
    decreases until - mid
  {
    if mid < until {
      OutcomesSplit(log, from, mid, until - 1);
    }
  }
}
