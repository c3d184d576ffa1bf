/** Which of the calls a breaker let through are still out, and when two probes can be out together.

    A call that is let through reports back once, as a success or a failure. Here every outcome says
    which call it reports on, so a probe's own failure is told apart from a late failure of a call let
    through before the trip. */
module BreakerProbes {
  import opened BreakerHistory

  /** A call on the breaker; an outcome names the call it reports on by its position in the story. */
  datatype Act = Act(event: Event, call: nat)

  type Story = seq<Act>

  function LogOf(acts: Story): (log: Log)
    ensures |log| == |acts| && forall i :: 0 <= i < |acts| ==> log[i] == acts[i].event
  {
    seq(|acts|, i requires 0 <= i < |acts| => acts[i].event)
  }

  predicate IsOutcome(e: Event) {
    e.kind.Success? || e.kind.Failure?
  }

  ghost predicate Reported(acts: Story, i: nat, n: nat)
    requires n <= |acts|
  {
    exists k :: 0 <= k < n && IsOutcome(acts[k].event) && acts[k].call == i
  }

  /** The call at position `i` was let through and has not reported within the first `n` acts. */
  ghost predicate Out(c: Config, acts: Story, i: nat, n: nat)
    requires n <= |acts|
  {
    i < n && AllowedAt(c, LogOf(acts), i) && !Reported(acts, i, n)
  }

  /** Time moves on, and every outcome reports on a call that is out. */
  ghost predicate WellFormed(c: Config, acts: Story) {
    && Ordered(LogOf(acts))
    && forall k :: 0 <= k < |acts| && IsOutcome(acts[k].event) ==> Out(c, acts, acts[k].call, k)
  }

  /** A way the story can go on without a success. */
  ghost predicate Continues(c: Config, acts: Story, more: Story) {
    WellFormed(c, acts + more) && forall i :: 0 <= i < |more| ==> !more[i].event.kind.Success?
  }

  /** At some moment two calls are out that were both let through from position `from` on. */
  ghost predicate Overlaps(c: Config, acts: Story, from: nat) {
    exists i: nat, j: nat, n: nat ::
      from <= i < j < n <= |acts| && Out(c, acts, i, n) && Out(c, acts, j, n)
  }

  /** No call is out that was let through before the last outcome: at most the probe of the current
      period is. */
  ghost predicate NothingStale(c: Config, acts: Story) {
    forall i: nat, k: nat :: i < k < |acts| && IsOutcome(acts[k].event) ==> !Out(c, acts, i, |acts|)
  }

  // ---------------------------------------------------------------- one act at a time

  lemma OutStep(c: Config, acts: Story, i: nat, n: nat)
    requires n < |acts|
    ensures Out(c, acts, i, n + 1) <==>
            if i == n then AllowedAt(c, LogOf(acts), n) && !Reported(acts, n, n + 1)
            else Out(c, acts, i, n) && !(IsOutcome(acts[n].event) && acts[n].call == i)
  {
    hide AllowedAt;
    if Reported(acts, i, n) {
      var k :| 0 <= k < n && IsOutcome(acts[k].event) && acts[k].call == i;
      assert Reported(acts, i, n + 1);
    }
    if Reported(acts, i, n + 1) && !Reported(acts, i, n) {
      assert IsOutcome(acts[n].event) && acts[n].call == i;
    }
  }

  /** A call cannot be reported on before it is made. */
  lemma NotYetReported(c: Config, acts: Story, i: nat, n: nat)
    requires WellFormed(c, acts) && i <= n <= |acts| && forall k :: i <= k < n ==> !IsOutcome(acts[k].event)
    ensures !Reported(acts, i, n)
  {
    hide AllowedAt;
    forall k | 0 <= k < n && IsOutcome(acts[k].event) ensures acts[k].call != i {
      assert Out(c, acts, acts[k].call, k);
    }
  }

  lemma OutPrefix(c: Config, acts: Story, longer: Story, i: nat, n: nat)
    requires n <= |acts| && acts <= longer
    ensures Out(c, longer, i, n) <==> Out(c, acts, i, n)
  {
    hide Admits;
    assert forall k :: 0 <= k < |acts| ==> longer[k] == acts[k];
    if i < n {
      assert LogOf(longer)[..i] == LogOf(acts)[..i];
    }
  }

  lemma Append(c: Config, acts: Story, a: Act)
    requires WellFormed(c, acts) && NotBefore(LogOf(acts), a.event.at)
    requires IsOutcome(a.event) ==> Out(c, acts, a.call, |acts|)
    ensures WellFormed(c, acts + [a]) && LogOf(acts + [a]) == LogOf(acts) + [a.event]
    ensures forall i: nat :: Out(c, acts + [a], i, |acts|) <==> Out(c, acts, i, |acts|)
    ensures Out(c, acts + [a], |acts|, |acts| + 1) <==> a.event.kind.Admit? && Admits(c, LogOf(acts), a.event.at)
  {
    var t := acts + [a];
    hide AllowedSinceOutcome, Admits, Out;
    assert LogOf(t) == LogOf(acts) + [a.event];
    OrderedConcat(LogOf(acts), [a.event], a.event.at);
    forall i: nat, n: nat | n <= |acts| ensures Out(c, t, i, n) <==> Out(c, acts, i, n) {
      OutPrefix(c, acts, t, i, n);
    }
    NewCall(c, acts, a);
  }

  lemma NewCall(c: Config, acts: Story, a: Act)
    requires WellFormed(c, acts) && (IsOutcome(a.event) ==> Out(c, acts, a.call, |acts|))
    ensures Out(c, acts + [a], |acts|, |acts| + 1) <==> a.event.kind.Admit? && Admits(c, LogOf(acts), a.event.at)
  {
    var t := acts + [a];
    hide Admits;
    assert LogOf(t)[..|acts|] == LogOf(acts);
    assert forall k :: 0 <= k < |acts| ==> t[k] == acts[k];
    NotYetReported(c, acts, |acts|, |acts|);
  }

  // ---------------------------------------------------------------- when one probe is all there is

  /** At most one call is out after the first `n` acts, and none once the last outcome is in. */
  ghost predicate OnlyTheProbe(c: Config, acts: Story, n: nat)
    requires n <= |acts|
  {
    && (forall i: nat, j: nat :: Out(c, acts, i, n) && Out(c, acts, j, n) ==> i == j)
    && (AllowedSinceOutcome(c, LogOf(acts)[..n]) || forall i: nat :: !Out(c, acts, i, n))
  }

  lemma OnlyTheProbeStep(c: Config, acts: Story, n: nat)
    requires WellFormed(c, acts) && n < |acts| && !acts[n].event.kind.Success?
    requires OnlyTheProbe(c, acts, n) && Tripped(c, LogOf(acts)[..n])
    ensures OnlyTheProbe(c, acts, n + 1) && Tripped(c, LogOf(acts)[..n + 1])
  {
    var e, before := acts[n].event, LogOf(acts)[..n];
    StandingStep(c, LogOf(acts), n);
    assert IsOutcome(e) ==> Out(c, acts, acts[n].call, n);
    forall i: nat
      ensures Out(c, acts, i, n + 1) ==>
                if i == n then e.kind.Admit? && Admits(c, before, e.at)
                else Out(c, acts, i, n) && !(IsOutcome(e) && acts[n].call == i)
    {
      OutStep(c, acts, i, n);
    }
    hide Out, Tripped, AllowedSinceOutcome, WellFormed;
    OutFollows(c, acts, n);
  }

  /** What the calls out before an act and the act itself leave. */
  lemma OutFollows(c: Config, acts: Story, n: nat)
    requires n < |acts| && !acts[n].event.kind.Success? && OnlyTheProbe(c, acts, n)
    requires IsOutcome(acts[n].event) ==> Out(c, acts, acts[n].call, n)
    requires forall i: nat :: Out(c, acts, i, n + 1) ==>
               if i == n then acts[n].event.kind.Admit? && Admits(c, LogOf(acts)[..n], acts[n].event.at)
               else Out(c, acts, i, n) && !(IsOutcome(acts[n].event) && acts[n].call == i)
    requires Admits(c, LogOf(acts)[..n], acts[n].event.at) ==> !AllowedSinceOutcome(c, LogOf(acts)[..n])
    requires AllowedSinceOutcome(c, LogOf(acts)[..n + 1]) <==>
             !acts[n].event.kind.Failure? &&
             ((acts[n].event.kind.Admit? && Admits(c, LogOf(acts)[..n], acts[n].event.at))
              || AllowedSinceOutcome(c, LogOf(acts)[..n]))
    ensures OnlyTheProbe(c, acts, n + 1)
  {
    hide Out, Admits, AllowedSinceOutcome, LogOf;
    var m := n + 1;
    forall i: nat, j: nat | Out(c, acts, i, m) && Out(c, acts, j, m) ensures i == j {
      assert i != n ==> Out(c, acts, i, n);
      assert j != n ==> Out(c, acts, j, n);
    }
    forall i: nat | Out(c, acts, i, m) ensures AllowedSinceOutcome(c, LogOf(acts)[..m]) {
      assert i != n ==> Out(c, acts, i, n);
    }
  }

  lemma StandingStep(c: Config, log: Log, n: nat)
    requires n < |log| && !log[n].kind.Success? && Tripped(c, log[..n])
    ensures Tripped(c, log[..n + 1])
    ensures AllowedSinceOutcome(c, log[..n + 1]) <==>
            !log[n].kind.Failure? &&
            ((log[n].kind.Admit? && Admits(c, log[..n], log[n].at)) || AllowedSinceOutcome(c, log[..n]))
    ensures Admits(c, log[..n], log[n].at) ==> !AllowedSinceOutcome(c, log[..n])
  {
    assert Earlier(log[..n + 1]) == log[..n] && Last(log[..n + 1]) == log[n];
  }

  lemma {:induction false} OnlyTheProbeLasts(c: Config, acts: Story, from: nat, n: nat)
    requires WellFormed(c, acts) && from <= n <= |acts|
    requires forall k :: from <= k < n ==> !acts[k].event.kind.Success?
    requires OnlyTheProbe(c, acts, from) && Tripped(c, LogOf(acts)[..from])
    ensures OnlyTheProbe(c, acts, n) && Tripped(c, LogOf(acts)[..n])
    decreases n
  {
    hide OnlyTheProbe, Tripped, WellFormed;
    if from < n {
      OnlyTheProbeLasts(c, acts, from, n - 1);
      OnlyTheProbeStep(c, acts, n - 1);
    }
  }

  /** A call let through after the last outcome is the current period's call. */
  lemma {:induction false} SinceOutcome(c: Config, log: Log, i: nat)
    requires i < |log| && AllowedAt(c, log, i) && forall k :: i < k < |log| ==> !IsOutcome(log[k])
    ensures AllowedSinceOutcome(c, log) && TrailingFailures(log) == TrailingFailures(log[..i])
    decreases |log|
  {
    if i == |log| - 1 {
      assert Earlier(log) == log[..i];
    } else {
      assert Earlier(log)[..i] == log[..i];
      SinceOutcome(c, Earlier(log), i);
    }
  }

  lemma {:induction false} SinceOutcomeIs(c: Config, log: Log) returns (i: nat)
    requires AllowedSinceOutcome(c, log)
    ensures i < |log| && AllowedAt(c, log, i) && forall k :: i < k < |log| ==> !IsOutcome(log[k])
    decreases |log|
  {
    i := |log| - 1;
    assert log[..i] == Earlier(log);
    if !AllowedAt(c, log, i) {
      i := SinceOutcomeIs(c, Earlier(log));
      assert log[..i] == Earlier(log)[..i];
    }
  }

  lemma NothingStaleIs(c: Config, acts: Story)
    requires WellFormed(c, acts) && Tripped(c, LogOf(acts)) && NothingStale(c, acts)
    ensures OnlyTheProbe(c, acts, |acts|)
  {
    hide Admits;
    var log := LogOf(acts);
    assert log[..|acts|] == log;
    forall i: nat | Out(c, acts, i, |acts|) ensures AllowedSinceOutcome(c, log) && Tripped(c, log[..i]) {
      SinceOutcome(c, log, i);
    }
    forall i: nat, j: nat | i < j && Out(c, acts, i, |acts|) && Out(c, acts, j, |acts|) ensures false {
      OneProbePerPeriod(c, log, i, j);
    }
  }

  /** With nothing stale on a tripped breaker, no two calls are ever out together before a success. */
  lemma OneProbeAtATime(c: Config, acts: Story, more: Story, n: nat, i: nat, j: nat)
    requires WellFormed(c, acts) && Tripped(c, LogOf(acts)) && NothingStale(c, acts)
    requires Continues(c, acts, more) && |acts| <= n <= |acts + more|
    requires Out(c, acts + more, i, n) && Out(c, acts + more, j, n)
    ensures i == j
  {
    var all := acts + more;
    NothingStaleIs(c, acts);
    assert LogOf(all)[..|acts|] == LogOf(acts) == LogOf(acts)[..|acts|];
    hide Out, AllowedSinceOutcome;
    forall x: nat ensures Out(c, all, x, |acts|) <==> Out(c, acts, x, |acts|) {
      OutPrefix(c, acts, all, x, |acts|);
    }
    OnlyTheProbeLasts(c, all, |acts|, n);
  }

  // ---------------------------------------------------------------- when two can overlap

  /** A stale call with no probe out: the probe is let through, the stale call fails late, and one
      cooldown on a second probe joins the first. */
  lemma OverlapByLateFailure(c: Config, acts: Story, late: nat) returns (more: Story)
    requires WellFormed(c, acts) && Tripped(c, LogOf(acts)) && !AllowedSinceOutcome(c, LogOf(acts))
    requires Out(c, acts, late, |acts|)
    ensures Continues(c, acts, more) && Overlaps(c, acts + more, |acts|)
  {
    var first, second := ProbeTimes(c, LogOf(acts));
    hide Admits, Tripped, AllowedSinceOutcome, TrailingFailures, LastFailureAt, Out, WellFormed, LogOf, NotBefore, Last;
    hide Continues, Overlaps;
    var s2 := ProbeThenLate(c, acts, late, first);
    more := SecondProbe(c, acts, s2, Act(Event(Admit, first), 0), Act(Event(Failure, first), late), second);
  }

  lemma ProbeThenLate(c: Config, acts: Story, late: nat, first: int) returns (t: Story)
    requires WellFormed(c, acts) && NotBefore(LogOf(acts), first) && Admits(c, LogOf(acts), first)
    requires Out(c, acts, late, |acts|)
    ensures t == acts + [Act(Event(Admit, first), 0)] + [Act(Event(Failure, first), late)] && WellFormed(c, t)
    ensures LogOf(t) == LogOf(acts) + [Event(Admit, first)] + [Event(Failure, first)]
    ensures Out(c, t, |acts|, |t|) && forall now :: first <= now ==> NotBefore(LogOf(t), now)
  {
    assert late < |acts|;
    hide Admits, AllowedSinceOutcome, Out, WellFormed, LogOf, NotBefore, Last;
    var mid := LetThrough(c, acts, late, first);
    t := FailAt(c, mid, late, |acts|, first);
  }

  /** The probe is out, the breaker admits again, and the next call joins it. */
  lemma SecondProbe(c: Config, acts: Story, t: Story, probe: Act, failure: Act, at: int) returns (more: Story)
    requires t == acts + [probe] + [failure] && !probe.event.kind.Success? && !failure.event.kind.Success?
    requires WellFormed(c, t) && NotBefore(LogOf(t), at) && Admits(c, LogOf(t), at) && Out(c, t, |acts|, |t|)
    ensures Continues(c, acts, more) && Overlaps(c, acts + more, |acts|)
  {
    hide Admits, AllowedSinceOutcome, Out, WellFormed, LogOf, NotBefore, Last;
    var again := LetThrough(c, t, |acts|, at);
    more := [probe, failure, Act(Event(Admit, at), 0)];
    assert acts + more == again;
    assert Out(c, acts + more, |acts|, |acts| + 3) && Out(c, acts + more, |acts| + 2, |acts| + 3);
  }

  /** The story with one more call, let through at `at`; a call that was out still is. */
  lemma LetThrough(c: Config, acts: Story, other: nat, at: int) returns (t: Story)
    requires WellFormed(c, acts) && NotBefore(LogOf(acts), at) && Admits(c, LogOf(acts), at)
    requires Out(c, acts, other, |acts|)
    ensures t == acts + [Act(Event(Admit, at), 0)] && WellFormed(c, t)
    ensures LogOf(t) == LogOf(acts) + [Event(Admit, at)]
    ensures Out(c, t, |acts|, |t|) && Out(c, t, other, |t|) && NotBefore(LogOf(t), at)
  {
    assert other < |acts|;
    hide Admits, Out, WellFormed;
    Append(c, acts, Act(Event(Admit, at), 0));
    t := acts + [Act(Event(Admit, at), 0)];
    OutStep(c, t, other, |acts|);
  }

  /** The story after `late` has failed; another call that was out still is. */
  lemma FailAt(c: Config, acts: Story, late: nat, other: nat, at: int) returns (t: Story)
    requires WellFormed(c, acts) && NotBefore(LogOf(acts), at) && other != late
    requires Out(c, acts, late, |acts|) && Out(c, acts, other, |acts|)
    ensures t == acts + [Act(Event(Failure, at), late)] && WellFormed(c, t)
    ensures LogOf(t) == LogOf(acts) + [Event(Failure, at)] && Out(c, t, other, |t|)
    ensures forall now :: at <= now ==> NotBefore(LogOf(t), now)
  {
    assert other < |acts|;
    hide Admits, Out, WellFormed;
    Append(c, acts, Act(Event(Failure, at), late));
    t := acts + [Act(Event(Failure, at), late)];
    OutStep(c, t, other, |acts|);
  }

  function Later(a: int, b: int): int { if a < b then b else a }

  lemma ProbeTimes(c: Config, log: Log) returns (first: int, second: int)
    requires Tripped(c, log) && !AllowedSinceOutcome(c, log)
    ensures NotBefore(log, first) && Admits(c, log, first)
    ensures first <= second && Admits(c, log + [Event(Admit, first)] + [Event(Failure, first)], second)
  {
    first := Later(Last(log).at, LastFailureAt(log) + c.cooldownMs);
    second := Later(first, first + c.cooldownMs);
    var mid := log + [Event(Admit, first)];
    var after := mid + [Event(Failure, first)];
    assert Earlier(mid) == log && Earlier(after) == mid && Last(after) == Event(Failure, first);
  }

  /** A stale call besides the probe: it fails late, and then the probe is stale. */
  lemma OverlapAfterProbe(c: Config, acts: Story, late: nat, probe: nat) returns (more: Story)
    requires WellFormed(c, acts) && Tripped(c, LogOf(acts)) && late != probe
    requires Out(c, acts, late, |acts|) && Out(c, acts, probe, |acts|)
    ensures Continues(c, acts, more) && Overlaps(c, acts + more, |acts|)
  {
    StillTripped(c, LogOf(acts), Last(LogOf(acts)).at);
    hide Out, WellFormed, Tripped, AllowedSinceOutcome, TrailingFailures, LogOf, Continues, Overlaps;
    var next := FailAt(c, acts, late, probe, Last(LogOf(acts)).at);
    var rest := OverlapByLateFailure(c, next, probe);
    more := [next[|acts|]] + rest;
    OneMoreFirst(c, acts, next[|acts|], rest);
  }

  lemma StaleOverlaps(c: Config, acts: Story) returns (more: Story)
    requires WellFormed(c, acts) && Tripped(c, LogOf(acts)) && !NothingStale(c, acts)
    ensures Continues(c, acts, more) && Overlaps(c, acts + more, |acts|)
  {
    hide Out, WellFormed, Tripped, AllowedSinceOutcome;
    var late: nat, k: nat :| late < k < |acts| && IsOutcome(acts[k].event) && Out(c, acts, late, |acts|);
    if !AllowedSinceOutcome(c, LogOf(acts)) {
      more := OverlapByLateFailure(c, acts, late);
    } else {
      var probe := ProbeOut(c, acts, k);
      more := OverlapAfterProbe(c, acts, late, probe);
    }
  }

  /** The current period's call is out, and was let through after every outcome. */
  lemma ProbeOut(c: Config, acts: Story, k: nat) returns (probe: nat)
    requires WellFormed(c, acts) && AllowedSinceOutcome(c, LogOf(acts))
    requires k < |acts| && IsOutcome(acts[k].event)
    ensures k <= probe && Out(c, acts, probe, |acts|)
  {
    hide AllowedAt, AllowedSinceOutcome;
    probe := SinceOutcomeIs(c, LogOf(acts));
    assert IsOutcome(LogOf(acts)[k]);
    NotYetReported(c, acts, probe, |acts|);
  }

  lemma OneMoreFirst(c: Config, acts: Story, a: Act, rest: Story)
    requires Continues(c, acts + [a], rest) && Overlaps(c, acts + [a] + rest, |acts| + 1)
    requires !a.event.kind.Success?
    ensures Continues(c, acts, [a] + rest) && Overlaps(c, acts + ([a] + rest), |acts|)
  {
    hide Out, WellFormed;
    assert acts + ([a] + rest) == acts + [a] + rest;
  }

  lemma StillTripped(c: Config, log: Log, at: int)
    requires Tripped(c, log)
    ensures Tripped(c, log + [Event(Failure, at)]) && !AllowedSinceOutcome(c, log + [Event(Failure, at)])
  {
    var after := log + [Event(Failure, at)];
    assert Earlier(after) == log && Last(after) == Event(Failure, at);
  }

  /** Exactly when a tripped breaker keeps its probes apart: no two calls let through from here on are
      ever out together, however the story goes on without a success, iff nothing stale is out. */
  lemma OneProbeExact(c: Config, acts: Story)
    requires WellFormed(c, acts) && Tripped(c, LogOf(acts))
    ensures (forall more :: Continues(c, acts, more) ==> !Overlaps(c, acts + more, |acts|)) <==>
            NothingStale(c, acts)
  {
    hide WellFormed, Out;
    if NothingStale(c, acts) {
      forall more | Continues(c, acts, more) ensures !Overlaps(c, acts + more, |acts|) {
        forall i: nat, j: nat, n: nat |
          |acts| <= i < j < n <= |acts + more| && Out(c, acts + more, i, n) && Out(c, acts + more, j, n)
          ensures false
        {
          OneProbeAtATime(c, acts, more, n, i, j);
        }
      }
    } else {
      var more := StaleOverlaps(c, acts);
    }
  }

  /** Told from the failure that tripped it: probes stay apart exactly when that failure was the last
      call out. */
  lemma OneProbeFromTrip(c: Config, acts: Story)
    requires WellFormed(c, acts) && Tripped(c, LogOf(acts))
    requires acts != [] && acts[|acts| - 1].event.kind.Failure?
    ensures (forall more :: Continues(c, acts, more) ==> !Overlaps(c, acts + more, |acts|)) <==>
            forall i: nat :: !Out(c, acts, i, |acts|)
  {
    OneProbeExact(c, acts);
    var n := |acts| - 1;
    assert IsOutcome(acts[n].event);
    hide WellFormed, Admits;
    if NothingStale(c, acts) {
      forall i: nat ensures !Out(c, acts, i, |acts|) {
        assert i < |acts| && AllowedAt(c, LogOf(acts), i) ==> i != n;
      }
    }
  }

  /** One call is still out when another's failure trips the breaker; it fails under the probe let
      through at 6, and the probe of 12 finds that one still out. */
  function LateFailureStory(): Story {
    [Act(Event(Admit, 0), 0), Act(Event(Admit, 0), 0), Act(Event(Failure, 1), 0),
     Act(Event(Admit, 6), 0), Act(Event(Failure, 7), 1), Act(Event(Admit, 12), 0)]
  }

  lemma LateFailureAdmits()
    ensures var c, log := Config(1, 5), LogOf(LateFailureStory());
            && AllowedAt(c, log, 0) && AllowedAt(c, log, 1) && AllowedAt(c, log, 3) && AllowedAt(c, log, 5)
            && Tripped(c, log[..3])
  {
    var c, log := Config(1, 5), LogOf(LateFailureStory());
    var l1, l2, l3, l4, l5 := log[..1], log[..2], log[..3], log[..4], log[..5];
    assert log[..0] == [] && !Tripped(c, log[..0]);
    assert Earlier(l1) == log[..0] && Last(l1) == log[0] && TrailingFailures(l1) == 0;
    assert Earlier(l2) == l1 && Last(l2) == log[1] && TrailingFailures(l2) == 0;
    assert Earlier(l3) == l2 && Last(l3) == log[2] && TrailingFailures(l3) == 1;
    assert Earlier(l4) == l3 && Last(l4) == log[3] && TrailingFailures(l4) == 1;
    assert Earlier(l5) == l4 && Last(l5) == log[4] && TrailingFailures(l5) == 2;
  }

  lemma LateFailureOverlap()
    ensures var c, acts := Config(1, 5), LateFailureStory();
            && WellFormed(c, acts) && Tripped(c, LogOf(acts)[..3])
            && (forall k :: 3 <= k < 6 ==> !acts[k].event.kind.Success?)
            && Out(c, acts, 3, 6) && Out(c, acts, 5, 6)
  {
    LateFailureAdmits();
    hide AllowedAt, Tripped;
    var acts := LateFailureStory();
    assert forall k :: 0 <= k < 6 && IsOutcome(acts[k].event) ==> k == 2 || k == 4;
  }

  /** The probe of the current period is out, and yet nothing is stale: a call out is not by itself
      what lets probes overlap. */
  lemma ProbeOutButNotStale()
    ensures var c, acts := Config(1, 5), [Act(Event(Admit, 0), 0), Act(Event(Failure, 0), 0), Act(Event(Admit, 6), 0)];
            && WellFormed(c, acts) && Tripped(c, LogOf(acts))
            && Out(c, acts, 2, 3) && NothingStale(c, acts)
  {
    var c, acts := Config(1, 5), [Act(Event(Admit, 0), 0), Act(Event(Failure, 0), 0), Act(Event(Admit, 6), 0)];
    var log := LogOf(acts);
    var l1, l2 := log[..1], log[..2];
    assert log[..0] == [] && Earlier(l1) == log[..0] && Last(l1) == log[0] && TrailingFailures(l1) == 0;
    assert Earlier(l2) == l1 && Last(l2) == log[1] && TrailingFailures(l2) == 1;
    assert Earlier(log) == l2 && Last(log) == log[2] && TrailingFailures(log) == 1;
    assert AllowedAt(c, log, 0) && AllowedAt(c, log, 2) && !AllowedAt(c, log, 1);
    hide AllowedAt, Tripped;
    assert forall k :: 0 <= k < 3 && IsOutcome(acts[k].event) ==> k == 1;
    assert acts[1].call == 0 && Reported(acts, 0, 3);
  }

  // ---------------------------------------------------------------- how many are out

  ghost function CallsOut(c: Config, acts: Story, n: nat): (calls: set<nat>)
    requires n <= |acts|
    ensures forall i: nat :: i in calls <==> Out(c, acts, i, n)
  {
    set i: nat | i < n && Out(c, acts, i, n)
  }

  /** Every call let through is out until its own outcome is recorded. */
  lemma {:induction false} CallsOutCount(c: Config, acts: Story, n: nat)
    requires WellFormed(c, acts) && n <= |acts|
    ensures |CallsOut(c, acts, n)| == AllowedCalls(c, LogOf(acts), 0, n) - Outcomes(LogOf(acts), 0, n)
    decreases n
  {
    if n == 0 {
      assert CallsOut(c, acts, 0) == {};
    } else {
      CallsOutCount(c, acts, n - 1);
      CallsOutSize(c, acts, n - 1);
      hide CallsOut, AllowedAt, Out, WellFormed, LogOf;
    }
  }

  lemma CallsOutStep(c: Config, acts: Story, n: nat)
    requires WellFormed(c, acts) && n < |acts|
    ensures CallsOut(c, acts, n + 1) ==
            CallsOut(c, acts, n) + (if AllowedAt(c, LogOf(acts), n) then {n} else {})
            - (if IsOutcome(acts[n].event) then {acts[n].call} else {})
    ensures n !in CallsOut(c, acts, n) && (IsOutcome(acts[n].event) ==> acts[n].call in CallsOut(c, acts, n))
  {
    hide Admits;
    NotYetReported(c, acts, n, n);
    if !IsOutcome(acts[n].event) {
      NotYetReported(c, acts, n, n + 1);
    }
    assert IsOutcome(acts[n].event) ==> Out(c, acts, acts[n].call, n);
    hide Out;
    forall i: nat
      ensures i in CallsOut(c, acts, n + 1) <==>
              if i == n then AllowedAt(c, LogOf(acts), n) && !Reported(acts, n, n + 1)
              else i in CallsOut(c, acts, n) && !(IsOutcome(acts[n].event) && acts[n].call == i)
    {
      OutStep(c, acts, i, n);
    }
  }

  lemma CallsOutSize(c: Config, acts: Story, n: nat)
    requires WellFormed(c, acts) && n < |acts|
    ensures |CallsOut(c, acts, n + 1)| ==
            |CallsOut(c, acts, n)| + (if AllowedAt(c, LogOf(acts), n) then 1 else 0)
            - (if IsOutcome(acts[n].event) then 1 else 0)
  {
    CallsOutStep(c, acts, n);
    hide CallsOut, Out, WellFormed, Admits;
    if AllowedAt(c, LogOf(acts), n) {
      assert CallsOut(c, acts, n + 1) == CallsOut(c, acts, n) + {n};
    } else if IsOutcome(acts[n].event) {
      assert CallsOut(c, acts, n + 1) == CallsOut(c, acts, n) - {acts[n].call};
    }
  }

  /** While tripped the breaker adds at most one call to those already out, whatever is reported late. */
  lemma CallsOutBound(c: Config, acts: Story, from: nat, until: nat)
    requires WellFormed(c, acts) && from <= until <= |acts|
    requires Tripped(c, LogOf(acts)[..from]) && NoSuccess(LogOf(acts), from, until)
    ensures |CallsOut(c, acts, until)| <= |CallsOut(c, acts, from)| + 1
  {
    var log := LogOf(acts);
    CallsOutCount(c, acts, from);
    CallsOutCount(c, acts, until);
    ProbesPaidFor(c, log, from, until);
    AllowedCallsSplit(c, log, 0, from, until);
    OutcomesSplit(log, 0, from, until);
  }
}
