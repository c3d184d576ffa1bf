/** What a provider call does over a whole run, for every adapter behaviour, every retryability
    rule, every backoff and every clock drift the World can describe. */
module RetryTheorems {
  import opened Arithmetic
  import opened QuoteRecorder
  import opened ProviderCall

  // ---------------------------------------------------------------- the trace, by its parts

  /** The attempts are consecutive, each starts when the pause after the one before it ends, and all
      but the last failed retryably with another attempt and some budget left. */
  ghost predicate Chained<R>(p: Policy, w: World<R>, start: int, number: nat, now: int, attempts: seq<Attempt<R>>) {
    && (forall i :: 0 <= i < |attempts| ==> IsAttempt(p, w, start, attempts[i]))
    && (forall i :: 0 <= i < |attempts| ==> attempts[i].number == number + i)
    && (attempts != [] ==> attempts[0].startedAt == now)
    && (forall i :: 0 <= i < |attempts| - 1 ==> Retries(p, w, start, attempts[i]))
    && (forall i :: 0 < i < |attempts| ==> attempts[i].startedAt == ResumesAt(w, attempts[i - 1]))
  }

  /** How the call ends, told from its last attempt alone. */
  ghost predicate EndsBy<R>(p: Policy, w: World<R>, start: int, number: nat, now: int, last: CallError, t: Trace<R>) {
    var deadline := start + p.overallTimeoutMs;
    if t.attempts == [] then
      && t.finishedAt == now
      && (if number > p.maxAttempts then t.stop == Exhausted && t.ending == Threw(last)
          else deadline <= now && t.stop == BudgetSpent && t.ending == Threw(TimedOut(p.overallTimeoutMs)))
    else
      var a := t.attempts[|t.attempts| - 1];
      if Retries(p, w, start, a) then
        && deadline <= ResumesAt(w, a) == t.finishedAt
        && t.stop == BudgetSpent && t.ending == Threw(TimedOut(p.overallTimeoutMs))
      else
        && t.finishedAt == RecordedAt(w, a)
        && t.stop == StopOf(p, w, a) && t.ending == EndingOf(w, start, a)
  }

  ghost predicate IsRun<R>(p: Policy, w: World<R>, start: int, number: nat, now: int, last: CallError, t: Trace<R>) {
    Chained(p, w, start, number, now, t.attempts) && EndsBy(p, w, start, number, now, last, t)
  }

  lemma ChainedCons<R>(p: Policy, w: World<R>, start: int, a: Attempt<R>, rest: seq<Attempt<R>>)
    requires IsAttempt(p, w, start, a) && Retries(p, w, start, a)
    ensures Chained(p, w, start, a.number, a.startedAt, [a] + rest) <==>
            Chained(p, w, start, a.number + 1, ResumesAt(w, a), rest)
  {
    hide IsAttempt, Retries, ResumesAt;
    var all := [a] + rest;
    assert forall i :: 0 <= i < |rest| ==> rest[i] == all[i + 1];
    if Chained(p, w, start, a.number, a.startedAt, all) {
      assert rest != [] ==> all[1] == rest[0];
    }
    if Chained(p, w, start, a.number + 1, ResumesAt(w, a), rest) {
      assert forall i :: 0 < i < |all| ==> all[i] == rest[i - 1];
    }
  }

  lemma EndsByCons<R>(p: Policy, w: World<R>, start: int, a: Attempt<R>, last: CallError, rest: Trace<R>)
    requires Retries(p, w, start, a)
    ensures EndsBy(p, w, start, a.number, a.startedAt, last, After([a], rest)) <==>
            EndsBy(p, w, start, a.number + 1, ResumesAt(w, a), a.result.error, rest)
  {
    var all := [a] + rest.attempts;
    assert rest.attempts != [] ==> all[|all| - 1] == rest.attempts[|rest.attempts| - 1];
  }

  lemma IsRunCons<R>(p: Policy, w: World<R>, start: int, a: Attempt<R>, last: CallError, rest: Trace<R>)
    requires IsAttempt(p, w, start, a) && Retries(p, w, start, a)
    ensures IsRun(p, w, start, a.number, a.startedAt, last, After([a], rest)) <==>
            IsRun(p, w, start, a.number + 1, ResumesAt(w, a), a.result.error, rest)
  {
    hide Chained, EndsBy, IsAttempt, Retries, ResumesAt;
    ChainedCons(p, w, start, a, rest.attempts);
    EndsByCons(p, w, start, a, last, rest);
  }

  lemma IsRunStop<R>(p: Policy, w: World<R>, start: int, a: Attempt<R>, last: CallError)
    requires IsAttempt(p, w, start, a) && !Retries(p, w, start, a)
    ensures IsRun(p, w, start, a.number, a.startedAt, last,
                  Trace([a], EndingOf(w, start, a), StopOf(p, w, a), RecordedAt(w, a)))
  {
    hide IsAttempt, Retries, EndingOf, StopOf;
  }

  lemma IsRunHead<R>(p: Policy, w: World<R>, start: int, number: nat, now: int, last: CallError, t: Trace<R>)
    requires IsRun(p, w, start, number, now, last, t) && t.attempts != []
    ensures var a := t.attempts[0];
            && IsAttempt(p, w, start, a) && a.number == number && a.startedAt == now
            && t == After([a], t.(attempts := t.attempts[1..]))
            && (!Retries(p, w, start, a) ==>
                  t == Trace([a], EndingOf(w, start, a), StopOf(p, w, a), RecordedAt(w, a)))
  {
    hide IsAttempt, Retries, EndingOf, StopOf;
    var a := t.attempts[0];
    assert t.attempts == [a] + t.attempts[1..];
    if !Retries(p, w, start, a) {
      assert |t.attempts| == 1;
      assert t.attempts == [a];
    }
  }

  lemma NoAttemptIsRun<R>(p: Policy, w: World<R>, start: int, number: nat, now: int, last: CallError)
    requires number > p.maxAttempts || start + p.overallTimeoutMs <= now
    ensures IsRun(p, w, start, number, now, last, Calls(p, w, start, number, now, last))
  {
  }

  lemma AttemptParts<R>(p: Policy, w: World<R>, start: int, number: nat, now: int)
    requires number <= p.maxAttempts && now < start + p.overallTimeoutMs
    ensures var a := AttemptAt(p, w, start + p.overallTimeoutMs, number, now);
            IsAttempt(p, w, start, a) && a.number == number && a.startedAt == now
  {
  }

  lemma {:induction false} CallsIsRun<R>(p: Policy, w: World<R>, start: int, number: nat, now: int, last: CallError)
    ensures IsRun(p, w, start, number, now, last, Calls(p, w, start, number, now, last))
    decreases p.maxAttempts - number + 1
  {
    hide Calls, IsRun, AttemptAt, IsAttempt;
    if number > p.maxAttempts || start + p.overallTimeoutMs <= now {
      NoAttemptIsRun(p, w, start, number, now, last);
    } else {
      var a := AttemptAt(p, w, start + p.overallTimeoutMs, number, now);
      AttemptParts(p, w, start, number, now);
      if Retries(p, w, start, a) {
        RetryStep(p, w, start, a, last);
        CallsIsRun(p, w, start, number + 1, ResumesAt(w, a), a.result.error);
        IsRunCons(p, w, start, a, last, Calls(p, w, start, number + 1, ResumesAt(w, a), a.result.error));
      } else {
        StopStep(p, w, start, a, last);
        IsRunStop(p, w, start, a, last);
      }
    }
  }

  lemma EmptyRunIsCalls<R>(p: Policy, w: World<R>, start: int, number: nat, now: int, last: CallError, t: Trace<R>)
    requires IsRun(p, w, start, number, now, last, t) && t.attempts == []
    ensures t == Calls(p, w, start, number, now, last)
  {
  }

  lemma {:induction false} RunIsCalls<R>(p: Policy, w: World<R>, start: int, number: nat, now: int, last: CallError,
                                         t: Trace<R>)
    requires IsRun(p, w, start, number, now, last, t)
    ensures t == Calls(p, w, start, number, now, last)
    decreases |t.attempts|
  {
    hide Calls, IsRun, IsAttempt, AttemptAt;
    if t.attempts == [] {
      EmptyRunIsCalls(p, w, start, number, now, last, t);
    } else {
      var a, rest := t.attempts[0], t.(attempts := t.attempts[1..]);
      IsRunHead(p, w, start, number, now, last, t);
      if Retries(p, w, start, a) {
        RetryStep(p, w, start, a, last);
        IsRunCons(p, w, start, a, last, rest);
        RunIsCalls(p, w, start, number + 1, ResumesAt(w, a), a.result.error, rest);
      } else {
        StopStep(p, w, start, a, last);
      }
    }
  }

  /** The whole behaviour of the call, and nothing else: a trace is the call's trace exactly when it
      is made of consecutive attempts, every one before the last retried for cause, and it ends for
      the reason its last attempt gives. */
  lemma RetryTrace<R>(p: Policy, w: World<R>, start: int, t: Trace<R>)
    ensures t == CallFrom(p, w, start) <==> IsRun(p, w, start, 1, start, Nothing, t)
  {
    CallsIsRun(p, w, start, 1, start, Nothing);
    if IsRun(p, w, start, 1, start, Nothing, t) {
      RunIsCalls(p, w, start, 1, start, Nothing, t);
    }
  }

  /** At most `maxAttempts` attempts, numbered from one; the record trace has one record per attempt
      and its last record is the only one that can be `quoted`, which it is iff the call returns. */
  lemma RecordsTellTheOutcome<R>(p: Policy, w: World<R>, start: int)
    ensures var t := CallFrom(p, w, start);
            var records := RecordsOf(w, start, t.attempts);
            && |records| == |t.attempts| <= Max(0, p.maxAttempts)
            && (forall i :: 0 <= i < |records| ==> records[i].entry.attempts == i + 1)
            && (forall i :: 0 <= i < |records| ==>
                  (records[i].entry.outcome == Quoted <==> t.ending.Returned? && i == |records| - 1))
            && (t.ending.Returned? ==> t.ending.attempts == |records| > 0)
  {
    var t := CallFrom(p, w, start);
    CallsIsRun(p, w, start, 1, start, Nothing);
    if t.attempts != [] {
      assert IsAttempt(p, w, start, t.attempts[|t.attempts| - 1]);
    }
  }

  /** Attempts do not overlap, and none precedes the call. */
  lemma {:induction false} AttemptsInOrder<R>(p: Policy, w: World<R>, start: int, attempts: seq<Attempt<R>>,
                                              i: nat, j: nat)
    requires Chained(p, w, start, 1, start, attempts) && i <= j < |attempts|
    ensures start <= attempts[i].startedAt <= attempts[i].settledAt <= attempts[j].settledAt
    ensures i < j ==> attempts[i].settledAt <= attempts[j].startedAt
    decreases j
  {
    AttemptSettlesInTime(p, w, start, attempts[j]);
    if j > 0 {
      AttemptsInOrder(p, w, start, attempts, if i < j then i else j - 1, j - 1);
      assert attempts[j].startedAt == ResumesAt(w, attempts[j - 1]);
    }
  }

  /** A record's latency runs from the start of the whole call, so latencies never decrease along a
      call's records; a record has a quote or an error, never both. */
  lemma RecordLatencies<R>(p: Policy, w: World<R>, start: int, i: nat, j: nat)
    requires i <= j < |CallFrom(p, w, start).attempts|
    ensures var t := CallFrom(p, w, start);
            var records := RecordsOf(w, start, t.attempts);
            && records[i].latencyMs == t.attempts[i].settledAt - start
            && records[i].latencyMs <= records[j].latencyMs
            && (records[i].entry.error.None? <==> records[i].entry.outcome == Quoted)
            && (records[i].entry.quote.Some? ==> records[i].entry.outcome == Quoted)
  {
    CallsIsRun(p, w, start, 1, start, Nothing);
    AttemptsInOrder(p, w, start, CallFrom(p, w, start).attempts, i, j);
  }

  // ---------------------------------------------------------------- the deadline

  /** What an attempt yields, told from the adapter: it is given its own timeout or what is left of the
      budget, whichever is less; what settles before the timer fires counts, and the timer otherwise. */
  lemma AttemptTells<R>(p: Policy, w: World<R>, start: int, a: Attempt<R>)
    requires IsAttempt(p, w, start, a)
    ensures var left := start + p.overallTimeoutMs - a.startedAt;
            var given := if left < p.timeoutMs then left else p.timeoutMs;
            var firesAfter := (if given < 1 then 1 else given) + w.timerLag(a.number);
            match w.adapter(a.number)
            case Hangs => a.result == Error(TimedOut(given)) && a.settledAt == a.startedAt + firesAfter
            case Settles(afterMs, result, winsTie) =>
              && (afterMs < firesAfter ==> a.result == result && a.settledAt == a.startedAt + afterMs)
              && (afterMs > firesAfter ==>
                    a.result == Error(TimedOut(given)) && a.settledAt == a.startedAt + firesAfter)
              && (afterMs == firesAfter ==>
                    && a.settledAt == a.startedAt + firesAfter
                    && a.result == if winsTie then result else Error(TimedOut(given)))
  {
  }

  lemma AttemptSettlesInTime<R>(p: Policy, w: World<R>, start: int, a: Attempt<R>)
    requires IsAttempt(p, w, start, a)
    ensures a.startedAt < start + p.overallTimeoutMs
    ensures a.startedAt <= a.settledAt <= start + p.overallTimeoutMs + w.timerLag(a.number)
  {
  }

  /** However the attempts fail, the call overruns its budget by no more than the last attempt's own
      delays, which the loop does not control: a late timer and writing the record, or the overshoot
      of the sleep after it. Earlier delays are paid out of the budget. */
  lemma LatencyBound<R>(p: Policy, w: World<R>, start: int, timer: nat, record: nat, sleep: nat)
    requires forall k :: w.timerLag(k) <= timer && w.recordLag(k) <= record && w.sleepLag(k) <= sleep
    ensures CallFrom(p, w, start).finishedAt - start <= Max(0, p.overallTimeoutMs) + Max(timer + record, sleep)
  {
    var t := CallFrom(p, w, start);
    CallsIsRun(p, w, start, 1, start, Nothing);
    if t.attempts != [] {
      var a := t.attempts[|t.attempts| - 1];
      AttemptSettlesInTime(p, w, start, a);
      assert w.timerLag(a.number) <= timer && w.recordLag(a.number) <= record && w.sleepLag(a.number) <= sleep;
    }
  }

  /** With punctual timers, instant recording and exact sleeps the whole call fits its budget, each pause ends before
      the deadline, and the budget test at the head of the loop can only fire the first time. */
  lemma Deadline<R>(p: Policy, w: World<R>, start: int)
    requires forall k :: w.timerLag(k) == 0 && w.recordLag(k) == 0 && w.sleepLag(k) == 0
    ensures var t := CallFrom(p, w, start);
            && t.finishedAt - start <= Max(0, p.overallTimeoutMs)
            && (forall i :: 0 <= i < |t.attempts| ==> t.attempts[i].startedAt < start + p.overallTimeoutMs)
            && (forall i :: 0 <= i < |t.attempts| - 1 ==>
                  t.attempts[i].settledAt + w.backoffMs(i + 1) < start + p.overallTimeoutMs)
            && (t.stop == BudgetSpent <==> p.maxAttempts >= 1 && p.overallTimeoutMs <= 0)
  {
    var t := CallFrom(p, w, start);
    CallsIsRun(p, w, start, 1, start, Nothing);
    LatencyBound(p, w, start, 0, 0, 0);
    forall i | 0 <= i < |t.attempts|
      ensures t.attempts[i].startedAt < start + p.overallTimeoutMs
      ensures i < |t.attempts| - 1 ==> t.attempts[i].settledAt + w.backoffMs(i + 1) < start + p.overallTimeoutMs
    {
      assert IsAttempt(p, w, start, t.attempts[i]);
      assert w.timerLag(i + 1) == 0 && w.recordLag(i + 1) == 0;
    }
    if t.attempts != [] {
      var a := t.attempts[|t.attempts| - 1];
      assert w.timerLag(a.number) == 0 && w.recordLag(a.number) == 0 && w.sleepLag(a.number) == 0;
    }
  }

  // ---------------------------------------------------------------- first success, without clocks

  /** What attempt `k` yields under its own timeout alone. */
  function Untimed<R>(p: Policy, w: World<R>, k: nat): Result<R> {
    Race(w.adapter(k), p.timeoutMs, w.timerLag(k)).0
  }

  /** The first attempt from `k` on that succeeds, fails for good, or is the last one allowed. */
  function FirstDecisive<R>(p: Policy, w: World<R>, k: nat): nat
    decreases p.maxAttempts - k
  {
    if k >= p.maxAttempts then k
    else match Untimed(p, w, k)
      case Value(_) => k
      case Error(e) => if w.retryable(e) then FirstDecisive(p, w, k + 1) else k
  }

  /** No attempt with its record, pause and overshoot takes longer than `share`, and the budget holds
      a share for every attempt. */
  ghost predicate Ample<R>(p: Policy, w: World<R>, share: nat) {
    && (forall k :: TimerMs(p.timeoutMs) + w.timerLag(k) + w.recordLag(k) + w.backoffMs(k) + w.sleepLag(k) <= share)
    && p.maxAttempts * share <= p.overallTimeoutMs
  }

  /** An attempt that starts within its share of the budget ends within it, undisturbed. */
  lemma AmpleAttempt<R>(p: Policy, w: World<R>, start: int, number: nat, now: int, share: nat)
    requires Ample(p, w, share) && 1 <= number <= p.maxAttempts
    requires now <= start + (number - 1) * share
    ensures var a := AttemptAt(p, w, start + p.overallTimeoutMs, number, now);
            && IsAttempt(p, w, start, a) && a.number == number && a.startedAt == now
            && a.result == Untimed(p, w, number)
            && ResumesAt(w, a) <= start + number * share
            && (Retries(p, w, start, a) <==>
                  a.result.Error? && w.retryable(a.result.error) && number < p.maxAttempts)
  {
    SharesLeft(p.maxAttempts, number, share);
    assert TimerMs(p.timeoutMs) + w.timerLag(number) + w.recordLag(number) + w.backoffMs(number)
           + w.sleepLag(number) <= share;
  }

  lemma {:induction false} FirstSuccessFrom<R>(p: Policy, w: World<R>, start: int, number: nat, now: int,
                                               last: CallError, share: nat)
    requires Ample(p, w, share) && 1 <= number <= p.maxAttempts
    requires now <= start + (number - 1) * share
    ensures var t := Calls(p, w, start, number, now, last);
            var d := FirstDecisive(p, w, number);
            && number <= d == number + |t.attempts| - 1
            && t.ending == match Untimed(p, w, d)
               case Value(v) => Returned(v, d, t.finishedAt - start)
               case Error(e) => Threw(e)
    decreases p.maxAttempts - number
  {
    hide Calls, IsAttempt, AttemptAt, Ample, Untimed;
    AmpleAttempt(p, w, start, number, now, share);
    var a := AttemptAt(p, w, start + p.overallTimeoutMs, number, now);
    if Retries(p, w, start, a) {
      RetryStep(p, w, start, a, last);
      assert (number + 1 - 1) * share == number * share;
      FirstSuccessFrom(p, w, start, number + 1, ResumesAt(w, a), a.result.error, share);
    } else {
      StopStep(p, w, start, a, last);
    }
  }

  lemma OneMoreShare(k: nat, share: nat)
    ensures (k + 1) * share == k * share + share
  {
  }

  lemma SharesLeft(max: int, number: nat, share: nat)
    requires 1 <= number <= max
    ensures (number - 1) * share + share == number * share <= max * share
    ensures number < max ==> number * share + share <= max * share
  {
    OneMoreShare(number - 1, share);
    MulMonotone(number, max, share);
    if number < max {
      OneMoreShare(number, share);
      MulMonotone(number + 1, max, share);
    }
  }

  /** Given enough budget the clock drops out: the call is the first success among the attempts, or
      the first failure not worth retrying, or the last allowed failure. */
  lemma FirstSuccess<R>(p: Policy, w: World<R>, start: int, share: nat)
    requires Ample(p, w, share) && p.maxAttempts >= 1
    ensures var t := CallFrom(p, w, start);
            var d := FirstDecisive(p, w, 1);
            && |t.attempts| == d
            && t.ending == match Untimed(p, w, d)
               case Value(v) => Returned(v, d, t.finishedAt - start)
               case Error(e) => Threw(e)
  {
    FirstSuccessFrom(p, w, start, 1, start, Nothing, share);
  }

  // ---------------------------------------------------------------- many calls, one recorder

  datatype Job<!R> = Job(policy: Policy, world: World<R>, start: int)

  function TraceOf<R>(job: Job<R>): seq<Recorded> {
    RecordsOf(job.world, job.start, CallFrom(job.policy, job.world, job.start).attempts)
  }

  function TracesOf<R>(jobs: seq<Job<R>>): seq<Recorded> {
    if jobs == [] then [] else TracesOf(jobs[..|jobs| - 1]) + TraceOf(jobs[|jobs| - 1])
  }

  method ExecuteJob<R>(job: Job<R>, recorder: InMemoryQuoteRecorder) returns (response: Response<R>)
    requires recorder.Valid()
    modifies recorder
    ensures recorder.Valid() && recorder.history == old(recorder.history) + TraceOf(job)
    ensures response == ResponseOf(job.world, CallFrom(job.policy, job.world, job.start))
  {
    hide Answers, TellsAttempts, ResponseOf, RecordsOf, CallFrom;
    var answer, _ := ExecuteProviderCall(job.policy, job.world, job.start, recorder);
    response := answer;
  }

  /** After any sequence of calls the recorder holds the end of their traces put together. */
  method ExecuteAll<R>(jobs: seq<Job<R>>, recorder: InMemoryQuoteRecorder) returns (responses: seq<Response<R>>)
    requires recorder.Valid()
    modifies recorder
    ensures recorder.Valid() && recorder.history == old(recorder.history) + TracesOf(jobs)
    ensures recorder.entries == LastN(old(recorder.history) + TracesOf(jobs), recorder.maxEntries)
    ensures |responses| == |jobs|
    ensures forall i :: 0 <= i < |jobs| ==>
              responses[i] == ResponseOf(jobs[i].world, CallFrom(jobs[i].policy, jobs[i].world, jobs[i].start))
  {
    hide CallFrom, ResponseOf, TraceOf;
    responses := [];
    for i := 0 to |jobs|
      invariant recorder.Valid() && recorder.history == old(recorder.history) + TracesOf(jobs[..i])
      invariant |responses| == i
      invariant forall j :: 0 <= j < i ==>
                  responses[j] == ResponseOf(jobs[j].world, CallFrom(jobs[j].policy, jobs[j].world, jobs[j].start))
    {
      var job := jobs[i];
      var response := ExecuteJob(job, recorder);
      assert jobs[..i + 1][..i] == jobs[..i];
      responses := responses + [response];
    }
    assert jobs[..|jobs|] == jobs;
  }

  function JobsOf<R>(jobs: seq<Job<R>>, providerId: string): seq<Job<R>> {
    if jobs == [] then []
    else JobsOf(jobs[..|jobs| - 1], providerId) +
         (if jobs[|jobs| - 1].world.providerName == providerId then [jobs[|jobs| - 1]] else [])
  }

  /** A provider's records are the traces of its own calls, whoever else was recorded in between. */
  lemma {:induction false} TracesOfProvider<R>(jobs: seq<Job<R>>, providerId: string)
    ensures OfProvider(TracesOf(jobs), providerId) == TracesOf(JobsOf(jobs, providerId))
  {
    if jobs != [] {
      var init, job := jobs[..|jobs| - 1], jobs[|jobs| - 1];
      TracesOfProvider(init, providerId);
      OfProviderConcat(TracesOf(init), TraceOf(job), providerId);
      OneProviderOnly(TraceOf(job), job.world.providerName, providerId);
      if job.world.providerName == providerId {
        assert (JobsOf(init, providerId) + [job])[..|JobsOf(init, providerId)|] == JobsOf(init, providerId);
      } else {
        assert JobsOf(jobs, providerId) == JobsOf(init, providerId);
      }
    }
  }

  lemma {:induction false} OneProviderOnly(records: seq<Recorded>, name: string, providerId: string)
    requires forall i :: 0 <= i < |records| ==> records[i].entry.providerId == name
    ensures OfProvider(records, providerId) == if name == providerId then records else []
  {
    if records != [] {
      OneProviderOnly(records[..|records| - 1], name, providerId);
      assert records == records[..|records| - 1] + [records[|records| - 1]];
    }
  }
}
