/** The retry loop around an adapter: each attempt races a timer, leaves one record, and either ends
    the call or is followed by a pause, until the attempts or the time allowed run out.

    The world outside the loop is a `World`: what the adapter does on each attempt, which errors are
    retryable, the backoff, and three delays that are zero in an ideal run - how late an attempt's
    timer fires, how long writing a record takes and by how much a sleep overshoots. Nothing else
    takes time. */
module ProviderCall {
  import opened QuoteRecorder
  import opened Options

  datatype Policy = Policy(timeoutMs: int, overallTimeoutMs: int, maxAttempts: int)

  /** What may be thrown. `Typed` is any other application error, `Untyped` anything an adapter
      raises that is not one, `Nothing` the undefined value of a loop that never ran. */
  datatype CallError = TimedOut(afterMs: int) | Typed(view: ErrorView) | Untyped(message: string) | Nothing

  datatype Result<+R> = Value(value: R) | Error(error: CallError)

  /** `winsTie` decides the race when the adapter settles in the very millisecond the timer fires. */
  datatype Behaviour<+R> = Settles(afterMs: nat, result: Result<R>, winsTie: bool) | Hangs

  datatype World<!R> = World(
    adapter: nat -> Behaviour<R>,
    retryable: CallError -> bool,
    backoffMs: nat -> nat,
    timerLag: nat -> nat,
    recordLag: nat -> nat,
    sleepLag: nat -> nat,
    recordId: nat -> string,
    toRecord: R -> Option<string>,
    providerName: string,
    capability: string,
    operation: string,
    correlationId: Option<string>,
    request: string,
    timeoutText: int -> string)

  datatype Attempt<+R> = Attempt(number: nat, startedAt: int, result: Result<R>, settledAt: int)

  datatype Stop = Succeeded | NotRetryable | Exhausted | NoBudgetToSleep | BudgetSpent

  datatype Ending<+R> = Returned(value: R, attempts: nat, latencyMs: int) | Threw(error: CallError)

  datatype Trace<+R> = Trace(attempts: seq<Attempt<R>>, ending: Ending<R>, stop: Stop, finishedAt: int)

  // ---------------------------------------------------------------- one attempt

  function Min(a: int, b: int): int { if a < b then a else b }

  function Max(a: int, b: int): int { if a < b then b else a }

  /** A timer never fires sooner than one millisecond. */
  function TimerMs(ms: int): int { Max(1, ms) }

  /** The race between the adapter and an attempt timer of `timeoutMs` that fires `lag` late. */
  function Race<R>(b: Behaviour<R>, timeoutMs: int, lag: nat): (Result<R>, int) {
    var firesAt := TimerMs(timeoutMs) + lag;
    if b.Settles? && (b.afterMs < firesAt || (b.afterMs == firesAt && b.winsTie))
    then (b.result, b.afterMs)
    else (Error(TimedOut(timeoutMs)), firesAt)
  }

  function AttemptAt<R>(p: Policy, w: World<R>, deadline: int, number: nat, now: int): Attempt<R> {
    var (result, elapsed) := Race(w.adapter(number), Min(p.timeoutMs, deadline - now), w.timerLag(number));
    Attempt(number, now, result, now + elapsed)
  }

  function RecordedAt<R>(w: World<R>, a: Attempt<R>): int {
    a.settledAt + w.recordLag(a.number)
  }

  // ---------------------------------------------------------------- the specification

  /** Keep trying from attempt `number` at time `now`, the previous attempt having failed with
      `last`, until something other than a retryable failure happens or time runs out. */
  function Calls<R>(p: Policy, w: World<R>, start: int, number: nat, now: int, last: CallError): Trace<R>
    decreases p.maxAttempts - number + 1
  {
    var deadline := start + p.overallTimeoutMs;
    if number > p.maxAttempts then Trace([], Threw(last), Exhausted, now)
    else if deadline <= now then Trace([], Threw(TimedOut(p.overallTimeoutMs)), BudgetSpent, now)
    else
      var a := AttemptAt(p, w, deadline, number, now);
      var recorded := RecordedAt(w, a);
      match a.result
      case Value(v) => Trace([a], Returned(v, number, recorded - start), Succeeded, recorded)
      case Error(e) =>
        if !w.retryable(e) then Trace([a], Threw(e), NotRetryable, recorded)
        else if number == p.maxAttempts then Trace([a], Threw(e), Exhausted, recorded)
        else if recorded + w.backoffMs(number) >= deadline then Trace([a], Threw(e), NoBudgetToSleep, recorded)
        else
          var rest := Calls(p, w, start, number + 1, recorded + w.backoffMs(number) + w.sleepLag(number), e);
          After([a], rest)
  }

  function After<R>(done: seq<Attempt<R>>, rest: Trace<R>): Trace<R> {
    rest.(attempts := done + rest.attempts)
  }

  function CallFrom<R>(p: Policy, w: World<R>, start: int): Trace<R> {
    Calls(p, w, start, 1, start, Nothing)
  }

  // ---------------------------------------------------------------- errors and records

  function ViewOf<R>(w: World<R>, e: CallError): ErrorView {
    match e
    case TimedOut(ms) => ErrorView("PROVIDER_TIMEOUT", w.timeoutText(ms))
    case Typed(view) => view
    case Untyped(message) => ErrorView("INTERNAL_ERROR", message)
    case Nothing => ErrorView("INTERNAL_ERROR", "undefined")
  }

  /** Anything unclassified becomes a provider error, so a caller can always go by the code; a
      classified error is passed on. */
  function Normalised<R>(w: World<R>, e: CallError): (view: ErrorView)
    ensures view.code != "INTERNAL_ERROR"
    ensures ViewOf(w, e).code != "INTERNAL_ERROR" ==> view == ViewOf(w, e)
  {
    var view := ViewOf(w, e);
    if view.code == "INTERNAL_ERROR"
    then ErrorView("PROVIDER_ERROR", "Provider \"" + w.providerName + "\" failed: " + view.message)
    else view
  }

  function EntryOf<R>(w: World<R>, start: int, a: Attempt<R>): Entry {
    Entry(w.providerName, w.capability, w.operation, Some(start), Some(a.settledAt),
          if a.result.Value? then Quoted else Failed,
          a.number, w.correlationId, w.request,
          if a.result.Value? then w.toRecord(a.result.value) else None,
          if a.result.Value? then None else Some(ViewOf(w, a.result.error)))
  }

  function RecordOf<R>(w: World<R>, start: int, a: Attempt<R>): Recorded {
    var e := EntryOf(w, start, a);
    Recorded(e, w.recordId(a.number), LatencyOf(e))
  }

  function RecordsOf<R>(w: World<R>, start: int, attempts: seq<Attempt<R>>): seq<Recorded> {
    seq(|attempts|, i requires 0 <= i < |attempts| => RecordOf(w, start, attempts[i]))
  }

  // ---------------------------------------------------------------- what the caller is told

  /** The failure of an attempt as the caller sees it: the error view its record carries, or, where that
      view has the internal code, a provider error with the provider's name and the recorded message. */
  predicate TellsFailure(providerName: string, recorded: ErrorView, shown: ErrorView) {
    if recorded.code == "INTERNAL_ERROR" then
      && shown.code == "PROVIDER_ERROR"
      && shown.message == "Provider \"" + providerName + "\" failed: " + recorded.message
    else shown == recorded
  }

  /** What the record of an attempt holds: the call it belongs to, the time from the start of the call to
      the attempt's end, and the projected result or the error. */
  ghost predicate TellsAttempt<R>(w: World<R>, start: int, a: Attempt<R>, rec: Recorded) {
    var e := rec.entry;
    && e.providerId == w.providerName && e.capability == w.capability && e.operation == w.operation
    && e.correlationId == w.correlationId && e.request == w.request
    && e.attempts == a.number && rec.recordId == w.recordId(a.number)
    && e.requestedAt == Some(start) && e.receivedAt == Some(a.settledAt)
    && match a.result
       case Value(v) => e.outcome == Quoted && e.quote == w.toRecord(v) && e.error == None
       case Error(error) =>
         && e.outcome == Failed && e.quote == None && e.error.Some?
         && match error
            case TimedOut(ms) => e.error.value == ErrorView("PROVIDER_TIMEOUT", w.timeoutText(ms))
            case Typed(view) => e.error.value == view
            case Untyped(message) => e.error.value == ErrorView("INTERNAL_ERROR", message)
            case Nothing => e.error.value == ErrorView("INTERNAL_ERROR", "undefined")
  }

  ghost predicate TellsAttempts<R>(w: World<R>, start: int, attempts: seq<Attempt<R>>, records: seq<Recorded>) {
    |records| == |attempts| && forall i :: 0 <= i < |attempts| ==> TellsAttempt(w, start, attempts[i], records[i])
  }

  lemma RecordsTellAttempts<R>(w: World<R>, start: int, attempts: seq<Attempt<R>>)
    ensures TellsAttempts(w, start, attempts, RecordsOf(w, start, attempts))
  {
  }

  /** The response told from the attempts `done`, the records written for them and the time the call
      ended: the last attempt's value, or its failure, or the budget that ran out first. */
  ghost predicate Answers<R>(p: Policy, w: World<R>, start: int, t: Trace<R>, records: seq<Recorded>,
                             response: Response<R>)
  {
    var n := |t.attempts|;
    match response
    case Ok(value, attempts, latencyMs) =>
      && n > 0 && t.attempts[n - 1].result == Value(value)
      && attempts == n == |records| && latencyMs == t.finishedAt - start
    case Throw(shown) =>
      && (n > 0 ==> t.attempts[n - 1].result.Error?)
      && if t.stop == BudgetSpent then
           shown == ErrorView("PROVIDER_TIMEOUT", w.timeoutText(p.overallTimeoutMs))
         else if n == 0 then
           p.maxAttempts < 1 && TellsFailure(w.providerName, ErrorView("INTERNAL_ERROR", "undefined"), shown)
         else
           && |records| == n && records[n - 1].entry.error.Some?
           && TellsFailure(w.providerName, records[n - 1].entry.error.value, shown)
  }

  /** Any trace of the loop ends for the reason its last attempt gives. */
  ghost predicate EndsAsLast<R>(p: Policy, w: World<R>, start: int, number: nat, last: CallError, t: Trace<R>) {
    var n := |t.attempts|;
    && (forall i :: 0 <= i < n ==> t.attempts[i].number == number + i)
    && match t.ending
       case Returned(v, attempts, latencyMs) =>
         && n > 0 && t.attempts[n - 1].result == Value(v)
         && attempts == number + n - 1 && latencyMs == t.finishedAt - start && t.stop == Succeeded
       case Threw(e) =>
         && (n > 0 ==> t.attempts[n - 1].result.Error?)
         && if t.stop == BudgetSpent then e == TimedOut(p.overallTimeoutMs)
            else if n == 0 then number > p.maxAttempts && e == last
            else t.attempts[n - 1].result == Error(e)
  }

  lemma {:induction false} CallsEndAsLast<R>(p: Policy, w: World<R>, start: int, number: nat, now: int, last: CallError)
    ensures EndsAsLast(p, w, start, number, last, Calls(p, w, start, number, now, last))
    decreases p.maxAttempts - number + 1
  {
    hide Calls, IsAttempt, AttemptAt, EndsAsLast, EndingOf, StopOf;
    if number > p.maxAttempts || start + p.overallTimeoutMs <= now {
      NoAttemptEnds(p, w, start, number, now, last);
    } else {
      var a := AttemptAt(p, w, start + p.overallTimeoutMs, number, now);
      AttemptHas(p, w, start, number, now);
      if Retries(p, w, start, a) {
        RetryStep(p, w, start, a, last);
        var rest := Calls(p, w, start, number + 1, ResumesAt(w, a), a.result.error);
        CallsEndAsLast(p, w, start, number + 1, ResumesAt(w, a), a.result.error);
        RetryEndsAsLast(p, w, start, a, last, rest);
      } else {
        StopStep(p, w, start, a, last);
        StopEndsAsLast(p, w, start, a, last);
      }
    }
  }

  lemma NoAttemptEnds<R>(p: Policy, w: World<R>, start: int, number: nat, now: int, last: CallError)
    requires number > p.maxAttempts || start + p.overallTimeoutMs <= now
    ensures EndsAsLast(p, w, start, number, last, Calls(p, w, start, number, now, last))
  {
  }

  lemma AttemptHas<R>(p: Policy, w: World<R>, start: int, number: nat, now: int)
    requires number <= p.maxAttempts && now < start + p.overallTimeoutMs
    ensures var a := AttemptAt(p, w, start + p.overallTimeoutMs, number, now);
            IsAttempt(p, w, start, a) && a.number == number && a.startedAt == now
  {
  }

  lemma RetryEndsAsLast<R>(p: Policy, w: World<R>, start: int, a: Attempt<R>, last: CallError, rest: Trace<R>)
    requires Retries(p, w, start, a) && EndsAsLast(p, w, start, a.number + 1, a.result.error, rest)
    ensures EndsAsLast(p, w, start, a.number, last, After([a], rest))
  {
    var all := [a] + rest.attempts;
    assert forall i :: 0 < i < |all| ==> all[i] == rest.attempts[i - 1];
  }

  lemma StopEndsAsLast<R>(p: Policy, w: World<R>, start: int, a: Attempt<R>, last: CallError)
    requires !Retries(p, w, start, a)
    ensures EndsAsLast(p, w, start, a.number, last,
              Trace([a], EndingOf(w, start, a), StopOf(p, w, a), RecordedAt(w, a)))
  {
    hide Retries;
  }

  lemma EndingAnswers<R>(p: Policy, w: World<R>, start: int, t: Trace<R>)
    requires EndsAsLast(p, w, start, 1, Nothing, t)
    ensures Answers(p, w, start, t, RecordsOf(w, start, t.attempts), ResponseOf(w, t))
  {
    RecordsTellAttempts(w, start, t.attempts);
    hide RecordsOf;
  }

  lemma ResponseAnswers<R>(p: Policy, w: World<R>, start: int)
    ensures var t := CallFrom(p, w, start);
            Answers(p, w, start, t, RecordsOf(w, start, t.attempts), ResponseOf(w, t))
  {
    hide Calls, EndsAsLast, RecordsOf, ResponseOf;
    CallsEndAsLast(p, w, start, 1, start, Nothing);
    EndingAnswers(p, w, start, CallFrom(p, w, start));
  }

  // ---------------------------------------------------------------- the loop

  /** The result, or the error to throw, and the time the call ended. */
  datatype Response<+R> = Ok(value: R, attempts: int, latencyMs: int) | Throw(error: ErrorView)

  function ResponseOf<R>(w: World<R>, t: Trace<R>): Response<R> {
    match t.ending
    case Returned(v, n, latency) => Ok(v, n, latency)
    case Threw(e) => Throw(Normalised(w, e))
  }

  method ExecuteProviderCall<R>(p: Policy, w: World<R>, start: int, recorder: InMemoryQuoteRecorder)
    returns (response: Response<R>, finishedAt: int)
    requires recorder.Valid()
    modifies recorder
    ensures recorder.Valid()
    ensures response == ResponseOf(w, CallFrom(p, w, start))
    ensures finishedAt == CallFrom(p, w, start).finishedAt
    ensures recorder.history == old(recorder.history) + RecordsOf(w, start, CallFrom(p, w, start).attempts)
    ensures TellsAttempts(w, start, CallFrom(p, w, start).attempts, recorder.history[|old(recorder.history)|..])
    ensures response.Throw? <==> CallFrom(p, w, start).ending.Threw?
    ensures Answers(p, w, start, CallFrom(p, w, start), recorder.history[|old(recorder.history)|..], response)
    ensures response.Ok? ==> response.latencyMs == finishedAt - start
  {
    var deadline := start + p.overallTimeoutMs;
    var now := start;
    var lastError := Nothing;
    ghost var spec := CallFrom(p, w, start);
    ghost var done: seq<Attempt<R>>, recorded: seq<Recorded> := [], [];
    AfterNothing(w, start, spec);
    ResponseAnswers(p, w, start);
    RecordsTellAttempts(w, start, spec.attempts);
    hide Answers, TellsAttempts;
    hide Calls, After, IsAttempt, AttemptAt, RecordsOf, RecordOf, Normalised, InMemoryQuoteRecorder.Valid;
    var number := 1;
    while number <= p.maxAttempts
      invariant number >= 1
      invariant recorder.Valid() && recorder.history == old(recorder.history) + recorded
      invariant recorded == RecordsOf(w, start, done)
      invariant spec == After(done, Calls(p, w, start, number, now, lastError))
      decreases p.maxAttempts - number
    {
      if deadline - now <= 0 {
        NoAttemptLeft(p, w, start, number, now, lastError, done);
        lastError := TimedOut(p.overallTimeoutMs);
        break;
      }
      var a := TryOnce(p, w, start, deadline, number, now, recorder);
      RecordsOfAppend(w, start, done, a);
      recorded := recorded + [RecordOf(w, start, a)];
      now := a.settledAt + w.recordLag(number);
      if a.result.Value? {
        StopUnfolds(p, w, start, a, lastError, done);
        return Ok(a.result.value, number, now - start), now;
      }
      var retryable := w.retryable(a.result.error);
      var attemptsLeft := number < p.maxAttempts;
      var delay := w.backoffMs(number);
      if !retryable || !attemptsLeft || delay >= deadline - now {
        StopUnfolds(p, w, start, a, lastError, done);
        lastError, done := a.result.error, done + [a];
        break;
      }
      RetryUnfolds(p, w, start, a, lastError, done);
      lastError, done := a.result.error, done + [a];
      now := now + delay + w.sleepLag(number);
      number := number + 1;
    }
    if number > p.maxAttempts {
      NoAttemptLeft(p, w, start, number, now, lastError, done);
    }
    assert spec.attempts == done && spec.ending == Threw(lastError) && spec.finishedAt == now;
    return Throw(Normalised(w, lastError)), now;
  }

  /** One attempt under its own timer, recorded before the loop decides what it means. */
  method TryOnce<R>(p: Policy, w: World<R>, start: int, deadline: int, number: nat, now: int,
                    recorder: InMemoryQuoteRecorder) returns (a: Attempt<R>)
    requires recorder.Valid() && now < deadline && number <= p.maxAttempts
    requires deadline == start + p.overallTimeoutMs
    modifies recorder
    ensures IsAttempt(p, w, start, a) && a.number == number && a.startedAt == now
    ensures recorder.Valid() && recorder.history == old(recorder.history) + [RecordOf(w, start, a)]
  {
    var (result, elapsed) := Race(w.adapter(number), Min(p.timeoutMs, deadline - now), w.timerLag(number));
    a := Attempt(number, now, result, now + elapsed);
    RecordAttempt(w, start, a, recorder);
  }

  /** One record per attempt, written before the loop decides what the attempt means. */
  method RecordAttempt<R>(w: World<R>, start: int, a: Attempt<R>, recorder: InMemoryQuoteRecorder)
    requires recorder.Valid()
    modifies recorder
    ensures recorder.Valid() && recorder.history == old(recorder.history) + [RecordOf(w, start, a)]
    ensures TellsAttempt(w, start, a, recorder.history[|old(recorder.history)|])
  {
    var e;
    if a.result.Value? {
      e := Entry(w.providerName, w.capability, w.operation, Some(start), Some(a.settledAt), Quoted, a.number,
                 w.correlationId, w.request, w.toRecord(a.result.value), None);
    } else {
      e := Entry(w.providerName, w.capability, w.operation, Some(start), Some(a.settledAt), Failed, a.number,
                 w.correlationId, w.request, None, Some(ViewOf(w, a.result.error)));
    }
    var _ := recorder.Record(e, w.recordId(a.number));
  }

  /** The two ways out of the loop that make no attempt. */
  lemma NoAttemptLeft<R>(p: Policy, w: World<R>, start: int, number: nat, now: int, last: CallError,
                         done: seq<Attempt<R>>)
    requires number > p.maxAttempts || start + p.overallTimeoutMs <= now
    ensures After(done, Calls(p, w, start, number, now, last)) ==
            if number > p.maxAttempts then Trace(done, Threw(last), Exhausted, now)
            else Trace(done, Threw(TimedOut(p.overallTimeoutMs)), BudgetSpent, now)
  {
  }

  predicate Retries<R>(p: Policy, w: World<R>, start: int, a: Attempt<R>) {
    && a.result.Error? && w.retryable(a.result.error)
    && a.number < p.maxAttempts
    && RecordedAt(w, a) + w.backoffMs(a.number) < start + p.overallTimeoutMs
  }

  function ResumesAt<R>(w: World<R>, a: Attempt<R>): int {
    RecordedAt(w, a) + w.backoffMs(a.number) + w.sleepLag(a.number)
  }

  ghost predicate IsAttempt<R>(p: Policy, w: World<R>, start: int, a: Attempt<R>) {
    && a.number <= p.maxAttempts && a.startedAt < start + p.overallTimeoutMs
    && a == AttemptAt(p, w, start + p.overallTimeoutMs, a.number, a.startedAt)
  }

  lemma RetryStep<R>(p: Policy, w: World<R>, start: int, a: Attempt<R>, last: CallError)
    requires IsAttempt(p, w, start, a) && Retries(p, w, start, a)
    ensures Calls(p, w, start, a.number, a.startedAt, last) ==
            After([a], Calls(p, w, start, a.number + 1, ResumesAt(w, a), a.result.error))
  {
  }

  /** A retried attempt, seen from a run that has already made the attempts `done`. */
  lemma RetryUnfolds<R>(p: Policy, w: World<R>, start: int, a: Attempt<R>, last: CallError, done: seq<Attempt<R>>)
    requires IsAttempt(p, w, start, a) && Retries(p, w, start, a)
    ensures After(done, Calls(p, w, start, a.number, a.startedAt, last)) ==
            After(done + [a], Calls(p, w, start, a.number + 1, ResumesAt(w, a), a.result.error))
  {
    RetryStep(p, w, start, a, last);
    hide Calls, AttemptAt;
    var rest := Calls(p, w, start, a.number + 1, ResumesAt(w, a), a.result.error);
    assert done + ([a] + rest.attempts) == (done + [a]) + rest.attempts;
  }

  function StopOf<R>(p: Policy, w: World<R>, a: Attempt<R>): Stop {
    if a.result.Value? then Succeeded
    else if !w.retryable(a.result.error) then NotRetryable
    else if a.number == p.maxAttempts then Exhausted
    else NoBudgetToSleep
  }

  function EndingOf<R>(w: World<R>, start: int, a: Attempt<R>): Ending<R> {
    match a.result
    case Value(v) => Returned(v, a.number, RecordedAt(w, a) - start)
    case Error(e) => Threw(e)
  }

  /** A last attempt. */
  lemma StopStep<R>(p: Policy, w: World<R>, start: int, a: Attempt<R>, last: CallError)
    requires IsAttempt(p, w, start, a) && !Retries(p, w, start, a)
    ensures Calls(p, w, start, a.number, a.startedAt, last) ==
            Trace([a], EndingOf(w, start, a), StopOf(p, w, a), RecordedAt(w, a))
  {
  }

  lemma StopUnfolds<R>(p: Policy, w: World<R>, start: int, a: Attempt<R>, last: CallError, done: seq<Attempt<R>>)
    requires IsAttempt(p, w, start, a) && !Retries(p, w, start, a)
    ensures After(done, Calls(p, w, start, a.number, a.startedAt, last)) ==
            Trace(done + [a], EndingOf(w, start, a), StopOf(p, w, a), RecordedAt(w, a))
  {
    StopStep(p, w, start, a, last);
  }

  lemma RecordsOfAppend<R>(w: World<R>, start: int, done: seq<Attempt<R>>, a: Attempt<R>)
    ensures RecordsOf(w, start, done + [a]) == RecordsOf(w, start, done) + [RecordOf(w, start, a)]
  {
  }

  lemma AfterNothing<R>(w: World<R>, start: int, t: Trace<R>)
    ensures After([], t) == t && RecordsOf(w, start, []) == []
  {
    assert [] + t.attempts == t.attempts;
  }
}
