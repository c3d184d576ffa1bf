/** One breaker per provider: the registry's breakers are independent of each other. */
module BreakerRegistry {
  import opened BreakerHistory
  import opened CircuitBreaker

  datatype Call = Call(provider: string, event: Event)

  datatype Row = Row(provider: string, view: View)

  /** The events of one provider, in order. */
  function Project(calls: seq<Call>, id: string): Log {
    if calls == [] then []
    else
      var rest, last := Project(calls[..|calls| - 1], id), calls[|calls| - 1];
      if last.provider == id then rest + [last.event] else rest
  }

  ghost predicate OrderedCalls(calls: seq<Call>) {
    forall i, j :: 0 <= i < j < |calls| ==> calls[i].event.at <= calls[j].event.at
  }

  predicate CallNotBefore(calls: seq<Call>, now: int) {
    calls != [] ==> calls[|calls| - 1].event.at <= now
  }

  lemma {:induction false} ProjectAppend(calls: seq<Call>, call: Call, id: string)
    ensures Project(calls + [call], id) ==
            if call.provider == id then Project(calls, id) + [call.event] else Project(calls, id)
  {
    assert (calls + [call])[..|calls|] == calls;
  }

  /** Every event of a provider happened no later than the last event of anybody. */
  lemma {:induction false} ProjectNotBefore(calls: seq<Call>, id: string, now: int)
    requires OrderedCalls(calls) && CallNotBefore(calls, now)
    ensures NotBefore(Project(calls, id), now)
  {
    if calls != [] && calls[|calls| - 1].provider != id {
      ProjectNotBefore(calls[..|calls| - 1], id, now);
    }
  }

  // ---------------------------------------------------------------- sorting

  ghost predicate TotalOrder(le: (string, string) -> bool) {
    && (forall a, b :: le(a, b) || le(b, a))
    && (forall a, b, c :: le(a, b) && le(b, c) ==> le(a, c))
  }

  ghost predicate SortedRows(rows: seq<Row>, le: (string, string) -> bool) {
    forall i, j :: 0 <= i < j < |rows| ==> le(rows[i].provider, rows[j].provider)
  }

  function InsertRow(rows: seq<Row>, row: Row, le: (string, string) -> bool): (r: seq<Row>)
    ensures multiset(r) == multiset(rows) + multiset{row}
  {
    if rows == [] then [row]
    else
      assert rows == [rows[0]] + rows[1..];
      if !le(rows[0].provider, row.provider) then [row] + rows
      else [rows[0]] + InsertRow(rows[1..], row, le)
  }

  /** The array sort of the snapshot, for a comparator `le`. */
  function SortRows(rows: seq<Row>, le: (string, string) -> bool): (r: seq<Row>)
    ensures multiset(r) == multiset(rows)
  {
    if rows == [] then []
    else
      assert rows == rows[..|rows| - 1] + [rows[|rows| - 1]];
      InsertRow(SortRows(rows[..|rows| - 1], le), rows[|rows| - 1], le)
  }

  lemma {:induction false} InsertRowSorted(rows: seq<Row>, row: Row, le: (string, string) -> bool)
    requires TotalOrder(le) && SortedRows(rows, le)
    ensures SortedRows(InsertRow(rows, row, le), le)
  {
    if rows != [] && le(rows[0].provider, row.provider) {
      InsertRowSorted(rows[1..], row, le);
      var rest := InsertRow(rows[1..], row, le);
      forall j | 0 <= j < |rest| ensures le(rows[0].provider, rest[j].provider) {
        assert rest[j] in multiset(rest);
        assert rest[j] in rows[1..] || rest[j] == row;
      }
    }
  }

  lemma {:induction false} SortRowsSorted(rows: seq<Row>, le: (string, string) -> bool)
    requires TotalOrder(le)
    ensures SortedRows(SortRows(rows, le), le)
  {
    if rows != [] {
      SortRowsSorted(rows[..|rows| - 1], le);
      InsertRowSorted(SortRows(rows[..|rows| - 1], le), rows[|rows| - 1], le);
    }
  }

  /** One call on one breaker, chosen by its kind. */
  method Perform(breaker: ProviderCircuitBreaker, e: Event) returns (answer: Answer)
    requires breaker.Valid() && NotBefore(breaker.log, e.at)
    modifies breaker
    ensures breaker.Valid() && breaker.log == old(breaker.log) + [e]
    ensures answer == AnswerTo(breaker.Settings(), old(breaker.log), e)
  {
    answer := Recorded;
    match e.kind {
      case Admit =>
        var allowed := breaker.AdmitCall(e.at);
        answer := Admission(allowed);
      case Candidates =>
        var allowed := breaker.AllowsCandidates(e.at);
        answer := Candidacy(allowed);
      case Snapshot =>
        var view := breaker.TakeSnapshot(e.at);
        answer := Status(view);
      case Success =>
        breaker.RecordSuccess(e.at);
      case Failure =>
        breaker.RecordFailure(e.at);
    }
  }

  // ---------------------------------------------------------------- the registry

  ghost predicate Follows(breaker: ProviderCircuitBreaker, id: string, c: Config, log: Log)
    reads breaker
  {
    breaker.Valid() && breaker.providerId == id && breaker.Settings() == c && breaker.log == log
  }

  class CircuitBreakerRegistry {
    const failureThreshold: int
    const cooldownMs: int

    var breakers: map<string, ProviderCircuitBreaker>
    var insertion: seq<string>  // the map's iteration order

    ghost var calls: seq<Call>  // every call on any breaker, in order

    ghost function Settings(): Config {
      Config(failureThreshold, cooldownMs)
    }

    /** Each breaker is in the state a lone breaker reaches on its own provider's events. */
    ghost predicate Valid()
      reads this, breakers.Values
    {
      && OrderedCalls(calls)
      && (forall id :: id in breakers ==> Follows(breakers[id], id, Settings(), Project(calls, id)))
      && (forall id :: id !in breakers ==> Project(calls, id) == [])
      && (forall a, b :: a in breakers && b in breakers && a != b ==> breakers[a] != breakers[b])
      && (forall id :: id in insertion <==> id in breakers)
      && (forall i, j :: 0 <= i < j < |insertion| ==> insertion[i] != insertion[j])
    }

    constructor (failureThreshold: int, cooldownMs: int)
      ensures Valid() && calls == [] && breakers == map[]
      ensures this.failureThreshold == failureThreshold && this.cooldownMs == cooldownMs
    {
      this.failureThreshold := failureThreshold;
      this.cooldownMs := cooldownMs;
      breakers, insertion, calls := map[], [], [];
    }

    /** The same object for the same id, for ever. */
    method ForProvider(id: string) returns (breaker: ProviderCircuitBreaker)
      requires Valid()
      modifies this`breakers, this`insertion
      ensures Valid()
      ensures id in old(breakers) ==> breakers == old(breakers) && insertion == old(insertion)
      ensures id !in old(breakers) ==>
                breakers == old(breakers)[id := breaker] && insertion == old(insertion) + [id] && fresh(breaker)
      ensures breakers[id] == breaker
    {
      if id in breakers {
        return breakers[id];
      }
      breaker := new ProviderCircuitBreaker(id, failureThreshold, cooldownMs);
      breakers := breakers[id := breaker];
      insertion := insertion + [id];
    }

    /** Any call a wrapped provider makes: look the breaker up, then call it. The answer is that of a
        breaker which only ever saw this provider's events, and no other breaker changes. */
    method Deliver(id: string, e: Event) returns (answer: Answer)
      requires Valid() && CallNotBefore(calls, e.at)
      modifies this, if id in breakers then {breakers[id]} else {}
      ensures Valid() && calls == old(calls) + [Call(id, e)]
      ensures answer == AnswerTo(Settings(), Project(old(calls), id), e)
      ensures id in breakers && (id !in old(breakers) ==> fresh(breakers[id]))
      ensures breakers == if id in old(breakers) then old(breakers) else old(breakers)[id := breakers[id]]
    {
      hide ProviderCircuitBreaker.Valid, Project, ViewAt, CooledDown, Admits, AllowedSinceOutcome;
      var breaker := ForProvider(id);
      answer := DeliverTo(id, breaker, e);
    }

    method DeliverTo(id: string, breaker: ProviderCircuitBreaker, e: Event) returns (answer: Answer)
      requires Valid() && CallNotBefore(calls, e.at)
      requires id in breakers && breakers[id] == breaker
      modifies this`calls, breaker
      ensures Valid() && calls == old(calls) + [Call(id, e)]
      ensures answer == AnswerTo(Settings(), Project(old(calls), id), e)
      ensures forall x :: Project(calls, x) ==
                if x == id then Project(old(calls), x) + [e] else Project(old(calls), x)
    {
      hide ProviderCircuitBreaker.Valid, Project, ViewAt, CooledDown, Admits, AllowedSinceOutcome;
      ProjectNotBefore(calls, id, e.at);
      answer := Perform(breaker, e);
      Note(id, e);
    }

    ghost method Note(id: string, e: Event)
      requires OrderedCalls(calls) && CallNotBefore(calls, e.at)
      modifies this`calls
      ensures calls == old(calls) + [Call(id, e)] && OrderedCalls(calls)
      ensures forall x :: Project(calls, x) ==
                if x == id then Project(old(calls), x) + [e] else Project(old(calls), x)
    {
      forall x {
        ProjectAppend(calls, Call(id, e), x);
      }
      calls := calls + [Call(id, e)];
    }

    /** Every provider the registry knows, once, in comparator order, each with the view its own
        events give it. */
    method TakeSnapshot(now: int, le: (string, string) -> bool) returns (rows: seq<Row>)
      requires Valid() && CallNotBefore(calls, now) && TotalOrder(le)
      modifies this`calls, breakers.Values
      ensures Valid() && breakers == old(breakers)
      ensures SortedRows(rows, le)
      ensures multiset(rows) == multiset(RowsOf(old(insertion), old(calls), now))
      ensures Looked(old(calls), calls, old(insertion), now)
    {
      rows := ViewAll(now);
      SortRowsSorted(rows, le);
      rows := SortRows(rows, le);
    }

    method ViewAll(now: int) returns (rows: seq<Row>)
      requires Valid() && CallNotBefore(calls, now)
      modifies this`calls, breakers.Values
      ensures Valid() && breakers == old(breakers)
      ensures rows == RowsOf(insertion, old(calls), now)
      ensures Looked(old(calls), calls, insertion, now)
    {
      hide ProviderCircuitBreaker.Valid, Project, ViewAt, CooledDown, Admits, AllowedSinceOutcome;
      hide Looked, RowsOf, RowOf;
      LookedNowhere(calls, now);
      RowsOfAppend([], "", calls, now);
      var i;
      rows, i := [], 0;
      while i < |insertion|
        modifies this`calls, breakers.Values
        invariant 0 <= i <= |insertion|
        invariant Valid() && CallNotBefore(calls, now)
        invariant rows == RowsOf(insertion[..i], old(calls), now)
        invariant Looked(old(calls), calls, insertion[..i], now)
      {
        NextIsNew(insertion, i);
        RowsOfAppend(insertion[..i], insertion[i], old(calls), now);
        var row := Look(insertion[i], insertion[..i], old(calls), now);
        rows := rows + [row];
        i := i + 1;
      }
      assert insertion[..i] == insertion;
    }

    method Look(id: string, ghost seen: seq<string>, ghost before: seq<Call>, now: int) returns (row: Row)
      requires Valid() && CallNotBefore(calls, now) && id in breakers
      requires id !in seen && Looked(before, calls, seen, now)
      modifies this`calls, breakers[id]
      ensures Valid() && CallNotBefore(calls, now)
      ensures row == RowOf(id, before, now)
      ensures Looked(before, calls, seen + [id], now)
    {
      hide ProviderCircuitBreaker.Valid, Project, ViewAt, CooledDown, Admits, AllowedSinceOutcome;
      assert Project(calls, id) == Project(before, id) + [] == Project(before, id);
      var answer := DeliverTo(id, breakers[id], Event(Snapshot, now));
      row := Row(id, answer.view);
      LookedExtends(before, old(calls), calls, seen, id, now);
    }

    lemma RowsOfAppend(ids: seq<string>, id: string, calls: seq<Call>, now: int)
      ensures RowsOf([], calls, now) == []
      ensures RowsOf(ids + [id], calls, now) == RowsOf(ids, calls, now) + [RowOf(id, calls, now)]
    {
    }

    lemma NextIsNew(ids: seq<string>, i: nat)
      requires i < |ids| && (forall j, k :: 0 <= j < k < |ids| ==> ids[j] != ids[k])
      ensures ids[i] !in ids[..i] && ids[..i + 1] == ids[..i] + [ids[i]]
    {
    }

    lemma LookedNowhere(calls: seq<Call>, now: int)
      ensures Looked(calls, calls, [], now)
    {
      forall x ensures Project(calls, x) == Project(calls, x) + [] {
      }
    }

    lemma LookedExtends(before: seq<Call>, mid: seq<Call>, after: seq<Call>, seen: seq<string>, id: string, now: int)
      requires Looked(before, mid, seen, now) && id !in seen
      requires forall x :: Project(after, x) ==
                 if x == id then Project(mid, x) + [Event(Snapshot, now)] else Project(mid, x)
      ensures Looked(before, after, seen + [id], now)
    {
      forall x
        ensures Project(after, x) == Project(before, x) + (if x in seen + [id] then [Event(Snapshot, now)] else [])
      {
        assert x in seen + [id] <==> x in seen || x == id;
        assert Project(before, x) + [] == Project(before, x);
        assert Project(mid, x) == Project(before, x) + (if x in seen then [Event(Snapshot, now)] else []);
      }
    }

    /** Each of `ids` was looked at once, and nobody else's log changed. */
    ghost predicate Looked(before: seq<Call>, after: seq<Call>, ids: seq<string>, now: int) {
      forall id :: Project(after, id) ==
        Project(before, id) + (if id in ids then [Event(Snapshot, now)] else [])
    }

    ghost function RowOf(id: string, calls: seq<Call>, now: int): Row {
      Row(id, ViewAt(Settings(), Project(calls, id), now))
    }

    ghost function RowsOf(ids: seq<string>, calls: seq<Call>, now: int): seq<Row> {
      seq(|ids|, i requires 0 <= i < |ids| => RowOf(ids[i], calls, now))
    }
  }
}
