/** The bounded in-memory log of provider calls. */
module QuoteRecorder {
  import opened Options

  datatype Outcome = Quoted | Failed

  datatype ErrorView = ErrorView(code: string, message: string)

  /** What the caller hands in. Timestamps are the parsed instants, None when they do not parse. */
  datatype Entry = Entry(
    providerId: string,
    capability: string,
    operation: string,
    requestedAt: Option<int>,
    receivedAt: Option<int>,
    outcome: Outcome,
    attempts: int,
    correlationId: Option<string>,
    request: string,
    quote: Option<string>,
    error: Option<ErrorView>)

  datatype Recorded = Recorded(entry: Entry, recordId: string, latencyMs: nat)

  function LatencyOf(e: Entry): nat {
    if e.requestedAt.None? || e.receivedAt.None? then 0
    else if e.receivedAt.value < e.requestedAt.value then 0
    else e.receivedAt.value - e.requestedAt.value
  }

  const DEFAULT_LIST_LIMIT := 100

  /** The last `n` elements, or all of them; none when `n` is not positive. */
  function LastN<T>(s: seq<T>, n: int): seq<T> {
    if n <= 0 then [] else if |s| <= n then s else s[|s| - n..]
  }

  /** Trimming early loses nothing that trimming late would have kept. */
  lemma LastNAbsorbs<T>(s: seq<T>, t: seq<T>, n: int)
    ensures LastN(LastN(s, n) + t, n) == LastN(s + t, n)
  {
  }

  function Reversed<T>(s: seq<T>): (r: seq<T>)
    ensures |r| == |s| && forall i :: 0 <= i < |s| ==> r[i] == s[|s| - 1 - i]
  {
    if s == [] then [] else Reversed(s[1..]) + [s[0]]
  }

  /** Array `slice(0, limit)`: a negative limit counts back from the end. */
  function SliceEnd(length: nat, limit: int): nat {
    if limit < 0 then (if length + limit < 0 then 0 else length + limit)
    else if limit < length then limit else length
  }

  function OfProvider(s: seq<Recorded>, providerId: string): seq<Recorded> {
    if s == [] then []
    else OfProvider(s[..|s| - 1], providerId) +
         (if s[|s| - 1].entry.providerId == providerId then [s[|s| - 1]] else [])
  }

  /** The filter keeps the order: it distributes over concatenation. */
  lemma {:induction false} OfProviderConcat(s: seq<Recorded>, t: seq<Recorded>, providerId: string)
    ensures OfProvider(s + t, providerId) == OfProvider(s, providerId) + OfProvider(t, providerId)
    decreases |t|
  {
    if t == [] {
      assert s + t == s;
    } else {
      var shorter := t[..|t| - 1];
      OfProviderConcat(s, shorter, providerId);
      assert (s + t)[..|s + t| - 1] == s + shorter;
    }
  }

  /** The filter keeps exactly the provider's records, as often as they occur. */
  lemma {:induction false} OfProviderCounts(s: seq<Recorded>, providerId: string, r: Recorded)
    ensures multiset(OfProvider(s, providerId))[r] ==
            if r.entry.providerId == providerId then multiset(s)[r] else 0
  {
    if s != [] {
      OfProviderCounts(s[..|s| - 1], providerId, r);
      assert s == s[..|s| - 1] + [s[|s| - 1]];
    }
  }

  class InMemoryQuoteRecorder {
    const maxEntries: int
    var entries: seq<Recorded>

    ghost var history: seq<Recorded>  // everything recorded since construction or the last clear

    ghost predicate Valid()
      reads this
    {
      entries == LastN(history, maxEntries)
    }

    constructor (maxEntries: int)
      ensures Valid() && history == [] && this.maxEntries == maxEntries
    {
      this.maxEntries := maxEntries;
      entries, history := [], [];
    }

    method Record(entry: Entry, recordId: string) returns (recorded: Recorded)
      requires Valid()
      modifies this
      ensures Valid() && history == old(history) + [recorded]
      ensures recorded.entry == entry && recorded.recordId == recordId
      ensures entry.requestedAt.None? || entry.receivedAt.None? ==> recorded.latencyMs == 0
      ensures entry.requestedAt.Some? && entry.receivedAt.Some? ==>
                var elapsed := entry.receivedAt.value - entry.requestedAt.value;
                recorded.latencyMs == (if elapsed > 0 then elapsed else 0)
    {
      recorded := Recorded(entry, recordId, LatencyOf(entry));
      LastNAbsorbs(history, [recorded], maxEntries);
      history := history + [recorded];
      entries := entries + [recorded];
      if |entries| > maxEntries {
        var surplus := |entries| - maxEntries;
        entries := if surplus >= |entries| then [] else entries[surplus..];
      }
    }

    /** Newest first. A limit below zero leaves that many of the oldest out. */
    method List(limit: Option<int>) returns (newest: seq<Recorded>)
      requires Valid()
      ensures var size := |LastN(history, maxEntries)|;
              && (limit.None? ==> |newest| == if size < 100 then size else 100)
              && (limit.Some? && limit.value >= 0 ==> |newest| == if size < limit.value then size else limit.value)
              && (limit.Some? && limit.value < 0 ==>
                    |newest| == if size + limit.value < 0 then 0 else size + limit.value)
      ensures forall i :: 0 <= i < |newest| ==> i < |history| && newest[i] == history[|history| - 1 - i]
    {
      var count := if limit.None? then DEFAULT_LIST_LIMIT else limit.value;
      newest := Reversed(entries)[..SliceEnd(|entries|, count)];
    }

    /** One provider's retained records, oldest first. */
    method ForProvider(providerId: string) returns (records: seq<Recorded>)
      requires Valid()
      ensures records == OfProvider(LastN(history, maxEntries), providerId)
    {
      records := OfProvider(entries, providerId);
    }

    method Size() returns (n: nat)
      requires Valid()
      ensures n == if maxEntries <= 0 then 0 else if |history| < maxEntries then |history| else maxEntries
    {
      n := |entries|;
    }

    method Clear()
      modifies this
      ensures Valid() && history == [] && entries == []
    {
      entries, history := [], [];
    }
  }
}
