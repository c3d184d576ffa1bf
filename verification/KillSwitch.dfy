/** Operator kill switches: the in-process registry is always what a restart would load. */
module KillSwitch {
  import opened Options

  datatype Release = Release(at: string, actor: string, reason: string)

  /** The fields an engage request writes. */
  datatype Details = Details(
    kind: string, providerId: Option<string>, sourceAsset: Option<string>, targetAsset: Option<string>,
    region: Option<string>, reason: string, engagedAt: string, engagedByActor: string)

  datatype Override = Override(id: string, targetKey: string, details: Details, released: Option<Release>)

  predicate IsActive(r: Override, key: string) {
    r.targetKey == key && r.released.None?
  }

  // ---------------------------------------------------------------- the store's rows

  /** The first unreleased row of a key, in insertion order; `|rows|` when there is none. */
  function FindActive(rows: seq<Override>, key: string): (i: nat)
    ensures i <= |rows|
    ensures i < |rows| ==> IsActive(rows[i], key)
    ensures forall j :: 0 <= j < i ==> !IsActive(rows[j], key)
  {
    if rows == [] then 0 else if IsActive(rows[0], key) then 0 else 1 + FindActive(rows[1..], key)
  }

  function EngagedRow(rows: seq<Override>, id: string, key: string, d: Details): Override {
    var i := FindActive(rows, key);
    if i < |rows| then rows[i].(details := d) else Override(id, key, d, None)
  }

  /** Engaging an active key rewrites its row; otherwise a row is added. */
  function EngageRows(rows: seq<Override>, id: string, key: string, d: Details): seq<Override> {
    var i := FindActive(rows, key);
    if i < |rows| then rows[i := EngagedRow(rows, id, key, d)] else rows + [EngagedRow(rows, id, key, d)]
  }

  function ReleaseRows(rows: seq<Override>, key: string, r: Release): seq<Override> {
    var i := FindActive(rows, key);
    if i < |rows| then rows[i := rows[i].(released := Some(r))] else rows
  }

  function ActiveRows(rows: seq<Override>): seq<Override> {
    if rows == [] then []
    else (if rows[0].released.None? then [rows[0]] else []) + ActiveRows(rows[1..])
  }

  /** What hydrating from a list of rows leaves in the registry: the last unreleased row per key. */
  function Hydrated(records: seq<Override>): map<string, Override> {
    if records == [] then map[]
    else
      var r := records[|records| - 1];
      var before := Hydrated(records[..|records| - 1]);
      if r.released.None? then before[r.targetKey := r] else before
  }

  /** Hydrating keeps, under each key, the last unreleased row listed for it. */
  lemma {:induction false} HydratedIs(records: seq<Override>, key: string)
    ensures key in Hydrated(records) <==> exists i :: 0 <= i < |records| && IsActive(records[i], key)
    ensures key in Hydrated(records) ==>
              exists i :: 0 <= i < |records| && IsActive(records[i], key) && Hydrated(records)[key] == records[i]
                && forall j :: i < j < |records| ==> !IsActive(records[j], key)
  {
    if records != [] {
      var n := |records| - 1;
      var init := records[..n];
      HydratedIs(init, key);
      assert forall i :: 0 <= i < n ==> init[i] == records[i];
      if IsActive(records[n], key) {
      } else if key in Hydrated(init) {
        var i :| 0 <= i < n && IsActive(init[i], key) && Hydrated(init)[key] == init[i]
          && forall j :: i < j < n ==> !IsActive(init[j], key);
        assert records[i] == init[i];
      }
    }
  }

  // ---------------------------------------------------------------- runs

  datatype Op = Engage(id: string, key: string, details: Details) | Disengage(key: string, release: Release)

  datatype Kill = Kill(rows: seq<Override>, active: map<string, Override>)

  /** One completed request: the store changes, then the registry - unless the release found nothing. */
  function Perform(k: Kill, op: Op): Kill {
    match op
    case Engage(id, key, d) =>
      Kill(EngageRows(k.rows, id, key, d), k.active[key := EngagedRow(k.rows, id, key, d)])
    case Disengage(key, r) =>
      if FindActive(k.rows, key) == |k.rows| then k
      else Kill(ReleaseRows(k.rows, key, r), k.active - {key})
  }

  function PerformAll(ops: seq<Op>): Kill {
    if ops == [] then Kill([], map[]) else Perform(PerformAll(ops[..|ops| - 1]), ops[|ops| - 1])
  }

  /** At most one unreleased row per key, and the registry holds exactly those rows. */
  ghost predicate InStep(k: Kill) {
    && (forall i, j :: 0 <= i < j < |k.rows| ==>
          k.rows[i].released.None? && k.rows[j].released.None? ==> k.rows[i].targetKey != k.rows[j].targetKey)
    && (forall i :: 0 <= i < |k.rows| && k.rows[i].released.None? ==>
          k.rows[i].targetKey in k.active && k.active[k.rows[i].targetKey] == k.rows[i])
    && (forall key :: key in k.active ==> IsActive(k.active[key], key) && k.active[key] in k.rows)
  }

  lemma PerformKeepsInStep(k: Kill, op: Op)
    requires InStep(k)
    ensures InStep(Perform(k, op))
  {
    var key := op.key;
    var i := FindActive(k.rows, key);
    var t := Perform(k, op);
    if i < |k.rows| {
      forall x | x in t.active ensures IsActive(t.active[x], x) && t.active[x] in t.rows {
        if x == key {
          assert t.rows[i] == t.active[x];
        } else {
          var j :| 0 <= j < |k.rows| && k.rows[j] == k.active[x];
          assert t.rows[j] == k.rows[j];
        }
      }
    } else if op.Engage? {
      forall x | x in t.active ensures IsActive(t.active[x], x) && t.active[x] in t.rows {
        if x == key {
          assert t.rows[|k.rows|] == t.active[x];
        } else {
          var j :| 0 <= j < |k.rows| && k.rows[j] == k.active[x];
          assert t.rows[j] == k.rows[j];
        }
      }
    }
  }

  lemma {:induction false} EveryRunInStep(ops: seq<Op>)
    ensures InStep(PerformAll(ops))
  {
    if ops != [] {
      EveryRunInStep(ops[..|ops| - 1]);
      PerformKeepsInStep(PerformAll(ops[..|ops| - 1]), ops[|ops| - 1]);
    }
  }

  lemma {:induction false} ActiveRowsAre(rows: seq<Override>, r: Override)
    ensures r in ActiveRows(rows) <==> r in rows && r.released.None?
  {
    if rows != [] {
      ActiveRowsAre(rows[1..], r);
      assert rows == [rows[0]] + rows[1..];
    }
  }

  /** Hydrating from rows that agree with a registry gives entries of that registry. */
  lemma {:induction false} HydratedWithin(records: seq<Override>, active: map<string, Override>)
    requires forall r :: r in records && r.released.None? ==> r.targetKey in active && active[r.targetKey] == r
    ensures forall key :: key in Hydrated(records) ==> key in active && Hydrated(records)[key] == active[key]
    ensures forall r :: r in records && r.released.None? ==> r.targetKey in Hydrated(records)
  {
    if records != [] {
      var init, r := records[..|records| - 1], records[|records| - 1];
      assert records == init + [r];
      HydratedWithin(init, active);
    }
  }

  /** In step, hydrating from the active rows - listed in whatever order the store lists them -
      rebuilds the registry exactly. */
  lemma HydrateRebuilds(k: Kill, listed: seq<Override>)
    requires InStep(k) && multiset(listed) == multiset(ActiveRows(k.rows))
    ensures Hydrated(listed) == k.active
  {
    forall r ensures r in listed <==> r in k.rows && r.released.None? {
      ActiveRowsAre(k.rows, r);
      assert r in multiset(listed) <==> r in multiset(ActiveRows(k.rows));
    }
    HydratedWithin(listed, k.active);
    forall key | key in k.active ensures key in Hydrated(listed) {
      assert k.active[key] in listed;
    }
  }

  /** After any sequence of completed requests a restart changes nothing. */
  lemma RestartEquivalence(ops: seq<Op>, listed: seq<Override>)
    requires multiset(listed) == multiset(ActiveRows(PerformAll(ops).rows))
    ensures Hydrated(listed) == PerformAll(ops).active
  {
    EveryRunInStep(ops);
    HydrateRebuilds(PerformAll(ops), listed);
  }

  /** Engaging a key that was not engaged and releasing it again restores the registry. */
  lemma EngageThenRelease(k: Kill, id: string, key: string, d: Details, r: Release)
    requires InStep(k) && key !in k.active
    ensures Perform(Perform(k, Engage(id, key, d)), Disengage(key, r)).active == k.active
    ensures ActiveRows(Perform(Perform(k, Engage(id, key, d)), Disengage(key, r)).rows) == ActiveRows(k.rows)
  {
    assert FindActive(k.rows, key) == |k.rows|;
    var row := Override(id, key, d, None);
    var t := Perform(k, Engage(id, key, d));
    assert t.rows == k.rows + [row];
    assert IsActive(t.rows[|k.rows|], key);
    assert forall j :: 0 <= j < |k.rows| ==> t.rows[j] == k.rows[j];
    assert FindActive(t.rows, key) == |k.rows|;
    var after := row.(released := Some(r));
    assert ReleaseRows(t.rows, key, r) == k.rows + [after];
    ActiveRowsAppend(k.rows, after);
  }

  lemma {:induction false} ActiveRowsAppend(rows: seq<Override>, r: Override)
    ensures ActiveRows(rows + [r]) == ActiveRows(rows) + (if r.released.None? then [r] else [])
  {
    if rows == [] {
      assert rows + [r] == [r];
    } else {
      ActiveRowsAppend(rows[1..], r);
      assert (rows + [r])[1..] == rows[1..] + [r];
    }
  }

  // ---------------------------------------------------------------- exclusion

  /** The text operations and the licensing regions of a corridor, which core defines. */
  datatype Lookup = Lookup(upper: string -> string, trim: string -> string, regions: (string, string) -> seq<string>)

  /** The keys whose engagement excludes a provider from a corridor. */
  ghost function KeysOf(l: Lookup, providerId: string, source: string, target: string): set<string> {
    {"provider:" + providerId, "corridor:" + l.upper(source) + "|" + l.upper(target)}
    + (set i | 0 <= i < |l.regions(source, target)| :: RegionKey(l, l.regions(source, target)[i]))
  }

  function RegionKey(l: Lookup, region: string): string { "region:" + l.upper(l.trim(region)) }

  function SomeRegionEngaged(l: Lookup, active: map<string, Override>, regions: seq<string>): (b: bool)
    ensures b <==> exists i :: 0 <= i < |regions| && RegionKey(l, regions[i]) in active
  {
    regions != [] && (RegionKey(l, regions[0]) in active || SomeRegionEngaged(l, active, regions[1..]))
  }

  function IsExcluded(l: Lookup, active: map<string, Override>, providerId: string, source: string,
                      target: string): bool
  {
    if "provider:" + providerId in active then true
    else if "corridor:" + l.upper(source) + "|" + l.upper(target) in active then true
    else SomeRegionEngaged(l, active, l.regions(source, target))
  }

  lemma ExcludedIffKeyEngaged(l: Lookup, active: map<string, Override>, p: string, s: string, t: string)
    ensures IsExcluded(l, active, p, s, t) <==> KeysOf(l, p, s, t) * active.Keys != {}
  {
    var keys := KeysOf(l, p, s, t);
    if SomeRegionEngaged(l, active, l.regions(s, t)) {
      var i :| 0 <= i < |l.regions(s, t)| && RegionKey(l, l.regions(s, t)[i]) in active;
      assert RegionKey(l, l.regions(s, t)[i]) in keys * active.Keys;
    }
    if "provider:" + p in active {
      assert "provider:" + p in keys * active.Keys;
    }
    if "corridor:" + l.upper(s) + "|" + l.upper(t) in active {
      assert "corridor:" + l.upper(s) + "|" + l.upper(t) in keys * active.Keys;
    }
    if keys * active.Keys != {} {
      var k :| k in keys * active.Keys;
    }
  }

  /** More engaged keys never re-admit anyone, and engaging one key only excludes requests that look
      that key up. */
  lemma ExclusionMonotone(l: Lookup, a: map<string, Override>, b: map<string, Override>,
                          p: string, s: string, t: string)
    requires a.Keys <= b.Keys
    ensures IsExcluded(l, a, p, s, t) ==> IsExcluded(l, b, p, s, t)
    ensures !IsExcluded(l, a, p, s, t) && IsExcluded(l, b, p, s, t) ==>
              KeysOf(l, p, s, t) * (b.Keys - a.Keys) != {}
  {
    ExcludedIffKeyEngaged(l, a, p, s, t);
    ExcludedIffKeyEngaged(l, b, p, s, t);
    var keys := KeysOf(l, p, s, t);
    assert keys * a.Keys <= keys * b.Keys;
    if !IsExcluded(l, a, p, s, t) && IsExcluded(l, b, p, s, t) {
      var k :| k in keys * b.Keys;
      assert k !in keys * a.Keys;
      assert k in keys * (b.Keys - a.Keys);
    }
  }

  // ---------------------------------------------------------------- the objects

  class RoutingOverrideStore {
    var rows: seq<Override>

    constructor ()
      ensures rows == []
    {
      rows := [];
    }

    /** `sort` is the listing order, some permutation of the active rows. */
    method ListActive(sort: seq<Override> -> seq<Override>) returns (listed: seq<Override>)
      requires forall s :: multiset(sort(s)) == multiset(s)
      ensures multiset(listed) == multiset(ActiveRows(rows))
    {
      listed := sort(ActiveRows(rows));
    }

    method EngageRow(id: string, key: string, d: Details) returns (row: Override)
      modifies this
      ensures rows == EngageRows(old(rows), id, key, d) && row == EngagedRow(old(rows), id, key, d)
      ensures row.targetKey == key && row.details == d && row.released == None && row in rows
      ensures |rows| == |old(rows)| + (if exists i :: 0 <= i < |old(rows)| && IsActive(old(rows)[i], key) then 0 else 1)
      ensures forall i :: 0 <= i < |old(rows)| ==>
                rows[i] == old(rows)[i] || (IsActive(old(rows)[i], key) && rows[i] == row && row.id == old(rows)[i].id)
      ensures |rows| > |old(rows)| ==> row.id == id && rows[|old(rows)|] == row
    {
      var i := FindActive(rows, key);
      if i < |rows| {
        row := rows[i].(details := d);
        rows := rows[i := row];
        assert rows[i] == row;
      } else {
        row := Override(id, key, d, None);
        rows := rows + [row];
        assert rows[i] == row;
      }
    }

    method ReleaseRow(key: string, r: Release) returns (row: Option<Override>)
      modifies this
      ensures rows == ReleaseRows(old(rows), key, r)
      ensures row.None? <==> forall i :: 0 <= i < |old(rows)| ==> !IsActive(old(rows)[i], key)
      ensures row.None? ==> rows == old(rows)
      ensures row.Some? ==> row.value.targetKey == key && row.value.released == Some(r) && row.value in rows
      ensures |rows| == |old(rows)|
      ensures forall i :: 0 <= i < |rows| ==>
                rows[i] == old(rows)[i]
                || (IsActive(old(rows)[i], key) && row.Some?
                    && rows[i] == row.value == old(rows)[i].(released := Some(r)))
    {
      var i := FindActive(rows, key);
      if i == |rows| {
        return None;
      }
      var updated := rows[i].(released := Some(r));
      rows := rows[i := updated];
      assert rows[i] == updated;
      return Some(updated);
    }
  }

  class ManualOverrideRegistry {
    var active: map<string, Override>

    constructor ()
      ensures active == map[]
    {
      active := map[];
    }

    method Hydrate(records: seq<Override>)
      modifies this
      ensures active == Hydrated(records)
    {
      active := map[];
      for i := 0 to |records|
        invariant active == Hydrated(records[..i])
      {
        assert records[..i + 1][..i] == records[..i];
        if records[i].released.None? {
          active := active[records[i].targetKey := records[i]];
        }
      }
      assert records[..|records|] == records;
    }

    method EngageRecord(record: Override)
      modifies this
      ensures active == old(active)[record.targetKey := record]
    {
      active := active[record.targetKey := record];
    }

    method ReleaseKey(targetKey: string)
      modifies this
      ensures active == old(active) - {targetKey}
    {
      active := active - {targetKey};
    }

    method IsProviderExcluded(l: Lookup, providerId: string, source: string, target: string) returns (b: bool)
      ensures b <==> KeysOf(l, providerId, source, target) * active.Keys != {}
    {
      ExcludedIffKeyEngaged(l, active, providerId, source, target);
      b := IsExcluded(l, active, providerId, source, target);
    }
  }

  ghost function Held(store: RoutingOverrideStore, registry: ManualOverrideRegistry): Kill
    reads store, registry
  {
    Kill(store.rows, registry.active)
  }

  /** `POST /ops/routing/overrides`. */
  method HandleEngage(store: RoutingOverrideStore, registry: ManualOverrideRegistry,
                      id: string, key: string, d: Details)
    returns (row: Override)
    requires InStep(Held(store, registry))
    modifies store, registry
    ensures Held(store, registry) == Perform(old(Held(store, registry)), Engage(id, key, d))
    ensures InStep(Held(store, registry))
    ensures row.targetKey == key && row.released.None? && row.details == d && row in store.rows
  {
    PerformKeepsInStep(Held(store, registry), Engage(id, key, d));
    row := store.EngageRow(id, key, d);
    registry.EngageRecord(row);
    assert registry.active[key] == row;
  }

  /** `POST /ops/routing/overrides/release`; None is the 404. */
  method HandleRelease(store: RoutingOverrideStore, registry: ManualOverrideRegistry, key: string, r: Release)
    returns (row: Option<Override>)
    requires InStep(Held(store, registry))
    modifies store, registry
    ensures Held(store, registry) == Perform(old(Held(store, registry)), Disengage(key, r))
    ensures InStep(Held(store, registry))
    ensures row.None? <==> key !in old(registry.active)
  {
    PerformKeepsInStep(Held(store, registry), Disengage(key, r));
    row := store.ReleaseRow(key, r);
    if row.None? {
      return;
    }
    registry.ReleaseKey(key);
  }

  /** Process start: a new registry, loaded from the store, answers as the old one did. */
  method Restart(store: RoutingOverrideStore, ghost before: ManualOverrideRegistry,
                 sort: seq<Override> -> seq<Override>) returns (registry: ManualOverrideRegistry)
    requires InStep(Held(store, before))
    requires forall s :: multiset(sort(s)) == multiset(s)
    ensures fresh(registry) && registry.active == before.active
  {
    var listed := store.ListActive(sort);
    registry := new ManualOverrideRegistry();
    registry.Hydrate(listed);
    HydrateRebuilds(Held(store, before), listed);
  }
}
