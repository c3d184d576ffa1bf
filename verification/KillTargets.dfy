/** Which requests a kill switch excludes, told from the target an operator names.

    An operator's target is trimmed and upper-cased into a key; a request looks keys up as it is, its
    assets upper-cased but not trimmed and its provider id untouched. The two sides meet exactly when
    the conditions here hold. */
module KillTargets {
  import opened KillSwitch
  import opened Options

  datatype Target =
    | Provider(providerId: string)
    | Corridor(sourceAsset: string, targetAsset: string)
    | Region(region: string)

  function TargetKey(l: Lookup, target: Target): string {
    match target
    case Provider(id) => "provider:" + l.trim(id)
    case Corridor(source, dest) => "corridor:" + l.upper(l.trim(source)) + "|" + l.upper(l.trim(dest))
    case Region(region) => "region:" + l.upper(l.trim(region))
  }

  /** What is used of trimming and upper-casing: trimming twice changes nothing, upper-casing goes text
      by text, leaves what is already upper-cased alone, every piece of it, and leaves the bar alone. */
  ghost predicate TextLaws(l: Lookup) {
    && (forall x :: l.trim(l.trim(x)) == l.trim(x))
    && (forall x, y :: l.upper(x + y) == l.upper(x) + l.upper(y))
    && (forall x, i, j :: 0 <= i <= j <= |l.upper(x)| ==> l.upper(l.upper(x)[i..j]) == l.upper(x)[i..j])
    && l.upper("|") == "|"
  }

  datatype Query = Query(provider: string, source: string, dest: string)

  /** The requests an operator means, whatever the case of the letters. */
  ghost predicate Names(l: Lookup, target: Target, q: Query) {
    match target
    case Provider(id) => q.provider == id
    case Corridor(source, dest) => l.upper(q.source) == l.upper(source) && l.upper(q.dest) == l.upper(dest)
    case Region(region) =>
      var regions := l.regions(q.source, q.dest);
      exists i :: 0 <= i < |regions| && l.upper(l.trim(regions[i])) == l.upper(l.trim(region))
  }

  /** Whether the request is excluded when this target alone is engaged. */
  predicate ExcludedBy(l: Lookup, target: Target, row: Override, q: Query) {
    IsExcluded(l, map[TargetKey(l, target) := row], q.provider, q.source, q.dest)
  }

  /** The target excludes the requests it names and no others. */
  ghost predicate Exact(l: Lookup, target: Target, row: Override) {
    forall q :: ExcludedBy(l, target, row, q) <==> Names(l, target, q)
  }

  predicate Trimmed(l: Lookup, target: Target) {
    match target
    case Provider(id) => l.trim(id) == id
    case Corridor(source, dest) =>
      l.upper(l.trim(source)) == l.upper(source) && l.upper(l.trim(dest)) == l.upper(dest)
    case Region(_) => true
  }

  predicate NoBar(l: Lookup, target: Target) {
    target.Corridor? ==> '|' !in l.upper(target.sourceAsset) && '|' !in l.upper(target.targetAsset)
  }

  // ---------------------------------------------------------------- what a single key excludes

  lemma KindsApart(a: string, b: string)
    ensures "provider:" + a != "corridor:" + b && "provider:" + a != "region:" + b
    ensures "corridor:" + a != "region:" + b
  {
    assert ("provider:" + a)[0] == 'p' && ("corridor:" + b)[0] == 'c' && ("region:" + b)[0] == 'r';
    assert ("corridor:" + a)[0] == 'c';
  }

  lemma SamePrefix(prefix: string, a: string, b: string)
    ensures prefix + a == prefix + b <==> a == b
  {
    assert (prefix + a)[|prefix|..] == a && (prefix + b)[|prefix|..] == b;
  }

  lemma ProviderExcludes(l: Lookup, id: string, row: Override, q: Query)
    ensures ExcludedBy(l, Provider(id), row, q) <==> q.provider == l.trim(id)
  {
    SamePrefix("provider:", q.provider, l.trim(id));
    forall b ensures "provider:" + l.trim(id) != "corridor:" + b && "provider:" + l.trim(id) != "region:" + b {
      KindsApart(l.trim(id), b);
    }
    assert "corridor:" + l.upper(q.source) + "|" + l.upper(q.dest)
           == "corridor:" + (l.upper(q.source) + "|" + l.upper(q.dest));
  }

  function Pair(a: string, b: string): string { a + "|" + b }

  lemma CorridorExcludes(l: Lookup, source: string, dest: string, row: Override, q: Query)
    ensures ExcludedBy(l, Corridor(source, dest), row, q) <==>
            Pair(l.upper(q.source), l.upper(q.dest)) == Pair(l.upper(l.trim(source)), l.upper(l.trim(dest)))
  {
    var mine, theirs := Pair(l.upper(q.source), l.upper(q.dest)), Pair(l.upper(l.trim(source)), l.upper(l.trim(dest)));
    assert "corridor:" + l.upper(q.source) + "|" + l.upper(q.dest) == "corridor:" + mine;
    assert TargetKey(l, Corridor(source, dest)) == "corridor:" + theirs;
    SamePrefix("corridor:", mine, theirs);
    KindsApart(q.provider, theirs);
    forall b ensures "corridor:" + theirs != "region:" + b {
      KindsApart(theirs, b);
    }
  }

  lemma RegionExcludes(l: Lookup, region: string, row: Override, q: Query)
    ensures ExcludedBy(l, Region(region), row, q) <==> Names(l, Region(region), q)
  {
    var key := l.upper(l.trim(region));
    KindsApart(q.provider, key);
    KindsApart(l.upper(q.source) + "|" + l.upper(q.dest), key);
    assert "corridor:" + l.upper(q.source) + "|" + l.upper(q.dest)
           == "corridor:" + (l.upper(q.source) + "|" + l.upper(q.dest));
    forall r ensures RegionKey(l, r) == "region:" + key <==> l.upper(l.trim(r)) == key {
      SamePrefix("region:", l.upper(l.trim(r)), key);
    }
  }

  // ---------------------------------------------------------------- exactly what was named

  /** Without a bar in the parts, a pair has one reading. */
  lemma PairUnique(a: string, b: string, c: string, d: string)
    requires Pair(a, b) == Pair(c, d) && '|' !in c && '|' !in d
    ensures a == c && b == d
  {
    var p := Pair(c, d);
    assert forall i :: 0 <= i < |c| ==> p[i] == c[i];
    assert forall i :: |c| < i < |p| ==> p[i] == d[i - |c| - 1];
    assert p[|a|] == Pair(a, b)[|a|] == '|';
    assert p[..|c|] == c && p[|c| + 1..] == d && Pair(a, b)[..|a|] == a && Pair(a, b)[|a| + 1..] == b;
  }

  lemma FirstBar(s: string) returns (x: string, y: string)
    requires '|' in s
    ensures s == Pair(x, y)
  {
    var i :| 0 <= i < |s| && s[i] == '|';
    x, y := s[..i], s[i + 1..];
  }

  lemma PieceStays(l: Lookup, x: string, i: nat, j: nat)
    requires TextLaws(l) && i <= j <= |l.upper(x)|
    ensures l.upper(l.upper(x)[i..j]) == l.upper(x)[i..j]
  {
  }

  /** A bar in the source asset: the key also reads as a corridor from what stands before it. */
  lemma BarInSource(l: Lookup, source: string, dest: string) returns (q: Query)
    requires TextLaws(l) && '|' in l.upper(source)
    ensures Pair(l.upper(q.source), l.upper(q.dest)) == Pair(l.upper(source), l.upper(dest))
    ensures l.upper(q.source) != l.upper(source)
  {
    var s, d := l.upper(source), l.upper(dest);
    var x, y := FirstBar(s);
    PieceStays(l, source, 0, |x|);
    PieceStays(l, source, |x| + 1, |s|);
    PieceStays(l, dest, 0, |d|);
    assert s[0..|x|] == x && s[|x| + 1..|s|] == y && d[0..|d|] == d;
    q := Query("", x, y + "|" + d);
    assert l.upper(y + "|" + d) == l.upper(y + "|") + d == y + "|" + d;
    assert Pair(x, y + "|" + d) == Pair(s, d);
  }

  lemma BarInTarget(l: Lookup, source: string, dest: string) returns (q: Query)
    requires TextLaws(l) && '|' in l.upper(dest)
    ensures Pair(l.upper(q.source), l.upper(q.dest)) == Pair(l.upper(source), l.upper(dest))
    ensures l.upper(q.source) != l.upper(source)
  {
    var s, d := l.upper(source), l.upper(dest);
    var x, y := FirstBar(d);
    PieceStays(l, dest, 0, |x|);
    PieceStays(l, dest, |x| + 1, |d|);
    PieceStays(l, source, 0, |s|);
    assert d[0..|x|] == x && d[|x| + 1..|d|] == y && s[0..|s|] == s;
    q := Query("", s + "|" + x, y);
    assert l.upper(s + "|" + x) == l.upper(s + "|") + x == s + "|" + x;
    assert Pair(s + "|" + x, y) == Pair(s, d);
  }

  lemma CorridorExact(l: Lookup, source: string, dest: string, row: Override)
    requires TextLaws(l)
    ensures Exact(l, Corridor(source, dest), row) <==>
            Trimmed(l, Corridor(source, dest)) && NoBar(l, Corridor(source, dest))
  {
    var target := Corridor(source, dest);
    forall q ensures ExcludedBy(l, target, row, q) <==>
                     Pair(l.upper(q.source), l.upper(q.dest)) == Pair(l.upper(l.trim(source)), l.upper(l.trim(dest)))
    {
      CorridorExcludes(l, source, dest, row, q);
    }
    hide ExcludedBy, TextLaws;
    if Trimmed(l, target) && NoBar(l, target) {
      forall q ensures ExcludedBy(l, target, row, q) <==> Names(l, target, q) {
        if ExcludedBy(l, target, row, q) {
          PairUnique(l.upper(q.source), l.upper(q.dest), l.upper(source), l.upper(dest));
        }
      }
    } else if !Trimmed(l, target) {
      var q := Query("", l.trim(source), l.trim(dest));
      assert ExcludedBy(l, target, row, q) && !Names(l, target, q);
    } else if '|' in l.upper(source) {
      var q := BarInSource(l, source, dest);
      assert ExcludedBy(l, target, row, q) && !Names(l, target, q);
    } else {
      var q := BarInTarget(l, source, dest);
      assert ExcludedBy(l, target, row, q) && !Names(l, target, q);
    }
  }

  /** An engaged target excludes the requests it names and no others exactly when trimming makes no
      difference to it and, for a corridor, neither asset holds a bar. */
  lemma TargetExact(l: Lookup, target: Target, row: Override)
    requires TextLaws(l)
    ensures Exact(l, target, row) <==> Trimmed(l, target) && NoBar(l, target)
  {
    match target
    case Corridor(source, dest) => CorridorExact(l, source, dest, row);
    case Provider(id) =>
      forall q ensures ExcludedBy(l, target, row, q) <==> q.provider == l.trim(id) {
        ProviderExcludes(l, id, row, q);
      }
      hide ExcludedBy;
      if Exact(l, target, row) {
        assert ExcludedBy(l, target, row, Query(l.trim(id), "", ""));
      }
    case Region(region) =>
      forall q ensures ExcludedBy(l, target, row, q) <==> Names(l, target, q) {
        RegionExcludes(l, region, row, q);
      }
  }

  /** A provider can be switched off by naming it exactly when its id is trimmed. */
  lemma ProviderReachable(l: Lookup, id: string)
    requires TextLaws(l)
    ensures (exists target: Target :: TargetKey(l, target) == "provider:" + id) <==> l.trim(id) == id
  {
    if l.trim(id) == id {
      assert TargetKey(l, Provider(id)) == "provider:" + id;
    }
    forall target: Target | TargetKey(l, target) == "provider:" + id ensures l.trim(id) == id {
      match target
      case Provider(named) => SamePrefix("provider:", l.trim(named), id);
      case Corridor(source, dest) =>
        assert TargetKey(l, target) == "corridor:" + (l.upper(l.trim(source)) + "|" + l.upper(l.trim(dest)));
        KindsApart(id, l.upper(l.trim(source)) + "|" + l.upper(l.trim(dest)));
        assert false;
      case Region(region) =>
        KindsApart(id, l.upper(l.trim(region)));
        assert false;
    }
  }
}
