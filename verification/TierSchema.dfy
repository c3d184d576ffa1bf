/** Validation of the sandbox pricing dataset: tier tables, groups, ids and catch-all profiles.

    Thresholds are exact reals. The validator compares them after a conversion `num` (the language's
    number parsing), of which only monotonicity is assumed: it may map distinct thresholds to one. */
module TierSchema {
  import opened Options

  datatype PathItem = Key(name: string) | Index(at: nat)

  datatype Message = FinalMustBeUnbounded | OnlyFinalUnbounded | NotAscending | UnknownGroup(name: string)
                   | DuplicateId(id: string) | P95BelowP50 | FinalProfileNotCatchAll

  datatype Issue = Issue(path: seq<PathItem>, message: Message)

  /** An inclusive upper bound; None means "and above". */
  datatype Tier = Tier(upToAmount: Option<real>, bps: real)

  datatype Curve = Flat(bps: real) | Tiered(currency: string, tiers: seq<Tier>) | NoCurve

  datatype Matcher = Any | Group(group: string) | Currencies(currencies: seq<string>)

  datatype Profile = Profile(source: Matcher, target: Matcher, spread: Curve, slippage: Curve, p50: nat, p95: nat)

  datatype Provider = Provider(id: string, source: Matcher, target: Matcher, profiles: seq<Profile>)

  datatype Pricing = Pricing(groups: map<string, seq<string>>, providers: seq<Provider>)

  // ---------------------------------------------------------------- tier tables

  /** Nonempty, unbounded exactly in the last tier, and strictly ascending as the validator sees it. */
  ghost predicate WellTiered(num: real -> real, tiers: seq<Tier>) {
    && tiers != []
    && (forall i :: 0 <= i < |tiers| ==> (tiers[i].upToAmount.None? <==> i == |tiers| - 1))
    && (forall i :: 1 <= i < |tiers| - 1 ==> num(tiers[i - 1].upToAmount.value) < num(tiers[i].upToAmount.value))
  }

  ghost predicate WellCurved(num: real -> real, c: Curve) {
    c.Tiered? ==> WellTiered(num, c.tiers)
  }

  function TierPath(path: seq<PathItem>, index: nat): seq<PathItem> {
    path + [Key("tiers"), Index(index)]
  }

  /** What is wrong with the first `until` tiers: an unbounded one that is not the last ends the look; up to
      there, every threshold not above the one before; and, in any case, a bounded last tier. */
  ghost predicate IsWrong(num: real -> real, tiers: seq<Tier>, path: seq<PathItem>, until: nat, issue: Issue)
    requires until <= |tiers|
  {
    match issue.message
    case FinalMustBeUnbounded =>
      issue.path == path + [Key("tiers")] && (tiers == [] || tiers[|tiers| - 1].upToAmount.Some?)
    case OnlyFinalUnbounded =>
      exists i: nat :: 1 <= i < until && issue.path == TierPath(path, i) && tiers[i - 1].upToAmount.None?
                  && BoundedBefore(tiers, i - 1)
    case NotAscending =>
      exists i: nat :: 1 <= i < until && issue.path == TierPath(path, i) && BoundedBefore(tiers, i + 1)
                  && num(tiers[i].upToAmount.value) <= num(tiers[i - 1].upToAmount.value)
    case _ => false
  }

  predicate BoundedBefore(tiers: seq<Tier>, n: nat)
    requires n <= |tiers|
  {
    forall j :: 0 <= j < n ==> tiers[j].upToAmount.Some?
  }

  /** One more tier looked at, with all before it bounded or the last look done. */
  lemma OneMoreTier(num: real -> real, tiers: seq<Tier>, path: seq<PathItem>, at: nat, issue: Issue)
    requires 1 <= at < |tiers| && BoundedBefore(tiers, at - 1)
    ensures IsWrong(num, tiers, path, at + 1, issue) <==>
            || IsWrong(num, tiers, path, at, issue)
            || (tiers[at - 1].upToAmount.None? && issue == Issue(TierPath(path, at), OnlyFinalUnbounded))
            || (tiers[at - 1].upToAmount.Some? && tiers[at].upToAmount.Some?
                && num(tiers[at].upToAmount.value) <= num(tiers[at - 1].upToAmount.value)
                && issue == Issue(TierPath(path, at), NotAscending))
  {
    assert BoundedBefore(tiers, at + 1) <==> tiers[at - 1].upToAmount.Some? && tiers[at].upToAmount.Some?;
  }

  /** After an unbounded tier nothing more is looked at. */
  lemma NothingAfterUnbounded(num: real -> real, tiers: seq<Tier>, path: seq<PathItem>, at: nat, issue: Issue)
    requires 1 <= at < |tiers| && tiers[at - 1].upToAmount.None?
    ensures IsWrong(num, tiers, path, |tiers|, issue) <==> IsWrong(num, tiers, path, at + 1, issue)
  {
  }

  /** A table is well tiered exactly when nothing is wrong with it. */
  lemma WellTieredIs(num: real -> real, tiers: seq<Tier>, path: seq<PathItem>)
    ensures WellTiered(num, tiers) <==> forall issue :: !IsWrong(num, tiers, path, |tiers|, issue)
  {
    if tiers == [] || tiers[|tiers| - 1].upToAmount.Some? {
      assert IsWrong(num, tiers, path, |tiers|, Issue(path + [Key("tiers")], FinalMustBeUnbounded));
    } else if !BoundedBefore(tiers, |tiers| - 1) {
      var i := FirstUnbounded(tiers, 0);
      assert IsWrong(num, tiers, path, |tiers|, Issue(TierPath(path, i + 1), OnlyFinalUnbounded));
    } else if i: nat :| 1 <= i < |tiers| - 1
                        && num(tiers[i].upToAmount.value) <= num(tiers[i - 1].upToAmount.value) {
      assert BoundedBefore(tiers, i + 1);
      assert IsWrong(num, tiers, path, |tiers|, Issue(TierPath(path, i), NotAscending));
    }
  }

  lemma {:induction false} FirstUnbounded(tiers: seq<Tier>, from: nat) returns (i: nat)
    requires from < |tiers| && BoundedBefore(tiers, from) && !BoundedBefore(tiers, |tiers| - 1)
    ensures i < |tiers| - 1 && tiers[i].upToAmount.None? && BoundedBefore(tiers, i)
    decreases |tiers| - from
  {
    if tiers[from].upToAmount.None? {
      i := from;
    } else {
      i := FirstUnbounded(tiers, from + 1);
    }
  }

  /** The issues added say exactly what is wrong with the first `until` tiers. */
  ghost predicate Told(num: real -> real, tiers: seq<Tier>, path: seq<PathItem>, until: nat, issues: seq<Issue>,
                       all: seq<Issue>)
    requires until <= |tiers|
  {
    issues <= all && forall issue :: issue in all[|issues|..] <==> IsWrong(num, tiers, path, until, issue)
  }

  /** What the loop adds at position `at` tells the next tier. */
  lemma NextTold(num: real -> real, tiers: seq<Tier>, path: seq<PathItem>, at: nat, issues: seq<Issue>,
                 all: seq<Issue>, more: seq<Issue>)
    requires 1 <= at < |tiers| && BoundedBefore(tiers, at - 1) && Told(num, tiers, path, at, issues, all)
    requires more == if tiers[at - 1].upToAmount.None? then [Issue(TierPath(path, at), OnlyFinalUnbounded)]
                     else if tiers[at].upToAmount.Some?
                             && num(tiers[at].upToAmount.value) <= num(tiers[at - 1].upToAmount.value)
                     then [Issue(TierPath(path, at), NotAscending)]
                     else []
    ensures Told(num, tiers, path, at + 1, issues, all + more)
    ensures tiers[at - 1].upToAmount.None? ==> Told(num, tiers, path, |tiers|, issues, all + more)
  {
    assert (all + more)[|issues|..] == all[|issues|..] + more;
    hide IsWrong;
    forall issue
      ensures issue in (all + more)[|issues|..] <==> IsWrong(num, tiers, path, at + 1, issue)
      ensures tiers[at - 1].upToAmount.None? ==>
                (IsWrong(num, tiers, path, |tiers|, issue) <==> IsWrong(num, tiers, path, at + 1, issue))
    {
      OneMoreTier(num, tiers, path, at, issue);
      if tiers[at - 1].upToAmount.None? {
        NothingAfterUnbounded(num, tiers, path, at, issue);
      }
    }
  }

  lemma ToldNothing(num: real -> real, tiers: seq<Tier>, path: seq<PathItem>, issues: seq<Issue>, all: seq<Issue>)
    requires Told(num, tiers, path, |tiers|, issues, all)
    ensures all == issues <==> WellTiered(num, tiers)
  {
    WellTieredIs(num, tiers, path);
    hide IsWrong, WellTiered;
    assert |all| > |issues| ==> all[|issues|] in all[|issues|..];
  }

  /** Adds exactly the issues that say what is wrong with a tier table; none exactly when nothing is. */
  method AssertAscendingTiers(num: real -> real, value: Curve, path: seq<PathItem>, issues: seq<Issue>)
    returns (all: seq<Issue>)
    ensures issues <= all
    ensures all == issues <==> WellCurved(num, value)
    ensures value.Tiered? ==> Told(num, value.tiers, path, |value.tiers|, issues, all)
  {
    hide IsWrong, WellTiered;
    all := issues;
    if !value.Tiered? {
      return;
    }
    all := CheckTiers(num, value.tiers, path, issues);
    ToldNothing(num, value.tiers, path, issues, all);
  }

  method CheckTiers(num: real -> real, tiers: seq<Tier>, path: seq<PathItem>, issues: seq<Issue>)
    returns (all: seq<Issue>)
    ensures Told(num, tiers, path, |tiers|, issues, all)
  {
    all := CheckFinal(num, tiers, path, issues);
    if tiers == [] {
      return;
    }
    hide IsWrong, Told;
    var index := 1;
    while index < |tiers|
      invariant 1 <= index <= |tiers| && BoundedBefore(tiers, index - 1)
      invariant Told(num, tiers, path, index, issues, all)
    {
      var previous, current := tiers[index - 1].upToAmount, tiers[index].upToAmount;
      if previous.None? {
        var more := [Issue(path + [Key("tiers"), Index(index)], OnlyFinalUnbounded)];
        NextTold(num, tiers, path, index, issues, all, more);
        return all + more;
      }
      var more := [];
      if current.Some? && num(current.value) <= num(previous.value) {
        more := [Issue(path + [Key("tiers"), Index(index)], NotAscending)];
      }
      NextTold(num, tiers, path, index, issues, all, more);
      all := all + more;
      index := index + 1;
    }
  }

  method CheckFinal(num: real -> real, tiers: seq<Tier>, path: seq<PathItem>, issues: seq<Issue>)
    returns (all: seq<Issue>)
    ensures Told(num, tiers, path, if tiers == [] then 0 else 1, issues, all)
  {
    all := issues;
    if tiers == [] || tiers[|tiers| - 1].upToAmount.Some? {
      all := all + [Issue(path + [Key("tiers")], FinalMustBeUnbounded)];
    }
  }

  ghost predicate Monotone(num: real -> real) {
    forall a, b :: a <= b ==> num(a) <= num(b)
  }

  /** Above the previous tier's bound and not above this one's. */
  predicate InTier(tiers: seq<Tier>, i: nat, notional: real)
    requires i < |tiers|
  {
    && (i > 0 ==> tiers[i - 1].upToAmount.Some? && tiers[i - 1].upToAmount.value < notional)
    && (tiers[i].upToAmount.Some? ==> notional <= tiers[i].upToAmount.value)
  }

  lemma {:induction false} ThresholdsAscend(num: real -> real, tiers: seq<Tier>, i: nat, j: nat)
    requires WellTiered(num, tiers) && Monotone(num) && i < j < |tiers| - 1
    ensures tiers[i].upToAmount.value < tiers[j].upToAmount.value
    decreases j - i
  {
    var a, b := tiers[j - 1].upToAmount.value, tiers[j].upToAmount.value;
    assert num(a) < num(b);
    assert b <= a ==> num(b) <= num(a);
    if i < j - 1 {
      ThresholdsAscend(num, tiers, i, j - 1);
    }
  }

  /** Every amount lies in at most one tier of an accepted table. */
  lemma TierUnique(num: real -> real, tiers: seq<Tier>, notional: real, i: nat, j: nat)
    requires WellTiered(num, tiers) && Monotone(num) && i < |tiers| && j < |tiers|
    requires InTier(tiers, i, notional) && InTier(tiers, j, notional)
    ensures i == j
  {
    if i < j {
      TiersApart(num, tiers, i, j, notional);
    } else if j < i {
      TiersApart(num, tiers, j, i, notional);
    }
  }

  lemma TiersApart(num: real -> real, tiers: seq<Tier>, i: nat, j: nat, notional: real)
    requires WellTiered(num, tiers) && Monotone(num) && i < j < |tiers|
    ensures !(InTier(tiers, i, notional) && InTier(tiers, j, notional))
  {
    if i < j - 1 {
      ThresholdsAscend(num, tiers, i, j - 1);
    }
  }

  /** The pricing scan over an accepted table: it always stops at a tier, the one tier the amount is
      in, and never falls through. */
  method ResolveTier(num: real -> real, tiers: seq<Tier>, notional: real) returns (i: nat)
    requires WellTiered(num, tiers) && Monotone(num)
    ensures i < |tiers| && InTier(tiers, i, notional)
    ensures forall j :: 0 <= j < |tiers| ==> (InTier(tiers, j, notional) <==> j == i)
  {
    i := 0;
    while i < |tiers|
      invariant i <= |tiers|
      invariant forall j :: 0 <= j < i ==> tiers[j].upToAmount.Some? && tiers[j].upToAmount.value < notional
    {
      if tiers[i].upToAmount.None? || notional <= tiers[i].upToAmount.value {
        break;
      }
      i := i + 1;
    }
    forall j | 0 <= j < |tiers| && InTier(tiers, j, notional) ensures j == i {
      TierUnique(num, tiers, notional, i, j);
    }
  }

  // ---------------------------------------------------------------- the whole dataset

  predicate KnownMatcher(groups: set<string>, m: Matcher) {
    m.Group? ==> m.group in groups
  }

  ghost predicate GoodProfile(num: real -> real, groups: set<string>, p: Profile) {
    && KnownMatcher(groups, p.source) && KnownMatcher(groups, p.target)
    && p.p50 <= p.p95
    && WellCurved(num, p.spread) && WellCurved(num, p.slippage)
  }

  ghost predicate GoodProvider(num: real -> real, groups: set<string>, p: Provider) {
    && KnownMatcher(groups, p.source) && KnownMatcher(groups, p.target)
    && (forall i :: 0 <= i < |p.profiles| ==> GoodProfile(num, groups, p.profiles[i]))
    && (p.profiles != [] ==> p.profiles[|p.profiles| - 1].source.Any? && p.profiles[|p.profiles| - 1].target.Any?)
  }

  ghost predicate Accepted(num: real -> real, data: Pricing) {
    && (forall i :: 0 <= i < |data.providers| ==> GoodProvider(num, data.groups.Keys, data.providers[i]))
    && (forall i, j :: 0 <= i < j < |data.providers| ==> data.providers[i].id != data.providers[j].id)
  }

  method CheckMatcher(groups: set<string>, m: Matcher, path: seq<PathItem>, issues: seq<Issue>)
    returns (all: seq<Issue>)
    ensures issues <= all && (all == issues <==> KnownMatcher(groups, m))
    ensures all == issues + if m.Group? && m.group !in groups then [Issue(path, UnknownGroup(m.group))] else []
  {
    all := issues;
    if m.Group? && m.group !in groups {
      all := all + [Issue(path, UnknownGroup(m.group))];
    }
  }

  method CheckProfile(num: real -> real, groups: set<string>, p: Profile, base: seq<PathItem>, issues: seq<Issue>)
    returns (all: seq<Issue>)
    ensures issues <= all && (all == issues <==> GoodProfile(num, groups, p))
  {
    all := CheckMatcher(groups, p.source, base + [Key("match"), Key("source")], issues);
    all := CheckMatcher(groups, p.target, base + [Key("match"), Key("target")], all);
    if p.p95 < p.p50 {
      all := all + [Issue(base + [Key("settlement"), Key("p95Seconds")], P95BelowP50)];
    }
    all := AssertAscendingTiers(num, p.spread, base + [Key("spread")], all);
    all := AssertAscendingTiers(num, p.slippage, base + [Key("slippage")], all);
  }

  method CheckProvider(num: real -> real, groups: set<string>, p: Provider, at: nat, issues: seq<Issue>)
    returns (all: seq<Issue>)
    ensures issues <= all && (all == issues <==> GoodProvider(num, groups, p))
  {
    var here := [Key("providers"), Index(at)];
    all := CheckMatcher(groups, p.source, here + [Key("corridors"), Key("source")], issues);
    all := CheckMatcher(groups, p.target, here + [Key("corridors"), Key("target")], all);
    for i := 0 to |p.profiles|
      invariant issues <= all
      invariant all == issues <==>
                && KnownMatcher(groups, p.source) && KnownMatcher(groups, p.target)
                && forall j :: 0 <= j < i ==> GoodProfile(num, groups, p.profiles[j])
    {
      all := CheckProfile(num, groups, p.profiles[i], here + [Key("profiles"), Index(i)], all);
    }
    if p.profiles != [] {
      var last := p.profiles[|p.profiles| - 1];
      if !last.source.Any? || !last.target.Any? {
        all := all + [Issue(here + [Key("profiles")], FinalProfileNotCatchAll)];
      }
    }
  }

  /** The dataset-wide refinement reports nothing exactly for an acceptable dataset. */
  method Refine(num: real -> real, data: Pricing) returns (issues: seq<Issue>)
    ensures issues == [] <==> Accepted(num, data)
  {
    issues := [];
    var seen: set<string> := {};
    for i := 0 to |data.providers|
      invariant forall id :: id in seen <==> exists j :: 0 <= j < i && data.providers[j].id == id
      invariant issues == [] <==>
                && (forall j :: 0 <= j < i ==> GoodProvider(num, data.groups.Keys, data.providers[j]))
                && (forall j, k :: 0 <= j < k < i ==> data.providers[j].id != data.providers[k].id)
    {
      var provider := data.providers[i];
      ghost var before := issues;
      if provider.id in seen {
        issues := issues + [Issue([Key("providers"), Index(i), Key("id")], DuplicateId(provider.id))];
      }
      seen := seen + {provider.id};
      issues := CheckProvider(num, data.groups.Keys, provider, i, issues);
    }
  }

  // ---------------------------------------------------------------- what acceptance is for

  predicate Matches(groups: map<string, seq<string>>, m: Matcher, currency: string) {
    match m
    case Any => true
    case Group(g) => g in groups && currency in groups[g]
    case Currencies(list) => currency in list
  }

  predicate ProfileMatches(groups: map<string, seq<string>>, p: Profile, source: string, target: string) {
    Matches(groups, p.source, source) && Matches(groups, p.target, target)
  }

  /** The first profile that matches a corridor; `|profiles|` when none does. */
  function FindProfile(groups: map<string, seq<string>>, profiles: seq<Profile>, source: string,
                       target: string): (i: nat)
    ensures i <= |profiles|
    ensures i < |profiles| ==> ProfileMatches(groups, profiles[i], source, target)
    ensures forall j :: 0 <= j < i ==> !ProfileMatches(groups, profiles[j], source, target)
  {
    if profiles == [] then 0
    else if ProfileMatches(groups, profiles[0], source, target) then 0
    else 1 + FindProfile(groups, profiles[1..], source, target)
  }

  /** An accepted provider prices every corridor and every amount: some profile matches, and its
      spread, if tiered, has exactly one tier for the amount. */
  lemma EveryCorridorPriced(num: real -> real, data: Pricing, at: nat, source: string, target: string, notional: real)
    requires Accepted(num, data) && Monotone(num) && at < |data.providers| && data.providers[at].profiles != []
    ensures var profiles := data.providers[at].profiles;
            var i := FindProfile(data.groups, profiles, source, target);
            && i < |profiles|
            && (profiles[i].spread.Tiered? ==>
                  var tiers := profiles[i].spread.tiers;
                  exists t :: 0 <= t < |tiers| && InTier(tiers, t, notional)
                    && forall u :: 0 <= u < |tiers| && InTier(tiers, u, notional) ==> u == t)
  {
    var profiles := data.providers[at].profiles;
    assert GoodProvider(num, data.groups.Keys, data.providers[at]);
    var i := FindProfile(data.groups, profiles, source, target);
    assert ProfileMatches(data.groups, profiles[|profiles| - 1], source, target);
    assert GoodProfile(num, data.groups.Keys, profiles[i]);
    if profiles[i].spread.Tiered? {
      var tiers := profiles[i].spread.tiers;
      var t := FirstTier(num, tiers, notional, 0);
      forall u | 0 <= u < |tiers| && InTier(tiers, u, notional) ensures u == t {
        TierUnique(num, tiers, notional, u, t);
      }
    }
  }

  lemma {:induction false} FirstTier(num: real -> real, tiers: seq<Tier>, notional: real, from: nat) returns (t: nat)
    requires WellTiered(num, tiers) && from < |tiers|
    requires from > 0 ==> tiers[from - 1].upToAmount.value < notional
    ensures t < |tiers| && InTier(tiers, t, notional)
    decreases |tiers| - from
  {
    if InTier(tiers, from, notional) {
      t := from;
    } else {
      t := FirstTier(num, tiers, notional, from + 1);
    }
  }
}
