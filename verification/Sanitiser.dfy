/** What of an error reaches the client: the recursive sanitiser and the public error body. */
module Sanitiser {
  import opened Options

  datatype Field = Field(key: string, value: Json)

  /** A finite value; `Other` is anything that is no JSON value. Objects list their entries in
      order. */
  datatype Json =
    | Str(text: string)
    | Num(number: real)
    | Bool(flag: bool)
    | Null
    | Arr(items: seq<Json>)
    | Obj(fields: seq<Field>)
    | Other

  // ---------------------------------------------------------------- what is unsafe

  function LowerAscii(c: char): char {
    if 'A' <= c <= 'Z' then (c as int + 32) as char else c
  }

  function Lower(s: string): string {
    seq(|s|, i requires 0 <= i < |s| => LowerAscii(s[i]))
  }

  const UNSAFE_KEYS: set<string> := {
    "stack", "stacktrace", "cause", "exception", "query", "sql", "prisma", "meta", "clientversion", "response",
    "config", "env", "headers", "authorization", "token", "secret", "password", "credential"}

  /** The key pattern is anchored and ignores case. */
  predicate IsUnsafeKey(key: string) { Lower(key) in UNSAFE_KEYS }

  /** Which texts are unsafe is a fixed pattern the model leaves open. */
  type TextRule = string -> bool

  predicate IsScalar(v: Json) { !v.Arr? && !v.Obj? }

  predicate SafeScalar(unsafe: TextRule, v: Json)
    requires IsScalar(v)
  {
    !v.Other? && (v.Str? ==> !unsafe(v.text))
  }

  /** No unsafe key at any depth, no unsafe text, nothing that is not JSON. */
  predicate SafeTree(unsafe: TextRule, v: Json) {
    match v
    case Arr(items) => forall i :: 0 <= i < |items| ==> SafeTree(unsafe, items[i])
    case Obj(fields) =>
      forall i :: 0 <= i < |fields| ==> !IsUnsafeKey(fields[i].key) && SafeTree(unsafe, fields[i].value)
    case _ => SafeScalar(unsafe, v)
  }

  /** The same character, or the two cases of one letter. */
  predicate SameLetter(a: char, b: char) {
    || a == b
    || ('A' <= a <= 'Z' && b as int == a as int + 32)
    || ('A' <= b <= 'Z' && a as int == b as int + 32)
  }

  predicate SameUpToCase(a: string, b: string) {
    |a| == |b| && forall i :: 0 <= i < |a| ==> SameLetter(a[i], b[i])
  }

  lemma LowerIsSame(a: string, b: string)
    ensures Lower(a) == Lower(b) <==> SameUpToCase(a, b)
  {
    if Lower(a) == Lower(b) {
      forall i | 0 <= i < |a| ensures SameLetter(a[i], b[i]) {
        assert Lower(a)[i] == Lower(b)[i];
      }
    }
  }

  /** Keys that differ in case alone are treated alike. */
  lemma KeysIgnoreCase(a: string, b: string)
    requires SameUpToCase(a, b)
    ensures IsUnsafeKey(a) <==> IsUnsafeKey(b)
  {
    LowerIsSame(a, b);
  }

  /** A key is unsafe exactly when it is one of eighteen words, whatever the case of its letters. */
  lemma UnsafeKeysAre(key: string)
    ensures IsUnsafeKey(key) <==>
            exists word :: SameUpToCase(key, word) && word in {
              "stack", "stacktrace", "cause", "exception", "query", "sql", "prisma", "meta", "clientversion",
              "response", "config", "env", "headers", "authorization", "token", "secret", "password", "credential"}
  {
    LowerIsSame(key, Lower(key));
    LowerTwice(key);
    forall word | word in UNSAFE_KEYS ensures Lower(word) == word {
      WordsAreLower(word);
    }
    if IsUnsafeKey(key) {
      assert SameUpToCase(key, Lower(key));
    }
    forall word | SameUpToCase(key, word) && word in UNSAFE_KEYS ensures IsUnsafeKey(key) {
      LowerIsSame(key, word);
    }
  }

  lemma LowerTwice(s: string)
    ensures Lower(Lower(s)) == Lower(s)
  {
  }

  lemma WordsAreLower(word: string)
    requires word in UNSAFE_KEYS
    ensures Lower(word) == word
  {
    assert forall i :: 0 <= i < |word| ==> 'a' <= word[i] <= 'z';
  }

  // ---------------------------------------------------------------- the functions

  function SanitizedValue(unsafe: TextRule, v: Json): Option<Json>
    decreases v, 1
  {
    match v
    case Str(text) => if unsafe(text) then None else Some(v)
    case Other => None
    case Arr(items) => Some(Arr(SanitizedItems(unsafe, items)))
    case Obj(fields) => Some(Obj(SanitizedFields(unsafe, fields)))
    case _ => Some(v)
  }

  function SanitizedItems(unsafe: TextRule, items: seq<Json>): seq<Json>
    decreases items, 0
  {
    if items == [] then []
    else
      var last := SanitizedValue(unsafe, items[|items| - 1]);
      SanitizedItems(unsafe, items[..|items| - 1]) + (if last.Some? then [last.value] else [])
  }

  function SanitizedFields(unsafe: TextRule, fields: seq<Field>): seq<Field>
    decreases fields, 0
  {
    if fields == [] then []
    else
      var f := fields[|fields| - 1];
      var last := if IsUnsafeKey(f.key) then None else SanitizedValue(unsafe, f.value);
      SanitizedFields(unsafe, fields[..|fields| - 1]) + (if last.Some? then [Field(f.key, last.value)] else [])
  }

  // ---------------------------------------------------------------- the loops

  method SanitizeValue(unsafe: TextRule, v: Json) returns (r: Option<Json>)
    ensures r == SanitizedValue(unsafe, v)
    decreases v, 1
  {
    match v {
      case Str(text) => r := if unsafe(text) then None else Some(v);
      case Arr(items) =>
        var kept := [];
        for i := 0 to |items|
          invariant kept == SanitizedItems(unsafe, items[..i])
        {
          var item := SanitizeValue(unsafe, items[i]);
          assert items[..i + 1][..i] == items[..i];
          kept := kept + (if item.Some? then [item.value] else []);
        }
        assert items[..|items|] == items;
        r := Some(Arr(kept));
      case Obj(fields) =>
        var safe := SanitizeDetails(unsafe, fields);
        r := Some(Obj(safe));
      case Other => r := None;
      case _ => r := Some(v);
    }
  }

  method SanitizeDetails(unsafe: TextRule, details: seq<Field>) returns (safe: seq<Field>)
    ensures safe == SanitizedFields(unsafe, details)
    decreases details, 0
  {
    safe := [];
    for i := 0 to |details|
      invariant safe == SanitizedFields(unsafe, details[..i])
    {
      assert details[..i + 1][..i] == details[..i];
      var key, value := details[i].key, details[i].value;
      if IsUnsafeKey(key) {
        continue;
      }
      var sanitized := SanitizeValue(unsafe, value);
      if sanitized.Some? {
        safe := safe + [Field(key, sanitized.value)];
      }
    }
    assert details[..|details|] == details;
  }

  // ---------------------------------------------------------------- safe, fixed, idempotent

  lemma {:induction false} SanitizedIsSafe(unsafe: TextRule, v: Json)
    ensures SanitizedValue(unsafe, v).Some? ==> SafeTree(unsafe, SanitizedValue(unsafe, v).value)
    decreases v, 1
  {
    match v
    case Arr(items) => ItemsAreSafe(unsafe, items);
    case Obj(fields) => FieldsAreSafe(unsafe, fields);
    case _ =>
  }

  lemma {:induction false} ItemsAreSafe(unsafe: TextRule, items: seq<Json>)
    ensures SafeTree(unsafe, Arr(SanitizedItems(unsafe, items)))
    decreases items, 0
  {
    if items != [] {
      ItemsAreSafe(unsafe, items[..|items| - 1]);
      SanitizedIsSafe(unsafe, items[|items| - 1]);
    }
  }

  lemma {:induction false} FieldsAreSafe(unsafe: TextRule, fields: seq<Field>)
    ensures SafeTree(unsafe, Obj(SanitizedFields(unsafe, fields)))
    decreases fields, 0
  {
    if fields != [] {
      FieldsAreSafe(unsafe, fields[..|fields| - 1]);
      SanitizedIsSafe(unsafe, fields[|fields| - 1].value);
    }
  }

  lemma {:induction false} SafeIsFixed(unsafe: TextRule, v: Json)
    requires SafeTree(unsafe, v)
    ensures SanitizedValue(unsafe, v) == Some(v)
    decreases v, 1
  {
    match v
    case Arr(items) => SafeItemsFixed(unsafe, items);
    case Obj(fields) => SafeFieldsFixed(unsafe, fields);
    case _ =>
  }

  lemma {:induction false} SafeItemsFixed(unsafe: TextRule, items: seq<Json>)
    requires forall i :: 0 <= i < |items| ==> SafeTree(unsafe, items[i])
    ensures SanitizedItems(unsafe, items) == items
    decreases items, 0
  {
    if items != [] {
      SafeItemsFixed(unsafe, items[..|items| - 1]);
      SafeIsFixed(unsafe, items[|items| - 1]);
    }
  }

  lemma {:induction false} SafeFieldsFixed(unsafe: TextRule, fields: seq<Field>)
    requires forall i :: 0 <= i < |fields| ==> !IsUnsafeKey(fields[i].key) && SafeTree(unsafe, fields[i].value)
    ensures SanitizedFields(unsafe, fields) == fields
    decreases fields, 0
  {
    if fields != [] {
      SafeFieldsFixed(unsafe, fields[..|fields| - 1]);
      SafeIsFixed(unsafe, fields[|fields| - 1].value);
      assert fields == fields[..|fields| - 1] + [fields[|fields| - 1]];
    }
  }

  /** The sanitiser's fixed points are exactly the safe trees, and one pass reaches one. */
  lemma SanitizeIdempotent(unsafe: TextRule, v: Json)
    ensures SanitizedValue(unsafe, v) == Some(v) <==> SafeTree(unsafe, v)
    ensures SanitizedValue(unsafe, v).Some? ==>
              SanitizedValue(unsafe, SanitizedValue(unsafe, v).value) == SanitizedValue(unsafe, v)
  {
    SanitizedIsSafe(unsafe, v);
    if SafeTree(unsafe, v) {
      SafeIsFixed(unsafe, v);
    }
    if SanitizedValue(unsafe, v).Some? {
      SafeIsFixed(unsafe, SanitizedValue(unsafe, v).value);
    }
  }

  // ---------------------------------------------------------------- nothing else is lost or moved

  datatype Kind = ArrayNode | ObjectNode | Scalar(value: Json)

  /** A node of a tree: the object keys on the way to it, and what it is. */
  datatype Node = Node(path: seq<string>, kind: Kind)

  function Under(key: string, nodes: seq<Node>): seq<Node> {
    seq(|nodes|, i requires 0 <= i < |nodes| => Node([key] + nodes[i].path, nodes[i].kind))
  }

  /** All nodes, parents first and siblings in order. */
  function Nodes(v: Json): seq<Node>
    decreases v, 1
  {
    match v
    case Arr(items) => [Node([], ArrayNode)] + ItemNodes(items)
    case Obj(fields) => [Node([], ObjectNode)] + FieldNodes(fields)
    case _ => [Node([], Scalar(v))]
  }

  function ItemNodes(items: seq<Json>): seq<Node>
    decreases items, 0
  {
    if items == [] then [] else ItemNodes(items[..|items| - 1]) + Nodes(items[|items| - 1])
  }

  function FieldNodes(fields: seq<Field>): seq<Node>
    decreases fields, 0
  {
    if fields == [] then []
    else FieldNodes(fields[..|fields| - 1]) + Under(fields[|fields| - 1].key, Nodes(fields[|fields| - 1].value))
  }

  /** A node survives when every key above it is safe and it is no unsafe scalar. */
  predicate Survives(unsafe: TextRule, n: Node) {
    && (forall i :: 0 <= i < |n.path| ==> !IsUnsafeKey(n.path[i]))
    && (n.kind.Scalar? ==> IsScalar(n.kind.value) && SafeScalar(unsafe, n.kind.value))
  }

  function Survivors(unsafe: TextRule, nodes: seq<Node>): seq<Node> {
    if nodes == [] then []
    else
      Survivors(unsafe, nodes[..|nodes| - 1]) +
      (if Survives(unsafe, nodes[|nodes| - 1]) then [nodes[|nodes| - 1]] else [])
  }

  lemma {:induction false} SurvivorsConcat(unsafe: TextRule, a: seq<Node>, b: seq<Node>)
    ensures Survivors(unsafe, a + b) == Survivors(unsafe, a) + Survivors(unsafe, b)
    decreases |b|
  {
    if b == [] {
      assert a + b == a;
    } else {
      SurvivorsConcat(unsafe, a, b[..|b| - 1]);
      assert (a + b)[..|a + b| - 1] == a + b[..|b| - 1];
    }
  }

  lemma {:induction false} SurvivorsUnder(unsafe: TextRule, key: string, nodes: seq<Node>)
    ensures Survivors(unsafe, Under(key, nodes)) ==
            if IsUnsafeKey(key) then [] else Under(key, Survivors(unsafe, nodes))
    decreases |nodes|
  {
    hide Survives;
    if nodes != [] {
      var init, n := nodes[..|nodes| - 1], nodes[|nodes| - 1];
      SurvivorsUnder(unsafe, key, init);
      assert Under(key, nodes)[..|nodes| - 1] == Under(key, init);
      SurvivesUnder(unsafe, key, n);
    }
  }

  lemma SurvivesUnder(unsafe: TextRule, key: string, n: Node)
    ensures Survives(unsafe, Node([key] + n.path, n.kind)) <==> !IsUnsafeKey(key) && Survives(unsafe, n)
  {
    var path := [key] + n.path;
    assert path[0] == key && forall i :: 0 <= i < |n.path| ==> path[i + 1] == n.path[i];
  }

  /** The sanitised tree has exactly the nodes that survive, in their order: nothing safe is lost,
      nothing is added, nothing moves. */
  lemma {:induction false} SanitizedNodes(unsafe: TextRule, v: Json)
    ensures (match SanitizedValue(unsafe, v) case Some(w) => Nodes(w) case None => []) == Survivors(unsafe, Nodes(v))
    decreases v, 1
  {
    match v
    case Arr(items) =>
      ItemsSurvive(unsafe, items);
      RootSurvives(unsafe, Node([], ArrayNode), ItemNodes(items));
    case Obj(fields) =>
      FieldsSurvive(unsafe, fields);
      RootSurvives(unsafe, Node([], ObjectNode), FieldNodes(fields));
    case _ =>
      assert Nodes(v)[..0] == [];
  }

  lemma RootSurvives(unsafe: TextRule, root: Node, rest: seq<Node>)
    requires root.path == [] && !root.kind.Scalar?
    ensures Survivors(unsafe, [root] + rest) == [root] + Survivors(unsafe, rest)
  {
    SurvivorsConcat(unsafe, [root], rest);
    assert [root][..0] == [];
  }

  lemma {:induction false} ItemsSurvive(unsafe: TextRule, items: seq<Json>)
    ensures ItemNodes(SanitizedItems(unsafe, items)) == Survivors(unsafe, ItemNodes(items))
    decreases items, 0
  {
    if items != [] {
      var init, item := items[..|items| - 1], items[|items| - 1];
      ItemsSurvive(unsafe, init);
      SanitizedNodes(unsafe, item);
      SurvivorsConcat(unsafe, ItemNodes(init), Nodes(item));
      var kept := SanitizedItems(unsafe, init);
      var last := SanitizedValue(unsafe, item);
      if last.Some? {
        assert (kept + [last.value])[..|kept|] == kept;
      } else {
        assert kept + [] == kept;
      }
    }
  }

  lemma {:induction false} FieldsSurvive(unsafe: TextRule, fields: seq<Field>)
    ensures FieldNodes(SanitizedFields(unsafe, fields)) == Survivors(unsafe, FieldNodes(fields))
    decreases fields, 0
  {
    if fields != [] {
      var init, f := fields[..|fields| - 1], fields[|fields| - 1];
      FieldsSurvive(unsafe, init);
      SanitizedNodes(unsafe, f.value);
      SurvivorsUnder(unsafe, f.key, Nodes(f.value));
      SurvivorsConcat(unsafe, FieldNodes(init), Under(f.key, Nodes(f.value)));
      var kept := SanitizedFields(unsafe, init);
      var last := if IsUnsafeKey(f.key) then None else SanitizedValue(unsafe, f.value);
      if last.Some? {
        assert (kept + [Field(f.key, last.value)])[..|kept|] == kept;
      } else {
        assert kept + [] == kept;
        assert Under(f.key, []) == [];
      }
    }
  }

  // ---------------------------------------------------------------- the public error

  datatype AppError = AppError(operational: bool, code: string, message: string, details: seq<Field>)

  datatype Body = Body(code: string, message: string, details: seq<Field>)

  const GENERIC_INTERNAL := "An unexpected error occurred."
  const GENERIC_VALIDATION := "Request could not be completed."
  const GENERIC_UPSTREAM := "An upstream provider failed. Retry later."
  const GENERIC_PERSISTENCE := "The data store is temporarily unavailable."

  /** The value stored under a key, null when there is none. */
  function Lookup(fields: seq<Field>, key: string): Json {
    if fields == [] then Null else if fields[0].key == key then fields[0].value else Lookup(fields[1..], key)
  }

  predicate IsUpstream(e: AppError) { e.code == "PROVIDER_ERROR" || e.code == "INVALID_PROVIDER_QUOTE" }

  function PublicAppError(unsafe: TextRule, e: AppError): Body {
    if !e.operational then Body("INTERNAL_ERROR", GENERIC_INTERNAL, [])
    else if IsUpstream(e) then
      var providerId := Lookup(e.details, "providerId");
      Body(e.code, GENERIC_UPSTREAM, if providerId.Str? then [Field("providerId", providerId)] else [])
    else if e.code == "PERSISTENCE_ERROR" then Body(e.code, GENERIC_PERSISTENCE, [])
    else Body(e.code, if unsafe(e.message) then GENERIC_VALIDATION else e.message, SanitizedFields(unsafe, e.details))
  }

  /** The position of the first field under a key; `|fields|` when there is none. */
  ghost predicate FirstUnder(fields: seq<Field>, key: string, i: nat) {
    && i <= |fields| && (i < |fields| ==> fields[i].key == key)
    && forall j :: 0 <= j < i ==> fields[j].key != key
  }

  lemma {:induction false} LookupFinds(fields: seq<Field>, key: string, i: nat)
    requires FirstUnder(fields, key, i)
    ensures Lookup(fields, key) == if i < |fields| then fields[i].value else Null
  {
    if fields != [] && fields[0].key != key {
      LookupFinds(fields[1..], key, i - 1);
    }
  }

  /** What each kind of error shows: an internal one nothing of its own; an upstream one its code and, if
      it is a text, the provider id; one of the data store its code; any other its code, its message unless
      that is unsafe, and what survives of its details. */
  lemma PublicBodyTells(unsafe: TextRule, e: AppError, i: nat)
    requires FirstUnder(e.details, "providerId", i)
    ensures var b := PublicAppError(unsafe, e);
            if !e.operational then b == Body("INTERNAL_ERROR", "An unexpected error occurred.", [])
            else if e.code == "PROVIDER_ERROR" || e.code == "INVALID_PROVIDER_QUOTE" then
              && b.code == e.code && b.message == "An upstream provider failed. Retry later."
              && b.details == if i < |e.details| && e.details[i].value.Str? then [e.details[i]] else []
            else if e.code == "PERSISTENCE_ERROR" then
              b == Body(e.code, "The data store is temporarily unavailable.", [])
            else
              && b.code == e.code
              && b.message == (if unsafe(e.message) then "Request could not be completed." else e.message)
              && FieldNodes(b.details) == Survivors(unsafe, FieldNodes(e.details))
              && SafeTree(unsafe, Obj(b.details))
  {
    LookupFinds(e.details, "providerId", i);
    FieldsSurvive(unsafe, e.details);
    FieldsAreSafe(unsafe, e.details);
  }

  predicate SafeBody(unsafe: TextRule, b: Body) {
    !unsafe(b.message) && SafeTree(unsafe, Obj(b.details))
  }

  /** Every field of the public body is safe, except that an upstream error passes its provider id on
      as it is: the body is safe exactly when that id is not an unsafe text. */
  lemma PublicBodySafe(unsafe: TextRule, e: AppError)
    requires !unsafe(GENERIC_INTERNAL) && !unsafe(GENERIC_VALIDATION) && !unsafe(GENERIC_UPSTREAM)
    requires !unsafe(GENERIC_PERSISTENCE)
    ensures SafeBody(unsafe, PublicAppError(unsafe, e)) <==>
            !(e.operational && IsUpstream(e)
              && Lookup(e.details, "providerId").Str? && unsafe(Lookup(e.details, "providerId").text))
  {
    FieldsAreSafe(unsafe, e.details);
    assert !IsUnsafeKey("providerId") by {
      assert |Lower("providerId")| == 10 && Lower("providerId")[0] == 'p';
      assert Lower("providerId")[1] == 'r' && Lower("providerId")[2] == 'o';
    }
    if e.operational && IsUpstream(e) && Lookup(e.details, "providerId").Str? {
      var f := Field("providerId", Lookup(e.details, "providerId"));
      var b := PublicAppError(unsafe, e);
      assert b.details == [f] && b.details[0] == f;
      assert SafeTree(unsafe, f.value) <==> !unsafe(f.value.text);
      assert SafeTree(unsafe, Obj(b.details)) <==> SafeTree(unsafe, b.details[0].value);
    }
  }

  /** The exception is real: the sanitiser would have dropped such an id. */
  lemma UpstreamIdEscapes(unsafe: TextRule, text: string)
    requires unsafe(text) && !unsafe(GENERIC_UPSTREAM)
    ensures var e := AppError(true, "PROVIDER_ERROR", "", [Field("providerId", Str(text))]);
            PublicAppError(unsafe, e).details == e.details && !SafeBody(unsafe, PublicAppError(unsafe, e))
  {
    var e := AppError(true, "PROVIDER_ERROR", "", [Field("providerId", Str(text))]);
    assert !SafeTree(unsafe, e.details[0].value);
  }
}
