/** Redaction of a stored result in place, and the context facets indexed from the redacted result. */
module ResultIndex {
  import opened Common
  import opened Ordering
  import opened Redaction
  import opened JsonPaths
  import opened ResultRedaction

  const MAX_FACET_VALUE_CHARS := 512

  datatype Facet = Facet(key: string, value: string, truncated: bool)

  predicate FacetBefore(a: Facet, b: Facet) {
    if a.key != b.key then TextBefore(a.key, b.key)
    else if a.value != b.value then TextBefore(a.value, b.value)
    else !a.truncated && b.truncated
  }

  lemma FacetOrderIsStrict()
    ensures StrictTotal(FacetBefore)
  {
    OrdersAreStrict();
    forall a, b, c | FacetBefore(a, b) && FacetBefore(b, c) ensures FacetBefore(a, c) {
      assert a.key == b.key || TextBefore(a.key, b.key);
      assert b.key == c.key || TextBefore(b.key, c.key);
    }
  }

  function Cut(key: string, raw: string): (f: Facet)
    ensures f.key == key && f.value <= raw
    ensures |raw| <= 512 ==> f.value == raw && !f.truncated
    ensures |raw| > 512 ==> |f.value| == 512 && f.truncated
  {
    Facet(key, raw[..MinInt(|raw|, MAX_FACET_VALUE_CHARS)], |raw| > MAX_FACET_VALUE_CHARS)
  }

  /** Where the i-th piece of game data keeps its name and its value. */
  function GameData(i: nat, field: string): Path {
    [Field("crash_context"), Field("game_data"), Index(i), Field(field)]
  }

  /** The i-th piece of game data carries a value that the project indexes. */
  predicate Indexes(result: Json, keys: seq<string>, i: nat, key: string, raw: string) {
    && Lookup(result, GameData(i, "name")) == Some(Text(key))
    && Lookup(result, GameData(i, "value")) == Some(Text(raw))
    && key in keys && raw != ""
  }

  /** The indexed list: sorted, without repetition, and made of exactly the indexed game data. */
  ghost predicate IsFacetList(result: Json, keys: seq<string>, facets: seq<Facet>) {
    && Canonical(FacetBefore, facets)
    && (forall i: nat, key, raw :: Indexes(result, keys, i, key, raw) ==> Cut(key, raw) in facets)
    && (forall f :: f in facets ==> exists i: nat, key, raw :: Indexes(result, keys, i, key, raw) && f == Cut(key, raw))
  }

  function Member(value: Json, name: string): Option<Json> {
    if value.Object? && name in value.fields then Some(value.fields[name]) else None
  }

  function GameDataItems(result: Json): Option<seq<Json>> {
    match Member(result, "crash_context")
    case None => None
    case Some(context) =>
      match Member(context, "game_data")
      case None => None
      case Some(data) => if data.List? then Some(data.items) else None
  }

  function FacetOf(item: Json, keys: seq<string>): Option<Facet> {
    match (Member(item, "name"), Member(item, "value"))
    case (Some(Text(key)), Some(Text(raw))) => if key in keys && raw != "" then Some(Cut(key, raw)) else None
    case _ => None
  }

  lemma GameDataIsLookedUp(result: Json, i: nat, field: string)
    ensures Lookup(result, GameData(i, field)) ==
            match GameDataItems(result) {
              case None => None
              case Some(items) => if i < |items| then Member(items[i], field) else None
            }
  {
    var path := GameData(i, field);
    var inContext, inList, inItem := path[1..], [Index(i), Field(field)], [Field(field)];
    assert inContext[0] == Field("game_data") && inContext[1..] == inList && inList[1..] == inItem && inItem[1..] == [];
    var context := Member(result, "crash_context");
    assert Lookup(result, path) == if context.Some? then Lookup(context.value, inContext) else None;
    if context.Some? {
      var data := Member(context.value, "game_data");
      assert Lookup(context.value, inContext) == if data.Some? then Lookup(data.value, inList) else None;
      if data.Some? && data.value.List? && i < |data.value.items| {
        assert Lookup(data.value, inList) == Lookup(data.value.items[i], inItem) == Member(data.value.items[i], field);
      }
    }
  }

  lemma FacetOfIsIndexed(result: Json, keys: seq<string>, i: nat, key: string, raw: string)
    ensures Indexes(result, keys, i, key, raw) ==>
              GameDataItems(result).Some? && i < |GameDataItems(result).value|
              && FacetOf(GameDataItems(result).value[i], keys) == Some(Cut(key, raw))
  {
    GameDataIsLookedUp(result, i, "name");
    GameDataIsLookedUp(result, i, "value");
  }

  lemma FacetComesFromGameData(result: Json, keys: seq<string>, i: nat)
    requires GameDataItems(result).Some? && i < |GameDataItems(result).value|
    requires FacetOf(GameDataItems(result).value[i], keys).Some?
    ensures exists key, raw :: Indexes(result, keys, i, key, raw)
              && FacetOf(GameDataItems(result).value[i], keys).value == Cut(key, raw)
  {
    GameDataIsLookedUp(result, i, "name");
    GameDataIsLookedUp(result, i, "value");
    var item := GameDataItems(result).value[i];
    assert Indexes(result, keys, i, Member(item, "name").value.text, Member(item, "value").value.text);
  }

  method ContextFacets(result: Json, keys: seq<string>) returns (facets: seq<Facet>)
    ensures IsFacetList(result, keys, facets)
    ensures forall i, j :: 0 <= i < j < |facets| ==>
              TextBefore(facets[i].key, facets[j].key)
              || (facets[i].key == facets[j].key
                  && (TextBefore(facets[i].value, facets[j].value) || facets[i].value == facets[j].value))
  {
    forall i: nat, key, raw ensures Indexes(result, keys, i, key, raw) ==>
              GameDataItems(result).Some? && i < |GameDataItems(result).value|
              && FacetOf(GameDataItems(result).value[i], keys) == Some(Cut(key, raw))
    {
      FacetOfIsIndexed(result, keys, i, key, raw);
    }
    if keys == [] {
      return [];
    }
    var values := GameDataItems(result);
    if values.None? {
      return [];
    }
    var found: seq<Facet> := [];
    for i := 0 to |values.value|
      invariant forall f :: f in found ==> exists k: nat | k < i :: FacetOf(values.value[k], keys) == Some(f)
      invariant forall k: nat :: k < i && FacetOf(values.value[k], keys).Some? ==>
                  FacetOf(values.value[k], keys).value in found
    {
      var facet := FacetOf(values.value[i], keys);
      if facet.Some? {
        found := found + [facet.value];
      }
    }
    FacetOrderIsStrict();
    facets := SortDistinct(found, FacetBefore);
    forall f | f in facets ensures exists i: nat, key, raw :: Indexes(result, keys, i, key, raw) && f == Cut(key, raw) {
      assert f in Elements(found);
      var k: nat :| k < |values.value| && FacetOf(values.value[k], keys) == Some(f);
      FacetComesFromGameData(result, keys, k);
    }
    forall i: nat, key, raw | Indexes(result, keys, i, key, raw) ensures Cut(key, raw) in facets {
      assert Cut(key, raw) in Elements(found);
    }
  }

  /** Two lists indexed from one result are one list. */
  lemma FacetListIsUnique(result: Json, keys: seq<string>, a: seq<Facet>, b: seq<Facet>)
    requires IsFacetList(result, keys, a) && IsFacetList(result, keys, b)
    ensures a == b
  {
    FacetOrderIsStrict();
    forall f ensures f in Elements(a) <==> f in Elements(b) {
    }
    CanonicalIsUnique(FacetBefore, a, b);
  }

  /** Facets of a redacted result name only indexed keys, and hold no pattern even after the cut. */
  lemma FacetsAreClean(result: Json, rules: Rules, facets: seq<Facet>, pattern: string)
    requires NoneEmpty(rules.patterns) && pattern in rules.patterns && !Overlaps(pattern)
    requires IsFacetList(RedactResult(result, rules.patterns), rules.keys, facets)
    ensures Distinct(facets)
    ensures forall f :: f in facets ==>
              f.key in rules.keys && f.value != "" && |f.value| <= 512 && !Contains(f.value, pattern)
  {
    FacetOrderIsStrict();
    CanonicalIsDistinct(FacetBefore, facets);
    var redacted := RedactResult(result, rules.patterns);
    forall f | f in facets
      ensures f.key in rules.keys && f.value != "" && |f.value| <= 512 && !Contains(f.value, pattern)
    {
      var i: nat, key, raw :| Indexes(redacted, rules.keys, i, key, raw) && f == Cut(key, raw);
      var path := GameData(i, "value");
      assert path[1..][1..] == [Index(i), Field("value")] && IsItemNamed(path[1..][1..], DATA_FIELDS);
      NoPatternIsLeftAtListedPaths(result, rules.patterns, path, pattern);
      AbsentFromSlices(raw, 0, MinInt(|raw|, MAX_FACET_VALUE_CHARS), pattern);
    }
  }

  /** A result in memory, redacted in place before it is stored. */
  class ResultDocument {
    var result: Json

    constructor (result: Json)
      ensures this.result == result
    {
      this.result := result;
    }

    method RedactCrashContext(patterns: Patterns)
      modifies this
      ensures result == OnMember(old(result), "crash_context", v => RedactContext(v, patterns))
    {
      var found := Member(result, "crash_context");
      if found.None? || !found.value.Object? {
        return;
      }
      var context := found.value.fields;
      for i := 0 to |CONTEXT_FIELDS|
        invariant context == RedactFields(found.value.fields, CONTEXT_FIELDS[..i], patterns)
      {
        assert CONTEXT_FIELDS[..i + 1][..i] == CONTEXT_FIELDS[..i];
        context := OnField(context, CONTEXT_FIELDS[i], v => RedactValue(v, patterns));
      }
      assert CONTEXT_FIELDS[..|CONTEXT_FIELDS|] == CONTEXT_FIELDS;
      var named := RedactNamedIn(Object(context), "platform", PLATFORM_FIELDS, patterns);
      var loaded := RedactItemsIn(named, "modules", MODULE_FIELDS, patterns);
      var threaded := RedactItemsIn(loaded, "threads", THREAD_FIELDS, patterns);
      var system := RedactItemsIn(threaded, "system_metadata", DATA_FIELDS, patterns);
      var game := RedactItemsIn(system, "game_data", DATA_FIELDS, patterns);
      var redacted := OnMember(game, "unknown_fields", v => RedactRecursive(v, patterns));
      assert redacted == RedactContext(found.value, patterns);
      result := Object(result.fields["crash_context" := redacted]);
    }

    /** Redacts the document where the rules say, then indexes what is left. */
    method RedactAndIndex(rules: Rules) returns (facets: seq<Facet>)
      requires NoneEmpty(rules.patterns)
      modifies this
      ensures result == RedactWhere(old(result), Listed, rules.patterns)
      ensures result == RedactWhere(old(result), Covered, rules.patterns)
      ensures IsFacetList(result, rules.keys, facets)
    {
      ResultIsRedactedWhereListed(result, rules.patterns);
      forall path ensures Listed(path) == Covered(path) {
        ListedExactly(path);
      }
      SameLanguage(result, Listed, Covered, rules.patterns);
      if rules.patterns != [] {
        RedactCrashContext(rules.patterns);
        result := OnMember(result, "log", v => RedactLog(v, rules.patterns));
        result := OnMember(result, "current", v => RedactSymbolication(v, rules.patterns));
      }
      facets := ContextFacets(result, rules.keys);
    }
  }

  /** The array walker: every item, every field, in place. */
  method RedactArrayInPlace(values: array<Json>, names: seq<string>, patterns: Patterns)
    modifies values
    ensures forall i :: 0 <= i < values.Length ==> values[i] == RedactNamed(old(values[i]), names, patterns)
  {
    for i := 0 to values.Length
      invariant forall k :: 0 <= k < i ==> values[k] == RedactNamed(old(values[k]), names, patterns)
      invariant forall k :: i <= k < values.Length ==> values[k] == old(values[k])
    {
      for j := 0 to |names|
        invariant values[i] == RedactNamed(old(values[i]), names[..j], patterns)
        invariant forall k :: 0 <= k < i ==> values[k] == RedactNamed(old(values[k]), names, patterns)
        invariant forall k :: i < k < values.Length ==> values[k] == old(values[k])
      {
        assert names[..j + 1][..j] == names[..j];
        values[i] := OnMember(values[i], names[j], v => RedactValue(v, patterns));
      }
      assert names[..|names|] == names;
    }
  }

  /** Across a second run the list of facets is the same list. */
  lemma FacetsAreStable(result: Json, rules: Rules, first: seq<Facet>, second: seq<Facet>)
    requires NoneEmpty(rules.patterns) && forall p :: p in rules.patterns ==> !Overlaps(p)
    requires IsFacetList(RedactResult(result, rules.patterns), rules.keys, first)
    requires IsFacetList(RedactResult(RedactResult(result, rules.patterns), rules.patterns), rules.keys, second)
    ensures first == second
  {
    ResultRedactionIsIdempotent(result, rules.patterns);
    FacetListIsUnique(RedactResult(result, rules.patterns), rules.keys, first, second);
  }
}
