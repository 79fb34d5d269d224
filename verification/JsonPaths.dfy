/** JSON trees, sets of paths into them, and redaction of the texts at a set of paths. */
module JsonPaths {
  import opened Common
  import opened Redaction

  datatype Json = Null | Boolean(value: bool) | Number(literal: string) | Text(text: string)
                | List(items: seq<Json>) | Object(fields: map<string, Json>)

  type Patterns = p: seq<string> | NoneEmpty(p) witness []

  datatype Segment = Field(name: string) | Index(position: nat)

  type Path = seq<Segment>

  /** A set of paths, and what is left of it one segment down. */
  type Language = Path -> bool

  function After(segment: Segment, at: Language): Language {
    p => at([segment] + p)
  }

  /** The reference: every text whose path is in the language `at` is redacted, everything else is copied. */
  function RedactWhere(value: Json, at: Language, patterns: Patterns): Json {
    match value
    case Text(text) => if at([]) then Text(RedactText(text, patterns)) else value
    case List(items) => List(seq(|items|,
                                 i requires 0 <= i < |items| => RedactWhere(items[i], After(Index(i), at), patterns)))
    case Object(fields) => Object(map k | k in fields :: RedactWhere(fields[k], After(Field(k), at), patterns))
    case _ => value
  }

  function Here(): Language {
    p => p == []
  }

  function Under(name: string, inner: Language): Language {
    p => p != [] && p[0] == Field(name) && inner(p[1..])
  }

  function Items(inner: Language): Language {
    (p: Path) => p != [] && p[0].Index? && inner(p[1..])
  }

  function Either(a: Language, b: Language): Language {
    p => a(p) || b(p)
  }

  ghost predicate Same(a: Language, b: Language) {
    forall p :: a(p) == b(p)
  }

  ghost predicate Empty(at: Language) {
    forall p :: !at(p)
  }

  ghost predicate Disjoint(a: Language, b: Language) {
    forall p :: !(a(p) && b(p))
  }

  lemma AfterSame(segment: Segment, a: Language, b: Language)
    requires Same(a, b)
    ensures Same(After(segment, a), After(segment, b))
  {
    forall p ensures After(segment, a)(p) == After(segment, b)(p) {
      assert After(segment, a)(p) == a([segment] + p) && After(segment, b)(p) == b([segment] + p);
    }
  }

  lemma AfterEmpty(segment: Segment, at: Language)
    requires Empty(at)
    ensures Empty(After(segment, at))
  {
    forall p ensures !After(segment, at)(p) {
      assert After(segment, at)(p) == at([segment] + p);
    }
  }

  lemma AfterHere(segment: Segment)
    ensures Empty(After(segment, Here()))
  {
    forall p ensures !After(segment, Here())(p) {
      assert After(segment, Here())(p) == Here()([segment] + p);
    }
  }

  lemma AfterUnder(segment: Segment, name: string, inner: Language)
    ensures segment == Field(name) ==> Same(After(segment, Under(name, inner)), inner)
    ensures segment != Field(name) ==> Empty(After(segment, Under(name, inner)))
  {
    forall p ensures After(segment, Under(name, inner))(p) == (segment == Field(name) && inner(p)) {
      assert After(segment, Under(name, inner))(p) == Under(name, inner)([segment] + p);
      assert ([segment] + p)[0] == segment && ([segment] + p)[1..] == p;
    }
  }

  lemma AfterItems(segment: Segment, inner: Language)
    ensures segment.Index? ==> Same(After(segment, Items(inner)), inner)
    ensures !segment.Index? ==> Empty(After(segment, Items(inner)))
  {
    forall p ensures After(segment, Items(inner))(p) == (segment.Index? && inner(p)) {
      assert After(segment, Items(inner))(p) == Items(inner)([segment] + p);
      assert ([segment] + p)[0] == segment && ([segment] + p)[1..] == p;
    }
  }

  lemma AfterEither(segment: Segment, a: Language, b: Language)
    ensures Same(After(segment, Either(a, b)), Either(After(segment, a), After(segment, b)))
    ensures Disjoint(a, b) ==> Disjoint(After(segment, a), After(segment, b))
  {
    forall p
      ensures After(segment, Either(a, b))(p) == Either(After(segment, a), After(segment, b))(p)
      ensures Disjoint(a, b) ==> !(After(segment, a)(p) && After(segment, b)(p))
    {
      assert After(segment, Either(a, b))(p) == Either(a, b)([segment] + p) == (a([segment] + p) || b([segment] + p));
      assert After(segment, a)(p) == a([segment] + p) && After(segment, b)(p) == b([segment] + p);
    }
  }

  lemma {:induction false} SameLanguage(value: Json, a: Language, b: Language, patterns: Patterns)
    requires Same(a, b)
    ensures RedactWhere(value, a, patterns) == RedactWhere(value, b, patterns)
    decreases value
  {
    match value
    case List(items) =>
      forall i | 0 <= i < |items|
        ensures RedactWhere(items[i], After(Index(i), a), patterns)
                  == RedactWhere(items[i], After(Index(i), b), patterns)
      {
        AfterSame(Index(i), a, b);
        SameLanguage(items[i], After(Index(i), a), After(Index(i), b), patterns);
      }
    case Object(fields) =>
      forall k | k in fields
        ensures RedactWhere(fields[k], After(Field(k), a), patterns)
                  == RedactWhere(fields[k], After(Field(k), b), patterns)
      {
        AfterSame(Field(k), a, b);
        SameLanguage(fields[k], After(Field(k), a), After(Field(k), b), patterns);
      }
    case _ =>
  }

  lemma {:induction false} NothingListed(value: Json, at: Language, patterns: Patterns)
    requires Empty(at)
    ensures RedactWhere(value, at, patterns) == value
    decreases value
  {
    match value
    case List(items) =>
      forall i | 0 <= i < |items| ensures RedactWhere(items[i], After(Index(i), at), patterns) == items[i] {
        AfterEmpty(Index(i), at);
        NothingListed(items[i], After(Index(i), at), patterns);
      }
    case Object(fields) =>
      forall k | k in fields ensures RedactWhere(fields[k], After(Field(k), at), patterns) == fields[k] {
        AfterEmpty(Field(k), at);
        NothingListed(fields[k], After(Field(k), at), patterns);
      }
    case _ =>
  }

  /** Redacting two disjoint languages one after the other is redacting their union. */
  lemma {:induction false} OneAfterTheOther(value: Json, a: Language, b: Language, patterns: Patterns)
    requires Disjoint(a, b)
    ensures RedactWhere(RedactWhere(value, a, patterns), b, patterns) == RedactWhere(value, Either(a, b), patterns)
    decreases value, 0
  {
    match value
    case Text(_) => assert Either(a, b)([]) == (a([]) || b([]));
    case List(items) =>
      forall i | 0 <= i < |items|
        ensures RedactWhere(RedactWhere(items[i], After(Index(i), a), patterns), After(Index(i), b), patterns)
             == RedactWhere(items[i], After(Index(i), Either(a, b)), patterns)
      {
        Distributes(items[i], Index(i), a, b, patterns);
      }
    case Object(fields) =>
      forall k | k in fields
        ensures RedactWhere(RedactWhere(fields[k], After(Field(k), a), patterns), After(Field(k), b), patterns)
             == RedactWhere(fields[k], After(Field(k), Either(a, b)), patterns)
      {
        Distributes(fields[k], Field(k), a, b, patterns);
      }
    case _ =>
  }

  lemma {:induction false} Distributes(value: Json, segment: Segment, a: Language, b: Language, patterns: Patterns)
    requires Disjoint(a, b)
    ensures RedactWhere(RedactWhere(value, After(segment, a), patterns), After(segment, b), patterns)
         == RedactWhere(value, After(segment, Either(a, b)), patterns)
    decreases value, 1
  {
    AfterEither(segment, a, b);
    OneAfterTheOther(value, After(segment, a), After(segment, b), patterns);
    SameLanguage(value, After(segment, Either(a, b)), Either(After(segment, a), After(segment, b)), patterns);
  }

  lemma {:induction false} NoPatterns(value: Json, at: Language)
    ensures RedactWhere(value, at, []) == value
    decreases value
  {
    match value
    case List(items) =>
      forall i | 0 <= i < |items| ensures RedactWhere(items[i], After(Index(i), at), []) == items[i] {
        NoPatterns(items[i], After(Index(i), at));
      }
    case Object(fields) =>
      forall k | k in fields ensures RedactWhere(fields[k], After(Field(k), at), []) == fields[k] {
        NoPatterns(fields[k], After(Field(k), at));
      }
    case _ =>
  }

  lemma {:induction false} RedactWhereIsIdempotent(value: Json, at: Language, patterns: Patterns)
    requires forall p :: p in patterns ==> !Overlaps(p)
    ensures RedactWhere(RedactWhere(value, at, patterns), at, patterns) == RedactWhere(value, at, patterns)
    decreases value
  {
    match value
    case Text(text) => RedactionIsCompleteAndIdempotent(text, patterns);
    case List(items) =>
      forall i | 0 <= i < |items|
        ensures RedactWhere(RedactWhere(items[i], After(Index(i), at), patterns), After(Index(i), at), patterns)
             == RedactWhere(items[i], After(Index(i), at), patterns)
      {
        RedactWhereIsIdempotent(items[i], After(Index(i), at), patterns);
      }
    case Object(fields) =>
      forall k | k in fields
        ensures RedactWhere(RedactWhere(fields[k], After(Field(k), at), patterns), After(Field(k), at), patterns)
             == RedactWhere(fields[k], After(Field(k), at), patterns)
      {
        RedactWhereIsIdempotent(fields[k], After(Field(k), at), patterns);
      }
    case _ =>
  }

  /** What a path leads to. */
  function Lookup(value: Json, path: Path): Option<Json>
    decreases |path|
  {
    if path == [] then Some(value)
    else match path[0]
      case Field(name) => if value.Object? && name in value.fields then Lookup(value.fields[name], path[1..]) else None
      case Index(i) => if value.List? && i < |value.items| then Lookup(value.items[i], path[1..]) else None
  }

  /** The same node after redaction: same kind, same keys or length, same leaf unless it is a text
      that `covered` says to redact. */
  predicate SameButRedacted(before: Json, after: Json, covered: bool, patterns: Patterns) {
    match before
    case Text(text) => after == Text(if covered then RedactText(text, patterns) else text)
    case List(items) => after.List? && |after.items| == |items|
    case Object(fields) => after.Object? && after.fields.Keys == fields.Keys
    case _ => after == before
  }

  /** Redaction keeps every path, and changes only the texts the language covers. */
  lemma {:induction false} LookupAfterRedaction(value: Json, at: Language, patterns: Patterns, path: Path)
    ensures Lookup(RedactWhere(value, at, patterns), path).Some? <==> Lookup(value, path).Some?
    ensures Lookup(value, path).Some? ==>
              SameButRedacted(Lookup(value, path).value, Lookup(RedactWhere(value, at, patterns), path).value, at(path),
                              patterns)
    decreases |path|
  {
    if path != [] {
      var segment, rest := path[0], path[1..];
      assert path == [segment] + rest;
      assert After(segment, at)(rest) == at(path);
      match segment
      case Field(name) =>
        if value.Object? && name in value.fields {
          LookupAfterRedaction(value.fields[name], After(segment, at), patterns, rest);
        }
      case Index(i) =>
        if value.List? && i < |value.items| {
          LookupAfterRedaction(value.items[i], After(segment, at), patterns, rest);
        }
    }
  }
}
