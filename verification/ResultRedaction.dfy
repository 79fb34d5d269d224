/** Redaction of a whole crash result: the walkers, and the paths they cover. */
module ResultRedaction {
  import opened Common
  import opened JsonPaths
  import opened Redaction

  // ---------- the walkers ----------

  const CONTEXT_FIELDS: seq<string> :=
    ["error_message", "build_version", "engine_version", "architecture", "build_configuration", "command_line",
     "user_comment"]
  const PLATFORM_FIELDS: seq<string> := ["original", "normalized"]
  const MODULE_FIELDS: seq<string> := ["original"]
  const THREAD_FIELDS: seq<string> := ["call_stack", "registers", "thread_name"]
  const DATA_FIELDS: seq<string> := ["value"]

  function RedactValue(value: Json, patterns: Patterns): Json {
    if value.Text? then Text(RedactText(value.text, patterns)) else value
  }

  /** `get_mut` on one key, then a change of what is there. */
  function OnField(fields: map<string, Json>, name: string, change: Json -> Json): (changed: map<string, Json>)
    ensures changed.Keys == fields.Keys
    ensures forall k :: k in fields ==> changed[k] == if k == name then change(fields[k]) else fields[k]
  {
    if name in fields then fields[name := change(fields[name])] else fields
  }

  function OnMember(value: Json, name: string, change: Json -> Json): Json {
    if value.Object? then Object(OnField(value.fields, name, change)) else value
  }

  function OnEach(value: Json, change: Json -> Json): Json {
    if value.List? then List(seq(|value.items|, i requires 0 <= i < |value.items| => change(value.items[i]))) else value
  }

  function RedactFields(fields: map<string, Json>, names: seq<string>, patterns: Patterns): map<string, Json> {
    if names == [] then fields
    else
      var last := |names| - 1;
      OnField(RedactFields(fields, names[..last], patterns), names[last], v => RedactValue(v, patterns))
  }

  function RedactNamed(value: Json, names: seq<string>, patterns: Patterns): Json {
    if value.Object? then Object(RedactFields(value.fields, names, patterns)) else value
  }

  function RedactArrayFields(value: Json, names: seq<string>, patterns: Patterns): Json {
    OnEach(value, item => RedactNamed(item, names, patterns))
  }

  function RedactRecursive(value: Json, patterns: Patterns): Json {
    match value
    case Text(text) => Text(RedactText(text, patterns))
    case List(items) => List(seq(|items|, i requires 0 <= i < |items| => RedactRecursive(items[i], patterns)))
    case Object(fields) => Object(map k | k in fields :: RedactRecursive(fields[k], patterns))
    case _ => value
  }

  function RedactNamedIn(value: Json, member: string, names: seq<string>, patterns: Patterns): Json {
    OnMember(value, member, v => RedactNamed(v, names, patterns))
  }

  function RedactItemsIn(value: Json, member: string, names: seq<string>, patterns: Patterns): Json {
    OnMember(value, member, v => RedactArrayFields(v, names, patterns))
  }

  function RedactContext(context: Json, patterns: Patterns): Json {
    var a := RedactNamed(context, CONTEXT_FIELDS, patterns);
    var b := RedactNamedIn(a, "platform", PLATFORM_FIELDS, patterns);
    var c := RedactItemsIn(b, "modules", MODULE_FIELDS, patterns);
    var d := RedactItemsIn(c, "threads", THREAD_FIELDS, patterns);
    var e := RedactItemsIn(d, "system_metadata", DATA_FIELDS, patterns);
    var f := RedactItemsIn(e, "game_data", DATA_FIELDS, patterns);
    OnMember(f, "unknown_fields", v => RedactRecursive(v, patterns))
  }

  function RedactLog(log: Json, patterns: Patterns): Json {
    var named := OnMember(log, "name", v => RedactValue(v, patterns));
    OnMember(named, "tail", tail => OnMember(tail, "text", v => RedactValue(v, patterns)))
  }

  function RedactFrame(frame: Json, patterns: Patterns): Json {
    var located := OnMember(frame, "source_file", v => RedactValue(v, patterns));
    OnMember(located, "inlines", inlines => RedactArrayFields(inlines, ["source_file"], patterns))
  }

  function RedactFrames(frames: Json, patterns: Patterns): Json {
    OnEach(frames, frame => RedactFrame(frame, patterns))
  }

  function RedactThread(thread: Json, patterns: Patterns): Json {
    OnMember(thread, "frames", frames => RedactFrames(frames, patterns))
  }

  function RedactThreads(threads: Json, patterns: Patterns): Json {
    OnEach(threads, thread => RedactThread(thread, patterns))
  }

  function RedactSymbolicated(symbolication: Json, patterns: Patterns): Json {
    OnMember(symbolication, "threads", threads => RedactThreads(threads, patterns))
  }

  function RedactSymbolication(current: Json, patterns: Patterns): Json {
    OnMember(current, "symbolication", symbolication => RedactSymbolicated(symbolication, patterns))
  }

  function RedactResult(result: Json, patterns: Patterns): Json {
    if patterns == [] then result
    else
      var a := OnMember(result, "crash_context", v => RedactContext(v, patterns));
      var b := OnMember(a, "log", v => RedactLog(v, patterns));
      OnMember(b, "current", v => RedactSymbolication(v, patterns))
  }

  // ---------- what they should do: redact exactly the texts at the listed paths ----------

  predicate IsNamed(path: Path, names: seq<string>) {
    |path| == 1 && path[0].Field? && path[0].name in names
  }

  predicate IsItemNamed(path: Path, names: seq<string>) {
    |path| == 2 && path[0].Index? && IsNamed(path[1..], names)
  }

  predicate InContext(path: Path) {
    IsNamed(path, CONTEXT_FIELDS) ||
    (path != [] &&
      ((path[0] == Field("platform") && IsNamed(path[1..], PLATFORM_FIELDS))
       || (path[0] == Field("modules") && IsItemNamed(path[1..], MODULE_FIELDS))
       || (path[0] == Field("threads") && IsItemNamed(path[1..], THREAD_FIELDS))
       || (path[0] == Field("system_metadata") && IsItemNamed(path[1..], DATA_FIELDS))
       || (path[0] == Field("game_data") && IsItemNamed(path[1..], DATA_FIELDS))
       || path[0] == Field("unknown_fields")))
  }

  predicate InLog(path: Path) {
    path == [Field("name")] || path == [Field("tail"), Field("text")]
  }

  predicate InFrame(path: Path) {
    path == [Field("source_file")]
        || (|path| == 3 && path[0] == Field("inlines") && IsItemNamed(path[1..], ["source_file"]))
  }

  predicate InSymbolication(path: Path) {
    |path| > 5 && path[0] == Field("symbolication") && path[1] == Field("threads") && path[2].Index?
    && path[3] == Field("frames") && path[4].Index? && InFrame(path[5..])
  }

  /** The paths whose texts the data rules cover. */
  predicate Listed(path: Path) {
    path != [] &&
    ((path[0] == Field("crash_context") && InContext(path[1..]))
     || (path[0] == Field("log") && InLog(path[1..]))
     || (path[0] == Field("current") && InSymbolication(path[1..])))
  }

  /** The same list written out path by path. */
  predicate Covered(path: Path) {
    (|path| >= 2 && path[0] == Field("crash_context") &&
      ((|path| == 2 && path[1] in {Field("error_message"), Field("build_version"), Field("engine_version"),
                                   Field("architecture"), Field("build_configuration"), Field("command_line"),
                                   Field("user_comment")})
       || (|path| == 3 && path[1] == Field("platform") && path[2] in {Field("original"), Field("normalized")})
       || (|path| == 4 && path[2].Index? &&
            ((path[1] == Field("modules") && path[3] == Field("original"))
             || (path[1] == Field("threads") && path[3] in {Field("call_stack"), Field("registers"),
                                                            Field("thread_name")})
             || (path[1] in {Field("system_metadata"), Field("game_data")} && path[3] == Field("value"))))
       || path[1] == Field("unknown_fields")))
    || path == [Field("log"), Field("name")]
    || path == [Field("log"), Field("tail"), Field("text")]
    || (|path| in {7, 9} && path[..3] == [Field("current"), Field("symbolication"), Field("threads")]
        && path[3].Index? && path[4] == Field("frames") && path[5].Index?
        && if |path| == 7 then path[6] == Field("source_file")
           else path[6] == Field("inlines") && path[7].Index? && path[8] == Field("source_file"))
  }

  lemma ContextIsCovered(path: Path)
    ensures Covered([Field("crash_context")] + path) <==> InContext(path)
  {
    var whole := [Field("crash_context")] + path;
    assert |path| >= 1 ==> whole[1] == path[0];
    assert |path| >= 2 ==> whole[2] == path[1] == path[1..][0];
    assert |path| >= 3 ==> whole[3] == path[2] == path[1..][1] == path[1..][1..][0];
  }

  lemma FramesAreCovered(path: Path)
    ensures Covered([Field("current")] + path) <==> InSymbolication(path)
  {
    var whole := [Field("current")] + path;
    assert |path| >= 6 ==> whole[..3] == [Field("current"), path[0], path[1]];
    assert |path| >= 6 ==> whole[3] == path[2] && whole[4] == path[3] && whole[5] == path[4]
                           && whole[6] == path[5] == path[5..][0];
    assert |path| == 8 ==> whole[7] == path[6] == path[5..][1..][0]
                           && whole[8] == path[7] == path[5..][1..][1..][0];
  }

  /** The rules cover exactly these paths. */
  lemma ListedExactly(path: Path)
    ensures Listed(path) <==> Covered(path)
  {
    if path != [] {
      assert path == [path[0]] + path[1..];
      if path[0] == Field("crash_context") {
        ContextIsCovered(path[1..]);
      } else if path[0] == Field("current") {
        FramesAreCovered(path[1..]);
      } else if path[0] == Field("log") {
        assert path[1..] == [Field("name")] <==> path == [Field("log"), Field("name")];
        assert path[1..] == [Field("tail"), Field("text")] <==> path == [Field("log"), Field("tail"), Field("text")];
      }
    }
  }

  // ---------- the walkers against the reference ----------

  lemma {:induction false} EverythingListed(value: Json, at: Language, patterns: Patterns)
    requires forall p :: at(p)
    ensures RedactRecursive(value, patterns) == RedactWhere(value, at, patterns)
    decreases value
  {
    match value
    case List(items) =>
      forall i | 0 <= i < |items|
        ensures RedactRecursive(items[i], patterns) == RedactWhere(items[i], After(Index(i), at), patterns)
      {
        EverythingListed(items[i], After(Index(i), at), patterns);
      }
    case Object(fields) =>
      forall k | k in fields
        ensures RedactRecursive(fields[k], patterns) == RedactWhere(fields[k], After(Field(k), at), patterns)
      {
        EverythingListed(fields[k], After(Field(k), at), patterns);
      }
    case _ =>
  }

  lemma ValueIsHere(value: Json, patterns: Patterns)
    ensures RedactValue(value, patterns) == RedactWhere(value, Here(), patterns)
  {
    match value
    case List(items) =>
      forall i | 0 <= i < |items| ensures RedactWhere(items[i], After(Index(i), Here()), patterns) == items[i] {
        AfterHere(Index(i));
        NothingListed(items[i], After(Index(i), Here()), patterns);
      }
    case Object(fields) =>
      forall k | k in fields ensures RedactWhere(fields[k], After(Field(k), Here()), patterns) == fields[k] {
        AfterHere(Field(k));
        NothingListed(fields[k], After(Field(k), Here()), patterns);
      }
    case _ =>
  }

  /** Changing one member is redacting under that member. */
  lemma MemberIsUnder(value: Json, name: string, change: Json -> Json, inner: Language, patterns: Patterns)
    requires value.Object? && name in value.fields ==>
               change(value.fields[name]) == RedactWhere(value.fields[name], inner, patterns)
    ensures OnMember(value, name, change) == RedactWhere(value, Under(name, inner), patterns)
  {
    match value
    case List(items) =>
      forall i | 0 <= i < |items|
        ensures RedactWhere(items[i], After(Index(i), Under(name, inner)), patterns) == items[i]
      {
        AfterUnder(Index(i), name, inner);
        NothingListed(items[i], After(Index(i), Under(name, inner)), patterns);
      }
    case Object(fields) =>
      forall k | k in fields
        ensures RedactWhere(fields[k], After(Field(k), Under(name, inner)), patterns)
             == if k == name then change(fields[k]) else fields[k]
      {
        AfterUnder(Field(k), name, inner);
        if k == name {
          SameLanguage(fields[k], After(Field(k), Under(name, inner)), inner, patterns);
        } else {
          NothingListed(fields[k], After(Field(k), Under(name, inner)), patterns);
        }
      }
    case _ =>
  }

  /** Changing every item is redacting under the items. */
  lemma EachIsItems(value: Json, change: Json -> Json, inner: Language, patterns: Patterns)
    requires value.List? ==>
               forall i :: 0 <= i < |value.items| ==>
                   change(value.items[i]) == RedactWhere(value.items[i], inner, patterns)
    ensures OnEach(value, change) == RedactWhere(value, Items(inner), patterns)
  {
    match value
    case List(items) =>
      forall i | 0 <= i < |items|
        ensures RedactWhere(items[i], After(Index(i), Items(inner)), patterns) == RedactWhere(items[i], inner, patterns)
      {
        AfterItems(Index(i), inner);
        SameLanguage(items[i], After(Index(i), Items(inner)), inner, patterns);
      }
    case Object(fields) =>
      forall k | k in fields ensures RedactWhere(fields[k], After(Field(k), Items(inner)), patterns) == fields[k] {
        AfterItems(Field(k), inner);
        NothingListed(fields[k], After(Field(k), Items(inner)), patterns);
      }
    case _ =>
  }

  function Named(names: seq<string>): Language {
    p => IsNamed(p, names)
  }

  function ItemNamed(names: seq<string>): Language {
    p => IsItemNamed(p, names)
  }

  /** Every path of the language starts with one of these fields. */
  ghost predicate StartsIn(at: Language, names: set<string>) {
    forall p: Path :: at(p) ==> p != [] && p[0].Field? && p[0].name in names
  }

  /** One more member redacted, after others. */
  lemma ThenUnder(value: Json, before: Json, at: Language, starts: set<string>,
                  name: string, change: Json -> Json, inner: Language, patterns: Patterns)
    requires before == RedactWhere(value, at, patterns) && StartsIn(at, starts) && name !in starts
    requires forall v :: change(v) == RedactWhere(v, inner, patterns)
    ensures OnMember(before, name, change) == RedactWhere(value, Either(at, Under(name, inner)), patterns)
    ensures StartsIn(Either(at, Under(name, inner)), starts + {name})
  {
    MemberIsUnder(before, name, change, inner, patterns);
    forall p: Path
      ensures !(at(p) && Under(name, inner)(p))
      ensures Either(at, Under(name, inner))(p) ==> p != [] && p[0].Field? && p[0].name in starts + {name}
    {
      assert Either(at, Under(name, inner))(p) == (at(p) || Under(name, inner)(p));
      assert Under(name, inner)(p) == (p != [] && p[0] == Field(name) && inner(p[1..]));
    }
    OneAfterTheOther(value, at, Under(name, inner), patterns);
  }

  lemma RedactValueIsHere(patterns: Patterns)
    ensures forall v :: RedactValue(v, patterns) == RedactWhere(v, Here(), patterns)
  {
    forall v ensures RedactValue(v, patterns) == RedactWhere(v, Here(), patterns) {
      ValueIsHere(v, patterns);
    }
  }

  lemma {:induction false} FieldsAreNamed(fields: map<string, Json>, names: seq<string>, patterns: Patterns)
    requires Distinct(names)
    ensures Object(RedactFields(fields, names, patterns)) == RedactWhere(Object(fields), Named(names), patterns)
    ensures StartsIn(Named(names), Elements(names))
    decreases |names|
  {
    if names == [] {
      NothingListed(Object(fields), Named(names), patterns);
    } else {
      var last := |names| - 1;
      var rest, name := names[..last], names[last];
      FieldsAreNamed(fields, rest, patterns);
      RedactValueIsHere(patterns);
      ThenUnder(Object(fields), Object(RedactFields(fields, rest, patterns)), Named(rest), Elements(rest),
                name, v => RedactValue(v, patterns), Here(), patterns);
      forall p: Path ensures Either(Named(rest), Under(name, Here()))(p) == Named(names)(p) {
        assert Either(Named(rest), Under(name, Here()))(p) == (IsNamed(p, rest) || Under(name, Here())(p));
        assert Under(name, Here())(p) == (p != [] && p[0] == Field(name) && p[1..] == []);
        assert names == rest + [name];
      }
      SameLanguage(Object(fields), Either(Named(rest), Under(name, Here())), Named(names), patterns);
    }
  }

  lemma NamedIsWhere(value: Json, names: seq<string>, patterns: Patterns)
    requires Distinct(names)
    ensures RedactNamed(value, names, patterns) == RedactWhere(value, Named(names), patterns)
  {
    if value.Object? {
      FieldsAreNamed(value.fields, names, patterns);
    } else if value.List? {
      FieldsAreNamed(map[], names, patterns);
      forall i | 0 <= i < |value.items|
        ensures RedactWhere(value.items[i], After(Index(i), Named(names)), patterns) == value.items[i]
      {
        forall p ensures !After(Index(i), Named(names))(p) {
          assert After(Index(i), Named(names))(p) == Named(names)([Index(i)] + p);
        }
        NothingListed(value.items[i], After(Index(i), Named(names)), patterns);
      }
    }
  }

  lemma ArrayFieldsAreItems(value: Json, names: seq<string>, patterns: Patterns)
    requires Distinct(names)
    ensures RedactArrayFields(value, names, patterns) == RedactWhere(value, ItemNamed(names), patterns)
  {
    forall v ensures RedactNamed(v, names, patterns) == RedactWhere(v, Named(names), patterns) {
      NamedIsWhere(v, names, patterns);
    }
    EachIsItems(value, item => RedactNamed(item, names, patterns), Named(names), patterns);
    forall p: Path ensures Items(Named(names))(p) == ItemNamed(names)(p) {
      assert Items(Named(names))(p) == (p != [] && p[0].Index? && Named(names)(p[1..]));
    }
    SameLanguage(value, Items(Named(names)), ItemNamed(names), patterns);
  }

  lemma NamedStarts(names: seq<string>)
    ensures StartsIn(Named(names), Elements(names))
  {
    forall p: Path ensures Named(names)(p) ==> p != [] && p[0].Field? && p[0].name in Elements(names) {
      assert Named(names)(p) == IsNamed(p, names);
    }
  }

  lemma NamesAreDistinct()
    ensures Distinct(CONTEXT_FIELDS) && Distinct(PLATFORM_FIELDS) && Distinct(MODULE_FIELDS)
    ensures Distinct(THREAD_FIELDS) && Distinct(DATA_FIELDS)
  {
  }

  function Everywhere(): Language {
    p => true
  }

  /** The paths of the context, one group of statements at a time. */
  function ContextPaths(groups: nat): Language {
    match groups
    case 0 => Named(CONTEXT_FIELDS)
    case 1 => Either(ContextPaths(0), Under("platform", Named(PLATFORM_FIELDS)))
    case 2 => Either(ContextPaths(1), Under("modules", ItemNamed(MODULE_FIELDS)))
    case 3 => Either(ContextPaths(2), Under("threads", ItemNamed(THREAD_FIELDS)))
    case 4 => Either(ContextPaths(3), Under("system_metadata", ItemNamed(DATA_FIELDS)))
    case 5 => Either(ContextPaths(4), Under("game_data", ItemNamed(DATA_FIELDS)))
    case _ => Either(ContextPaths(5), Under("unknown_fields", Everywhere()))
  }

  lemma ContextPathsAreTheContext(p: Path)
    ensures ContextPaths(6)(p) == InContext(p)
  {
    var rest := if p == [] then [] else p[1..];
    assert ContextPaths(0)(p) == IsNamed(p, CONTEXT_FIELDS);
    assert ContextPaths(1)(p)
           == (ContextPaths(0)(p) || (p != [] && p[0] == Field("platform") && IsNamed(rest, PLATFORM_FIELDS)));
    assert ContextPaths(2)(p)
           == (ContextPaths(1)(p) || (p != [] && p[0] == Field("modules") && IsItemNamed(rest, MODULE_FIELDS)));
    assert ContextPaths(3)(p)
           == (ContextPaths(2)(p) || (p != [] && p[0] == Field("threads") && IsItemNamed(rest, THREAD_FIELDS)));
    assert ContextPaths(4)(p)
           == (ContextPaths(3)(p) || (p != [] && p[0] == Field("system_metadata") && IsItemNamed(rest, DATA_FIELDS)));
    assert ContextPaths(5)(p)
           == (ContextPaths(4)(p) || (p != [] && p[0] == Field("game_data") && IsItemNamed(rest, DATA_FIELDS)));
    assert ContextPaths(6)(p) == (ContextPaths(5)(p) || (p != [] && p[0] == Field("unknown_fields")));
  }

  lemma ThenNamedIn(value: Json, before: Json, at: Language, starts: set<string>, member: string, names: seq<string>,
                    patterns: Patterns)
    requires before == RedactWhere(value, at, patterns) && StartsIn(at, starts) && member !in starts && Distinct(names)
    ensures RedactNamedIn(before, member, names, patterns)
              == RedactWhere(value, Either(at, Under(member, Named(names))), patterns)
    ensures StartsIn(Either(at, Under(member, Named(names))), starts + {member})
  {
    forall v ensures RedactNamed(v, names, patterns) == RedactWhere(v, Named(names), patterns) {
      NamedIsWhere(v, names, patterns);
    }
    ThenUnder(value, before, at, starts, member, v => RedactNamed(v, names, patterns), Named(names), patterns);
  }

  lemma ThenItemsIn(value: Json, before: Json, at: Language, starts: set<string>, member: string, names: seq<string>,
                    patterns: Patterns)
    requires before == RedactWhere(value, at, patterns) && StartsIn(at, starts) && member !in starts && Distinct(names)
    ensures RedactItemsIn(before, member, names, patterns)
              == RedactWhere(value, Either(at, Under(member, ItemNamed(names))), patterns)
    ensures StartsIn(Either(at, Under(member, ItemNamed(names))), starts + {member})
  {
    forall v ensures RedactArrayFields(v, names, patterns) == RedactWhere(v, ItemNamed(names), patterns) {
      ArrayFieldsAreItems(v, names, patterns);
    }
    ThenUnder(value, before, at, starts, member, v => RedactArrayFields(v, names, patterns), ItemNamed(names),
              patterns);
  }

  /** The fields that the first groups of statements may have touched. */
  function ContextStarts(groups: nat): set<string> {
    match groups
    case 0 => Elements(CONTEXT_FIELDS)
    case 1 => ContextStarts(0) + {"platform"}
    case 2 => ContextStarts(1) + {"modules"}
    case 3 => ContextStarts(2) + {"threads"}
    case 4 => ContextStarts(3) + {"system_metadata"}
    case _ => ContextStarts(4) + {"game_data"}
  }

  lemma GroupsAreApart()
    ensures "platform" !in ContextStarts(0) && "modules" !in ContextStarts(1) && "threads" !in ContextStarts(2)
    ensures "system_metadata" !in ContextStarts(3) && "game_data" !in ContextStarts(4)
              && "unknown_fields" !in ContextStarts(5)
  {
  }

  ghost predicate Reached(context: Json, before: Json, groups: nat, patterns: Patterns) {
    before == RedactWhere(context, ContextPaths(groups), patterns)
        && StartsIn(ContextPaths(groups), ContextStarts(groups))
  }

  lemma FirstGroups(context: Json, patterns: Patterns)
    ensures var named := RedactNamed(context, CONTEXT_FIELDS, patterns);
            Reached(context, RedactNamedIn(named, "platform", PLATFORM_FIELDS, patterns), 1, patterns)
  {
    NamesAreDistinct();
    GroupsAreApart();
    NamedIsWhere(context, CONTEXT_FIELDS, patterns);
    NamedStarts(CONTEXT_FIELDS);
    ThenNamedIn(context, RedactNamed(context, CONTEXT_FIELDS, patterns), ContextPaths(0), ContextStarts(0), "platform",
                PLATFORM_FIELDS, patterns);
  }

  lemma ItemGroup(context: Json, before: Json, groups: nat, member: string, names: seq<string>, patterns: Patterns)
    requires Reached(context, before, groups, patterns) && Distinct(names)
    requires ContextPaths(groups + 1) == Either(ContextPaths(groups), Under(member, ItemNamed(names)))
    requires ContextStarts(groups + 1) == ContextStarts(groups) + {member} && member !in ContextStarts(groups)
    ensures Reached(context, RedactItemsIn(before, member, names, patterns), groups + 1, patterns)
  {
    ThenItemsIn(context, before, ContextPaths(groups), ContextStarts(groups), member, names, patterns);
  }

  lemma LastContextStep(context: Json, before: Json, starts: set<string>, patterns: Patterns)
    requires before == RedactWhere(context, ContextPaths(5), patterns)
    requires StartsIn(ContextPaths(5), starts) && "unknown_fields" !in starts
    ensures OnMember(before, "unknown_fields", v => RedactRecursive(v, patterns))
              == RedactWhere(context, InContext, patterns)
  {
    forall v ensures RedactRecursive(v, patterns) == RedactWhere(v, Everywhere(), patterns) {
      EverythingListed(v, Everywhere(), patterns);
    }
    ThenUnder(context, before, ContextPaths(5), starts, "unknown_fields", v => RedactRecursive(v, patterns),
              Everywhere(), patterns);
    forall p ensures ContextPaths(6)(p) == InContext(p) {
      ContextPathsAreTheContext(p);
    }
    SameLanguage(context, ContextPaths(6), InContext, patterns);
  }

  lemma ContextIsWhere(context: Json, patterns: Patterns)
    ensures RedactContext(context, patterns) == RedactWhere(context, InContext, patterns)
  {
    NamesAreDistinct();
    GroupsAreApart();
    FirstGroups(context, patterns);
    var b := RedactNamedIn(RedactNamed(context, CONTEXT_FIELDS, patterns), "platform", PLATFORM_FIELDS, patterns);
    ItemGroup(context, b, 1, "modules", MODULE_FIELDS, patterns);
    var c := RedactItemsIn(b, "modules", MODULE_FIELDS, patterns);
    ItemGroup(context, c, 2, "threads", THREAD_FIELDS, patterns);
    var d := RedactItemsIn(c, "threads", THREAD_FIELDS, patterns);
    ItemGroup(context, d, 3, "system_metadata", DATA_FIELDS, patterns);
    var e := RedactItemsIn(d, "system_metadata", DATA_FIELDS, patterns);
    ItemGroup(context, e, 4, "game_data", DATA_FIELDS, patterns);
    LastContextStep(context, RedactItemsIn(e, "game_data", DATA_FIELDS, patterns), ContextStarts(5), patterns);
  }

  lemma UnderStarts(name: string, inner: Language)
    ensures StartsIn(Under(name, inner), {name})
  {
    forall p: Path ensures Under(name, inner)(p) ==> p != [] && p[0].Field? && p[0].name in {name} {
      assert Under(name, inner)(p) == (p != [] && p[0] == Field(name) && inner(p[1..]));
    }
  }

  lemma MemberIsHere(name: string, patterns: Patterns)
    ensures forall v :: OnMember(v, name, w => RedactValue(w, patterns))
              == RedactWhere(v, Under(name, Here()), patterns)
  {
    RedactValueIsHere(patterns);
    forall v ensures OnMember(v, name, w => RedactValue(w, patterns)) == RedactWhere(v, Under(name, Here()), patterns) {
      MemberIsUnder(v, name, w => RedactValue(w, patterns), Here(), patterns);
    }
  }

  lemma LogIsWhere(log: Json, patterns: Patterns)
    ensures RedactLog(log, patterns) == RedactWhere(log, InLog, patterns)
  {
    MemberIsHere("name", patterns);
    MemberIsHere("text", patterns);
    UnderStarts("name", Here());
    var named := OnMember(log, "name", v => RedactValue(v, patterns));
    ThenUnder(log, named, Under("name", Here()), {"name"}, "tail",
              tail => OnMember(tail, "text", v => RedactValue(v, patterns)), Under("text", Here()), patterns);
    var both := Either(Under("name", Here()), Under("tail", Under("text", Here())));
    forall p: Path ensures both(p) == InLog(p) {
      assert both(p) == (Under("name", Here())(p) || Under("tail", Under("text", Here()))(p));
      assert Under("name", Here())(p) == (p != [] && p[0] == Field("name") && p[1..] == []);
      if p != [] {
        assert Under("text", Here())(p[1..]) == (p[1..] != [] && p[1..][0] == Field("text") && p[1..][1..] == []);
      }
    }
    SameLanguage(log, both, InLog, patterns);
  }

  lemma FrameIsWhere(frame: Json, patterns: Patterns)
    ensures RedactFrame(frame, patterns) == RedactWhere(frame, InFrame, patterns)
  {
    MemberIsHere("source_file", patterns);
    UnderStarts("source_file", Here());
    forall v
      ensures RedactArrayFields(v, ["source_file"], patterns) == RedactWhere(v, ItemNamed(["source_file"]), patterns)
    {
      ArrayFieldsAreItems(v, ["source_file"], patterns);
    }
    var located := OnMember(frame, "source_file", v => RedactValue(v, patterns));
    ThenUnder(frame, located, Under("source_file", Here()), {"source_file"}, "inlines",
              inlines => RedactArrayFields(inlines, ["source_file"], patterns), ItemNamed(["source_file"]), patterns);
    var both := Either(Under("source_file", Here()), Under("inlines", ItemNamed(["source_file"])));
    forall p: Path ensures both(p) == InFrame(p) {
      assert both(p) == (Under("source_file", Here())(p) || Under("inlines", ItemNamed(["source_file"]))(p));
      assert Under("source_file", Here())(p) == (p != [] && p[0] == Field("source_file") && p[1..] == []);
    }
    SameLanguage(frame, both, InFrame, patterns);
  }

  function FramePaths(): Language {
    Under("frames", Items(InFrame))
  }

  lemma ThreadIsWhere(thread: Json, patterns: Patterns)
    ensures RedactThread(thread, patterns) == RedactWhere(thread, FramePaths(), patterns)
  {
    forall v ensures RedactFrame(v, patterns) == RedactWhere(v, InFrame, patterns) {
      FrameIsWhere(v, patterns);
    }
    forall v ensures RedactFrames(v, patterns) == RedactWhere(v, Items(InFrame), patterns) {
      EachIsItems(v, frame => RedactFrame(frame, patterns), InFrame, patterns);
    }
    MemberIsUnder(thread, "frames", frames => RedactFrames(frames, patterns), Items(InFrame), patterns);
  }

  lemma SymbolicationPaths(p: Path)
    ensures Under("symbolication", Under("threads", Items(FramePaths())))(p) == InSymbolication(p)
  {
    var p1 := if |p| > 0 then p[1..] else [];
    var p2 := if |p1| > 0 then p1[1..] else [];
    var p3 := if |p2| > 0 then p2[1..] else [];
    var p4 := if |p3| > 0 then p3[1..] else [];
    var p5 := if |p4| > 0 then p4[1..] else [];
    assert Items(InFrame)(p4) == (p4 != [] && p4[0].Index? && InFrame(p5));
    assert FramePaths()(p3) == (p3 != [] && p3[0] == Field("frames") && Items(InFrame)(p4));
    assert Items(FramePaths())(p2) == (p2 != [] && p2[0].Index? && FramePaths()(p3));
    assert Under("threads", Items(FramePaths()))(p1)
           == (p1 != [] && p1[0] == Field("threads") && Items(FramePaths())(p2));
    assert Under("symbolication", Under("threads", Items(FramePaths())))(p)
        == (p != [] && p[0] == Field("symbolication") && Under("threads", Items(FramePaths()))(p1));
    if |p| > 5 {
      assert p5 == p[5..];
    } else {
      assert p5 == [] && !InFrame(p5);
    }
  }

  lemma SymbolicationIsWhere(current: Json, patterns: Patterns)
    ensures RedactSymbolication(current, patterns) == RedactWhere(current, InSymbolication, patterns)
  {
    forall v ensures RedactThread(v, patterns) == RedactWhere(v, FramePaths(), patterns) {
      ThreadIsWhere(v, patterns);
    }
    forall v ensures RedactThreads(v, patterns) == RedactWhere(v, Items(FramePaths()), patterns) {
      EachIsItems(v, thread => RedactThread(thread, patterns), FramePaths(), patterns);
    }
    var threads := Under("threads", Items(FramePaths()));
    forall v ensures RedactSymbolicated(v, patterns) == RedactWhere(v, threads, patterns) {
      MemberIsUnder(v, "threads", w => RedactThreads(w, patterns), Items(FramePaths()), patterns);
    }
    MemberIsUnder(current, "symbolication", v => RedactSymbolicated(v, patterns), threads, patterns);
    forall p ensures Under("symbolication", threads)(p) == InSymbolication(p) {
      SymbolicationPaths(p);
    }
    SameLanguage(current, Under("symbolication", threads), InSymbolication, patterns);
  }

  /** Redacting a result is redacting exactly the texts at the listed paths. */
  lemma ResultIsRedactedWhereListed(result: Json, patterns: Patterns)
    ensures RedactResult(result, patterns) == RedactWhere(result, Listed, patterns)
  {
    if patterns == [] {
      NoPatterns(result, Listed);
    } else {
      forall v
        ensures RedactContext(v, patterns) == RedactWhere(v, InContext, patterns)
        ensures RedactLog(v, patterns) == RedactWhere(v, InLog, patterns)
        ensures RedactSymbolication(v, patterns) == RedactWhere(v, InSymbolication, patterns)
      {
        ContextIsWhere(v, patterns);
        LogIsWhere(v, patterns);
        SymbolicationIsWhere(v, patterns);
      }
      var context, log, current := Under("crash_context", InContext), Under("log", InLog),
          Under("current", InSymbolication);
      MemberIsUnder(result, "crash_context", v => RedactContext(v, patterns), InContext, patterns);
      UnderStarts("crash_context", InContext);
      var a := OnMember(result, "crash_context", v => RedactContext(v, patterns));
      ThenUnder(result, a, context, {"crash_context"}, "log", v => RedactLog(v, patterns), InLog, patterns);
      var b := OnMember(a, "log", v => RedactLog(v, patterns));
      ThenUnder(result, b, Either(context, log), {"crash_context"} + {"log"}, "current",
                v => RedactSymbolication(v, patterns), InSymbolication, patterns);
      forall p ensures Either(Either(context, log), current)(p) == Listed(p) {
        assert Either(Either(context, log), current)(p) == (Either(context, log)(p) || current(p));
        assert Either(context, log)(p) == (context(p) || log(p));
      }
      SameLanguage(result, Either(Either(context, log), current), Listed, patterns);
    }
  }

  /** Redaction keeps the shape of a result and touches only the texts at listed paths. */
  lemma RedactionTouchesOnlyListedPaths(result: Json, patterns: Patterns, path: Path)
    ensures Lookup(RedactResult(result, patterns), path).Some? <==> Lookup(result, path).Some?
    ensures Lookup(result, path).Some? ==>
              SameButRedacted(Lookup(result, path).value, Lookup(RedactResult(result, patterns), path).value,
                              Listed(path), patterns)
  {
    ResultIsRedactedWhereListed(result, patterns);
    LookupAfterRedaction(result, Listed, patterns, path);
  }

  lemma ResultRedactionIsIdempotent(result: Json, patterns: Patterns)
    requires forall p :: p in patterns ==> !Overlaps(p)
    ensures RedactResult(RedactResult(result, patterns), patterns) == RedactResult(result, patterns)
  {
    ResultIsRedactedWhereListed(result, patterns);
    ResultIsRedactedWhereListed(RedactWhere(result, Listed, patterns), patterns);
    RedactWhereIsIdempotent(result, Listed, patterns);
  }

  lemma NoPatternIsLeftAtListedPaths(result: Json, patterns: Patterns, path: Path, pattern: string)
    requires pattern in patterns && !Overlaps(pattern) && Listed(path)
    requires Lookup(RedactResult(result, patterns), path).Some?
              && Lookup(RedactResult(result, patterns), path).value.Text?
    ensures !Contains(Lookup(RedactResult(result, patterns), path).value.text, pattern)
  {
    RedactionTouchesOnlyListedPaths(result, patterns, path);
    PatternIsRemoved(Lookup(result, path).value.text, patterns, pattern);
  }
}
