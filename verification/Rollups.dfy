/** The daily rollup cache of one project: what a repaired day holds, and what the overview adds up from it. */
module Rollups {
  import opened Common
  import opened Grouping

  const DAY := 86_400_000_000
  const MAX_KEY_CHARS := 512

  /** A uuid, as a number. */
  type RowId = int

  /** Rows of `crash_events`, `crash_event_search` and `issues`; times are microseconds since the epoch, in UTC. */
  datatype Event = Event(receivedAt: int, releaseId: Option<string>, resultId: Option<string>, state: string)
  datatype Search = Search(resultId: string, platform: Option<string>, architecture: Option<string>,
                           crashType: Option<string>, symbolication: string)
  datatype Issue = Issue(firstSeenAt: int, lastSeenAt: int, regressed: bool)
  datatype Tables = Tables(events: map<RowId, Event>, search: map<RowId, Search>, releases: set<string>,
                           issues: map<RowId, Issue>)

  datatype Dimension = EventTotal | Release | PlatformArchitecture | CrashType | SymbolicationState | ProcessingState
                     | IssueTotal | IssueNew | IssueRegressed
  datatype RowKey = RowKey(day: int, dimension: Dimension, key: string)

  type Cache = map<RowKey, int>

  function DayOf(at: int): int {
    at / DAY
  }

  // ---------- the joined event and its groups ----------

  /** An event after both left joins; a column is None where the join found nothing or the column is null. */
  datatype Joined = Joined(release: Option<string>, platform: Option<string>, architecture: Option<string>,
                           crashType: Option<string>, symbolication: Option<string>, state: string)

  function Join(t: Tables, id: RowId): Joined {
    if id !in t.events then Joined(None, None, None, None, None, "")
    else
      var e := t.events[id];
      var release := if e.releaseId.Some? && e.releaseId.value in t.releases then e.releaseId else None;
      if id in t.search && e.resultId == Some(t.search[id].resultId) then
        var s := t.search[id];
        Joined(release, s.platform, s.architecture, s.crashType, Some(s.symbolication), e.state)
      else
        Joined(release, None, None, None, None, e.state)
  }

  function Coalesce(value: Option<string>, default: string): string {
    if value.Some? then value.value else default
  }

  function SymbolicationOf(row: Joined): string {
    if row.state == "failed" || row.state == "quarantined" then "failed"
    else if row.symbolication.Some? then row.symbolication.value
    else if row.state == "awaiting_symbols" then "missing"
    else "processing"
  }

  predicate IsEventDimension(dimension: Dimension) {
    !dimension.IssueTotal? && !dimension.IssueNew? && !dimension.IssueRegressed?
  }

  /** The columns a dimension groups by: platform and architecture are two, every other dimension has one. */
  datatype Group = Group(first: string, second: string)

  function GroupOf(dimension: Dimension, row: Joined): Group {
    match dimension
    case Release => Group(Coalesce(row.release, "unmapped"), "")
    case PlatformArchitecture => Group(Coalesce(row.platform, "unknown"), Coalesce(row.architecture, "unknown"))
    case CrashType => Group(Coalesce(row.crashType, "unknown"), "")
    case SymbolicationState => Group(SymbolicationOf(row), "")
    case ProcessingState => Group(row.state, "")
    case _ => Group("all", "")
  }

  function KeyOf(dimension: Dimension, group: Group): string {
    if dimension == PlatformArchitecture then group.first + "/" + group.second else group.first
  }

  /** `left(key, 512)`. */
  function Left(key: string): string {
    key[..MinInt(|key|, MAX_KEY_CHARS)]
  }

  function RawKey(t: Tables, dimension: Dimension, id: RowId): string {
    KeyOf(dimension, GroupOf(dimension, Join(t, id)))
  }

  // ---------- counting directly ----------

  function EventsBetween(t: Tables, from: int, until: int): set<RowId> {
    set id | id in t.events && from * DAY <= t.events[id].receivedAt < until * DAY
  }

  function EventsOn(t: Tables, day: int): set<RowId> {
    set id | id in t.events && DayOf(t.events[id].receivedAt) == day
  }

  function IssuesOn(t: Tables, dimension: Dimension, day: int): set<RowId> {
    set id | id in t.issues &&
      if dimension == IssueRegressed then t.issues[id].regressed && DayOf(t.issues[id].lastSeenAt) == day
      else DayOf(t.issues[id].firstSeenAt) == day
  }

  function CutKey(t: Tables, dimension: Dimension): RowId -> string {
    id => Left(RawKey(t, dimension, id))
  }

  function Under(t: Tables, dimension: Dimension, key: string, events: set<RowId>): set<RowId> {
    Fiber(events, CutKey(t, dimension), key)
  }

  /** How many events of a day belong under a stored key. */
  function DayCount(t: Tables, day: int, dimension: Dimension, key: string): int {
    if IsEventDimension(dimension) then |Under(t, dimension, key, EventsOn(t, day))|
    else if key == "all" then |IssuesOn(t, dimension, day)|
    else 0
  }

  /** A row is there when its key counts something, and for regressed issues always; it holds the count. */
  predicate RowIsExact(t: Tables, cache: Cache, k: RowKey) {
    && (k in cache <==> DayCount(t, k.day, k.dimension, k.key) > 0 || (k.dimension == IssueRegressed && k.key == "all"))
    && (k in cache ==> cache[k] == DayCount(t, k.day, k.dimension, k.key))
  }

  ghost predicate DayIsExact(t: Tables, cache: Cache, day: int) {
    forall k: RowKey {:trigger RowIsExact(t, cache, k)} :: k.day == day ==> RowIsExact(t, cache, k)
  }

  function CellOf(cache: Cache, k: RowKey): int {
    if k in cache then cache[k] else 0
  }

  lemma CountsAreNotNegative(t: Tables, day: int, dimension: Dimension, key: string)
    ensures DayCount(t, day, dimension, key) >= 0
  {
  }

  lemma ExactDayCell(t: Tables, cache: Cache, day: int, dimension: Dimension, key: string)
    requires DayIsExact(t, cache, day)
    ensures CellOf(cache, RowKey(day, dimension, key)) == DayCount(t, day, dimension, key)
  {
    assert RowIsExact(t, cache, RowKey(day, dimension, key));
    CountsAreNotNegative(t, day, dimension, key);
  }

  /** The cache counts the day right. That is all the overview reads; a repaired day is one, and so is a day that the
      triggers keep up to date, whose rows at zero may be there or not. */
  ghost predicate DayIsCounted(t: Tables, cache: Cache, day: int) {
    forall dimension, key :: CellOf(cache, RowKey(day, dimension, key)) == DayCount(t, day, dimension, key)
  }

  lemma ExactDaysAreCounted(t: Tables, cache: Cache, day: int)
    requires DayIsExact(t, cache, day)
    ensures DayIsCounted(t, cache, day)
  {
    forall dimension, key ensures CellOf(cache, RowKey(day, dimension, key)) == DayCount(t, day, dimension, key) {
      ExactDayCell(t, cache, day, dimension, key);
    }
  }

  // ---------- the rollup branch: sums over cached rows ----------

  predicate InCell(k: RowKey, dimension: Dimension, key: string, from: int, until: int) {
    k.dimension == dimension && k.key == key && from <= k.day < until
  }

  function Cells(cache: Cache, dimension: Dimension, key: string, from: int, until: int): Cache {
    map k | k in cache && InCell(k, dimension, key, from, until) :: cache[k]
  }

  /** `sum(count) ... WHERE dimension = d AND day >= from AND day < until GROUP BY key`, at one key. */
  ghost function CachedTotal(cache: Cache, dimension: Dimension, key: string, from: int, until: int): int {
    Sum(Cells(cache, dimension, key, from, until))
  }

  lemma NoCells(cache: Cache, dimension: Dimension, key: string, from: int)
    ensures CachedTotal(cache, dimension, key, from, from) == 0
  {
    assert Cells(cache, dimension, key, from, from) == map[];
  }

  lemma CachedTotalOneMoreDay(cache: Cache, dimension: Dimension, key: string, from: int, until: int)
    requires from <= until
    ensures CachedTotal(cache, dimension, key, from, until + 1)
         == CachedTotal(cache, dimension, key, from, until) + CellOf(cache, RowKey(until, dimension, key))
  {
    var k := RowKey(until, dimension, key);
    var shorter, longer := Cells(cache, dimension, key, from, until), Cells(cache, dimension, key, from, until + 1);
    if k in cache {
      assert longer == shorter[k := cache[k]];
      SumOfUpdate(shorter, k, cache[k]);
    } else {
      assert longer == shorter;
    }
  }

  /** The direct count over a window of days. */
  ghost function WindowCount(t: Tables, dimension: Dimension, key: string, from: int, until: int): int
    requires from <= until
    decreases until - from
  {
    if from == until then 0
        else WindowCount(t, dimension, key, from, until - 1) + DayCount(t, until - 1, dimension, key)
  }

  lemma {:induction false} CachedTotalIsWindowCount(t: Tables, cache: Cache, dimension: Dimension, key: string,
                                                    from: int, until: int)
    requires from <= until && forall day :: from <= day < until ==> DayIsCounted(t, cache, day)
    ensures CachedTotal(cache, dimension, key, from, until) == WindowCount(t, dimension, key, from, until)
    decreases until - from
  {
    if from == until {
      NoCells(cache, dimension, key, from);
    } else {
      CachedTotalIsWindowCount(t, cache, dimension, key, from, until - 1);
      CachedTotalOneMoreDay(cache, dimension, key, from, until - 1);
      assert DayIsCounted(t, cache, until - 1);
    }
  }

  lemma DayBounds(at: int, day: int)
    ensures DayOf(at) == day <==> day * DAY <= at < (day + 1) * DAY
  {
  }

  lemma WindowBounds(at: int, from: int, until: int)
    ensures from <= DayOf(at) < until <==> from * DAY <= at < until * DAY
  {
  }

  lemma EventsOneMoreDay(t: Tables, from: int, until: int)
    requires from <= until
    ensures EventsBetween(t, from, until + 1) == EventsBetween(t, from, until) + EventsOn(t, until)
    ensures EventsBetween(t, from, until) !! EventsOn(t, until)
  {
    forall id | id in t.events
      ensures id in EventsBetween(t, from, until + 1) <==>
                id in EventsBetween(t, from, until) || id in EventsOn(t, until)
      ensures !(id in EventsBetween(t, from, until) && id in EventsOn(t, until))
    {
      DayBounds(t.events[id].receivedAt, until);
    }
  }

  lemma {:induction false} WindowCountIsTheEvents(t: Tables, dimension: Dimension, key: string, from: int, until: int)
    requires from <= until && IsEventDimension(dimension)
    ensures WindowCount(t, dimension, key, from, until) == |Under(t, dimension, key, EventsBetween(t, from, until))|
    decreases until - from
  {
    if from == until {
      assert EventsBetween(t, from, until) == {};
    } else {
      WindowCountIsTheEvents(t, dimension, key, from, until - 1);
      EventsOneMoreDay(t, from, until - 1);
      FiberOfUnion(EventsBetween(t, from, until - 1), EventsOn(t, until - 1), CutKey(t, dimension), key);
    }
  }

  // ---------- the raw branch, and when the two agree ----------

  function WithRawKey(t: Tables, dimension: Dimension, key: string, events: set<RowId>): set<RowId> {
    set id | id in events && RawKey(t, dimension, id) == key
  }

  /** `count(*) ... GROUP BY key` over the events of the window, at one key. */
  function RawTotal(t: Tables, dimension: Dimension, key: string, from: int, until: int): int {
    |WithRawKey(t, dimension, key, EventsBetween(t, from, until))|
  }

  ghost predicate BranchesAgree(t: Tables, cache: Cache, dimension: Dimension, from: int, until: int) {
    forall key :: CachedTotal(cache, dimension, key, from, until) == RawTotal(t, dimension, key, from, until)
  }

  predicate KeysFit(t: Tables, dimension: Dimension, from: int, until: int) {
    forall id :: id in EventsBetween(t, from, until) ==> |RawKey(t, dimension, id)| <= MAX_KEY_CHARS
  }

  lemma CachedTotalCountsCutKeys(t: Tables, cache: Cache, dimension: Dimension, key: string, from: int, until: int)
    requires from <= until && IsEventDimension(dimension)
    requires forall day :: from <= day < until ==> DayIsCounted(t, cache, day)
    ensures CachedTotal(cache, dimension, key, from, until) == |Under(t, dimension, key, EventsBetween(t, from, until))|
  {
    CachedTotalIsWindowCount(t, cache, dimension, key, from, until);
    WindowCountIsTheEvents(t, dimension, key, from, until);
  }

  lemma LeftCuts(key: string)
    ensures |Left(key)| <= MAX_KEY_CHARS && (|key| <= MAX_KEY_CHARS ==> Left(key) == key)
  {
  }

  lemma CutKeyOf(t: Tables, dimension: Dimension, id: RowId)
    ensures |CutKey(t, dimension)(id)| <= MAX_KEY_CHARS
    ensures |RawKey(t, dimension, id)| <= MAX_KEY_CHARS ==> CutKey(t, dimension)(id) == RawKey(t, dimension, id)
  {
    LeftCuts(RawKey(t, dimension, id));
  }

  lemma FittingKeysAreUncut(t: Tables, dimension: Dimension, key: string, events: set<RowId>)
    requires forall id :: id in events ==> |RawKey(t, dimension, id)| <= MAX_KEY_CHARS
    ensures Under(t, dimension, key, events) == WithRawKey(t, dimension, key, events)
  {
    forall id | id in events ensures CutKey(t, dimension)(id) == RawKey(t, dimension, id) {
      CutKeyOf(t, dimension, id);
    }
  }

  lemma LongKeyHasNoRow(t: Tables, dimension: Dimension, key: string, events: set<RowId>)
    requires |key| > MAX_KEY_CHARS
    ensures |Under(t, dimension, key, events)| == 0
  {
    forall id ensures CutKey(t, dimension)(id) != key {
      CutKeyOf(t, dimension, id);
    }
    assert Under(t, dimension, key, events) == {};
  }

  lemma KeyOfAnEventCounts(t: Tables, dimension: Dimension, id: RowId, events: set<RowId>)
    requires id in events
    ensures |WithRawKey(t, dimension, RawKey(t, dimension, id), events)| > 0
  {
    assert id in WithRawKey(t, dimension, RawKey(t, dimension, id), events);
  }

  /** Over a counted window the cache and the raw tables give the same totals exactly when no key was cut. */
  lemma BranchesAgreeExactlyWhenKeysFit(t: Tables, cache: Cache, dimension: Dimension, from: int, until: int)
    requires from <= until && IsEventDimension(dimension)
    requires forall day :: from <= day < until ==> DayIsCounted(t, cache, day)
    ensures BranchesAgree(t, cache, dimension, from, until) <==> KeysFit(t, dimension, from, until)
  {
    if KeysFit(t, dimension, from, until) {
      forall key ensures CachedTotal(cache, dimension, key, from, until) == RawTotal(t, dimension, key, from, until) {
        CachedTotalCountsCutKeys(t, cache, dimension, key, from, until);
        FittingKeysAreUncut(t, dimension, key, EventsBetween(t, from, until));
      }
    } else {
      var id :| id in EventsBetween(t, from, until) && |RawKey(t, dimension, id)| > MAX_KEY_CHARS;
      var key := RawKey(t, dimension, id);
      CachedTotalCountsCutKeys(t, cache, dimension, key, from, until);
      LongKeyHasNoRow(t, dimension, key, EventsBetween(t, from, until));
      KeyOfAnEventCounts(t, dimension, id, EventsBetween(t, from, until));
    }
  }

  lemma EverythingIsUnderAll(t: Tables, events: set<RowId>)
    ensures Under(t, EventTotal, "all", events) == events
  {
    forall id ensures CutKey(t, EventTotal)(id) == "all" {
      assert CutKey(t, EventTotal)(id) == Left(RawKey(t, EventTotal, id));
      LeftCuts("all");
    }
  }

  /** The headline total of events, and the fixed keys of the states, are never cut. */
  lemma EventTotalsAgree(t: Tables, cache: Cache, from: int, until: int)
    requires from <= until && forall day :: from <= day < until ==> DayIsCounted(t, cache, day)
    ensures CachedTotal(cache, EventTotal, "all", from, until) == |EventsBetween(t, from, until)|
  {
    CachedTotalCountsCutKeys(t, cache, EventTotal, "all", from, until);
    EverythingIsUnderAll(t, EventsBetween(t, from, until));
  }

  // ---------- issues ----------

  function IssuesBetween(t: Tables, dimension: Dimension, from: int, until: int): set<RowId> {
    set id | id in t.issues &&
      if dimension == IssueRegressed then t.issues[id].regressed && from * DAY <= t.issues[id].lastSeenAt < until * DAY
      else from * DAY <= t.issues[id].firstSeenAt < until * DAY
  }

  lemma IssuesOneMoreDay(t: Tables, dimension: Dimension, from: int, until: int)
    requires from <= until
    ensures |IssuesBetween(t, dimension, from, until + 1)|
              == |IssuesBetween(t, dimension, from, until)| + |IssuesOn(t, dimension, until)|
  {
    var before, last := IssuesBetween(t, dimension, from, until), IssuesOn(t, dimension, until);
    forall id | id in t.issues
      ensures id in IssuesBetween(t, dimension, from, until + 1) <==> id in before || id in last
      ensures !(id in before && id in last)
    {
      DayBounds(t.issues[id].firstSeenAt, until);
      DayBounds(t.issues[id].lastSeenAt, until);
    }
    assert IssuesBetween(t, dimension, from, until + 1) == before + last;
  }

  /** New and regressed issues of the window agree too, whether or not a regressed row counts zero. */
  lemma {:induction false} IssueTotalsAgree(t: Tables, cache: Cache, dimension: Dimension, from: int, until: int)
    requires from <= until && !IsEventDimension(dimension)
    requires forall day :: from <= day < until ==> DayIsCounted(t, cache, day)
    ensures CachedTotal(cache, dimension, "all", from, until) == |IssuesBetween(t, dimension, from, until)|
    decreases until - from
  {
    if from == until {
      assert IssuesBetween(t, dimension, from, until) == {};
      NoCells(cache, dimension, "all", from);
    } else {
      IssueTotalsAgree(t, cache, dimension, from, until - 1);
      CachedTotalOneMoreDay(cache, dimension, "all", from, until - 1);
      assert DayIsCounted(t, cache, until - 1);
      IssuesOneMoreDay(t, dimension, from, until - 1);
    }
  }

  // ---------- every dimension counts every event once ----------

  function DayRows(cache: Cache, dimension: Dimension, day: int): Cache {
    map k | k in cache && k.dimension == dimension && k.day == day :: cache[k]
  }

  function CellFor(t: Tables, dimension: Dimension, day: int): RowId -> RowKey {
    id => RowKey(day, dimension, CutKey(t, dimension)(id))
  }

  lemma FiberOfCell(t: Tables, dimension: Dimension, day: int, k: RowKey)
    ensures Fiber(EventsOn(t, day), CellFor(t, dimension, day), k)
         == if k.dimension == dimension && k.day == day then Under(t, dimension, k.key, EventsOn(t, day)) else {}
  {
    var events, cell := EventsOn(t, day), CellFor(t, dimension, day);
    forall id | id in events
      ensures cell(id) == k <==> k.dimension == dimension && k.day == day && CutKey(t, dimension)(id) == k.key
    {
      assert cell(id) == RowKey(day, dimension, CutKey(t, dimension)(id));
    }
  }

  /** Rows at zero add nothing. */
  function NonZero<K>(m: map<K, int>): map<K, int> {
    map k | k in m && m[k] != 0 :: m[k]
  }

  lemma {:induction false} ZerosAddNothing<K>(m: map<K, int>)
    ensures Sum(NonZero(m)) == Sum(m)
    decreases |m|
  {
    if m == map[] {
      assert NonZero(m) == map[];
    } else {
      var k :| k in m;
      var rest := m - {k};
      ZerosAddNothing(rest);
      assert m == rest[k := m[k]];
      SumOfUpdate(rest, k, m[k]);
      if m[k] == 0 {
        assert NonZero(m) == NonZero(rest);
      } else {
        assert NonZero(m) == NonZero(rest)[k := m[k]];
        SumOfUpdate(NonZero(rest), k, m[k]);
      }
    }
  }

  lemma DayRowIsFiber(t: Tables, cache: Cache, dimension: Dimension, day: int, k: RowKey)
    requires DayIsCounted(t, cache, day) && IsEventDimension(dimension)
    ensures IsCountOf(NonZero(DayRows(cache, dimension, day)), EventsOn(t, day), CellFor(t, dimension, day), k)
  {
    FiberOfCell(t, dimension, day, k);
    if k.dimension == dimension && k.day == day {
      assert CellOf(cache, RowKey(day, dimension, k.key)) == DayCount(t, day, dimension, k.key);
    }
  }

  lemma DayRowsCountTheEvents(t: Tables, cache: Cache, dimension: Dimension, day: int)
    requires DayIsCounted(t, cache, day) && IsEventDimension(dimension)
    ensures Sum(DayRows(cache, dimension, day)) == |EventsOn(t, day)|
  {
    var rows := NonZero(DayRows(cache, dimension, day));
    forall k ensures IsCountOf(rows, EventsOn(t, day), CellFor(t, dimension, day), k) {
      DayRowIsFiber(t, cache, dimension, day, k);
    }
    FibersDetermineCounts(rows, EventsOn(t, day), CellFor(t, dimension, day));
    SumOfAllCounts(EventsOn(t, day), CellFor(t, dimension, day));
    ZerosAddNothing(DayRows(cache, dimension, day));
  }

  /** On a counted day the rows of each event dimension add up to the total of the day. */
  lemma DimensionsAddUpToTheTotal(t: Tables, cache: Cache, dimension: Dimension, day: int)
    requires DayIsCounted(t, cache, day) && IsEventDimension(dimension)
    ensures Sum(DayRows(cache, dimension, day)) == |EventsOn(t, day)| == CellOf(cache, RowKey(day, EventTotal, "all"))
  {
    assert CellOf(cache, RowKey(day, EventTotal, "all")) == DayCount(t, day, EventTotal, "all");
    EverythingIsUnderAll(t, EventsOn(t, day));
    DayRowsCountTheEvents(t, cache, dimension, day);
  }
}
