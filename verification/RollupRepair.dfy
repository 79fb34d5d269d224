/** Repairing rollup days from the raw tables, and backfilling search vectors batch by batch. */
module RollupRepair {
  import opened Common
  import opened Grouping
  import opened Keyset
  import opened Rollups
  import opened RollupMeaning

  const MAX_REPAIR_DAYS := 31
  const SEARCH_BACKFILL_BATCH_SIZE := 1_000
  const I64_MAX := 0x7FFF_FFFF_FFFF_FFFF

  datatype RepairError = InvalidArgument | ProjectNotFound | Database

  datatype Report = Report(days: int, storedRows: int, issueVectors: int, eventVectors: int)

  predicate ValidSpan(first: int, last: int) {
    0 <= last - first < MAX_REPAIR_DAYS
  }

  const EVENT_DIMENSIONS: seq<Dimension> :=
    [EventTotal, Release, PlatformArchitecture, CrashType, SymbolicationState, ProcessingState]

  /** One row of the temporary table: a group of a dimension, before its key is cut and stored. */
  datatype Bucket = Bucket(dimension: Dimension, group: Group)

  type Temp = map<Bucket, int>

  function StoredKey(b: Bucket): string {
    Left(KeyOf(b.dimension, b.group))
  }

  function GroupFor(t: Tables, dimension: Dimension): RowId -> Group {
    id => GroupOf(dimension, Join(t, id))
  }

  function InGroup(t: Tables, day: int, b: Bucket): set<RowId> {
    Fiber(EventsOn(t, day), GroupFor(t, b.dimension), b.group)
  }

  function BucketCount(t: Tables, day: int, b: Bucket): int {
    if IsEventDimension(b.dimension) then |InGroup(t, day, b)|
    else if b.group == Group("all", "") then |IssuesOn(t, b.dimension, day)|
    else 0
  }

  predicate BucketIsExact(t: Tables, day: int, temp: Temp, b: Bucket) {
    && (b in temp <==> BucketCount(t, day, b) > 0 || b == Bucket(IssueRegressed, Group("all", "")))
    && (b in temp ==> temp[b] == BucketCount(t, day, b))
  }

  /** The temporary table holds the counts of a day. */
  ghost predicate TempIsExact(t: Tables, day: int, temp: Temp) {
    forall b: Bucket :: BucketIsExact(t, day, temp, b)
  }

  /** The insert goes through: no empty key, and no two rows of a dimension with one key after the cut. */
  predicate Insertable(temp: Temp) {
    && (forall b :: b in temp ==> StoredKey(b) != "")
    && (forall b, c :: b in temp && c in temp && b.dimension == c.dimension && StoredKey(b) == StoredKey(c) ==> b == c)
  }

  /** What that means for the events of the day. */
  predicate Clash(t: Tables, dimension: Dimension, a: RowId, b: RowId) {
    Left(RawKey(t, dimension, a)) == Left(RawKey(t, dimension, b))
        && GroupOf(dimension, Join(t, a)) != GroupOf(dimension, Join(t, b))
  }

  predicate DayIsStorable(t: Tables, day: int) {
    forall d :: d in EVENT_DIMENSIONS ==>
      && (forall id :: id in EventsOn(t, day) ==> RawKey(t, d, id) != "")
      && (forall a, b :: a in EventsOn(t, day) && b in EventsOn(t, day) ==> !Clash(t, d, a, b))
  }

  lemma EventDimensionsAreListed(d: Dimension)
    ensures IsEventDimension(d) <==> d in EVENT_DIMENSIONS
  {
    assert EVENT_DIMENSIONS[0] == EventTotal && EVENT_DIMENSIONS[1] == Release
           && EVENT_DIMENSIONS[2] == PlatformArchitecture;
    assert EVENT_DIMENSIONS[3] == CrashType && EVENT_DIMENSIONS[4] == SymbolicationState
           && EVENT_DIMENSIONS[5] == ProcessingState;
  }

  lemma DimensionIsNew(i: nat)
    requires i < |EVENT_DIMENSIONS|
    ensures IsEventDimension(EVENT_DIMENSIONS[i]) && EVENT_DIMENSIONS[i] !in EVENT_DIMENSIONS[..i]
  {
    EventDimensionsAreListed(EVENT_DIMENSIONS[i]);
  }

  lemma BucketHasAnEvent(t: Tables, day: int, temp: Temp, b: Bucket) returns (id: RowId)
    requires TempIsExact(t, day, temp) && b in temp && IsEventDimension(b.dimension)
    ensures id in InGroup(t, day, b) && RawKey(t, b.dimension, id) == KeyOf(b.dimension, b.group)
  {
    assert BucketIsExact(t, day, temp, b);
    assert InGroup(t, day, b) != {};
    id :| id in InGroup(t, day, b);
  }

  lemma EventHasABucket(t: Tables, day: int, temp: Temp, d: Dimension, id: RowId) returns (b: Bucket)
    requires TempIsExact(t, day, temp) && IsEventDimension(d) && id in EventsOn(t, day)
    ensures b == Bucket(d, GroupOf(d, Join(t, id))) && b in temp && StoredKey(b) == Left(RawKey(t, d, id))
  {
    b := Bucket(d, GroupOf(d, Join(t, id)));
    assert id in InGroup(t, day, b);
    assert BucketIsExact(t, day, temp, b);
  }

  lemma IssueBucketIsAll(t: Tables, day: int, temp: Temp, b: Bucket)
    requires TempIsExact(t, day, temp) && b in temp && !IsEventDimension(b.dimension)
    ensures b.group == Group("all", "") && StoredKey(b) == "all"
  {
    assert BucketIsExact(t, day, temp, b);
    LeftCuts("all");
  }

  lemma StorableIsInsertable(t: Tables, day: int, temp: Temp)
    requires TempIsExact(t, day, temp) && DayIsStorable(t, day)
    ensures Insertable(temp)
  {
    forall b | b in temp ensures StoredKey(b) != "" {
      EventDimensionsAreListed(b.dimension);
      if IsEventDimension(b.dimension) {
        var id := BucketHasAnEvent(t, day, temp, b);
        assert RawKey(t, b.dimension, id) != "";
      } else {
        IssueBucketIsAll(t, day, temp, b);
      }
    }
    forall b, c | b in temp && c in temp && b.dimension == c.dimension && StoredKey(b) == StoredKey(c) ensures b == c {
      EventDimensionsAreListed(b.dimension);
      if IsEventDimension(b.dimension) {
        var i := BucketHasAnEvent(t, day, temp, b);
        var j := BucketHasAnEvent(t, day, temp, c);
        assert !Clash(t, b.dimension, i, j);
      } else {
        IssueBucketIsAll(t, day, temp, b);
        IssueBucketIsAll(t, day, temp, c);
      }
    }
  }

  lemma InsertableIsStorable(t: Tables, day: int, temp: Temp)
    requires TempIsExact(t, day, temp) && Insertable(temp)
    ensures DayIsStorable(t, day)
  {
    forall d | d in EVENT_DIMENSIONS
      ensures forall id :: id in EventsOn(t, day) ==> RawKey(t, d, id) != ""
      ensures forall a, b :: a in EventsOn(t, day) && b in EventsOn(t, day) ==> !Clash(t, d, a, b)
    {
      EventDimensionsAreListed(d);
      forall id | id in EventsOn(t, day) ensures RawKey(t, d, id) != "" {
        var b := EventHasABucket(t, day, temp, d, id);
        assert StoredKey(b) != "";
      }
      forall a, b | a in EventsOn(t, day) && b in EventsOn(t, day) ensures !Clash(t, d, a, b) {
        var i := EventHasABucket(t, day, temp, d, a);
        var j := EventHasABucket(t, day, temp, d, b);
      }
    }
  }

  // ---------- which days can be repaired ----------

  /** The names of an event are plain: no slash in its platform, and no key empty or longer than 512 characters. */
  predicate PlainNames(t: Tables, id: RowId) {
    && '/' !in Coalesce(Join(t, id).platform, "unknown")
    && forall d :: d in EVENT_DIMENSIONS ==> 0 < |RawKey(t, d, id)| <= MAX_KEY_CHARS
  }

  lemma PlainNamesDoNotClash(t: Tables, d: Dimension, a: RowId, b: RowId)
    requires d in EVENT_DIMENSIONS && PlainNames(t, a) && PlainNames(t, b)
    ensures !Clash(t, d, a, b)
  {
    LeftCuts(RawKey(t, d, a));
    LeftCuts(RawKey(t, d, b));
    var x, y := GroupOf(d, Join(t, a)), GroupOf(d, Join(t, b));
    if d == PlatformArchitecture && KeyOf(d, x) == KeyOf(d, y) {
      SplitAtFirstSlash(x.first, x.second, y.first, y.second);
    }
  }

  /** Plain names are enough for a day to be repaired, and for its totals to be those of the raw branch. */
  lemma PlainDaysAreStorable(t: Tables, day: int)
    requires forall id :: id in EventsOn(t, day) ==> PlainNames(t, id)
    ensures DayIsStorable(t, day)
    ensures forall d :: IsEventDimension(d) ==> KeysFit(t, d, day, day + 1)
  {
    forall d | d in EVENT_DIMENSIONS
      ensures forall id :: id in EventsOn(t, day) ==> RawKey(t, d, id) != ""
      ensures forall a, b :: a in EventsOn(t, day) && b in EventsOn(t, day) ==> !Clash(t, d, a, b)
    {
      forall a, b | a in EventsOn(t, day) && b in EventsOn(t, day) ensures !Clash(t, d, a, b) {
        PlainNamesDoNotClash(t, d, a, b);
      }
    }
    forall d, id | IsEventDimension(d) && id in EventsBetween(t, day, day + 1)
      ensures |RawKey(t, d, id)| <= MAX_KEY_CHARS
    {
      EventDimensionsAreListed(d);
      DayBounds(t.events[id].receivedAt, day);
      assert PlainNames(t, id);
    }
  }

  /** A concrete day that cannot be repaired: platform `a/b` with architecture `c` beside platform `a` with `b/c`. */
  lemma SlashedPlatformsClash() returns (t: Tables)
    ensures t.events.Keys == {1, 2} && !DayIsStorable(t, 0)
  {
    var event := Event(0, None, Some("r"), "processed");
    t := Tables(map[1 := event, 2 := event],
                map[1 := Search("r", Some("a/b"), Some("c"), None, "readable"),
                    2 := Search("r", Some("a"), Some("b/c"), None, "readable")],
                {}, map[]);
    EventDimensionsAreListed(PlatformArchitecture);
    var x, y := GroupOf(PlatformArchitecture, Join(t, 1)), GroupOf(PlatformArchitecture, Join(t, 2));
    assert x == Group("a/b", "c") && y == Group("a", "b/c");
    assert KeyOf(PlatformArchitecture, x) == "a/b/c" == KeyOf(PlatformArchitecture, y);
    assert x.first != y.first;
    assert 1 in EventsOn(t, 0) && 2 in EventsOn(t, 0) && Clash(t, PlatformArchitecture, 1, 2);
  }

  // ---------- the rows written ----------

  function Stored(day: int, b: Bucket): RowKey {
    RowKey(day, b.dimension, StoredKey(b))
  }

  lemma StoredIsInjective(day: int, temp: Temp)
    requires Insertable(temp)
    ensures forall b, c :: b in temp && c in temp && Stored(day, b) == Stored(day, c) ==> b == c
  {
  }

  /** The delete and the insert of one transaction. */
  function Replaced(cache: Cache, day: int, temp: Temp): Cache
    requires Insertable(temp)
  {
    StoredIsInjective(day, temp);
    (map k | k in cache && k.day != day :: cache[k]) + (map b | b in temp :: Stored(day, b) := temp[b])
  }

  lemma ReplacedAt(cache: Cache, day: int, temp: Temp, k: RowKey)
    requires Insertable(temp)
    ensures k.day != day ==>
              (k in Replaced(cache, day, temp) <==> k in cache)
                  && (k in cache ==> Replaced(cache, day, temp)[k] == cache[k])
    ensures k.day == day ==> (k in Replaced(cache, day, temp) <==> exists b :: b in temp && Stored(day, b) == k)
    ensures forall b :: b in temp && Stored(day, b) == k ==> Replaced(cache, day, temp)[k] == temp[b]
  {
    StoredIsInjective(day, temp);
  }

  /** A stored row counts exactly the events whose cut key it carries. */
  lemma GroupIsUnderItsKey(t: Tables, day: int, temp: Temp, b: Bucket)
    requires TempIsExact(t, day, temp) && Insertable(temp) && b in temp && IsEventDimension(b.dimension)
    ensures InGroup(t, day, b) == Under(t, b.dimension, StoredKey(b), EventsOn(t, day))
  {
    forall id | id in Under(t, b.dimension, StoredKey(b), EventsOn(t, day)) ensures id in InGroup(t, day, b) {
      var c := EventHasABucket(t, day, temp, b.dimension, id);
      assert c == b;
    }
  }

  lemma WrittenRowIsExact(t: Tables, day: int, cache: Cache, temp: Temp, b: Bucket)
    requires TempIsExact(t, day, temp) && Insertable(temp) && b in temp
    ensures RowIsExact(t, Replaced(cache, day, temp), Stored(day, b))
  {
    ReplacedAt(cache, day, temp, Stored(day, b));
    assert BucketIsExact(t, day, temp, b);
    if IsEventDimension(b.dimension) {
      GroupIsUnderItsKey(t, day, temp, b);
    } else {
      IssueBucketIsAll(t, day, temp, b);
    }
  }

  lemma MissingRowIsExact(t: Tables, day: int, cache: Cache, temp: Temp, k: RowKey)
    requires TempIsExact(t, day, temp) && Insertable(temp) && k.day == day
    requires !exists b :: b in temp && Stored(day, b) == k
    ensures RowIsExact(t, Replaced(cache, day, temp), k)
  {
    ReplacedAt(cache, day, temp, k);
    if IsEventDimension(k.dimension) {
      if Under(t, k.dimension, k.key, EventsOn(t, day)) != {} {
        var id :| id in Under(t, k.dimension, k.key, EventsOn(t, day));
        var _ := EventHasABucket(t, day, temp, k.dimension, id);
        assert false;
      }
    } else {
      var b := Bucket(k.dimension, Group("all", ""));
      LeftCuts("all");
      assert BucketIsExact(t, day, temp, b);
      assert b in temp ==> Stored(day, b) == RowKey(day, k.dimension, "all");
      CountsAreNotNegative(t, day, k.dimension, k.key);
    }
  }

  lemma ReplacedDayIsExact(t: Tables, day: int, cache: Cache, temp: Temp)
    requires TempIsExact(t, day, temp) && Insertable(temp)
    ensures DayIsExact(t, Replaced(cache, day, temp), day)
  {
    forall k: RowKey | k.day == day ensures RowIsExact(t, Replaced(cache, day, temp), k) {
      if b :| b in temp && Stored(day, b) == k {
        WrittenRowIsExact(t, day, cache, temp, b);
      } else {
        MissingRowIsExact(t, day, cache, temp, k);
      }
    }
  }

  // ---------- filling the temporary table ----------

  function Joining(t: Tables): RowId -> Joined {
    id => Join(t, id)
  }

  function Grouped(d: Dimension): Joined -> Group {
    row => GroupOf(d, row)
  }

  /** Grouping the joined rows and summing the groups up is counting the events of the dimension. */
  lemma TwoStagesCountTheEvents(t: Tables, day: int, d: Dimension)
    ensures SumBy(CountBy(EventsOn(t, day), Joining(t)), Grouped(d)) == CountBy(EventsOn(t, day), GroupFor(t, d))
  {
    forall id ensures GroupFor(t, d)(id) == Grouped(d)(Joining(t)(id)) {
      assert Joining(t)(id) == Join(t, id);
      assert Grouped(d)(Join(t, id)) == GroupOf(d, Join(t, id)) == GroupFor(t, d)(id);
    }
    TwoStagesAreOne(EventsOn(t, day), Joining(t), Grouped(d), GroupFor(t, d));
  }

  lemma StagesCountTheGroup(t: Tables, day: int, d: Dimension, group: Group)
    requires IsEventDimension(d)
    ensures var sums, count := SumBy(CountBy(EventsOn(t, day), Joining(t)), Grouped(d)),
              BucketCount(t, day, Bucket(d, group));
            (group in sums <==> count > 0) && (group in sums ==> sums[group] == count)
  {
    TwoStagesCountTheEvents(t, day, d);
    CountIsFiber(EventsOn(t, day), GroupFor(t, d), group);
  }

  predicate Filled(t: Tables, day: int, temp: Temp, dimensions: seq<Dimension>, b: Bucket) {
    && (b in temp <==> b.dimension in dimensions && BucketCount(t, day, b) > 0)
    && (b in temp ==> temp[b] == BucketCount(t, day, b))
  }

  function WithBuckets(temp: Temp, d: Dimension, sums: map<Group, int>): Temp {
    temp + map g | g in sums :: Bucket(d, g) := sums[g]
  }

  lemma FilledOneMore(t: Tables, day: int, temp: Temp, dimensions: seq<Dimension>, d: Dimension, b: Bucket)
    requires Filled(t, day, temp, dimensions, b) && IsEventDimension(d) && d !in dimensions
    ensures Filled(t, day, WithBuckets(temp, d, SumBy(CountBy(EventsOn(t, day), Joining(t)), Grouped(d))),
                   dimensions + [d], b)
  {
    StagesCountTheGroup(t, day, d, b.group);
  }

  function WithIssues(t: Tables, day: int, temp: Temp): Temp {
    var all := Group("all", "");
    var seen := |IssuesOn(t, IssueTotal, day)|;
    var counted :=
      if seen == 0 then temp
      else temp[Bucket(IssueTotal, all) := seen][Bucket(IssueNew, all) := |IssuesOn(t, IssueNew, day)|];
    counted[Bucket(IssueRegressed, all) := |IssuesOn(t, IssueRegressed, day)|]
  }

  // ---------- days side by side ----------

  function RowsBetween(cache: Cache, first: int, last: int): set<RowKey> {
    set k | k in cache && first <= k.day <= last
  }

  ghost predicate SameAt(a: Cache, b: Cache, k: RowKey) {
    (k in a <==> k in b) && (k in a ==> a[k] == b[k])
  }

  ghost predicate SameOutside(a: Cache, b: Cache, first: int, last: int) {
    forall k: RowKey {:trigger SameAt(a, b, k)} :: !(first <= k.day <= last) ==> SameAt(a, b, k)
  }

  lemma ReplacedKeepsOtherDays(cache: Cache, day: int, temp: Temp)
    requires Insertable(temp)
    ensures SameOutside(cache, Replaced(cache, day, temp), day, day)
  {
    forall k: RowKey | k.day != day ensures SameAt(cache, Replaced(cache, day, temp), k) {
      ReplacedAt(cache, day, temp, k);
    }
  }

  lemma OtherDaysStayExact(t: Tables, before: Cache, after: Cache, day: int, other: int)
    requires SameOutside(before, after, day, day) && other != day && DayIsExact(t, before, other)
    ensures DayIsExact(t, after, other)
  {
    forall k: RowKey | k.day == other ensures RowIsExact(t, after, k) {
      assert RowIsExact(t, before, k) && SameAt(before, after, k);
    }
  }

  lemma SameOutsideGrows(a: Cache, b: Cache, c: Cache, first: int, day: int)
    requires first <= day && SameOutside(a, b, first, day - 1) && SameOutside(b, c, day, day)
    ensures SameOutside(a, c, first, day)
  {
    forall k: RowKey | !(first <= k.day <= day) ensures SameAt(a, c, k) {
      assert SameAt(a, b, k) && SameAt(b, c, k);
    }
  }

  lemma NoRowsBetween(cache: Cache, first: int)
    ensures RowsBetween(cache, first, first - 1) == {}
  {
  }

  lemma RowsOneMoreDay(before: Cache, after: Cache, first: int, day: int)
    requires SameOutside(before, after, day, day) && first <= day
    ensures |RowsBetween(after, first, day)| == |RowsBetween(before, first, day - 1)| + |RowsBetween(after, day, day)|
  {
    forall k: RowKey | first <= k.day <= day - 1 ensures k in before <==> k in after {
      assert SameAt(before, after, k);
    }
    assert RowsBetween(after, first, day) == RowsBetween(before, first, day - 1) + RowsBetween(after, day, day);
  }

  class RollupStore {
    var tables: Tables
    var cache: Cache

    constructor (tables: Tables, cache: Cache)
      ensures this.tables == tables && this.cache == cache
    {
      this.tables, this.cache := tables, cache;
    }

    /** The event part of the temporary table: group the joined events once, then sum up for each dimension. */
    method EventBuckets(day: int) returns (temp: Temp)
      ensures forall b :: Filled(tables, day, temp, EVENT_DIMENSIONS, b)
    {
      var groups := CountBy(EventsOn(tables, day), Joining(tables));
      temp := map[];
      ghost var done: seq<Dimension> := [];
      for i := 0 to |EVENT_DIMENSIONS|
        invariant done == EVENT_DIMENSIONS[..i]
        invariant forall b :: Filled(tables, day, temp, done, b)
      {
        var d := EVENT_DIMENSIONS[i];
        DimensionIsNew(i);
        var sums := SumGroups(groups, Grouped(d));
        ghost var next := done + [d];
        forall b ensures Filled(tables, day, WithBuckets(temp, d, sums), next, b) {
          FilledOneMore(tables, day, temp, done, d, b);
        }
        temp := WithBuckets(temp, d, sums);
        done := next;
      }
      assert done == EVENT_DIMENSIONS;
    }

    /** The whole temporary table; the regressed row has no `GROUP BY`, so it is there even when it counts nothing. */
    method TemporaryTable(day: int) returns (temp: Temp)
      ensures TempIsExact(tables, day, temp)
    {
      var events := EventBuckets(day);
      temp := WithIssues(tables, day, events);
      forall b ensures BucketIsExact(tables, day, temp, b) {
        assert Filled(tables, day, events, EVENT_DIMENSIONS, b);
        EventDimensionsAreListed(b.dimension);
      }
    }

    /** One day in one transaction: fill the temporary table, delete the day, insert the cut rows or roll back. */
    method RepairDay(day: int) returns (stored: Result<int, RepairError>)
      modifies this`cache
      ensures stored.Ok? <==> DayIsStorable(tables, day)
      ensures stored.Ok? ==> DayIsExact(tables, cache, day) && stored.value == |RowsBetween(cache, day, day)|
      ensures stored.Ok? ==> DayMeans(tables, cache, day)
      ensures SameOutside(old(cache), cache, day, day)
      ensures stored.Err? ==> stored.error == Database && cache == old(cache)
    {
      var temp := TemporaryTable(day);
      if !Insertable(temp) {
        if DayIsStorable(tables, day) {
          StorableIsInsertable(tables, day, temp);
        }
        return Err(Database);
      }
      InsertableIsStorable(tables, day, temp);
      ReplacedDayIsExact(tables, day, cache, temp);
      ReplacedKeepsOtherDays(cache, day, temp);
      cache := Replaced(cache, day, temp);
      ExactDaysAreCounted(tables, cache, day);
      CountedDayMeans(tables, cache, day);
      stored := Ok(|RowsBetween(cache, day, day)|);
    }

    /** Day after day, stopping at the first day that fails. */
    method RepairRange(first: int, last: int) returns (stored: Result<int, RepairError>, ghost reached: int)
      requires first <= last
      modifies this`cache
      ensures first <= reached <= last + 1 && (stored.Ok? <==> reached == last + 1)
      ensures forall day :: first <= day < reached ==> DayIsStorable(tables, day) && DayIsExact(tables, cache, day)
      ensures stored.Err? ==> stored.error == Database && !DayIsStorable(tables, reached)
      ensures SameOutside(old(cache), cache, first, reached - 1)
      ensures stored.Ok? ==> stored.value == MinInt(|RowsBetween(cache, first, last)|, I64_MAX)
    {
      var day := first;
      var total := 0;
      NoRowsBetween(cache, first);
      while true
        invariant first <= day <= last
        invariant forall d :: first <= d < day ==> DayIsStorable(tables, d) && DayIsExact(tables, cache, d)
        invariant SameOutside(old(cache), cache, first, day - 1)
        invariant total == MinInt(|RowsBetween(cache, first, day - 1)|, I64_MAX)
        decreases last - day
      {
        ghost var before := cache;
        var repaired := RepairDay(day);
        if repaired.Err? {
          return repaired, day;
        }
        forall d | first <= d < day ensures DayIsExact(tables, cache, d) {
          OtherDaysStayExact(tables, before, cache, day, d);
        }
        RowsOneMoreDay(before, cache, first, day);
        SameOutsideGrows(old(cache), before, cache, first, day);
        total := MinInt(total + repaired.value, I64_MAX);
        if day == last {
          return Ok(total), last + 1;
        }
        day := day + 1;
      }
    }
  }

  /** A table whose rows carry a search vector, null until computed; a vector is known by the text it was made from. */
  datatype Searchable = Searchable(text: string, vector: Option<string>)

  function WithVector(row: Searchable): Searchable {
    row.(vector := Some(row.text))
  }

  type Vectors = map<string, Searchable>

  function MissingIn(rows: Vectors): set<string> {
    set id | id in rows && rows[id].vector.None?
  }

  function Filling(rows: Vectors, ids: set<string>): Vectors {
    map id | id in rows :: if id in ids then WithVector(rows[id]) else rows[id]
  }

  lemma FillingTwice(rows: Vectors, a: set<string>, b: set<string>)
    ensures Filling(Filling(rows, a), b) == Filling(rows, a + b)
    ensures MissingIn(Filling(rows, a)) == MissingIn(rows) - a
  {
  }

  lemma PageSize(page: seq<Key>, ids: set<string>)
    requires Sorted(Ascending, page) && (forall k :: k in page ==> k.at == 0) && ids == set k | k in page :: k.id
    ensures |ids| == |page|
  {
    SortedIsDistinct(Ascending, page);
    var names := seq(|page|, i requires 0 <= i < |page| => page[i].id);
    forall id ensures id in Elements(names) <==> id in ids {
      if id in Elements(names) {
        var i :| 0 <= i < |page| && names[i] == id;
        assert page[i] in page;
      }
      if id in ids {
        var k :| k in page && k.id == id;
        var i :| 0 <= i < |page| && page[i] == k;
        assert names[i] == id;
      }
    }
    assert Elements(names) == ids;
    DistinctSeqSize(names);
  }

  class VectorTable {
    var rows: Vectors

    constructor (rows: Vectors)
      ensures this.rows == rows
    {
      this.rows := rows;
    }

    /** One statement: the first ids without a vector that no other transaction holds. */
    method FillBatch(locked: set<string>) returns (updated: set<string>)
      modifies this
      ensures updated <= MissingIn(old(rows)) - locked && |updated| <= 1_000
      ensures |updated| < 1_000 ==> updated == MissingIn(old(rows)) - locked
      ensures rows == Filling(old(rows), updated)
    {
      var missing := MissingIn(rows);
      var free := set id | id in missing && id !in locked :: Key(0, id);
      var page := SelectPage(Ascending, free, None, SEARCH_BACKFILL_BATCH_SIZE);
      updated := set k | k in page :: k.id;
      PageSize(page, updated);
      forall id | id in missing - locked && |page| < SEARCH_BACKFILL_BATCH_SIZE ensures id in updated {
        assert Key(0, id) in free;
      }
      rows := Filling(rows, updated);
    }

    /** Batches until a short one. Other transactions may hold any rows at any time, but never take a vector away. */
    method Backfill() returns (total: int, ghost filled: set<string>, ghost locked: set<string>)
      modifies this
      ensures filled <= MissingIn(old(rows)) && rows == Filling(old(rows), filled)
      ensures MissingIn(rows) == MissingIn(old(rows)) - filled && MissingIn(rows) <= locked
      ensures total == MinInt(|filled|, I64_MAX)
    {
      total, filled := 0, {};
      while true
        invariant filled <= MissingIn(old(rows)) && rows == Filling(old(rows), filled)
        invariant total == MinInt(|filled|, I64_MAX)
        decreases MissingIn(old(rows)) - filled
      {
        var held: set<string> := *;
        var updated := FillBatch(held);
        FillingTwice(old(rows), filled, updated);
        filled := filled + updated;
        total := MinInt(total + |updated|, I64_MAX);
        if |updated| < SEARCH_BACKFILL_BATCH_SIZE {
          FillingTwice(old(rows), filled, {});
          return total, filled, held;
        }
        assert updated != {};
      }
    }
  }

  /** The command: at most 31 days, in order, and then the two vector backfills. */
  method RepairProjectRollups(store: RollupStore, issues: VectorTable, events: VectorTable, found: bool, first: int,
                              last: int)
    returns (report: Result<Report, RepairError>)
    requires issues != events
    modifies store`cache, issues, events
    ensures report == Err(InvalidArgument) <==> last < first || last >= first + 31
    ensures report == Err(ProjectNotFound) <==> ValidSpan(first, last) && !found
    ensures report.Ok? <==> ValidSpan(first, last) && found && forall day :: first <= day <= last ==>
              DayIsStorable(store.tables, day)
    ensures !ValidSpan(first, last) || !found ==> store.cache == old(store.cache)
    ensures report.Err? ==> issues.rows == old(issues.rows) && events.rows == old(events.rows)
    ensures report.Ok? ==>
              && (forall day :: first <= day <= last ==> DayIsExact(store.tables, store.cache, day))
              && report.value.days == last - first + 1
              && report.value.storedRows == MinInt(|RowsBetween(store.cache, first, last)|, I64_MAX)
              && report.value.issueVectors == MinInt(|MissingIn(old(issues.rows)) - MissingIn(issues.rows)|, I64_MAX)
              && report.value.eventVectors == MinInt(|MissingIn(old(events.rows)) - MissingIn(events.rows)|, I64_MAX)
  {
    if !ValidSpan(first, last) {
      return Err(InvalidArgument);
    }
    if !found {
      return Err(ProjectNotFound);
    }
    var stored, _ := store.RepairRange(first, last);
    if stored.Err? {
      return Err(stored.error);
    }
    var issueVectors, filledIssues, _ := issues.Backfill();
    var eventVectors, filledEvents, _ := events.Backfill();
    assert MissingIn(old(issues.rows)) - MissingIn(issues.rows) == filledIssues;
    assert MissingIn(old(events.rows)) - MissingIn(events.rows) == filledEvents;
    report := Ok(Report(last - first + 1, stored.value, issueVectors, eventVectors));
  }
}
