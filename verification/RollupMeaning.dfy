/** What the cells of the rollup cache mean, said in the columns of the raw tables. */
module RollupMeaning {
  import opened Common
  import opened Grouping
  import opened Rollups

  // ---------- events and issues, column by column ----------

  predicate OnDay(at: int, day: int) {
    86_400_000_000 * day <= at < 86_400_000_000 * (day + 1)
  }

  /** The search row of the current result of an event is there. */
  predicate HasResult(t: Tables, id: RowId) {
    id in t.events && id in t.search && t.events[id].resultId == Some(t.search[id].resultId)
  }

  predicate HasFailed(t: Tables, id: RowId) {
    id in t.events && (t.events[id].state == "failed" || t.events[id].state == "quarantined")
  }

  /** A failed or quarantined event counts as failed whatever its search row says; otherwise the search row decides. */
  predicate CountsAsFailed(t: Tables, id: RowId) {
    HasFailed(t, id) || (HasResult(t, id) && t.search[id].symbolication == "failed")
  }

  /** Without a search row an event that waits for symbols counts as missing, and any other as processing. */
  predicate CountsAsMissing(t: Tables, id: RowId) {
    id in t.events && !HasFailed(t, id)
    && if HasResult(t, id) then t.search[id].symbolication == "missing" else t.events[id].state == "awaiting_symbols"
  }

  predicate CountsAsProcessing(t: Tables, id: RowId) {
    id in t.events && !HasFailed(t, id)
    && if HasResult(t, id) then t.search[id].symbolication == "processing" else t.events[id].state != "awaiting_symbols"
  }

  predicate CountsAsResult(t: Tables, id: RowId, symbolication: string) {
    !HasFailed(t, id) && HasResult(t, id) && t.search[id].symbolication == symbolication
  }

  predicate IsMapped(t: Tables, id: RowId, release: string) {
    id in t.events && t.events[id].releaseId == Some(release) && release in t.releases
  }

  predicate IsUnmapped(t: Tables, id: RowId) {
    forall release :: release in t.releases && IsMapped(t, id, release) ==> release == "unmapped"
  }

  predicate HasCrashType(t: Tables, id: RowId, crashType: string) {
    if HasResult(t, id) && t.search[id].crashType.Some? then t.search[id].crashType.value == crashType
    else crashType == "unknown"
  }

  predicate HasPlatform(t: Tables, id: RowId, platform: string) {
    if HasResult(t, id) && t.search[id].platform.Some? then t.search[id].platform.value == platform
    else platform == "unknown"
  }

  predicate HasArchitecture(t: Tables, id: RowId, architecture: string) {
    if HasResult(t, id) && t.search[id].architecture.Some? then t.search[id].architecture.value == architecture
    else architecture == "unknown"
  }

  function Events(t: Tables, day: int, p: RowId -> bool): set<RowId> {
    set id | id in t.events && OnDay(t.events[id].receivedAt, day) && p(id)
  }

  // ---------- the cells ----------

  lemma LeftIs(text: string, key: string)
    requires |key| < 512
    ensures Left(text) == key <==> text == key
  {
  }

  /** A cell under a short key counts the events whose uncut key it is. */
  lemma CellOfKey(t: Tables, cache: Cache, day: int, d: Dimension, key: string, p: RowId -> bool)
    requires DayIsCounted(t, cache, day) && IsEventDimension(d) && |key| < 512
    requires forall id :: id in t.events ==> (RawKey(t, d, id) == key <==> p(id))
    ensures CellOf(cache, RowKey(day, d, key)) == |Events(t, day, p)|
  {
    assert CellOf(cache, RowKey(day, d, key)) == DayCount(t, day, d, key);
    forall id | id in t.events
      ensures id in EventsOn(t, day) && CutKey(t, d)(id) == key <==> id in Events(t, day, p)
    {
      assert CutKey(t, d)(id) == Left(RawKey(t, d, id));
      LeftIs(RawKey(t, d, id), key);
      DayBounds(t.events[id].receivedAt, day);
    }
    assert Under(t, d, key, EventsOn(t, day)) == Events(t, day, p);
  }

  /** The states of symbolication of a day. */
  ghost predicate SymbolicationMeans(t: Tables, cache: Cache, day: int) {
    && CellOf(cache, RowKey(day, SymbolicationState, "failed")) == |Events(t, day, id => CountsAsFailed(t, id))|
    && CellOf(cache, RowKey(day, SymbolicationState, "missing")) == |Events(t, day, id => CountsAsMissing(t, id))|
    && CellOf(cache, RowKey(day, SymbolicationState, "processing")) == |Events(t, day, id => CountsAsProcessing(t, id))|
    && forall s: string {:trigger CellOf(cache, RowKey(day, SymbolicationState, s))} ::
         |s| < 512 && s != "failed" && s != "missing" && s != "processing" ==>
         CellOf(cache, RowKey(day, SymbolicationState, s)) == |Events(t, day, id => CountsAsResult(t, id, s))|
  }

  lemma SymbolicationIsCounted(t: Tables, cache: Cache, day: int)
    requires DayIsCounted(t, cache, day)
    ensures SymbolicationMeans(t, cache, day)
  {
    CellOfKey(t, cache, day, SymbolicationState, "failed", id => CountsAsFailed(t, id));
    CellOfKey(t, cache, day, SymbolicationState, "missing", id => CountsAsMissing(t, id));
    CellOfKey(t, cache, day, SymbolicationState, "processing", id => CountsAsProcessing(t, id));
    forall s: string | |s| < 512 && s != "failed" && s != "missing" && s != "processing"
      ensures CellOf(cache, RowKey(day, SymbolicationState, s)) == |Events(t, day, id => CountsAsResult(t, id, s))|
    {
      CellOfKey(t, cache, day, SymbolicationState, s, id => CountsAsResult(t, id, s));
    }
  }

  /** Releases and types of crash of a day, with their defaults. */
  ghost predicate ReleasesMean(t: Tables, cache: Cache, day: int) {
    && CellOf(cache, RowKey(day, Release, "unmapped")) == |Events(t, day, id => IsUnmapped(t, id))|
    && forall r: string {:trigger CellOf(cache, RowKey(day, Release, r))} :: |r| < 512 && r != "unmapped" ==>
         CellOf(cache, RowKey(day, Release, r)) == |Events(t, day, id => IsMapped(t, id, r))|
  }

  ghost predicate CrashTypesMean(t: Tables, cache: Cache, day: int) {
    forall c: string {:trigger CellOf(cache, RowKey(day, CrashType, c))} :: |c| < 512 ==>
      CellOf(cache, RowKey(day, CrashType, c)) == |Events(t, day, id => HasCrashType(t, id, c))|
  }

  ghost predicate StatesMean(t: Tables, cache: Cache, day: int) {
    forall s: string {:trigger CellOf(cache, RowKey(day, ProcessingState, s))} :: |s| < 512 ==>
      CellOf(cache, RowKey(day, ProcessingState, s))
        == |Events(t, day, id => id in t.events && t.events[id].state == s)|
  }

  lemma ReleasesAreCounted(t: Tables, cache: Cache, day: int)
    requires DayIsCounted(t, cache, day)
    ensures ReleasesMean(t, cache, day)
  {
    CellOfKey(t, cache, day, Release, "unmapped", id => IsUnmapped(t, id));
    forall r: string | |r| < 512 && r != "unmapped"
      ensures CellOf(cache, RowKey(day, Release, r)) == |Events(t, day, id => IsMapped(t, id, r))|
    {
      CellOfKey(t, cache, day, Release, r, id => IsMapped(t, id, r));
    }
  }

  lemma CrashTypesAreCounted(t: Tables, cache: Cache, day: int)
    requires DayIsCounted(t, cache, day)
    ensures CrashTypesMean(t, cache, day) && StatesMean(t, cache, day)
  {
    forall c: string | |c| < 512
      ensures CellOf(cache, RowKey(day, CrashType, c)) == |Events(t, day, id => HasCrashType(t, id, c))|
    {
      CellOfKey(t, cache, day, CrashType, c, id => HasCrashType(t, id, c));
    }
    forall s: string | |s| < 512
      ensures CellOf(cache, RowKey(day, ProcessingState, s))
           == |Events(t, day, id => id in t.events && t.events[id].state == s)|
    {
      CellOfKey(t, cache, day, ProcessingState, s, id => id in t.events && t.events[id].state == s);
    }
  }

  lemma SplitAtFirstSlash(p: string, a: string, q: string, b: string)
    requires '/' !in p && '/' !in q && p + "/" + a == q + "/" + b
    ensures p == q && a == b
  {
    var whole := p + "/" + a;
    assert whole[|p|] == '/' && whole == q + "/" + b && whole[|q|] == '/';
    assert forall i :: 0 <= i < |q| ==> whole[i] == q[i] && q[i] != '/';
    assert forall i :: 0 <= i < |p| ==> whole[i] == p[i] && p[i] != '/';
    assert p == whole[..|p|] && q == whole[..|q|];
    assert a == whole[|p| + 1..] && b == whole[|q| + 1..];
  }

  /** No platform of an event has a slash, so platform and architecture can be told apart. */
  predicate PlatformsArePlain(t: Tables) {
    forall id :: id in t.search && t.search[id].platform.Some? ==> '/' !in t.search[id].platform.value
  }

  ghost predicate PlatformsMean(t: Tables, cache: Cache, day: int) {
    forall p: string, a: string {:trigger CellOf(cache, RowKey(day, PlatformArchitecture, p + "/" + a))} ::
      '/' !in p && |p| + |a| < 511 ==>
      CellOf(cache, RowKey(day, PlatformArchitecture, p + "/" + a))
        == |Events(t, day, id => HasPlatform(t, id, p) && HasArchitecture(t, id, a))|
  }

  lemma PlatformsAreCounted(t: Tables, cache: Cache, day: int)
    requires DayIsCounted(t, cache, day) && PlatformsArePlain(t)
    ensures PlatformsMean(t, cache, day)
  {
    forall p: string, a: string | '/' !in p && |p| + |a| < 511
      ensures CellOf(cache, RowKey(day, PlatformArchitecture, p + "/" + a))
           == |Events(t, day, id => HasPlatform(t, id, p) && HasArchitecture(t, id, a))|
    {
      forall id | id in t.events
        ensures RawKey(t, PlatformArchitecture, id) == p + "/" + a <==>
                  HasPlatform(t, id, p) && HasArchitecture(t, id, a)
      {
        var g := GroupOf(PlatformArchitecture, Join(t, id));
        if g.first + "/" + g.second == p + "/" + a {
          SplitAtFirstSlash(g.first, g.second, p, a);
        }
      }
      CellOfKey(t, cache, day, PlatformArchitecture, p + "/" + a,
                id => HasPlatform(t, id, p) && HasArchitecture(t, id, a));
    }
  }

  function FirstSeen(t: Tables, day: int): set<RowId> {
    set id | id in t.issues && OnDay(t.issues[id].firstSeenAt, day)
  }

  function Regressed(t: Tables, day: int): set<RowId> {
    set id | id in t.issues && t.issues[id].regressed && OnDay(t.issues[id].lastSeenAt, day)
  }

  /** The totals of a day: events by arrival, issues by first sighting, regressed issues by last sighting. */
  ghost predicate TotalsMean(t: Tables, cache: Cache, day: int) {
    && CellOf(cache, RowKey(day, EventTotal, "all")) == |Events(t, day, id => true)|
    && CellOf(cache, RowKey(day, IssueTotal, "all")) == |FirstSeen(t, day)|
    && CellOf(cache, RowKey(day, IssueNew, "all")) == |FirstSeen(t, day)|
    && CellOf(cache, RowKey(day, IssueRegressed, "all")) == |Regressed(t, day)|
  }

  lemma TotalsAreCounted(t: Tables, cache: Cache, day: int)
    requires DayIsCounted(t, cache, day)
    ensures TotalsMean(t, cache, day)
  {
    CellOfKey(t, cache, day, EventTotal, "all", id => true);
    forall id | id in t.issues
      ensures OnDay(t.issues[id].firstSeenAt, day) <==> DayOf(t.issues[id].firstSeenAt) == day
      ensures OnDay(t.issues[id].lastSeenAt, day) <==> DayOf(t.issues[id].lastSeenAt) == day
    {
      DayBounds(t.issues[id].firstSeenAt, day);
      DayBounds(t.issues[id].lastSeenAt, day);
    }
    assert IssuesOn(t, IssueTotal, day) == FirstSeen(t, day) == IssuesOn(t, IssueNew, day);
    assert IssuesOn(t, IssueRegressed, day) == Regressed(t, day);
    assert CellOf(cache, RowKey(day, IssueTotal, "all")) == DayCount(t, day, IssueTotal, "all");
    assert CellOf(cache, RowKey(day, IssueNew, "all")) == DayCount(t, day, IssueNew, "all");
    assert CellOf(cache, RowKey(day, IssueRegressed, "all")) == DayCount(t, day, IssueRegressed, "all");
  }

  /** Keys longer than 512 characters count under their first 512. */
  ghost predicate LongKeysMean(t: Tables, cache: Cache, day: int) {
    forall d, key: string {:trigger CellOf(cache, RowKey(day, d, key))} :: IsEventDimension(d) && |key| >= 512 ==>
      CellOf(cache, RowKey(day, d, key))
        == |Events(t, day, id => |key| == 512 && key <= RawKey(t, d, id))|
  }

  lemma LongKeysAreCounted(t: Tables, cache: Cache, day: int)
    requires DayIsCounted(t, cache, day)
    ensures LongKeysMean(t, cache, day)
  {
    forall d, key: string | IsEventDimension(d) && |key| >= 512
      ensures CellOf(cache, RowKey(day, d, key)) == |Events(t, day, id => |key| == 512 && key <= RawKey(t, d, id))|
    {
      assert CellOf(cache, RowKey(day, d, key)) == DayCount(t, day, d, key);
      var longer := Events(t, day, id => |key| == 512 && key <= RawKey(t, d, id));
      forall id | id in t.events ensures id in EventsOn(t, day) && CutKey(t, d)(id) == key <==> id in longer {
        assert CutKey(t, d)(id) == Left(RawKey(t, d, id));
        DayBounds(t.events[id].receivedAt, day);
      }
      assert Under(t, d, key, EventsOn(t, day)) == longer;
    }
  }

  /** What every cell of a day means. */
  ghost predicate DayMeans(t: Tables, cache: Cache, day: int) {
    && TotalsMean(t, cache, day) && SymbolicationMeans(t, cache, day) && StatesMean(t, cache, day)
    && ReleasesMean(t, cache, day) && CrashTypesMean(t, cache, day)
    && (PlatformsArePlain(t) ==> PlatformsMean(t, cache, day)) && LongKeysMean(t, cache, day)
  }

  /** The cells of a counted day hold the counts of the events and issues that the columns say. */
  lemma CountedDayMeans(t: Tables, cache: Cache, day: int)
    requires DayIsCounted(t, cache, day)
    ensures DayMeans(t, cache, day)
  {
    TotalsAreCounted(t, cache, day);
    SymbolicationIsCounted(t, cache, day);
    ReleasesAreCounted(t, cache, day);
    CrashTypesAreCounted(t, cache, day);
    LongKeysAreCounted(t, cache, day);
    if PlatformsArePlain(t) {
      PlatformsAreCounted(t, cache, day);
    }
  }
}
