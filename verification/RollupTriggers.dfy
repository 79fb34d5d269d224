/**
 The triggers that keep the rollup cache in step with the raw tables.

 A trigger turns one row change into deltas on cells of the cache. A transaction changes several rows, and between
 its statements the cache runs ahead of the tables: it counts an event under a `View` of it.
 */
module RollupTriggers {
  import opened Common
  import opened Grouping
  import opened Rollups
  import opened RollupRepair

  // ---------- deltas ----------

  datatype Delta = Delta(day: int, dimension: Dimension, key: string, amount: int)

  function CellOfDelta(d: Delta): RowKey {
    RowKey(d.day, d.dimension, Left(d.key))
  }

  /** A positive delta inserts the row or adds to it. A negative one subtracts unless the count would fall below zero,
      and then removes the row if it is at zero. */
  function ApplyDelta(cache: Cache, d: Delta): Cache {
    var k := CellOfDelta(d);
    if d.amount > 0 then
      cache[k := CellOf(cache, k) + d.amount]
    else if d.amount < 0 then
      var updated := if k in cache && cache[k] + d.amount >= 0 then cache[k := cache[k] + d.amount] else cache;
      if k in updated && updated[k] == 0 then updated - {k} else updated
    else
      cache
  }

  function ApplyAll(cache: Cache, ds: seq<Delta>): Cache
    decreases |ds|
  {
    if ds == [] then cache else ApplyAll(ApplyDelta(cache, ds[0]), ds[1..])
  }

  /** What the deltas add to a cell, and what they take from it on the way. */
  function Net(ds: seq<Delta>, k: RowKey): int {
    if ds == [] then 0 else (if CellOfDelta(ds[0]) == k then ds[0].amount else 0) + Net(ds[1..], k)
  }

  function Minus(ds: seq<Delta>, k: RowKey): nat {
    if ds == [] then 0
    else (if CellOfDelta(ds[0]) == k && ds[0].amount < 0 then -ds[0].amount else 0) + Minus(ds[1..], k)
  }

  lemma {:induction false} NetOfBoth(a: seq<Delta>, b: seq<Delta>, k: RowKey)
    ensures Net(a + b, k) == Net(a, k) + Net(b, k) && Minus(a + b, k) == Minus(a, k) + Minus(b, k)
    decreases |a|
  {
    if a == [] {
      assert a + b == b;
    } else {
      NetOfBoth(a[1..], b, k);
      assert (a + b)[0] == a[0] && (a + b)[1..] == a[1..] + b;
    }
  }

  /** A cell that holds at least what the deltas take from it changes by exactly their net amount: no guard stops
      them, wherever they stand in the list. */
  lemma {:induction false} AppliedCell(cache: Cache, ds: seq<Delta>, k: RowKey)
    requires CellOf(cache, k) >= Minus(ds, k)
    ensures CellOf(ApplyAll(cache, ds), k) == CellOf(cache, k) + Net(ds, k)
    decreases |ds|
  {
    if ds != [] {
      var next := ApplyDelta(cache, ds[0]);
      assert CellOf(next, k) == CellOf(cache, k) + if CellOfDelta(ds[0]) == k then ds[0].amount else 0;
      AppliedCell(next, ds[1..], k);
    }
  }

  // ---------- what the cache counts ----------

  /** An event or an issue as the cache sees it. */
  datatype View = OfEvent(day: int, row: Joined) | OfIssue(issue: Issue)

  type Views = map<RowId, View>

  predicate CountsIn(view: View, k: RowKey) {
    match view
    case OfEvent(day, row) =>
      IsEventDimension(k.dimension) && k.day == day && k.key == Left(KeyOf(k.dimension, GroupOf(k.dimension, row)))
    case OfIssue(issue) =>
      k.key == "all" &&
      if k.dimension == IssueRegressed then issue.regressed && k.day == DayOf(issue.lastSeenAt)
      else !IsEventDimension(k.dimension) && k.day == DayOf(issue.firstSeenAt)
  }

  function One(view: Option<View>, k: RowKey): nat {
    if view.Some? && CountsIn(view.value, k) then 1 else 0
  }

  function Counting(views: Views, k: RowKey): set<RowId> {
    set id | id in views && CountsIn(views[id], k)
  }

  function ViewAt(views: Views, id: RowId): Option<View> {
    if id in views then Some(views[id]) else None
  }

  function Put(views: Views, id: RowId, view: Option<View>): Views {
    if view.Some? then views[id := view.value] else views - {id}
  }

  lemma CountingWithout(views: Views, id: RowId, k: RowKey)
    ensures |Counting(views, k)| == |Counting(views - {id}, k)| + One(ViewAt(views, id), k)
  {
    if One(ViewAt(views, id), k) == 1 {
      assert Counting(views, k) == Counting(views - {id}, k) + {id};
    } else {
      assert Counting(views, k) == Counting(views - {id}, k);
    }
  }

  lemma CountingOnePut(views: Views, id: RowId, view: Option<View>, k: RowKey)
    ensures |Counting(Put(views, id, view), k)| == |Counting(views, k)| - One(ViewAt(views, id), k) + One(view, k)
  {
    CountingWithout(views, id, k);
    CountingWithout(Put(views, id, view), id, k);
    assert Put(views, id, view) - {id} == views - {id};
  }

  /** The cache counts these events and issues on this day. */
  ghost predicate Tallied(events: Views, issues: Views, cache: Cache, day: int) {
    forall k: RowKey {:trigger CellOf(cache, k)} ::
      k.day == day ==> CellOf(cache, k) == |Counting(events, k)| + |Counting(issues, k)|
  }

  /** The deltas move one event or issue from one view of it to another. */
  ghost predicate Moves(ds: seq<Delta>, before: Option<View>, after: Option<View>) {
    forall k :: Net(ds, k) == One(after, k) - One(before, k) && Minus(ds, k) <= One(before, k)
  }

  lemma MoveEvent(events: Views, issues: Views, cache: Cache, day: int, id: RowId, after: Option<View>, ds: seq<Delta>)
    requires Tallied(events, issues, cache, day) && Moves(ds, ViewAt(events, id), after)
    ensures Tallied(Put(events, id, after), issues, ApplyAll(cache, ds), day)
  {
    forall k: RowKey | k.day == day
      ensures CellOf(ApplyAll(cache, ds), k) == |Counting(Put(events, id, after), k)| + |Counting(issues, k)|
    {
      CountingOnePut(events, id, after, k);
      CountingOnePut(events, id, None, k);
      assert CellOf(cache, k) == |Counting(events, k)| + |Counting(issues, k)|;
      assert Minus(ds, k) <= One(ViewAt(events, id), k);
      AppliedCell(cache, ds, k);
    }
  }

  lemma MoveIssue(events: Views, issues: Views, cache: Cache, day: int, id: RowId, after: Option<View>, ds: seq<Delta>)
    requires Tallied(events, issues, cache, day) && Moves(ds, ViewAt(issues, id), after)
    ensures Tallied(events, Put(issues, id, after), ApplyAll(cache, ds), day)
  {
    forall k: RowKey | k.day == day
      ensures CellOf(ApplyAll(cache, ds), k) == |Counting(events, k)| + |Counting(Put(issues, id, after), k)|
    {
      CountingOnePut(issues, id, after, k);
      CountingOnePut(issues, id, None, k);
      assert CellOf(cache, k) == |Counting(events, k)| + |Counting(issues, k)|;
      assert Minus(ds, k) <= One(ViewAt(issues, id), k);
      AppliedCell(cache, ds, k);
    }
  }

  // ---------- the tables as views ----------

  function EventViews(t: Tables): Views {
    map id | id in t.events :: OfEvent(DayOf(t.events[id].receivedAt), Join(t, id))
  }

  function IssueViews(t: Tables): Views {
    map id | id in t.issues :: OfIssue(t.issues[id])
  }

  lemma CountedUnderItsCutKey(t: Tables, id: RowId, k: RowKey)
    requires id in t.events
    ensures CountsIn(EventViews(t)[id], k) <==>
              IsEventDimension(k.dimension) && k.day == DayOf(t.events[id].receivedAt)
                  && CutKey(t, k.dimension)(id) == k.key
  {
    assert CutKey(t, k.dimension)(id) == Left(RawKey(t, k.dimension, id));
  }

  lemma ViewsAreCounted(t: Tables, k: RowKey)
    ensures |Counting(EventViews(t), k)| + |Counting(IssueViews(t), k)| == DayCount(t, k.day, k.dimension, k.key)
  {
    forall id | id in t.issues
      ensures CountsIn(IssueViews(t)[id], k) <==> k.key == "all" && id in IssuesOn(t, k.dimension, k.day)
                                                  && !IsEventDimension(k.dimension)
    {
      assert IssueViews(t)[id] == OfIssue(t.issues[id]);
    }
    if IsEventDimension(k.dimension) {
      assert Counting(IssueViews(t), k) == {};
      forall id | id in t.events
        ensures CountsIn(EventViews(t)[id], k) <==> id in EventsOn(t, k.day) && CutKey(t, k.dimension)(id) == k.key
      {
        CountedUnderItsCutKey(t, id, k);
      }
      assert Counting(EventViews(t), k) == Under(t, k.dimension, k.key, EventsOn(t, k.day));
    } else {
      assert Counting(EventViews(t), k) == {};
      assert Counting(IssueViews(t), k) == if k.key == "all" then IssuesOn(t, k.dimension, k.day) else {};
    }
  }

  lemma TalliedIsCounted(t: Tables, cache: Cache, day: int)
    ensures Tallied(EventViews(t), IssueViews(t), cache, day) <==> DayIsCounted(t, cache, day)
  {
    forall k: RowKey | k.day == day
      ensures |Counting(EventViews(t), k)| + |Counting(IssueViews(t), k)| == DayCount(t, day, k.dimension, k.key)
    {
      ViewsAreCounted(t, k);
    }
    if DayIsCounted(t, cache, day) {
      forall k: RowKey | k.day == day
        ensures CellOf(cache, k) == |Counting(EventViews(t), k)| + |Counting(IssueViews(t), k)|
      {
        assert k == RowKey(day, k.dimension, k.key);
      }
    }
    if Tallied(EventViews(t), IssueViews(t), cache, day) {
      forall dimension, key ensures CellOf(cache, RowKey(day, dimension, key)) == DayCount(t, day, dimension, key) {
        var k := RowKey(day, dimension, key);
        assert CellOf(cache, k) == |Counting(EventViews(t), k)| + |Counting(IssueViews(t), k)|;
      }
    }
  }

  // ---------- the deltas of the triggers ----------

  /** The search row a trigger finds for a result of the event. */
  function Found(t: Tables, id: RowId, result: Option<string>): Option<Search> {
    if id in t.search && result == Some(t.search[id].resultId) then Some(t.search[id]) else None
  }

  /** The columns of an event beside those of a search row, or of none. */
  function Beside(e: Event, search: Option<Search>): Joined {
    match search
    case Some(s) => Joined(e.releaseId, s.platform, s.architecture, s.crashType, Some(s.symbolication), e.state)
    case None => Joined(e.releaseId, None, None, None, None, e.state)
  }

  /** The event in every dimension. */
  function Each(dimensions: seq<Dimension>, day: int, row: Joined, amount: int): seq<Delta> {
    if dimensions == [] then []
    else
      var d := dimensions[0];
      [Delta(day, d, KeyOf(d, GroupOf(d, row)), amount)] + Each(dimensions[1..], day, row, amount)
  }

  /** From one group of a dimension to another, if they differ. */
  function Shift(d: Dimension, day: int, a: Joined, b: Joined): seq<Delta> {
    if GroupOf(d, a) == GroupOf(d, b) then []
    else [Delta(day, d, KeyOf(d, GroupOf(d, a)), -1), Delta(day, d, KeyOf(d, GroupOf(d, b)), 1)]
  }

  function InsertDeltas(t: Tables, id: RowId): seq<Delta>
    requires id in t.events
  {
    Each(EVENT_DIMENSIONS, DayOf(t.events[id].receivedAt), Join(t, id), 1)
  }

  /** On another day the event moves as a whole. On its day the release and the states move, the symbolication state
      with the search row of the new result or else of the old one; the other columns are left to the search trigger. */
  function UpdateDeltas(t: Tables, id: RowId, prior: Event, next: Event): seq<Delta> {
    var a, b := Beside(prior, Found(t, id, prior.resultId)), Beside(next, Found(t, id, next.resultId));
    var day := DayOf(prior.receivedAt);
    if day != DayOf(next.receivedAt) then
      Each(EVENT_DIMENSIONS, day, a, -1) + Each(EVENT_DIMENSIONS, DayOf(next.receivedAt), b, 1)
    else
      var search := if b.symbolication.Some? then b.symbolication else a.symbolication;
      Shift(Release, day, a, b)
      + if prior.state == next.state then []
        else Shift(ProcessingState, day, a, b)
             + Shift(SymbolicationState, day, a.(symbolication := search), b.(symbolication := search))
  }

  function DeleteDeltas(t: Tables, id: RowId, e: Event): seq<Delta> {
    Each(EVENT_DIMENSIONS, DayOf(e.receivedAt), Beside(e, Found(t, id, e.resultId)), -1)
  }

  /** The search trigger leaves events alone whose current result is another one. */
  predicate Skips(e: Event, prior: Option<Search>, next: Option<Search>) {
    e.resultId.Some?
    && (prior.Some? ==> e.resultId != Some(prior.value.resultId))
    && (next.Some? ==> e.resultId != Some(next.value.resultId))
  }

  function SearchDeltas(e: Event, prior: Option<Search>, next: Option<Search>): seq<Delta> {
    var day, a, b := DayOf(e.receivedAt), Beside(e, prior), Beside(e, next);
    if Skips(e, prior, next) then []
    else Shift(PlatformArchitecture, day, a, b) + Shift(CrashType, day, a, b) + Shift(SymbolicationState, day, a, b)
  }

  function FirstDay(issue: Option<Issue>): Option<int> {
    if issue.Some? then Some(DayOf(issue.value.firstSeenAt)) else None
  }

  function RegressedDay(issue: Option<Issue>): Option<int> {
    if issue.Some? && issue.value.regressed then Some(DayOf(issue.value.lastSeenAt)) else None
  }

  function IssueDeltasOn(day: Option<int>, dimensions: seq<Dimension>, amount: int): seq<Delta> {
    if day.None? || dimensions == [] then []
    else [Delta(day.value, dimensions[0], "all", amount)] + IssueDeltasOn(day, dimensions[1..], amount)
  }

  /** From one day to another, if they differ; either may be missing. */
  function DayDeltas(before: Option<int>, after: Option<int>, dimensions: seq<Dimension>): seq<Delta> {
    if before == after then [] else IssueDeltasOn(before, dimensions, -1) + IssueDeltasOn(after, dimensions, 1)
  }

  function IssueDeltas(prior: Option<Issue>, next: Option<Issue>): seq<Delta> {
    DayDeltas(FirstDay(prior), FirstDay(next), [IssueTotal, IssueNew])
    + DayDeltas(RegressedDay(prior), RegressedDay(next), [IssueRegressed])
  }

  // ---------- the deltas move views ----------

  lemma {:induction false} EachIsNet(dimensions: seq<Dimension>, day: int, row: Joined, amount: int, k: RowKey)
    requires Distinct(dimensions) && forall d :: d in dimensions ==> IsEventDimension(d)
    ensures var hit := if k.dimension in dimensions then One(Some(OfEvent(day, row)), k) else 0;
            Net(Each(dimensions, day, row, amount), k) == (if hit == 1 then amount else 0)
            && Minus(Each(dimensions, day, row, amount), k) == (if hit == 1 && amount < 0 then -amount else 0)
    decreases |dimensions|
  {
    if dimensions != [] {
      EachIsNet(dimensions[1..], day, row, amount, k);
    }
  }

  lemma AllIsNet(day: int, row: Joined, amount: int, k: RowKey)
    ensures var hit := One(Some(OfEvent(day, row)), k);
            Net(Each(EVENT_DIMENSIONS, day, row, amount), k) == (if hit == 1 then amount else 0)
            && Minus(Each(EVENT_DIMENSIONS, day, row, amount), k) == (if hit == 1 && amount < 0 then -amount else 0)
  {
    forall d ensures IsEventDimension(d) <==> d in EVENT_DIMENSIONS {
      EventDimensionsAreListed(d);
    }
    EachIsNet(EVENT_DIMENSIONS, day, row, amount, k);
  }

  lemma ShiftIsNet(d: Dimension, day: int, a: Joined, b: Joined, k: RowKey)
    requires IsEventDimension(d)
    ensures Net(Shift(d, day, a, b), k)
         == if k.dimension == d then One(Some(OfEvent(day, b)), k) - One(Some(OfEvent(day, a)), k) else 0
    ensures Minus(Shift(d, day, a, b), k) <= if k.dimension == d then One(Some(OfEvent(day, a)), k) else 0
  {
    var ds := Shift(d, day, a, b);
    if ds != [] {
      assert ds[1..] == [Delta(day, d, KeyOf(d, GroupOf(d, b)), 1)] && ds[1..][1..] == [];
      assert Net(ds[1..], k) == (if CellOfDelta(ds[1]) == k then 1 else 0) && Minus(ds[1..], k) == 0;
    }
  }

  lemma WholeEventMoves(day: int, row: Joined, amount: int)
    requires amount == 1 || amount == -1
    ensures var view := Some(OfEvent(day, row));
            Moves(Each(EVENT_DIMENSIONS, day, row, amount), if amount < 0 then view else None,
                  if amount < 0 then None else view)
  {
    forall k {
      AllIsNet(day, row, amount, k);
    }
  }

  /** What the update trigger makes of the view the cache has of an event. */
  function Updated(t: Tables, id: RowId, prior: Event, next: Event, row: Joined): View {
    var day := DayOf(next.receivedAt);
    if DayOf(prior.receivedAt) != day then OfEvent(day, Beside(next, Found(t, id, next.resultId)))
    else OfEvent(day, row.(release := next.releaseId, state := next.state))
  }

  /** The update trigger reads the tables; this is the view of the event that it then supposes. */
  predicate Supposes(t: Tables, id: RowId, prior: Event, next: Event, row: Joined) {
    var a, b := Beside(prior, Found(t, id, prior.resultId)), Beside(next, Found(t, id, next.resultId));
    row.release == prior.releaseId && row.state == prior.state
    && if DayOf(prior.receivedAt) != DayOf(next.receivedAt) then row == a
       else prior.state != next.state ==>
              row.symbolication == if b.symbolication.Some? then b.symbolication else a.symbolication
  }

  lemma ToAnotherDayIsNet(day: int, a: Joined, other: int, b: Joined, k: RowKey)
    requires day != other
    ensures var ds := Each(EVENT_DIMENSIONS, day, a, -1) + Each(EVENT_DIMENSIONS, other, b, 1);
            Net(ds, k) == One(Some(OfEvent(other, b)), k) - One(Some(OfEvent(day, a)), k)
            && Minus(ds, k) <= One(Some(OfEvent(day, a)), k)
  {
    NetOfBoth(Each(EVENT_DIMENSIONS, day, a, -1), Each(EVENT_DIMENSIONS, other, b, 1), k);
    AllIsNet(day, a, -1, k);
    AllIsNet(other, b, 1, k);
  }

  /** Shifting three dimensions is shifting the view, when the other dimensions do not tell the two rows apart. */
  lemma ThreeShiftsAreNet(d: Dimension, e: Dimension, f: Dimension, day: int, a: Joined, b: Joined, k: RowKey)
    requires d != e && d != f && e != f && IsEventDimension(d) && IsEventDimension(e) && IsEventDimension(f)
    requires k.dimension != d && k.dimension != e && k.dimension != f && IsEventDimension(k.dimension) ==>
               GroupOf(k.dimension, a) == GroupOf(k.dimension, b)
    ensures var ds := Shift(d, day, a, b) + (Shift(e, day, a, b) + Shift(f, day, a, b));
            Net(ds, k) == One(Some(OfEvent(day, b)), k) - One(Some(OfEvent(day, a)), k)
            && Minus(ds, k) <= One(Some(OfEvent(day, a)), k)
  {
    NetOfBoth(Shift(e, day, a, b), Shift(f, day, a, b), k);
    NetOfBoth(Shift(d, day, a, b), Shift(e, day, a, b) + Shift(f, day, a, b), k);
    ShiftIsNet(d, day, a, b, k);
    ShiftIsNet(e, day, a, b, k);
    ShiftIsNet(f, day, a, b, k);
  }

  lemma ShiftSeesGroups(d: Dimension, day: int, a: Joined, b: Joined, c: Joined, e: Joined)
    requires GroupOf(d, a) == GroupOf(d, c) && GroupOf(d, b) == GroupOf(d, e)
    ensures Shift(d, day, a, b) == Shift(d, day, c, e)
  {
  }

  /** On its day the event trades release and states; the shifts of the trigger are those of the view. */
  lemma SameDayDeltas(t: Tables, id: RowId, prior: Event, next: Event, row: Joined)
    requires Supposes(t, id, prior, next, row) && DayOf(prior.receivedAt) == DayOf(next.receivedAt)
    ensures var day, after := DayOf(prior.receivedAt), row.(release := next.releaseId, state := next.state);
            UpdateDeltas(t, id, prior, next)
              == Shift(Release, day, row, after)
                 + (Shift(ProcessingState, day, row, after) + Shift(SymbolicationState, day, row, after))
  {
    var day, after := DayOf(prior.receivedAt), row.(release := next.releaseId, state := next.state);
    var a, b := Beside(prior, Found(t, id, prior.resultId)), Beside(next, Found(t, id, next.resultId));
    var search := if b.symbolication.Some? then b.symbolication else a.symbolication;
    ShiftSeesGroups(Release, day, a, b, row, after);
    ShiftSeesGroups(ProcessingState, day, a, b, row, after);
    if prior.state == next.state {
      assert Shift(ProcessingState, day, row, after) == [] && Shift(SymbolicationState, day, row, after) == [];
    } else {
      ShiftSeesGroups(SymbolicationState, day, a.(symbolication := search), b.(symbolication := search), row, after);
    }
  }

  lemma UpdateMoves(t: Tables, id: RowId, prior: Event, next: Event, row: Joined)
    requires Supposes(t, id, prior, next, row)
    ensures Moves(UpdateDeltas(t, id, prior, next), Some(OfEvent(DayOf(prior.receivedAt), row)),
                  Some(Updated(t, id, prior, next, row)))
  {
    var day, other := DayOf(prior.receivedAt), DayOf(next.receivedAt);
    if day != other {
      forall k {
        ToAnotherDayIsNet(day, row, other, Beside(next, Found(t, id, next.resultId)), k);
      }
    } else {
      var after := row.(release := next.releaseId, state := next.state);
      SameDayDeltas(t, id, prior, next, row);
      forall k {
        ThreeShiftsAreNet(Release, ProcessingState, SymbolicationState, day, row, after, k);
      }
    }
  }

  lemma SearchMoves(e: Event, prior: Option<Search>, next: Option<Search>)
    requires !Skips(e, prior, next)
    ensures Moves(SearchDeltas(e, prior, next), Some(OfEvent(DayOf(e.receivedAt), Beside(e, prior))),
                  Some(OfEvent(DayOf(e.receivedAt), Beside(e, next))))
  {
    var day, a, b := DayOf(e.receivedAt), Beside(e, prior), Beside(e, next);
    assert SearchDeltas(e, prior, next)
        == Shift(PlatformArchitecture, day, a, b)
           + (Shift(CrashType, day, a, b) + Shift(SymbolicationState, day, a, b));
    forall k {
      ThreeShiftsAreNet(PlatformArchitecture, CrashType, SymbolicationState, day, a, b, k);
    }
  }

  function IssueView(issue: Option<Issue>): Option<View> {
    if issue.Some? then Some(OfIssue(issue.value)) else None
  }

  function OnDay(day: Option<int>, dimensions: seq<Dimension>, k: RowKey): nat {
    if day == Some(k.day) && k.dimension in dimensions && k.key == "all" then 1 else 0
  }

  lemma {:induction false} IssueDeltasAreNet(day: Option<int>, dimensions: seq<Dimension>, amount: int, k: RowKey)
    requires Distinct(dimensions)
    ensures var hit := OnDay(day, dimensions, k) == 1;
            Net(IssueDeltasOn(day, dimensions, amount), k) == (if hit then amount else 0)
            && Minus(IssueDeltasOn(day, dimensions, amount), k) == (if hit && amount < 0 then -amount else 0)
    decreases |dimensions|
  {
    LeftCuts("all");
    if day.Some? && dimensions != [] {
      IssueDeltasAreNet(day, dimensions[1..], amount, k);
    }
  }

  /** Issues move between days of their first and of their last sighting. */
  lemma DaysMove(before: Option<int>, after: Option<int>, dimensions: seq<Dimension>, k: RowKey)
    requires Distinct(dimensions)
    ensures Net(DayDeltas(before, after, dimensions), k) == OnDay(after, dimensions, k) - OnDay(before, dimensions, k)
    ensures Minus(DayDeltas(before, after, dimensions), k) <= OnDay(before, dimensions, k)
  {
    NetOfBoth(IssueDeltasOn(before, dimensions, -1), IssueDeltasOn(after, dimensions, 1), k);
    IssueDeltasAreNet(before, dimensions, -1, k);
    IssueDeltasAreNet(after, dimensions, 1, k);
  }

  lemma IssueIsOnItsDays(issue: Option<Issue>, k: RowKey)
    ensures One(IssueView(issue), k)
         == OnDay(FirstDay(issue), [IssueTotal, IssueNew], k) + OnDay(RegressedDay(issue), [IssueRegressed], k)
  {
  }

  lemma IssueMoves(prior: Option<Issue>, next: Option<Issue>)
    ensures Moves(IssueDeltas(prior, next), IssueView(prior), IssueView(next))
  {
    forall k
      ensures Net(IssueDeltas(prior, next), k) == One(IssueView(next), k) - One(IssueView(prior), k)
      ensures Minus(IssueDeltas(prior, next), k) <= One(IssueView(prior), k)
    {
      DaysMove(FirstDay(prior), FirstDay(next), [IssueTotal, IssueNew], k);
      DaysMove(RegressedDay(prior), RegressedDay(next), [IssueRegressed], k);
      NetOfBoth(DayDeltas(FirstDay(prior), FirstDay(next), [IssueTotal, IssueNew]),
                DayDeltas(RegressedDay(prior), RegressedDay(next), [IssueRegressed]), k);
      IssueIsOnItsDays(prior, k);
      IssueIsOnItsDays(next, k);
    }
  }

  // ---------- transactions ----------

  datatype Store = Store(t: Tables, cache: Cache)

  function InsertEvent(s: Store, id: RowId, e: Event): Store {
    var t := s.t.(events := s.t.events[id := e]);
    Store(t, ApplyAll(s.cache, InsertDeltas(t, id)))
  }

  function UpdateEvent(s: Store, id: RowId, e: Event): Store
    requires id in s.t.events
  {
    Store(s.t.(events := s.t.events[id := e]), ApplyAll(s.cache, UpdateDeltas(s.t, id, s.t.events[id], e)))
  }

  function DeleteEvent(s: Store, id: RowId): Store
    requires id in s.t.events
  {
    Store(s.t.(events := s.t.events - {id}), ApplyAll(s.cache, DeleteDeltas(s.t, id, s.t.events[id])))
  }

  function SearchAt(t: Tables, id: RowId): Option<Search> {
    if id in t.search then Some(t.search[id]) else None
  }

  /** Insert, update or delete the search row of an event. */
  function PutSearch(s: Store, id: RowId, search: Option<Search>): Store
    requires id in s.t.events
  {
    var t := s.t.(search := if search.Some? then s.t.search[id := search.value] else s.t.search - {id});
    Store(t, ApplyAll(s.cache, SearchDeltas(t.events[id], SearchAt(s.t, id), search)))
  }

  function PutIssue(s: Store, id: RowId, issue: Option<Issue>): Store {
    var before := if id in s.t.issues then Some(s.t.issues[id]) else None;
    Store(s.t.(issues := if issue.Some? then s.t.issues[id := issue.value] else s.t.issues - {id}),
          ApplyAll(s.cache, IssueDeltas(before, issue)))
  }

  /** Publishing a result writes the search row, then the release of the event, then its result and state. */
  datatype Transaction =
    | Ingest(id: RowId, event: Event)
    | SetEvent(id: RowId, event: Event)
    | Publish(id: RowId, search: Search, release: Option<string>, state: string)
    | Remove(id: RowId)
    | SetIssue(id: RowId, issue: Option<Issue>)
    | AddRelease(name: string)
    | RepairOf(day: int, cache: Cache)

  predicate EventInSync(t: Tables, id: RowId)
    requires id in t.events
  {
    var e := t.events[id];
    (e.releaseId.Some? ==> e.releaseId.value in t.releases)
    && (if id in t.search then e.resultId == Some(t.search[id].resultId) else e.resultId.None?)
  }

  /** Every event with a result has the search row of that result and no other event has one; releases exist. */
  predicate InSync(t: Tables) {
    && t.search.Keys <= t.events.Keys
    && forall id :: id in t.events ==> EventInSync(t, id)
  }

  predicate ReleaseExists(t: Tables, release: Option<string>) {
    release.Some? ==> release.value in t.releases
  }

  /** A repair makes its day exact and leaves the other days alone. */
  ghost predicate Enabled(s: Store, x: Transaction) {
    match x
    case Ingest(id, e) => id !in s.t.events && e.resultId.None? && ReleaseExists(s.t, e.releaseId)
    case SetEvent(id, e) =>
      id in s.t.events && e.resultId == s.t.events[id].resultId && ReleaseExists(s.t, e.releaseId)
    case Publish(id, _, release, _) => id in s.t.events && ReleaseExists(s.t, release)
    case Remove(id) => id in s.t.events
    case SetIssue(_, _) => true
    case AddRelease(_) => true
    case RepairOf(day, cache) => DayIsExact(s.t, cache, day) && SameOutside(s.cache, cache, day, day)
  }

  function PublishResult(s: Store, id: RowId, search: Search, release: Option<string>, state: string): Store
    requires id in s.t.events
  {
    var searched := PutSearch(s, id, Some(search));
    var mapped := UpdateEvent(searched, id, s.t.events[id].(releaseId := release));
    UpdateEvent(mapped, id, mapped.t.events[id].(resultId := Some(search.resultId), state := state))
  }

  ghost function Apply(s: Store, x: Transaction): Store
    requires Enabled(s, x)
  {
    match x
    case Ingest(id, e) => InsertEvent(s, id, e)
    case SetEvent(id, e) => UpdateEvent(s, id, e)
    case Publish(id, search, release, state) => PublishResult(s, id, search, release, state)
    case Remove(id) => DeleteEvent(PutSearch(s, id, None), id)
    case SetIssue(id, issue) => PutIssue(s, id, issue)
    case AddRelease(name) => s.(t := s.t.(releases := s.t.releases + {name}))
    case RepairOf(_, cache) => s.(cache := cache)
  }

  lemma StepKeepsSync(s: Store, x: Transaction)
    requires InSync(s.t) && Enabled(s, x)
    ensures InSync(Apply(s, x).t)
  {
    var t := Apply(s, x).t;
    forall id | id in t.events ensures EventInSync(t, id) {
      if id in s.t.events {
        assert EventInSync(s.t, id);
      }
    }
  }

  /** Between the statements of a transaction the cache counts the other events and issues by the tables, and the
      event at hand by this view. */
  ghost predicate AheadOfTables(s: Store, id: RowId, view: Option<View>, day: int) {
    Tallied(Put(EventViews(s.t), id, view), IssueViews(s.t), s.cache, day)
  }

  lemma NotAhead(s: Store, id: RowId, day: int)
    ensures AheadOfTables(s, id, ViewAt(EventViews(s.t), id), day) <==> DayIsCounted(s.t, s.cache, day)
  {
    assert Put(EventViews(s.t), id, ViewAt(EventViews(s.t), id)) == EventViews(s.t);
    TalliedIsCounted(s.t, s.cache, day);
  }

  ghost predicate SameEvent(t: Tables, u: Tables, id: RowId) {
    (id in t.events <==> id in u.events) && (id in t.search <==> id in u.search)
    && (id in t.events ==> t.events[id] == u.events[id]) && (id in t.search ==> t.search[id] == u.search[id])
  }

  ghost predicate SameBut(t: Tables, u: Tables, id: RowId) {
    t.issues == u.issues && t.releases == u.releases && forall other :: other != id ==> SameEvent(t, u, other)
  }

  lemma OtherViews(t: Tables, u: Tables, id: RowId, view: Option<View>)
    requires SameBut(t, u, id)
    ensures Put(EventViews(t), id, view) == Put(EventViews(u), id, view) && IssueViews(t) == IssueViews(u)
  {
    forall other | other != id
      ensures (other in EventViews(t) <==> other in EventViews(u))
      ensures other in EventViews(t) ==> EventViews(t)[other] == EventViews(u)[other]
    {
      assert SameEvent(t, u, other);
    }
  }

  /** One statement on the event `id`: the deltas of its trigger carry the cache from one view to the next. */
  lemma Statement(s: Store, u: Tables, id: RowId, before: Option<View>, after: Option<View>, ds: seq<Delta>, day: int)
    requires AheadOfTables(s, id, before, day) && Moves(ds, before, after) && SameBut(s.t, u, id)
    ensures AheadOfTables(Store(u, ApplyAll(s.cache, ds)), id, after, day)
  {
    var views := Put(EventViews(s.t), id, before);
    OtherViews(s.t, u, id, after);
    MoveEvent(views, IssueViews(s.t), s.cache, day, id, after, ds);
    assert Put(views, id, after) == Put(EventViews(s.t), id, after);
  }

  // ---------- every transaction keeps the counts ----------

  lemma JoinIsBeside(t: Tables, id: RowId)
    requires id in t.events && EventInSync(t, id)
    ensures Join(t, id) == Beside(t.events[id], SearchAt(t, id))
    ensures Join(t, id) == Beside(t.events[id], Found(t, id, t.events[id].resultId))
  {
  }

  lemma IngestKeepsCounts(s: Store, id: RowId, e: Event, day: int)
    requires Enabled(s, Ingest(id, e)) && DayIsCounted(s.t, s.cache, day)
    ensures DayIsCounted(InsertEvent(s, id, e).t, InsertEvent(s, id, e).cache, day)
  {
    var u := InsertEvent(s, id, e).t;
    var at := DayOf(e.receivedAt);
    NotAhead(s, id, day);
    WholeEventMoves(at, Join(u, id), 1);
    Statement(s, u, id, None, Some(OfEvent(at, Join(u, id))), InsertDeltas(u, id), day);
    NotAhead(InsertEvent(s, id, e), id, day);
  }

  lemma UpdateStatement(s: Store, id: RowId, e: Event, row: Joined, day: int)
    requires id in s.t.events && Supposes(s.t, id, s.t.events[id], e, row)
    requires AheadOfTables(s, id, Some(OfEvent(DayOf(s.t.events[id].receivedAt), row)), day)
    ensures AheadOfTables(UpdateEvent(s, id, e), id, Some(Updated(s.t, id, s.t.events[id], e, row)), day)
  {
    var prior := s.t.events[id];
    UpdateMoves(s.t, id, prior, e, row);
    Statement(s, UpdateEvent(s, id, e).t, id, Some(OfEvent(DayOf(prior.receivedAt), row)),
              Some(Updated(s.t, id, prior, e, row)), UpdateDeltas(s.t, id, prior, e), day);
  }

  lemma SearchStatement(s: Store, id: RowId, search: Option<Search>, day: int)
    requires id in s.t.events && EventInSync(s.t, id) && DayIsCounted(s.t, s.cache, day)
    ensures var e := s.t.events[id];
            AheadOfTables(PutSearch(s, id, search), id, Some(OfEvent(DayOf(e.receivedAt), Beside(e, search))), day)
  {
    var e := s.t.events[id];
    NotAhead(s, id, day);
    JoinIsBeside(s.t, id);
    SearchMoves(e, SearchAt(s.t, id), search);
    Statement(s, PutSearch(s, id, search).t, id, ViewAt(EventViews(s.t), id),
              Some(OfEvent(DayOf(e.receivedAt), Beside(e, search))), SearchDeltas(e, SearchAt(s.t, id), search), day);
  }

  lemma SetEventKeepsCounts(s: Store, id: RowId, e: Event, day: int)
    requires InSync(s.t) && Enabled(s, SetEvent(id, e)) && DayIsCounted(s.t, s.cache, day)
    ensures DayIsCounted(UpdateEvent(s, id, e).t, UpdateEvent(s, id, e).cache, day)
  {
    var u := UpdateEvent(s, id, e);
    StepKeepsSync(s, SetEvent(id, e));
    assert EventInSync(s.t, id) && EventInSync(u.t, id);
    JoinIsBeside(s.t, id);
    JoinIsBeside(u.t, id);
    NotAhead(s, id, day);
    UpdateStatement(s, id, e, Join(s.t, id), day);
    NotAhead(u, id, day);
  }

  lemma PublishKeepsCounts(s: Store, id: RowId, search: Search, release: Option<string>, state: string, day: int)
    requires InSync(s.t) && Enabled(s, Publish(id, search, release, state)) && DayIsCounted(s.t, s.cache, day)
    ensures var u := PublishResult(s, id, search, release, state); DayIsCounted(u.t, u.cache, day)
  {
    var e := s.t.events[id];
    assert EventInSync(s.t, id);
    SearchStatement(s, id, Some(search), day);
    var searched := PutSearch(s, id, Some(search));
    var mapped := UpdateEvent(searched, id, e.(releaseId := release));
    UpdateStatement(searched, id, e.(releaseId := release), Beside(e, Some(search)), day);
    var last := mapped.t.events[id].(resultId := Some(search.resultId), state := state);
    UpdateStatement(mapped, id, last, Beside(e.(releaseId := release), Some(search)), day);
    var u := PublishResult(s, id, search, release, state);
    StepKeepsSync(s, Publish(id, search, release, state));
    assert EventInSync(u.t, id);
    JoinIsBeside(u.t, id);
    NotAhead(u, id, day);
  }

  lemma RemoveKeepsCounts(s: Store, id: RowId, day: int)
    requires InSync(s.t) && Enabled(s, Remove(id)) && DayIsCounted(s.t, s.cache, day)
    ensures var u := DeleteEvent(PutSearch(s, id, None), id); DayIsCounted(u.t, u.cache, day)
  {
    var e := s.t.events[id];
    assert EventInSync(s.t, id);
    SearchStatement(s, id, None, day);
    var bare := PutSearch(s, id, None);
    var u := DeleteEvent(bare, id);
    WholeEventMoves(DayOf(e.receivedAt), Beside(e, None), -1);
    Statement(bare, u.t, id, Some(OfEvent(DayOf(e.receivedAt), Beside(e, None))), None, DeleteDeltas(bare.t, id, e),
              day);
    NotAhead(u, id, day);
  }

  lemma SetIssueKeepsCounts(s: Store, id: RowId, issue: Option<Issue>, day: int)
    requires DayIsCounted(s.t, s.cache, day)
    ensures DayIsCounted(PutIssue(s, id, issue).t, PutIssue(s, id, issue).cache, day)
  {
    var before := if id in s.t.issues then Some(s.t.issues[id]) else None;
    var u := PutIssue(s, id, issue);
    IssueMoves(before, issue);
    TalliedIsCounted(s.t, s.cache, day);
    MoveIssue(EventViews(s.t), IssueViews(s.t), s.cache, day, id, IssueView(issue), IssueDeltas(before, issue));
    assert EventViews(u.t) == EventViews(s.t);
    assert IssueViews(u.t) == Put(IssueViews(s.t), id, IssueView(issue));
    TalliedIsCounted(u.t, u.cache, day);
  }

  lemma AddReleaseKeepsCounts(s: Store, name: string, day: int)
    requires InSync(s.t) && DayIsCounted(s.t, s.cache, day)
    ensures DayIsCounted(Apply(s, AddRelease(name)).t, s.cache, day)
  {
    var u := Apply(s, AddRelease(name)).t;
    forall id | id in s.t.events ensures Join(u, id) == Join(s.t, id) {
      assert EventInSync(s.t, id);
    }
    assert EventViews(u) == EventViews(s.t) && IssueViews(u) == IssueViews(s.t);
    TalliedIsCounted(s.t, s.cache, day);
    TalliedIsCounted(u, s.cache, day);
  }

  lemma RepairKeepsCounts(s: Store, repaired: int, cache: Cache, day: int)
    requires Enabled(s, RepairOf(repaired, cache)) && DayIsCounted(s.t, s.cache, day)
    ensures DayIsCounted(s.t, cache, day)
  {
    if day == repaired {
      ExactDaysAreCounted(s.t, cache, day);
    } else {
      forall dimension, key ensures CellOf(cache, RowKey(day, dimension, key)) == DayCount(s.t, day, dimension, key) {
        assert SameAt(s.cache, cache, RowKey(day, dimension, key));
        assert CellOf(s.cache, RowKey(day, dimension, key)) == DayCount(s.t, day, dimension, key);
      }
    }
  }

  /** Every transaction keeps every day that is counted, whatever the cache holds for other days. */
  lemma StepKeepsCounts(s: Store, x: Transaction, day: int)
    requires InSync(s.t) && Enabled(s, x) && DayIsCounted(s.t, s.cache, day)
    ensures DayIsCounted(Apply(s, x).t, Apply(s, x).cache, day)
  {
    match x
    case Ingest(id, e) => IngestKeepsCounts(s, id, e, day);
    case SetEvent(id, e) => SetEventKeepsCounts(s, id, e, day);
    case Publish(id, search, release, state) => PublishKeepsCounts(s, id, search, release, state, day);
    case Remove(id) => RemoveKeepsCounts(s, id, day);
    case SetIssue(id, issue) => SetIssueKeepsCounts(s, id, issue, day);
    case AddRelease(name) => AddReleaseKeepsCounts(s, name, day);
    case RepairOf(repaired, cache) => RepairKeepsCounts(s, repaired, cache, day);
  }

  ghost predicate ValidRun(s: Store, xs: seq<Transaction>)
    decreases |xs|
  {
    xs == [] || (Enabled(s, xs[0]) && ValidRun(Apply(s, xs[0]), xs[1..]))
  }

  ghost function Run(s: Store, xs: seq<Transaction>): Store
    requires ValidRun(s, xs)
    decreases |xs|
  {
    if xs == [] then s else Run(Apply(s, xs[0]), xs[1..])
  }

  /** A day that is counted once, by a repair or because nothing was there yet, is counted after any run. */
  lemma {:induction false} RunKeepsCounts(s: Store, xs: seq<Transaction>, day: int)
    requires InSync(s.t) && ValidRun(s, xs) && DayIsCounted(s.t, s.cache, day)
    ensures DayIsCounted(Run(s, xs).t, Run(s, xs).cache, day)
    decreases |xs|
  {
    if xs != [] {
      StepKeepsSync(s, xs[0]);
      StepKeepsCounts(s, xs[0], day);
      RunKeepsCounts(Apply(s, xs[0]), xs[1..], day);
    }
  }

  // ---------- which rows are there ----------

  /** No row of the day stands at zero, but perhaps the regressed one, which a repair always writes. */
  ghost predicate NoZeroRows(cache: Cache, day: int) {
    forall k :: k in cache && k.day == day && k.dimension != IssueRegressed ==> cache[k] > 0
  }

  lemma {:induction false} DeltasLeaveNoZeroRows(cache: Cache, ds: seq<Delta>, day: int)
    requires NoZeroRows(cache, day)
    ensures NoZeroRows(ApplyAll(cache, ds), day)
    decreases |ds|
  {
    if ds != [] {
      var d, next := ds[0], ApplyDelta(cache, ds[0]);
      forall k | k in next && k.day == day && k.dimension != IssueRegressed ensures next[k] > 0 {
        assert k in cache ==> cache[k] > 0;
      }
      DeltasLeaveNoZeroRows(next, ds[1..], day);
    }
  }

  lemma StepLeavesNoZeroRows(s: Store, x: Transaction, day: int)
    requires Enabled(s, x) && NoZeroRows(s.cache, day)
    ensures NoZeroRows(Apply(s, x).cache, day)
  {
    match x
    case Ingest(id, e) => DeltasLeaveNoZeroRows(s.cache, InsertDeltas(InsertEvent(s, id, e).t, id), day);
    case SetEvent(id, e) => DeltasLeaveNoZeroRows(s.cache, UpdateDeltas(s.t, id, s.t.events[id], e), day);
    case Publish(id, search, release, state) =>
      var e := s.t.events[id];
      var searched := PutSearch(s, id, Some(search));
      var mapped := UpdateEvent(searched, id, e.(releaseId := release));
      var last := mapped.t.events[id].(resultId := Some(search.resultId), state := state);
      DeltasLeaveNoZeroRows(s.cache, SearchDeltas(e, SearchAt(s.t, id), Some(search)), day);
      DeltasLeaveNoZeroRows(searched.cache, UpdateDeltas(searched.t, id, e, e.(releaseId := release)), day);
      DeltasLeaveNoZeroRows(mapped.cache, UpdateDeltas(mapped.t, id, mapped.t.events[id], last), day);
    case Remove(id) =>
      var e, bare := s.t.events[id], PutSearch(s, id, None);
      DeltasLeaveNoZeroRows(s.cache, SearchDeltas(e, SearchAt(s.t, id), None), day);
      DeltasLeaveNoZeroRows(bare.cache, DeleteDeltas(bare.t, id, e), day);
    case SetIssue(id, issue) =>
      var before := if id in s.t.issues then Some(s.t.issues[id]) else None;
      DeltasLeaveNoZeroRows(s.cache, IssueDeltas(before, issue), day);
    case AddRelease(_) =>
    case RepairOf(repaired, cache) =>
      forall k | k in cache && k.day == day && k.dimension != IssueRegressed ensures cache[k] > 0 {
        assert day == repaired ==> RowIsExact(s.t, cache, k);
        assert day != repaired ==> SameAt(s.cache, cache, k);
      }
  }

  /** Over any run, a day that was counted without rows at zero has a row exactly for what counts something. */
  lemma {:induction false} RunKeepsRows(s: Store, xs: seq<Transaction>, k: RowKey)
    requires InSync(s.t) && ValidRun(s, xs) && k.dimension != IssueRegressed
    requires DayIsCounted(s.t, s.cache, k.day) && NoZeroRows(s.cache, k.day)
    ensures var u := Run(s, xs);
            (k in u.cache <==> DayCount(u.t, k.day, k.dimension, k.key) > 0)
            && (k in u.cache ==> u.cache[k] == DayCount(u.t, k.day, k.dimension, k.key))
    decreases |xs|
  {
    if xs == [] {
      assert k == RowKey(k.day, k.dimension, k.key);
      assert CellOf(s.cache, RowKey(k.day, k.dimension, k.key)) == DayCount(s.t, k.day, k.dimension, k.key);
    } else {
      StepKeepsSync(s, xs[0]);
      StepKeepsCounts(s, xs[0], k.day);
      StepLeavesNoZeroRows(s, xs[0], k.day);
      RunKeepsRows(Apply(s, xs[0]), xs[1..], k);
    }
  }

  // ---------- what the overview reads after any run ----------

  /** Days that are counted stay right: after any run the rollup branch and the raw branch of the overview agree on the
      tables as they are then, for every key of a dimension, exactly when no key of the window is cut. */
  lemma LiveBranchesAgreeExactlyWhenKeysFit(s: Store, xs: seq<Transaction>, dimension: Dimension, from: int, until: int)
    requires InSync(s.t) && ValidRun(s, xs) && from <= until && IsEventDimension(dimension)
    requires forall day :: from <= day < until ==> DayIsCounted(s.t, s.cache, day)
    ensures var u := Run(s, xs);
            BranchesAgree(u.t, u.cache, dimension, from, until) <==> KeysFit(u.t, dimension, from, until)
  {
    var u := Run(s, xs);
    forall day | from <= day < until ensures DayIsCounted(u.t, u.cache, day) {
      RunKeepsCounts(s, xs, day);
    }
    BranchesAgreeExactlyWhenKeysFit(u.t, u.cache, dimension, from, until);
  }

  /** And a repair of such a day changes no count. */
  lemma RepairOfACountedDayChangesNoCount(t: Tables, cache: Cache, repaired: Cache, k: RowKey)
    requires DayIsCounted(t, cache, k.day) && DayIsExact(t, repaired, k.day)
    ensures CellOf(cache, k) == CellOf(repaired, k)
  {
    assert k == RowKey(k.day, k.dimension, k.key);
    assert CellOf(cache, RowKey(k.day, k.dimension, k.key)) == DayCount(t, k.day, k.dimension, k.key);
    ExactDayCell(t, repaired, k.day, k.dimension, k.key);
  }

  // ---------- what does not keep the counts ----------

  ghost predicate SameCounts(t: Tables, u: Tables, day: int) {
    forall dimension, key :: DayCount(t, day, dimension, key) == DayCount(u, day, dimension, key)
  }

  /** A repair reads its day in one statement and writes it in later ones. It leaves the day counted exactly when
      no other transaction changed a count of the day in between. */
  lemma RepairCountsExactlyWhatItRead(read: Tables, now: Tables, cache: Cache, day: int)
    requires DayIsExact(read, cache, day)
    ensures DayIsCounted(now, cache, day) <==> SameCounts(read, now, day)
  {
    ExactDaysAreCounted(read, cache, day);
    assert forall dimension, key :: CellOf(cache, RowKey(day, dimension, key)) == DayCount(read, day, dimension, key);
  }

  /** An event that is stored between the two is missing from the total of its day. */
  lemma EventDuringARepairIsLost(s: Store, id: RowId, e: Event, cache: Cache)
    requires Enabled(s, Ingest(id, e)) && DayIsExact(s.t, cache, DayOf(e.receivedAt))
    ensures var day, u := DayOf(e.receivedAt), InsertEvent(s, id, e).t;
            CellOf(cache, RowKey(day, EventTotal, "all")) == |EventsOn(u, day)| - 1 && !DayIsCounted(u, cache, day)
  {
    var day, u := DayOf(e.receivedAt), InsertEvent(s, id, e).t;
    ExactDayCell(s.t, cache, day, EventTotal, "all");
    EverythingIsUnderAll(s.t, EventsOn(s.t, day));
    EverythingIsUnderAll(u, EventsOn(u, day));
    assert EventsOn(u, day) == EventsOn(s.t, day) + {id};
    assert DayCount(u, day, EventTotal, "all") == |EventsOn(u, day)|;
  }

  predicate SameCutKeys(t: Tables, u: Tables, id: RowId) {
    forall d :: IsEventDimension(d) ==> CutKey(t, d)(id) == CutKey(u, d)(id)
  }

  function PointAt(s: Store, id: RowId, result: Option<string>): Store
    requires id in s.t.events
  {
    UpdateEvent(s, id, s.t.events[id].(resultId := result))
  }

  /** Both views of an event are counted in the same cells of its day. */
  ghost predicate SameCells(a: View, b: View, day: int) {
    forall k: RowKey {:trigger CountsIn(a, k)} :: k.day == day ==> (CountsIn(a, k) <==> CountsIn(b, k))
  }

  lemma SameCellsSameCutKeys(t: Tables, u: Tables, id: RowId, day: int)
    requires id in t.events && id in u.events
    requires DayOf(t.events[id].receivedAt) == day == DayOf(u.events[id].receivedAt)
    ensures SameCells(EventViews(t)[id], EventViews(u)[id], day) <==> SameCutKeys(t, u, id)
  {
    var a, b := EventViews(t)[id], EventViews(u)[id];
    forall k: RowKey
      ensures CountsIn(a, k) <==> IsEventDimension(k.dimension) && k.day == day && CutKey(t, k.dimension)(id) == k.key
      ensures CountsIn(b, k) <==> IsEventDimension(k.dimension) && k.day == day && CutKey(u, k.dimension)(id) == k.key
    {
      CountedUnderItsCutKey(t, id, k);
      CountedUnderItsCutKey(u, id, k);
    }
    if SameCells(a, b, day) {
      forall d | IsEventDimension(d) ensures CutKey(t, d)(id) == CutKey(u, d)(id) {
        assert CountsIn(a, RowKey(day, d, CutKey(t, d)(id)));
      }
    }
  }

  /** A cache that counts a day with one view of an event counts it with another exactly when both are in the
      same cells. */
  lemma TalliedWithEither(events: Views, issues: Views, cache: Cache, day: int, id: RowId, b: View)
    requires id in events && Tallied(events, issues, cache, day)
    ensures Tallied(events[id := b], issues, cache, day) <==> SameCells(events[id], b, day)
  {
    forall k: RowKey | k.day == day
      ensures CellOf(cache, k) == |Counting(events[id := b], k)| + |Counting(issues, k)|
         <==> (CountsIn(events[id], k) <==> CountsIn(b, k))
    {
      CountingOnePut(events, id, Some(b), k);
      assert CellOf(cache, k) == |Counting(events, k)| + |Counting(issues, k)|;
    }
  }

  /** The update trigger leaves the columns of a result to the search trigger: pointing an event at another result
      without writing its search row keeps the day counted exactly when no key of the event changes by it. */
  lemma ResultAloneKeepsCountsExactly(s: Store, id: RowId, result: Option<string>)
    requires id in s.t.events && DayIsCounted(s.t, s.cache, DayOf(s.t.events[id].receivedAt))
    ensures var u := PointAt(s, id, result);
            DayIsCounted(u.t, u.cache, DayOf(s.t.events[id].receivedAt)) <==> SameCutKeys(s.t, u.t, id)
  {
    var u := PointAt(s, id, result);
    var day := DayOf(s.t.events[id].receivedAt);
    assert UpdateDeltas(s.t, id, s.t.events[id], u.t.events[id]) == [] && u.cache == s.cache;
    TalliedIsCounted(s.t, s.cache, day);
    TalliedIsCounted(u.t, u.cache, day);
    assert EventViews(u.t) == EventViews(s.t)[id := EventViews(u.t)[id]] && IssueViews(u.t) == IssueViews(s.t);
    TalliedWithEither(EventViews(s.t), IssueViews(s.t), s.cache, day, id, EventViews(u.t)[id]);
    SameCellsSameCutKeys(s.t, u.t, id, day);
  }
}
