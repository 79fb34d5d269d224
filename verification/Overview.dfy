/** The project overview read from the rollup cache: window totals, and the distributions with their remainder. */
module Overview {
  import opened Common
  import opened Grouping
  import opened Rollups

  const MAX_DISTRIBUTIONS := 20

  lemma UnionWithoutKey<K>(a: map<K, int>, b: map<K, int>, k: K)
    requires a.Keys !! b.Keys && k in b
    ensures (a + (b - {k}))[k := b[k]] == a + b
    ensures (b - {k})[k := b[k]] == b
    ensures a.Keys !! (b - {k}).Keys && k !in a + (b - {k})
  {
  }

  lemma {:induction false} SumOfUnion<K>(a: map<K, int>, b: map<K, int>)
    requires a.Keys !! b.Keys
    ensures Sum(a + b) == Sum(a) + Sum(b)
    decreases |b|
  {
    if |b| == 0 {
      assert a + b == a;
    } else {
      var k :| k in b;
      UnionWithoutKey(a, b, k);
      var fewer := b - {k};
      SumOfUnion(a, fewer);
      SumOfUpdate(fewer, k, b[k]);
      SumOfUpdate(a + fewer, k, b[k]);
    }
  }

  /** All rows of one dimension in a window. */
  function WindowRows(cache: Cache, dimension: Dimension, from: int, until: int): Cache {
    map k | k in cache && k.dimension == dimension && from <= k.day < until :: cache[k]
  }

  lemma WindowOneMoreDay(cache: Cache, dimension: Dimension, from: int, until: int)
    requires from <= until
    ensures WindowRows(cache, dimension, from, until + 1)
              == WindowRows(cache, dimension, from, until) + DayRows(cache, dimension, until)
    ensures WindowRows(cache, dimension, from, until).Keys !! DayRows(cache, dimension, until).Keys
  {
  }

  lemma RowsOfOneMoreDay(cache: Cache, dimension: Dimension, from: int, until: int)
    requires from <= until
    ensures Sum(WindowRows(cache, dimension, from, until + 1))
         == Sum(WindowRows(cache, dimension, from, until)) + Sum(DayRows(cache, dimension, until))
  {
    WindowOneMoreDay(cache, dimension, from, until);
    SumOfUnion(WindowRows(cache, dimension, from, until), DayRows(cache, dimension, until));
  }

  /** Every distribution over a counted window adds up to the number of events, whatever its keys are. */
  lemma {:induction false} DistributionTotalIsTheEvents(t: Tables, cache: Cache, dimension: Dimension, from: int,
                                                        until: int)
    requires from <= until && IsEventDimension(dimension)
    requires forall day :: from <= day < until ==> DayIsCounted(t, cache, day)
    ensures Sum(WindowRows(cache, dimension, from, until)) == |EventsBetween(t, from, until)|
    decreases until - from
  {
    if from == until {
      assert WindowRows(cache, dimension, from, until) == map[];
      assert EventsBetween(t, from, until) == {};
    } else {
      DistributionTotalIsTheEvents(t, cache, dimension, from, until - 1);
      DayRowsCountTheEvents(t, cache, dimension, until - 1);
      RowsOfOneMoreDay(cache, dimension, from, until - 1);
      EventsOneMoreDay(t, from, until - 1);
    }
  }

  /** Without a window: `sum(count) WHERE dimension = d AND key = k` over every cached day. */
  ghost function AllTimeTotal(cache: Cache, dimension: Dimension, key: string): int {
    Sum(map k | k in cache && k.dimension == dimension && k.key == key :: cache[k])
  }

  lemma AllTimeIsWindowed(cache: Cache, dimension: Dimension, key: string, from: int, until: int)
    requires forall k :: k in cache ==> from <= k.day < until
    ensures AllTimeTotal(cache, dimension, key) == CachedTotal(cache, dimension, key, from, until)
  {
    assert Cells(cache, dimension, key, from, until) == map k | k in cache && k.dimension == dimension
           && k.key == key :: cache[k];
  }

  /** The number of issues read from the cache is the number of issues, once every day that has any is counted. */
  lemma AllIssuesAreCounted(t: Tables, cache: Cache, from: int, until: int)
    requires from <= until && forall day :: from <= day < until ==> DayIsCounted(t, cache, day)
    requires forall k :: k in cache ==> from <= k.day < until
    requires forall id :: id in t.issues ==> from <= DayOf(t.issues[id].firstSeenAt) < until
    ensures AllTimeTotal(cache, IssueTotal, "all") == |t.issues|
  {
    AllTimeIsWindowed(cache, IssueTotal, "all", from, until);
    IssueTotalsAgree(t, cache, IssueTotal, from, until);
    forall id | id in t.issues ensures id in IssuesBetween(t, IssueTotal, from, until) {
      WindowBounds(t.issues[id].firstSeenAt, from, until);
    }
    assert IssuesBetween(t, IssueTotal, from, until) == t.issues.Keys;
  }

  function InState(t: Tables, state: string): set<RowId> {
    set id | id in t.events && t.events[id].state == state
  }

  lemma StateIsItsKey(t: Tables, state: string)
    requires forall id :: id in t.events ==> |t.events[id].state| <= MAX_KEY_CHARS
    ensures Under(t, ProcessingState, state, t.events.Keys) == InState(t, state)
  {
    forall id | id in t.events ensures CutKey(t, ProcessingState)(id) == t.events[id].state {
      assert RawKey(t, ProcessingState, id) == t.events[id].state;
      CutKeyOf(t, ProcessingState, id);
    }
  }

  lemma WindowOfEverything(t: Tables, from: int, until: int)
    requires forall id :: id in t.events ==> from <= DayOf(t.events[id].receivedAt) < until
    ensures EventsBetween(t, from, until) == t.events.Keys
  {
    forall id | id in t.events ensures id in EventsBetween(t, from, until) {
      WindowBounds(t.events[id].receivedAt, from, until);
    }
  }

  /** The events in a processing state read from the cache are the events in that state. */
  lemma AllStatesAreCounted(t: Tables, cache: Cache, state: string, from: int, until: int)
    requires from <= until && forall day :: from <= day < until ==> DayIsCounted(t, cache, day)
    requires forall k :: k in cache ==> from <= k.day < until
    requires forall id :: id in t.events ==>
              from <= DayOf(t.events[id].receivedAt) < until && |t.events[id].state| <= MAX_KEY_CHARS
    ensures AllTimeTotal(cache, ProcessingState, state) == |InState(t, state)|
  {
    AllTimeIsWindowed(cache, ProcessingState, state, from, until);
    CachedTotalCountsCutKeys(t, cache, ProcessingState, state, from, until);
    WindowOfEverything(t, from, until);
    StateIsItsKey(t, state);
  }

  // ---------- the first twenty keys and the rest ----------

  datatype Bar = Bar(key: string, count: int)

  function BarSum(bars: seq<Bar>): int {
    if bars == [] then 0 else BarSum(bars[..|bars| - 1]) + bars[|bars| - 1].count
  }

  predicate BarsOf(bars: seq<Bar>, totals: map<string, int>) {
    && (forall i, j :: 0 <= i < j < |bars| ==> bars[i].key != bars[j].key)
    && (forall b :: b in bars ==> b.key in totals && totals[b.key] == b.count)
  }

  function Shown(bars: seq<Bar>): set<string> {
    set b | b in bars :: b.key
  }

  lemma ShownOneMore(bars: seq<Bar>, totals: map<string, int>)
    requires BarsOf(bars, totals) && bars != []
    ensures var rest, last := bars[..|bars| - 1], bars[|bars| - 1];
            BarsOf(rest, totals) && Shown(bars) == Shown(rest) + {last.key} && last.key !in Shown(rest)
  {
    var rest, last := bars[..|bars| - 1], bars[|bars| - 1];
    assert bars == rest + [last];
    forall b | b in rest ensures b.key != last.key {
      var i :| 0 <= i < |rest| && bars[i] == b;
    }
  }

  lemma {:induction false} ShownAndRest(bars: seq<Bar>, totals: map<string, int>)
    requires BarsOf(bars, totals)
    ensures Sum(totals) == BarSum(bars) + Sum(totals - Shown(bars))
    decreases |bars|
  {
    if bars == [] {
      assert totals - Shown(bars) == totals;
    } else {
      var rest, last := bars[..|bars| - 1], bars[|bars| - 1];
      ShownOneMore(bars, totals);
      ShownAndRest(rest, totals);
      assert last.key in totals - Shown(rest);
      SumTakesAnyKey(totals - Shown(rest), last.key);
      assert totals - Shown(rest) - {last.key} == totals - Shown(bars);
    }
  }

  lemma {:induction false} SumIsNotNegative<K>(m: map<K, int>)
    requires forall k :: k in m ==> m[k] >= 0
    ensures Sum(m) >= 0
    decreases |m|
  {
    if m != map[] {
      var k :| k in m;
      SumTakesAnyKey(m, k);
      SumIsNotNegative(m - {k});
    }
  }

  lemma {:induction false} ShownSize(shown: seq<Bar>, totals: map<string, int>)
    requires BarsOf(shown, totals)
    ensures Shown(shown) <= totals.Keys && |Shown(shown)| == |shown|
    decreases |shown|
  {
    if shown == [] {
      assert Shown(shown) == {};
    } else {
      ShownOneMore(shown, totals);
      ShownSize(shown[..|shown| - 1], totals);
    }
  }

  lemma RestIsEmpty(shown: seq<Bar>, totals: map<string, int>)
    requires BarsOf(shown, totals) && |shown| == |totals|
    ensures totals - Shown(shown) == map[]
  {
    ShownSize(shown, totals);
    SubsetSize(Shown(shown), totals.Keys);
  }

  /** Twenty bars, whether there were more, and the count of the keys that are not shown. */
  method DistributionRows(rows: seq<Bar>, total: int, ghost totals: map<string, int>)
    returns (shown: seq<Bar>, truncated: bool, other: int)
    requires BarsOf(rows, totals) && (forall k :: k in totals ==> totals[k] > 0)
    requires |rows| == MinInt(|totals|, MAX_DISTRIBUTIONS + 1) && (rows != [] ==> total == Sum(totals))
    ensures shown == rows[..MinInt(|rows|, MAX_DISTRIBUTIONS)]
    ensures |shown| == MinInt(|totals|, 20) && (truncated <==> |totals| > 20)
    ensures other == Sum(totals - Shown(shown))
    ensures BarSum(shown) + other == Sum(totals)
    ensures truncated <==> other > 0
  {
    truncated := |rows| > MAX_DISTRIBUTIONS;
    shown := [];
    var displayed := 0;
    while |shown| < MinInt(|rows|, MAX_DISTRIBUTIONS)
      invariant |shown| <= MinInt(|rows|, MAX_DISTRIBUTIONS) && shown == rows[..|shown|]
      invariant displayed == BarSum(shown)
      decreases |rows| - |shown|
    {
      var next := rows[|shown|];
      assert (shown + [next])[..|shown|] == shown;
      displayed := displayed + next.count;
      shown := shown + [next];
    }
    ShownAndRest(shown, totals);
    SumIsNotNegative(totals - Shown(shown));
    var all := if rows == [] then 0 else total;
    other := if all - displayed > 0 then all - displayed else 0;
    if !truncated {
      RestIsEmpty(shown, totals);
    }
    if rows == [] {
      assert totals == map[];
    }
    if truncated {
      var hidden := rows[MAX_DISTRIBUTIONS].key;
      assert hidden in totals - Shown(shown);
      SumTakesAnyKey(totals - Shown(shown), hidden);
      SumIsNotNegative(totals - Shown(shown) - {hidden});
    }
  }
}
