/** `GROUP BY`: counting rows by group, summing counts again by a coarser group, and why the two stages are one. */
module Grouping {
  import opened Common

  function Image<E, G>(rows: set<E>, f: E -> G): set<G> {
    set e | e in rows :: f(e)
  }

  function Fiber<E, G(==)>(rows: set<E>, f: E -> G, g: G): set<E> {
    set e | e in rows && f(e) == g
  }

  /** `SELECT f, count(*) GROUP BY f`. */
  function CountBy<E, G(==)>(rows: set<E>, f: E -> G): map<G, int> {
    map g | g in Image(rows, f) :: |Fiber(rows, f, g)|
  }

  function Where<G>(counts: map<G, int>, q: G -> bool): map<G, int> {
    map g | g in counts && q(g) :: counts[g]
  }

  /** `SELECT h, sum(count) GROUP BY h`. */
  ghost function SumBy<G, H>(counts: map<G, int>, h: G -> H): map<H, int> {
    map k | k in Image(counts.Keys, h) :: Sum(Where(counts, g => h(g) == k))
  }

  lemma FiberOneMore<E, G>(rows: set<E>, e: E, f: E -> G, g: G)
    requires e in rows
    ensures |Fiber(rows, f, g)| == |Fiber(rows - {e}, f, g)| + if g == f(e) then 1 else 0
  {
    if g == f(e) {
      assert Fiber(rows, f, g) == Fiber(rows - {e}, f, g) + {e};
    } else {
      assert Fiber(rows, f, g) == Fiber(rows - {e}, f, g);
    }
  }

  lemma ImageIsNonEmptyFiber<E, G>(rows: set<E>, f: E -> G, g: G)
    ensures g in Image(rows, f) <==> Fiber(rows, f, g) != {}
  {
    if g in Image(rows, f) {
      var e :| e in rows && f(e) == g;
      assert e in Fiber(rows, f, g);
    }
    if Fiber(rows, f, g) != {} {
      var e :| e in Fiber(rows, f, g);
      assert e in rows && f(e) == g;
    }
  }

  lemma FiberOfUnion<E, G>(a: set<E>, b: set<E>, f: E -> G, g: G)
    requires a !! b
    ensures |Fiber(a + b, f, g)| == |Fiber(a, f, g)| + |Fiber(b, f, g)|
  {
    assert Fiber(a + b, f, g) == Fiber(a, f, g) + Fiber(b, f, g);
  }

  function CountOf<G(==)>(counts: map<G, int>, g: G): int {
    if g in counts then counts[g] else 0
  }

  /** The count of a group is the size of its fiber, absent groups counting as zero. */
  lemma CountIsFiber<E, G>(rows: set<E>, f: E -> G, g: G)
    ensures CountOf(CountBy(rows, f), g) == |Fiber(rows, f, g)|
    ensures g in CountBy(rows, f) <==> |Fiber(rows, f, g)| > 0
  {
    ImageIsNonEmptyFiber(rows, f, g);
  }

  lemma CountByOneMore<E, G>(rows: set<E>, e: E, f: E -> G)
    requires e in rows
    ensures CountBy(rows, f) == var fewer := CountBy(rows - {e}, f); fewer[f(e) := 1 + CountOf(fewer, f(e))]
  {
    var fewer, all := CountBy(rows - {e}, f), CountBy(rows, f);
    var updated := fewer[f(e) := 1 + CountOf(fewer, f(e))];
    forall g ensures g in all <==> g in updated {
      CountIsFiber(rows, f, g);
      CountIsFiber(rows - {e}, f, g);
      FiberOneMore(rows, e, f, g);
    }
    forall g | g in all ensures all[g] == updated[g] {
      CountIsFiber(rows, f, g);
      CountIsFiber(rows - {e}, f, g);
      FiberOneMore(rows, e, f, g);
    }
  }

  function Selected<E, G>(rows: set<E>, f: E -> G, q: G -> bool): set<E> {
    set e | e in rows && q(f(e))
  }

  lemma WhereOfUpdate<G>(counts: map<G, int>, g: G, v: int, q: G -> bool)
    ensures Where(counts[g := v], q) == if q(g) then Where(counts, q)[g := v] else Where(counts, q)
  {
  }

  lemma SelectedOneMore<E, G>(rows: set<E>, e: E, f: E -> G, q: G -> bool)
    requires e in rows
    ensures |Selected(rows, f, q)| == |Selected(rows - {e}, f, q)| + if q(f(e)) then 1 else 0
  {
    if q(f(e)) {
      assert Selected(rows, f, q) == Selected(rows - {e}, f, q) + {e};
    } else {
      assert Selected(rows, f, q) == Selected(rows - {e}, f, q);
    }
  }

  lemma SumOneMore<G>(fewer: map<G, int>, g: G, q: G -> bool)
    ensures Sum(Where(fewer[g := 1 + CountOf(fewer, g)], q)) == Sum(Where(fewer, q)) + if q(g) then 1 else 0
  {
    var count := 1 + CountOf(fewer, g);
    WhereOfUpdate(fewer, g, count, q);
    if q(g) {
      SumOfUpdate(Where(fewer, q), g, count);
    }
  }

  lemma NoRowsNoCounts<E, G>(rows: set<E>, f: E -> G, q: G -> bool)
    requires rows == {}
    ensures Sum(Where(CountBy(rows, f), q)) == |Selected(rows, f, q)|
  {
    assert Where(CountBy(rows, f), q) == map[];
  }

  /** The counts of the groups in `q` add up to the number of rows in `q`. */
  lemma {:induction false} SumOfCounts<E, G>(rows: set<E>, f: E -> G, q: G -> bool)
    ensures Sum(Where(CountBy(rows, f), q)) == |Selected(rows, f, q)|
    decreases |rows|
  {
    if rows == {} {
      NoRowsNoCounts(rows, f, q);
    } else {
      var e :| e in rows;
      SumOfCounts(rows - {e}, f, q);
      CountByOneMore(rows, e, f);
      SumOneMore(CountBy(rows - {e}, f), f(e), q);
      SelectedOneMore(rows, e, f, q);
    }
  }

  lemma SumOfAllCounts<E, G>(rows: set<E>, f: E -> G)
    ensures Sum(CountBy(rows, f)) == |rows|
  {
    var always := (g: G) => true;
    SumOfCounts(rows, f, always);
    assert Selected(rows, f, always) == rows;
    assert Where(CountBy(rows, f), always) == CountBy(rows, f);
  }

  predicate IsCountOf<E, G(==)>(counts: map<G, int>, rows: set<E>, f: E -> G, g: G) {
    && (g in counts <==> |Fiber(rows, f, g)| > 0)
    && (g in counts ==> counts[g] == |Fiber(rows, f, g)|)
  }

  lemma FibersDetermineCounts<E, G(!new)>(counts: map<G, int>, rows: set<E>, f: E -> G)
    requires forall g :: IsCountOf(counts, rows, f, g)
    ensures counts == CountBy(rows, f)
  {
    forall g ensures (g in counts <==> g in CountBy(rows, f)) && (g in counts ==> counts[g] == CountBy(rows, f)[g]) {
      assert IsCountOf(counts, rows, f, g);
      CountIsFiber(rows, f, g);
    }
  }

  /** Grouping finely and summing up coarsely is grouping coarsely. */
  lemma TwoStagesAreOne<E, G, H>(rows: set<E>, f: E -> G, h: G -> H, composed: E -> H)
    requires forall e :: e in rows ==> composed(e) == h(f(e))
    ensures SumBy(CountBy(rows, f), h) == CountBy(rows, composed)
  {
    var fine := CountBy(rows, f);
    assert fine.Keys == Image(rows, f);
    forall k ensures k in Image(fine.Keys, h) <==> k in Image(rows, composed) {
      if k in Image(rows, composed) {
        var e :| e in rows && composed(e) == k;
        assert f(e) in fine.Keys;
      }
      if k in Image(fine.Keys, h) {
        var g :| g in fine.Keys && h(g) == k;
        var e :| e in rows && f(e) == g;
        assert composed(e) == k;
      }
    }
    forall k | k in Image(rows, composed) ensures SumBy(fine, h)[k] == |Fiber(rows, composed, k)| {
      assert k in Image(fine.Keys, h);
      var q := g => h(g) == k;
      SumOfCounts(rows, f, q);
      assert Selected(rows, f, q) == Fiber(rows, composed, k);
    }
  }

  function Into<G, H(==)>(h: G -> H, k: H): G -> bool {
    g => h(g) == k
  }

  lemma SumByAt<G, H>(counts: map<G, int>, h: G -> H, k: H)
    ensures CountOf(SumBy(counts, h), k) == Sum(Where(counts, Into(h, k)))
  {
    assert Where(counts, Into(h, k)) == Where(counts, g => h(g) == k);
    if k !in Image(counts.Keys, h) {
      assert Where(counts, Into(h, k)) == map[];
    }
  }

  lemma SumByOneMore<G, H>(counts: map<G, int>, g: G, v: int, h: G -> H)
    requires g !in counts
    ensures SumBy(counts[g := v], h) == var sums := SumBy(counts, h); sums[h(g) := v + CountOf(sums, h(g))]
  {
    var more, sums := SumBy(counts[g := v], h), SumBy(counts, h);
    assert Image(counts[g := v].Keys, h) == Image(counts.Keys, h) + {h(g)};
    forall k | k in more ensures more[k] == if k == h(g) then v + CountOf(sums, k) else sums[k] {
      SumByAt(counts[g := v], h, k);
      SumByAt(counts, h, k);
      WhereOfUpdate(counts, g, v, Into(h, k));
      if k == h(g) {
        SumOfUpdate(Where(counts, Into(h, k)), g, v);
      }
    }
  }

  /** What is grouped so far when the groups in `left` are still to come. */
  function Taken<G>(counts: map<G, int>, left: set<G>): map<G, int> {
    map g | g in counts && g !in left :: counts[g]
  }

  lemma TakeOneMore<G>(counts: map<G, int>, left: set<G>, g: G)
    requires g in left && g in counts
    ensures Taken(counts, left - {g}) == Taken(counts, left)[g := counts[g]] && g !in Taken(counts, left)
  {
  }

  lemma SumGroupsStep<G, H>(counts: map<G, int>, left: set<G>, g: G, h: G -> H, sums: map<H, int>)
    requires g in left && g in counts && sums == SumBy(Taken(counts, left), h)
    ensures sums[h(g) := counts[g] + CountOf(sums, h(g))] == SumBy(Taken(counts, left - {g}), h)
  {
    TakeOneMore(counts, left, g);
    SumByOneMore(Taken(counts, left), g, counts[g], h);
  }

  lemma TakenAtTheEnds<G, H>(counts: map<G, int>, h: G -> H)
    ensures SumBy(Taken(counts, counts.Keys), h) == map[]
    ensures SumBy(Taken(counts, {}), h) == SumBy(counts, h)
  {
    assert Taken(counts, counts.Keys) == map[];
    assert Taken(counts, {}) == counts;
  }

  method SumGroups<G(==), H(==)>(counts: map<G, int>, h: G -> H) returns (sums: map<H, int>)
    ensures sums == SumBy(counts, h)
  {
    TakenAtTheEnds(counts, h);
    var left := counts.Keys;
    sums := map[];
    while left != {}
      invariant left <= counts.Keys
      invariant sums == SumBy(Taken(counts, left), h)
      decreases left
    {
      var g :| g in left;
      SumGroupsStep(counts, left, g, h, sums);
      sums := sums[h(g) := counts[g] + CountOf(sums, h(g))];
      left := left - {g};
    }
  }
}
