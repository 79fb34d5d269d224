/** Sorting and deduplicating by a strict total order, and why the outcome is unique. */
module Ordering {
  import opened Common

  ghost predicate StrictTotal<T(!new)>(before: (T, T) -> bool) {
    && (forall a, b :: a == b || before(a, b) || before(b, a))
    && (forall a, b :: !(before(a, b) && before(b, a)))
    && (forall a, b, c :: before(a, b) && before(b, c) ==> before(a, c))
  }

  ghost predicate Canonical<T>(before: (T, T) -> bool, list: seq<T>) {
    forall i, j :: 0 <= i < j < |list| ==> before(list[i], list[j])
  }

  ghost predicate Least<T>(before: (T, T) -> bool, items: set<T>, least: T) {
    least in items && forall other :: other in items && other != least ==> before(least, other)
  }

  lemma {:induction false} LeastExists<T(!new)>(before: (T, T) -> bool, items: set<T>) returns (least: T)
    requires StrictTotal(before) && items != {}
    ensures Least(before, items, least)
    decreases items
  {
    var picked :| picked in items;
    least := picked;
    var rest := items - {picked};
    assert items == rest + {picked};
    if rest != {} {
      var other := LeastExists(before, rest);
      if !before(picked, other) {
        least := other;
      }
    }
  }

  method SortDistinct<T(!new, ==)>(items: seq<T>, before: (T, T) -> bool) returns (sorted: seq<T>)
    requires StrictTotal(before)
    ensures Canonical(before, sorted) && Elements(sorted) == Elements(items)
  {
    var rest := Elements(items);
    sorted := [];
    while rest != {}
      invariant Canonical(before, sorted)
      invariant Elements(sorted) + rest == Elements(items)
      invariant forall a, b :: a in sorted && b in rest ==> before(a, b)
      decreases rest
    {
      ghost var _ := LeastExists(before, rest);
      var next :| next in rest && forall other :: other in rest && other != next ==> before(next, other);
      assert Elements(sorted + [next]) == Elements(sorted) + {next};
      sorted := sorted + [next];
      rest := rest - {next};
    }
  }

  lemma CanonicalIsDistinct<T(!new)>(before: (T, T) -> bool, list: seq<T>)
    requires StrictTotal(before) && Canonical(before, list)
    ensures Distinct(list)
  {
  }

  /** A canonical list is determined by its elements. */
  lemma {:induction false} CanonicalIsUnique<T(!new)>(before: (T, T) -> bool, a: seq<T>, b: seq<T>)
    requires StrictTotal(before) && Canonical(before, a) && Canonical(before, b) && Elements(a) == Elements(b)
    ensures a == b
    decreases |a|
  {
    DistinctSeqSize(a);
    DistinctSeqSize(b);
    if a != [] {
      assert a[0] in Elements(b) && b != [];
      assert b[0] in Elements(a);
      assert a[0] == b[0];
      forall x ensures x in Elements(a[1..]) <==> x in Elements(b[1..]) {
        assert x in a <==> x == a[0] || x in a[1..];
        assert x in b <==> x == b[0] || x in b[1..];
        assert a[0] !in a[1..] && b[0] !in b[1..];
        assert x in Elements(a) <==> x in Elements(b);
      }
      CanonicalIsUnique(before, a[1..], b[1..]);
      assert a == [a[0]] + a[1..] && b == [b[0]] + b[1..];
    }
  }
}
