/** The keyset page query: `WHERE (at, id) past the cursor ORDER BY at, id LIMIT n`, either way round. */
module Keyset {
  import opened Common

  datatype Key = Key(at: int, id: string)

  datatype Order = Ascending | Descending

  predicate KeyBefore(a: Key, b: Key) {
    a.at < b.at || (a.at == b.at && TextBefore(a.id, b.id))
  }

  /** `a` comes before `b` in a listing of this order. */
  predicate Precedes(order: Order, a: Key, b: Key) {
    if order == Ascending then KeyBefore(a, b) else KeyBefore(b, a)
  }

  predicate Past(order: Order, cursor: Option<Key>, k: Key) {
    cursor.None? || Precedes(order, cursor.value, k)
  }

  lemma PrecedesIsTotal(order: Order, a: Key, b: Key)
    ensures a == b || Precedes(order, a, b) || Precedes(order, b, a)
    ensures !(Precedes(order, a, b) && Precedes(order, b, a))
    ensures !Precedes(order, a, a)
  {
    TextBeforeIsTotal(a.id, b.id);
    TextBeforeIsTotal(a.id, a.id);
  }

  lemma PrecedesIsTransitive(order: Order, a: Key, b: Key, c: Key)
    requires Precedes(order, a, b) && Precedes(order, b, c)
    ensures Precedes(order, a, c)
  {
    if a.at == b.at == c.at {
      if order == Ascending {
        TextBeforeIsTransitive(a.id, b.id, c.id);
      } else {
        TextBeforeIsTransitive(c.id, b.id, a.id);
      }
    }
  }

  predicate Sorted(order: Order, page: seq<Key>) {
    forall i, j :: 0 <= i < j < |page| ==> Precedes(order, page[i], page[j])
  }

  lemma SortedIsDistinct(order: Order, page: seq<Key>)
    requires Sorted(order, page)
    ensures forall i, j :: 0 <= i < j < |page| ==> page[i] != page[j]
  {
    forall i, j | 0 <= i < j < |page| ensures page[i] != page[j] {
      PrecedesIsTotal(order, page[i], page[i]);
    }
  }

  /** The result set of the query: the first `limit` rows past the cursor, in order. */
  ghost predicate IsPage(order: Order, rows: set<Key>, cursor: Option<Key>, limit: nat, page: seq<Key>) {
    && |page| <= limit
    && Sorted(order, page)
    && (forall k :: k in page ==> k in rows && Past(order, cursor, k))
    && (forall k :: k in rows && Past(order, cursor, k) && k !in page ==>
          |page| == limit && forall p :: p in page ==> Precedes(order, p, k))
  }

  ghost predicate IsFirst(order: Order, rows: set<Key>, k: Key) {
    k in rows && forall other :: other in rows && other != k ==> Precedes(order, k, other)
  }

  lemma {:induction false} FirstExists(order: Order, rows: set<Key>)
    requires rows != {}
    ensures exists k :: IsFirst(order, rows, k)
  {
    var k :| k in rows;
    var rest := rows - {k};
    if rest == {} {
      assert rows == {k};
      assert IsFirst(order, rows, k);
    } else {
      FirstExists(order, rest);
      var first :| IsFirst(order, rest, first);
      PrecedesIsTotal(order, k, first);
      if Precedes(order, k, first) {
        forall other | other in rows && other != k && other != first ensures Precedes(order, k, other) {
          assert other in rest;
          PrecedesIsTransitive(order, k, first, other);
        }
        assert IsFirst(order, rows, k);
      } else {
        assert IsFirst(order, rows, first);
      }
    }
  }

  method SelectPage(order: Order, rows: set<Key>, cursor: Option<Key>, limit: nat) returns (page: seq<Key>)
    ensures IsPage(order, rows, cursor, limit, page)
  {
    var remaining := set k | k in rows && Past(order, cursor, k);
    page := [];
    while |page| < limit && remaining != {}
      invariant |page| <= limit && Sorted(order, page)
      invariant forall k :: k in page ==> k in rows && Past(order, cursor, k)
      invariant forall k :: k in remaining ==> k in rows && Past(order, cursor, k)
      invariant forall k :: k in rows && Past(order, cursor, k) ==> k in page || k in remaining
      invariant forall p, k :: p in page && k in remaining ==> Precedes(order, p, k)
      decreases remaining
    {
      FirstExists(order, remaining);
      var first :| first in remaining && forall other :: other in remaining && other != first ==>
          Precedes(order, first, other);
      page := page + [first];
      remaining := remaining - {first};
    }
  }
}
