/** Cursor pages over a changing table: what a completed walk of next_cursor pages returns. */
module Paging {
  import opened Common
  import opened Keyset

  const MAX_PAGE_SIZE := 100

  datatype Page = Page(items: seq<Key>, next: Option<Key>)

  datatype PageError = InvalidRequest

  /** A page lists the first rows past its cursor, and its next cursor is there exactly when rows are left. */
  ghost predicate IsListPage(rows: set<Key>, cursor: Option<Key>, limit: nat, page: Page) {
    && |page.items| <= limit && Sorted(Descending, page.items)
    && (forall k :: k in page.items ==> k in rows && Past(Descending, cursor, k))
    && (page.next.None? ==> forall k :: k in rows && Past(Descending, cursor, k) ==> k in page.items)
    && (page.next.Some? ==>
          && page.items != [] && page.next.value == page.items[|page.items| - 1]
          && (forall k :: k in rows && Past(Descending, cursor, k) && k !in page.items ==>
              Precedes(Descending, page.next.value, k))
          && exists k :: k in rows && Past(Descending, cursor, k) && k !in page.items)
  }

  /** Newest first, and among rows of one moment from the last id down. */
  ghost predicate NewestFirst(keys: seq<Key>) {
    forall i, j :: 0 <= i < j < |keys| ==>
      keys[j].at < keys[i].at || (keys[j].at == keys[i].at && TextBefore(keys[j].id, keys[i].id))
  }

  /** A page goes back in time from its cursor on. */
  lemma PageIsNewestFirst(rows: set<Key>, cursor: Option<Key>, limit: nat, page: Page, k: Key)
    requires IsListPage(rows, cursor, limit, page)
    ensures NewestFirst(page.items)
    ensures cursor.Some? && k in page.items ==>
              k.at < cursor.value.at || (k.at == cursor.value.at && TextBefore(k.id, cursor.value.id))
  {
  }

  /** The extra row shows that rows are left, and they all come after the last item that is kept. */
  lemma ExtraRowIsCutOff(rows: set<Key>, cursor: Option<Key>, limit: nat, fetched: seq<Key>)
    requires limit > 0 && IsPage(Descending, rows, cursor, limit + 1, fetched) && |fetched| == limit + 1
    ensures IsListPage(rows, cursor, limit, Page(fetched[..limit], Some(fetched[limit - 1])))
  {
    SortedIsDistinct(Descending, fetched);
    var items, next := fetched[..limit], fetched[limit - 1];
    assert fetched == items + [fetched[limit]];
    assert fetched[limit] in rows && fetched[limit] !in items;
    forall k | k in rows && Past(Descending, cursor, k) && k !in items ensures Precedes(Descending, next, k) {
      if k in fetched {
        assert k == fetched[limit];
      } else {
        assert next in fetched;
      }
    }
  }

  /** Fetch one row more than the page, to know whether there is a next page, and cut it off again. */
  method ListPage(rows: set<Key>, cursor: Option<Key>, limit: nat) returns (page: Result<Page, PageError>)
    ensures page.Ok? <==> 1 <= limit <= 100
    ensures page.Ok? ==> IsListPage(rows, cursor, limit, page.value)
  {
    if limit == 0 || limit > MAX_PAGE_SIZE {
      return Err(InvalidRequest);
    }
    var fetched := SelectPage(Descending, rows, cursor, limit + 1);
    if |fetched| > limit {
      ExtraRowIsCutOff(rows, cursor, limit, fetched);
      return Ok(Page(fetched[..limit], Some(fetched[limit - 1])));
    }
    return Ok(Page(fetched, None));
  }

  // ---------- a walk ----------

  function CursorOf(pages: seq<Page>, i: nat): Option<Key>
    requires i <= |pages|
  {
    if i == 0 then None else pages[i - 1].next
  }

  ghost predicate IsStep(tables: seq<set<Key>>, limits: seq<nat>, pages: seq<Page>, i: nat)
    requires |tables| == |limits| == |pages| && i < |pages|
  {
    (i > 0 ==> pages[i - 1].next.Some?) && IsListPage(tables[i], CursorOf(pages, i), limits[i], pages[i])
  }

  /** Page after page, each from the cursor before it, each over the table as it then is. */
  ghost predicate IsWalk(tables: seq<set<Key>>, limits: seq<nat>, pages: seq<Page>) {
    && |tables| == |limits| == |pages|
    && forall i :: 0 <= i < |pages| ==> IsStep(tables, limits, pages, i)
  }

  predicate IsComplete(pages: seq<Page>) {
    pages != [] && pages[|pages| - 1].next.None?
  }

  function Listed(pages: seq<Page>): seq<Key> {
    if pages == [] then [] else Listed(pages[..|pages| - 1]) + pages[|pages| - 1].items
  }

  lemma WalkPrefix(tables: seq<set<Key>>, limits: seq<nat>, pages: seq<Page>)
    requires IsWalk(tables, limits, pages) && pages != []
    ensures var n := |pages| - 1; IsWalk(tables[..n], limits[..n], pages[..n]) && IsStep(tables, limits, pages, n)
  {
    var n := |pages| - 1;
    forall i: nat | i < n ensures IsStep(tables[..n], limits[..n], pages[..n], i) {
      assert IsStep(tables, limits, pages, i);
      assert CursorOf(pages[..n], i) == CursorOf(pages, i);
    }
  }

  /** The next cursor is the last item, so no item of its page is past it. */
  lemma PageEndsAtItsCursor(rows: set<Key>, cursor: Option<Key>, limit: nat, page: Page, k: Key)
    requires IsListPage(rows, cursor, limit, page) && page.next.Some? && k in page.items
    ensures !Past(Descending, page.next, k)
  {
    var i :| 0 <= i < |page.items| && page.items[i] == k;
    PrecedesIsTotal(Descending, k, page.next.value);
  }

  lemma NextCursorIsPast(rows: set<Key>, cursor: Key, limit: nat, page: Page, k: Key)
    requires IsListPage(rows, Some(cursor), limit, page) && page.next.Some? && !Past(Descending, Some(cursor), k)
    ensures !Past(Descending, page.next, k)
  {
    var end := page.next.value;
    assert end in page.items && Precedes(Descending, cursor, end);
    if Precedes(Descending, end, k) {
      PrecedesIsTransitive(Descending, cursor, end, k);
    }
  }

  /** Whatever a walk has listed is not past its cursor. */
  lemma {:induction false} ListedUpToTheCursor(tables: seq<set<Key>>, limits: seq<nat>, pages: seq<Page>, k: Key)
    requires IsWalk(tables, limits, pages) && pages != [] && pages[|pages| - 1].next.Some? && k in Listed(pages)
    ensures !Past(Descending, pages[|pages| - 1].next, k)
    decreases |pages|
  {
    var n := |pages| - 1;
    WalkPrefix(tables, limits, pages);
    if k in pages[n].items {
      PageEndsAtItsCursor(tables[n], CursorOf(pages, n), limits[n], pages[n], k);
    } else {
      assert k in Listed(pages[..n]) && n > 0;
      ListedUpToTheCursor(tables[..n], limits[..n], pages[..n], k);
      NextCursorIsPast(tables[n], pages[n - 1].next.value, limits[n], pages[n], k);
    }
  }

  lemma JoinIsSorted(before: seq<Key>, items: seq<Key>, cursor: Key)
    requires Sorted(Descending, before) && Sorted(Descending, items)
    requires forall k :: k in before ==> !Past(Descending, Some(cursor), k)
    requires forall k :: k in items ==> Past(Descending, Some(cursor), k)
    ensures Sorted(Descending, before + items)
  {
    forall a, b | a in before && b in items ensures Precedes(Descending, a, b) {
      PrecedesIsTotal(Descending, a, cursor);
      if a != cursor {
        PrecedesIsTransitive(Descending, a, cursor, b);
      }
    }
  }

  /** What a walk lists is in strictly descending order, whatever happens to the table between its pages. */
  lemma {:induction false} WalksAreSorted(tables: seq<set<Key>>, limits: seq<nat>, pages: seq<Page>)
    requires IsWalk(tables, limits, pages)
    ensures Sorted(Descending, Listed(pages))
    decreases |pages|
  {
    if pages != [] {
      var n := |pages| - 1;
      WalkPrefix(tables, limits, pages);
      WalksAreSorted(tables[..n], limits[..n], pages[..n]);
      if n > 0 {
        forall k | k in Listed(pages[..n]) ensures !Past(Descending, pages[n - 1].next, k) {
          ListedUpToTheCursor(tables[..n], limits[..n], pages[..n], k);
        }
        JoinIsSorted(Listed(pages[..n]), pages[n].items, pages[n - 1].next.value);
      }
    }
  }

  ghost predicate AlwaysThere(tables: seq<set<Key>>, k: Key) {
    forall i :: 0 <= i < |tables| ==> k in tables[i]
  }

  lemma PassedRowIsOnThePage(rows: set<Key>, cursor: Option<Key>, limit: nat, page: Page, k: Key)
    requires IsListPage(rows, cursor, limit, page) && k in rows && Past(Descending, cursor, k)
    requires !(page.next.Some? && Past(Descending, page.next, k))
    ensures k in page.items
  {
  }

  /** A row that keeps matching with its key is listed once the walk has passed its place. */
  lemma {:induction false} PassedRowsAreListed(tables: seq<set<Key>>, limits: seq<nat>, pages: seq<Page>, k: Key)
    requires IsWalk(tables, limits, pages) && AlwaysThere(tables, k) && pages != []
    requires !(pages[|pages| - 1].next.Some? && Past(Descending, pages[|pages| - 1].next, k))
    ensures k in Listed(pages)
    decreases |pages|
  {
    var n := |pages| - 1;
    WalkPrefix(tables, limits, pages);
    if Past(Descending, CursorOf(pages, n), k) {
      PassedRowIsOnThePage(tables[n], CursorOf(pages, n), limits[n], pages[n], k);
    } else {
      PassedRowsAreListed(tables[..n], limits[..n], pages[..n], k);
    }
  }

  ghost predicate ListedOnce(listed: seq<Key>, k: Key) {
    exists i :: 0 <= i < |listed| && listed[i] == k && forall j :: 0 <= j < |listed| && j != i ==> listed[j] != k
  }

  /** A completed walk lists every row that stayed exactly once, and lists in order. */
  lemma StayingRowsAreListedExactlyOnce(tables: seq<set<Key>>, limits: seq<nat>, pages: seq<Page>, k: Key)
    requires IsWalk(tables, limits, pages) && IsComplete(pages) && AlwaysThere(tables, k)
    ensures Sorted(Descending, Listed(pages)) && NewestFirst(Listed(pages))
    ensures ListedOnce(Listed(pages), k)
  {
    WalksAreSorted(tables, limits, pages);
    SortedIsDistinct(Descending, Listed(pages));
    PassedRowsAreListed(tables, limits, pages, k);
    var i :| 0 <= i < |Listed(pages)| && Listed(pages)[i] == k;
  }

  /** Nothing is invented: what is listed was there, past the cursor, when its page was read. */
  lemma {:induction false} ListedRowsWereThere(tables: seq<set<Key>>, limits: seq<nat>, pages: seq<Page>, k: Key)
    returns (i: nat)
    requires IsWalk(tables, limits, pages) && k in Listed(pages)
    ensures i < |tables| && k in tables[i] && k in pages[i].items
    decreases |pages|
  {
    var n := |pages| - 1;
    WalkPrefix(tables, limits, pages);
    if k in pages[n].items {
      i := n;
    } else {
      i := ListedRowsWereThere(tables[..n], limits[..n], pages[..n], k);
    }
  }

  /** Over a table that does not change, a completed walk lists the table, whatever the page limits. */
  lemma UnchangedTableIsListed(rows: set<Key>, tables: seq<set<Key>>, limits: seq<nat>, pages: seq<Page>)
    requires IsWalk(tables, limits, pages) && IsComplete(pages) && forall i :: 0 <= i < |tables| ==> tables[i] == rows
    ensures Elements(Listed(pages)) == rows && |Listed(pages)| == |rows|
  {
    forall k ensures k in Elements(Listed(pages)) <==> k in rows {
      if k in rows {
        StayingRowsAreListedExactlyOnce(tables, limits, pages, k);
      }
      if k in Listed(pages) {
        var _ := ListedRowsWereThere(tables, limits, pages, k);
      }
    }
    WalksAreSorted(tables, limits, pages);
    SortedIsDistinct(Descending, Listed(pages));
    DistinctSeqSize(Listed(pages));
  }
}
