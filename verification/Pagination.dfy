/** Keyset pagination of the run and event lists (packages/api/fleet_reads.py): newest first, a page
    ends with a cursor at its last row, and the table may change between two pages. */
module Pagination {
  import opened Common

  /** (started_at, run_id) or (ts, event_id): what the rows are ordered by. */
  datatype Key = Key(ts: int, id: nat) {
    predicate Below(o: Key) {
      ts < o.ts || (ts == o.ts && id < o.id)
    }
  }

  predicate Before(k: Key, after: Option<Key>) {
    after.None? || k.Below(after.value)
  }

  ghost predicate Descending(ks: seq<Key>) {
    forall i, j | 0 <= i < j < |ks| :: ks[j].Below(ks[i])
  }

  /** ORDER BY ts DESC, id DESC LIMIT n over the rows below the cursor. */
  ghost predicate IsQuery(rows: set<Key>, after: Option<Key>, n: nat, r: seq<Key>) {
    && Descending(r) && |r| <= n
    && (forall k | k in r :: k in rows && Before(k, after))
    && (forall k | k in rows && Before(k, after) && k !in r :: |r| == n && forall i | 0 <= i < |r| :: k.Below(r[i]))
  }

  datatype Page = Page(items: seq<Key>, next: Option<Key>)

  /** _page over the limit + 1 rows the query fetched. */
  function PageOf(rows: seq<Key>, limit: nat): Page
    requires limit > 0
  {
    if |rows| > limit then Page(rows[..limit], Some(rows[limit - 1])) else Page(rows, None)
  }

  /** A page holds exactly the rows between the cursor it was asked with and the cursor it gives. */
  ghost predicate InWindow(k: Key, after: Option<Key>, next: Option<Key>) {
    Before(k, after) && (next.None? || !k.Below(next.value))
  }

  ghost predicate IsPage(rows: set<Key>, after: Option<Key>, limit: nat, page: Page) {
    && Descending(page.items) && |page.items| <= limit
    && (forall k :: k in page.items <==> k in rows && InWindow(k, after, page.next))
    && (page.next.Some? ==> |page.items| == limit > 0 && page.next.value == Last(page.items))
  }

  lemma QueryGivesPage(rows: set<Key>, after: Option<Key>, limit: nat, r: seq<Key>)
    requires limit > 0 && IsQuery(rows, after, limit + 1, r)
    ensures IsPage(rows, after, limit, PageOf(r, limit))
  {
    var page := PageOf(r, limit);
    if |r| > limit {
      forall k ensures k in page.items <==> k in rows && InWindow(k, after, page.next) {
        if k in page.items {
          var i :| 0 <= i < limit && r[i] == k;
          assert k in r;
          assert i == limit - 1 || r[limit - 1].Below(r[i]);
        } else if k in r {
          assert forall i | 0 <= i < limit :: r[i] in page.items;
          var i :| 0 <= i < |r| && r[i] == k;
          assert r[i].Below(r[limit - 1]);
        }
      }
    }
  }

  /** Following next_cursor until it is null, the i-th page read from the i-th state of the table. */
  ghost predicate IsWalk(snaps: seq<set<Key>>, pages: seq<Page>, limit: nat) {
    && |pages| == |snaps| > 0 && limit > 0
    && Last(pages).next.None?
    && forall i {:trigger GoodPage(snaps, pages, limit, i)} | 0 <= i < |pages| :: GoodPage(snaps, pages, limit, i)
  }

  ghost predicate GoodPage(snaps: seq<set<Key>>, pages: seq<Page>, limit: nat, i: nat)
    requires i < |pages| == |snaps|
  {
    && IsPage(snaps[i], CursorOf(pages, i), limit, pages[i])
    && (i < |pages| - 1 ==> pages[i].next.Some?)
  }

  ghost function CursorOf(pages: seq<Page>, i: nat): Option<Key>
    requires i <= |pages|
  {
    if i == 0 then None else pages[i - 1].next
  }

  function Items(pages: seq<Page>): seq<Key> {
    if pages == [] then [] else Items(Front(pages)) + Last(pages).items
  }

  lemma PageAt(snaps: seq<set<Key>>, pages: seq<Page>, limit: nat, i: nat)
    requires IsWalk(snaps, pages, limit) && i < |pages|
    ensures IsPage(snaps[i], CursorOf(pages, i), limit, pages[i])
    ensures i < |pages| - 1 <==> pages[i].next.Some?
  {
    assert GoodPage(snaps, pages, limit, i);
  }

  /** A page's rows stand at or above its own cursor. */
  lemma AboveNext(rows: set<Key>, after: Option<Key>, limit: nat, page: Page, k: Key)
    requires IsPage(rows, after, limit, page) && page.next.Some? && k in page.items
    ensures !k.Below(page.next.value)
    ensures Before(page.next.value, after)
  {
    assert page.next.value in page.items;
  }

  /** Cursors only go down: no row of an earlier page is below a later cursor. */
  lemma {:induction false} CursorsDescend(snaps: seq<set<Key>>, pages: seq<Page>, limit: nat, i: nat, j: nat, k: Key)
    requires IsWalk(snaps, pages, limit) && i < j < |pages| && k in pages[i].items
    ensures CursorOf(pages, j).Some? && !k.Below(CursorOf(pages, j).value)
    decreases j - i
  {
    PageAt(snaps, pages, limit, j - 1);
    if i < j - 1 {
      CursorsDescend(snaps, pages, limit, i, j - 1, k);
      AboveNext(snaps[j - 1], CursorOf(pages, j - 1), limit, pages[j - 1], Last(pages[j - 1].items));
    } else {
      AboveNext(snaps[i], CursorOf(pages, i), limit, pages[i], k);
    }
  }

  lemma {:induction false} ItemsMembers(pages: seq<Page>, n: nat, k: Key)
    requires n <= |pages|
    ensures k in Items(pages[..n]) <==> exists i | 0 <= i < n :: k in pages[i].items
  {
    if n > 0 {
      assert Front(pages[..n]) == pages[..n - 1];
      ItemsMembers(pages, n - 1, k);
    }
  }

  lemma {:induction false} ItemsLength(snaps: seq<set<Key>>, pages: seq<Page>, limit: nat, n: nat)
    requires IsWalk(snaps, pages, limit) && n < |pages|
    ensures |Items(pages[..n])| == n * limit
  {
    if n > 0 {
      assert Front(pages[..n]) == pages[..n - 1];
      ItemsLength(snaps, pages, limit, n - 1);
      PageAt(snaps, pages, limit, n - 1);
    }
  }

  lemma LaterIsBelow(snaps: seq<set<Key>>, pages: seq<Page>, limit: nat, i: nat, j: nat, k: Key, l: Key)
    requires IsWalk(snaps, pages, limit) && i < j < |pages| && k in pages[i].items && l in pages[j].items
    ensures l.Below(k)
  {
    CursorsDescend(snaps, pages, limit, i, j, k);
    PageAt(snaps, pages, limit, j);
  }

  lemma {:induction false} ItemsDescend(snaps: seq<set<Key>>, pages: seq<Page>, limit: nat, n: nat)
    requires IsWalk(snaps, pages, limit) && n <= |pages|
    ensures Descending(Items(pages[..n]))
  {
    if n > 0 {
      ItemsDescend(snaps, pages, limit, n - 1);
      assert Front(pages[..n]) == pages[..n - 1];
      var a, b := Items(pages[..n - 1]), pages[n - 1].items;
      PageAt(snaps, pages, limit, n - 1);
      forall i, j | 0 <= i < |a| && 0 <= j < |b| ensures b[j].Below(a[i]) {
        ItemsMembers(pages, n - 1, a[i]);
        var p :| 0 <= p < n - 1 && a[i] in pages[p].items;
        LaterIsBelow(snaps, pages, limit, p, n - 1, a[i], b[j]);
      }
    }
  }

  /** The whole list a client collects is strictly descending, by time and among equal times by id:
      no row comes twice. */
  lemma WalkDescends(snaps: seq<set<Key>>, pages: seq<Page>, limit: nat)
    requires IsWalk(snaps, pages, limit)
    ensures Descending(Items(pages))
    ensures var rows := Items(pages);
            forall i, j | 0 <= i < j < |rows| ::
              rows[i] != rows[j] && (rows[i].ts > rows[j].ts || (rows[i].ts == rows[j].ts && rows[i].id > rows[j].id))
  {
    ItemsDescend(snaps, pages, limit, |pages|);
    assert pages[..|pages|] == pages;
    forall i, j | 0 <= i < j < |Items(pages)| ensures Items(pages)[j].Below(Items(pages)[i]) {
    }
  }

  /** Every key falls into the window of exactly one page. */
  lemma WindowOf(snaps: seq<set<Key>>, pages: seq<Page>, limit: nat, k: Key) returns (i: nat)
    requires IsWalk(snaps, pages, limit)
    ensures i < |pages| && InWindow(k, CursorOf(pages, i), pages[i].next)
    ensures forall j | 0 <= j < |pages| && InWindow(k, CursorOf(pages, j), pages[j].next) :: j == i
  {
    i := 0;
    while pages[i].next.Some? && k.Below(pages[i].next.value)
      invariant i < |pages| && Before(k, CursorOf(pages, i))
      invariant forall j | 0 <= j < i :: pages[j].next.Some? && k.Below(pages[j].next.value)
      decreases |pages| - i
    {
      i := i + 1;
    }
    forall j | i < j < |pages| ensures !InWindow(k, CursorOf(pages, j), pages[j].next) {
      PageAt(snaps, pages, limit, i);
      CursorsDescend(snaps, pages, limit, i, j, Last(pages[i].items));
    }
  }

  /** A row is returned exactly when it was there while the page covering its key was read; so rows that
      match throughout the walk are all returned, whatever is inserted or deleted between pages. */
  lemma WalkReturns(snaps: seq<set<Key>>, pages: seq<Page>, limit: nat, k: Key)
    requires IsWalk(snaps, pages, limit)
    ensures k in Items(pages) <==>
              exists i | 0 <= i < |pages| :: InWindow(k, CursorOf(pages, i), pages[i].next) && k in snaps[i]
    ensures (forall i | 0 <= i < |snaps| :: k in snaps[i]) ==> k in Items(pages)
    ensures (forall i | 0 <= i < |snaps| :: k !in snaps[i]) ==> k !in Items(pages)
  {
    ItemsMembers(pages, |pages|, k);
    assert pages[..|pages|] == pages;
    var i := WindowOf(snaps, pages, limit, k);
    PageAt(snaps, pages, limit, i);
    if k in Items(pages) {
      var j :| 0 <= j < |pages| && k in pages[j].items;
      PageAt(snaps, pages, limit, j);
    }
    assert k in pages[i].items <==> k in snaps[i];
  }

  lemma {:induction false} DescendingFits(ks: seq<Key>, u: set<Key>)
    requires Descending(ks) && forall k | k in ks :: k in u
    ensures |ks| <= |u|
  {
    if ks != [] {
      var l := Last(ks);
      assert l in ks;
      forall k | k in Front(ks) ensures k in u - {l} {
        var i :| 0 <= i < |ks| - 1 && ks[i] == k;
        assert l.Below(ks[i]);
      }
      DescendingFits(Front(ks), u - {l});
    }
  }

  /** The walk is over after at most one page more than full pages fit into the rows that ever existed. */
  lemma WalkEnds(snaps: seq<set<Key>>, pages: seq<Page>, limit: nat, u: set<Key>)
    requires IsWalk(snaps, pages, limit)
    requires forall i | 0 <= i < |snaps| :: snaps[i] <= u
    ensures (|pages| - 1) * limit <= |u|
  {
    var full := Items(pages[..|pages| - 1]);
    ItemsDescend(snaps, pages, limit, |pages| - 1);
    ItemsLength(snaps, pages, limit, |pages| - 1);
    forall k | k in full ensures k in u {
      ItemsMembers(pages, |pages| - 1, k);
      var i :| 0 <= i < |pages| - 1 && k in pages[i].items;
      PageAt(snaps, pages, limit, i);
    }
    DescendingFits(full, u);
  }
}
