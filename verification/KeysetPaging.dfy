/** Keyset pagination over a changing table: one page, and a whole walk. */
module KeysetPaging {
  import opened Text
  import opened Sorting

  /** Rows are ordered by descending key. */
  datatype Key = Key(major: int, minor: int)

  predicate Before(a: Key, b: Key) {
    a.major > b.major || (a.major == b.major && a.minor > b.minor)
  }

  /** Strictly behind the cursor; without a cursor everything is. */
  predicate Behind(cursor: Option<Key>, k: Key) {
    cursor.None? || Before(cursor.value, k)
  }

  datatype Page<T> = Page(items: seq<T>, next: Option<Key>)

  function Filter<T(!new)>(s: seq<T>, p: T -> bool): (r: seq<T>)
    ensures forall x :: x in r <==> x in s && p(x)
  {
    if s == [] then []
    else
      var rest := Filter(s[..|s| - 1], p);
      var x := s[|s| - 1];
      assert s == s[..|s| - 1] + [x];
      if p(x) then rest + [x] else rest
  }

  ghost predicate DistinctKeys<T(!new)>(table: seq<T>, key: T -> Key) {
    forall i, j :: 0 <= i < j < |table| ==> key(table[i]) != key(table[j])
  }

  ghost predicate Descending<T(!new)>(s: seq<T>, key: T -> Key) {
    forall i, j :: 0 <= i < j < |s| ==> Before(key(s[i]), key(s[j]))
  }

  function Order<T>(key: T -> Key): (T, T) -> bool {
    (x, y) => Before(key(x), key(y))
  }

  function Asked<T>(matches: T -> bool, key: T -> Key, cursor: Option<Key>): T -> bool {
    x => matches(x) && Behind(cursor, key(x))
  }

  function InOrder<T(!new)>(table: seq<T>, matches: T -> bool, key: T -> Key, cursor: Option<Key>): seq<T> {
    Sort(Filter(table, Asked(matches, key, cursor)), Order(key))
  }

  /** `WHERE matches AND behind the cursor ORDER BY key DESC LIMIT n`. */
  function Query<T(!new)>(table: seq<T>, matches: T -> bool, key: T -> Key, cursor: Option<Key>, n: nat): seq<T> {
    var sorted := InOrder(table, matches, key, cursor);
    if |sorted| > n then sorted[..n] else sorted
  }

  /** Reads one row more than asked for to see whether there is a next page. */
  function PageOf<T(!new)>(table: seq<T>, matches: T -> bool, key: T -> Key, limit: nat, cursor: Option<Key>): Page<T>
    requires limit >= 1
  {
    var rows := Query(table, matches, key, cursor, limit + 1);
    if |rows| > limit then Page(rows[..limit], Some(key(rows[limit - 1]))) else Page(rows, None)
  }

  ghost predicate Eligible<T(!new)>(table: seq<T>, matches: T -> bool, key: T -> Key, cursor: Option<Key>, x: T) {
    x in table && matches(x) && Behind(cursor, key(x))
  }

  /** The first rows in order, and a cursor exactly when rows remain. */
  ghost predicate IsPage<T(!new)>(
    table: seq<T>, matches: T -> bool, key: T -> Key, limit: nat, cursor: Option<Key>, page: Page<T>)
  {
    && Descending(page.items, key)
    && (forall x :: x in page.items ==> Eligible(table, matches, key, cursor, x))
    && (page.next.None? ==>
          |page.items| <= limit && forall x :: Eligible(table, matches, key, cursor, x) ==> x in page.items)
    && (page.next.Some? ==>
          && |page.items| == limit && limit >= 1 && page.next.value == key(page.items[limit - 1])
          && (forall x :: Eligible(table, matches, key, cursor, x) ==>
                x in page.items || Before(page.next.value, key(x)))
          && exists x :: Eligible(table, matches, key, cursor, x) && x !in page.items)
  }

  lemma {:induction false} FilterDistinct<T(!new)>(s: seq<T>, p: T -> bool, key: T -> Key)
    requires DistinctKeys(s, key)
    ensures DistinctKeys(Filter(s, p), key)
  {
    if s != [] {
      var n := |s| - 1;
      FilterDistinct(s[..n], p, key);
      var rest := Filter(s[..n], p);
      forall i | 0 <= i < |rest| ensures key(rest[i]) != key(s[n]) {
        assert rest[i] in s[..n];
      }
    }
  }

  lemma OrderIsWeak<T(!new)>(key: T -> Key)
    ensures WeakOrder(Order(key))
  {
  }

  lemma InOrderIsDescending<T(!new)>(table: seq<T>, matches: T -> bool, key: T -> Key, cursor: Option<Key>)
    requires DistinctKeys(table, key)
    ensures Descending(InOrder(table, matches, key, cursor), key)
    ensures forall x :: Eligible(table, matches, key, cursor, x) <==> x in InOrder(table, matches, key, cursor)
  {
    var p := Asked(matches, key, cursor);
    FilterDistinct(table, p, key);
    OrderIsWeak(key);
    SortIncreasing(Filter(table, p), Order(key));
  }

  lemma PageIsPage<T(!new)>(table: seq<T>, matches: T -> bool, key: T -> Key, limit: nat, cursor: Option<Key>)
    requires limit >= 1 && DistinctKeys(table, key)
    ensures IsPage(table, matches, key, limit, cursor, PageOf(table, matches, key, limit, cursor))
  {
    hide InOrder, Eligible, Before;
    InOrderIsDescending(table, matches, key, cursor);
    var sorted := InOrder(table, matches, key, cursor);
    if |sorted| > limit {
      PageOfMore(sorted, key, limit);
      assert PageOf(table, matches, key, limit, cursor) == Page(sorted[..limit], Some(key(sorted[limit - 1])));
      assert sorted[limit] in sorted;
    }
  }

  lemma PageOfMore<T(!new)>(sorted: seq<T>, key: T -> Key, limit: nat)
    requires 1 <= limit < |sorted| && Descending(sorted, key)
    ensures forall x :: x in sorted ==> x in sorted[..limit] || Before(key(sorted[limit - 1]), key(x))
    ensures sorted[limit] !in sorted[..limit]
    ensures forall x :: x in sorted[..limit] ==> x in sorted
  {
    forall x | x in sorted ensures x in sorted[..limit] || Before(key(sorted[limit - 1]), key(x)) {
      var i :| 0 <= i < |sorted| && sorted[i] == x;
      if i < limit {
        assert sorted[..limit][i] == x;
      }
    }
  }

  // ---------------------------------------------------------------- a walk over a changing table

  /** Rows collected by following cursors, and whether the last page said there is no next one. */
  datatype Walk<T> = Walk(items: seq<T>, ended: bool)

  /** The table as each page finds it, and the limit asked for. */
  datatype Visit<T> = Visit(table: seq<T>, limit: nat)

  function WalkOf<T(!new)>(visits: seq<Visit<T>>, matches: T -> bool, key: T -> Key, cursor: Option<Key>): Walk<T>
    requires forall i :: 0 <= i < |visits| ==> visits[i].limit >= 1
    decreases |visits|
  {
    if visits == [] then Walk([], false)
    else
      var page := PageOf(visits[0].table, matches, key, visits[0].limit, cursor);
      if page.next.None? then Walk(page.items, true)
      else
        var rest := WalkOf(visits[1..], matches, key, page.next);
        Walk(page.items + rest.items, rest.ended)
  }

  ghost predicate Proper<T(!new)>(visits: seq<Visit<T>>, key: T -> Key) {
    forall i :: 0 <= i < |visits| ==> visits[i].limit >= 1 && DistinctKeys(visits[i].table, key)
  }

  ghost predicate Seen<T(!new)>(visits: seq<Visit<T>>, matches: T -> bool, x: T) {
    exists i :: 0 <= i < |visits| && x in visits[i].table && matches(x)
  }

  /** A key under which every visited table had a matching row. */
  ghost predicate Throughout<T(!new)>(visits: seq<Visit<T>>, matches: T -> bool, key: T -> Key, k: Key) {
    forall i :: 0 <= i < |visits| ==> exists x :: x in visits[i].table && matches(x) && key(x) == k
  }

  /**
   * The rows are in strictly descending order, all behind the cursor and all seen matching; once
   * the walk has ended, they cover every key that had a matching row throughout.
   */
  ghost predicate IsWalk<T(!new)>(visits: seq<Visit<T>>, matches: T -> bool, key: T -> Key, cursor: Option<Key>, w: Walk<T>) {
    && Descending(w.items, key)
    && (forall x :: x in w.items ==> Seen(visits, matches, x) && Behind(cursor, key(x)))
    && (w.ended ==> forall k :: Throughout(visits, matches, key, k) && Behind(cursor, k) ==>
          exists x :: x in w.items && key(x) == k)
  }

  lemma {:induction false} WalkIsExact<T(!new)>(visits: seq<Visit<T>>, matches: T -> bool, key: T -> Key, cursor: Option<Key>)
    requires Proper(visits, key)
    ensures IsWalk(visits, matches, key, cursor, WalkOf(visits, matches, key, cursor))
    decreases |visits|
  {
    if visits != [] {
      var v := visits[0];
      var page := PageOf(v.table, matches, key, v.limit, cursor);
      PageIsPage(v.table, matches, key, v.limit, cursor);
      if page.next.None? {
        LastPage(visits, matches, key, cursor, page);
      } else {
        WalkIsExact(visits[1..], matches, key, page.next);
        MorePages(visits, matches, key, cursor, page, WalkOf(visits[1..], matches, key, page.next));
      }
    }
  }

  lemma LastPage<T(!new)>(visits: seq<Visit<T>>, matches: T -> bool, key: T -> Key, cursor: Option<Key>, page: Page<T>)
    requires visits != [] && IsPage(visits[0].table, matches, key, visits[0].limit, cursor, page) && page.next.None?
    ensures IsWalk(visits, matches, key, cursor, Walk(page.items, true))
  {
    forall x | x in page.items ensures Seen(visits, matches, x) {
      assert Eligible(visits[0].table, matches, key, cursor, x);
    }
    FirstPageHolds(visits, matches, key, cursor, page);
  }

  lemma MorePages<T(!new)>(
    visits: seq<Visit<T>>, matches: T -> bool, key: T -> Key, cursor: Option<Key>, page: Page<T>, rest: Walk<T>)
    requires visits != [] && IsPage(visits[0].table, matches, key, visits[0].limit, cursor, page) && page.next.Some?
    requires IsWalk(visits[1..], matches, key, page.next, rest)
    ensures IsWalk(visits, matches, key, cursor, Walk(page.items + rest.items, rest.ended))
  {
    JoinPages(page, key, rest.items);
    SeenLater(visits, matches, rest.items);
    NextPagesHold(visits, matches, key, cursor, page, rest);
    var last := page.items[|page.items| - 1];
    assert last in page.items;
    forall x | x in page.items + rest.items
      ensures Seen(visits, matches, x) && Behind(cursor, key(x))
    {
      if x in page.items {
        assert Eligible(visits[0].table, matches, key, cursor, x);
      } else {
        assert Behind(page.next, key(x)) && Behind(cursor, key(last));
      }
    }
  }

  lemma FirstPageHolds<T(!new)>(visits: seq<Visit<T>>, matches: T -> bool, key: T -> Key, cursor: Option<Key>, page: Page<T>)
    requires visits != [] && IsPage(visits[0].table, matches, key, visits[0].limit, cursor, page) && page.next.None?
    ensures forall k :: Throughout(visits, matches, key, k) && Behind(cursor, k) ==> exists x :: x in page.items && key(x) == k
  {
    forall k | Throughout(visits, matches, key, k) && Behind(cursor, k) ensures exists x :: x in page.items && key(x) == k {
      var x :| x in visits[0].table && matches(x) && key(x) == k;
      assert Eligible(visits[0].table, matches, key, cursor, x);
    }
  }

  lemma NextPagesHold<T(!new)>(
    visits: seq<Visit<T>>, matches: T -> bool, key: T -> Key, cursor: Option<Key>, page: Page<T>, rest: Walk<T>)
    requires visits != [] && IsPage(visits[0].table, matches, key, visits[0].limit, cursor, page) && page.next.Some?
    requires rest.ended ==> forall k :: Throughout(visits[1..], matches, key, k) && Behind(page.next, k) ==>
               exists x :: x in rest.items && key(x) == k
    ensures rest.ended ==> forall k :: Throughout(visits, matches, key, k) && Behind(cursor, k) ==>
              exists x :: x in page.items + rest.items && key(x) == k
  {
    if rest.ended {
      forall k | Throughout(visits, matches, key, k) && Behind(cursor, k)
        ensures exists x :: x in page.items + rest.items && key(x) == k
      {
        var x :| x in visits[0].table && matches(x) && key(x) == k;
        assert Eligible(visits[0].table, matches, key, cursor, x);
        if x in page.items {
          assert x in page.items + rest.items;
        } else {
          assert Throughout(visits[1..], matches, key, k);
          var y :| y in rest.items && key(y) == k;
          assert y in page.items + rest.items;
        }
      }
    }
  }

  lemma JoinPages<T(!new)>(page: Page<T>, key: T -> Key, rest: seq<T>)
    requires page.next.Some? && page.items != [] && page.next.value == key(page.items[|page.items| - 1])
    requires Descending(page.items, key) && Descending(rest, key)
    requires forall x :: x in rest ==> Behind(page.next, key(x))
    ensures Descending(page.items + rest, key)
    ensures forall x :: x in page.items + rest <==> x in page.items || x in rest
  {
    var s := page.items + rest;
    var n := |page.items|;
    forall i, j | 0 <= i < j < |s| ensures Before(key(s[i]), key(s[j])) {
      if i < n <= j {
        assert rest[j - n] in rest;
        assert Before(key(page.items[n - 1]), key(s[j]));
        assert i == n - 1 || Before(key(page.items[i]), key(page.items[n - 1]));
      }
    }
  }

  lemma SeenLater<T(!new)>(visits: seq<Visit<T>>, matches: T -> bool, items: seq<T>)
    requires visits != [] && forall x :: x in items ==> Seen(visits[1..], matches, x)
    ensures forall x :: x in items ==> Seen(visits, matches, x)
  {
    forall x | x in items ensures Seen(visits, matches, x) {
      var i :| 0 <= i < |visits[1..]| && x in visits[1..][i].table && matches(x);
      assert visits[i + 1] == visits[1..][i];
    }
  }
}
