/** The two paginated listings of agent definitions. */
module AgentListing {
  import opened Text
  import opened Sorting
  import opened KeysetPaging

  /** What the listing looks at; ids compare like the 128-bit numbers they are, times are microseconds. */
  datatype AgentEntry = AgentEntry(id: nat, createdAtUs: nat, projectId: int, archived: bool)

  datatype ListOptions = ListOptions(
    projectId: Option<int>, projectIds: Option<set<int>>, includeArchived: bool, limit: Option<real>, cursor: Option<Key>)

  /** `clampLimit`; None stands for a missing or non-finite number. */
  function ClampLimit(raw: Option<real>): (n: nat)
    ensures 1 <= n <= 200
    ensures raw.None? || raw.value < 1.0 ==> n == 50
    ensures raw.Some? && raw.value >= 1.0 ==> n as real <= raw.value && (n < 200 ==> raw.value < n as real + 1.0)
  {
    if raw.None? || raw.value < 1.0 then 50
    else if raw.value.Floor > 200 then 200 else raw.value.Floor
  }

  /** The filters of the query, as the options are documented: `projectId` wins over `projectIds`. */
  predicate PassesFilters(opts: ListOptions, e: AgentEntry) {
    && (if opts.projectId.Some? then e.projectId == opts.projectId.value
        else opts.projectIds.Some? ==> e.projectId in opts.projectIds.value)
    && (opts.includeArchived || !e.archived)
  }

  /** What is listed: nothing at all for an empty set of projects, whatever `projectId` says. */
  predicate Matches(opts: ListOptions, e: AgentEntry) {
    opts.projectIds != Some({}) && PassesFilters(opts, e)
  }

  /** `projectId` takes precedence over `projectIds` except when the latter is empty. */
  lemma PrecedenceIff(opts: ListOptions)
    ensures (forall e: AgentEntry :: Matches(opts, e) <==> PassesFilters(opts, e)) <==>
            !(opts.projectId.Some? && opts.projectIds == Some({}))
  {
    if opts.projectId.Some? && opts.projectIds == Some({}) {
      var e := AgentEntry(0, 0, opts.projectId.value, false);
      assert PassesFilters(opts, e) && !Matches(opts, e);
    }
  }

  function Wanted(opts: ListOptions): AgentEntry -> bool {
    e => Matches(opts, e)
  }

  function Filters(opts: ListOptions): AgentEntry -> bool {
    e => PassesFilters(opts, e)
  }

  /** Creation time truncated to milliseconds, as cursor, filter and order all see it. */
  function KeyOf(e: AgentEntry): Key {
    Key(e.createdAtUs / 1000, e.id)
  }

  ghost predicate DistinctIds(table: seq<AgentEntry>) {
    forall i, j :: 0 <= i < j < |table| ==> table[i].id != table[j].id
  }

  /** What a caller asked to see. */
  ghost predicate Listed(opts: ListOptions, e: AgentEntry) {
    && opts.projectIds != Some({})
    && (opts.projectId.Some? ==> e.projectId == opts.projectId.value)
    && (opts.projectId.None? && opts.projectIds.Some? ==> e.projectId in opts.projectIds.value)
    && (e.archived ==> opts.includeArchived)
  }

  /** Created in a later millisecond, or in the same one under a greater id. */
  ghost predicate Newer(x: AgentEntry, y: AgentEntry) {
    x.createdAtUs / 1000 > y.createdAtUs / 1000 || (x.createdAtUs / 1000 == y.createdAtUs / 1000 && x.id > y.id)
  }

  /** Older than the entry the cursor names, if there is one. */
  ghost predicate PastCursor(cursor: Option<Key>, e: AgentEntry) {
    cursor.Some? ==>
      e.createdAtUs / 1000 < cursor.value.major || (e.createdAtUs / 1000 == cursor.value.major && e.id < cursor.value.minor)
  }

  /** The newest entries asked for, at most `limit` of them, and a cursor to the last one exactly when more remain. */
  ghost predicate IsListing(table: seq<AgentEntry>, opts: ListOptions, limit: nat, items: seq<AgentEntry>, next: Option<Key>) {
    && (forall i, j | 0 <= i < j < |items| :: Newer(items[i], items[j]))
    && (forall x | x in items :: x in table && Listed(opts, x) && PastCursor(opts.cursor, x))
    && |items| <= limit
    && (next.None? ==> forall x | x in table && Listed(opts, x) && PastCursor(opts.cursor, x) :: x in items)
    && (next.Some? ==>
          && |items| == limit && items != []
          && var last := items[|items| - 1];
             && next.value == Key(last.createdAtUs / 1000, last.id)
             && (forall x | x in table && Listed(opts, x) && PastCursor(opts.cursor, x) :: x in items || Newer(last, x))
             && exists x :: x in table && Listed(opts, x) && PastCursor(opts.cursor, x) && x !in items)
  }

  lemma MatchesListed(opts: ListOptions, e: AgentEntry)
    ensures Matches(opts, e) <==> Listed(opts, e)
  {
  }

  lemma PageIsListing(table: seq<AgentEntry>, opts: ListOptions, limit: nat, page: Page<AgentEntry>)
    requires IsPage(table, Wanted(opts), KeyOf, limit, opts.cursor, page)
    ensures IsListing(table, opts, limit, page.items, page.next)
  {
    hide Matches, Listed;
    forall x ensures Eligible(table, Wanted(opts), KeyOf, opts.cursor, x) <==>
                     x in table && Listed(opts, x) && PastCursor(opts.cursor, x) {
      MatchesListed(opts, x);
    }
    forall i, j | 0 <= i < j < |page.items| ensures Newer(page.items[i], page.items[j]) {
      assert Before(KeyOf(page.items[i]), KeyOf(page.items[j]));
    }
  }

  method List(table: seq<AgentEntry>, opts: ListOptions) returns (items: seq<AgentEntry>, nextCursor: Option<Key>)
    requires DistinctIds(table)
    ensures Page(items, nextCursor) == PageOf(table, Wanted(opts), KeyOf, ClampLimit(opts.limit), opts.cursor)
    ensures IsPage(table, Wanted(opts), KeyOf, ClampLimit(opts.limit), opts.cursor, Page(items, nextCursor))
    ensures IsListing(table, opts, ClampLimit(opts.limit), items, nextCursor)
    ensures opts.projectIds == Some({}) ==> items == [] && nextCursor == None
  {
    hide Wanted, Filters, IsPage, IsListing, Query;
    var limit := ClampLimit(opts.limit);
    assert DistinctKeys(table, KeyOf);
    PageIsPage(table, Wanted(opts), KeyOf, limit, opts.cursor);
    PageIsListing(table, opts, limit, PageOf(table, Wanted(opts), KeyOf, limit, opts.cursor));
    if opts.projectIds.Some? && opts.projectIds.value == {} {
      NothingListed(table, opts);
      return [], None;
    }
    var rows := Query(table, Filters(opts), KeyOf, opts.cursor, limit + 1);
    FiltersSuffice(table, opts, limit + 1);
    var hasMore := |rows| > limit;
    items := if hasMore then rows[..limit] else rows;
    nextCursor := if hasMore then Some(KeyOf(items[|items| - 1])) else None;
  }

  lemma FiltersSuffice(table: seq<AgentEntry>, opts: ListOptions, n: nat)
    requires opts.projectIds != Some({})
    ensures Query(table, Wanted(opts), KeyOf, opts.cursor, n) == Query(table, Filters(opts), KeyOf, opts.cursor, n)
  {
    hide Query, PassesFilters;
    SameQuery(table, Wanted(opts), Filters(opts), opts.cursor, n);
  }

  lemma NothingListed(table: seq<AgentEntry>, opts: ListOptions)
    requires opts.projectIds == Some({})
    ensures forall n: nat :: Query(table, Wanted(opts), KeyOf, opts.cursor, n) == []
  {
    hide Query, PassesFilters;
    NothingMatches(table, Wanted(opts), opts.cursor);
  }

  lemma {:induction false} SameFilter(table: seq<AgentEntry>, p: AgentEntry -> bool, q: AgentEntry -> bool)
    requires forall e :: e in table ==> (p(e) <==> q(e))
    ensures Filter(table, p) == Filter(table, q)
  {
    if table != [] {
      assert table == table[..|table| - 1] + [table[|table| - 1]];
      SameFilter(table[..|table| - 1], p, q);
    }
  }

  lemma SameQuery(table: seq<AgentEntry>, p: AgentEntry -> bool, q: AgentEntry -> bool, cursor: Option<Key>, n: nat)
    requires forall e :: e in table ==> (p(e) <==> q(e))
    ensures Query(table, p, KeyOf, cursor, n) == Query(table, q, KeyOf, cursor, n)
  {
    SameFilter(table, Asked(p, KeyOf, cursor), Asked(q, KeyOf, cursor));
  }

  lemma NothingMatches(table: seq<AgentEntry>, p: AgentEntry -> bool, cursor: Option<Key>)
    requires forall e :: e in table ==> !p(e)
    ensures forall n: nat :: Query(table, p, KeyOf, cursor, n) == []
  {
    HeadIsIn(Filter(table, Asked(p, KeyOf, cursor)));
  }

  lemma HeadIsIn(s: seq<AgentEntry>)
    ensures s != [] ==> s[0] in s
  {
  }

  /** Creation times never change, and a table has one row an id. */
  ghost predicate Consistent(visits: seq<Visit<AgentEntry>>) {
    && (forall i :: 0 <= i < |visits| ==> visits[i].limit >= 1 && DistinctIds(visits[i].table))
    && (forall i, j, x, y | 0 <= i < |visits| && 0 <= j < |visits| && x in visits[i].table && y in visits[j].table ::
          x.id == y.id ==> x.createdAtUs == y.createdAtUs)
  }

  ghost predicate PresentThroughout(visits: seq<Visit<AgentEntry>>, opts: ListOptions, id: nat) {
    forall i :: 0 <= i < |visits| ==> exists x :: x in visits[i].table && Listed(opts, x) && x.id == id
  }

  /**
   * Following the cursors to the end lists every definition that was there and matched throughout,
   * and no id twice, in descending (millisecond, id) order, whatever the limits and whatever is
   * inserted, archived or removed between the pages.
   */
  lemma ListWalk(visits: seq<Visit<AgentEntry>>, opts: ListOptions)
    requires Consistent(visits)
    ensures var w := WalkOf(visits, Wanted(opts), KeyOf, None);
            && (forall i, j | 0 <= i < j < |w.items| :: Newer(w.items[i], w.items[j]))
            && (forall i, j :: 0 <= i < j < |w.items| ==> w.items[i].id != w.items[j].id)
            && (forall x :: x in w.items ==> Listed(opts, x) && exists i :: 0 <= i < |visits| && x in visits[i].table)
            && (w.ended ==> forall id: nat :: PresentThroughout(visits, opts, id) ==>
                  exists i :: 0 <= i < |w.items| && w.items[i].id == id)
  {
    var w := WalkOf(visits, Wanted(opts), KeyOf, None);
    VisitsProper(visits);
    WalkIsExact(visits, Wanted(opts), KeyOf, None);
    forall i, j | 0 <= i < j < |w.items|
      ensures Newer(w.items[i], w.items[j]) && w.items[i].id != w.items[j].id
    {
      NoRepeat(visits, opts, w.items, i, j);
      assert Before(KeyOf(w.items[i]), KeyOf(w.items[j]));
    }
    forall x | x in w.items ensures Listed(opts, x) && exists i :: 0 <= i < |visits| && x in visits[i].table {
      assert Seen(visits, Wanted(opts), x);
      MatchesListed(opts, x);
    }
    if w.ended {
      forall id: nat | PresentThroughout(visits, opts, id)
        ensures exists i :: 0 <= i < |w.items| && w.items[i].id == id
      {
        KeyThroughout(visits, opts, id, w.items);
      }
    }
  }

  lemma VisitsProper(visits: seq<Visit<AgentEntry>>)
    requires Consistent(visits)
    ensures Proper(visits, KeyOf)
  {
    forall i | 0 <= i < |visits| ensures DistinctKeys(visits[i].table, KeyOf) {
      assert DistinctIds(visits[i].table);
    }
  }

  lemma NoRepeat(visits: seq<Visit<AgentEntry>>, opts: ListOptions, items: seq<AgentEntry>, i: nat, j: nat)
    requires Consistent(visits) && i < j < |items| && Descending(items, KeyOf)
    requires forall x :: x in items ==> Seen(visits, Wanted(opts), x)
    ensures items[i].id != items[j].id
  {
    assert items[i] in items && items[j] in items;
    assert Before(KeyOf(items[i]), KeyOf(items[j]));
    if items[i].id == items[j].id {
      SameIdSameKey(visits, Wanted(opts), items[i], items[j]);
    }
  }

  lemma SameIdSameKey(visits: seq<Visit<AgentEntry>>, p: AgentEntry -> bool, x: AgentEntry, y: AgentEntry)
    requires Consistent(visits) && Seen(visits, p, x) && Seen(visits, p, y) && x.id == y.id
    ensures KeyOf(x) == KeyOf(y)
  {
  }

  lemma PresentAt(visits: seq<Visit<AgentEntry>>, opts: ListOptions, id: nat, i: nat) returns (x: AgentEntry)
    requires PresentThroughout(visits, opts, id) && i < |visits|
    ensures x in visits[i].table && Matches(opts, x) && x.id == id
  {
    var table := visits[i].table;
    x :| x in table && Listed(opts, x) && x.id == id;
    MatchesListed(opts, x);
  }

  lemma KeyThroughout(visits: seq<Visit<AgentEntry>>, opts: ListOptions, id: nat, items: seq<AgentEntry>)
    requires Consistent(visits) && visits != [] && PresentThroughout(visits, opts, id)
    requires forall k :: Throughout(visits, Wanted(opts), KeyOf, k) ==> exists x :: x in items && KeyOf(x) == k
    ensures exists i :: 0 <= i < |items| && items[i].id == id
  {
    var x := PresentAt(visits, opts, id, 0);
    var k := KeyOf(x);
    forall i | 0 <= i < |visits| ensures exists y :: y in visits[i].table && Wanted(opts)(y) && KeyOf(y) == k {
      var y := PresentAt(visits, opts, id, i);
      assert y.createdAtUs == x.createdAtUs;
      assert Wanted(opts)(y) && KeyOf(y) == k;
    }
    assert Throughout(visits, Wanted(opts), KeyOf, k);
    var y :| y in items && KeyOf(y) == k;
    var i :| 0 <= i < |items| && items[i] == y;
  }

  // ---------------------------------------------------------------- version history

  datatype VersionSummary = VersionSummary(version: int, changeNote: Option<string>, createdBy: Option<int>, createdAt: int)

  function VersionKey(v: VersionSummary): Key {
    Key(v.version, 0)
  }

  predicate AnyVersion(v: VersionSummary) {
    true
  }

  ghost predicate DistinctVersions(table: seq<VersionSummary>) {
    forall i, j :: 0 <= i < j < |table| ==> table[i].version != table[j].version
  }

  /** The latest versions below the cursor, at most `limit`, and a cursor to the last one exactly when more remain. */
  ghost predicate IsHistory(table: seq<VersionSummary>, limit: nat, below: Option<int>, page: Page<VersionSummary>) {
    && (forall i, j | 0 <= i < j < |page.items| :: page.items[i].version > page.items[j].version)
    && (forall v | v in page.items :: v in table && (below.Some? ==> v.version < below.value))
    && |page.items| <= limit
    && (page.next.None? ==> forall v | v in table && (below.Some? ==> v.version < below.value) :: v in page.items)
    && (page.next.Some? ==>
          && |page.items| == limit && page.items != [] && page.next.value.major == page.items[|page.items| - 1].version
          && (forall v | v in table && (below.Some? ==> v.version < below.value) ::
                v in page.items || v.version < page.next.value.major)
          && exists v :: v in table && (below.Some? ==> v.version < below.value) && v !in page.items)
  }

  lemma PageIsHistory(table: seq<VersionSummary>, limit: nat, below: Option<int>, page: Page<VersionSummary>)
    requires IsPage(table, AnyVersion, VersionKey, limit,
                    if below.Some? then Some(Key(below.value, 0)) else None, page)
    ensures IsHistory(table, limit, below, page)
  {
    var cursor := if below.Some? then Some(Key(below.value, 0)) else None;
    forall v ensures Eligible(table, AnyVersion, VersionKey, cursor, v) <==>
                     v in table && (below.Some? ==> v.version < below.value) {
    }
    forall i, j | 0 <= i < j < |page.items| ensures page.items[i].version > page.items[j].version {
      assert Before(VersionKey(page.items[i]), VersionKey(page.items[j]));
    }
  }

  lemma VersionKeysDistinct(table: seq<VersionSummary>)
    requires DistinctVersions(table)
    ensures DistinctKeys(table, VersionKey)
  {
  }

  /** The versions of one agent, newest first; None where the agent does not exist. */
  method ListVersions(agentExists: bool, table: seq<VersionSummary>, limit: Option<real>, cursorVersion: Option<int>)
    returns (r: Option<Page<VersionSummary>>)
    requires DistinctVersions(table)
    ensures r.Some? <==> agentExists
    ensures r.Some? ==>
      IsPage(table, AnyVersion, VersionKey, ClampLimit(limit),
             if cursorVersion.Some? then Some(Key(cursorVersion.value, 0)) else None, r.value)
    ensures r.Some? ==> IsHistory(table, ClampLimit(limit), cursorVersion, r.value)
  {
    hide IsPage, IsHistory, DistinctKeys, InOrder, ClampLimit;
    var n := ClampLimit(limit);
    if !agentExists {
      return None;
    }
    VersionKeysDistinct(table);
    var cursor := if cursorVersion.Some? then Some(Key(cursorVersion.value, 0)) else None;
    var rows := Query(table, AnyVersion, VersionKey, cursor, n + 1);
    var hasMore := |rows| > n;
    var items := if hasMore then rows[..n] else rows;
    r := Some(Page(items, if hasMore then Some(VersionKey(items[|items| - 1])) else None));
    PageIsPage(table, AnyVersion, VersionKey, n, cursor);
    PageIsHistory(table, n, cursorVersion, r.value);
  }
}
