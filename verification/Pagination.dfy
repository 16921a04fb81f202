/** Keyset pagination: pages after a cursor, and the walk a client makes along next-cursors
    (backend/app/routers/admin.py, backend/app/routers/audit.py and their repositories). */
module Pagination {
  import opened Wrappers
  import opened Text
  import opened Sorting

  /** A decoded cursor. It is readable when cursor_time and the id check accept it. */
  datatype Cursor<+K> = Cursor(key: K, readable: bool)

  datatype Page<+R, +K> = Page(items: seq<R>, next: Option<Cursor<K>>)

  /** One cursor route over a fixed table: `rows` pass the filter, `le` is the ORDER BY, `maxLimit` bounds the
      query parameter, and `maxFetch` is the repository's own bound on the rows it is asked for. */
  datatype Listing<!R, !K> = Listing(
    rows: seq<R>, key: R -> K, le: (K, K) -> bool, readable: R -> bool,
    maxLimit: nat, maxFetch: Option<nat>, filterAccepted: bool)

  ghost predicate KeyOrder<K(!new)>(le: (K, K) -> bool) {
    && TotalPreorder(le)
    && forall x, y :: le(x, y) && le(y, x) ==> x == y
  }

  ghost predicate UniqueKeys<R, K>(rows: seq<R>, key: R -> K) {
    forall i, j :: 0 <= i < j < |rows| ==> key(rows[i]) != key(rows[j])
  }

  ghost predicate Valid<R, K(!new)>(l: Listing<R, K>) {
    KeyOrder(l.le) && UniqueKeys(l.rows, l.key)
  }

  function ByKey<R, K>(l: Listing<R, K>): (R, R) -> bool {
    (a, b) => l.le(l.key(a), l.key(b))
  }

  /** The WHERE clause: strictly after the cursor key in ORDER BY order. */
  function IsAfter<R, K>(l: Listing<R, K>, after: Option<K>): R -> bool {
    r => after.None? || !l.le(l.key(r), after.value)
  }

  function Rest<R, K>(l: Listing<R, K>, after: Option<K>): seq<R> {
    Filter(l.rows, IsAfter(l, after))
  }

  function Ordered<R, K>(l: Listing<R, K>): seq<R> {
    Sort(l.rows, ByKey(l))
  }

  function Fetch<R, K>(l: Listing<R, K>, after: Option<K>, n: nat): seq<R> {
    Take(Sort(Rest(l, after), ByKey(l)), n)
  }

  function PageAfter<R, K>(l: Listing<R, K>, after: Option<K>, limit: nat): Page<R, K> {
    var fetched := Fetch(l, after, limit + 1);
    var items := Take(fetched, limit);
    var last := |items| - 1;
    Page(items, if |fetched| > limit && last >= 0 then Some(Cursor(l.key(items[last]), l.readable(items[last]))) else None)
  }

  function KeyOf<K>(cursor: Option<Cursor<K>>): Option<K> {
    match cursor case None => None case Some(c) => Some(c.key)
  }

  /** One request. */
  function Serve<R, K>(l: Listing<R, K>, cursor: Option<Cursor<K>>, limit: int): Result<Page<R, K>> {
    if limit < 1 || limit > l.maxLimit then Failure("Unprocessable limit")
    else if cursor.Some? && !cursor.value.readable then Failure("Invalid cursor")
    else if l.maxFetch.Some? && limit + 1 > l.maxFetch.value then Failure("Invalid cursor")
    else if !l.filterAccepted then Failure("Invalid cursor")
    else Success(PageAfter(l, KeyOf(cursor), limit))
  }

  /** The client's walk: request, then follow next_cursor until there is none. */
  function Walk<R(!new), K(!new)>(l: Listing<R, K>, cursor: Option<Cursor<K>>, limit: int): Result<seq<seq<R>>>
    requires Valid(l)
    decreases |Rest(l, KeyOf(cursor))|
  {
    var page :- Serve(l, cursor, limit);
    if page.next.None? then Success([page.items])
    else
      NextShrinks(l, KeyOf(cursor), limit);
      var rest :- Walk(l, page.next, limit);
      Success([page.items] + rest)
  }

  function Concat<T>(pages: seq<seq<T>>): seq<T> {
    if |pages| == 0 then [] else pages[0] + Concat(pages[1..])
  }

  // Each cursor leaves fewer rows: the walk ends

  lemma NextShrinks<R(!new), K(!new)>(l: Listing<R, K>, after: Option<K>, limit: nat)
    requires Valid(l) && PageAfter(l, after, limit).next.Some?
    ensures |Rest(l, KeyOf(PageAfter(l, after, limit).next))| < |Rest(l, after)|
  {
    var page := PageAfter(l, after, limit);
    var rest := Rest(l, after);
    var last := page.items[|page.items| - 1];
    assert last in Sort(rest, ByKey(l));
    SortMembers(rest, ByKey(l), last);
    FilterMembers(l.rows, IsAfter(l, after), last);
    var p, q := IsAfter(l, after), IsAfter(l, Some(l.key(last)));
    forall r | r in l.rows && q(r) ensures p(r) {
      if after.Some? {
        assert !l.le(l.key(last), after.value) && !l.le(l.key(r), l.key(last));
      }
    }
    FilterNarrows(l.rows, p, q);
    FilterDrops(rest, q, last);
  }

  // Pages are consecutive slices of the ordered table

  lemma ByKeyIsOrder<R(!new), K(!new)>(l: Listing<R, K>)
    requires Valid(l)
    ensures TotalPreorder(ByKey(l))
  {
  }

  /** In order, with distinct keys: nothing at or before i comes after row i, everything later does. */
  lemma {:induction false} AfterRow<R(!new), K(!new)>(l: Listing<R, K>, s: seq<R>, i: nat)
    requires KeyOrder(l.le) && Sorted(s, ByKey(l)) && UniqueKeys(s, l.key) && i < |s|
    ensures Filter(s, IsAfter(l, Some(l.key(s[i])))) == s[i + 1..]
    decreases |s|
  {
    var p := IsAfter(l, Some(l.key(s[i])));
    if i == 0 {
      forall x | x in s[1..] ensures p(x) {
        var j :| 0 < j < |s| && s[j] == x;
        assert ByKey(l)(s[0], s[j]);
      }
      FilterKeepsAll(s[1..], p);
    } else {
      assert ByKey(l)(s[0], s[i]);
      forall a, b | 0 <= a < b < |s[1..]| ensures ByKey(l)(s[1..][a], s[1..][b]) {
        assert ByKey(l)(s[a + 1], s[b + 1]);
      }
      AfterRow(l, s[1..], i - 1);
      assert s[1..][i..] == s[i + 1..];
    }
  }

  lemma OrderedUnique<R(!new), K(!new)>(l: Listing<R, K>)
    requires Valid(l)
    ensures Sorted(Ordered(l), ByKey(l)) && UniqueKeys(Ordered(l), l.key)
  {
    ByKeyIsOrder(l);
    SortSorts(l.rows, ByKey(l));
    SortUniqueKeys(l.rows, ByKey(l), l.key);
  }

  lemma {:induction false} InsertUniqueKeys<R(!new), K>(x: R, s: seq<R>, le: (R, R) -> bool, key: R -> K)
    requires UniqueKeys(s, key) && forall i :: 0 <= i < |s| ==> key(s[i]) != key(x)
    ensures UniqueKeys(Insert(x, s, le), key)
  {
    if |s| == 0 || le(x, s[0]) {
    } else {
      InsertUniqueKeys(x, s[1..], le, key);
      var rest := Insert(x, s[1..], le);
      forall j | 0 <= j < |rest| ensures key(rest[j]) != key(s[0]) {
        InsertPermutes(x, s[1..], le);
        assert rest[j] in multiset(rest);
        assert rest[j] == x || rest[j] in s[1..];
      }
    }
  }

  lemma {:induction false} SortUniqueKeys<R(!new), K>(s: seq<R>, le: (R, R) -> bool, key: R -> K)
    requires UniqueKeys(s, key)
    ensures UniqueKeys(Sort(s, le), key)
  {
    if |s| == 0 {
    } else {
      SortUniqueKeys(s[1..], le, key);
      var rest := Sort(s[1..], le);
      forall i | 0 <= i < |rest| ensures key(rest[i]) != key(s[0]) {
        SortMembers(s[1..], le, rest[i]);
      }
      InsertUniqueKeys(s[0], rest, le, key);
    }
  }

  /** The cursor names the first `i` rows of the ordered table. */
  ghost predicate Marks<R(!new), K(!new)>(l: Listing<R, K>, after: Option<K>, i: nat) {
    if i == 0 then after.None? else i <= |Ordered(l)| && after == Some(l.key(Ordered(l)[i - 1]))
  }

  lemma FetchIsSlice<R(!new), K(!new)>(l: Listing<R, K>, after: Option<K>, i: nat, n: nat)
    requires Valid(l) && Marks(l, after, i)
    ensures i <= |Ordered(l)| && Fetch(l, after, n) == Take(Ordered(l)[i..], n)
  {
    ByKeyIsOrder(l);
    OrderedUnique(l);
    SortFilter(l.rows, ByKey(l), IsAfter(l, after));
    if i == 0 {
      FilterKeepsAll(Ordered(l), IsAfter(l, after));
    } else {
      AfterRow(l, Ordered(l), i - 1);
    }
  }

  lemma PageIsSlice<R(!new), K(!new)>(l: Listing<R, K>, after: Option<K>, i: nat, limit: nat)
    requires Valid(l) && Marks(l, after, i) && limit >= 1
    ensures i <= |Ordered(l)|
    ensures var s, page := Ordered(l), PageAfter(l, after, limit);
      if i + limit < |s|
      then page == Page(s[i..i + limit], Some(Cursor(l.key(s[i + limit - 1]), l.readable(s[i + limit - 1]))))
      else page == Page(s[i..], None)
  {
    hide Fetch, Ordered;
    FetchIsSlice(l, after, i, limit + 1);
  }

  // The whole walk

  /** Counting pages of `limit` rows from row i, row k is the last of its page. */
  predicate EndsPage(i: nat, k: int, limit: nat)
    requires limit >= 1
  {
    (k + 1 - i) % limit == 0
  }

  /** The last row of every page but the last makes a cursor the route will read back. */
  ghost predicate CursorsReadable<R, K>(l: Listing<R, K>, s: seq<R>, i: nat, limit: nat)
    requires limit >= 1
  {
    forall k :: i <= k < |s| - 1 && EndsPage(i, k, limit) ==> l.readable(s[k])
  }

  predicate RequestAccepted<R, K>(l: Listing<R, K>, limit: int) {
    1 <= limit <= l.maxLimit && (l.maxFetch.Some? ==> limit + 1 <= l.maxFetch.value) && l.filterAccepted
  }

  lemma StepPages(i: nat, k: int, limit: nat)
    requires limit >= 1 && k >= i + limit
    ensures EndsPage(i, k, limit) <==> EndsPage(i + limit, k, limit)
  {
    var d := k + 1 - (i + limit);
    assert d + limit == (d / limit + 1) * limit + d % limit;
    ModUnique(d + limit, limit, d / limit + 1, d % limit);
  }

  lemma FirstPageEnd(i: nat, k: int, limit: nat)
    requires limit >= 1 && i <= k < i + limit
    ensures EndsPage(i, k, limit) <==> k == i + limit - 1
  {
    if k == i + limit - 1 {
      ModUnique(limit, limit, 1, 0);
    } else {
      ModUnique(k + 1 - i, limit, 0, k + 1 - i);
    }
  }

  lemma ModUnique(a: nat, m: nat, q: nat, r: nat)
    requires m >= 1 && r < m && a == q * m + r
    ensures a % m == r
  {
    var d := q - a / m;
    assert a == (a / m) * m + a % m;
    assert d * m == q * m - (a / m) * m;
    assert d * m == a % m - r;
    MultiplesSpread(d, m);
  }

  lemma MultiplesSpread(d: int, m: nat)
    ensures d >= 1 ==> d * m >= m
    ensures d <= -1 ==> -(d * m) >= m
  {
    if d >= 1 {
      assert d * m == (d - 1) * m + m;
    } else if d <= -1 {
      assert -(d * m) == (-d - 1) * m + m;
    }
  }

  lemma FirstCursor<R, K>(l: Listing<R, K>, s: seq<R>, i: nat, limit: nat)
    requires limit >= 1 && i + limit < |s|
    ensures CursorsReadable(l, s, i, limit) <==> l.readable(s[i + limit - 1]) && CursorsReadable(l, s, i + limit, limit)
  {
    hide EndsPage;
    forall k | i <= k < |s| - 1
      ensures EndsPage(i, k, limit) <==> k == i + limit - 1 || (k >= i + limit && EndsPage(i + limit, k, limit))
    {
      if k < i + limit {
        FirstPageEnd(i, k, limit);
      } else {
        StepPages(i, k, limit);
      }
    }
    assert EndsPage(i, i + limit - 1, limit);
  }

  lemma {:induction false} WalkFrom<R(!new), K(!new)>(l: Listing<R, K>, cursor: Option<Cursor<K>>, i: nat, limit: nat)
    requires Valid(l) && RequestAccepted(l, limit)
    requires Marks(l, KeyOf(cursor), i) && (cursor.Some? ==> cursor.value.readable)
    ensures i <= |Ordered(l)|
    ensures Walk(l, cursor, limit).Success? <==> CursorsReadable(l, Ordered(l), i, limit)
    ensures Walk(l, cursor, limit).Success? ==> Concat(Walk(l, cursor, limit).value) == Ordered(l)[i..]
    decreases |Ordered(l)| - i
  {
    hide Ordered, PageAfter, CursorsReadable, Valid;
    var s := Ordered(l);
    PageIsSlice(l, KeyOf(cursor), i, limit);
    var page := PageAfter(l, KeyOf(cursor), limit);
    if i + limit < |s| {
      FirstCursor(l, s, i, limit);
      NextShrinks(l, KeyOf(cursor), limit);
      if page.next.value.readable {
        WalkFrom(l, page.next, i + limit, limit);
        var rest := Walk(l, page.next, limit);
        if rest.Success? {
          assert ([page.items] + rest.value)[1..] == rest.value;
          assert s[i..i + limit] + s[i + limit..] == s[i..];
        }
      }
    } else {
      LastPage(l, s, i, limit);
      assert Concat([page.items]) == page.items + Concat([]);
    }
  }

  lemma LastPage<R, K>(l: Listing<R, K>, s: seq<R>, i: nat, limit: nat)
    requires limit >= 1 && i + limit >= |s|
    ensures CursorsReadable(l, s, i, limit)
  {
    forall k | i <= k < |s| - 1 ensures !EndsPage(i, k, limit) {
      FirstPageEnd(i, k, limit);
    }
  }

  /** A walk ends with the whole table, in order, no row missed or repeated, exactly when the limit and filter are
      accepted and every cursor handed out on the way is one the route accepts back. */
  lemma WalkIsLossless<R(!new), K(!new)>(l: Listing<R, K>, limit: int)
    requires Valid(l)
    ensures Walk(l, None, limit).Success? <==> RequestAccepted(l, limit) && CursorsReadable(l, Ordered(l), 0, limit)
    ensures Walk(l, None, limit).Success? ==> Concat(Walk(l, None, limit).value) == Ordered(l)
  {
    hide Ordered, PageAfter, CursorsReadable, Valid;
    if RequestAccepted(l, limit) {
      WalkFrom(l, None, 0, limit);
    }
  }

  // GET /admin/jobs/cursor

  /** A stored instant, and whether reading it back yields a time zone. */
  datatype Time = Time(instant: int, zoned: bool)

  datatype JobRow = JobRow(id: string, created: Time, state: string)

  const JOB_STATES := {"PENDING", "RUNNING", "SUCCEEDED", "REVIEW", "FAILED", "DEAD", "CANCELLED"}

  predicate KnownState(state: Option<string>) {
    state.Some? ==>
      var s := state.value;
      s == "PENDING" || s == "RUNNING" || s == "SUCCEEDED" || s == "REVIEW" || s == "FAILED" || s == "DEAD" || s == "CANCELLED"
  }

  lemma StatesKnown(state: Option<string>)
    ensures KnownState(state) <==> state.None? || state.value in JOB_STATES
  {
  }

  /** created_at descending, then id ascending. */
  predicate JobLe(a: (int, string), b: (int, string)) {
    a.0 > b.0 || (a.0 == b.0 && LexLe(a.1, b.1))
  }

  function JobKey(r: JobRow): (int, string) {
    (r.created.instant, r.id)
  }

  function JobListing(table: seq<JobRow>, state: Option<string>): Listing<JobRow, (int, string)> {
    Listing(
      Filter(table, (r: JobRow) => state.None? || r.state == state.value), JobKey, JobLe,
      (r: JobRow) => r.created.zoned && r.id != "",
      500, Some(500), state.None? || state.value in JOB_STATES)
  }

  ghost predicate UniqueJobIds(table: seq<JobRow>) {
    forall i, j :: 0 <= i < j < |table| ==> table[i].id != table[j].id
  }

  lemma JobListingValid(table: seq<JobRow>, state: Option<string>)
    requires UniqueJobIds(table)
    ensures Valid(JobListing(table, state))
  {
    LexIsOrder();
    FilterUniqueKeys(table, JobListing(table, state).rows, (r: JobRow) => state.None? || r.state == state.value, JobKey);
  }

  lemma {:induction false} FilterUniqueKeys<R(!new), K>(s: seq<R>, t: seq<R>, p: R -> bool, key: R -> K)
    requires t == Filter(s, p) && UniqueKeys(s, key)
    ensures UniqueKeys(t, key)
  {
    if |s| == 0 {
    } else {
      var rest := Filter(s[1..], p);
      FilterUniqueKeys(s[1..], rest, p, key);
      forall i | 0 <= i < |rest| ensures key(rest[i]) != key(s[0]) {
        FilterMembers(s[1..], p, rest[i]);
      }
    }
  }

  /** Walking the job pages: page size 500, which the route accepts, is refused by the repository; and a table whose
      times are stored without a zone can be walked only when it fits one page, since its cursors are rejected. */
  lemma JobWalkExact(table: seq<JobRow>, state: Option<string>, limit: int)
    requires UniqueJobIds(table)
    ensures Valid(JobListing(table, state))
    ensures
      var l := JobListing(table, state);
      var walk := Walk(l, None, limit);
      && (walk.Success? <==>
            && 1 <= limit <= 499 && KnownState(state)
            && CursorsReadable(l, Ordered(l), 0, limit))
      && (walk.Success? ==> Concat(walk.value) == Ordered(l))
      && ((forall r :: r in table ==> r.created.zoned && r.id != "") ==>
            (walk.Success? <==> 1 <= limit <= 499 && KnownState(state)))
      && ((forall r :: r in table ==> !r.created.zoned) ==>
            (walk.Success? <==>
              1 <= limit <= 499 && KnownState(state) && |l.rows| <= limit))
  {
    hide KnownState;
    StatesKnown(state);
    JobListingValid(table, state);
    var l := JobListing(table, state);
    WalkIsLossless(l, limit);
    if RequestAccepted(l, limit) {
      SortPermutes(l.rows, ByKey(l));
      forall r | r in Ordered(l) ensures r in table {
        SortMembers(l.rows, ByKey(l), r);
        FilterMembers(table, (r: JobRow) => state.None? || r.state == state.value, r);
      }
      AllOrNone(l, Ordered(l), limit);
    }
  }

  lemma AllOrNone<R, K>(l: Listing<R, K>, s: seq<R>, limit: nat)
    requires limit >= 1
    ensures (forall r :: r in s ==> l.readable(r)) ==> CursorsReadable(l, s, 0, limit)
    ensures (forall r :: r in s ==> !l.readable(r)) ==> (CursorsReadable(l, s, 0, limit) <==> |s| <= limit)
  {
    if |s| <= limit {
      LastPage(l, s, 0, limit);
    } else {
      FirstCursor(l, s, 0, limit);
    }
  }

  // GET /audit/cursor

  datatype AuditRow = AuditRow(id: int, time: Time, action: string, actor: string, objectType: string, objectId: string)

  /** Empty texts stand for absent filters; documentIds is the visible set of a resource-scoped auditor. */
  datatype AuditQuery = AuditQuery(action: string, actor: string, objectId: string, documentIds: Option<set<int>>)

  predicate Matches(q: AuditQuery, r: AuditRow) {
    && (q.action == "" || r.action == q.action)
    && (q.actor == "" || r.actor == q.actor)
    && (q.objectId == "" || r.objectId == q.objectId)
    && (q.documentIds.Some? ==>
          r.objectType == "document" && exists d :: d in q.documentIds.value && d > 0 && r.objectId == IntText(d))
  }

  /** timestamp descending, then id descending. */
  predicate AuditLe(a: (int, int), b: (int, int)) {
    a.0 > b.0 || (a.0 == b.0 && a.1 >= b.1)
  }

  function AuditKey(r: AuditRow): (int, int) {
    (r.time.instant, r.id)
  }

  function AuditListing(table: seq<AuditRow>, q: AuditQuery): Listing<AuditRow, (int, int)> {
    Listing(
      Filter(table, (r: AuditRow) => Matches(q, r)), AuditKey, AuditLe,
      (r: AuditRow) => r.time.zoned && r.id > 0, 1000, None, true)
  }

  ghost predicate UniqueAuditIds(table: seq<AuditRow>) {
    forall i, j :: 0 <= i < j < |table| ==> table[i].id != table[j].id
  }

  /** The audit repository has no bound of its own: every page size of the route is served. But here too cursors
      without a zone are rejected, so a table whose times have none is walked only when it fits one page. */
  lemma AuditWalkExact(table: seq<AuditRow>, q: AuditQuery, limit: int)
    requires UniqueAuditIds(table)
    ensures Valid(AuditListing(table, q))
    ensures
      var l := AuditListing(table, q);
      var walk := Walk(l, None, limit);
      && (walk.Success? <==> 1 <= limit <= 1000 && CursorsReadable(l, Ordered(l), 0, limit))
      && (walk.Success? ==> Concat(walk.value) == Ordered(l))
      && (forall r :: r in Ordered(l) <==> r in table && Matches(q, r))
      && ((forall r :: r in table ==> r.time.zoned && r.id > 0) ==> (walk.Success? <==> 1 <= limit <= 1000))
      && ((forall r :: r in table ==> !r.time.zoned) ==> (walk.Success? <==> 1 <= limit <= 1000 && |l.rows| <= limit))
  {
    var l := AuditListing(table, q);
    FilterUniqueKeys(table, l.rows, (r: AuditRow) => Matches(q, r), AuditKey);
    assert Valid(l);
    WalkIsLossless(l, limit);
    forall r ensures r in Ordered(l) <==> r in table && Matches(q, r) {
      SortMembers(l.rows, ByKey(l), r);
      FilterMembers(table, (r: AuditRow) => Matches(q, r), r);
    }
    SortPermutes(l.rows, ByKey(l));
    if limit >= 1 {
      AllOrNone(l, Ordered(l), limit);
    }
  }

  // What a completed walk hands out, row by row

  /** Full pages, and a last one with what is left. */
  ghost predicate PagesFilled<R>(pages: seq<seq<R>>, limit: nat) {
    && |pages| > 0 && |pages[|pages| - 1]| <= limit
    && forall i :: 0 <= i < |pages| - 1 ==> |pages[i]| == limit
  }

  lemma {:induction false} WalkFillsPages<R(!new), K(!new)>(l: Listing<R, K>, cursor: Option<Cursor<K>>, limit: int)
    requires Valid(l) && Walk(l, cursor, limit).Success?
    ensures limit >= 1 && PagesFilled(Walk(l, cursor, limit).value, limit)
    decreases |Rest(l, KeyOf(cursor))|
  {
    hide Fetch, Valid, Rest;
    var page := Serve(l, cursor, limit).value;
    PageSize(l, KeyOf(cursor), limit);
    if page.next.Some? {
      NextShrinks(l, KeyOf(cursor), limit);
      WalkFillsPages(l, page.next, limit);
      var rest := Walk(l, page.next, limit).value;
      assert Walk(l, cursor, limit).value == [page.items] + rest;
    }
  }

  lemma PageSize<R(!new), K>(l: Listing<R, K>, after: Option<K>, limit: nat)
    requires limit >= 1
    ensures var page := PageAfter(l, after, limit);
      |page.items| <= limit && (page.next.Some? ==> |page.items| == limit)
  {
    hide Fetch;
  }

  predicate JobBefore(a: JobRow, b: JobRow) {
    a.created.instant > b.created.instant || (a.created.instant == b.created.instant && a.id != b.id && LexLe(a.id, b.id))
  }

  /** A completed walk over the jobs hands out, in full pages, exactly the rows in the state asked for, newest first and
      then by id, each once. */
  lemma JobWalkInOrder(table: seq<JobRow>, state: Option<string>, limit: int)
    requires UniqueJobIds(table) && Valid(JobListing(table, state)) && Walk(JobListing(table, state), None, limit).Success?
    ensures var pages := Walk(JobListing(table, state), None, limit).value;
      var all := Concat(pages);
      && (forall r :: r in all <==> r in table && (state == None || r.state == state.value))
      && (forall i, j :: 0 <= i < j < |all| ==> JobBefore(all[i], all[j]))
      && limit >= 1 && PagesFilled(pages, limit)
  {
    hide Walk, Valid;
    var l := JobListing(table, state);
    WalkFillsPages(l, None, limit);
    WalkIsLossless(l, limit);
    OrderedUnique(l);
    JobOrder(table, state);
    forall r ensures r in Ordered(l) <==> r in table && (state == None || r.state == state.value) {
      SortMembers(l.rows, ByKey(l), r);
      FilterMembers(table, (r: JobRow) => state.None? || r.state == state.value, r);
    }
  }

  lemma JobOrder(table: seq<JobRow>, state: Option<string>)
    requires var l := JobListing(table, state); Sorted(Ordered(l), ByKey(l)) && UniqueKeys(Ordered(l), l.key)
    ensures var all := Ordered(JobListing(table, state));
      forall i, j :: 0 <= i < j < |all| ==> JobBefore(all[i], all[j])
  {
    hide Filter, Sort;
    var l := JobListing(table, state);
    var all := Ordered(l);
    forall i, j | 0 <= i < j < |all| ensures JobBefore(all[i], all[j]) {
      assert ByKey(l)(all[i], all[j]) && l.key(all[i]) != l.key(all[j]);
      KeyOrdersJobs(all[i], all[j]);
    }
  }

  lemma KeyOrdersJobs(a: JobRow, b: JobRow)
    requires JobLe(JobKey(a), JobKey(b)) && JobKey(a) != JobKey(b)
    ensures JobBefore(a, b)
  {
    assert JobKey(a) == (a.created.instant, a.id) && JobKey(b) == (b.created.instant, b.id);
  }

  predicate AuditBefore(a: AuditRow, b: AuditRow) {
    a.time.instant > b.time.instant || (a.time.instant == b.time.instant && a.id > b.id)
  }

  /** The rows an auditor's query asks for: each filter given holds, and a resource-scoped auditor sees documents of
      the visible set only. */
  ghost predicate Asked(q: AuditQuery, r: AuditRow) {
    && q.action in {"", r.action} && q.actor in {"", r.actor} && q.objectId in {"", r.objectId}
    && match q.documentIds
       case None => true
       case Some(ids) => r.objectType == "document" && exists d :: d in ids && d >= 1 && IntText(d) == r.objectId
  }

  lemma AuditWalkInOrder(table: seq<AuditRow>, q: AuditQuery, limit: int)
    requires UniqueAuditIds(table) && Valid(AuditListing(table, q)) && Walk(AuditListing(table, q), None, limit).Success?
    ensures var pages := Walk(AuditListing(table, q), None, limit).value;
      var all := Concat(pages);
      && (forall r :: r in all <==> r in table && Asked(q, r))
      && (forall i, j :: 0 <= i < j < |all| ==> AuditBefore(all[i], all[j]))
      && limit >= 1 && PagesFilled(pages, limit)
  {
    hide Walk, Valid, IntText;
    var l := AuditListing(table, q);
    WalkFillsPages(l, None, limit);
    AuditWalkExact(table, q, limit);
    OrderedUnique(l);
    AuditOrder(table, q);
    forall r ensures Matches(q, r) <==> Asked(q, r) {
    }
  }

  lemma KeyOrdersAudit(a: AuditRow, b: AuditRow)
    requires AuditLe(AuditKey(a), AuditKey(b)) && AuditKey(a) != AuditKey(b)
    ensures AuditBefore(a, b)
  {
    assert AuditKey(a) == (a.time.instant, a.id) && AuditKey(b) == (b.time.instant, b.id);
  }

  lemma AuditOrder(table: seq<AuditRow>, q: AuditQuery)
    requires var l := AuditListing(table, q); Sorted(Ordered(l), ByKey(l)) && UniqueKeys(Ordered(l), l.key)
    ensures var all := Ordered(AuditListing(table, q));
      forall i, j :: 0 <= i < j < |all| ==> AuditBefore(all[i], all[j])
  {
    hide Filter, Sort;
    var l := AuditListing(table, q);
    var all := Ordered(l);
    forall i, j | 0 <= i < j < |all| ensures AuditBefore(all[i], all[j]) {
      assert ByKey(l)(all[i], all[j]) && l.key(all[i]) != l.key(all[j]);
      KeyOrdersAudit(all[i], all[j]);
    }
  }
}
