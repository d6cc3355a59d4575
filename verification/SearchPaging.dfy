/** Keyset pagination of event searches over a fixed table. */
module SearchPaging {
  import opened Wrappers
  import opened Sorting

  datatype Row = Row(id: string, tenant: string, timed: bool, seconds: int, nanos: int, body: string)

  datatype View = View(id: string, tenant: string, eventTime: Option<(int, int)>, body: string)

  datatype Direction = Ascending | Descending

  datatype Cursor = Cursor(seconds: int, nanos: int, id: string)

  /** A prepared search: tenant, half-open time range, compiled condition, direction and page size. */
  datatype Search = Search(tenant: string, from: (int, int), to: (int, int), where_: Row -> bool,
    direction: Direction, limit: nat)

  /** What a stored row must satisfy to be shown: a version-7 identifier and a well-formed document. */
  type Shown = Row -> bool

  datatype Page = Page(items: seq<View>, next: Option<Cursor>, truncated: bool)

  predicate TupleLess(a: (int, int), b: (int, int)) {
    a.0 < b.0 || (a.0 == b.0 && a.1 < b.1)
  }

  predicate Matches(q: Search, r: Row) {
    && r.tenant == q.tenant && r.timed
    && !TupleLess((r.seconds, r.nanos), q.from) && TupleLess((r.seconds, r.nanos), q.to)
    && q.where_(r)
  }

  /** The three-way disjunction of the keyset condition. */
  predicate Keyset(d: Direction, c: Cursor, r: Row) {
    if d == Ascending then
      || r.seconds > c.seconds
      || (r.seconds == c.seconds && r.nanos > c.nanos)
      || (r.seconds == c.seconds && r.nanos == c.nanos && StringLess(c.id, r.id))
    else
      || r.seconds < c.seconds
      || (r.seconds == c.seconds && r.nanos < c.nanos)
      || (r.seconds == c.seconds && r.nanos == c.nanos && StringLess(r.id, c.id))
  }

  predicate Selected(q: Search, c: Option<Cursor>, r: Row) {
    Matches(q, r) && (c.Some? ==> Keyset(q.direction, c.value, r))
  }

  // ----- order -----

  predicate KeyLess(a: Row, b: Row) {
    || TupleLess((a.seconds, a.nanos), (b.seconds, b.nanos))
    || (a.seconds == b.seconds && a.nanos == b.nanos && StringLess(a.id, b.id))
  }

  function RowOrder(d: Direction): (Row, Row) -> bool {
    if d == Ascending then (a: Row, b: Row) => KeyLess(a, b) else (a: Row, b: Row) => KeyLess(b, a)
  }

  lemma RowOrderIsPartial(d: Direction)
    ensures PartialOrder(RowOrder(d))
  {
    StringOrder();
  }

  /** Every event identifier occurs once. */
  ghost predicate DistinctIds(table: seq<Row>) {
    forall i, j :: 0 <= i < j < |table| ==> table[i].id != table[j].id
  }

  function CursorOf(r: Row): Cursor {
    Cursor(r.seconds, r.nanos, r.id)
  }

  /** The keyset condition is exactly "comes later in the page order than the cursor's row". */
  lemma KeysetIsLater(d: Direction, at: Row, r: Row)
    ensures Keyset(d, CursorOf(at), r) <==> RowOrder(d)(at, r)
  {
  }

  // ----- what a query returns -----

  function Filter(q: Search, c: Option<Cursor>, table: seq<Row>): (r: seq<Row>)
    ensures forall x :: x in r <==> x in table && Selected(q, c, x)
  {
    if table == [] then []
    else
      var rest := Filter(q, c, table[1..]);
      assert table == [table[0]] + table[1..];
      if Selected(q, c, table[0]) then [table[0]] + rest else rest
  }

  lemma {:induction false} FilterKeepsDistinct(q: Search, c: Option<Cursor>, table: seq<Row>)
    requires DistinctIds(table)
    ensures Distinct(Filter(q, c, table))
  {
    if table != [] {
      FilterKeepsDistinct(q, c, table[1..]);
      assert table[0] !in table[1..];
      assert table[0] !in Filter(q, c, table[1..]);
    }
  }

  /** All rows a search still has to deliver, in page order. */
  function Remaining(q: Search, c: Option<Cursor>, table: seq<Row>): (r: seq<Row>)
    ensures forall x :: x in r <==> x in table && Selected(q, c, x)
  {
    Sort(RowOrder(q.direction), Filter(q, c, table))
  }

  lemma TotalOnTable(d: Direction, table: seq<Row>, s: seq<Row>)
    requires DistinctIds(table) && forall x :: x in s ==> x in table
    ensures TotalOn(RowOrder(d), s)
  {
    forall x, y | x in s && y in s
      ensures x == y || RowOrder(d)(x, y) || RowOrder(d)(y, x)
    {
      var i :| 0 <= i < |table| && table[i] == x;
      var j :| 0 <= j < |table| && table[j] == y;
      StringLessTotal(x.id, y.id);
    }
  }

  lemma RemainingIsSorted(q: Search, c: Option<Cursor>, table: seq<Row>)
    requires DistinctIds(table)
    ensures Sorted(RowOrder(q.direction), Remaining(q, c, table))
  {
    hide RowOrder, Selected;
    FilterKeepsDistinct(q, c, table);
    RowOrderIsPartial(q.direction);
    TotalOnTable(q.direction, table, Filter(q, c, table));
    SortIsSorted(RowOrder(q.direction), Filter(q, c, table));
  }

  lemma Later(q: Search, c: Option<Cursor>, at: Row, x: Row)
    requires Selected(q, c, at)
    ensures Selected(q, Some(CursorOf(at)), x) <==> Selected(q, c, x) && RowOrder(q.direction)(at, x)
  {
    StringOrder();
    KeysetIsLater(q.direction, at, x);
    hide StrictOrder, Matches;
    if c.Some? && RowOrder(q.direction)(at, x) {
      var before := Row(c.value.id, "", true, c.value.seconds, c.value.nanos, "");
      KeysetIsLater(q.direction, before, at);
      KeysetIsLater(q.direction, before, x);
      RowOrderIsPartial(q.direction);
      assert RowOrder(q.direction)(before, at);
      assert RowOrder(q.direction)(before, x);
    }
  }

  lemma SuffixMember(less: (Row, Row) -> bool, s: seq<Row>, k: nat, x: Row)
    requires PartialOrder(less) && Sorted(less, s) && 1 <= k <= |s|
    ensures x in s[k..] <==> x in s && less(s[k - 1], x)
  {
    if x in s && less(s[k - 1], x) {
      var i :| 0 <= i < |s| && s[i] == x;
      assert k <= i;
      assert s[k..][i - k] == x;
    }
  }

  /** Continuing from the k-th remaining row leaves exactly the rows after it. */
  lemma CursorCutsThere(q: Search, c: Option<Cursor>, table: seq<Row>, k: nat)
    requires DistinctIds(table) && 1 <= k <= |Remaining(q, c, table)|
    ensures Remaining(q, Some(CursorOf(Remaining(q, c, table)[k - 1])), table) == Remaining(q, c, table)[k..]
  {
    var less, rows := RowOrder(q.direction), Remaining(q, c, table);
    var at := rows[k - 1];
    var rest := Remaining(q, Some(CursorOf(at)), table);
    RowOrderIsPartial(q.direction);
    RemainingIsSorted(q, c, table);
    RemainingIsSorted(q, Some(CursorOf(at)), table);
    assert at in rows;
    hide RowOrder, Selected, Remaining;
    forall x
      ensures x in rest <==> x in rows[k..]
    {
      Later(q, c, at, x);
      SuffixMember(less, rows, k, x);
    }
    SortedUnique(less, rest, rows[k..]);
  }

  // ----- one page -----

  function ViewOf(r: Row): View {
    View(r.id, r.tenant, if r.timed then Some((r.seconds, r.nanos)) else None, r.body)
  }

  function Views(rows: seq<Row>): (v: seq<View>)
    ensures |v| == |rows|
  {
    seq(|rows|, i requires 0 <= i < |rows| => ViewOf(rows[i]))
  }

  /** The views show the rows one for one, each under its own identity, tenant and time. */
  predicate ShowsAll(views: seq<View>, rows: seq<Row>) {
    && |views| == |rows|
    && forall i :: 0 <= i < |rows| ==>
         && views[i].id == rows[i].id && views[i].tenant == rows[i].tenant && views[i].body == rows[i].body
         && views[i].eventTime == Some((rows[i].seconds, rows[i].nanos))
  }

  lemma ViewsShow(q: Search, rows: seq<Row>)
    requires forall r :: r in rows ==> Matches(q, r)
    ensures ShowsAll(Views(rows), rows)
  {
    forall i | 0 <= i < |rows|
      ensures rows[i].timed
    {
      assert Matches(q, rows[i]);
    }
  }

  predicate AllShown(shown: Shown, rows: seq<Row>) {
    forall i :: 0 <= i < |rows| ==> shown(rows[i])
  }

  function Take(rows: seq<Row>, n: nat): seq<Row> {
    if |rows| <= n then rows else rows[..n]
  }

  /** A page: the next `limit` rows, and a cursor when more remain. */
  ghost function PageOf(q: Search, shown: Shown, c: Option<Cursor>, table: seq<Row>): Option<Page>
    requires 1 <= q.limit
  {
    var rows := Remaining(q, c, table);
    if !AllShown(shown, Take(rows, q.limit)) then None
    else Some(Page(Views(Take(rows, q.limit)), if |rows| > q.limit then Some(CursorOf(rows[q.limit - 1])) else None,
      |rows| > q.limit))
  }

  /** One request: query one row more than the page, cut it off, show the rest. */
  method RunSearch(q: Search, shown: Shown, c: Option<Cursor>, table: seq<Row>) returns (r: Option<Page>)
    requires 1 <= q.limit
    ensures r == PageOf(q, shown, c, table)
  {
    var rows := Take(Remaining(q, c, table), q.limit + 1);
    var truncated := |rows| > q.limit;
    if truncated {
      rows := rows[..q.limit];
    }
    assert rows == Take(Remaining(q, c, table), q.limit);
    var items: seq<View> := [];
    for i := 0 to |rows|
      invariant items == Views(rows[..i])
      invariant AllShown(shown, rows[..i])
    {
      assert rows[..i + 1] == rows[..i] + [rows[i]];
      if !shown(rows[i]) {
        return None;
      }
      items := items + [ViewOf(rows[i])];
    }
    assert rows[..|rows|] == rows;
    var next: Option<Cursor> := None;
    if truncated && |rows| > 0 {
      next := Some(CursorOf(rows[|rows| - 1]));
    }
    return Some(Page(items, next, truncated));
  }

  // ----- following the cursors -----

  /** Everything a client collects by following cursors from `c`; None when a page fails. */
  ghost function Walk(q: Search, shown: Shown, c: Option<Cursor>, table: seq<Row>): Option<seq<View>>
    requires 1 <= q.limit && DistinctIds(table)
    decreases |Remaining(q, c, table)|
  {
    match PageOf(q, shown, c, table)
    case None => None
    case Some(page) =>
      if page.next.None? then Some(page.items)
      else
        CursorCutsThere(q, c, table, q.limit);
        match Walk(q, shown, page.next, table)
        case None => None
        case Some(rest) => Some(page.items + rest)
  }

  lemma {:induction false} WalkDelivers(q: Search, shown: Shown, c: Option<Cursor>, table: seq<Row>)
    requires 1 <= q.limit && DistinctIds(table)
    ensures Walk(q, shown, c, table) ==
            if AllShown(shown, Remaining(q, c, table)) then Some(Views(Remaining(q, c, table))) else None
    decreases |Remaining(q, c, table)|
  {
    var rows := Remaining(q, c, table);
    hide Remaining;
    if |rows| > q.limit {
      var head, tail := rows[..q.limit], rows[q.limit..];
      assert rows == head + tail;
      assert Views(rows) == Views(head) + Views(tail);
      assert AllShown(shown, rows) <==> AllShown(shown, head) && AllShown(shown, tail) by {
        ShownSplits(shown, head, tail);
      }
      if AllShown(shown, head) {
        CursorCutsThere(q, c, table, q.limit);
        WalkDelivers(q, shown, Some(CursorOf(rows[q.limit - 1])), table);
      }
    }
  }

  lemma ShownSplits(shown: Shown, a: seq<Row>, b: seq<Row>)
    ensures AllShown(shown, a + b) <==> AllShown(shown, a) && AllShown(shown, b)
  {
    if AllShown(shown, a + b) {
      forall i | 0 <= i < |a|
        ensures shown(a[i])
      {
        assert (a + b)[i] == a[i];
      }
      forall i | 0 <= i < |b|
        ensures shown(b[i])
      {
        assert (a + b)[|a| + i] == b[i];
      }
    }
  }

  /**
   * Pagination loses and repeats nothing: from the first page on, for every page size and direction,
   * following the cursors ends and delivers every matching row once, in order; it fails exactly when
   * some matching row cannot be shown.
   */
  lemma PaginationIsExact(q: Search, shown: Shown, table: seq<Row>)
    requires 1 <= q.limit && DistinctIds(table)
    ensures var all := Remaining(q, None, table);
            && (forall x :: x in all <==> x in table && Matches(q, x))
            && Sorted(RowOrder(q.direction), all) && Distinct(all)
            && (Walk(q, shown, None, table).Some? <==> AllShown(shown, all))
            && (AllShown(shown, all) ==> ShowsAll(Walk(q, shown, None, table).value, all))
  {
    WalkDelivers(q, shown, None, table);
    ViewsShow(q, Remaining(q, None, table));
    RemainingIsSorted(q, None, table);
    RowOrderIsPartial(q.direction);
    hide RowOrder, Remaining, Matches;
  }
}
