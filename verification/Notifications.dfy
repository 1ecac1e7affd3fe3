/**
 The notification centre: a page stitched from two sorted groups, and the retention prune.

 The queries order by creation time alone. Rows of one instant come in whatever order the database picks,
 so every result below is about one fixed such choice, the `tie` of an id.
 */
module Notifications {
  import opened Options

  type Id = nat

  datatype Row = Row(id: Id, recipient: Id, kind: nat, severity: nat, createdAt: int, readAt: Option<int>)

  type Tie = Id -> int

  const RETENTION_DAYS: int := 90
  const MAX_PER_RECIPIENT: nat := 200

  // ---------------------------------------------------------------- filtering and sorting

  function Filter(rows: seq<Row>, keep: Row -> bool): seq<Row> {
    if rows == [] then []
    else Filter(rows[..|rows| - 1], keep) + (if keep(rows[|rows| - 1]) then [rows[|rows| - 1]] else [])
  }

  datatype Order = Newest | UnreadFirst

  predicate Newer(tie: Tie, a: Row, b: Row) {
    a.createdAt > b.createdAt || (a.createdAt == b.createdAt && tie(a.id) < tie(b.id))
  }

  predicate Precedes(order: Order, tie: Tie, a: Row, b: Row) {
    match order
    case Newest => Newer(tie, a, b)
    case UnreadFirst => (a.readAt.None? && b.readAt.Some?) || (a.readAt.None? == b.readAt.None? && Newer(tie, a, b))
  }

  /** Puts `x` after every row that precedes it. */
  function Insert(order: Order, tie: Tie, x: Row, s: seq<Row>): seq<Row> {
    if s == [] then [x]
    else if Precedes(order, tie, s[0], x) then [s[0]] + Insert(order, tie, x, s[1..])
    else [x] + s
  }

  function Sorted(order: Order, tie: Tie, rows: seq<Row>): seq<Row> {
    if rows == [] then []
    else Insert(order, tie, rows[|rows| - 1], Sorted(order, tie, rows[..|rows| - 1]))
  }

  predicate InOrder(order: Order, tie: Tie, s: seq<Row>) {
    forall i, j :: 0 <= i < j < |s| ==> !Precedes(order, tie, s[j], s[i])
  }

  lemma {:induction false} InsertKeepsRows(order: Order, tie: Tie, x: Row, s: seq<Row>)
    ensures multiset(Insert(order, tie, x, s)) == multiset(s) + multiset{x}
    ensures forall r :: r in Insert(order, tie, x, s) ==> r == x || r in s
  {
    if s != [] {
      InsertKeepsRows(order, tie, x, s[1..]);
      assert s == [s[0]] + s[1..];
    }
  }

  lemma {:induction false} InsertIsOrdered(order: Order, tie: Tie, x: Row, s: seq<Row>)
    requires InOrder(order, tie, s)
    ensures InOrder(order, tie, Insert(order, tie, x, s))
  {
    if s != [] && Precedes(order, tie, s[0], x) {
      InsertIsOrdered(order, tie, x, s[1..]);
      InsertKeepsRows(order, tie, x, s[1..]);
      HeadFirst(order, tie, s[0], Insert(order, tie, x, s[1..]));
    }
  }

  lemma HeadFirst(order: Order, tie: Tie, head: Row, t: seq<Row>)
    requires InOrder(order, tie, t) && forall r <- t :: !Precedes(order, tie, r, head)
    ensures InOrder(order, tie, [head] + t)
  {
    var s := [head] + t;
    forall i, j | 0 <= i < j < |s| ensures !Precedes(order, tie, s[j], s[i]) {
      assert s[j] == t[j - 1];
      if i > 0 {
        assert s[i] == t[i - 1];
      }
    }
  }

  /** Sorting keeps the rows and puts them in order. */
  lemma {:induction false} SortedIsOrdered(order: Order, tie: Tie, rows: seq<Row>)
    ensures InOrder(order, tie, Sorted(order, tie, rows)) && multiset(Sorted(order, tie, rows)) == multiset(rows)
    ensures |Sorted(order, tie, rows)| == |rows|
  {
    if rows != [] {
      var n := |rows| - 1;
      SortedIsOrdered(order, tie, rows[..n]);
      InsertIsOrdered(order, tie, rows[n], Sorted(order, tie, rows[..n]));
      InsertKeepsRows(order, tie, rows[n], Sorted(order, tie, rows[..n]));
      assert rows == rows[..n] + [rows[n]];
    }
    assert |multiset(Sorted(order, tie, rows))| == |Sorted(order, tie, rows)|;
  }

  // ---------------------------------------------------------------- the list

  datatype Where = Where(recipient: Id, kind: Option<nat>, severity: Option<nat>, read: Option<bool>) {
    predicate Admits(row: Row) {
      && row.recipient == recipient
      && (kind.Some? ==> row.kind == kind.value)
      && (severity.Some? ==> row.severity == severity.value)
      && (read.Some? ==> row.readAt.Some? == read.value)
    }
  }

  datatype Page = Page(data: seq<Row>, number: nat, size: nat, totalItems: nat, totalPages: nat, unreadCount: nat)

  function Min(a: nat, b: nat): nat {
    if a < b then a else b
  }

  /** Rows `from` up to `to`, as far as there are any. */
  function Slice(s: seq<Row>, from: nat, to: nat): seq<Row>
    requires from <= to
  {
    s[Min(from, |s|)..Min(to, |s|)]
  }

  function TotalPages(items: nat, size: nat): (pages: nat)
    requires size > 0
  {
    if items == 0 then 1 else (items + size - 1) / size
  }

  /** All matching rows, unread before read, each group newest first. */
  function Listing(tie: Tie, rows: seq<Row>, w: Where): seq<Row> {
    Sorted(UnreadFirst, tie, Filter(rows, w.Admits))
  }

  function UnreadOnly(w: Where): Where {
    w.(read := Some(false))
  }

  function ReadOnly(w: Where): Where {
    w.(read := Some(true))
  }

  lemma {:induction false} InsertUnread(tie: Tie, x: Row, unread: seq<Row>, read: seq<Row>)
    requires x.readAt.None? && (forall r <- unread :: r.readAt.None?) && (forall r <- read :: r.readAt.Some?)
    ensures Insert(UnreadFirst, tie, x, unread + read) == Insert(Newest, tie, x, unread) + read
  {
    if unread == [] {
      assert unread + read == read;
    } else {
      assert (unread + read)[1..] == unread[1..] + read;
      InsertUnread(tie, x, unread[1..], read);
    }
  }

  lemma {:induction false} InsertRead(tie: Tie, x: Row, unread: seq<Row>, read: seq<Row>)
    requires x.readAt.Some? && (forall r <- unread :: r.readAt.None?) && (forall r <- read :: r.readAt.Some?)
    ensures Insert(UnreadFirst, tie, x, unread + read) == unread + Insert(Newest, tie, x, read)
  {
    if unread != [] {
      assert (unread + read)[1..] == unread[1..] + read;
      InsertRead(tie, x, unread[1..], read);
    } else {
      assert unread + read == read;
      if read != [] {
        InsertRead(tie, x, [], read[1..]);
        assert [] + read[1..] == read[1..];
      }
    }
  }

  lemma {:induction false} SortedKeepsAll(order: Order, tie: Tie, rows: seq<Row>, p: Row -> bool)
    requires forall r <- rows :: p(r)
    ensures forall r <- Sorted(order, tie, rows) :: p(r)
  {
    SortedIsOrdered(order, tie, rows);
    forall r | r in Sorted(order, tie, rows) ensures p(r) {
      assert r in multiset(Sorted(order, tie, rows));
    }
  }

  lemma {:induction false} FilterAll(rows: seq<Row>, p: Row -> bool)
    ensures forall r <- Filter(rows, p) :: p(r) && r in rows
    ensures forall r <- rows :: p(r) ==> r in Filter(rows, p)
  {
    if rows != [] {
      var n := |rows| - 1;
      FilterAll(rows[..n], p);
      assert rows == rows[..n] + [rows[n]];
    }
  }

  /** The one order no single query can express is the two groups, each in its own, one after the other. */
  lemma {:induction false} ListingIsTwoGroups(tie: Tie, rows: seq<Row>, w: Where)
    requires w.read.None?
    ensures Listing(tie, rows, w) == Sorted(Newest, tie, Filter(rows, UnreadOnly(w).Admits))
                                   + Sorted(Newest, tie, Filter(rows, ReadOnly(w).Admits))
  {
    if rows != [] {
      var n, x := |rows| - 1, rows[|rows| - 1];
      var unreadW, readW := UnreadOnly(w), ReadOnly(w);
      ListingIsTwoGroups(tie, rows[..n], w);
      FilterAll(rows[..n], unreadW.Admits);
      FilterAll(rows[..n], readW.Admits);
      SortedKeepsAll(Newest, tie, Filter(rows[..n], unreadW.Admits), (r: Row) => r.readAt.None?);
      SortedKeepsAll(Newest, tie, Filter(rows[..n], readW.Admits), (r: Row) => r.readAt.Some?);
      var unread, read := Sorted(Newest, tie, Filter(rows[..n], unreadW.Admits)),
          Sorted(Newest, tie, Filter(rows[..n], readW.Admits));
      SortedAppend(UnreadFirst, tie, rows, w.Admits);
      SortedAppend(Newest, tie, rows, unreadW.Admits);
      SortedAppend(Newest, tie, rows, readW.Admits);
      if w.Admits(x) && x.readAt.None? {
        InsertUnread(tie, x, unread, read);
      } else if w.Admits(x) {
        InsertRead(tie, x, unread, read);
      }
    }
  }

  lemma SortedAppend(order: Order, tie: Tie, rows: seq<Row>, p: Row -> bool)
    requires rows != []
    ensures Sorted(order, tie, Filter(rows, p))
         == var before := Sorted(order, tie, Filter(rows[..|rows| - 1], p));
            if p(rows[|rows| - 1]) then Insert(order, tie, rows[|rows| - 1], before) else before
  {
    var before := Filter(rows[..|rows| - 1], p);
    if p(rows[|rows| - 1]) {
      assert Filter(rows, p)[..|before|] == before;
    } else {
      assert Filter(rows, p) == before;
    }
  }

  /** Within one group the two orders agree. */
  lemma {:induction false} OneGroup(tie: Tie, rows: seq<Row>, read: bool)
    requires forall r <- rows :: r.readAt.Some? == read
    ensures Sorted(UnreadFirst, tie, rows) == Sorted(Newest, tie, rows)
  {
    if rows != [] {
      var n := |rows| - 1;
      OneGroup(tie, rows[..n], read);
      SortedKeepsAll(Newest, tie, rows[..n], (r: Row) => r.readAt.Some? == read);
      if read {
        InsertRead(tie, rows[n], [], Sorted(Newest, tie, rows[..n]));
        assert [] + Sorted(Newest, tie, rows[..n]) == Sorted(Newest, tie, rows[..n]);
      } else {
        InsertUnread(tie, rows[n], Sorted(Newest, tie, rows[..n]), []);
        assert Sorted(Newest, tie, rows[..n]) + [] == Sorted(Newest, tie, rows[..n]);
      }
    }
  }

  lemma WindowInFirst(a: seq<Row>, b: seq<Row>, skip: nat, size: nat)
    requires skip + size <= |a|
    ensures Slice(a + b, skip, skip + size) == Slice(a, skip, skip + size)
  {
    assert (a + b)[..|a|] == a;
  }

  lemma WindowInSecond(a: seq<Row>, b: seq<Row>, skip: nat, size: nat)
    requires skip >= |a|
    ensures Slice(a + b, skip, skip + size) == Slice(b, skip - |a|, skip - |a| + size)
  {
    var s, t := Slice(a + b, skip, skip + size), Slice(b, skip - |a|, skip - |a| + size);
    assert |s| == |t|;
    forall i | 0 <= i < |s| ensures s[i] == t[i] {
    }
  }

  lemma WindowAcross(a: seq<Row>, b: seq<Row>, skip: nat, size: nat)
    requires skip < |a| < skip + size
    ensures Slice(a + b, skip, skip + size) == Slice(a, skip, |a|) + Slice(b, 0, size - (|a| - skip))
  {
    WindowInSecond(a[skip..], b, |a| - skip, 0);
    assert a + b == a[..skip] + (a[skip..] + b);
  }

  /** The window of the whole listing, from windows of its two groups. */
  lemma StitchedWindow(tie: Tie, rows: seq<Row>, w: Where, skip: nat, size: nat, unread: seq<Row>, read: seq<Row>)
    requires w.read.None?
    requires unread == Sorted(Newest, tie, Filter(rows, UnreadOnly(w).Admits))
    requires read == Sorted(Newest, tie, Filter(rows, ReadOnly(w).Admits))
    ensures |unread| == |Filter(rows, UnreadOnly(w).Admits)|
    ensures skip + size <= |unread| ==> Slice(Listing(tie, rows, w), skip, skip + size) == Slice(unread, skip, skip + size)
    ensures skip >= |unread| ==>
      Slice(Listing(tie, rows, w), skip, skip + size) == Slice(read, skip - |unread|, skip - |unread| + size)
    ensures skip < |unread| < skip + size ==>
      Slice(Listing(tie, rows, w), skip, skip + size) == Slice(unread, skip, |unread|)
          + Slice(read, 0, size - (|unread| - skip))
  {
    ListingIsTwoGroups(tie, rows, w);
    SortedIsOrdered(Newest, tie, Filter(rows, UnreadOnly(w).Admits));
    if skip + size <= |unread| {
      WindowInFirst(unread, read, skip, size);
    } else if skip >= |unread| {
      WindowInSecond(unread, read, skip, size);
    } else {
      WindowAcross(unread, read, skip, size);
    }
  }

  /** A list filtered to one group is that group, newest first. */
  lemma FilteredListing(tie: Tie, rows: seq<Row>, w: Where)
    requires w.read.Some?
    ensures Listing(tie, rows, w) == Sorted(Newest, tie, Filter(rows, w.Admits))
  {
    FilterAll(rows, w.Admits);
    OneGroup(tie, Filter(rows, w.Admits), w.read.value);
  }

  lemma PageEnd(page: nat, size: nat)
    requires page > 0
    ensures (page - 1) * size >= 0 && (page - 1) * size + size == page * size
  {
  }

  function Pages(s: seq<Row>, size: nat, n: nat): seq<Row> {
    if n == 0 then [] else Pages(s, size, n - 1) + Slice(s, (n - 1) * size, n * size)
  }

  lemma {:induction false} PagesArePrefix(s: seq<Row>, size: nat, n: nat)
    ensures Pages(s, size, n) == s[..Min(n * size, |s|)]
  {
    if n > 0 {
      PagesArePrefix(s, size, n - 1);
    }
  }

  lemma PageBounds(items: nat, size: nat)
    requires size > 0
    ensures var pages := TotalPages(items, size); pages * size >= items && (pages > 1 ==> (pages - 1) * size < items)
  {
    var pages := TotalPages(items, size);
    if items > 0 {
      assert (pages - 1) * size == pages * size - size;
    }
  }

  /** Pages 1 to `totalPages` put together are the whole list, and none but a lone first one is empty. */
  lemma PagesCoverTheList(s: seq<Row>, size: nat, pages: nat)
    requires size > 0 && pages == TotalPages(|s|, size)
    ensures Pages(s, size, pages) == s
    ensures forall n :: 1 < n <= pages ==> Slice(s, (n - 1) * size, n * size) != []
  {
    PageBounds(|s|, size);
    PagesArePrefix(s, size, pages);
    forall n | 1 < n <= pages ensures Slice(s, (n - 1) * size, n * size) != [] {
      LastPageBound(n, pages, size);
    }
  }

  lemma LastPageBound(n: nat, pages: nat, size: nat)
    requires 1 < n <= pages && size > 0
    ensures (n - 1) * size <= (pages - 1) * size && n * size == (n - 1) * size + size
  {
  }

  // ---------------------------------------------------------------- what a client sees

  /** The rows asked for: the recipient's, and every filter that is given met. */
  predicate AskedFor(w: Where, row: Row) {
    && row.recipient == w.recipient && (w.kind.None? || w.kind.value == row.kind)
    && (w.severity.None? || w.severity.value == row.severity)
    && (w.read == Some(true) ==> row.readAt.Some?) && (w.read == Some(false) ==> row.readAt.None?)
  }

  /** The list holds exactly the rows asked for, each as often as the table does. */
  lemma ListedIff(tie: Tie, rows: seq<Row>, w: Where, row: Row)
    ensures row in Listing(tie, rows, w) <==> row in rows && AskedFor(w, row)
    ensures |Listing(tie, rows, w)| == |Filter(rows, (r: Row) => AskedFor(w, r))|
  {
    SortedIsOrdered(UnreadFirst, tie, Filter(rows, w.Admits));
    FilterAll(rows, w.Admits);
    FilterAgrees(rows, w.Admits, (r: Row) => AskedFor(w, r));
    assert row in multiset(Listing(tie, rows, w)) <==> row in multiset(Filter(rows, w.Admits));
  }

  lemma {:induction false} FilterAgrees(rows: seq<Row>, p: Row -> bool, q: Row -> bool)
    requires forall r :: p(r) == q(r)
    ensures Filter(rows, p) == Filter(rows, q)
  {
    if rows != [] {
      FilterAgrees(rows[..|rows| - 1], p, q);
    }
  }

  /** No read row comes before an unread one, and no older one before a newer one of the same kind. */
  lemma ListingOrder(tie: Tie, rows: seq<Row>, w: Where, i: nat, j: nat)
    requires i < j < |Listing(tie, rows, w)|
    ensures var a, b := Listing(tie, rows, w)[i], Listing(tie, rows, w)[j];
            && (a.readAt.None? || b.readAt.Some?)
            && (a.readAt.Some? == b.readAt.Some? ==> a.createdAt >= b.createdAt)
  {
    SortedIsOrdered(UnreadFirst, tie, Filter(rows, w.Admits));
  }

  /** The number of pages is the least positive one whose pages hold all items. */
  lemma PagesIff(items: nat, size: nat, n: nat)
    requires size > 0 && n > 0
    ensures TotalPages(items, size) <= n <==> items <= n * size
    ensures TotalPages(items, size) > 0
  {
    var pages := TotalPages(items, size);
    PageBounds(items, size);
    if pages <= n {
      FewerFit(pages, n, size);
    } else {
      FewerFit(n, pages - 1, size);
    }
  }

  lemma FewerFit(m: nat, n: nat, size: nat)
    requires m <= n
    ensures m * size <= n * size
  {
  }

  /** With the ties of one instant broken differently for two requests, page 2 repeats the row of page 1. */
  lemma TiesMayRepeatARow(tie: Tie, other: Tie, a: Row, b: Row, w: Where)
    requires a == Row(1, 7, 0, 0, 0, None) && b == Row(2, 7, 0, 0, 0, None) && w == Where(7, None, None, None)
    requires tie(1) < tie(2) && other(2) < other(1)
    ensures Slice(Listing(tie, [a, b], w), 0, 1) == [a] && Slice(Listing(other, [a, b], w), 1, 2) == [a]
  {
    FilterBoth(a, b, w.Admits);
    SortBoth(tie, a, b);
    SortBoth(other, a, b);
  }

  lemma FilterBoth(a: Row, b: Row, p: Row -> bool)
    requires p(a) && p(b)
    ensures Filter([a, b], p) == [a, b]
  {
    assert Filter([a], p) == Filter([a][..0], p) + [a] == [a];
    assert [a, b][..1] == [a];
  }

  lemma SortBoth(tie: Tie, a: Row, b: Row)
    ensures Sorted(UnreadFirst, tie, [a, b]) == if Precedes(UnreadFirst, tie, a, b) then [a, b] else [b, a]
  {
    assert Sorted(UnreadFirst, tie, [a]) == Insert(UnreadFirst, tie, a, Sorted(UnreadFirst, tie, [a][..0])) == [a];
    assert [a, b][..1] == [a];
    assert Insert(UnreadFirst, tie, b, [a][1..]) == [b];
  }

  // ---------------------------------------------------------------- the service

  class NotificationService {
    var rows: seq<Row>
    const tie: Tie

    constructor (rows: seq<Row>, tie: Tie)
      ensures this.rows == rows && this.tie == tie
    {
      this.rows, this.tie := rows, tie;
    }

    method Count(w: Where) returns (n: nat)
      ensures n == |Filter(rows, w.Admits)|
    {
      n := |Filter(rows, w.Admits)|;
    }

    /** `findMany`, newest first. */
    method FindMany(w: Where, skip: nat, take: nat) returns (found: seq<Row>)
      ensures found == Slice(Sorted(Newest, tie, Filter(rows, w.Admits)), skip, skip + take)
    {
      var all := Sorted(Newest, tie, Filter(rows, w.Admits));
      found := Slice(all, skip, skip + take);
    }

    /** The window of a mixed list, stitched from the two groups. */
    method Stitch(w: Where, skip: nat, size: nat) returns (found: seq<Row>)
      requires w.read.None?
      ensures found == Slice(Listing(tie, rows, w), skip, skip + size)
    {
      var unreadWhere, readWhere := UnreadOnly(w), ReadOnly(w);
      StitchedWindow(tie, rows, w, skip, size, Sorted(Newest, tie, Filter(rows, unreadWhere.Admits)),
                     Sorted(Newest, tie, Filter(rows, readWhere.Admits)));
      var unreadMatching := Count(unreadWhere);
      if skip + size <= unreadMatching {
        found := FindMany(unreadWhere, skip, size);
      } else if skip >= unreadMatching {
        found := FindMany(readWhere, skip - unreadMatching, size);
      } else {
        var unreadTail := FindMany(unreadWhere, skip, unreadMatching - skip);
        var readHead := FindMany(readWhere, 0, size - (unreadMatching - skip));
        found := unreadTail + readHead;
      }
    }

    /** The rows of a page: one query when the filter leaves a single group, the stitched window otherwise. */
    method Window(w: Where, skip: nat, size: nat) returns (found: seq<Row>)
      ensures found == Slice(Listing(tie, rows, w), skip, skip + size)
    {
      if w.read.Some? {
        FilteredListing(tie, rows, w);
        found := FindMany(w, skip, size);
      } else {
        found := Stitch(w, skip, size);
      }
    }

    /** `list`: one page of the recipient's notifications. */
    method List(recipient: Id, kind: Option<nat>, severity: Option<nat>, read: Option<bool>, page: nat,
                size: nat) returns (r: Page)
      requires page > 0 && size > 0
      ensures var all := Listing(tie, rows, Where(recipient, kind, severity, read));
              && r.data == Slice(all, (page - 1) * size, page * size)
              && r.totalItems == |all| && r.totalPages == TotalPages(|all|, size)
              && r.number == page && r.size == size
      ensures r.unreadCount == |Filter(rows, Where(recipient, None, None, Some(false)).Admits)|
    {
      var w := Where(recipient, kind, severity, read);
      var skip := (page - 1) * size;
      PageEnd(page, size);
      SortedIsOrdered(UnreadFirst, tie, Filter(rows, w.Admits));
      var total := Count(w);
      var data := Window(w, skip, size);
      var badge := Count(Where(recipient, None, None, Some(false)));
      r := Page(data, page, size, total, TotalPages(total, size), badge);
    }
  }
}
