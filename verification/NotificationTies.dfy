/**
 Rows of one instant. The list orders by creation time alone, so each request may see such rows in another
 order. This says exactly when that shows: in one listing, and across the pages of several requests.
 */
module NotificationTies {
  import opened Options
  import opened Notifications
  import opened Retention

  /** The rows the queries themselves do not order: one read-group, one instant. */
  predicate Tied(a: Row, b: Row) {
    a.readAt.Some? == b.readAt.Some? && a.createdAt == b.createdAt
  }

  predicate NoTies(rows: seq<Row>) {
    forall i, j :: 0 <= i < j < |rows| ==> !Tied(rows[i], rows[j])
  }

  /** Strictly in order: no two neighbours could change places. */
  predicate StrictlyOrdered(tie: Tie, s: seq<Row>) {
    forall i, j :: 0 <= i < j < |s| ==> Precedes(UnreadFirst, tie, s[i], s[j])
  }

  lemma SameMembers(a: seq<Row>, b: seq<Row>, r: Row)
    requires multiset(a) == multiset(b)
    ensures r in a <==> r in b
  {
    assert r in multiset(a) <==> r in multiset(b);
  }

  /** Rows in strict order are determined by which rows they are. */
  lemma {:induction false} OrderIsUnique(tie: Tie, a: seq<Row>, b: seq<Row>)
    requires StrictlyOrdered(tie, a) && InOrder(UnreadFirst, tie, b) && multiset(a) == multiset(b)
    ensures a == b
    decreases |a|
  {
    assert |multiset(a)| == |a| && |multiset(b)| == |b|;
    if a != [] {
      HeadsAgree(tie, a, b);
      TailsAgree(a, b);
      OrderIsUnique(tie, a[1..], b[1..]);
      assert a == [a[0]] + a[1..] && b == [b[0]] + b[1..];
    }
  }

  lemma HeadsAgree(tie: Tie, a: seq<Row>, b: seq<Row>)
    requires StrictlyOrdered(tie, a) && InOrder(UnreadFirst, tie, b) && multiset(a) == multiset(b) && a != [] && b != []
    ensures a[0] == b[0]
  {
    SameMembers(a, b, a[0]);
    SameMembers(a, b, b[0]);
    var i :| 0 <= i < |a| && a[i] == b[0];
    var j :| 0 <= j < |b| && b[j] == a[0];
  }

  lemma TailsAgree(a: seq<Row>, b: seq<Row>)
    requires multiset(a) == multiset(b) && a != [] && b != [] && a[0] == b[0]
    ensures multiset(a[1..]) == multiset(b[1..])
  {
    assert a == [a[0]] + a[1..] && b == [b[0]] + b[1..];
    assert multiset(a[1..]) == multiset(a) - multiset{a[0]};
    assert multiset(b[1..]) == multiset(b) - multiset{b[0]};
  }

  // ---------------------------------------------------------------- one listing

  lemma AdmittedUnique(tie: Tie, rows: seq<Row>, w: Where)
    requires UniqueIds(rows)
    ensures UniqueIds(Filter(rows, w.Admits)) && UniqueIds(Listing(tie, rows, w))
    ensures InOrder(UnreadFirst, tie, Listing(tie, rows, w))
    ensures multiset(Listing(tie, rows, w)) == multiset(Filter(rows, w.Admits))
  {
    FilterIsUnique(rows, w.Admits);
    SortedIsOrdered(UnreadFirst, tie, Filter(rows, w.Admits));
    UniquePermuted(Filter(rows, w.Admits), Listing(tie, rows, w));
  }

  /** Unique ids survive reordering. */
  lemma UniquePermuted(a: seq<Row>, b: seq<Row>)
    requires UniqueIds(a) && multiset(a) == multiset(b)
    ensures UniqueIds(b)
  {
    forall i, j | 0 <= i < j < |b| ensures b[i].id != b[j].id {
      SameMembers(a, b, b[i]);
      SameMembers(a, b, b[j]);
      if b[i] == b[j] {
        CountTwice(b, i, j);
        CountOnce(a, b[i]);
        assert false;
      } else if b[i].id == b[j].id {
        SameIdSameRow(a, b[i], b[j]);
        assert false;
      }
    }
  }

  lemma CountTwice(s: seq<Row>, i: nat, j: nat)
    requires i < j < |s| && s[i] == s[j]
    ensures multiset(s)[s[i]] >= 2
  {
    assert s == s[..i] + [s[i]] + s[i + 1..j] + [s[j]] + s[j + 1..];
  }

  lemma {:induction false} CountOnce(s: seq<Row>, r: Row)
    requires UniqueIds(s)
    ensures multiset(s)[r] == if r in s then 1 else 0
  {
    if s != [] {
      assert s == [s[0]] + s[1..];
      CountOnce(s[1..], r);
    }
  }

  lemma UntiedIsStrict(tie: Tie, s: seq<Row>)
    requires InOrder(UnreadFirst, tie, s) && NoTies(s)
    ensures forall other: Tie :: StrictlyOrdered(other, s)
  {
    forall other: Tie, i, j | 0 <= i < j < |s| ensures Precedes(UnreadFirst, other, s[i], s[j]) {
      assert !Precedes(UnreadFirst, tie, s[j], s[i]) && !Tied(s[i], s[j]);
    }
  }

  /** The list is the same for every way of breaking ties exactly when no two rows of it are tied. */
  lemma ListingIsFixedIff(rows: seq<Row>, w: Where)
    requires UniqueIds(rows)
    ensures (forall tie: Tie, other: Tie :: Listing(tie, rows, w) == Listing(other, rows, w))
        <==> NoTies(Filter(rows, w.Admits))
  {
    var f := Filter(rows, w.Admits);
    if NoTies(f) {
      forall tie: Tie, other: Tie ensures Listing(tie, rows, w) == Listing(other, rows, w) {
        AdmittedUnique(tie, rows, w);
        AdmittedUnique(other, rows, w);
        NoTiesPermuted(f, Listing(tie, rows, w));
        UntiedIsStrict(tie, Listing(tie, rows, w));
        OrderIsUnique(other, Listing(tie, rows, w), Listing(other, rows, w));
      }
    } else {
      var i, j :| 0 <= i < j < |f| && Tied(f[i], f[j]);
      AdmittedUnique(x => 0, rows, w);
      TieDecides(rows, w, f[i], f[j]);
    }
  }

  lemma NoTiesPermuted(a: seq<Row>, b: seq<Row>)
    requires NoTies(a) && UniqueIds(a) && multiset(a) == multiset(b)
    ensures NoTies(b)
  {
    UniquePermuted(a, b);
    forall i, j | 0 <= i < j < |b| ensures !Tied(b[i], b[j]) {
      SameMembers(a, b, b[i]);
      SameMembers(a, b, b[j]);
      var k :| 0 <= k < |a| && a[k] == b[i];
      var l :| 0 <= l < |a| && a[l] == b[j];
    }
  }

  function Favour(id: Id): Tie {
    (x: Id) => if x == id then 0 else 1
  }

  /** Favouring either of two tied rows puts that one first, so the two listings differ. */
  lemma TieDecides(rows: seq<Row>, w: Where, a: Row, b: Row)
    requires UniqueIds(rows) && a in Filter(rows, w.Admits) && b in Filter(rows, w.Admits) && a.id != b.id && Tied(a, b)
    ensures Listing(Favour(a.id), rows, w) != Listing(Favour(b.id), rows, w)
  {
    AdmittedUnique(Favour(a.id), rows, w);
    AdmittedUnique(Favour(b.id), rows, w);
    var s := Listing(Favour(a.id), rows, w);
    SameMembers(Filter(rows, w.Admits), s, a);
    SameMembers(Filter(rows, w.Admits), s, b);
    var i :| 0 <= i < |s| && s[i] == a;
    var j :| 0 <= j < |s| && s[j] == b;
    assert i < j;
  }

  // ---------------------------------------------------------------- pages of several requests

  /** What request `k`, counted from 0, sees as page `k + 1` when it breaks ties its own way. */
  function PageAt(ties: nat -> Tie, rows: seq<Row>, w: Where, size: nat, k: nat): seq<Row> {
    Slice(Listing(ties(k), rows, w), k * size, (k + 1) * size)
  }

  function PageList(ties: nat -> Tie, rows: seq<Row>, w: Where, size: nat, n: nat): seq<seq<Row>> {
    seq(n, (k: nat) => PageAt(ties, rows, w, size, k))
  }

  function Concat(pages: seq<seq<Row>>): seq<Row> {
    if pages == [] then [] else Concat(pages[..|pages| - 1]) + pages[|pages| - 1]
  }

  /** How many times a list holds a row. */
  function Times(s: seq<Row>, r: Row): nat {
    multiset(s)[r]
  }

  ghost predicate SameRows(a: seq<Row>, b: seq<Row>) {
    forall r :: Times(a, r) == Times(b, r)
  }

  /** No two tied rows on either side of position `p`. */
  predicate Clean(s: seq<Row>, p: int) {
    0 < p < |s| ==> !Tied(s[p - 1], s[p])
  }

  /** No boundary between two pages separates tied rows. */
  predicate CleanBoundaries(s: seq<Row>, size: nat, pages: nat) {
    forall n :: 1 <= n < pages ==> Clean(s, n * size)
  }

  lemma {:induction false} FilterCount(s: seq<Row>, p: Row -> bool, r: Row)
    ensures multiset(Filter(s, p))[r] == if p(r) then multiset(s)[r] else 0
  {
    if s != [] {
      var n := |s| - 1;
      assert s == s[..n] + [s[n]];
      FilterCount(s[..n], p, r);
    }
  }

  lemma SameFiltered(s: seq<Row>, t: seq<Row>, p: Row -> bool)
    requires multiset(s) == multiset(t)
    ensures multiset(Filter(s, p)) == multiset(Filter(t, p))
  {
    forall r ensures multiset(Filter(s, p))[r] == multiset(Filter(t, p))[r] {
      FilterCount(s, p, r);
      FilterCount(t, p, r);
    }
  }

  /** Where a property holds of the rows before wherever it holds at all, it holds of a prefix. */
  lemma {:induction false} DownSet(s: seq<Row>, p: Row -> bool) returns (n: nat)
    requires forall i, j :: 0 <= i < j < |s| && p(s[j]) ==> p(s[i])
    ensures n <= |s| && (forall r <- s[..n] :: p(r)) && forall r <- s[n..] :: !p(r)
  {
    n := 0;
    while n < |s| && p(s[n])
      invariant n <= |s| && forall i :: 0 <= i < n ==> p(s[i])
    {
      n := n + 1;
    }
    assert n < |s| ==> forall i :: n <= i < |s| ==> !p(s[i]);
  }

  predicate Early(s: seq<Row>, p: nat, r: Row)
    requires p <= |s|
  {
    r in s[..p]
  }

  /** The rows before an untied boundary are the same for every way of breaking ties. */
  lemma PrefixIsFixed(tie: Tie, other: Tie, rows: seq<Row>, w: Where, p: nat)
    requires UniqueIds(rows) && p <= |Listing(tie, rows, w)|
    requires Clean(Listing(tie, rows, w), p)
    ensures |Listing(other, rows, w)| == |Listing(tie, rows, w)|
    ensures multiset(Listing(other, rows, w)[..p]) == multiset(Listing(tie, rows, w)[..p])
  {
    var s, t := Listing(tie, rows, w), Listing(other, rows, w);
    AdmittedUnique(tie, rows, w);
    AdmittedUnique(other, rows, w);
    assert |multiset(s)| == |s| && |multiset(t)| == |t|;
    var early := (r: Row) => Early(s, p, r);
    forall i, j | 0 <= i < j < |t| && early(t[j]) ensures early(t[i]) {
      SameMembers(s, t, t[i]);
      SameMembers(s, t, t[j]);
      EarlyFirst(tie, other, s, p, t[i], t[j]);
    }
    var n := DownSet(t, early);
    FilterPrefix(t, n, early);
    forall r | r in s[p..] ensures !early(r) {
      var i :| p <= i < |s| && s[i] == r;
    }
    FilterPrefix(s, p, early);
    SameFiltered(s, t, early);
    assert |multiset(s[..p])| == p && |multiset(t[..n])| == n;
  }

  lemma EarlyFirst(tie: Tie, other: Tie, s: seq<Row>, p: nat, a: Row, b: Row)
    requires InOrder(UnreadFirst, tie, s) && p <= |s| && Clean(s, p)
    requires a in s && b in s && Early(s, p, b) && !Precedes(UnreadFirst, other, b, a)
    ensures Early(s, p, a)
  {
    var i :| 0 <= i < |s| && s[i] == a;
    var j :| 0 <= j < p && s[j] == b;
  }

  lemma MiddleSame(s: seq<Row>, t: seq<Row>, from: nat, to: nat)
    requires from <= to <= |s| && |t| == |s|
    requires multiset(t[..from]) == multiset(s[..from]) && multiset(t[..to]) == multiset(s[..to])
    ensures multiset(t[from..to]) == multiset(s[from..to])
  {
    SplitPrefix(s, from, to);
    SplitPrefix(t, from, to);
  }

  lemma SplitPrefix(s: seq<Row>, from: nat, to: nat)
    requires from <= to <= |s|
    ensures multiset(s[from..to]) == multiset(s[..to]) - multiset(s[..from])
    ensures s[..to] == s[..from] + s[from..to]
  {
    assert s[..to] == s[..from] + s[from..to];
  }

  lemma PageIsFixed(tie: Tie, other: Tie, rows: seq<Row>, w: Where, from: nat, to: nat)
    requires UniqueIds(rows) && from <= to <= |Listing(tie, rows, w)|
    requires Clean(Listing(tie, rows, w), from) && Clean(Listing(tie, rows, w), to)
    ensures |Listing(other, rows, w)| == |Listing(tie, rows, w)|
    ensures multiset(Listing(other, rows, w)[from..to]) == multiset(Listing(tie, rows, w)[from..to])
  {
    PrefixIsFixed(tie, other, rows, w, from);
    PrefixIsFixed(tie, other, rows, w, to);
    MiddleSame(Listing(tie, rows, w), Listing(other, rows, w), from, to);
  }

  lemma {:induction false} SameConcat(a: seq<seq<Row>>, b: seq<seq<Row>>)
    requires |a| == |b| && forall k :: 0 <= k < |a| ==> multiset(a[k]) == multiset(b[k])
    ensures multiset(Concat(a)) == multiset(Concat(b))
  {
    if a != [] {
      SameConcat(a[..|a| - 1], b[..|b| - 1]);
    }
  }

  /** Between clean boundaries a page holds the same rows for every way of breaking ties. */
  lemma PageRows(tie: Tie, other: Tie, rows: seq<Row>, w: Where, size: nat, pages: nat, k: nat)
    requires UniqueIds(rows) && size > 0 && k < pages == TotalPages(|Listing(tie, rows, w)|, size)
    requires CleanBoundaries(Listing(tie, rows, w), size, pages)
    ensures multiset(Slice(Listing(other, rows, w), k * size, (k + 1) * size))
         == multiset(Slice(Listing(tie, rows, w), k * size, (k + 1) * size))
  {
    var s := Listing(tie, rows, w);
    var from, to := Min(k * size, |s|), Min((k + 1) * size, |s|);
    BoundaryClean(s, size, pages, k, from);
    BoundaryClean(s, size, pages, k + 1, to);
    PageIsFixed(tie, other, rows, w, from, to);
  }

  /** One way of breaking ties throughout gives the plain pages. */
  lemma {:induction false} PlainPages(ties: nat -> Tie, tie: Tie, rows: seq<Row>, w: Where, size: nat, n: nat)
    requires forall k :: ties(k) == tie
    ensures Concat(PageList(ties, rows, w, size, n)) == Pages(Listing(tie, rows, w), size, n)
  {
    if n > 0 {
      PlainPages(ties, tie, rows, w, size, n - 1);
      assert PageList(ties, rows, w, size, n)[..n - 1] == PageList(ties, rows, w, size, n - 1);
      assert PageList(ties, rows, w, size, n)[n - 1] == PageAt(ties, rows, w, size, n - 1);
    }
  }

  lemma CleanPages(tie: Tie, ties: nat -> Tie, rows: seq<Row>, w: Where, size: nat, pages: nat)
    requires UniqueIds(rows) && size > 0 && pages == TotalPages(|Listing(tie, rows, w)|, size)
    requires CleanBoundaries(Listing(tie, rows, w), size, pages)
    ensures multiset(Concat(PageList(ties, rows, w, size, pages))) == multiset(Listing(tie, rows, w))
  {
    var plain: nat -> Tie := (k: nat) => tie;
    var a, b := PageList(ties, rows, w, size, pages), PageList(plain, rows, w, size, pages);
    forall k | 0 <= k < pages ensures multiset(a[k]) == multiset(b[k]) {
      PageRows(tie, ties(k), rows, w, size, pages, k);
    }
    SameConcat(a, b);
    PlainPages(plain, tie, rows, w, size, pages);
    PagesCoverTheList(Listing(tie, rows, w), size, pages);
  }

  lemma BoundaryClean(s: seq<Row>, size: nat, pages: nat, n: nat, p: nat)
    requires size > 0 && n <= pages == TotalPages(|s|, size) && CleanBoundaries(s, size, pages)
    requires n * size >= 0 && p == Min(n * size, |s|)
    ensures Clean(s, p)
  {
    PageBounds(|s|, size);
    if 0 < p < |s| {
      assert n >= 1 && n != pages;
      assert Clean(s, n * size);
    }
  }

  // ---------------------------------------------------------------- a boundary that separates tied rows

  function IndexIn(s: seq<Row>, id: Id): int {
    if s == [] || s[0].id == id then 0 else 1 + IndexIn(s[1..], id)
  }

  /** Breaks ties as the rows stand in `s`. */
  function RankIn(s: seq<Row>): Tie {
    (id: Id) => IndexIn(s, id)
  }

  lemma {:induction false} IndexAt(s: seq<Row>, i: nat)
    requires UniqueIds(s) && i < |s|
    ensures IndexIn(s, s[i].id) == i
  {
    if i > 0 {
      IndexAt(s[1..], i - 1);
    }
  }

  predicate Earlier(a: Row, b: Row) {
    !Tied(a, b) && Precedes(UnreadFirst, x => 0, a, b)
  }

  /** Any arrangement that keeps groups and instants in order is the listing of some way of breaking ties. */
  lemma EveryArrangementOccurs(rows: seq<Row>, w: Where, s: seq<Row>)
    requires UniqueIds(rows) && multiset(s) == multiset(Filter(rows, w.Admits))
    requires forall i, j :: 0 <= i < j < |s| ==> !Earlier(s[j], s[i])
    ensures Listing(RankIn(s), rows, w) == s
  {
    AdmittedUnique(RankIn(s), rows, w);
    UniquePermuted(Filter(rows, w.Admits), s);
    forall i, j | 0 <= i < j < |s| ensures Precedes(UnreadFirst, RankIn(s), s[i], s[j]) {
      IndexAt(s, i);
      IndexAt(s, j);
      assert !Earlier(s[j], s[i]);
    }
    OrderIsUnique(RankIn(s), s, Listing(RankIn(s), rows, w));
  }

  function Swapped(s: seq<Row>, p: nat): seq<Row>
    requires 0 < p < |s|
  {
    s[p - 1 := s[p]][p := s[p - 1]]
  }

  lemma SwappedOccurs(tie: Tie, rows: seq<Row>, w: Where, p: nat)
    requires UniqueIds(rows) && 0 < p < |Listing(tie, rows, w)| && !Clean(Listing(tie, rows, w), p)
    ensures Listing(RankIn(Swapped(Listing(tie, rows, w), p)), rows, w) == Swapped(Listing(tie, rows, w), p)
  {
    var s := Listing(tie, rows, w);
    var t := Swapped(s, p);
    AdmittedUnique(tie, rows, w);
    SwappedKeepsRows(s, p);
    forall i, j | 0 <= i < j < |t| ensures !Earlier(t[j], t[i]) {
      var k := if i == p - 1 then p else if i == p then p - 1 else i;
      var l := if j == p - 1 then p else if j == p then p - 1 else j;
      assert t[i] == s[k] && t[j] == s[l];
      assert k < l ==> !Precedes(UnreadFirst, tie, s[l], s[k]);
    }
    EveryArrangementOccurs(rows, w, t);
  }

  lemma SwappedKeepsRows(s: seq<Row>, p: nat)
    requires 0 < p < |s|
    ensures multiset(Swapped(s, p)) == multiset(s)
  {
    var t := Swapped(s, p);
    assert s == s[..p - 1] + [s[p - 1]] + [s[p]] + s[p + 1..];
    assert t == s[..p - 1] + [s[p]] + [s[p - 1]] + s[p + 1..];
  }

  lemma InSlice(s: seq<Row>, from: nat, to: nat, i: nat)
    requires from <= i < to && i < |s|
    ensures s[i] in Slice(s, from, to)
  {
    assert Slice(s, from, to)[i - from] == s[i];
  }

  lemma {:induction false} OnOnePage(pages: seq<seq<Row>>, i: nat, r: Row)
    requires i < |pages| && r in pages[i]
    ensures Times(Concat(pages), r) >= 1
  {
    assert r in multiset(pages[i]);
    if i < |pages| - 1 {
      OnOnePage(pages[..|pages| - 1], i, r);
    }
  }

  lemma {:induction false} OnTwoPages(pages: seq<seq<Row>>, i: nat, j: nat, r: Row)
    requires i < j < |pages| && r in pages[i] && r in pages[j]
    ensures Times(Concat(pages), r) >= 2
  {
    assert r in multiset(pages[j]);
    if j < |pages| - 1 {
      OnTwoPages(pages[..|pages| - 1], i, j, r);
    } else {
      OnOnePage(pages[..j], i, r);
    }
  }

  lemma PageSteps(n: nat, size: nat)
    requires n >= 1
    ensures (n - 1) * size == n * size - size >= 0 && (n + 1) * size == n * size + size
  {
  }

  /** One way of breaking ties for the first `n` requests, another after them. */
  function SwitchAt(n: nat, first: Tie, second: Tie): nat -> Tie {
    (k: nat) => if k < n then first else second
  }

  lemma AdmittedOnce(tie: Tie, rows: seq<Row>, w: Where, i: nat)
    requires UniqueIds(rows) && i < |Listing(tie, rows, w)|
    ensures Times(Filter(rows, w.Admits), Listing(tie, rows, w)[i]) == 1
  {
    AdmittedUnique(tie, rows, w);
    CountOnce(Listing(tie, rows, w), Listing(tie, rows, w)[i]);
  }

  lemma OnPage(ties: nat -> Tie, rows: seq<Row>, w: Where, size: nat, pages: nat, k: nat, from: nat, i: nat)
    requires k < pages && from == k * size && from + size == (k + 1) * size
    requires from <= i < from + size && i < |Listing(ties(k), rows, w)|
    ensures Listing(ties(k), rows, w)[i] in PageList(ties, rows, w, size, pages)[k]
  {
    InSlice(Listing(ties(k), rows, w), from, from + size, i);
  }

  /** The row before a boundary that separates tied rows is on both pages for some ways of breaking ties. */
  lemma SplitTieRepeats(tie: Tie, rows: seq<Row>, w: Where, size: nat, pages: nat, n: nat, p: nat) returns (ties: nat -> Tie)
    requires UniqueIds(rows) && size > 0 && 1 <= n < pages && p == n * size >= size && !Clean(Listing(tie, rows, w), p)
    ensures Times(Concat(PageList(ties, rows, w, size, pages)), Listing(tie, rows, w)[p - 1]) >= 2
  {
    var s := Listing(tie, rows, w);
    var t := Swapped(s, p);
    ties := SwitchAt(n, tie, RankIn(t));
    SwappedOccurs(tie, rows, w, p);
    PageSteps(n, size);
    OnPage(ties, rows, w, size, pages, n - 1, p - size, p - 1);
    OnPage(ties, rows, w, size, pages, n, p, p);
    OnTwoPages(PageList(ties, rows, w, size, pages), n - 1, n, s[p - 1]);
  }

  /**
   Pages taken by separate requests, each breaking ties its own way, hold every row exactly once, whatever
   those ways are, exactly when no page boundary separates two tied rows.
   */
  lemma PagesHoldEachRowOnceIff(tie: Tie, rows: seq<Row>, w: Where, size: nat, pages: nat)
    requires UniqueIds(rows) && size > 0 && pages == TotalPages(|Listing(tie, rows, w)|, size)
    ensures (forall ties: nat -> Tie :: SameRows(Concat(PageList(ties, rows, w, size, pages)), Filter(rows, w.Admits)))
       <==> CleanBoundaries(Listing(tie, rows, w), size, pages)
  {
    if CleanBoundaries(Listing(tie, rows, w), size, pages) {
      AdmittedUnique(tie, rows, w);
      forall ties: nat -> Tie ensures SameRows(Concat(PageList(ties, rows, w, size, pages)), Filter(rows, w.Admits)) {
        CleanPages(tie, ties, rows, w, size, pages);
      }
    } else {
      var n :| 1 <= n < pages && !Clean(Listing(tie, rows, w), n * size);
      PageSteps(n, size);
      var ties := SplitTieLoses(tie, rows, w, size, pages, n, n * size);
    }
  }

  lemma SplitTieLoses(tie: Tie, rows: seq<Row>, w: Where, size: nat, pages: nat, n: nat, p: nat) returns (ties: nat -> Tie)
    requires UniqueIds(rows) && size > 0 && 1 <= n < pages && p == n * size >= size && !Clean(Listing(tie, rows, w), p)
    ensures !SameRows(Concat(PageList(ties, rows, w, size, pages)), Filter(rows, w.Admits))
  {
    ties := SplitTieRepeats(tie, rows, w, size, pages, n, p);
    AdmittedOnce(tie, rows, w, p - 1);
    TwiceIsNotOnce(Concat(PageList(ties, rows, w, size, pages)), Filter(rows, w.Admits), Listing(tie, rows, w)[p - 1]);
  }

  lemma TwiceIsNotOnce(a: seq<Row>, b: seq<Row>, r: Row)
    requires Times(a, r) >= 2 && Times(b, r) == 1
    ensures !SameRows(a, b)
  {
  }
}
