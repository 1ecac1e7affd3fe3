/**
 Retention of notifications: first everything past the cutoff goes, then, recipient by recipient, whatever
 lies beyond the newest two hundred.
 */
module Retention {
  import opened Options
  import opened Notifications

  const DAY_MS: int := 24 * 60 * 60 * 1000

  function Cutoff(now: int): int {
    now - RETENTION_DAYS * DAY_MS
  }

  /** The id is the primary key. */
  predicate UniqueIds(rows: seq<Row>) {
    forall i, j :: 0 <= i < j < |rows| ==> rows[i].id != rows[j].id
  }

  function Recent(rows: seq<Row>, now: int): seq<Row> {
    Filter(rows, (r: Row) => r.createdAt >= Cutoff(now))
  }

  function Of(rows: seq<Row>, recipient: Id): seq<Row> {
    Filter(rows, (r: Row) => r.recipient == recipient)
  }

  function NewestOf(tie: Tie, rows: seq<Row>, recipient: Id): seq<Row> {
    Sorted(Newest, tie, Of(rows, recipient))
  }

  /** The newest rows of a recipient, up to the cap. */
  function Top(tie: Tie, rows: seq<Row>, recipient: Id): seq<Row> {
    Slice(NewestOf(tie, rows, recipient), 0, MAX_PER_RECIPIENT)
  }

  /** What retention is to leave: of the rows young enough, those among the newest of their recipient. */
  function Pruned(tie: Tie, rows: seq<Row>, now: int): seq<Row> {
    Filter(Recent(rows, now), (r: Row) => r in Top(tie, Recent(rows, now), r.recipient))
  }

  // ---------------------------------------------------------------- filters

  lemma {:induction false} FilterSame(rows: seq<Row>, p: Row -> bool, q: Row -> bool)
    requires forall r <- rows :: p(r) == q(r)
    ensures Filter(rows, p) == Filter(rows, q)
  {
    if rows != [] {
      FilterSame(rows[..|rows| - 1], p, q);
    }
  }

  lemma {:induction false} FilterKeepsAll(rows: seq<Row>, p: Row -> bool)
    requires forall r <- rows :: p(r)
    ensures Filter(rows, p) == rows
  {
    if rows != [] {
      var n := |rows| - 1;
      FilterKeepsAll(rows[..n], p);
      assert rows == rows[..n] + [rows[n]];
    }
  }

  lemma {:induction false} FilterTwice(rows: seq<Row>, p: Row -> bool, q: Row -> bool, both: Row -> bool)
    requires forall r <- rows :: both(r) == (p(r) && q(r))
    ensures Filter(Filter(rows, p), q) == Filter(rows, both)
  {
    if rows != [] {
      var n := |rows| - 1;
      FilterTwice(rows[..n], p, q, both);
      FilterConcat(Filter(rows[..n], p), if p(rows[n]) then [rows[n]] else [], q);
      FilterOne(rows[n], q);
    }
  }

  lemma {:induction false} FilterNone(rows: seq<Row>, p: Row -> bool)
    requires forall r <- rows :: !p(r)
    ensures Filter(rows, p) == []
  {
    if rows != [] {
      FilterNone(rows[..|rows| - 1], p);
    }
  }

  lemma UniqueGrows(s: seq<Row>, x: Row)
    requires UniqueIds(s) && forall r <- s :: r.id != x.id
    ensures UniqueIds(s + [x]) && UniqueIds([x] + s)
  {
  }

  lemma {:induction false} FilterIsUnique(rows: seq<Row>, p: Row -> bool)
    requires UniqueIds(rows)
    ensures UniqueIds(Filter(rows, p))
  {
    if rows != [] {
      var n := |rows| - 1;
      FilterIsUnique(rows[..n], p);
      FilterAll(rows[..n], p);
      assert forall i :: 0 <= i < n ==> rows[i].id != rows[n].id;
      if p(rows[n]) {
        UniqueGrows(Filter(rows[..n], p), rows[n]);
      } else {
        assert Filter(rows, p) == Filter(rows[..n], p);
      }
    }
  }

  lemma {:induction false} FilterConcat(a: seq<Row>, b: seq<Row>, p: Row -> bool)
    ensures Filter(a + b, p) == Filter(a, p) + Filter(b, p)
  {
    if b == [] {
      assert a + b == a;
    } else {
      assert (a + b)[..|a + b| - 1] == a + b[..|b| - 1];
      FilterConcat(a, b[..|b| - 1], p);
    }
  }

  // ---------------------------------------------------------------- sorting a filtered list

  lemma {:induction false} InsertFiltered(tie: Tie, x: Row, s: seq<Row>, p: Row -> bool)
    requires InOrder(Newest, tie, s)
    ensures Filter(Insert(Newest, tie, x, s), p)
         == if p(x) then Insert(Newest, tie, x, Filter(s, p)) else Filter(s, p)
  {
    if s != [] && Precedes(Newest, tie, s[0], x) {
      InsertFiltered(tie, x, s[1..], p);
      FilterCons(s[0], Insert(Newest, tie, x, s[1..]), p);
      FilterCons(s[0], s[1..], p);
      assert s == [s[0]] + s[1..];
      InsertBehind(tie, x, s[0], Filter(s[1..], p));
    } else {
      FilterCons(x, s, p);
      FilterAll(s, p);
      assert forall r <- s :: !Precedes(Newest, tie, r, x);
      InsertAtFront(tie, x, Filter(s, p));
    }
  }

  lemma InsertAtFront(tie: Tie, x: Row, s: seq<Row>)
    requires forall r <- s :: !Precedes(Newest, tie, r, x)
    ensures Insert(Newest, tie, x, s) == [x] + s
  {
  }

  lemma InsertBehind(tie: Tie, x: Row, head: Row, s: seq<Row>)
    requires Precedes(Newest, tie, head, x)
    ensures Insert(Newest, tie, x, [head] + s) == [head] + Insert(Newest, tie, x, s)
  {
    assert ([head] + s)[1..] == s;
  }

  lemma FilterCons(x: Row, s: seq<Row>, p: Row -> bool)
    ensures Filter([x] + s, p) == if p(x) then [x] + Filter(s, p) else Filter(s, p)
  {
    FilterConcat([x], s, p);
    FilterOne(x, p);
  }

  lemma FilterOne(x: Row, p: Row -> bool)
    ensures Filter([x], p) == if p(x) then [x] else []
  {
    assert [x][..0] == [];
  }

  /** Sorting and filtering commute. */
  lemma {:induction false} SortFiltered(tie: Tie, rows: seq<Row>, p: Row -> bool)
    ensures Sorted(Newest, tie, Filter(rows, p)) == Filter(Sorted(Newest, tie, rows), p)
  {
    if rows != [] {
      var n := |rows| - 1;
      SortFiltered(tie, rows[..n], p);
      SortedIsOrdered(Newest, tie, rows[..n]);
      InsertFiltered(tie, rows[n], Sorted(Newest, tie, rows[..n]), p);
      SortedAppend(Newest, tie, rows, p);
    }
  }

  lemma {:induction false} SortedIsUnique(tie: Tie, rows: seq<Row>)
    requires UniqueIds(rows)
    ensures UniqueIds(Sorted(Newest, tie, rows))
  {
    if rows != [] {
      var n := |rows| - 1;
      SortedIsUnique(tie, rows[..n]);
      var s := Sorted(Newest, tie, rows[..n]);
      forall r | r in s ensures r.id != rows[n].id {
        SortedIsOrdered(Newest, tie, rows[..n]);
        assert r in multiset(s);
      }
      InsertIsUnique(tie, rows[n], s);
    }
  }

  lemma {:induction false} InsertIsUnique(tie: Tie, x: Row, s: seq<Row>)
    requires UniqueIds(s) && forall r <- s :: r.id != x.id
    ensures UniqueIds(Insert(Newest, tie, x, s))
  {
    if s != [] && Precedes(Newest, tie, s[0], x) {
      InsertIsUnique(tie, x, s[1..]);
      InsertKeepsRows(Newest, tie, x, s[1..]);
      UniqueGrows(Insert(Newest, tie, x, s[1..]), s[0]);
    } else {
      UniqueGrows(s, x);
    }
  }

  // ---------------------------------------------------------------- what pruning leaves

  lemma MemberSorted(tie: Tie, rows: seq<Row>, r: Row)
    ensures r in rows <==> r in Sorted(Newest, tie, rows)
  {
    SortedIsOrdered(Newest, tie, rows);
    assert r in multiset(rows) <==> r in multiset(Sorted(Newest, tie, rows));
  }

  lemma FilterPrefix(s: seq<Row>, n: nat, p: Row -> bool)
    requires n <= |s| && (forall r <- s[..n] :: p(r)) && forall r <- s[n..] :: !p(r)
    ensures Filter(s, p) == s[..n]
  {
    assert s == s[..n] + s[n..];
    FilterConcat(s[..n], s[n..], p);
    FilterKeepsAll(s[..n], p);
    FilterNone(s[n..], p);
  }

  lemma TopFiltered(s: seq<Row>, k: nat)
    requires UniqueIds(s)
    ensures Filter(s, (r: Row) => r in Slice(s, 0, k)) == Slice(s, 0, k)
  {
    var n := Min(k, |s|);
    forall r | r in s[n..] ensures r !in s[..n] {
      var i :| n <= i < |s| && s[i] == r;
    }
    FilterPrefix(s, n, (r: Row) => r in Slice(s, 0, k));
  }

  /** After a prune each recipient has exactly its newest rows, at most two hundred, among those young enough. */
  lemma PrunedPerRecipient(tie: Tie, rows: seq<Row>, now: int, recipient: Id)
    requires UniqueIds(rows)
    ensures NewestOf(tie, Pruned(tie, rows, now), recipient) == Top(tie, Recent(rows, now), recipient)
  {
    var recent := Recent(rows, now);
    FilterIsUnique(rows, (r: Row) => r.createdAt >= Cutoff(now));
    FilterIsUnique(recent, (r: Row) => r.recipient == recipient);
    var own := Of(recent, recipient);
    var inTop := (r: Row) => r in Top(tie, recent, r.recipient);
    var mine := (r: Row) => r.recipient == recipient;
    var inMyTop := (r: Row) => r in Slice(NewestOf(tie, recent, recipient), 0, MAX_PER_RECIPIENT);
    FilterTwice(recent, inTop, mine, (r: Row) => inTop(r) && mine(r));
    FilterTwice(recent, mine, inMyTop, (r: Row) => inTop(r) && mine(r));
    assert Of(Pruned(tie, rows, now), recipient) == Filter(own, inMyTop);
    SortFiltered(tie, own, inMyTop);
    SortedIsUnique(tie, own);
    TopFiltered(NewestOf(tie, recent, recipient), MAX_PER_RECIPIENT);
  }

  /** Ninety days in milliseconds. */
  const NINETY_DAYS: int := 7_776_000_000

  ghost predicate DistinctTies(tie: Tie) {
    forall a, b :: tie(a) == tie(b) ==> a == b
  }

  /** How many rows of that recipient are newer. */
  function NewerRows(tie: Tie, rows: seq<Row>, r: Row): nat {
    |Filter(rows, (q: Row) => q.recipient == r.recipient && Newer(tie, q, r))|
  }

  lemma PlaceIsNewerRows(tie: Tie, s: seq<Row>, i: nat)
    requires DistinctTies(tie) && UniqueIds(s) && InOrder(Newest, tie, s) && i < |s|
    ensures |Filter(s, (q: Row) => Newer(tie, q, s[i]))| == i
  {
    var newer := (q: Row) => Newer(tie, q, s[i]);
    forall q | q in s[..i] ensures newer(q) {
      var j :| 0 <= j < i && s[j] == q;
      assert !Precedes(Newest, tie, s[i], s[j]);
    }
    forall q | q in s[i..] ensures !newer(q) {
      var j :| i <= j < |s| && s[j] == q;
      assert j > i ==> !Precedes(Newest, tie, s[j], s[i]);
    }
    FilterPrefix(s, i, newer);
  }

  /** A row is among the newest of its recipient exactly when fewer than two hundred of the recipient's rows are newer. */
  lemma InTopIff(tie: Tie, rows: seq<Row>, r: Row)
    requires DistinctTies(tie) && UniqueIds(rows) && r in rows
    ensures r in Top(tie, rows, r.recipient) <==> NewerRows(tie, rows, r) < 200
  {
    var mine := (q: Row) => q.recipient == r.recipient;
    var newer := (q: Row) => Newer(tie, q, r);
    var own, s := Of(rows, r.recipient), NewestOf(tie, rows, r.recipient);
    FilterIsUnique(rows, mine);
    FilterAll(rows, mine);
    SortedIsUnique(tie, own);
    SortedIsOrdered(Newest, tie, own);
    MemberSorted(tie, own, r);
    var i :| 0 <= i < |s| && s[i] == r;
    PlaceIsNewerRows(tie, s, i);
    SortFiltered(tie, own, newer);
    SortedIsOrdered(Newest, tie, Filter(own, newer));
    FilterTwice(rows, mine, newer, (q: Row) => q.recipient == r.recipient && Newer(tie, q, r));
    assert NewerRows(tie, rows, r) == i;
    assert r in s[..Min(200, |s|)] <==> i < 200;
  }

  /**
   A prune leaves a row exactly when it is at most ninety days old and fewer than two hundred rows of its recipient that
   are young enough are newer.
   */
  lemma PrunedIff(tie: Tie, rows: seq<Row>, now: int, r: Row)
    requires DistinctTies(tie) && UniqueIds(rows)
    ensures r in Pruned(tie, rows, now) <==>
            r in rows && now - r.createdAt <= NINETY_DAYS
            && NewerRows(tie, Filter(rows, (q: Row) => now - q.createdAt <= NINETY_DAYS), r) < 200
  {
    var recent := Recent(rows, now);
    FilterSame(rows, (q: Row) => q.createdAt >= Cutoff(now), (q: Row) => now - q.createdAt <= NINETY_DAYS);
    FilterIsUnique(rows, (q: Row) => q.createdAt >= Cutoff(now));
    FilterAll(rows, (q: Row) => q.createdAt >= Cutoff(now));
    FilterAll(recent, (q: Row) => q in Top(tie, recent, q.recipient));
    if r in recent {
      InTopIff(tie, recent, r);
    }
  }

  /** A second prune at the same time finds nothing to remove. */
  lemma PruneIsIdempotent(tie: Tie, rows: seq<Row>, now: int)
    requires UniqueIds(rows)
    ensures Pruned(tie, Pruned(tie, rows, now), now) == Pruned(tie, rows, now)
  {
    var once := Pruned(tie, rows, now);
    FilterAll(rows, (r: Row) => r.createdAt >= Cutoff(now));
    FilterAll(Recent(rows, now), (r: Row) => r in Top(tie, Recent(rows, now), r.recipient));
    FilterKeepsAll(once, (r: Row) => r.createdAt >= Cutoff(now));
    forall r | r in once ensures r in Top(tie, once, r.recipient) {
      PrunedPerRecipient(tie, rows, now, r.recipient);
    }
    FilterKeepsAll(once, (r: Row) => r in Top(tie, once, r.recipient));
  }

  // ---------------------------------------------------------------- the prune

  /** Rows of the recipients already dealt with are cut down to their top; the others are all there. */
  predicate Keeps(tie: Tie, recent: seq<Row>, done: seq<Id>, r: Row) {
    r.recipient in done ==> r in Top(tie, recent, r.recipient)
  }

  predicate HasId(rows: seq<Row>, id: Id) {
    exists r :: r in rows && r.id == id
  }

  lemma SameIdSameRow(rows: seq<Row>, a: Row, b: Row)
    requires UniqueIds(rows) && a in rows && b in rows && a.id == b.id
    ensures a == b
  {
  }

  /** Cutting off a sorted list at the cap removes, by id, exactly the rows outside the top. */
  lemma OverflowIsRest(s: seq<Row>, r: Row)
    requires UniqueIds(s)
    ensures r in s ==> (r in Slice(s, 0, MAX_PER_RECIPIENT)
        <==> !HasId(Slice(s, MAX_PER_RECIPIENT, MAX_PER_RECIPIENT + |s|), r.id))
    ensures HasId(Slice(s, MAX_PER_RECIPIENT, MAX_PER_RECIPIENT + |s|), r.id) ==> HasId(s, r.id)
  {
    var n := Min(MAX_PER_RECIPIENT, |s|);
    var rest := s[n..];
    assert Slice(s, MAX_PER_RECIPIENT, MAX_PER_RECIPIENT + |s|) == rest;
    assert s == s[..n] + rest;
  }

  lemma CapStep(tie: Tie, recent: seq<Row>, done: seq<Id>, g: Id, r: Row)
    requires UniqueIds(recent) && g !in done && r in recent
    ensures var overflow := Slice(NewestOf(tie, recent, g), MAX_PER_RECIPIENT, MAX_PER_RECIPIENT + |NewestOf(tie, recent, g)|);
            Keeps(tie, recent, done + [g], r) == (Keeps(tie, recent, done, r) && !HasId(overflow, r.id))
  {
    var s := NewestOf(tie, recent, g);
    FilterIsUnique(recent, (r: Row) => r.recipient == g);
    SortedIsUnique(tie, Of(recent, g));
    FilterAll(recent, (r: Row) => r.recipient == g);
    MemberSorted(tie, Of(recent, g), r);
    OverflowIsRest(s, r);
    if r.recipient != g && HasId(s, r.id) {
      var other :| other in s && other.id == r.id;
      MemberSorted(tie, Of(recent, g), other);
      SameIdSameRow(recent, r, other);
    }
  }

  class NotificationPruner {
    var rows: seq<Row>
    const tie: Tie

    constructor (rows: seq<Row>, tie: Tie)
      ensures this.rows == rows && this.tie == tie
    {
      this.rows, this.tie := rows, tie;
    }

    /** `deleteMany`: removes the rows that do not satisfy `keep`. */
    method DeleteExcept(keep: Row -> bool) returns (count: int)
      modifies `rows
      ensures rows == Filter(old(rows), keep) && count == |old(rows)| - |rows|
    {
      var before := |rows|;
      rows := Filter(rows, keep);
      count := before - |rows|;
    }

    /** `groupBy` with its `having`: each recipient over the cap, once. */
    method OverCap() returns (groups: seq<Id>)
      ensures forall g :: g in groups <==> |Of(rows, g)| > MAX_PER_RECIPIENT
      ensures forall i, j :: 0 <= i < j < |groups| ==> groups[i] != groups[j]
    {
      groups := [];
      for i := 0 to |rows|
        invariant forall g :: g in groups <==>
                    |Of(rows, g)| > MAX_PER_RECIPIENT && exists k :: 0 <= k < i && rows[k].recipient == g
        invariant forall a, b :: 0 <= a < b < |groups| ==> groups[a] != groups[b]
      {
        var g := rows[i].recipient;
        if g !in groups && |Of(rows, g)| > MAX_PER_RECIPIENT {
          groups := groups + [g];
        }
      }
      forall g | |Of(rows, g)| > MAX_PER_RECIPIENT ensures g in groups {
        FilterAll(rows, (r: Row) => r.recipient == g);
        assert Of(rows, g)[0] in rows;
      }
    }

    /** `prune`: what is left is exactly what retention is to leave, and the count is what went. */
    method Prune(now: int) returns (total: int)
      requires UniqueIds(rows)
      modifies `rows
      ensures rows == Pruned(tie, old(rows), now) && UniqueIds(rows)
      ensures total == |old(rows)| - |rows|
    {
      var byAge := DeleteExcept((r: Row) => r.createdAt >= Cutoff(now));
      ghost var recent := rows;
      FilterIsUnique(old(rows), (r: Row) => r.createdAt >= Cutoff(now));
      var groups := OverCap();
      var byCap := 0;
      FilterKeepsAll(recent, (r: Row) => Keeps(tie, recent, [], r));
      for i := 0 to |groups|
        invariant rows == Filter(recent, (r: Row) => Keeps(tie, recent, groups[..i], r))
        invariant byAge + byCap == |old(rows)| - |rows|
      {
        var deleted := CutDown(groups[i], recent, groups[..i]);
        assert groups[..i + 1] == groups[..i] + [groups[i]];
        byCap := byCap + deleted;
      }
      assert groups[..|groups|] == groups;
      UnderCapIsTop(tie, recent, groups);
      FilterIsUnique(recent, (r: Row) => r in Top(tie, recent, r.recipient));
      total := byAge + byCap;
    }

    /** One turn of the loop: delete by id what a recipient has beyond the cap. */
    method CutDown(g: Id, ghost recent: seq<Row>, ghost done: seq<Id>) returns (deleted: int)
      requires UniqueIds(recent) && g !in done && rows == Filter(recent, (r: Row) => Keeps(tie, recent, done, r))
      modifies `rows
      ensures rows == Filter(recent, (r: Row) => Keeps(tie, recent, done + [g], r))
      ensures deleted == |old(rows)| - |rows|
    {
      var newest := NewestOf(tie, rows, g);
      var overflow := Slice(newest, MAX_PER_RECIPIENT, MAX_PER_RECIPIENT + |newest|);
      FilterTwice(recent, (r: Row) => Keeps(tie, recent, done, r), (r: Row) => r.recipient == g, (r: Row) => r.recipient == g);
      assert newest == NewestOf(tie, recent, g);
      var keep := (r: Row) => !HasId(overflow, r.id);
      forall r | r in recent
        ensures Keeps(tie, recent, done + [g], r) == (Keeps(tie, recent, done, r) && keep(r))
      {
        CapStep(tie, recent, done, g, r);
      }
      FilterTwice(recent, (r: Row) => Keeps(tie, recent, done, r), keep, (r: Row) => Keeps(tie, recent, done + [g], r));
      deleted := 0;
      if overflow == [] {
        FilterKeepsAll(rows, keep);
        return;
      }
      deleted := DeleteExcept(keep);
    }
  }

  /** A recipient that is not over the cap has nothing but its top. */
  lemma UnderCapIsTop(tie: Tie, recent: seq<Row>, groups: seq<Id>)
    requires forall g :: g in groups <==> |Of(recent, g)| > MAX_PER_RECIPIENT
    ensures Filter(recent, (r: Row) => Keeps(tie, recent, groups, r))
        == Filter(recent, (r: Row) => r in Top(tie, recent, r.recipient))
  {
    forall r | r in recent ensures Keeps(tie, recent, groups, r) == (r in Top(tie, recent, r.recipient)) {
      var g := r.recipient;
      FilterAll(recent, (q: Row) => q.recipient == g);
      MemberSorted(tie, Of(recent, g), r);
      SortedIsOrdered(Newest, tie, Of(recent, g));
    }
    FilterSame(recent, (r: Row) => Keeps(tie, recent, groups, r), (r: Row) => r in Top(tie, recent, r.recipient));
  }
}
