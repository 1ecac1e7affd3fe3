/**
 The audit table whoever appends to it: any number of processes, any clocks, from an empty table on. Each append
 still runs under the lock. This says exactly when a walk in (created_at, id) order meets one linear chain.
 */
module AuditForks {
  import opened Options
  import opened Texts
  import opened Uuid
  import opened AuditChain
  import opened AuditRuns

  /** Rows in the order of their appends: each links to what the query found at its time. */
  predicate Appended(rows: seq<Row>) {
    forall i :: 0 <= i < |rows| ==> LinkedToLatest(rows, i)
  }

  predicate LinkedToLatest(rows: seq<Row>, i: nat)
    requires i < |rows|
  {
    rows[i].prevHash == PrevHash(rows[..i])
  }

  /** An append through any process's clock, which needs no relation to the rows there. */
  lemma AppendStaysAppended(env: Env, log: Log, a: Append)
    requires ValidAppend(log.clock, a) && Appended(log.rows)
    ensures Appended(AppendRow(env, log, a).rows)
  {
    var all := AppendRow(env, log, a).rows;
    forall i | 0 <= i < |all| ensures LinkedToLatest(all, i) {
      if i < |log.rows| {
        assert all[..i] == log.rows[..i] && LinkedToLatest(log.rows, i);
      } else {
        assert all[..i] == log.rows;
      }
    }
  }

  /** Two rows with one hash, or one with the hash of the seed. */
  predicate Collides(rows: seq<Row>) {
    (exists i, j :: 0 <= i < j < |rows| && rows[i].entryHash == rows[j].entryHash)
    || exists i :: 0 <= i < |rows| && rows[i].entryHash == GENESIS
  }

  lemma NotAfterItself(a: Row, b: Row)
    requires After(a, b)
    ensures a != b && !After(b, a)
  {
    if a.createdAt == b.createdAt {
      LessAsymmetric(b.id, a.id);
    }
  }

  /** Rows in ascending order are determined by which rows they are. */
  lemma {:induction false} AscendingUnique(a: seq<Row>, b: seq<Row>)
    requires Ascending(a) && Ascending(b) && multiset(a) == multiset(b)
    ensures a == b
    decreases |a|
  {
    assert |multiset(a)| == |a| && |multiset(b)| == |b|;
    if a != [] {
      var n := |a| - 1;
      LastAgree(a, b);
      FrontAgree(a, b, n);
      AscendingUnique(a[..n], b[..n]);
    }
  }

  lemma FrontAgree(a: seq<Row>, b: seq<Row>, n: nat)
    requires multiset(a) == multiset(b) && |a| == |b| == n + 1 && a[n] == b[n]
    ensures multiset(a[..n]) == multiset(b[..n]) && a == a[..n] + [a[n]] && b == b[..n] + [b[n]]
  {
    assert a == a[..n] + [a[n]] && b == b[..n] + [b[n]];
    assert multiset(a[..n]) == multiset(a) - multiset{a[n]};
    assert multiset(b[..n]) == multiset(b) - multiset{b[n]};
  }

  lemma LastAgree(a: seq<Row>, b: seq<Row>)
    requires Ascending(a) && Ascending(b) && multiset(a) == multiset(b) && |a| == |b| > 0
    ensures a[|a| - 1] == b[|b| - 1]
  {
    var n := |a| - 1;
    assert a[n] in multiset(b) && b[n] in multiset(a);
    var i :| 0 <= i <= n && b[i] == a[n];
    var j :| 0 <= j <= n && a[j] == b[n];
    if i < n && j < n {
      NotAfterItself(b[n], b[i]);
      assert false;
    }
  }

  /** Rows appended in ascending order form one chain. */
  lemma AscendingIsLinked(rows: seq<Row>)
    requires Appended(rows) && Ascending(rows)
    ensures Linked(rows)
  {
    forall i | 0 <= i < |rows| ensures rows[i].prevHash == Link(rows, i) {
      assert LinkedToLatest(rows, i);
      if i > 0 {
        AscendingLatest(rows[..i]);
      }
    }
  }

  /** A row that a linked walk finds was appended after the row before it, up to collisions. */
  lemma WalkFollows(rows: seq<Row>, walk: seq<Row>, i: nat)
    requires Appended(rows) && Ascending(walk) && Linked(walk) && multiset(walk) == multiset(rows) && !Collides(rows)
    requires 0 < i < |rows| && Ascending(rows[..i])
    ensures After(rows[i], rows[i - 1])
  {
    AscendingLatest(rows[..i]);
    assert LinkedToLatest(rows, i) && rows[i].prevHash == rows[i - 1].entryHash;
    assert rows[i] in multiset(walk);
    var p :| 0 <= p < |walk| && walk[p] == rows[i];
    assert walk[p].prevHash == Link(walk, p);
    if p > 0 {
      assert walk[p - 1] in multiset(rows);
      var j :| 0 <= j < |rows| && rows[j] == walk[p - 1];
      assert j == i - 1;
    }
  }

  lemma {:induction false} LinkedWalkAscends(rows: seq<Row>, walk: seq<Row>, n: nat)
    requires Appended(rows) && Ascending(walk) && Linked(walk) && multiset(walk) == multiset(rows) && !Collides(rows)
    requires n <= |rows|
    ensures Ascending(rows[..n])
  {
    if n > 1 {
      LinkedWalkAscends(rows, walk, n - 1);
      WalkFollows(rows, walk, n - 1);
      AscendingSnoc(rows[..n - 1], rows[n - 1]);
      assert rows[..n] == rows[..n - 1] + [rows[n - 1]];
    }
  }

  /**
   Whoever appended: the walk in (created_at, id) order meets a linear chain exactly when every row was appended
   after all the others in that order, and then the walk is the order of the appends. Otherwise the chain has
   forked, or two texts share a hash.
   */
  lemma ChainIsLinearIff(rows: seq<Row>, walk: seq<Row>)
    requires Appended(rows) && Ascending(walk) && multiset(walk) == multiset(rows)
    ensures Ascending(rows) ==> Linked(walk) && walk == rows
    ensures Linked(walk) ==> Ascending(rows) || Collides(rows)
  {
    if Ascending(rows) {
      AscendingUnique(rows, walk);
      AscendingIsLinked(rows);
    }
    if Linked(walk) && !Collides(rows) {
      LinkedWalkAscends(rows, walk, |rows|);
      assert rows[..|rows|] == rows;
    }
  }

  /**
   Two processes in one millisecond: the second one's counter is behind, so its row sorts before the row it
   links to, and the next append will link to that row again.
   */
  lemma TwoProcessesFork(env: Env, a: Append, b: Append)
    requires ValidAppend(Clock(a.idNow, 0), a) && ValidAppend(INITIAL, b)
    requires a.idNow == b.idNow && a.createdAt == b.createdAt
    ensures var once := AppendRow(env, Log([], Clock(a.idNow, 0)), a).rows;
            var twice := AppendRow(env, Log(once, INITIAL), b).rows;
            Appended(twice) && !Ascending(twice) && PrevHash(twice) == PrevHash(once) == once[0].entryHash
  {
    var once := AppendRow(env, Log([], Clock(a.idNow, 0)), a).rows;
    var twice := AppendRow(env, Log(once, INITIAL), b).rows;
    AppendStaysAppended(env, Log([], Clock(a.idNow, 0)), a);
    AppendStaysAppended(env, Log(once, INITIAL), b);
    IdOrder(Clock(a.idNow, 0), b.random, Clock(a.idNow, 1), a.random);
    assert twice[..1] == once && After(twice[0], twice[1]);
    NotAfterItself(twice[0], twice[1]);
  }
}
