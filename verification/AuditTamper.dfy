/** Tamper evidence: the last entry hash fixes the whole log, unless two hashed texts collide. */
module AuditTamper {
  import opened Texts
  import opened Json
  import opened CanonicalJson
  import opened StableJson
  import opened AuditChain

  predicate BarFree(t: Text) {
    forall i :: 0 <= i < |t| ==> t[i] != BAR
  }

  /** `prev|payload` splits at the first bar, whatever the payload contains. */
  lemma SplitAtBar(p: Text, x: Text, q: Text, y: Text)
    requires BarFree(p) && BarFree(q) && p + [BAR] + x == q + [BAR] + y
    ensures p == q && x == y
  {
    var t := p + [BAR] + x;
    assert t[|p|] == BAR && t[|q|] == BAR;
    assert t[..|p|] == p && t[..|q|] == q;
    assert x == t[|p| + 1..] && y == t[|q| + 1..];
  }

  /** Nothing is asked of a row but that its context is a JSON value: it may have been tampered with. */
  predicate ValidRow(row: Row) {
    AnyContext(row.entry.context)
  }

  ghost predicate SameRow(a: Row, b: Row) {
    && a.id == b.id && SameEntry(a.entry, b.entry) && a.createdAt == b.createdAt
    && a.prevHash == b.prevHash && a.entryHash == b.entryHash
  }

  ghost predicate SameLog(a: seq<Row>, b: seq<Row>) {
    |a| == |b| && forall i :: 0 <= i < |a| ==> SameRow(a[i], b[i])
  }

  /** Two different texts, one hashed for a row of each log, with one hash. */
  ghost predicate Collision(env: Env, a: seq<Row>, b: seq<Row>) {
    exists i, j :: 0 <= i < |a| && 0 <= j < |b| &&
      TextOf(env, a[i]) != TextOf(env, b[j]) && env.hash(TextOf(env, a[i])) == env.hash(TextOf(env, b[j]))
  }

  lemma HashIsNotGenesis(env: Env, t: Text)
    requires HexDigest(env)
    ensures env.hash(t) != GENESIS && BarFree(env.hash(t))
  {
    assert |env.hash(t)| == 64;
  }

  lemma NoRowHashesToGenesis(env: Env, rows: seq<Row>)
    requires HexDigest(env) && Verifies(env, rows)
    ensures forall i :: 0 <= i < |rows| ==> rows[i].entryHash != GENESIS
  {
    forall i | 0 <= i < |rows| ensures rows[i].entryHash != GENESIS {
      assert RowVerifies(env, rows[i]);
      HashIsNotGenesis(env, TextOf(env, rows[i]));
    }
  }

  lemma PrevHashBarFree(env: Env, rows: seq<Row>, i: nat)
    requires HexDigest(env) && Verifies(env, rows) && i < |rows|
    ensures BarFree(rows[i].prevHash)
  {
    assert rows[i].prevHash == Link(rows, i);
    if i > 0 {
      assert RowVerifies(env, rows[i - 1]);
      HashIsNotGenesis(env, TextOf(env, rows[i - 1]));
    }
  }

  lemma SameTextSameRow(env: Env, a: Row, b: Row)
    requires IsoInjective(env) && ValidRow(a) && ValidRow(b)
    requires BarFree(a.prevHash) && BarFree(b.prevHash)
    requires TextOf(env, a) == TextOf(env, b) && a.entryHash == b.entryHash
    ensures SameRow(a, b)
  {
    SplitAtBar(a.prevHash, StableStringify(PayloadOf(env, a)), b.prevHash, StableStringify(PayloadOf(env, b)));
    PayloadIsValue(env, a.id, a.entry, a.createdAt);
    PayloadIsValue(env, b.id, b.entry, b.createdAt);
    StableEqualIffSame(PayloadOf(env, a), PayloadOf(env, b));
    SamePayloadFields(env, a.id, a.entry, a.createdAt, b.id, b.entry, b.createdAt);
  }

  lemma VerifiesFront(env: Env, rows: seq<Row>)
    requires Verifies(env, rows) && rows != []
    ensures Verifies(env, rows[..|rows| - 1])
    ensures |rows| == 1 ==> rows[0].prevHash == GENESIS
    ensures |rows| > 1 ==> rows[|rows| - 1].prevHash == rows[|rows| - 2].entryHash
  {
    var front := rows[..|rows| - 1];
    assert rows[|rows| - 1].prevHash == Link(rows, |rows| - 1);
    forall i | 0 <= i < |front| ensures front[i].prevHash == Link(front, i) && RowVerifies(env, front[i]) {
      assert Link(front, i) == Link(rows, i) && front[i] == rows[i];
    }
  }

  ghost predicate IntactLog(env: Env, rows: seq<Row>) {
    Verifies(env, rows) && rows != [] && forall i {:trigger ValidRow(rows[i])} :: 0 <= i < |rows| ==> ValidRow(rows[i])
  }

  lemma LastRowsAgree(env: Env, a: seq<Row>, b: seq<Row>)
    requires HexDigest(env) && IsoInjective(env) && IntactLog(env, a) && IntactLog(env, b)
    requires a[|a| - 1].entryHash == b[|b| - 1].entryHash
    requires TextOf(env, a[|a| - 1]) == TextOf(env, b[|b| - 1])
    ensures SameRow(a[|a| - 1], b[|b| - 1])
    ensures |a| == 1 <==> |b| == 1
  {
    PrevHashBarFree(env, a, |a| - 1);
    PrevHashBarFree(env, b, |b| - 1);
    SameTextSameRow(env, a[|a| - 1], b[|b| - 1]);
    NoRowHashesToGenesis(env, a);
    NoRowHashesToGenesis(env, b);
    VerifiesFront(env, a);
    VerifiesFront(env, b);
  }

  lemma LastRowsCollide(env: Env, a: seq<Row>, b: seq<Row>)
    requires IntactLog(env, a) && IntactLog(env, b)
    requires a[|a| - 1].entryHash == b[|b| - 1].entryHash
    requires TextOf(env, a[|a| - 1]) != TextOf(env, b[|b| - 1])
    ensures Collision(env, a, b)
  {
    assert RowVerifies(env, a[|a| - 1]) && RowVerifies(env, b[|b| - 1]);
  }

  lemma IntactFront(env: Env, rows: seq<Row>)
    requires IntactLog(env, rows) && |rows| > 1
    ensures IntactLog(env, rows[..|rows| - 1])
    ensures rows[..|rows| - 1][|rows| - 2].entryHash == rows[|rows| - 1].prevHash
  {
    VerifiesFront(env, rows);
  }

  /**
   Two logs that verify and end in one entry hash are equal row for row in every hashed field, the ip hash
   and correlation id included, or they exhibit a collision of the hash.
   */
  lemma {:induction false} TamperEvident(env: Env, a: seq<Row>, b: seq<Row>)
    requires HexDigest(env) && IsoInjective(env) && IntactLog(env, a) && IntactLog(env, b)
    requires a[|a| - 1].entryHash == b[|b| - 1].entryHash
    ensures SameLog(a, b) || Collision(env, a, b)
    decreases |a|
  {
    if TextOf(env, a[|a| - 1]) != TextOf(env, b[|b| - 1]) {
      LastRowsCollide(env, a, b);
    } else {
      LastRowsAgree(env, a, b);
      if |a| > 1 {
        var a', b' := a[..|a| - 1], b[..|b| - 1];
        IntactFront(env, a);
        IntactFront(env, b);
        TamperEvident(env, a', b');
        FrontsToLogs(env, a, b);
      } else {
        SingleRows(a, b);
      }
    }
  }

  lemma SingleRows(a: seq<Row>, b: seq<Row>)
    requires |a| == |b| == 1 && SameRow(a[0], b[0])
    ensures SameLog(a, b)
  {
  }

  lemma FrontsToLogs(env: Env, a: seq<Row>, b: seq<Row>)
    requires a != [] && b != [] && SameRow(a[|a| - 1], b[|b| - 1])
    requires SameLog(a[..|a| - 1], b[..|b| - 1]) || Collision(env, a[..|a| - 1], b[..|b| - 1])
    ensures SameLog(a, b) || Collision(env, a, b)
  {
    var a', b' := a[..|a| - 1], b[..|b| - 1];
    if Collision(env, a', b') {
      FrontCollision(env, a, b);
    } else {
      forall i | 0 <= i < |a| ensures SameRow(a[i], b[i]) {
        if i < |a'| {
          assert SameRow(a'[i], b'[i]);
        }
      }
    }
  }

  lemma FrontCollision(env: Env, a: seq<Row>, b: seq<Row>)
    requires a != [] && b != [] && Collision(env, a[..|a| - 1], b[..|b| - 1])
    ensures Collision(env, a, b)
  {
    var a', b' := a[..|a| - 1], b[..|b| - 1];
    var i, j :| 0 <= i < |a'| && 0 <= j < |b'| &&
      TextOf(env, a'[i]) != TextOf(env, b'[j]) && env.hash(TextOf(env, a'[i])) == env.hash(TextOf(env, b'[j]));
    assert TextOf(env, a[i]) != TextOf(env, b[j]) && env.hash(TextOf(env, a[i])) == env.hash(TextOf(env, b[j]));
  }
}
