/**
 When a retry is answered with the stored response. The documentation promises it of every retry; it holds
 as long as no key row is taken from under a live posting, and two reclaimers of one stale key can do that.
 */
module PostingReplays {
  import opened Options
  import opened LedgerBook
  import opened Posting
  import opened PostingProofs

  /** The key row of transaction `t` is there, completed with `t` and with its request's fingerprint. */
  predicate Kept(s: State, t: nat)
    requires t < |s.ledger.transactions|
  {
    var x := s.ledger.transactions[t];
    x.key in s.keys && s.keys[x.key].state == Completed(t) && s.keys[x.key].fingerprint == x.request
  }

  predicate AllKept(s: State) {
    forall t :: 0 <= t < |s.ledger.transactions| ==> Kept(s, t)
  }

  /** With its row kept, a retry of the same body gets the stored response and any other body a conflict. */
  lemma KeptIsReplayed(s: State, t: nat, c: Id, r: Request)
    requires t < |s.ledger.transactions| && Kept(s, t) && Enabled(s, Begin(c, s.ledger.transactions[t].key, r))
        && !r.kind.Adjustment?
    ensures var x := s.ledger.transactions[t];
            Next(s, Begin(c, x.key, r)).calls[c] == Answered(x.key, r, if r == x.request then Replayed(t) else KeyConflict)
  {
  }

  /**
   Of a posted transaction: a retry of the same body is answered with the stored response exactly when the
   transaction's key row is kept, whatever else happened.
   */
  lemma RetryReplayedIff(s: State, t: nat, c: Id)
    requires Inv(s) && t < |s.ledger.transactions|
        && Enabled(s, Begin(c, s.ledger.transactions[t].key, s.ledger.transactions[t].request))
    ensures var x := s.ledger.transactions[t];
            Next(s, Begin(c, x.key, x.request)).calls[c] == Answered(x.key, x.request, Replayed(t)) <==> Kept(s, t)
  {
    assert AsAsked(s.ledger, s.system, t);
  }

  /** Deleting a completed row, or completing a row that another request claimed. */
  predicate LosesRow(s: State, a: Action)
    requires Enabled(s, a)
  {
    || ((a.Reclaim? || a.Release?) && s.calls[a.call].key in s.keys && s.keys[s.calls[a.call].key].state.Completed?)
    || (a.Post? && PostOn(s.ledger, s.system, s.calls[a.call].key, s.calls[a.call].request).Done?
        && s.calls[a.call].key in s.keys && s.keys[s.calls[a.call].key].fingerprint != s.calls[a.call].request)
  }

  /** Exactly these steps lose a replay. */
  lemma ReplayLostIff(s: State, a: Action)
    requires Inv(s) && AllKept(s) && Enabled(s, a)
    ensures AllKept(Next(s, a)) <==> !LosesRow(s, a)
  {
    if a.Post? {
      PostStep(s, a);
    } else if (a.Reclaim? || a.Release?) && LosesRow(s, a) {
      var k := s.calls[a.call].key;
      assert !Kept(Next(s, a), s.keys[k].state.response);
    } else {
      forall t | 0 <= t < |s.ledger.transactions| ensures !LosesRow(s, a) ==> Kept(Next(s, a), t) {
        assert Kept(s, t);
      }
    }
  }

  lemma PostStep(s: State, a: Action)
    requires Shaped(s.ledger) && AllKept(s) && Enabled(s, a) && a.Post?
    ensures AllKept(Next(s, a)) <==> !LosesRow(s, a)
  {
    var s', call := Next(s, a), s.calls[a.call];
    if PostOn(s.ledger, s.system, call.key, call.request).Done? {
      PostExtends(s.ledger, s.system, call.key, call.request);
      NewKey(s.ledger, s.system, call.key, call.request);
      forall t | 0 <= t < |s.ledger.transactions| ensures Kept(s', t) {
        assert Kept(s, t) && SameTransaction(s.ledger.transactions[t], s'.ledger.transactions[t]);
      }
      if call.key in s.keys {
        assert Kept(s', |s.ledger.transactions|) <==> s.keys[call.key].fingerprint == call.request;
      }
    } else {
      forall t | 0 <= t < |s.ledger.transactions| ensures Kept(s', t) {
        assert Kept(s, t);
      }
    }
  }

  /** A posting that goes through is the first of its key. */
  lemma NewKey(l: Ledger, system: map<Id, Purpose>, key: Key, r: Request)
    requires PostOn(l, system, key, r).Done?
    ensures !KeyUsed(l.transactions, key)
  {
    NoObstacle(l, system, key, PlanFor(l, system, r).plan);
  }

  /** Over a run: every stored response is there at every moment up to step `n` exactly when no step before `n` loses one. */
  lemma {:induction false} AlwaysKeptIff(states: seq<State>, actions: seq<Action>, n: nat)
    requires IsRun(states, actions) && n <= |actions|
    ensures (forall i :: 0 <= i <= n ==> AllKept(states[i])) <==> (forall i :: 0 <= i < n ==> !LosesAt(states, actions, i))
  {
    if n == 0 {
      assert AllKept(states[0]);
    } else {
      AlwaysKeptIff(states, actions, n - 1);
      RunKeepsInv(states, actions, n - 1);
      assert IsStep(states, actions, n - 1);
      if AllKept(states[n - 1]) {
        ReplayLostIff(states[n - 1], actions[n - 1]);
        assert AllKept(states[n]) <==> !LosesAt(states, actions, n - 1);
      }
    }
  }

  predicate LosesAt(states: seq<State>, actions: seq<Action>, i: nat)
    requires i < |actions| && i < |states|
  {
    Enabled(states[i], actions[i]) && LosesRow(states[i], actions[i])
  }

  // ---------------------------------------------------------------- runs that lose nothing

  predicate Holding(call: Call) {
    call.Posting? || call.Releasing?
  }

  /** A call between its claim and its answer has its key's row to itself. */
  predicate HasRow(s: State, call: Call) {
    Holding(call) ==>
      call.key in s.keys && s.keys[call.key].state.InProgress?
          && (call.Posting? ==> s.keys[call.key].fingerprint == call.request)
  }

  predicate Exclusive(s: State) {
    && (forall c, d :: c in s.calls && d in s.calls && c != d && Holding(s.calls[c]) && Holding(s.calls[d]) ==>
          s.calls[c].key != s.calls[d].key)
    && (forall c :: c in s.calls ==> HasRow(s, s.calls[c]))
  }

  /** What the code takes a stale row to be: a remnant nobody is working on, and not completed in the meantime. */
  predicate ReclaimsRemnant(s: State, a: Action) {
    a.Reclaim? && Enabled(s, a) ==>
      var k := s.calls[a.call].key;
      && (forall d :: d in s.calls && Holding(s.calls[d]) ==> s.calls[d].key != k)
      && (k in s.keys ==> s.keys[k].state.InProgress?)
  }

  lemma RemnantsLoseNothing(s: State, a: Action)
    requires Inv(s) && AllKept(s) && Exclusive(s) && Enabled(s, a) && ReclaimsRemnant(s, a)
    ensures AllKept(Next(s, a))
  {
    if a.Post? || a.Release? {
      assert HasRow(s, s.calls[a.call]);
    }
    ReplayLostIff(s, a);
  }

  lemma StepKeepsExclusive(s: State, a: Action)
    requires Exclusive(s) && Enabled(s, a) && ReclaimsRemnant(s, a)
    ensures Exclusive(Next(s, a))
  {
    var s' := Next(s, a);
    forall c | c in s'.calls ensures HasRow(s', s'.calls[c]) {
      assert c in s.calls ==> HasRow(s, s.calls[c]);
    }
    forall c, d | c in s'.calls && d in s'.calls && c != d && Holding(s'.calls[c]) && Holding(s'.calls[d])
      ensures s'.calls[c].key != s'.calls[d].key
    {
      assert c in s.calls ==> HasRow(s, s.calls[c]);
      assert d in s.calls ==> HasRow(s, s.calls[d]);
    }
  }

  lemma {:induction false} RemnantRun(states: seq<State>, actions: seq<Action>, n: nat)
    requires IsRun(states, actions) && n <= |actions|
    requires forall i :: 0 <= i < n ==> ReclaimsRemnant(states[i], actions[i])
    ensures AllKept(states[n]) && Exclusive(states[n])
  {
    if n > 0 {
      RemnantRun(states, actions, n - 1);
      RunKeepsInv(states, actions, n - 1);
      assert IsStep(states, actions, n - 1);
      RemnantsLoseNothing(states[n - 1], actions[n - 1]);
      StepKeepsExclusive(states[n - 1], actions[n - 1]);
    }
  }

  /** When every reclaim so far took a remnant, every retry of a posted request gets the stored response, for ever. */
  lemma RetryIsReplayed(states: seq<State>, actions: seq<Action>, n: nat, t: nat, c: Id, r: Request)
    requires IsRun(states, actions) && n <= |actions| && t < |states[n].ledger.transactions|
    requires forall i :: 0 <= i < n ==> ReclaimsRemnant(states[i], actions[i])
    requires Enabled(states[n], Begin(c, states[n].ledger.transactions[t].key, r)) && !r.kind.Adjustment?
    ensures var x := states[n].ledger.transactions[t];
            Next(states[n], Begin(c, x.key, r)).calls[c]
                == Answered(x.key, r, if r == x.request then Replayed(t) else KeyConflict)
  {
    RemnantRun(states, actions, n);
    KeptIsReplayed(states[n], t, c, r);
  }

  // ---------------------------------------------------------------- a run that loses a replay

  const DEPOSIT: Request := Request(Deposit, None, Some(11), None, 100, 949, None, None)

  lemma DepositPosts(l: Ledger, system: map<Id, Purpose>, key: Key)
    requires l == Ledger([], Book([], [10, 11], map[10 := Wallet(949, 0), 11 := Wallet(949, 0)]))
        && system == map[10 := Clearing]
    ensures PostOn(l, system, key, DEPOSIT).Done?
  {
    NoObstacle(l, system, key, PlanFor(l, system, DEPOSIT).plan);
  }

  /** One more step of a run. */
  lemma Step(states: seq<State>, actions: seq<Action>, a: Action) returns (longer: seq<State>, more: seq<Action>)
    requires IsRun(states, actions) && Enabled(states[|actions|], a)
    ensures IsRun(longer, more) && longer[0] == states[0]
    ensures more == actions + [a] && longer[|more|] == Next(states[|actions|], a)
  {
    longer, more := states + [Next(states[|actions|], a)], actions + [a];
    forall i | 0 <= i < |more| ensures IsStep(longer, more, i) {
      assert i < |actions| ==> IsStep(states, actions, i);
    }
  }

  /** The first caller dies after its claim, and two retries find the key stale. */
  lemma TwoSeeAStaleKey(s0: State) returns (states: seq<State>, actions: seq<Action>)
    requires Provisioned(s0)
    ensures IsRun(states, actions) && states[0] == s0
    ensures states[|actions|] == s0.(now := s0.now + STALE_MS + 1, keys := map[7 := KeyRow(DEPOSIT, InProgress, s0.now)],
                                     calls := map[1 := Dead, 2 := Reclaiming(7, DEPOSIT), 3 := Reclaiming(7, DEPOSIT)])
  {
    states, actions := [s0], [];
    states, actions := Step(states, actions, Begin(1, 7, DEPOSIT));
    states, actions := Step(states, actions, Claim(1));
    states, actions := Step(states, actions, Crash(1));
    states, actions := Step(states, actions, Pass(STALE_MS + 1));
    states, actions := Step(states, actions, Begin(2, 7, DEPOSIT));
    states, actions := Step(states, actions, Begin(3, 7, DEPOSIT));
  }

  /** One reclaims and claims the key; the other then deletes that new claim and claims the key itself. */
  lemma TwoHoldTheKey(s0: State) returns (states: seq<State>, actions: seq<Action>)
    requires Provisioned(s0)
    ensures IsRun(states, actions) && states[0] == s0
    ensures states[|actions|] == s0.(now := s0.now + STALE_MS + 1,
        keys := map[7 := KeyRow(DEPOSIT, InProgress, s0.now + STALE_MS + 1)],
                                     calls := map[1 := Dead, 2 := Call.Posting(7, DEPOSIT), 3 := Call.Posting(7, DEPOSIT)])
  {
    states, actions := TwoSeeAStaleKey(s0);
    states, actions := Step(states, actions, Reclaim(2));
    states, actions := Step(states, actions, Claim(2));
    states, actions := Step(states, actions, Reclaim(3));
    states, actions := Step(states, actions, Claim(3));
  }

  /**
   The first of the two posts, the second fails on the UNIQUE key and releases the key: the deposit is booked
   once, but the next retry finds no stored response and goes on to claim the key again.
   */
  lemma TwoReclaimersLoseTheReplay(s0: State) returns (states: seq<State>, actions: seq<Action>)
    requires Provisioned(s0) && s0.system == map[10 := Clearing]
    requires s0.ledger == Ledger([], Book([], [10, 11], map[10 := Wallet(949, 0), 11 := Wallet(949, 0)]))
    ensures IsRun(states, actions) && states[0] == s0
    ensures var s := states[|actions|];
            && |s.ledger.transactions| == 1 && s.ledger.transactions[0].key == 7 && s.ledger.transactions[0].request == DEPOSIT
            && 2 in s.calls && s.calls[2] == Answered(7, DEPOSIT, Created(0))
            && 4 in s.calls && s.calls[4] == Claiming(7, DEPOSIT)
  {
    states, actions := TwoHoldTheKey(s0);
    DepositPosts(s0.ledger, s0.system, 7);
    PostExtends(s0.ledger, s0.system, 7, DEPOSIT);
    states, actions := Step(states, actions, Post(2));
    var s := states[|actions|];
    assert s.ledger.transactions[0].key == 7;
    if PostOn(s.ledger, s.system, 7, DEPOSIT).Done? {
      NewKey(s.ledger, s.system, 7, DEPOSIT);
      assert false;
    }
    states, actions := Step(states, actions, Post(3));
    states, actions := Step(states, actions, Release(3));
    states, actions := Step(states, actions, Begin(4, 7, DEPOSIT));
  }
}
