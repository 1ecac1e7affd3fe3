/**
 What posting keeps true: the book stays balanced, no customer wallet goes below zero, a key posts once, a
 transaction is reversed once and exactly undone. Then: when a retry is answered with the stored response.
 */
module PostingProofs {
  import opened Options
  import opened LedgerBook
  import opened Posting

  // ---------------------------------------------------------------- the ledger

  /** Transaction `t` and its two entries. */
  predicate Pair(l: Ledger, t: nat)
    requires t < |l.transactions| && 2 * t + 1 < |l.book.entries|
  {
    var x, a, b := l.transactions[t], l.book.entries[2 * t], l.book.entries[2 * t + 1];
    && a.transaction == b.transaction == t
    && b.leg == Opposite(a.leg) && a.amount == b.amount == x.amount > 0
    && a.currency == b.currency == x.currency && a.wallet != b.wallet
    && a.wallet in l.book.wallets && l.book.wallets[a.wallet].currency == x.currency
    && b.wallet in l.book.wallets && l.book.wallets[b.wallet].currency == x.currency
  }

  predicate Shaped(l: Ledger) {
    && |l.book.entries| == 2 * |l.transactions|
    && forall t :: 0 <= t < |l.transactions| ==> Pair(l, t)
  }

  predicate OnePerKey(transactions: seq<Transaction>) {
    forall t, u :: 0 <= t < u < |transactions| ==> transactions[t].key != transactions[u].key
  }

  predicate Reverses(transactions: seq<Transaction>, r: nat, o: nat) {
    r < |transactions| && transactions[r].reversalOf == Some(o)
  }

  /** Reversal `r` mirrors both entries of an earlier transaction, which is marked. */
  predicate Mirrors(l: Ledger, r: nat, o: nat) {
    && o < r < |l.transactions| && 2 * r + 1 < |l.book.entries| && l.transactions[o].reversed
    && MirrorOf(l.book.entries[2 * r], l.book.entries[2 * o])
    && MirrorOf(l.book.entries[2 * r + 1], l.book.entries[2 * o + 1])
  }

  predicate MirrorOf(a: Entry<Currency>, b: Entry<Currency>) {
    a.wallet == b.wallet && a.leg == Opposite(b.leg) && a.amount == b.amount && a.currency == b.currency
  }

  predicate ReversalsMirror(l: Ledger) {
    forall r :: 0 <= r < |l.transactions| && l.transactions[r].reversalOf.Some?
        ==> Mirrors(l, r, l.transactions[r].reversalOf.value)
  }

  ghost predicate ReversedOnce(transactions: seq<Transaction>) {
    && (forall q: nat, r: nat, o: nat :: Reverses(transactions, q, o) && Reverses(transactions, r, o) ==> q == r)
    && (forall o :: 0 <= o < |transactions| ==> (transactions[o].reversed <==> exists r: nat :: Reverses(transactions, r, o)))
  }

  predicate IsSystem(system: map<Id, Purpose>, w: Id, p: Purpose) {
    w in system && system[w] == p
  }

  /**
   Transaction `t` does what its request asked: the amount, the currency, and by kind the wallets debited and
   credited.
   */
  predicate AsAsked(l: Ledger, system: map<Id, Purpose>, t: nat)
    requires t < |l.transactions| && 2 * t + 1 < |l.book.entries|
  {
    var x, a, b := l.transactions[t], l.book.entries[2 * t], l.book.entries[2 * t + 1];
    && x.amount == x.request.amount && x.currency == x.request.currency
    && (x.request.kind.Reversal? || a.leg.Debit?)
    && match x.request.kind
       case Transfer => x.request.source == Some(a.wallet) && x.request.target == Some(b.wallet)
       case Deposit => IsSystem(system, a.wallet, Clearing) && x.request.target == Some(b.wallet)
       case Withdrawal => x.request.source == Some(a.wallet) && IsSystem(system, b.wallet, Clearing)
       case Fee => x.request.source == Some(a.wallet) && IsSystem(system, b.wallet, Revenue)
       case Reversal => x.reversalOf == x.request.original && x.reversalOf.Some?
       case Adjustment => false
  }

  predicate AllAsAsked(l: Ledger, system: map<Id, Purpose>) {
    forall t :: 0 <= t < |l.transactions| && 2 * t + 1 < |l.book.entries| ==> AsAsked(l, system, t)
  }

  predicate NonNegative(l: Ledger, system: map<Id, Purpose>) {
    forall w :: w in l.book.wallets && w !in system ==> l.book.wallets[w].balance >= 0
  }

  ghost predicate LedgerHolds(l: Ledger, system: map<Id, Purpose>) {
    && Balanced(l.book) && Shaped(l) && OnePerKey(l.transactions)
    && ReversalsMirror(l) && ReversedOnce(l.transactions) && NonNegative(l, system) && AllAsAsked(l, system)
  }

  // ---------------------------------------------------------------- plans and postings

  predicate LegMirrors(leg: PlannedLeg, e: Entry<Currency>) {
    leg.wallet == e.wallet && leg.leg == Opposite(e.leg) && leg.amount == e.amount
  }

  /**
   Two legs, opposite and equal; a debit is checked or falls on a system wallet; a reversal mirrors an
   unreversed original.
   */
  predicate GoodPlan(l: Ledger, system: map<Id, Purpose>, r: Request, plan: Plan) {
    && |plan.legs| == 2 && plan.legs[1].leg == Opposite(plan.legs[0].leg)
    && plan.legs[0].amount == plan.legs[1].amount == plan.amount == r.amount && plan.currency == r.currency
    && (forall leg <- plan.legs :: leg.leg.Debit? ==> leg.balanceChecked || leg.wallet in system)
    && (plan.reversalOf.Some? ==>
          var o := plan.reversalOf.value;
          && o < |l.transactions| && 2 * o + 1 < |l.book.entries| && !l.transactions[o].reversed
          && plan.currency == l.book.entries[2 * o].currency
          && LegMirrors(plan.legs[0], l.book.entries[2 * o]) && LegMirrors(plan.legs[1], l.book.entries[2 * o + 1]))
  }

  lemma PlansAreGood(l: Ledger, system: map<Id, Purpose>, r: Request)
    requires Shaped(l) && PlanFor(l, system, r).Planned?
    ensures GoodPlan(l, system, r, PlanFor(l, system, r).plan)
  {
    if r.kind.Reversal? {
      assert Pair(l, r.original.value);
    }
  }

  predicate Clear(l: Ledger, system: map<Id, Purpose>, key: Key, plan: Plan) {
    && |plan.legs| == 2 && plan.legs[0].wallet != plan.legs[1].wallet && !KeyUsed(l.transactions, key)
    && forall leg <- plan.legs :: leg.wallet in l.book.wallets && l.book.wallets[leg.wallet].currency == plan.currency
                                  && Covered(l.book.wallets, system, leg)
  }

  lemma NoObstacle(l: Ledger, system: map<Id, Purpose>, key: Key, plan: Plan)
    ensures Obstacle(l, system, key, plan).None? <==> Clear(l, system, key, plan)
  {
  }

  lemma PostedBook(l: Ledger, system: map<Id, Purpose>, key: Key, r: Request, plan: Plan)
    requires Balanced(l.book) && NonNegative(l, system) && GoodPlan(l, system, r, plan) && Clear(l, system, key, plan)
    ensures Balanced(Posted(l, key, r, plan).book) && NonNegative(Posted(l, key, r, plan), system)
  {
    var a, b := plan.legs[0], plan.legs[1];
    assert a in plan.legs && b in plan.legs;
    PairKeepsBalanced(l.book, |l.transactions|, a.wallet, b.wallet, a.leg, a.amount);
  }

  lemma PostedShape(l: Ledger, system: map<Id, Purpose>, key: Key, r: Request, plan: Plan)
    requires Shaped(l) && OnePerKey(l.transactions) && GoodPlan(l, system, r, plan) && Clear(l, system, key, plan)
        && r.amount > 0
    ensures Shaped(Posted(l, key, r, plan)) && OnePerKey(Posted(l, key, r, plan).transactions)
  {
    var l', n := Posted(l, key, r, plan), |l.transactions|;
    var a, b := plan.legs[0], plan.legs[1];
    assert a in plan.legs && b in plan.legs;
    forall t | 0 <= t < n + 1 ensures Pair(l', t) {
      if t < n {
        assert Pair(l, t);
        assert l'.book.entries[2 * t] == l.book.entries[2 * t] && l'.book.entries[2 * t + 1] == l.book.entries[2 * t + 1];
      }
    }
  }

  lemma PostedReversals(l: Ledger, system: map<Id, Purpose>, key: Key, r: Request, plan: Plan)
    requires Shaped(l) && ReversalsMirror(l) && ReversedOnce(l.transactions)
    requires GoodPlan(l, system, r, plan) && Clear(l, system, key, plan)
    ensures ReversalsMirror(Posted(l, key, r, plan))
  {
    var l', n := Posted(l, key, r, plan), |l.transactions|;
    forall q | 0 <= q < n + 1 && l'.transactions[q].reversalOf.Some?
      ensures Mirrors(l', q, l'.transactions[q].reversalOf.value)
    {
      var o := l'.transactions[q].reversalOf.value;
      if q < n {
        assert Mirrors(l, q, o);
        assert l'.book.entries[2 * q] == l.book.entries[2 * q] && l'.book.entries[2 * q + 1] == l.book.entries[2 * q + 1];
        assert l'.book.entries[2 * o] == l.book.entries[2 * o] && l'.book.entries[2 * o + 1] == l.book.entries[2 * o + 1];
      } else {
        assert Pair(l, o);
        assert plan.legs[0] in plan.legs && plan.legs[1] in plan.legs;
        assert l'.book.entries[2 * o] == l.book.entries[2 * o] && l'.book.entries[2 * o + 1] == l.book.entries[2 * o + 1];
      }
    }
  }

  lemma PostedReversedOnce(l: Ledger, system: map<Id, Purpose>, key: Key, r: Request, plan: Plan)
    requires Shaped(l) && ReversalsMirror(l) && ReversedOnce(l.transactions)
    requires GoodPlan(l, system, r, plan) && Clear(l, system, key, plan)
    ensures ReversedOnce(Posted(l, key, r, plan).transactions)
  {
    var before, after, n := l.transactions, Posted(l, key, r, plan).transactions, |l.transactions|;
    forall q | 0 <= q < n
      ensures after[q].reversalOf == before[q].reversalOf && (before[q].reversalOf.Some? ==> before[q].reversalOf.value < n)
    {
      assert before[q].reversalOf.Some? ==> Mirrors(l, q, before[q].reversalOf.value);
    }
    forall o | 0 <= o < n + 1 ensures after[o].reversed <==> exists q: nat :: Reverses(after, q, o) {
      if o < n {
        if plan.reversalOf == Some(o) {
          assert Reverses(after, n, o);
        } else if before[o].reversed {
          var q: nat :| Reverses(before, q, o);
          assert Reverses(after, q, o);
        } else if exists q: nat :: Reverses(after, q, o) {
          var q: nat :| Reverses(after, q, o);
          assert Reverses(before, q, o);
        }
      }
    }
    forall p: nat, q: nat, o: nat | Reverses(after, p, o) && Reverses(after, q, o) ensures p == q {
      assert p < n ==> Reverses(before, p, o);
      assert q < n ==> Reverses(before, q, o);
    }
  }

  lemma PostedAsAsked(l: Ledger, system: map<Id, Purpose>, key: Key, r: Request)
    requires Shaped(l) && AllAsAsked(l, system) && PostOn(l, system, key, r).Done?
    ensures AllAsAsked(PostOn(l, system, key, r).ledger, system)
  {
    var l', n := PostOn(l, system, key, r).ledger, |l.transactions|;
    PlansAreGood(l, system, r);
    NoObstacle(l, system, key, PlanFor(l, system, r).plan);
    forall t | 0 <= t < |l'.transactions| && 2 * t + 1 < |l'.book.entries| ensures AsAsked(l', system, t) {
      if t < n {
        assert AsAsked(l, system, t);
        assert l'.book.entries[2 * t] == l.book.entries[2 * t] && l'.book.entries[2 * t + 1] == l.book.entries[2 * t + 1];
      }
    }
  }

  /** Posting keeps all of it. */
  lemma PostingKeepsLedger(l: Ledger, system: map<Id, Purpose>, key: Key, r: Request)
    requires LedgerHolds(l, system) && r.amount > 0 && PostOn(l, system, key, r).Done?
    ensures LedgerHolds(PostOn(l, system, key, r).ledger, system)
    ensures !KeyUsed(l.transactions, key)
  {
    var plan := PlanFor(l, system, r).plan;
    PlansAreGood(l, system, r);
    NoObstacle(l, system, key, plan);
    PostedBook(l, system, key, r, plan);
    PostedShape(l, system, key, r, plan);
    PostedReversals(l, system, key, r, plan);
    PostedReversedOnce(l, system, key, r, plan);
    PostedAsAsked(l, system, key, r);
  }

  // ---------------------------------------------------------------- runs

  /** Before any posting: wallets provisioned, nothing in them. */
  ghost predicate Provisioned(s: State) {
    && s.ledger.transactions == [] && s.ledger.book.entries == [] && s.keys == map[] && s.calls == map[]
    && Listed(s.ledger.book) && forall w :: w in s.ledger.book.wallets ==> s.ledger.book.wallets[w].balance == 0
  }

  predicate IsStep(states: seq<State>, actions: seq<Action>, i: nat)
    requires i < |actions| && i + 1 < |states|
  {
    Enabled(states[i], actions[i]) && states[i + 1] == Next(states[i], actions[i])
  }

  ghost predicate IsRun(states: seq<State>, actions: seq<Action>) {
    && |states| == |actions| + 1 && Provisioned(states[0])
    && forall i :: 0 <= i < |actions| ==> IsStep(states, actions, i)
  }

  ghost predicate CallsHold(s: State) {
    forall c :: c in s.calls && !s.calls[c].Dead? ==> s.calls[c].request.amount > 0 && AnswerHolds(s, s.calls[c])
  }

  /** What an answer says is in the ledger, under the caller's own key. */
  predicate AnswerHolds(s: State, call: Call) {
    call.Answered? && (call.answer.Created? || call.answer.Replayed?) ==>
      && call.answer.id < |s.ledger.transactions| && s.ledger.transactions[call.answer.id].key == call.key
      && (call.answer.Created? ==> s.ledger.transactions[call.answer.id].request == call.request)
  }

  predicate OneCreator(s: State) {
    forall c, d :: c in s.calls && d in s.calls && c != d && IsCreated(s.calls[c]) && IsCreated(s.calls[d]) ==>
      s.calls[c].answer.id != s.calls[d].answer.id
  }

  predicate IsCreated(call: Call) {
    call.Answered? && call.answer.Created?
  }

  /** A completed key row names a transaction of that key. */
  predicate RowsHold(s: State) {
    forall k :: k in s.keys && s.keys[k].state.Completed? ==>
      s.keys[k].state.response < |s.ledger.transactions| && s.ledger.transactions[s.keys[k].state.response].key == k
  }

  ghost predicate Inv(s: State) {
    LedgerHolds(s.ledger, s.system) && CallsHold(s) && OneCreator(s) && RowsHold(s)
  }

  /** Transactions stay, but for the reversed mark; entries stay altogether. */
  predicate Extends(l: Ledger, l': Ledger) {
    && |l.transactions| <= |l'.transactions| && l.book.entries <= l'.book.entries
    && forall t :: 0 <= t < |l.transactions| ==> SameTransaction(l.transactions[t], l'.transactions[t])
  }

  predicate SameTransaction(a: Transaction, b: Transaction) {
    b == a || b == a.(reversed := true)
  }

  lemma PostExtends(l: Ledger, system: map<Id, Purpose>, key: Key, r: Request)
    requires Shaped(l) && PostOn(l, system, key, r).Done?
    ensures var l' := PostOn(l, system, key, r).ledger;
            && Extends(l, l') && |l'.transactions| == |l.transactions| + 1
            && l'.transactions[|l.transactions|].key == key && l'.transactions[|l.transactions|].request == r
  {
    PlansAreGood(l, system, r);
    NoObstacle(l, system, key, PlanFor(l, system, r).plan);
  }

  lemma StepExtends(s: State, a: Action)
    requires Shaped(s.ledger) && Enabled(s, a)
    ensures Extends(s.ledger, Next(s, a).ledger) && Next(s, a).system == s.system
  {
    if a.Post? && PostOn(s.ledger, s.system, s.calls[a.call].key, s.calls[a.call].request).Done? {
      PostExtends(s.ledger, s.system, s.calls[a.call].key, s.calls[a.call].request);
    }
  }

  lemma StepKeepsLedger(s: State, a: Action)
    requires Inv(s) && Enabled(s, a)
    ensures LedgerHolds(Next(s, a).ledger, s.system)
  {
    if a.Post? && PostOn(s.ledger, s.system, s.calls[a.call].key, s.calls[a.call].request).Done? {
      PostingKeepsLedger(s.ledger, s.system, s.calls[a.call].key, s.calls[a.call].request);
    }
  }

  /** A step changes one call; a posting that goes through makes it the creator of the new transaction. */
  lemma StepChangesOneCall(s: State, a: Action)
    requires Shaped(s.ledger) && Enabled(s, a)
    ensures var s' := Next(s, a);
            && (forall c :: c in s'.calls && (a.Pass? || c != a.call) ==> c in s.calls && s'.calls[c] == s.calls[c])
            && (!a.Pass? && IsCreated(s'.calls[a.call]) ==>
                  s'.calls[a.call].answer.id == |s.ledger.transactions| && AnswerHolds(s', s'.calls[a.call]))
  {
    if a.Post? && PostOn(s.ledger, s.system, s.calls[a.call].key, s.calls[a.call].request).Done? {
      PostExtends(s.ledger, s.system, s.calls[a.call].key, s.calls[a.call].request);
    }
  }

  lemma ChangedCallHolds(s: State, a: Action)
    requires Shaped(s.ledger) && CallsHold(s) && RowsHold(s) && Enabled(s, a) && !a.Pass? && !Next(s, a).calls[a.call].Dead?
    ensures Next(s, a).calls[a.call].request.amount > 0 && AnswerHolds(Next(s, a), Next(s, a).calls[a.call])
  {
    StepChangesOneCall(s, a);
  }

  lemma StepKeepsCalls(s: State, a: Action)
    requires Shaped(s.ledger) && CallsHold(s) && RowsHold(s) && Enabled(s, a)
    ensures CallsHold(Next(s, a))
  {
    var s' := Next(s, a);
    StepExtends(s, a);
    StepChangesOneCall(s, a);
    forall c | c in s'.calls && !s'.calls[c].Dead? ensures s'.calls[c].request.amount > 0 && AnswerHolds(s', s'.calls[c]) {
      if a.Pass? || c != a.call {
        AnswerStays(s, s', s.calls[c]);
      } else {
        ChangedCallHolds(s, a);
      }
    }
  }

  lemma AnswerStays(s: State, s': State, call: Call)
    requires AnswerHolds(s, call) && Extends(s.ledger, s'.ledger)
    ensures AnswerHolds(s', call)
  {
  }

  lemma StepKeepsCreator(s: State, a: Action)
    requires Shaped(s.ledger) && CallsHold(s) && OneCreator(s) && Enabled(s, a)
    ensures OneCreator(Next(s, a))
  {
    StepChangesOneCall(s, a);
    forall c | c in s.calls && IsCreated(s.calls[c]) ensures s.calls[c].answer.id < |s.ledger.transactions| {
      assert AnswerHolds(s, s.calls[c]);
    }
  }

  lemma StepKeepsRows(s: State, a: Action)
    requires Shaped(s.ledger) && RowsHold(s) && Enabled(s, a)
    ensures RowsHold(Next(s, a))
  {
    StepExtends(s, a);
    if a.Post? && PostOn(s.ledger, s.system, s.calls[a.call].key, s.calls[a.call].request).Done? {
      PostExtends(s.ledger, s.system, s.calls[a.call].key, s.calls[a.call].request);
    }
  }

  lemma StepKeepsInv(s: State, a: Action)
    requires Inv(s) && Enabled(s, a)
    ensures Inv(Next(s, a))
  {
    StepExtends(s, a);
    StepKeepsLedger(s, a);
    StepKeepsCalls(s, a);
    StepKeepsCreator(s, a);
    StepKeepsRows(s, a);
  }

  lemma {:induction false} RunKeepsInv(states: seq<State>, actions: seq<Action>, n: nat)
    requires IsRun(states, actions) && n <= |actions|
    ensures Inv(states[n])
  {
    if n == 0 {
      NothingIsBalanced(states[0].ledger.book);
    } else {
      RunKeepsInv(states, actions, n - 1);
      assert IsStep(states, actions, n - 1);
      StepKeepsInv(states[n - 1], actions[n - 1]);
    }
  }

  /** In every run each transaction moves what its request asked, between the wallets its request and its kind name. */
  lemma MoneyMovesAsAsked(states: seq<State>, actions: seq<Action>, n: nat, t: nat)
    requires IsRun(states, actions) && n <= |actions| && t < |states[n].ledger.transactions|
    ensures 2 * t + 1 < |states[n].ledger.book.entries| && Pair(states[n].ledger, t)
    ensures AsAsked(states[n].ledger, states[n].system, t)
  {
    RunKeepsInv(states, actions, n);
  }

  lemma RunIsShaped(states: seq<State>, actions: seq<Action>, n: nat)
    requires IsRun(states, actions) && n <= |actions|
    ensures Shaped(states[n].ledger)
  {
    RunKeepsInv(states, actions, n);
  }

  /** In every run, whatever crashes and reclaims happen: the book is balanced and no customer wallet is overdrawn. */
  lemma BookIsBalanced(states: seq<State>, actions: seq<Action>, n: nat)
    requires IsRun(states, actions) && n <= |actions|
    ensures Balanced(states[n].ledger.book) && Shaped(states[n].ledger) && NonNegative(states[n].ledger, states[n].system)
  {
    RunKeepsInv(states, actions, n);
  }

  /** In every run one key posts at most one transaction, and at most one caller is told it created it. */
  lemma AtMostOncePerKey(states: seq<State>, actions: seq<Action>, n: nat)
    requires IsRun(states, actions) && n <= |actions|
    ensures OnePerKey(states[n].ledger.transactions)
    ensures var calls := states[n].calls;
            forall c, d ::
              c in calls && d in calls && IsCreated(calls[c]) && IsCreated(calls[d]) && calls[c].key == calls[d].key
              ==> c == d
  {
    RunKeepsInv(states, actions, n);
    var s := states[n];
    forall c, d | c in s.calls && d in s.calls && IsCreated(s.calls[c]) && IsCreated(s.calls[d])
        && s.calls[c].key == s.calls[d].key
      ensures c == d
    {
      assert AnswerHolds(s, s.calls[c]) && AnswerHolds(s, s.calls[d]);
    }
  }

  /**
   A created or replayed answer is about a transaction of the caller's own key; a created one is of its own
   request.
   */
  lemma AnswersAreTrue(states: seq<State>, actions: seq<Action>, n: nat, c: Id)
    requires IsRun(states, actions) && n <= |actions| && c in states[n].calls
    ensures AnswerHolds(states[n], states[n].calls[c])
  {
    RunKeepsInv(states, actions, n);
    if states[n].calls[c].Answered? {
      assert !states[n].calls[c].Dead?;
    }
  }

  function Effect(l: Ledger, t: nat, w: Id): int
    requires 2 * t + 1 < |l.book.entries|
  {
    var a, b := l.book.entries[2 * t], l.book.entries[2 * t + 1];
    (if a.wallet == w then Signed(a.leg, a.amount) else 0) + (if b.wallet == w then Signed(b.leg, b.amount) else 0)
  }

  /**
   In every run a transaction is marked reversed exactly when one later transaction reverses it, and that one
   undoes it on every wallet.
   */
  lemma ReversalUndoes(states: seq<State>, actions: seq<Action>, n: nat, o: nat)
    requires IsRun(states, actions) && n <= |actions| && o < |states[n].ledger.transactions|
    ensures var l := states[n].ledger;
            && |l.book.entries| == 2 * |l.transactions|
            && (l.transactions[o].reversed <==> exists r: nat :: Reverses(l.transactions, r, o))
            && (forall q: nat, r: nat :: Reverses(l.transactions, q, o) && Reverses(l.transactions, r, o) ==> q == r)
            && (forall r: nat, w :: Reverses(l.transactions, r, o) ==> o < r && Effect(l, r, w) == -Effect(l, o, w))
  {
    RunKeepsInv(states, actions, n);
    var l := states[n].ledger;
    forall r: nat, w | Reverses(l.transactions, r, o) ensures o < r && Effect(l, r, w) == -Effect(l, o, w) {
      assert Mirrors(l, r, o);
    }
  }

  lemma RunExtends(states: seq<State>, actions: seq<Action>, n: nat, next: nat)
    requires IsRun(states, actions) && n < |actions| && next == n + 1
    ensures Extends(states[n].ledger, states[next].ledger)
  {
    RunIsShaped(states, actions, n);
    assert IsStep(states, actions, n);
    StepExtends(states[n], actions[n]);
  }

  /** Entries are never changed or removed, transactions only marked. */
  lemma {:induction false} HistoryStays(states: seq<State>, actions: seq<Action>, i: nat, j: nat)
    requires IsRun(states, actions) && i <= j <= |actions|
    ensures Extends(states[i].ledger, states[j].ledger)
  {
    if i < j {
      HistoryStays(states, actions, i, j - 1);
      RunExtends(states, actions, j - 1, j);
      ExtendsOn(states[i].ledger, states[j - 1].ledger, states[j].ledger);
    }
  }

  lemma ExtendsOn(a: Ledger, b: Ledger, c: Ledger)
    requires Extends(a, b) && Extends(b, c)
    ensures Extends(a, c)
  {
    forall t | 0 <= t < |a.transactions| ensures SameTransaction(a.transactions[t], c.transactions[t]) {
      assert SameTransaction(a.transactions[t], b.transactions[t]) && SameTransaction(b.transactions[t], c.transactions[t]);
    }
  }
}
