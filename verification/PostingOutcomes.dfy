/**
 When a posting goes through and why it is refused otherwise, said of the request and the ledger alone: from
 which wallet to which the money is to move, and what both have to be.
 */
module PostingOutcomes {
  import opened Options
  import opened LedgerBook
  import opened Posting
  import opened PostingProofs

  predicate Serves(l: Ledger, system: map<Id, Purpose>, w: Id, c: Currency, p: Purpose) {
    IsSystem(system, w, p) && w in l.book.wallets && l.book.wallets[w].currency == c
  }

  /** `w` is the first system wallet of the book with that currency and purpose. */
  predicate IsFirst(l: Ledger, system: map<Id, Purpose>, w: Id, c: Currency, p: Purpose) {
    exists i :: 0 <= i < |l.book.order| && l.book.order[i] == w && Serves(l, system, w, c, p)
             && forall j :: 0 <= j < i ==> !Serves(l, system, l.book.order[j], c, p)
  }

  predicate NoneServes(l: Ledger, system: map<Id, Purpose>, c: Currency, p: Purpose) {
    forall i :: 0 <= i < |l.book.order| ==> !Serves(l, system, l.book.order[i], c, p)
  }

  /** A posted transaction that is not reversed yet, named with its own amount and currency. */
  predicate Reversible(l: Ledger, r: Request, o: nat) {
    && r.original == Some(o) && o < |l.transactions| && !l.transactions[o].reversed
    && l.transactions[o].amount == r.amount && l.transactions[o].currency == r.currency
  }

  /** Transaction `o` took the money from `v` and gave it to `w`. */
  predicate Moved(l: Ledger, o: nat, v: Id, w: Id) {
    && 2 * o + 1 < |l.book.entries|
    && var a, b := l.book.entries[2 * o], l.book.entries[2 * o + 1];
       if a.leg.Debit? then a.wallet == v && b.wallet == w else b.wallet == v && a.wallet == w
  }

  /** The request is for money to go from `v` to `w`. */
  predicate Asks(l: Ledger, system: map<Id, Purpose>, r: Request, v: Id, w: Id) {
    match r.kind
    case Transfer => r.source == Some(v) && r.target == Some(w) && v != w
    case Deposit => r.target == Some(w) && IsFirst(l, system, v, r.currency, Clearing)
    case Withdrawal => r.source == Some(v) && IsFirst(l, system, w, r.currency, Clearing)
    case Fee => r.source == Some(v) && IsFirst(l, system, w, r.currency, Revenue)
    case Reversal => r.original.Some? && Reversible(l, r, r.original.value) && Moved(l, r.original.value, w, v)
    case Adjustment => false
  }

  predicate BothKnown(l: Ledger, v: Id, w: Id) {
    v in l.book.wallets && w in l.book.wallets
  }

  predicate BothIn(l: Ledger, v: Id, w: Id, c: Currency) {
    BothKnown(l, v, w) && l.book.wallets[v].currency == c && l.book.wallets[w].currency == c
  }

  /** System wallets may go below zero, and so may whatever a deposit comes from. */
  predicate CanPay(l: Ledger, system: map<Id, Purpose>, r: Request, v: Id) {
    r.kind.Deposit? || v in system || (v in l.book.wallets && l.book.wallets[v].balance >= r.amount)
  }

  predicate FreeKey(l: Ledger, key: Key) {
    forall t :: 0 <= t < |l.transactions| ==> l.transactions[t].key != key
  }

  predicate CanMove(l: Ledger, system: map<Id, Purpose>, key: Key, r: Request, v: Id, w: Id) {
    && Asks(l, system, r, v, w) && v != w && BothIn(l, v, w, r.currency)
    && CanPay(l, system, r, v) && FreeKey(l, key)
  }

  /** One wallet gives what the other gets; nothing else moves. */
  predicate Paid(before: map<Id, Wallet<Currency>>, after: map<Id, Wallet<Currency>>, v: Id, w: Id, amount: int) {
    after.Keys == before.Keys && forall u :: u in before ==> PaidAt(before, after, v, w, amount, u)
  }

  predicate PaidAt(before: map<Id, Wallet<Currency>>, after: map<Id, Wallet<Currency>>, v: Id, w: Id, amount: int, u: Id) {
    && u in before && u in after && after[u].currency == before[u].currency
    && after[u].balance == before[u].balance - (if u == v then amount else 0) + (if u == w then amount else 0)
  }

  // ---------------------------------------------------------------- who pays whom

  lemma {:induction false} FindsFirst(l: Ledger, order: seq<Id>, system: map<Id, Purpose>, c: Currency, p: Purpose)
    ensures var f := FindSystem(order, l.book.wallets, system, c, p);
            && (f.None? ==> forall i :: 0 <= i < |order| ==> !Serves(l, system, order[i], c, p))
            && (f.Some? ==> exists i :: 0 <= i < |order| && order[i] == f.value && Serves(l, system, f.value, c, p)
                                     && forall j :: 0 <= j < i ==> !Serves(l, system, order[j], c, p))
  {
    if order != [] {
      FindsFirst(l, order[1..], system, c, p);
      if Serves(l, system, order[0], c, p) {
        assert order[0] == FindSystem(order, l.book.wallets, system, c, p).value;
      } else {
        var f := FindSystem(order[1..], l.book.wallets, system, c, p);
        if f.Some? {
          var i :| 0 <= i < |order[1..]| && order[1..][i] == f.value && Serves(l, system, f.value, c, p)
            && forall j :: 0 <= j < i ==> !Serves(l, system, order[1..][j], c, p);
          assert order[i + 1] == f.value;
          forall j | 0 <= j < i + 1 ensures !Serves(l, system, order[j], c, p) {
            assert j > 0 ==> order[j] == order[1..][j - 1];
          }
        } else {
          forall j | 0 <= j < |order| ensures !Serves(l, system, order[j], c, p) {
            assert j > 0 ==> order[j] == order[1..][j - 1];
          }
        }
      }
    }
  }

  lemma FirstIsFound(l: Ledger, system: map<Id, Purpose>, w: Id, c: Currency, p: Purpose)
    ensures IsFirst(l, system, w, c, p) <==> FindSystem(l.book.order, l.book.wallets, system, c, p) == Some(w)
    ensures NoneServes(l, system, c, p) <==> FindSystem(l.book.order, l.book.wallets, system, c, p).None?
  {
    FindsFirst(l, l.book.order, system, c, p);
  }

  /** A planned request has one payer and one payee. */
  lemma PlanPays(l: Ledger, system: map<Id, Purpose>, r: Request, v: Id, w: Id)
    requires Shaped(l)
    ensures Asks(l, system, r, v, w) <==> PlanFor(l, system, r).Planned? && Pays(PlanFor(l, system, r).plan, r, v, w)
  {
    FirstIsFound(l, system, v, r.currency, Clearing);
    FirstIsFound(l, system, w, r.currency, Clearing);
    FirstIsFound(l, system, w, r.currency, Revenue);
    if r.kind.Reversal? && r.original.Some? && r.original.value < |l.transactions| {
      assert Pair(l, r.original.value);
    }
  }

  predicate Pays(plan: Plan, r: Request, v: Id, w: Id) {
    && |plan.legs| == 2 && plan.currency == r.currency
    && var d := if plan.legs[0].leg.Debit? then 0 else 1;
       && plan.legs[d] == PlannedLeg(v, Debit, r.amount, !r.kind.Deposit?)
       && plan.legs[1 - d].wallet == w && plan.legs[1 - d].leg.Credit? && plan.legs[1 - d].amount == r.amount
  }

  // ---------------------------------------------------------------- when it goes through

  lemma ObstacleIff(l: Ledger, system: map<Id, Purpose>, key: Key, r: Request, plan: Plan, v: Id, w: Id)
    requires Pays(plan, r, v, w)
    ensures Obstacle(l, system, key, plan)
         == if !BothKnown(l, v, w) then Some(WalletNotFound)
            else if !BothIn(l, v, w, r.currency) then Some(CrossCurrency)
            else if !CanPay(l, system, r, v) then Some(InsufficientBalance)
            else if !FreeKey(l, key) then Some(KeyTaken)
            else if v == w then Some(EntrySeqTaken)
            else None
  {
    var a, b := plan.legs[0], plan.legs[1];
    assert plan.legs == [a, b];
    assert a in plan.legs && b in plan.legs;
    assert FreeKey(l, key) <==> !KeyUsed(l.transactions, key);
  }

  /**
   A request is posted exactly when it is for money to go from one wallet to another, both are known and hold
   the requested currency, the payer can pay and the key has no transaction yet.
   */
  lemma PostsIff(l: Ledger, system: map<Id, Purpose>, key: Key, r: Request)
    requires Shaped(l)
    ensures PostOn(l, system, key, r).Done? <==> exists v, w :: CanMove(l, system, key, r, v, w)
  {
    if PlanFor(l, system, r).Planned? {
      var plan := PlanFor(l, system, r).plan;
      var v, w := Payer(l, system, r);
      PlanPays(l, system, r, v, w);
      ObstacleIff(l, system, key, r, plan, v, w);
      assert PostOn(l, system, key, r).Done? ==> CanMove(l, system, key, r, v, w);
      forall x, y | CanMove(l, system, key, r, x, y) ensures x == v && y == w {
        PlanPays(l, system, r, x, y);
      }
    } else {
      forall x, y ensures !CanMove(l, system, key, r, x, y) {
        PlanPays(l, system, r, x, y);
      }
    }
  }

  /** Who pays whom by a plan. */
  lemma Payer(l: Ledger, system: map<Id, Purpose>, r: Request) returns (v: Id, w: Id)
    requires Shaped(l) && PlanFor(l, system, r).Planned?
    ensures Pays(PlanFor(l, system, r).plan, r, v, w)
  {
    var plan := PlanFor(l, system, r).plan;
    if r.kind.Reversal? {
      assert Pair(l, r.original.value);
    }
    if plan.legs[0].leg.Debit? {
      v, w := plan.legs[0].wallet, plan.legs[1].wallet;
    } else {
      v, w := plan.legs[1].wallet, plan.legs[0].wallet;
    }
  }

  lemma EntryPays(b: Book<Currency>, id: Id, w: Id, leg: Leg, amount: int, u: Id)
    requires w in b.wallets && u in b.wallets
    ensures var after := WithEntry(b, id, w, leg, amount).wallets;
            && after.Keys == b.wallets.Keys && after[u].currency == b.wallets[u].currency
            && after[u].balance == b.wallets[u].balance + (if u == w then Signed(leg, amount) else 0)
  {
  }

  lemma PairPays(b: Book<Currency>, id: Id, x: Id, y: Id, leg: Leg, amount: int)
    requires x in b.wallets && y in b.wallets && x != y
    ensures var v, w := if leg.Debit? then x else y, if leg.Debit? then y else x;
            Paid(b.wallets, WithPair(b, id, x, y, leg, amount).wallets, v, w, amount)
  {
    var first := WithEntry(b, id, x, leg, amount);
    EntryPays(b, id, x, leg, amount, x);
    EntryPays(first, id, y, Opposite(leg), amount, x);
    var v, w := if leg.Debit? then x else y, if leg.Debit? then y else x;
    forall u | u in b.wallets ensures PaidAt(b.wallets, WithPair(b, id, x, y, leg, amount).wallets, v, w, amount, u) {
      EntryPays(b, id, x, leg, amount, u);
      EntryPays(first, id, y, Opposite(leg), amount, u);
    }
  }

  lemma PlanIsPaid(l: Ledger, key: Key, r: Request, plan: Plan, v: Id, w: Id)
    requires Pays(plan, r, v, w) && BothKnown(l, v, w) && v != w
    ensures Paid(l.book.wallets, Posted(l, key, r, plan).book.wallets, v, w, r.amount)
  {
    PairPays(l.book, |l.transactions|, plan.legs[0].wallet, plan.legs[1].wallet, plan.legs[0].leg, plan.legs[0].amount);
  }

  /** What is posted moves the amount from the payer to the payee and touches no other wallet. */
  lemma PostedIsPaid(l: Ledger, system: map<Id, Purpose>, key: Key, r: Request, v: Id, w: Id)
    requires Shaped(l) && CanMove(l, system, key, r, v, w)
    ensures PostOn(l, system, key, r).Done?
    ensures Paid(l.book.wallets, PostOn(l, system, key, r).ledger.book.wallets, v, w, r.amount)
  {
    PlanPays(l, system, r, v, w);
    var plan := PlanFor(l, system, r).plan;
    ObstacleIff(l, system, key, r, plan, v, w);
    PlanIsPaid(l, key, r, plan, v, w);
  }

  // ---------------------------------------------------------------- why it is refused

  /** A wallet or a transaction the kind is about is not named. */
  predicate Incomplete(r: Request) {
    match r.kind
    case Transfer => r.source.None? || r.target.None?
    case Deposit => r.target.None?
    case Withdrawal => r.source.None?
    case Fee => r.source.None?
    case Reversal => r.original.None?
    case Adjustment => false
  }

  predicate NeedsSystem(r: Request) {
    r.kind.Deposit? || r.kind.Withdrawal? || r.kind.Fee?
  }

  /** What each refusal means, the causes in the order in which they are told. */
  ghost predicate Because(l: Ledger, system: map<Id, Purpose>, key: Key, r: Request, problem: Problem) {
    match problem
    case KindNotImplemented => r.kind.Adjustment?
    case Invalid => Incomplete(r)
    case SameWallet => r.kind.Transfer? && !Incomplete(r) && r.source == r.target
    case SystemWalletMissing =>
      NeedsSystem(r) && !Incomplete(r) && NoneServes(l, system, r.currency, if r.kind.Fee? then Revenue else Clearing)
    case OriginalNotFound => r.kind.Reversal? && r.original.Some? && r.original.value >= |l.transactions|
    case AlreadyReversed => r.kind.Reversal? && Names(l, r) && l.transactions[r.original.value].reversed
    case ReversalMismatch =>
      && r.kind.Reversal? && Names(l, r) && !l.transactions[r.original.value].reversed
      && !Reversible(l, r, r.original.value)
    case WalletNotFound => exists v, w :: Asks(l, system, r, v, w) && !BothKnown(l, v, w)
    case CrossCurrency => exists v, w :: Asks(l, system, r, v, w) && BothKnown(l, v, w) && !BothIn(l, v, w, r.currency)
    case InsufficientBalance =>
      exists v, w :: Asks(l, system, r, v, w) && BothIn(l, v, w, r.currency) && !CanPay(l, system, r, v)
    case KeyTaken =>
      && (exists v, w :: Asks(l, system, r, v, w) && BothIn(l, v, w, r.currency) && CanPay(l, system, r, v))
      && !FreeKey(l, key)
    case EntrySeqTaken =>
      && (exists v :: Asks(l, system, r, v, v) && BothIn(l, v, v, r.currency) && CanPay(l, system, r, v))
      && FreeKey(l, key)
    case KeyRowGone => false
    case ClaimLost => false
  }

  predicate Names(l: Ledger, r: Request) {
    r.original.Some? && r.original.value < |l.transactions|
  }

  lemma UnplannedAsksNothing(l: Ledger, system: map<Id, Purpose>, r: Request, v: Id, w: Id)
    requires Shaped(l) && PlanFor(l, system, r).Unplanned?
    ensures !Asks(l, system, r, v, w)
  {
    PlanPays(l, system, r, v, w);
  }

  lemma ReversalUnplannedIff(l: Ledger, system: map<Id, Purpose>, key: Key, r: Request, problem: Problem)
    requires Shaped(l) && r.kind.Reversal? && PlanFor(l, system, r).Unplanned?
    ensures PlanFor(l, system, r).problem == problem <==> Because(l, system, key, r, problem)
  {
    if Names(l, r) {
      assert Pair(l, r.original.value);
    }
    forall v, w ensures !Asks(l, system, r, v, w) {
      UnplannedAsksNothing(l, system, r, v, w);
    }
  }

  lemma UnplannedIff(l: Ledger, system: map<Id, Purpose>, key: Key, r: Request, problem: Problem)
    requires Shaped(l) && PlanFor(l, system, r).Unplanned?
    ensures PlanFor(l, system, r).problem == problem <==> Because(l, system, key, r, problem)
  {
    if r.kind.Reversal? {
      ReversalUnplannedIff(l, system, key, r, problem);
    } else {
      FirstIsFound(l, system, 0, r.currency, Clearing);
      FirstIsFound(l, system, 0, r.currency, Revenue);
      forall v, w ensures !Asks(l, system, r, v, w) {
        UnplannedAsksNothing(l, system, r, v, w);
      }
    }
  }

  lemma PlannedIsAsked(l: Ledger, system: map<Id, Purpose>, key: Key, r: Request, problem: Problem)
    requires Shaped(l) && PlanFor(l, system, r).Planned?
    requires problem in {KindNotImplemented, Invalid, SameWallet, SystemWalletMissing, OriginalNotFound, AlreadyReversed,
                         ReversalMismatch, KeyRowGone, ClaimLost}
    ensures !Because(l, system, key, r, problem)
  {
    FirstIsFound(l, system, 0, r.currency, Clearing);
    FirstIsFound(l, system, 0, r.currency, Revenue);
    if r.kind.Reversal? {
      assert Pair(l, r.original.value);
    }
  }

  lemma StoppedIff(l: Ledger, system: map<Id, Purpose>, key: Key, r: Request, problem: Problem)
    requires Shaped(l) && PlanFor(l, system, r).Planned?
    requires problem in {WalletNotFound, CrossCurrency, InsufficientBalance, KeyTaken, EntrySeqTaken}
    ensures PostOn(l, system, key, r) == Stopped(problem) <==> Because(l, system, key, r, problem)
  {
    var plan := PlanFor(l, system, r).plan;
    var v, w := Payer(l, system, r);
    PlanPays(l, system, r, v, w);
    ObstacleIff(l, system, key, r, plan, v, w);
    forall x, y | Asks(l, system, r, x, y) ensures x == v && y == w {
      PlanPays(l, system, r, x, y);
    }
  }

  /** A request is refused with a problem exactly when that problem's cause is there. */
  lemma RefusedIff(l: Ledger, system: map<Id, Purpose>, key: Key, r: Request, problem: Problem)
    requires Shaped(l)
    ensures PostOn(l, system, key, r) == Stopped(problem) <==> Because(l, system, key, r, problem)
  {
    if PlanFor(l, system, r).Unplanned? {
      UnplannedIff(l, system, key, r, problem);
    } else if problem in {WalletNotFound, CrossCurrency, InsufficientBalance, KeyTaken, EntrySeqTaken} {
      StoppedIff(l, system, key, r, problem);
    } else {
      PlannedIsAsked(l, system, key, r, problem);
    }
  }

  // ---------------------------------------------------------------- the steps of a call

  /** What a new call finds under its key. A row in progress counts as abandoned after a minute, whatever its body. */
  lemma BeginIff(s: State, c: Id, key: Key, r: Request)
    requires Enabled(s, Begin(c, key, r)) && !r.kind.Adjustment?
    ensures var s' := Next(s, Begin(c, key, r));
            && s' == s.(calls := s.calls[c := s'.calls[c]])
            && (s'.calls[c] == Claiming(key, r) <==> key !in s.keys)
            && (s'.calls[c] == Reclaiming(key, r) <==>
                  key in s.keys && s.keys[key].state.InProgress? && s.now > s.keys[key].createdAt + 60_000)
            && (s'.calls[c] == Answered(key, r, InFlight) <==>
                  key in s.keys && s.keys[key].state.InProgress? && s.now <= s.keys[key].createdAt + 60_000
                  && s.keys[key].fingerprint == r)
            && (s'.calls[c] == Answered(key, r, KeyConflict) <==>
                  key in s.keys && (s.keys[key].state.Completed? || s.now <= s.keys[key].createdAt + 60_000)
                  && s.keys[key].fingerprint != r)
            && (forall t :: s'.calls[c] == Answered(key, r, Replayed(t)) <==>
                  key in s.keys && s.keys[key].state == Completed(t) && s.keys[key].fingerprint == r)
  {
  }

  /** An adjustment is refused before its key is looked at. */
  lemma AdjustmentIsRefused(s: State, c: Id, key: Key, r: Request)
    requires Enabled(s, Begin(c, key, r)) && r.kind.Adjustment?
    ensures Next(s, Begin(c, key, r)) == s.(calls := s.calls[c := Answered(key, r, Failed(KindNotImplemented))])
  {
  }

  /** The insert of the key row has one winner; whoever loses it is told what the row says by then. */
  lemma ClaimIff(s: State, c: Id)
    requires Enabled(s, Claim(c))
    ensures var s', call := Next(s, Claim(c)), s.calls[c];
            && (s'.calls[c] == Call.Posting(call.key, call.request) <==> call.key !in s.keys)
            && (s'.calls[c] == Rechecking(call.key, call.request) <==> call.key in s.keys)
            && s'.ledger == s.ledger && call.key in s'.keys && s'.keys - {call.key} == s.keys - {call.key}
            && s'.keys[call.key] == if call.key in s.keys then s.keys[call.key] else KeyRow(call.request, InProgress, s.now)
  {
  }

  lemma RecheckIff(s: State, c: Id)
    requires Enabled(s, Recheck(c))
    ensures var s', call := Next(s, Recheck(c)), s.calls[c];
            && s'.ledger == s.ledger && s'.keys == s.keys
            && (s'.calls[c] == Answered(call.key, call.request, Failed(ClaimLost)) <==> call.key !in s.keys)
            && (s'.calls[c] == Answered(call.key, call.request, KeyConflict) <==>
                  call.key in s.keys && s.keys[call.key].fingerprint != call.request)
            && (s'.calls[c] == Answered(call.key, call.request, InFlight) <==>
                  call.key in s.keys && s.keys[call.key].fingerprint == call.request && s.keys[call.key].state.InProgress?)
            && (forall t :: s'.calls[c] == Answered(call.key, call.request, Replayed(t)) <==>
                  call.key in s.keys && s.keys[call.key].fingerprint == call.request
                  && s.keys[call.key].state == Completed(t))
  {
  }

  /**
   The posting step answers `Created` exactly when money can move as asked and the key row is there; then ledger
   and key row change together. Otherwise neither changes and the call goes on with the cause.
   */
  lemma CreatesIff(s: State, c: Id)
    requires Shaped(s.ledger) && Enabled(s, Post(c))
    ensures var s', call, id := Next(s, Post(c)), s.calls[c], |s.ledger.transactions|;
            var movable := exists v, w :: CanMove(s.ledger, s.system, call.key, call.request, v, w);
            && (s'.calls[c] == Answered(call.key, call.request, Created(id)) <==> movable && call.key in s.keys)
            && (IsCreated(s'.calls[c]) ==>
                  && |s'.ledger.transactions| == id + 1 && s'.ledger.transactions[id].request == call.request
                  && s'.ledger.transactions[id].key == call.key && call.key in s.keys
                  && s'.keys == s.keys[call.key := s.keys[call.key].(state := Completed(id))])
            && (!IsCreated(s'.calls[c]) ==> s'.ledger == s.ledger && s'.keys == s.keys)
            && (forall problem :: s'.calls[c] == Releasing(call.key, call.request, problem) <==>
                  || Because(s.ledger, s.system, call.key, call.request, problem)
                  || (problem.KeyRowGone? && movable && call.key !in s.keys))
  {
    var call := s.calls[c];
    PostsIff(s.ledger, s.system, call.key, call.request);
    forall problem {
      RefusedIff(s.ledger, s.system, call.key, call.request, problem);
    }
    if PostOn(s.ledger, s.system, call.key, call.request).Done? {
      PostExtends(s.ledger, s.system, call.key, call.request);
    }
  }

  /** A call nobody disturbs and that can move its money is answered with the new transaction. */
  lemma UndisturbedCallPosts(s: State, c: Id, key: Key, r: Request, v: Id, w: Id)
    requires Shaped(s.ledger) && Enabled(s, Begin(c, key, r)) && key !in s.keys
    requires CanMove(s.ledger, s.system, key, r, v, w)
    ensures var s1 := Next(s, Begin(c, key, r));
            Enabled(s1, Claim(c)) &&
            var s2 := Next(s1, Claim(c));
            Enabled(s2, Post(c)) &&
            var s3, id := Next(s2, Post(c)), |s.ledger.transactions|;
            && s3.calls[c] == Answered(key, r, Created(id))
            && s3.keys == s.keys[key := KeyRow(r, Completed(id), s.now)]
  {
    var s2 := Next(Next(s, Begin(c, key, r)), Claim(c));
    assert s2.keys == s.keys[key := KeyRow(r, InProgress, s.now)];
    CreatesIff(s2, c);
  }

  /** One that cannot is told the cause, and leaves neither a ledger row nor a key row behind. */
  lemma UndisturbedCallFails(s: State, c: Id, key: Key, r: Request, problem: Problem)
    requires Shaped(s.ledger) && Enabled(s, Begin(c, key, r)) && key !in s.keys && !r.kind.Adjustment?
    requires Because(s.ledger, s.system, key, r, problem)
    ensures var s1 := Next(s, Begin(c, key, r));
            Enabled(s1, Claim(c)) &&
            var s2 := Next(s1, Claim(c));
            Enabled(s2, Post(c)) &&
            var s3 := Next(s2, Post(c));
            Enabled(s3, Release(c)) &&
            Next(s3, Release(c)) == s.(calls := s.calls[c := Answered(key, r, Failed(problem))])
  {
    var s2 := Next(Next(s, Begin(c, key, r)), Claim(c));
    CreatesIff(s2, c);
    var s3 := Next(s2, Post(c));
    assert s3.calls[c] == Releasing(key, r, problem);
    assert s2.keys - {key} == s.keys;
  }

  /** A key whose holder died is taken over by the first caller after a minute, with whatever body it sends. */
  lemma AbandonedKeyIsTakenOver(s: State, c: Id, key: Key, r: Request, v: Id, w: Id)
    requires Shaped(s.ledger) && Enabled(s, Begin(c, key, r)) && CanMove(s.ledger, s.system, key, r, v, w)
    requires key in s.keys && s.keys[key].state.InProgress? && s.now > s.keys[key].createdAt + 60_000
    ensures var s1 := Next(s, Begin(c, key, r));
            Enabled(s1, Reclaim(c)) &&
            var s2 := Next(s1, Reclaim(c));
            Enabled(s2, Claim(c)) &&
            var s3 := Next(s2, Claim(c));
            Enabled(s3, Post(c)) &&
            Next(s3, Post(c)).calls[c] == Answered(key, r, Created(|s.ledger.transactions|))
  {
    var s2 := Next(Next(s, Begin(c, key, r)), Reclaim(c));
    CreatesIff(Next(s2, Claim(c)), c);
  }
}
