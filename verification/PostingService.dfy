/** The posting service over its tables, one method for each database step of a call. */
module PostingService {
  import opened Options
  import opened LedgerBook
  import opened Posting
  import opened PostingProofs

  /** The first `n` rows to insert; every number is taken from the table as it was before any of them. */
  function RowsFor(b: Book<Currency>, id: Id, legs: seq<PlannedLeg>, n: nat): seq<Entry<Currency>>
    requires n <= |legs| && forall leg <- legs :: leg.wallet in b.wallets
  {
    if n == 0 then []
    else
      var leg := legs[n - 1];
      RowsFor(b, id, legs, n - 1)
        + [Entry(id, leg.wallet, leg.leg, leg.amount, b.wallets[leg.wallet].currency, MaxSeq(b.entries, leg.wallet) + 1)]
  }

  function Moved(wallets: map<Id, Wallet<Currency>>, legs: seq<PlannedLeg>, n: nat): (r: map<Id, Wallet<Currency>>)
    requires n <= |legs| && forall leg <- legs :: leg.wallet in wallets
    ensures r.Keys == wallets.Keys
  {
    if n == 0 then wallets
    else
      var leg, before := legs[n - 1], Moved(wallets, legs, n - 1);
      before[leg.wallet := before[leg.wallet].(balance := before[leg.wallet].balance + Signed(leg.leg, leg.amount))]
  }

  /** Two legs on different wallets: numbering them all first comes to the same as numbering one after the other. */
  lemma TwoRows(b: Book<Currency>, id: Id, legs: seq<PlannedLeg>)
    requires |legs| == 2 && legs[0].wallet != legs[1].wallet && legs[1].leg == Opposite(legs[0].leg)
        && legs[0].amount == legs[1].amount
    requires forall leg <- legs :: leg.wallet in b.wallets
    ensures Book(b.entries + RowsFor(b, id, legs, 2), b.order, Moved(b.wallets, legs, 2))
         == WithPair(b, id, legs[0].wallet, legs[1].wallet, legs[0].leg, legs[0].amount)
  {
    var v, w := legs[0], legs[1];
    assert v in legs && w in legs;
    var first := WithEntry(b, id, v.wallet, v.leg, v.amount);
    assert first.entries[..|b.entries|] == b.entries;
    assert MaxSeq(first.entries, w.wallet) == MaxSeq(b.entries, w.wallet);
    assert RowsFor(b, id, legs, 1) == RowsFor(b, id, legs, 0) + [first.entries[|b.entries|]];
    assert b.entries + RowsFor(b, id, legs, 1) == first.entries;
    assert b.entries + RowsFor(b, id, legs, 2) == first.entries + RowsFor(b, id, legs, 2)[1..];
    assert Moved(b.wallets, legs, 0) == b.wallets;
    assert Moved(b.wallets, legs, 1) == first.wallets;
  }

  class TransactionsService {
    const system: map<Id, Purpose>
    var now: int
    var transactions: seq<Transaction>
    var entries: seq<Entry<Currency>>
    var order: seq<Id>
    var wallets: map<Id, Wallet<Currency>>
    var keys: map<Key, KeyRow>
    var calls: map<Id, Call>

    ghost function Snapshot(): State reads this {
      State(now, system, Ledger(transactions, Book(entries, order, wallets)), keys, calls)
    }

    constructor (system: map<Id, Purpose>, order: seq<Id>, wallets: map<Id, Wallet<Currency>>)
      ensures Snapshot() == State(0, system, Ledger([], Book([], order, wallets)), map[], map[])
    {
      this.system, this.order, this.wallets := system, order, wallets;
      now, transactions, entries, keys, calls := 0, [], [], map[], map[];
    }

    /** `post` up to the claim: an existing row is resolved, or reclaimed when it is stale. */
    method Find(call: Id, key: Key, request: Request)
      requires Enabled(Snapshot(), Begin(call, key, request))
      modifies `calls
      ensures Snapshot() == Next(old(Snapshot()), Begin(call, key, request))
    {
      var next := Claiming(key, request);
      if request.kind.Adjustment? {
        next := Answered(key, request, Failed(KindNotImplemented));
      } else if key in keys {
        if keys[key].state.InProgress? && now - keys[key].createdAt > STALE_MS {
          next := Reclaiming(key, request);
        } else {
          next := Answered(key, request, ResolveExisting(keys[key], request));
        }
      }
      calls := calls[call := next];
    }

    function ResolveExisting(row: KeyRow, request: Request): (answer: Answer)
      ensures answer == Resolve(row, request)
    {
      if row.fingerprint != request then KeyConflict
      else if row.state.Completed? then Replayed(row.state.response)
      else InFlight
    }

    method DeleteStale(call: Id)
      requires Enabled(Snapshot(), Reclaim(call))
      modifies `calls, `keys
      ensures Snapshot() == Next(old(Snapshot()), Reclaim(call))
    {
      var key, request := calls[call].key, calls[call].request;
      keys := keys - {key};
      calls := calls[call := Claiming(key, request)];
    }

    method CreateKey(call: Id)
      requires Enabled(Snapshot(), Claim(call))
      modifies `calls, `keys
      ensures Snapshot() == Next(old(Snapshot()), Claim(call))
    {
      var key, request := calls[call].key, calls[call].request;
      if key in keys {
        calls := calls[call := Rechecking(key, request)];
      } else {
        keys := keys[key := KeyRow(request, InProgress, now)];
        calls := calls[call := Call.Posting(key, request)];
      }
    }

    method FindAgain(call: Id)
      requires Enabled(Snapshot(), Recheck(call))
      modifies `calls
      ensures Snapshot() == Next(old(Snapshot()), Recheck(call))
    {
      var key, request := calls[call].key, calls[call].request;
      var answer := Failed(ClaimLost);
      if key in keys {
        answer := ResolveExisting(keys[key], request);
      }
      calls := calls[call := Answered(key, request, answer)];
    }

    method ReleaseKey(call: Id)
      requires Enabled(Snapshot(), Release(call))
      modifies `calls, `keys
      ensures Snapshot() == Next(old(Snapshot()), Release(call))
    {
      var c := calls[call];
      keys := keys - {c.key};
      calls := calls[call := Answered(c.key, c.request, Failed(c.problem))];
    }

    method LockAndLoadWallets(plan: Plan) returns (problem: Option<Problem>)
      ensures problem == if exists leg <- plan.legs :: leg.wallet !in wallets then Some(WalletNotFound)
                         else if exists leg <- plan.legs :: wallets[leg.wallet].currency != plan.currency
                           then Some(CrossCurrency)
                         else None
    {
      for i := 0 to |plan.legs|
        invariant forall leg <- plan.legs[..i] :: leg.wallet in wallets
      {
        if plan.legs[i].wallet !in wallets {
          return Some(WalletNotFound);
        }
      }
      for i := 0 to |plan.legs|
        invariant forall leg <- plan.legs[..i] :: wallets[leg.wallet].currency == plan.currency
      {
        if wallets[plan.legs[i].wallet].currency != plan.currency {
          return Some(CrossCurrency);
        }
      }
      return None;
    }

    method AssertSufficientBalance(plan: Plan) returns (sufficient: bool)
      requires forall leg <- plan.legs :: leg.wallet in wallets
      ensures sufficient <==> forall leg <- plan.legs :: Covered(wallets, system, leg)
    {
      for i := 0 to |plan.legs|
        invariant forall leg <- plan.legs[..i] :: Covered(wallets, system, leg)
      {
        var leg := plan.legs[i];
        if leg.leg.Debit? && leg.balanceChecked && leg.wallet !in system && wallets[leg.wallet].balance < leg.amount {
          assert !Covered(wallets, system, leg);
          return false;
        }
      }
      return true;
    }

    /** `createMany` of the entries; the sum check can never fail for two equal opposite legs. */
    method WriteBalancedLedger(id: Id, plan: Plan) returns (balanced: bool)
      requires forall leg <- plan.legs :: leg.wallet in wallets
      requires |plan.legs| == 2 && plan.legs[1].leg == Opposite(plan.legs[0].leg) && plan.legs[0].amount == plan.legs[1].amount
      modifies `entries
      ensures entries == old(entries) + RowsFor(Book(old(entries), order, wallets), id, plan.legs, |plan.legs|)
      ensures balanced
    {
      var rows, debit, credit := [], 0, 0;
      for i := 0 to |plan.legs|
        invariant rows == RowsFor(Book(entries, order, wallets), id, plan.legs, i)
        invariant credit - debit == if i == 1 then Signed(plan.legs[0].leg, plan.legs[0].amount) else 0
      {
        var leg := plan.legs[i];
        var next := MaxSeq(entries, leg.wallet) + 1;
        rows := rows + [Entry(id, leg.wallet, leg.leg, leg.amount, wallets[leg.wallet].currency, next)];
        if leg.leg.Debit? {
          debit := debit + leg.amount;
        } else {
          credit := credit + leg.amount;
        }
      }
      entries := entries + rows;
      balanced := debit == credit;
    }

    method ApplyBalanceDeltas(plan: Plan)
      requires forall leg <- plan.legs :: leg.wallet in wallets
      modifies `wallets
      ensures wallets == Moved(old(wallets), plan.legs, |plan.legs|)
    {
      for i := 0 to |plan.legs|
        invariant wallets == Moved(old(wallets), plan.legs, i)
      {
        var leg := plan.legs[i];
        var wallet := wallets[leg.wallet];
        wallets := wallets[leg.wallet := wallet.(balance := wallet.balance + Signed(leg.leg, leg.amount))];
      }
    }

    /** Checks of the executor, then the UNIQUE constraints, in the order they are met. */
    method Check(key: Key, plan: Plan) returns (problem: Option<Problem>)
      ensures problem == Obstacle(Snapshot().ledger, system, key, plan)
    {
      problem := LockAndLoadWallets(plan);
      if problem.Some? {
        return;
      }
      var sufficient := AssertSufficientBalance(plan);
      if !sufficient {
        return Some(InsufficientBalance);
      }
      if exists t :: 0 <= t < |transactions| && transactions[t].key == key {
        return Some(KeyTaken);
      }
      if |plan.legs| != 2 || plan.legs[0].wallet == plan.legs[1].wallet {
        return Some(EntrySeqTaken);
      }
      return None;
    }

    /** The ledger writes of a plan nothing stands in the way of. */
    method ExecutePlan(key: Key, request: Request, plan: Plan)
      requires Clear(Snapshot().ledger, system, key, plan) && GoodPlan(Snapshot().ledger, system, request, plan)
      modifies `transactions, `entries, `wallets
      ensures Snapshot().ledger == Posted(old(Snapshot().ledger), key, request, plan)
    {
      var id := |transactions|;
      TwoRows(Book(entries, order, wallets), id, plan.legs);
      transactions := transactions + [Transaction(key, request, false, plan.reversalOf, plan.amount, plan.currency)];
      var balanced := WriteBalancedLedger(id, plan);
      ApplyBalanceDeltas(plan);
      if plan.reversalOf.Some? {
        var o := plan.reversalOf.value;
        transactions := transactions[o := transactions[o].(reversed := true)];
      }
    }

    /** The posting transaction: ledger and key row together, or neither. */
    method PostByKind(call: Id)
      requires Enabled(Snapshot(), Post(call)) && Shaped(Snapshot().ledger)
      modifies `transactions, `entries, `wallets, `keys, `calls
      ensures Snapshot() == Next(old(Snapshot()), Post(call))
    {
      var key, request := calls[call].key, calls[call].request;
      var result := PlanFor(Ledger(transactions, Book(entries, order, wallets)), system, request);
      if result.Unplanned? {
        calls := calls[call := Releasing(key, request, result.problem)];
        return;
      }
      PlansAreGood(Snapshot().ledger, system, request);
      NoObstacle(Snapshot().ledger, system, key, result.plan);
      var problem := Check(key, result.plan);
      if problem.Some? {
        calls := calls[call := Releasing(key, request, problem.value)];
      } else if key !in keys {
        calls := calls[call := Releasing(key, request, KeyRowGone)];
      } else {
        var id := |transactions|;
        ExecutePlan(key, request, result.plan);
        keys := keys[key := keys[key].(state := Completed(id))];
        calls := calls[call := Answered(key, request, Created(id))];
      }
    }
  }
}
