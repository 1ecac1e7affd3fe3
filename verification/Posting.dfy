/**
 Posting a transaction: an idempotency key is claimed, the ledger is written and the key completed in one
 database transaction, and a failed posting releases the key. Calls interleave between those steps and may
 die at any of them; a key that stays in progress too long is reclaimed by the next caller.
 */
module Posting {
  import opened Options
  import opened LedgerBook
  import Texts

  type Key = nat

  /** An ISO 4217 code. */
  type Currency = nat

  const STALE_MS: int := 60_000

  datatype Kind = Transfer | Deposit | Withdrawal | Fee | Reversal | Adjustment

  datatype Purpose = Clearing | Revenue

  /**
   A validated request; an absent optional field and a null one are both `None`. It serves as its own
   fingerprint: PostingFingerprint proves that the canonical text of its body tells it from every other.
   */
  datatype Request = Request(kind: Kind, source: Option<Id>, target: Option<Id>, original: Option<Id>, amount: nat,
                             currency: Currency, category: Option<Id>, description: Option<Texts.Text>)

  /** Transaction `t` is the `t`th row; its two entries are rows `2t` and `2t + 1`. */
  datatype Transaction = Transaction(key: Key, request: Request, reversed: bool, reversalOf: Option<Id>,
                                     amount: nat, currency: Currency)

  datatype Ledger = Ledger(transactions: seq<Transaction>, book: Book<Currency>)

  datatype KeyState = InProgress | Completed(response: Id)

  datatype KeyRow = KeyRow(fingerprint: Request, state: KeyState, createdAt: int)

  datatype Problem = KindNotImplemented | Invalid | SameWallet | SystemWalletMissing | OriginalNotFound | AlreadyReversed
                   | ReversalMismatch | WalletNotFound | CrossCurrency | InsufficientBalance | KeyTaken | EntrySeqTaken
                   | KeyRowGone | ClaimLost

  datatype Answer = Created(id: Id) | Replayed(id: Id) | KeyConflict | InFlight | Failed(problem: Problem)

  datatype Call =
    | Reclaiming(key: Key, request: Request) // saw a stale row
    | Claiming(key: Key, request: Request)
    | Rechecking(key: Key, request: Request) // lost the insert
    | Posting(key: Key, request: Request)    // inserted the row
    | Releasing(key: Key, request: Request, problem: Problem)
    | Answered(key: Key, request: Request, answer: Answer)
    | Dead                                   // the process died

  /** `system` names the system wallets; wallets are provisioned beforehand. */
  datatype State = State(now: int, system: map<Id, Purpose>, ledger: Ledger, keys: map<Key, KeyRow>, calls: map<Id, Call>)

  // ---------------------------------------------------------------- plans

  datatype PlannedLeg = PlannedLeg(wallet: Id, leg: Leg, amount: nat, balanceChecked: bool)

  datatype Plan = Plan(legs: seq<PlannedLeg>, currency: Currency, amount: nat, reversalOf: Option<Id>)

  datatype PlanResult = Planned(plan: Plan) | Unplanned(problem: Problem)

  /** The first wallet of the list with that purpose and currency. */
  function FindSystem(order: seq<Id>, wallets: map<Id, Wallet<Currency>>, system: map<Id, Purpose>,
                      c: Currency, p: Purpose): (w: Option<Id>)
    ensures w.Some? ==> w.value in system && system[w.value] == p && w.value in wallets && wallets[w.value].currency == c
  {
    if order == [] then None
    else
      var w := order[0];
      if w in system && system[w] == p && w in wallets && wallets[w].currency == c then Some(w)
      else FindSystem(order[1..], wallets, system, c, p)
  }

  function TwoLegs(r: Request, debited: Id, credited: Id, checked: bool): PlanResult {
    Planned(Plan([PlannedLeg(debited, Debit, r.amount, checked), PlannedLeg(credited, Credit, r.amount, false)],
                 r.currency, r.amount, None))
  }

  function Mirror(e: Entry<Currency>): PlannedLeg
    requires e.amount >= 0
  {
    PlannedLeg(e.wallet, Opposite(e.leg), e.amount, e.leg.Credit?)
  }

  /** A reversal mirrors both entries of the original, which the caller has to name with its amount and currency. */
  function PlanReversal(l: Ledger, r: Request): PlanResult {
    if r.original.None? then Unplanned(Invalid)
    else
      var o := r.original.value;
      if o >= |l.transactions| || 2 * o + 1 >= |l.book.entries| then Unplanned(OriginalNotFound)
      else if l.transactions[o].reversed then Unplanned(AlreadyReversed)
      else
        var a, b := l.book.entries[2 * o], l.book.entries[2 * o + 1];
        var debit := (if a.leg.Debit? then a.amount else 0) + (if b.leg.Debit? then b.amount else 0);
        if r.amount != debit || r.currency != a.currency || a.amount < 0 || b.amount < 0 then Unplanned(ReversalMismatch)
        else Planned(Plan([Mirror(a), Mirror(b)], a.currency, debit, Some(o)))
  }

  function PlanFor(l: Ledger, system: map<Id, Purpose>, r: Request): PlanResult {
    match r.kind
    case Transfer =>
      if r.source.None? || r.target.None? then Unplanned(Invalid)
      else if r.source == r.target then Unplanned(SameWallet)
      else TwoLegs(r, r.source.value, r.target.value, true)
    case Deposit =>
      if r.target.None? then Unplanned(Invalid)
      else
        var clearing := FindSystem(l.book.order, l.book.wallets, system, r.currency, Clearing);
        if clearing.None? then Unplanned(SystemWalletMissing) else TwoLegs(r, clearing.value, r.target.value, false)
    case Withdrawal =>
      if r.source.None? then Unplanned(Invalid)
      else
        var clearing := FindSystem(l.book.order, l.book.wallets, system, r.currency, Clearing);
        if clearing.None? then Unplanned(SystemWalletMissing) else TwoLegs(r, r.source.value, clearing.value, true)
    case Fee =>
      if r.source.None? then Unplanned(Invalid)
      else
        var revenue := FindSystem(l.book.order, l.book.wallets, system, r.currency, Revenue);
        if revenue.None? then Unplanned(SystemWalletMissing) else TwoLegs(r, r.source.value, revenue.value, true)
    case Reversal => PlanReversal(l, r)
    case Adjustment => Unplanned(KindNotImplemented)
  }

  // ---------------------------------------------------------------- checks of the executor

  predicate Covered(wallets: map<Id, Wallet<Currency>>, system: map<Id, Purpose>, leg: PlannedLeg) {
    leg.leg.Debit? && leg.balanceChecked && leg.wallet in wallets && leg.wallet !in system ==>
      wallets[leg.wallet].balance >= leg.amount
  }

  predicate KeyUsed(transactions: seq<Transaction>, key: Key) {
    exists t :: 0 <= t < |transactions| && transactions[t].key == key
  }

  /** What stops a plan: the checks, then the UNIQUE constraints on the key and on each wallet's entry numbers. */
  function Obstacle(l: Ledger, system: map<Id, Purpose>, key: Key, plan: Plan): Option<Problem> {
    if exists leg <- plan.legs :: leg.wallet !in l.book.wallets then Some(WalletNotFound)
    else if exists leg <- plan.legs :: l.book.wallets[leg.wallet].currency != plan.currency then Some(CrossCurrency)
    else if exists leg <- plan.legs :: !Covered(l.book.wallets, system, leg) then Some(InsufficientBalance)
    else if KeyUsed(l.transactions, key) then Some(KeyTaken)
    else if |plan.legs| != 2 || plan.legs[0].wallet == plan.legs[1].wallet then Some(EntrySeqTaken)
    else None
  }

  function MarkReversed(transactions: seq<Transaction>, reversalOf: Option<Id>): seq<Transaction> {
    if reversalOf.Some? && reversalOf.value < |transactions|
    then transactions[reversalOf.value := transactions[reversalOf.value].(reversed := true)]
    else transactions
  }

  function Posted(l: Ledger, key: Key, r: Request, plan: Plan): Ledger
    requires |plan.legs| == 2 && plan.legs[0].wallet in l.book.wallets && plan.legs[1].wallet in l.book.wallets
  {
    Ledger(MarkReversed(l.transactions, plan.reversalOf)
        + [Transaction(key, r, false, plan.reversalOf, plan.amount, plan.currency)],
           WithPair(l.book, |l.transactions|, plan.legs[0].wallet, plan.legs[1].wallet, plan.legs[0].leg, plan.legs[0].amount))
  }

  datatype PostResult = Done(ledger: Ledger) | Stopped(problem: Problem)

  /** The ledger part of the posting transaction. */
  function PostOn(l: Ledger, system: map<Id, Purpose>, key: Key, r: Request): PostResult {
    match PlanFor(l, system, r)
    case Unplanned(problem) => Stopped(problem)
    case Planned(plan) =>
      var obstacle := Obstacle(l, system, key, plan);
      if obstacle.Some? then Stopped(obstacle.value) else Done(Posted(l, key, r, plan))
  }

  // ---------------------------------------------------------------- steps

  datatype Action =
    | Begin(call: Id, key: Key, request: Request)
    | Reclaim(call: Id)
    | Claim(call: Id)
    | Recheck(call: Id)
    | Post(call: Id)
    | Release(call: Id)
    | Crash(call: Id)
    | Pass(ms: nat)

  predicate IsStale(row: KeyRow, now: int) {
    row.state.InProgress? && now - row.createdAt > STALE_MS
  }

  function Resolve(row: KeyRow, r: Request): Answer {
    if row.fingerprint != r then KeyConflict
    else if row.state.Completed? then Replayed(row.state.response)
    else InFlight
  }

  predicate Enabled(s: State, a: Action) {
    match a
    case Begin(c, _, r) => c !in s.calls && r.amount > 0
    case Reclaim(c) => c in s.calls && s.calls[c].Reclaiming?
    case Claim(c) => c in s.calls && s.calls[c].Claiming?
    case Recheck(c) => c in s.calls && s.calls[c].Rechecking?
    case Post(c) => c in s.calls && s.calls[c].Posting?
    case Release(c) => c in s.calls && s.calls[c].Releasing?
    case Crash(c) => c in s.calls && !s.calls[c].Answered?
    case Pass(_) => true
  }

  function Begun(s: State, key: Key, r: Request): Call {
    if r.kind.Adjustment? then Answered(key, r, Failed(KindNotImplemented))
    else if key !in s.keys then Claiming(key, r)
    else if IsStale(s.keys[key], s.now) then Reclaiming(key, r)
    else Answered(key, r, Resolve(s.keys[key], r))
  }

  function Next(s: State, a: Action): State
    requires Enabled(s, a)
  {
    match a
    case Begin(c, key, r) => s.(calls := s.calls[c := Begun(s, key, r)])
    case Reclaim(c) =>
      var call := s.calls[c];
      s.(keys := s.keys - {call.key}, calls := s.calls[c := Claiming(call.key, call.request)])
    case Claim(c) =>
      var call := s.calls[c];
      if call.key in s.keys then s.(calls := s.calls[c := Rechecking(call.key, call.request)])
      else s.(keys := s.keys[call.key := KeyRow(call.request, InProgress, s.now)],
              calls := s.calls[c := Posting(call.key, call.request)])
    case Recheck(c) =>
      var call := s.calls[c];
      var answer := if call.key in s.keys then Resolve(s.keys[call.key], call.request) else Failed(ClaimLost);
      s.(calls := s.calls[c := Answered(call.key, call.request, answer)])
    case Post(c) =>
      var call := s.calls[c];
      var result := PostOn(s.ledger, s.system, call.key, call.request);
      if result.Stopped? then s.(calls := s.calls[c := Releasing(call.key, call.request, result.problem)])
      else if call.key !in s.keys then s.(calls := s.calls[c := Releasing(call.key, call.request, KeyRowGone)])
      else
        var id := |s.ledger.transactions|;
        s.(ledger := result.ledger, keys := s.keys[call.key := s.keys[call.key].(state := Completed(id))],
           calls := s.calls[c := Answered(call.key, call.request, Created(id))])
    case Release(c) =>
      var call := s.calls[c];
      s.(keys := s.keys - {call.key}, calls := s.calls[c := Answered(call.key, call.request, Failed(call.problem))])
    case Crash(c) => s.(calls := s.calls[c := Dead])
    case Pass(ms) => s.(now := s.now + ms)
  }
}
