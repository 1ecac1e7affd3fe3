/**
 The seed script's ledger: every customer gets one transaction per kind and status in each currency, then
 generated activity that looks at the running balance before it debits anything.
 */
module SeedLedger {
  import opened Options
  import opened LedgerBook
  import opened SeedBook

  /** A record with one wallet id per currency. */
  datatype PerCurrency = PerCurrency(tr: Id, usd: Id, eur: Id) {
    function Of(c: Currency): Id {
      match c case TRY => tr case USD => usd case EUR => eur
    }
  }

  datatype CustomerRef = CustomerRef(id: Id, wallets: PerCurrency)

  const CURRENCIES: seq<Currency> := [TRY, USD, EUR]
  const COVERAGE_KINDS: seq<Kind> := [Deposit, Withdrawal, Transfer, Fee, Adjustment, Reversal]
  const COVERAGE_STATUSES: seq<Status> := [Posted, Pending, Failed, Reversed]
  const TX_COUNT_PATTERN: seq<nat> := [28, 32, 36, 40, 45, 30, 34, 38, 42, 29, 33, 37]
  const COVERAGE_COUNT: nat := 24

  // ---------------------------------------------------------------- amounts

  function MajorDivisor(c: Currency): nat {
    match c case TRY => 1 case USD => 35 case EUR => 38
  }

  function Max(a: int, b: int): int {
    if a > b then a else b
  }

  function Min(a: int, b: int): int {
    if a < b then a else b
  }

  /** `Math.round(x / d)`: the nearest integer, halves up. */
  function RoundDiv(x: nat, d: nat): nat
    requires d > 0
  {
    (2 * x + d) / (2 * d)
  }

  function CurrencyMajor(c: Currency, tryMajor: nat): (major: int)
    ensures major >= 1
  {
    Max(1, RoundDiv(tryMajor, MajorDivisor(c)))
  }

  function Cents(major: int): int {
    100 * major
  }

  /** `Math.floor(balance / 100 * percent / 100)`, taken exactly. */
  function ShareOf(balance: nat, percent: nat): nat {
    balance / 100 * percent / 100
  }

  function TopUpAmount(c: Currency, index: nat, j: nat): (amount: int)
    ensures amount > 0
  {
    Cents(CurrencyMajor(c, 18_000 + (index * 997 + j * 421) % 125_000))
  }

  function SmallTopUpAmount(c: Currency, index: nat, j: nat): (amount: int)
    ensures amount > 0
  {
    Cents(CurrencyMajor(c, 7_500 + (index * 389 + j * 97) % 65_000))
  }

  function Selector(index: nat, currencyIndex: nat, j: nat): nat {
    (index * 29 + currencyIndex * 23 + j * 17) % 100
  }

  function Modulo(i: nat, n: nat): (r: nat)
    requires n > 0
    ensures r < n
  {
    i % n
  }

  function TransactionCount(i: nat): int {
    var base := TX_COUNT_PATTERN[i % 12];
    if i < 12 then base else Max(3, Min(45, base + i * 7 % 5 - 2))
  }

  /** The rows of a customer's first `wallets` wallets, and of all wallets of the first `customers` customers. */
  function RowsOfCustomer(index: nat, wallets: nat): int {
    if wallets == 0 then 0 else RowsOfCustomer(index, wallets - 1) + TransactionCount(index + (wallets - 1) * 11)
  }

  function RowsOf(customers: nat): int {
    if customers == 0 then 0 else RowsOf(customers - 1) + RowsOfCustomer(customers - 1, 3)
  }

  function CoverageAmount(kind: Kind, c: Currency, index: nat, statusIndex: nat): (amount: int)
    ensures amount > 0
  {
    var seed := index * 97 + statusIndex * 31;
    match kind
    case Fee => Cents(CurrencyMajor(c, 25 + seed % 450))
    case Withdrawal => Cents(CurrencyMajor(c, 650 + seed % 8_500))
    case Transfer => Cents(CurrencyMajor(c, 900 + seed % 12_500))
    case Adjustment => Cents(CurrencyMajor(c, 75 + seed % 2_250))
    case Reversal => Cents(CurrencyMajor(c, 120 + seed % 5_500))
    case Deposit => Cents(CurrencyMajor(c, 12_000 + seed % 55_000))
  }

  /** The counterparty of a coverage transfer; the next customer when the candidate is the owner. */
  function CoverageTarget(refs: seq<CustomerRef>, r: nat, index: nat, kindIndex: nat, statusIndex: nat): (target: nat)
    requires r < |refs|
    ensures target < |refs|
  {
    var candidate := Modulo(index + kindIndex * 17 + statusIndex * 31 + 37, |refs|);
    if refs[candidate].id == refs[r].id then Modulo(index + 1, |refs|) else candidate
  }

  function CoverageLeg(kind: Kind, kindIndex: nat, statusIndex: nat): Leg {
    match kind
    case Deposit => Credit
    case Withdrawal | Fee | Transfer => Debit
    case _ => if (kindIndex + statusIndex) % 2 == 0 then Credit else Debit
  }

  function WithdrawalAmount(c: Currency, balance: nat, index: nat, j: nat): int {
    Cents(Max(25, Min(CurrencyMajor(c, 18_000 + (index * 211 + j * 503) % 42_000), ShareOf(balance, 22))))
  }

  function FeeAmount(c: Currency, index: nat, j: nat): int {
    Cents(CurrencyMajor(c, 12 + Modulo(index * 13 + j * 19, 950)))
  }

  function TransferAmount(c: Currency, balance: nat, index: nat, j: nat): int {
    Cents(Max(25, Min(CurrencyMajor(c, 6_000 + (index * 157 + j * 313) % 37_000), ShareOf(balance, 18))))
  }

  lemma ShareBound(balance: nat, percent: nat, floor: nat)
    requires percent <= 22 && balance >= 100 * floor && floor * percent >= 2500
    ensures Cents(Max(25, ShareOf(balance, percent))) * 100 <= 22 * balance
  {
    var major := balance / 100;
    assert major >= floor;
    assert major * percent >= floor * percent;
    assert major * percent <= 22 * major;
  }

  /** A withdrawal planned on a balance above the first threshold takes at most 22 percent of it. */
  lemma WithdrawalCovered(c: Currency, balance: nat, index: nat, j: nat)
    requires balance >= Cents(CurrencyMajor(c, 10_000))
    ensures WithdrawalAmount(c, balance, index, j) > 0
    ensures KeepsMost(balance, balance - WithdrawalAmount(c, balance, index, j))
  {
    ShareBound(balance, 22, CurrencyMajor(c, 10_000));
  }

  lemma TransferCovered(c: Currency, balance: nat, index: nat, j: nat)
    requires balance >= Cents(CurrencyMajor(c, 15_000))
    ensures TransferAmount(c, balance, index, j) > 0
    ensures KeepsMost(balance, balance - TransferAmount(c, balance, index, j))
  {
    ShareBound(balance, 18, CurrencyMajor(c, 15_000));
  }

  lemma FeeCovered(c: Currency, balance: nat, index: nat, j: nat)
    requires balance >= Cents(CurrencyMajor(c, 10_000))
    ensures FeeAmount(c, index, j) > 0
    ensures KeepsMost(balance, balance - FeeAmount(c, index, j))
  {
    FeeBound(c, Modulo(index * 13 + j * 19, 950));
  }

  lemma FeeBound(c: Currency, m: nat)
    requires m < 950
    ensures 0 < 100 * CurrencyMajor(c, 12 + m) <= 22 * CurrencyMajor(c, 10_000)
  {
    match c
    case TRY =>
    case USD => assert RoundDiv(12 + m, 35) <= RoundDiv(961, 35);
    case EUR => assert RoundDiv(12 + m, 38) <= RoundDiv(961, 38);
  }

  /** What a turn of the generation loop decides: a kind, an amount and, for a transfer, the counterparty. */
  datatype Choice = Choice(kind: Kind, amount: int, target: nat)

  function Choose(refs: seq<CustomerRef>, balance: int, index: nat, currencyIndex: nat, j: nat): (choice: Choice)
    requires index < |refs| && currencyIndex < |CURRENCIES|
    ensures choice.target < |refs|
  {
    var c, selector := CURRENCIES[currencyIndex], Selector(index, currencyIndex, j);
    var target := Modulo(index + currencyIndex * 19 + j * 13 + 37, |refs|);
    if balance < Cents(CurrencyMajor(c, 10_000)) || selector < 25 then Choice(Deposit, TopUpAmount(c, index, j), target)
    else if selector < 58 then Choice(Withdrawal, WithdrawalAmount(c, balance, index, j), target)
    else if selector < 76 then Choice(Fee, FeeAmount(c, index, j), target)
    else if refs[target].id == refs[index].id || balance < Cents(CurrencyMajor(c, 15_000))
    then Choice(Deposit, SmallTopUpAmount(c, index, j), target)
    else Choice(Transfer, TransferAmount(c, balance, index, j), target)
  }

  /**
   Whatever the balance, negative ones included: the amount is positive, a debit is only chosen on a positive
   balance and leaves at least 78 percent of it, and a transfer goes to another customer.
   */
  lemma ChoiceIsCovered(refs: seq<CustomerRef>, balance: int, index: nat, currencyIndex: nat, j: nat)
    requires index < |refs| && currencyIndex < |CURRENCIES|
    ensures var choice := Choose(refs, balance, index, currencyIndex, j);
            && choice.amount > 0
            && (!choice.kind.Deposit? ==> KeepsMost(balance, balance - choice.amount))
            && (choice.kind.Transfer? ==> refs[choice.target].id != refs[index].id)
  {
    var c := CURRENCIES[currencyIndex];
    if balance >= Cents(CurrencyMajor(c, 10_000)) {
      WithdrawalCovered(c, balance, index, j);
      FeeCovered(c, balance, index, j);
      if balance >= Cents(CurrencyMajor(c, 15_000)) {
        TransferCovered(c, balance, index, j);
      }
    }
  }

  /** Each wallet's count covers its coverage rows with at least two generated ones. */
  lemma CountLeavesRoom(i: nat)
    ensures COVERAGE_COUNT + 2 <= TransactionCount(i) <= 45
  {
    var k := i % 12;
    assert 28 <= TX_COUNT_PATTERN[k] <= 45;
  }

  // ---------------------------------------------------------------- the builder

  /** The two wallets of a transaction: debited, then credited. */
  function Sides(kind: Kind, ownerLeg: Leg, owner: Id, target: Option<Id>, clearing: Id, revenue: Id): (Id, Id) {
    match kind
    case Deposit => (clearing, owner)
    case Withdrawal => (owner, clearing)
    case Fee => (owner, revenue)
    case Transfer => (owner, target.GetOr(owner))
    case _ => if ownerLeg.Credit? then (clearing, owner) else (owner, clearing)
  }

  predicate Has(wallets: map<Id, Wallet<Currency>>, p: PerCurrency) {
    p.tr in wallets && p.usd in wallets && p.eur in wallets
  }

  /**
   What the caller hands over and what the wallet map then knows: one currency per wallet, and system wallets
   that belong to no customer.
   */
  datatype Setup = Setup(refs: seq<CustomerRef>, clearing: PerCurrency, revenue: PerCurrency, currencyOf: map<Id, Currency>) {
    ghost predicate Known(w: Id, c: Currency) {
      w in currencyOf && currencyOf[w] == c
    }

    ghost predicate KnownAll(p: PerCurrency) {
      Known(p.tr, TRY) && Known(p.usd, USD) && Known(p.eur, EUR)
    }

    ghost predicate Customers(p: PerCurrency) {
      && KnownAll(p)
      && p.tr != clearing.tr && p.usd != clearing.usd && p.eur != clearing.eur
      && p.tr != revenue.tr && p.usd != revenue.usd && p.eur != revenue.eur
    }

    ghost predicate Registered() {
      KnownAll(clearing) && KnownAll(revenue) && forall r :: 0 <= r < |refs| ==> Customers(refs[r].wallets)
    }

    ghost predicate InPlay(wallets: map<Id, Wallet<Currency>>) {
      && (forall w :: w in wallets ==> w in currencyOf && wallets[w].currency == currencyOf[w])
      && Has(wallets, clearing) && Has(wallets, revenue)
      && (forall r :: 0 <= r < |refs| ==> Has(wallets, refs[r].wallets))
    }

    ghost predicate Good(l: Ledger) {
      Registered() && InPlay(l.book.wallets) && Sound(l)
    }

    ghost predicate Unposted(l: Ledger) {
      && Listed(l.book) && l.transactions == [] && l.book.entries == [] && l.entrySeq == map[]
      && (forall w :: w in l.book.wallets ==> w in currencyOf && l.book.wallets[w] == Wallet(currencyOf[w], 0))
    }
  }

  lemma PostingKeepsGood(setup: Setup, l: Ledger, t: Transaction, debited: Id, credited: Id, amount: int)
    requires setup.Good(l) && Postable(l, t, debited, credited, amount)
    requires t.generated && debited == t.ownerWallet ==>
      KeepsMost(l.book.wallets[debited].balance, l.book.wallets[debited].balance - amount)
    ensures setup.Good(WithTransaction(l, t, debited, credited, amount))
  {
    PostingKeepsSound(l, t, debited, credited, amount);
    PostingKeepsInPlay(setup, l, t, debited, credited, amount);
  }

  lemma PostingKeepsInPlay(setup: Setup, l: Ledger, t: Transaction, debited: Id, credited: Id, amount: int)
    requires setup.InPlay(l.book.wallets) && debited in l.book.wallets && credited in l.book.wallets
    ensures setup.InPlay(WithTransaction(l, t, debited, credited, amount).book.wallets)
  {
  }

  /** One call of `addTx`, with its two wallets worked out. */
  datatype Posting = Posting(t: Transaction, debited: Id, credited: Id, amount: int)

  predicate PostOk(l: Ledger, p: Posting) {
    && Postable(l, p.t, p.debited, p.credited, p.amount)
    && (p.t.generated && p.debited == p.t.ownerWallet ==>
          KeepsMost(l.book.wallets[p.debited].balance, l.book.wallets[p.debited].balance - p.amount))
  }

  /**
   A run of the script so far: the registered wallets, then postings one after the other. The result is the
   book they lead to, `None` when one of them was out of order when it was made.
   */
  ghost function Run(setup: Setup, initial: Ledger, posts: seq<Posting>): Option<Ledger>
    decreases |posts|
  {
    if posts == [] then
      if setup.Registered() && setup.InPlay(initial.book.wallets) && setup.Unposted(initial) then Some(initial) else None
    else
      var p := posts[|posts| - 1];
      match Run(setup, initial, posts[..|posts| - 1])
      case None => None
      case Some(l) => if PostOk(l, p) then Some(WithTransaction(l, p.t, p.debited, p.credited, p.amount)) else None
  }

  /** The book is good after every run. */
  lemma {:induction false} RunIsGood(setup: Setup, initial: Ledger, posts: seq<Posting>)
    requires Run(setup, initial, posts).Some?
    ensures setup.Good(Run(setup, initial, posts).value) && |Run(setup, initial, posts).value.transactions| == |posts|
    decreases |posts|
  {
    if posts == [] {
      EmptyIsSound(initial);
    } else {
      var p := posts[|posts| - 1];
      RunIsGood(setup, initial, posts[..|posts| - 1]);
      PostingKeepsGood(setup, Run(setup, initial, posts[..|posts| - 1]).value, p.t, p.debited, p.credited, p.amount);
    }
  }

  lemma RunGrows(setup: Setup, initial: Ledger, posts: seq<Posting>, p: Posting)
    requires Run(setup, initial, posts).Some? && PostOk(Run(setup, initial, posts).value, p)
    ensures Run(setup, initial, posts + [p])
         == Some(WithTransaction(Run(setup, initial, posts).value, p.t, p.debited, p.credited, p.amount))
  {
    assert (posts + [p])[..|posts|] == posts;
  }

  /** What `addTx` may be asked: the owner's wallet in that currency, a target for a transfer, a positive amount. */
  ghost predicate Askable(setup: Setup, l: Ledger, kind: Kind, owner: Id, c: Currency, target: Option<Id>, amount: int) {
    && owner in l.book.wallets && l.book.wallets[owner].currency == c && amount > 0
    && owner != setup.clearing.Of(c) && owner != setup.revenue.Of(c)
    && (kind.Transfer? ==> target.Some? && target.value in l.book.wallets && l.book.wallets[target.value].currency == c)
  }

  lemma CustomerCanAsk(setup: Setup, initial: Ledger, posts: seq<Posting>, kind: Kind, r: nat, c: Currency,
                       other: nat, amount: int)
    requires Run(setup, initial, posts).Some? && r < |setup.refs| && other < |setup.refs| && amount > 0
    ensures var l, owner := Run(setup, initial, posts).value, setup.refs[r].wallets.Of(c);
            && Askable(setup, l, kind, owner, c, Some(setup.refs[other].wallets.Of(c)), amount)
            && (!kind.Transfer? ==> Askable(setup, l, kind, owner, c, None, amount))
  {
    RunIsGood(setup, initial, posts);
    assert setup.Customers(setup.refs[r].wallets) && setup.Customers(setup.refs[other].wallets);
    var l := Run(setup, initial, posts).value;
    assert Has(l.book.wallets, setup.refs[r].wallets) && Has(l.book.wallets, setup.refs[other].wallets);
  }

  /** A request that may be asked is a posting in order, so the run goes on with it. */
  lemma AskedIsPosted(setup: Setup, initial: Ledger, posts: seq<Posting>, t: Transaction, target: Option<Id>,
                      amount: int, ownerLeg: Leg)
    requires Run(setup, initial, posts).Some? && t.id == t.publicRefNo == |posts| + 1
    requires Askable(setup, Run(setup, initial, posts).value, t.kind, t.ownerWallet, t.currency, target, amount)
    requires t.generated && !t.kind.Deposit? ==>
      var balance := Run(setup, initial, posts).value.book.wallets[t.ownerWallet].balance; KeepsMost(balance, balance - amount)
    ensures var l := Run(setup, initial, posts).value;
            var s := Sides(t.kind, ownerLeg, t.ownerWallet, target, setup.clearing.Of(t.currency),
                setup.revenue.Of(t.currency));
            && s.0 in l.book.wallets && s.1 in l.book.wallets
            && setup.clearing.Of(t.currency) in l.book.wallets && setup.revenue.Of(t.currency) in l.book.wallets
            && Run(setup, initial, posts + [Posting(t, s.0, s.1, amount)]) == Some(WithTransaction(l, t, s.0, s.1, amount))
  {
    var s := Sides(t.kind, ownerLeg, t.ownerWallet, target, setup.clearing.Of(t.currency), setup.revenue.Of(t.currency));
    RunIsGood(setup, initial, posts);
    SidesAreOk(setup, Run(setup, initial, posts).value, t, target, amount, ownerLeg);
    RunGrows(setup, initial, posts, Posting(t, s.0, s.1, amount));
  }

  lemma SidesAreOk(setup: Setup, l: Ledger, t: Transaction, target: Option<Id>, amount: int, ownerLeg: Leg)
    requires setup.Registered() && setup.InPlay(l.book.wallets) && t.id == t.publicRefNo == |l.transactions| + 1
    requires Askable(setup, l, t.kind, t.ownerWallet, t.currency, target, amount)
    requires t.generated && !t.kind.Deposit? ==>
      KeepsMost(l.book.wallets[t.ownerWallet].balance, l.book.wallets[t.ownerWallet].balance - amount)
    ensures setup.clearing.Of(t.currency) in l.book.wallets && setup.revenue.Of(t.currency) in l.book.wallets
    ensures var s := Sides(t.kind, ownerLeg, t.ownerWallet, target, setup.clearing.Of(t.currency),
        setup.revenue.Of(t.currency));
            PostOk(l, Posting(t, s.0, s.1, amount))
  {
  }

  /** The posting of a turn of the generation loop, after `n` others. */
  function GeneratedPosting(setup: Setup, n: nat, wallets: map<Id, Wallet<Currency>>, index: nat, currencyIndex: nat,
                            j: nat): Posting
    requires index < |setup.refs| && currencyIndex < |CURRENCIES|
  {
    var c := CURRENCIES[currencyIndex];
    var owner := setup.refs[index].wallets.Of(c);
    var balance := if owner in wallets then wallets[owner].balance else 0;
    var choice := Choose(setup.refs, balance, index, currencyIndex, j);
    var s := Sides(choice.kind, Credit, owner, Some(setup.refs[choice.target].wallets.Of(c)), setup.clearing.Of(c),
        setup.revenue.Of(c));
    Posting(Transaction(n + 1, n + 1, choice.kind, Posted, owner, c, true), s.0, s.1, choice.amount)
  }

  /** A coverage row posted after `n` others. */
  function CoverageRow(n: nat, kindIndex: nat, statusIndex: nat, owner: Id, c: Currency): Transaction
    requires kindIndex < 6 && statusIndex < 4
  {
    Transaction(n + 1, n + 1, COVERAGE_KINDS[kindIndex], COVERAGE_STATUSES[statusIndex], owner, c, false)
  }

  /** The posting behind it: its amount, and the wallets its kind and leg debit and credit. */
  function CoveragePosting(setup: Setup, n: nat, r: nat, index: nat, c: Currency, kindIndex: nat, statusIndex: nat): Posting
    requires r < |setup.refs| && kindIndex < 6 && statusIndex < 4
  {
    var kind, owner := COVERAGE_KINDS[kindIndex], setup.refs[r].wallets.Of(c);
    var target := setup.refs[CoverageTarget(setup.refs, r, index, kindIndex, statusIndex)].wallets.Of(c);
    var s := Sides(kind, CoverageLeg(kind, kindIndex, statusIndex), owner, Some(target), setup.clearing.Of(c),
        setup.revenue.Of(c));
    Posting(CoverageRow(n, kindIndex, statusIndex, owner, c), s.0, s.1, CoverageAmount(kind, c, index, statusIndex))
  }

  function StatusRows(n: nat, kindIndex: nat, statuses: nat, owner: Id, c: Currency): (rows: seq<Transaction>)
    requires kindIndex < 6 && statuses <= 4
    ensures |rows| == statuses
  {
    if statuses == 0 then []
    else StatusRows(n, kindIndex, statuses - 1, owner, c) + [CoverageRow(n + statuses - 1, kindIndex, statuses - 1, owner, c)]
  }

  function CoverageRows(n: nat, kinds: nat, owner: Id, c: Currency): (rows: seq<Transaction>)
    requires kinds <= 6
    ensures |rows| == 4 * kinds
  {
    if kinds == 0 then []
    else CoverageRows(n, kinds - 1, owner, c) + StatusRows(n + 4 * (kinds - 1), kinds - 1, 4, owner, c)
  }

  lemma StatusGrows(before: seq<Transaction>, kindIndex: nat, statuses: nat, owner: Id, c: Currency)
    requires kindIndex < 6 && statuses < 4
    ensures var rows := before + StatusRows(|before|, kindIndex, statuses, owner, c);
            rows + [CoverageRow(|rows|, kindIndex, statuses, owner, c)] == before
                + StatusRows(|before|, kindIndex, statuses + 1, owner, c)
  {
  }

  lemma KindGrows(before: seq<Transaction>, kinds: nat, owner: Id, c: Currency)
    requires kinds < 6
    ensures var rows := before + CoverageRows(|before|, kinds, owner, c);
            rows + StatusRows(|rows|, kinds, 4, owner, c) == before + CoverageRows(|before|, kinds + 1, owner, c)
  {
  }

  /** The coverage rows of a wallet hold every kind in every status. */
  lemma {:induction false} CoverageIsComplete(n: nat, kinds: nat, owner: Id, c: Currency, k: nat, s: nat)
    requires k < kinds <= 6 && s < 4
    ensures CoverageRows(n, kinds, owner, c)[4 * k + s] == CoverageRow(n + 4 * k + s, k, s, owner, c)
  {
    if k < kinds - 1 {
      CoverageIsComplete(n, kinds - 1, owner, c, k, s);
    } else {
      StatusRowAt(n + 4 * k, k, 4, owner, c, s);
    }
  }

  lemma {:induction false} StatusRowAt(n: nat, kindIndex: nat, statuses: nat, owner: Id, c: Currency, s: nat)
    requires kindIndex < 6 && s < statuses <= 4
    ensures StatusRows(n, kindIndex, statuses, owner, c)[s] == CoverageRow(n + s, kindIndex, s, owner, c)
  {
    if s < statuses - 1 {
      StatusRowAt(n, kindIndex, statuses - 1, owner, c, s);
    }
  }

  class Builder {
    const refs: seq<CustomerRef>
    const clearing: PerCurrency
    const revenue: PerCurrency
    ghost const currencyOf: map<Id, Currency>

    var transactions: seq<Transaction>
    var entries: seq<Entry<Currency>>
    var order: seq<Id>
    var wallets: map<Id, Wallet<Currency>>
    var entrySeq: map<Id, nat>
    var publicRefNo: nat
    var totalAuthored: int

    /** The registered wallets and the postings made since: what the fields above are built from. */
    ghost var initial: Ledger
    ghost var posts: seq<Posting>

    ghost function Snapshot(): Ledger reads this {
      Ledger(transactions, Book(entries, order, wallets), entrySeq)
    }

    ghost function Input(): Setup {
      Setup(refs, clearing, revenue, currencyOf)
    }

    ghost predicate Valid() reads this {
      && Run(Input(), initial, posts) == Some(Snapshot())
      && publicRefNo == |posts| + 1 == |transactions| + 1
    }

    constructor (refs: seq<CustomerRef>, clearing: PerCurrency, revenue: PerCurrency, ghost currencyOf: map<Id, Currency>)
      ensures Input() == Setup(refs, clearing, revenue, currencyOf)
      ensures Snapshot() == Ledger([], Book([], [], map[]), map[]) && publicRefNo == 1 && totalAuthored == 0
    {
      this.refs, this.clearing, this.revenue, this.currencyOf := refs, clearing, revenue, currencyOf;
      transactions, entries, order, wallets, entrySeq := [], [], [], map[], map[];
      publicRefNo, totalAuthored := 1, 0;
      posts := [];
    }

    method Register(w: Id, c: Currency)
      requires Input().Unposted(Snapshot()) && Input().Known(w, c)
      modifies `order, `wallets
      ensures Input().Unposted(Snapshot()) && wallets.Keys == old(wallets).Keys + {w}
    {
      if w !in wallets {
        order := order + [w];
      }
      wallets := wallets[w := Wallet(c, 0)];
    }

    method RegisterAll(all: PerCurrency)
      requires Input().Unposted(Snapshot()) && Input().KnownAll(all)
      modifies `order, `wallets
      ensures Input().Unposted(Snapshot()) && wallets.Keys == old(wallets).Keys + {all.tr, all.usd, all.eur}
    {
      Register(all.tr, TRY);
      Register(all.usd, USD);
      Register(all.eur, EUR);
    }

    /** The wallet map, in the order the wallets are first met. */
    method RegisterWallets()
      requires Input().Registered() && Input().Unposted(Snapshot())
      modifies `order, `wallets
      ensures Input().Unposted(Snapshot()) && Input().InPlay(wallets)
    {
      for r := 0 to |refs|
        invariant Input().Unposted(Snapshot())
        invariant forall q :: 0 <= q < r ==> Has(wallets, refs[q].wallets)
      {
        assert Input().Customers(refs[r].wallets);
        RegisterAll(refs[r].wallets);
      }
      RegisterAll(clearing);
      RegisterAll(revenue);
    }

    method NextSeq(w: Id) returns (next: nat)
      modifies `entrySeq
      ensures next == SeqOf(old(entrySeq), w) + 1 && entrySeq == old(entrySeq)[w := next]
    {
      next := SeqOf(entrySeq, w) + 1;
      entrySeq := entrySeq[w := next];
    }

    method AddEntry(transaction: Id, w: Id, leg: Leg, amount: int)
      requires w in wallets
      modifies `entries, `wallets, `entrySeq
      ensures Snapshot() == WithCounted(old(Snapshot()), transaction, w, leg, amount)
    {
      var n := NextSeq(w);
      entries := entries + [Entry(transaction, w, leg, amount, wallets[w].currency, n)];
      wallets := wallets[w := wallets[w].(balance := wallets[w].balance + Signed(leg, amount))];
    }

    /** The two entries of `addTx`, by kind. */
    method AddLegs(id: Id, kind: Kind, owner: Id, c: Currency, target: Option<Id>, amount: int, ownerLeg: Leg)
      requires owner in wallets && clearing.Of(c) in wallets && revenue.Of(c) in wallets
      requires kind.Transfer? ==> target.Some? && target.value in wallets
      modifies `entries, `wallets, `entrySeq
      ensures var s := Sides(kind, ownerLeg, owner, target, clearing.Of(c), revenue.Of(c));
              Snapshot() == WithCounted(WithCounted(old(Snapshot()), id, s.0, Debit, amount), id, s.1, Credit, amount)
    {
      if kind.Deposit? {
        AddEntry(id, clearing.Of(c), Debit, amount);
        AddEntry(id, owner, Credit, amount);
      } else if kind.Withdrawal? {
        AddEntry(id, owner, Debit, amount);
        AddEntry(id, clearing.Of(c), Credit, amount);
      } else if kind.Fee? {
        AddEntry(id, owner, Debit, amount);
        AddEntry(id, revenue.Of(c), Credit, amount);
      } else if kind.Transfer? {
        AddEntry(id, owner, Debit, amount);
        AddEntry(id, target.value, Credit, amount);
      } else if ownerLeg.Credit? {
        AddEntry(id, clearing.Of(c), Debit, amount);
        AddEntry(id, owner, Credit, amount);
      } else {
        AddEntry(id, owner, Debit, amount);
        AddEntry(id, clearing.Of(c), Credit, amount);
      }
    }

    /** The rows of one transaction: its header, then its two entries. */
    method AddRows(t: Transaction, target: Option<Id>, amount: int, ownerLeg: Leg)
      requires t.ownerWallet in wallets && clearing.Of(t.currency) in wallets && revenue.Of(t.currency) in wallets
      requires t.kind.Transfer? ==> target.Some? && target.value in wallets
      modifies `transactions, `entries, `wallets, `entrySeq, `publicRefNo
      ensures var s := Sides(t.kind, ownerLeg, t.ownerWallet, target, clearing.Of(t.currency), revenue.Of(t.currency));
              Snapshot() == WithTransaction(old(Snapshot()), t, s.0, s.1, amount)
      ensures publicRefNo == old(publicRefNo) + 1
    {
      transactions := transactions + [t];
      publicRefNo := publicRefNo + 1;
      AddLegs(t.id, t.kind, t.ownerWallet, t.currency, target, amount, ownerLeg);
    }

    /** `addTx`: the header, the debit, the credit. */
    method AddTx(kind: Kind, status: Status, owner: Id, c: Currency, target: Option<Id>, amount: int, ownerLeg: Leg,
                 generated: bool)
      requires Valid() && Askable(Input(), Snapshot(), kind, owner, c, target, amount)
      requires generated && !kind.Deposit? ==> KeepsMost(wallets[owner].balance, wallets[owner].balance - amount)
      modifies `transactions, `entries, `wallets, `entrySeq, `publicRefNo, `posts
      ensures Valid()
      ensures var s := Sides(kind, ownerLeg, owner, target, clearing.Of(c), revenue.Of(c));
              var t := Transaction(old(publicRefNo), old(publicRefNo), kind, status, owner, c, generated);
              posts == old(posts) + [Posting(t, s.0, s.1, amount)] && transactions == old(transactions) + [t]
    {
      var t := Transaction(publicRefNo, publicRefNo, kind, status, owner, c, generated);
      ghost var s := Sides(kind, ownerLeg, owner, target, clearing.Of(c), revenue.Of(c));
      AskedIsPosted(Input(), initial, posts, t, target, amount, ownerLeg);
      AddRows(t, target, amount, ownerLeg);
      posts := posts + [Posting(t, s.0, s.1, amount)];
    }

    method AddOneCoverage(r: nat, index: nat, c: Currency, kindIndex: nat, statusIndex: nat)
      requires Valid() && r < |refs| && kindIndex < 6 && statusIndex < 4
      modifies `transactions, `entries, `wallets, `entrySeq, `publicRefNo, `posts
      ensures Valid()
      ensures transactions == old(transactions)
          + [CoverageRow(|old(transactions)|, kindIndex, statusIndex, refs[r].wallets.Of(c), c)]
      ensures posts == old(posts) + [CoveragePosting(Input(), |old(transactions)|, r, index, c, kindIndex, statusIndex)]
    {
      var kind := COVERAGE_KINDS[kindIndex];
      var target := Modulo(index + kindIndex * 17 + statusIndex * 31 + 37, |refs|);
      if refs[target].id == refs[r].id {
        target := Modulo(index + 1, |refs|);
      }
      var amount := CoverageAmount(kind, c, index, statusIndex);
      CustomerCanAsk(Input(), initial, posts, kind, r, c, target, amount);
      AddTx(kind, COVERAGE_STATUSES[statusIndex], refs[r].wallets.Of(c), c,
            if kind.Transfer? then Some(refs[target].wallets.Of(c)) else None,
            amount, CoverageLeg(kind, kindIndex, statusIndex), false);
    }

    /** One kind in every status. */
    method AddKindCoverage(r: nat, index: nat, c: Currency, kindIndex: nat)
      requires Valid() && r < |refs| && kindIndex < 6
      modifies `transactions, `entries, `wallets, `entrySeq, `publicRefNo, `posts
      ensures Valid()
      ensures transactions == old(transactions) + StatusRows(|old(transactions)|, kindIndex, 4, refs[r].wallets.Of(c), c)
    {
      for statusIndex := 0 to |COVERAGE_STATUSES|
        invariant Valid()
        invariant transactions == old(transactions)
            + StatusRows(|old(transactions)|, kindIndex, statusIndex, refs[r].wallets.Of(c), c)
      {
        StatusGrows(old(transactions), kindIndex, statusIndex, refs[r].wallets.Of(c), c);
        AddOneCoverage(r, index, c, kindIndex, statusIndex);
      }
    }

    /** Every kind in every status, once, for one customer and currency. */
    method AddCoverage(r: nat, index: nat, c: Currency) returns (added: nat)
      requires Valid() && r < |refs|
      modifies `transactions, `entries, `wallets, `entrySeq, `publicRefNo, `posts
      ensures Valid() && added == COVERAGE_COUNT
      ensures transactions == old(transactions) + CoverageRows(|old(transactions)|, 6, refs[r].wallets.Of(c), c)
    {
      added := 0;
      for kindIndex := 0 to |COVERAGE_KINDS|
        invariant Valid() && added == 4 * kindIndex
        invariant transactions == old(transactions) + CoverageRows(|old(transactions)|, kindIndex, refs[r].wallets.Of(c), c)
      {
        KindGrows(old(transactions), kindIndex, refs[r].wallets.Of(c), c);
        AddKindCoverage(r, index, c, kindIndex);
        added := added + |COVERAGE_STATUSES|;
      }
    }

    /** One turn of the generation loop: top up when low, otherwise withdraw, pay a fee or transfer. */
    method GenerateOne(index: nat, currencyIndex: nat, j: nat)
      requires Valid() && index < |refs| && currencyIndex < |CURRENCIES|
      modifies `transactions, `entries, `wallets, `entrySeq, `publicRefNo, `posts
      ensures Valid() && |transactions| == |old(transactions)| + 1 && old(transactions) <= transactions
      ensures posts == old(posts) + [GeneratedPosting(Input(), |old(transactions)|, old(wallets), index, currencyIndex, j)]
    {
      var c := CURRENCIES[currencyIndex];
      var owner := refs[index].wallets.Of(c);
      CustomerCanAsk(Input(), initial, posts, Deposit, index, c, index, 1);
      var balance := wallets[owner].balance;
      ChoiceIsCovered(refs, balance, index, currencyIndex, j);
      var selector := Selector(index, currencyIndex, j);
      if balance < Cents(CurrencyMajor(c, 10_000)) || selector < 25 {
        AddTx(Deposit, Posted, owner, c, None, TopUpAmount(c, index, j), Credit, true);
        return;
      }
      if selector < 58 {
        AddTx(Withdrawal, Posted, owner, c, None, WithdrawalAmount(c, balance, index, j), Credit, true);
        return;
      }
      if selector < 76 {
        AddTx(Fee, Posted, owner, c, None, FeeAmount(c, index, j), Credit, true);
        return;
      }
      var target := Modulo(index + currencyIndex * 19 + j * 13 + 37, |refs|);
      if refs[target].id == refs[index].id || balance < Cents(CurrencyMajor(c, 15_000)) {
        AddTx(Deposit, Posted, owner, c, None, SmallTopUpAmount(c, index, j), Credit, true);
        return;
      }
      var amount := TransferAmount(c, balance, index, j);
      CustomerCanAsk(Input(), initial, posts, Transfer, index, c, target, amount);
      AddTx(Transfer, Posted, owner, c, Some(refs[target].wallets.Of(c)), amount, Credit, true);
    }

    /** All rows of one wallet: its coverage, then generated ones up to its count. */
    method FillWallet(index: nat, currencyIndex: nat)
      requires Valid() && index < |refs| && currencyIndex < |CURRENCIES|
      modifies `transactions, `entries, `wallets, `entrySeq, `publicRefNo, `posts, `totalAuthored
      ensures Valid() && |transactions| == |old(transactions)| + TransactionCount(index + currencyIndex * 11)
      ensures totalAuthored - old(totalAuthored) == |transactions| - |old(transactions)|
    {
      var count := TransactionCount(index + currencyIndex * 11);
      CountLeavesRoom(index + currencyIndex * 11);
      totalAuthored := totalAuthored + count;
      var coverageCount := AddCoverage(index, index + currencyIndex * 101, CURRENCIES[currencyIndex]);
      for j := coverageCount to count
        invariant Valid() && totalAuthored == old(totalAuthored) + count && |transactions| == |old(transactions)| + j
      {
        GenerateOne(index, currencyIndex, j);
      }
    }

    /** The three wallets of one customer. */
    method FillCustomer(index: nat)
      requires Valid() && index < |refs|
      modifies `transactions, `entries, `wallets, `entrySeq, `publicRefNo, `posts, `totalAuthored
      ensures Valid() && |transactions| == |old(transactions)| + RowsOfCustomer(index, 3)
      ensures totalAuthored - old(totalAuthored) == |transactions| - |old(transactions)|
    {
      for currencyIndex := 0 to |CURRENCIES|
        invariant Valid() && |transactions| == |old(transactions)| + RowsOfCustomer(index, currencyIndex)
        invariant totalAuthored - old(totalAuthored) == |transactions| - |old(transactions)|
      {
        FillWallet(index, currencyIndex);
      }
    }

    /**
     `buildTransactions`: the book it returns is balanced, none of its generated debits takes more than 22
     percent of the owner's balance, and the number it reports is the number of transactions.
     */
    method Build() returns (balances: seq<(Id, int)>)
      requires Input().Registered() && Input().Unposted(Snapshot()) && publicRefNo == 1 && totalAuthored == 0
      modifies this
      ensures Input().Good(Snapshot()) && totalAuthored == |transactions| == RowsOf(|refs|)
      ensures |balances| == |order| && forall i :: 0 <= i < |order| ==> balances[i] == (order[i], BalanceOf(entries, order[i]))
    {
      RegisterWallets();
      initial, posts := Snapshot(), [];
      for index := 0 to |refs|
        invariant Valid() && totalAuthored == |transactions| == RowsOf(index)
      {
        FillCustomer(index);
      }
      RunIsGood(Input(), initial, posts);
      balances := Balances();
    }

    /** The balance rows, in the order of the wallet map. */
    method Balances() returns (balances: seq<(Id, int)>)
      requires Listed(Snapshot().book) && Folded(Snapshot().book)
      ensures |balances| == |order| && forall i :: 0 <= i < |order| ==> balances[i] == (order[i], BalanceOf(entries, order[i]))
    {
      balances := [];
      for i := 0 to |order|
        invariant |balances| == i
        invariant forall k :: 0 <= k < i ==> balances[k] == (order[k], BalanceOf(entries, order[k]))
      {
        balances := balances + [(order[i], wallets[order[i]].balance)];
      }
    }
  }

  lemma EmptyIsSound(l: Ledger)
    requires Listed(l.book) && l.transactions == [] && l.book.entries == [] && l.entrySeq == map[]
    requires forall w :: w in l.book.wallets ==> l.book.wallets[w].balance == 0
    ensures Sound(l)
  {
    NothingIsBalanced(l.book);
  }
}
