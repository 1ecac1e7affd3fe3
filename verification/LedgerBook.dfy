/**
 A double-entry book: append-only entries, a running balance per wallet and a sequence number per wallet.
 `C` is the type of currencies.
 */
module LedgerBook {
  type Id = nat

  datatype Leg = Debit | Credit

  datatype Wallet<C> = Wallet(currency: C, balance: int)

  datatype Entry<C> = Entry(transaction: Id, wallet: Id, leg: Leg, amount: int, currency: C, entrySeq: nat)

  /** `order` lists the wallets, each once. */
  datatype Book<C> = Book(entries: seq<Entry<C>>, order: seq<Id>, wallets: map<Id, Wallet<C>>)

  function Signed(leg: Leg, amount: int): int {
    if leg.Credit? then amount else -amount
  }

  function Opposite(leg: Leg): Leg {
    if leg.Credit? then Debit else Credit
  }

  /** The highest sequence number among a wallet's entries, 0 without any. */
  function MaxSeq<C>(entries: seq<Entry<C>>, w: Id): nat {
    if entries == [] then 0
    else
      var e, before := entries[|entries| - 1], MaxSeq(entries[..|entries| - 1], w);
      if e.wallet == w && e.entrySeq > before then e.entrySeq else before
  }

  function Append<C>(b: Book<C>, transaction: Id, w: Id, leg: Leg, amount: int, entrySeq: nat): Book<C>
    requires w in b.wallets
  {
    b.(entries := b.entries + [Entry(transaction, w, leg, amount, b.wallets[w].currency, entrySeq)],
       wallets := b.wallets[w := b.wallets[w].(balance := b.wallets[w].balance + Signed(leg, amount))])
  }

  function WithEntry<C>(b: Book<C>, transaction: Id, w: Id, leg: Leg, amount: int): Book<C>
    requires w in b.wallets
  {
    Append(b, transaction, w, leg, amount, MaxSeq(b.entries, w) + 1)
  }

  /** Two opposite entries of one amount, the first of them `leg` on wallet `v`. */
  function WithPair<C>(b: Book<C>, transaction: Id, v: Id, w: Id, leg: Leg, amount: int): Book<C>
    requires v in b.wallets && w in b.wallets
  {
    WithEntry(WithEntry(b, transaction, v, leg, amount), transaction, w, Opposite(leg), amount)
  }

  // ---------------------------------------------------------------- what the book promises

  function BalanceOf<C>(entries: seq<Entry<C>>, w: Id): int {
    if entries == [] then 0
    else
      var e := entries[|entries| - 1];
      BalanceOf(entries[..|entries| - 1], w) + (if e.wallet == w then Signed(e.leg, e.amount) else 0)
  }

  /** The sequence numbers one wallet's entries carry, in order. */
  function SeqsOf<C>(entries: seq<Entry<C>>, w: Id): seq<nat> {
    if entries == [] then []
    else
      var e := entries[|entries| - 1];
      SeqsOf(entries[..|entries| - 1], w) + (if e.wallet == w then [e.entrySeq] else [])
  }

  function UpTo(k: nat): seq<nat> {
    seq(k, i => i + 1)
  }

  function TotalOf<C(==)>(order: seq<Id>, wallets: map<Id, Wallet<C>>, c: C): int
    requires forall w <- order :: w in wallets
  {
    if order == [] then 0
    else
      var w := order[|order| - 1];
      TotalOf(order[..|order| - 1], wallets, c) + (if wallets[w].currency == c then wallets[w].balance else 0)
  }

  ghost predicate Listed<C>(b: Book<C>) {
    && (forall w :: w in b.wallets <==> w in b.order)
    && (forall i, j :: 0 <= i < j < |b.order| ==> b.order[i] != b.order[j])
  }

  /** Every balance is the fold of the wallet's entries. */
  ghost predicate Folded<C>(b: Book<C>) {
    forall w :: w in b.wallets ==> b.wallets[w].balance == BalanceOf(b.entries, w)
  }

  /** Every wallet's entries are numbered 1, 2, 3 and so on, in order. */
  ghost predicate Numbered<C>(b: Book<C>) {
    forall w :: SeqsOf(b.entries, w) == UpTo(MaxSeq(b.entries, w))
  }

  /** The balances of each currency add up to nothing. */
  ghost predicate ZeroSum<C(!new)>(b: Book<C>)
    requires Listed(b)
  {
    forall c: C :: TotalOf(b.order, b.wallets, c) == 0
  }

  ghost predicate Balanced<C(!new)>(b: Book<C>) {
    Listed(b) && Folded(b) && Numbered(b) && ZeroSum(b)
  }

  // ---------------------------------------------------------------- every pair of entries keeps it

  lemma EntryKeepsFolds<C>(b: Book<C>, transaction: Id, w: Id, leg: Leg, amount: int)
    requires w in b.wallets && Folded(b) && Numbered(b)
    ensures Folded(WithEntry(b, transaction, w, leg, amount)) && Numbered(WithEntry(b, transaction, w, leg, amount))
    ensures forall v :: MaxSeq(WithEntry(b, transaction, w, leg, amount).entries, v)
                     == MaxSeq(b.entries, v) + (if v == w then 1 else 0)
  {
    var b' := WithEntry(b, transaction, w, leg, amount);
    assert b'.entries[..|b.entries|] == b.entries;
    forall v ensures SeqsOf(b'.entries, v) == UpTo(MaxSeq(b'.entries, v)) {
      assert SeqsOf(b.entries, v) == UpTo(MaxSeq(b.entries, v));
    }
  }

  lemma {:induction false} TotalMoves<C>(order: seq<Id>, wallets: map<Id, Wallet<C>>, w: Id, delta: int, c: C)
    requires w in wallets && forall v <- order :: v in wallets
    requires forall i, j :: 0 <= i < j < |order| ==> order[i] != order[j]
    ensures TotalOf(order, wallets[w := wallets[w].(balance := wallets[w].balance + delta)], c)
         == TotalOf(order, wallets, c) + (if w in order && wallets[w].currency == c then delta else 0)
  {
    if order != [] {
      var n := |order| - 1;
      TotalMoves(order[..n], wallets, w, delta, c);
      assert order == order[..n] + [order[n]];
    }
  }

  lemma EntryMovesTotal<C>(b: Book<C>, transaction: Id, w: Id, leg: Leg, amount: int, c: C)
    requires w in b.wallets && Listed(b)
    ensures Listed(WithEntry(b, transaction, w, leg, amount))
    ensures TotalOf(b.order, WithEntry(b, transaction, w, leg, amount).wallets, c)
         == TotalOf(b.order, b.wallets, c) + (if b.wallets[w].currency == c then Signed(leg, amount) else 0)
  {
    TotalMoves(b.order, b.wallets, w, Signed(leg, amount), c);
  }

  /** Two opposite entries of one amount in one currency keep the book balanced. */
  lemma PairKeepsBalanced<C(!new)>(b: Book<C>, transaction: Id, v: Id, w: Id, leg: Leg, amount: int)
    requires Balanced(b) && v in b.wallets && w in b.wallets && b.wallets[v].currency == b.wallets[w].currency
    ensures Balanced(WithPair(b, transaction, v, w, leg, amount))
  {
    var b1 := WithEntry(b, transaction, v, leg, amount);
    EntryKeepsFolds(b, transaction, v, leg, amount);
    EntryKeepsFolds(b1, transaction, w, Opposite(leg), amount);
    forall c: C ensures TotalOf(b.order, WithPair(b, transaction, v, w, leg, amount).wallets, c) == 0 {
      EntryMovesTotal(b, transaction, v, leg, amount, c);
      EntryMovesTotal(b1, transaction, w, Opposite(leg), amount, c);
    }
  }

  lemma NothingIsBalanced<C(!new)>(b: Book<C>)
    requires Listed(b) && b.entries == [] && forall w :: w in b.wallets ==> b.wallets[w].balance == 0
    ensures Balanced(b)
  {
    forall c: C ensures TotalOf(b.order, b.wallets, c) == 0 {
      ZeroTotal(b.order, b.wallets, c);
    }
  }

  lemma {:induction false} ZeroTotal<C>(order: seq<Id>, wallets: map<Id, Wallet<C>>, c: C)
    requires forall w <- order :: w in wallets && wallets[w].balance == 0
    ensures TotalOf(order, wallets, c) == 0
  {
    if order != [] {
      ZeroTotal(order[..|order| - 1], wallets, c);
    }
  }
}
