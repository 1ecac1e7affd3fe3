/**
 The book the seed script builds: transactions of two legs over a double-entry book, and a map that counts
 each wallet's entries.
 */
module SeedBook {
  import opened LedgerBook

  datatype Currency = TRY | USD | EUR

  datatype Kind = Deposit | Withdrawal | Transfer | Fee | Adjustment | Reversal

  datatype Status = Posted | Pending | Failed | Reversed

  /** `generated` is history: it tells the generation loop's rows from the coverage rows. */
  datatype Transaction = Transaction(id: Id, publicRefNo: nat, kind: Kind, status: Status, ownerWallet: Id,
                                     currency: Currency, generated: bool)

  datatype Ledger = Ledger(transactions: seq<Transaction>, book: Book<Currency>, entrySeq: map<Id, nat>)

  function SeqOf(entrySeq: map<Id, nat>, w: Id): nat {
    if w in entrySeq then entrySeq[w] else 0
  }

  /** `addEntry`: the next number comes from the counter map. */
  function WithCounted(l: Ledger, transaction: Id, w: Id, leg: Leg, amount: int): Ledger
    requires w in l.book.wallets
  {
    var n := SeqOf(l.entrySeq, w) + 1;
    l.(book := Append(l.book, transaction, w, leg, amount, n), entrySeq := l.entrySeq[w := n])
  }

  function WithTransaction(l: Ledger, t: Transaction, debited: Id, credited: Id, amount: int): Ledger
    requires debited in l.book.wallets && credited in l.book.wallets
  {
    WithCounted(WithCounted(l.(transactions := l.transactions + [t]), t.id, debited, Debit, amount),
                t.id, credited, Credit, amount)
  }

  /** The counter map agrees with the entries. */
  ghost predicate Counted(l: Ledger) {
    forall w :: SeqOf(l.entrySeq, w) == MaxSeq(l.book.entries, w)
  }

  /** Two legs, equal and opposite, in the transaction's currency; the kind fixes the owner's side. */
  predicate Legs(t: Transaction, debit: Entry<Currency>, credit: Entry<Currency>) {
    && debit.transaction == credit.transaction == t.id
    && debit.leg == Debit && credit.leg == Credit
    && debit.amount == credit.amount > 0
    && debit.currency == credit.currency == t.currency
    && (t.kind.Deposit? ==> credit.wallet == t.ownerWallet)
    && (t.kind.Withdrawal? || t.kind.Fee? || t.kind.Transfer? ==> debit.wallet == t.ownerWallet)
    && (debit.wallet == t.ownerWallet || credit.wallet == t.ownerWallet)
  }

  predicate Paired(l: Ledger) {
    && |l.book.entries| == 2 * |l.transactions|
    && forall t :: 0 <= t < |l.transactions| ==>
         Legs(l.transactions[t], l.book.entries[2 * t], l.book.entries[2 * t + 1])
         && l.transactions[t].id == l.transactions[t].publicRefNo == t + 1
  }

  /** What a caller of `addTx` supplies: the next transaction, two wallets of its currency, a positive amount. */
  predicate Postable(l: Ledger, t: Transaction, debited: Id, credited: Id, amount: int) {
    && debited in l.book.wallets && credited in l.book.wallets
    && l.book.wallets[debited].currency == l.book.wallets[credited].currency == t.currency
    && amount > 0 && t.id == t.publicRefNo == |l.transactions| + 1
    && (t.kind.Deposit? ==> credited == t.ownerWallet)
    && (t.kind.Withdrawal? || t.kind.Fee? || t.kind.Transfer? ==> debited == t.ownerWallet)
    && (debited == t.ownerWallet || credited == t.ownerWallet)
  }

  /** With an agreeing counter map, `addTx` is a balanced pair of entries. */
  lemma CountingIsNumbering(l: Ledger, t: Transaction, debited: Id, credited: Id, amount: int)
    requires Counted(l) && Folded(l.book) && Numbered(l.book) && debited in l.book.wallets && credited in l.book.wallets
    ensures WithTransaction(l, t, debited, credited, amount).book == WithPair(l.book, t.id, debited, credited, Debit, amount)
    ensures Counted(WithTransaction(l, t, debited, credited, amount))
  {
    EntryKeepsFolds(l.book, t.id, debited, Debit, amount);
    EntryKeepsFolds(WithEntry(l.book, t.id, debited, Debit, amount), t.id, credited, Credit, amount);
  }

  lemma PostingKeepsPaired(l: Ledger, t: Transaction, debited: Id, credited: Id, amount: int)
    requires Paired(l) && Postable(l, t, debited, credited, amount)
    ensures Paired(WithTransaction(l, t, debited, credited, amount))
  {
    var l' := WithTransaction(l, t, debited, credited, amount);
    var n := |l.transactions|;
    assert forall i :: 0 <= i < 2 * n ==> l'.book.entries[i] == l.book.entries[i];
    forall k | 0 <= k < |l'.transactions|
      ensures Legs(l'.transactions[k], l'.book.entries[2 * k], l'.book.entries[2 * k + 1])
              && l'.transactions[k].id == l'.transactions[k].publicRefNo == k + 1
    {
      if k < n {
        assert l'.transactions[k] == l.transactions[k];
      }
    }
  }

  // ---------------------------------------------------------------- debits of the generation loop

  /** The owner had money and keeps at least 78 percent of it across the debit. */
  predicate KeepsMost(before: int, after: int) {
    before > 0 && 100 * after >= 78 * before
  }

  /** If generated transaction `t` debits its owner, the owner's balance around that entry. */
  predicate DebitCovered(transactions: seq<Transaction>, entries: seq<Entry<Currency>>, t: nat)
    requires t < |transactions| && 2 * t < |entries|
  {
    transactions[t].generated && entries[2 * t].wallet == transactions[t].ownerWallet ==>
      KeepsMost(BalanceOf(entries[..2 * t], transactions[t].ownerWallet),
          BalanceOf(entries[..2 * t + 1], transactions[t].ownerWallet))
  }

  predicate NoOverdraft(l: Ledger) {
    forall t :: 0 <= t < |l.transactions| && 2 * t < |l.book.entries| ==> DebitCovered(l.transactions, l.book.entries, t)
  }

  lemma PostingKeepsNoOverdraft(l: Ledger, t: Transaction, debited: Id, credited: Id, amount: int)
    requires Folded(l.book) && Paired(l) && NoOverdraft(l) && Postable(l, t, debited, credited, amount)
    requires t.generated && debited == t.ownerWallet ==>
      KeepsMost(l.book.wallets[debited].balance, l.book.wallets[debited].balance - amount)
    ensures NoOverdraft(WithTransaction(l, t, debited, credited, amount))
  {
    var l' := WithTransaction(l, t, debited, credited, amount);
    var n := |l.transactions|;
    var added := l'.book.entries[2 * n..];
    assert l'.book.entries == l.book.entries + added;
    NewDebitCovered(l, t, debited, credited, amount);
    forall k | 0 <= k < |l'.transactions| && 2 * k < |l'.book.entries|
      ensures DebitCovered(l'.transactions, l'.book.entries, k)
    {
      if k < n {
        OldDebitCovered(l.transactions, l.book.entries, t, added, k);
      }
    }
  }

  lemma OldDebitCovered(transactions: seq<Transaction>, entries: seq<Entry<Currency>>, t: Transaction,
                        added: seq<Entry<Currency>>, k: nat)
    requires k < |transactions| && 2 * k + 1 < |entries| && DebitCovered(transactions, entries, k)
    ensures DebitCovered(transactions + [t], entries + added, k)
  {
    var longer := entries + added;
    assert longer[..2 * k] == entries[..2 * k] && longer[..2 * k + 1] == entries[..2 * k + 1];
  }

  lemma NewDebitCovered(l: Ledger, t: Transaction, debited: Id, credited: Id, amount: int)
    requires Folded(l.book) && |l.book.entries| == 2 * |l.transactions| && debited in l.book.wallets
        && credited in l.book.wallets
    requires t.generated && debited == t.ownerWallet ==>
      KeepsMost(l.book.wallets[debited].balance, l.book.wallets[debited].balance - amount)
    ensures var l' := WithTransaction(l, t, debited, credited, amount);
            DebitCovered(l'.transactions, l'.book.entries, |l.transactions|)
  {
    var entries, entries' := l.book.entries, WithTransaction(l, t, debited, credited, amount).book.entries;
    var n := |entries|;
    assert entries'[..n] == entries && entries'[..n + 1][..n] == entries;
  }

  // ---------------------------------------------------------------- all of it together

  /** Balanced, in pairs, counted, and no generated debit beyond what the owner had. */
  ghost predicate Sound(l: Ledger) {
    Balanced(l.book) && Paired(l) && Counted(l) && NoOverdraft(l)
  }

  lemma PostingKeepsSound(l: Ledger, t: Transaction, debited: Id, credited: Id, amount: int)
    requires Sound(l) && Postable(l, t, debited, credited, amount)
    requires t.generated && debited == t.ownerWallet ==>
      KeepsMost(l.book.wallets[debited].balance, l.book.wallets[debited].balance - amount)
    ensures Sound(WithTransaction(l, t, debited, credited, amount))
  {
    CountingIsNumbering(l, t, debited, credited, amount);
    PairKeepsBalanced(l.book, t.id, debited, credited, Debit, amount);
    PostingKeepsPaired(l, t, debited, credited, amount);
    PostingKeepsNoOverdraft(l, t, debited, credited, amount);
  }
}
