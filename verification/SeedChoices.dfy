/**
 What the seed script's formulas come to: amounts, their conversion, how often each kind is chosen, who pays whom,
 and when a coverage transfer goes back to its own customer.
 */
module SeedChoices {
  import opened Options
  import opened LedgerBook
  import opened SeedBook
  import opened SeedLedger

  // ---------------------------------------------------------------- amounts

  /** `v` is `x / d` rounded to the nearest whole number, halves up. */
  predicate Nearest(v: int, x: nat, d: nat) {
    2 * d * v <= 2 * x + d < 2 * d * v + 2 * d
  }

  /** Lira stay as they are, dollars take 35 and euros 38 of them, rounded to the nearest; nothing comes to nothing. */
  lemma ConvertedAmount(x: nat)
    ensures CurrencyMajor(TRY, x) == if x == 0 then 1 else x
    ensures Nearest(CurrencyMajor(USD, x), x, 35) || (x < 18 && CurrencyMajor(USD, x) == 1)
    ensures Nearest(CurrencyMajor(EUR, x), x, 38) || (x < 19 && CurrencyMajor(EUR, x) == 1)
  {
  }

  lemma InLira(x: nat)
    requires x > 0
    ensures Cents(CurrencyMajor(TRY, x)) == 100 * x
  {
  }

  /** The amounts of generated deposits and fees in lira, in kurus: their range, both ends of which occur. */
  lemma TopUps(index: nat, j: nat)
    ensures 1_800_000 <= TopUpAmount(TRY, index, j) <= 14_299_900
    ensures TopUpAmount(TRY, 0, 0) == 1_800_000 && TopUpAmount(TRY, 15_035, 24) == 14_299_900
  {
    InLira(18_000 + (index * 997 + j * 421) % 125_000);
    InLira(142_999);
  }

  lemma SmallTopUps(index: nat, j: nat)
    ensures 750_000 <= SmallTopUpAmount(TRY, index, j) <= 7_249_900
    ensures SmallTopUpAmount(TRY, 0, 0) == 750_000 && SmallTopUpAmount(TRY, 17_539, 24) == 7_249_900
  {
    InLira(7_500 + (index * 389 + j * 97) % 65_000);
    InLira(72_499);
  }

  lemma Fees(index: nat, j: nat)
    ensures 1_200 <= FeeAmount(TRY, index, j) <= 96_100
  {
    InLira(12 + Modulo(index * 13 + j * 19, 950));
  }

  lemma FeeEnds()
    ensures FeeAmount(TRY, 0, 0) == 1_200 && FeeAmount(TRY, 111, 24) == 96_100
  {
    assert Modulo(0, 950) == 0 && Modulo(1_899, 950) == 949;
    InLira(961);
  }

  predicate Between(low: int, amount: int, high: int) {
    low <= amount <= high
  }

  /** The amounts of coverage rows in lira, by kind. */
  lemma CoverageAmounts(kind: Kind, index: nat, s: nat)
    ensures var amount := CoverageAmount(kind, TRY, index, s);
            match kind
            case Deposit => Between(1_200_000, amount, 6_699_900)
            case Withdrawal => Between(65_000, amount, 914_900)
            case Transfer => Between(90_000, amount, 1_339_900)
            case Fee => Between(2_500, amount, 47_400)
            case Adjustment => Between(7_500, amount, 232_400)
            case Reversal => Between(12_000, amount, 561_900)
  {
    var seed := index * 97 + s * 31;
    match kind
    case Deposit => InLira(12_000 + seed % 55_000);
    case Withdrawal => InLira(650 + seed % 8_500);
    case Transfer => InLira(900 + seed % 12_500);
    case Fee => InLira(25 + seed % 450);
    case Adjustment => InLira(75 + seed % 2_250);
    case Reversal => InLira(120 + seed % 5_500);
  }

  /** Each is its least amount and a remainder that the customer and the status make. */
  lemma CoverageIs(kind: Kind, index: nat, s: nat, low: nat, width: nat, rest: nat)
    requires (low, width) == match kind
                             case Deposit => (12_000, 55_000) case Withdrawal => (650, 8_500) case Transfer => (900, 12_500)
                             case Fee => (25, 450) case Adjustment => (75, 2_250) case Reversal => (120, 5_500)
    requires rest == (index * 97 + s * 31) % width
    ensures CoverageAmount(kind, TRY, index, s) == 100 * (low + rest)
  {
    InLira(low + rest);
  }

  lemma WithinShare(units: int, major: nat)
    ensures units <= major * 22 / 100 <==> 100 * units <= 22 * major
    ensures units <= major * 18 / 100 <==> 100 * units <= 18 * major
  {
  }

  lemma LargestWithin(planned: int, share: int, units: int)
    requires units > 25
    ensures var amount := Cents(Max(25, Min(planned, share)));
            && (100 * units <= amount <==> units <= planned && units <= share)
            && amount >= 2_500 && amount % 100 == 0
  {
  }

  /** A withdrawal is the largest amount in whole units within its plan and 22 percent, 25 units at the least. */
  lemma WithdrawalIsLargest(c: Currency, balance: nat, index: nat, j: nat, units: int)
    requires units > 25
    ensures 100 * units <= WithdrawalAmount(c, balance, index, j) <==>
            units <= CurrencyMajor(c, 18_000 + (index * 211 + j * 503) % 42_000) && 100 * units <= 22 * (balance / 100)
    ensures WithdrawalAmount(c, balance, index, j) >= 2_500 && WithdrawalAmount(c, balance, index, j) % 100 == 0
  {
    WithinShare(units, balance / 100);
    LargestWithin(CurrencyMajor(c, 18_000 + (index * 211 + j * 503) % 42_000), ShareOf(balance, 22), units);
  }

  /** So is a transfer, within its own plan and 18 percent. */
  lemma TransferIsLargest(c: Currency, balance: nat, index: nat, j: nat, units: int)
    requires units > 25
    ensures 100 * units <= TransferAmount(c, balance, index, j) <==>
            units <= CurrencyMajor(c, 6_000 + (index * 157 + j * 313) % 37_000) && 100 * units <= 18 * (balance / 100)
    ensures TransferAmount(c, balance, index, j) >= 2_500 && TransferAmount(c, balance, index, j) % 100 == 0
  {
    WithinShare(units, balance / 100);
    LargestWithin(CurrencyMajor(c, 6_000 + (index * 157 + j * 313) % 37_000), ShareOf(balance, 18), units);
  }

  // ---------------------------------------------------------------- the choice of a turn

  /** The least balance on which a wallet pays and on which it transfers: 10,000 and 15,000 lira's worth, in hundredths. */
  function LeastToPay(c: Currency): int {
    match c case TRY => 1_000_000 case USD => 28_600 case EUR => 26_300
  }

  function LeastToTransfer(c: Currency): int {
    match c case TRY => 1_500_000 case USD => 42_900 case EUR => 39_500
  }

  lemma Thresholds(c: Currency)
    ensures Cents(CurrencyMajor(c, 10_000)) == LeastToPay(c) && Cents(CurrencyMajor(c, 15_000)) == LeastToTransfer(c)
  {
  }

  /** The kind of a turn by its selector and the balance; of a transfer also the counterparty. */
  lemma ChoiceIff(refs: seq<CustomerRef>, balance: int, index: nat, currencyIndex: nat, j: nat)
    requires index < |refs| && currencyIndex < |CURRENCIES|
    ensures var choice, c := Choose(refs, balance, index, currencyIndex, j), CURRENCIES[currencyIndex];
            var v, other := (index * 29 + currencyIndex * 23 + j * 17) % 100, (index + currencyIndex * 19 + j * 13 + 37) % |refs|;
            && (choice.kind.Withdrawal? <==> 25 <= v < 58 && balance >= LeastToPay(c))
            && (choice.kind.Fee? <==> 58 <= v < 76 && balance >= LeastToPay(c))
            && (choice.kind.Transfer? <==> v >= 76 && balance >= LeastToTransfer(c) && refs[other].id != refs[index].id)
            && (choice.kind.Transfer? ==> choice.target == other)
            && (choice.kind.Deposit? <==> !choice.kind.Withdrawal? && !choice.kind.Fee? && !choice.kind.Transfer?)
            && (choice.kind.Deposit? ==>
                  choice.amount == if v < 25 || balance < LeastToPay(c) then TopUpAmount(c, index, j)
                                   else SmallTopUpAmount(c, index, j))
  {
    Thresholds(CURRENCIES[currencyIndex]);
  }

  /** Within a hundred turns of one wallet every selector comes exactly once, so a quarter of them are deposits. */
  lemma SelectorComesOnce(index: nat, currencyIndex: nat, start: nat, v: nat) returns (j: nat)
    requires v < 100
    ensures start <= j < start + 100 && Selector(index, currencyIndex, j) == v
    ensures forall i: nat :: start <= i < start + 100 && Selector(index, currencyIndex, i) == v ==> i == j
  {
    var base := index * 29 + currencyIndex * 23 + start * 17;
    var k := 53 * (v + 100 - base % 100) % 100;
    j := start + k;
    assert (base + 17 * k) % 100 == v by {
      Inverse(base, v);
    }
    forall i: nat | start <= i < start + 100 && Selector(index, currencyIndex, i) == v ensures i == j {
      assert (base + 17 * (i - start)) % 100 == v;
      SameResidue(base, i - start, k);
    }
  }

  lemma Inverse(base: nat, v: nat)
    requires v < 100
    ensures (base + 17 * (53 * (v + 100 - base % 100) % 100)) % 100 == v
  {
    var d := v + 100 - base % 100;
    Cancel(base, base / 100, base % 100, v, d, 53 * d / 100, 53 * d % 100);
  }

  /** 53 is the inverse of 17 modulo 100. */
  lemma Cancel(base: nat, a: nat, b: nat, v: nat, d: nat, m: nat, k: nat)
    requires base == 100 * a + b && v < 100 && d == v + 100 - b && 53 * d == 100 * m + k
    ensures (base + 17 * k) % 100 == v
  {
    assert base + 17 * k == v + 100 * (a + 1 + 9 * d - 17 * m);
  }

  lemma SameResidue(base: nat, a: nat, b: nat)
    requires a < 100 && b < 100 && (base + 17 * a) % 100 == (base + 17 * b) % 100
    ensures a == b
  {
    var q := (base + 17 * a) / 100 - (base + 17 * b) / 100;
    assert 17 * (a - b) == 100 * q;
    assert a - b == 100 * (53 * q) - 900 * (a - b);
  }

  // ---------------------------------------------------------------- rows per wallet

  /** The first twelve counts are the requested ones; later ones keep within two of them, and below 46. */
  lemma CountsFollowThePattern(i: nat)
    ensures TransactionCount(0) == 28 && TransactionCount(1) == 32 && TransactionCount(2) == 36 && TransactionCount(3) == 40
    ensures TransactionCount(4) == 45 && TransactionCount(5) == 30 && TransactionCount(6) == 34 && TransactionCount(7) == 38
    ensures TransactionCount(8) == 42 && TransactionCount(9) == 29 && TransactionCount(10) == 33 && TransactionCount(11) == 37
    ensures i >= 12 ==> TransactionCount(i) == Min(45, TransactionCount(i % 12) + [-2, 0, 2, -1, 1][i % 5])
  {
  }

  // ---------------------------------------------------------------- who pays whom

  /** Money comes in from clearing and goes out to clearing, a fee to revenue, a transfer to its target. */
  lemma SidesIff(kind: Kind, ownerLeg: Leg, owner: Id, target: Id, clearing: Id, revenue: Id)
    ensures var s := Sides(kind, ownerLeg, owner, Some(target), clearing, revenue);
            match kind
            case Deposit => s.0 == clearing && s.1 == owner
            case Withdrawal => s.0 == owner && s.1 == clearing
            case Fee => s.0 == owner && s.1 == revenue
            case Transfer => s.0 == owner && s.1 == target
            case Adjustment => if ownerLeg.Credit? then s == (clearing, owner) else s == (owner, clearing)
            case Reversal => if ownerLeg.Credit? then s == (clearing, owner) else s == (owner, clearing)
  {
  }

  /** The rows of one wallet by kind and status, in the order they are made. */
  lemma CoverageOrder(n: nat, owner: Id, c: Currency, k: nat, s: nat)
    requires k < 6 && s < 4
    ensures CoverageRow(n, k, s, owner, c).kind == [Deposit, Withdrawal, Transfer, Fee, Adjustment, Reversal][k]
    ensures CoverageRow(n, k, s, owner, c).status == [Posted, Pending, Failed, Reversed][s]
  {
  }

  /**
   Deposits are credits, withdrawals, transfers and fees debits; adjustments alternate from a credit on, reversals from
   a debit on.
   */
  lemma CoverageSigns(setup: Setup, n: nat, r: nat, index: nat, c: Currency, k: nat, s: nat)
    requires r < |setup.refs| && k < 6 && s < 4
    ensures var p, owner := CoveragePosting(setup, n, r, index, c, k, s), setup.refs[r].wallets.Of(c);
            if k == 0 || (k == 4 && s % 2 == 0) || (k == 5 && s % 2 == 1) then p.credited == owner
            else p.debited == owner
  {
    CoverageOrder(n, setup.refs[r].wallets.Of(c), c, k, s);
  }

  lemma ShiftedIndex(index: nat, shift: nat, n: nat)
    requires index < n
    ensures (index + shift) % n == index <==> shift % n == 0
  {
    Shifted(index, shift, n, shift / n, shift % n);
  }

  lemma Shifted(index: nat, shift: nat, n: nat, q: nat, r: nat)
    requires index < n && shift == n * q + r && r < n
    ensures (index + shift) % n == index <==> r == 0
  {
    if index + r < n {
      Unique(index + shift, n, q, index + r);
    } else {
      assert n * (q + 1) == n * q + n;
      Unique(index + shift, n, q + 1, index + r - n);
    }
  }

  lemma AtLeast(n: nat, k: nat)
    requires k >= 1
    ensures n * k >= n
  {
  }

  lemma Unique(x: nat, n: nat, q: nat, r: nat)
    requires r < n && x == n * q + r
    ensures x % n == r
  {
    var p, t := x / n, x % n;
    assert x == n * p + t;
    assert n * (p - q) == r - t;
    if p < q {
      AtLeast(n, q - p);
    } else if p > q {
      AtLeast(n, p - q);
    }
  }

  /**
   A coverage transfer of customer `r` goes to the customer itself exactly when the number of customers divides both
   steps the formula takes. With the script's 1500 customers it never does.
   */
  lemma TransfersToItselfIff(refs: seq<CustomerRef>, r: nat, currencyIndex: nat, s: nat)
    requires r < |refs| && currencyIndex < 3 && s < 4
    requires forall i, j :: 0 <= i < j < |refs| ==> refs[i].id != refs[j].id
    ensures CoverageTarget(refs, r, r + currencyIndex * 101, 2, s) == r <==>
            (currencyIndex * 101 + 71 + s * 31) % |refs| == 0 && (currencyIndex * 101 + 1) % |refs| == 0
    ensures |refs| == 1500 ==> CoverageTarget(refs, r, r + currencyIndex * 101, 2, s) != r
  {
    ShiftedIndex(r, currencyIndex * 101 + 71 + s * 31, |refs|);
    ShiftedIndex(r, currencyIndex * 101 + 1, |refs|);
    var candidate := Modulo(r + currencyIndex * 101 + 2 * 17 + s * 31 + 37, |refs|);
    assert candidate != r ==> refs[candidate].id != refs[r].id;
  }
}
