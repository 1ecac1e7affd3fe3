/**
 The two shares the generation loop takes in binary floating point. The book takes them exactly; here the
 floor of the rounded product is never above the exact share, so the bounds on debits hold of the doubles too.
 */
module SeedDoubles {
  import opened SeedBook
  import opened SeedLedger

  /** The doubles nearest to 0.22, a little above it, and to 0.18, a little below. */
  const FACTOR_22 := 7926335344172073.0 / 36028797018963968.0
  const FACTOR_18 := 3242591731706757.0 / 18014398509481984.0

  /** 2^-53, the largest relative error of rounding to the nearest double. */
  const UNIT := 1.0 / 9007199254740992.0

  /** 2^46 major units, far below where whole numbers stop being doubles. */
  const LARGEST_MAJOR: nat := 0x4000_0000_0000

  predicate RoundsTo(exact: real, product: real) {
    exact - exact * UNIT <= product <= exact + exact * UNIT
  }

  /** `Math.floor(maxSpend * 0.22)` is at most 22 percent, however the product rounds. */
  lemma Share22(major: nat, product: real)
    requires major <= LARGEST_MAJOR && RoundsTo(major as real * FACTOR_22, product)
    ensures 0 <= product.Floor <= major * 22 / 100
  {
    var m, q := major as real, major * 22 / 100;
    assert m * 22.0 <= 100.0 * q as real + 99.0;
    assert product <= m * 0.22 + m * 0.0000000000000001;
    assert m <= 70368744177664.0;
  }

  /** `Math.floor(maxTransfer * 0.18)` is at most 18 percent, however the product rounds. */
  lemma Share18(major: nat, product: real)
    requires major <= LARGEST_MAJOR && RoundsTo(major as real * FACTOR_18, product)
    ensures 0 <= product.Floor <= major * 18 / 100
  {
    var m, q := major as real, major * 18 / 100;
    assert m * 18.0 <= 100.0 * q as real + 99.0;
    assert product <= m * 0.18 + m * 0.0000000000000001;
    assert m <= 70368744177664.0;
  }

  /** The debit of a withdrawal or transfer, from the plan and the share of the balance. */
  function DebitAmount(planned: int, share: int): int {
    Cents(Max(25, Min(planned, share)))
  }

  lemma SmallerShareIsCovered(balance: nat, planned: int, share: int, exact: int)
    requires share <= exact && balance > 0 && KeepsMost(balance, balance - DebitAmount(planned, exact))
    ensures KeepsMost(balance, balance - DebitAmount(planned, share)) && DebitAmount(planned, share) > 0
  {
  }

  /** A generated withdrawal computed in doubles keeps the owner at 78 percent or more. */
  lemma WithdrawalInDoublesCovered(c: Currency, balance: nat, index: nat, j: nat, product: real)
    requires balance >= Cents(CurrencyMajor(c, 10_000)) && balance / 100 <= LARGEST_MAJOR
    requires RoundsTo((balance / 100) as real * FACTOR_22, product)
    ensures var planned := CurrencyMajor(c, 18_000 + (index * 211 + j * 503) % 42_000);
            DebitAmount(planned, product.Floor) > 0 && KeepsMost(balance, balance - DebitAmount(planned, product.Floor))
  {
    Share22(balance / 100, product);
    WithdrawalCovered(c, balance, index, j);
    SmallerShareIsCovered(balance, CurrencyMajor(c, 18_000 + (index * 211 + j * 503) % 42_000), product.Floor,
        ShareOf(balance, 22));
  }

  /** So does a generated transfer. */
  lemma TransferInDoublesCovered(c: Currency, balance: nat, index: nat, j: nat, product: real)
    requires balance >= Cents(CurrencyMajor(c, 15_000)) && balance / 100 <= LARGEST_MAJOR
    requires RoundsTo((balance / 100) as real * FACTOR_18, product)
    ensures var planned := CurrencyMajor(c, 6_000 + (index * 157 + j * 313) % 37_000);
            DebitAmount(planned, product.Floor) > 0 && KeepsMost(balance, balance - DebitAmount(planned, product.Floor))
  {
    Share18(balance / 100, product);
    TransferCovered(c, balance, index, j);
    SmallerShareIsCovered(balance, CurrencyMajor(c, 6_000 + (index * 157 + j * 313) % 37_000), product.Floor,
        ShareOf(balance, 18));
  }
}
