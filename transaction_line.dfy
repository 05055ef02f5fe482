/** One leg of a ledger transaction (backend/models/TransactionLine.js): its
    validation rules, its debit/credit accessors and the line total computed
    from quantity, unit price, discount and tax. */
module TransactionLines {
  import opened ChartOfAccounts

  /** The columns of a line that the core reads. Amounts are exact decimals. */
  datatype Line = Line(
    lineNumber: int,
    accountId: AccountId,
    debit: real,
    credit: real,
    quantity: real,
    unitPrice: real,
    discountPercentage: real,
    taxRate: real)

  /** The validation failures a line can raise, in the order they are checked:
      the column constraints first, then the two model-level validators. */
  datatype LineError =
    | LineNumberBelowOne
    | NegativeDebit
    | NegativeCredit
    | DiscountOutOfRange
    | NeitherDebitNorCredit
    | BothDebitAndCredit

  /** `debitOrCreditRequired`: rejects a line whose two amounts are both zero. */
  predicate DebitOrCreditRequired(l: Line) {
    !(l.debit == 0.0 && l.credit == 0.0)
  }

  /** `debitAndCreditMutuallyExclusive`: rejects a line with both amounts positive. */
  predicate DebitAndCreditMutuallyExclusive(l: Line) {
    !(l.debit > 0.0 && l.credit > 0.0)
  }

  /** A line that passes every rule: the column minima (`line_number` from 1,
      no negative amount), the discount range 0..100, and the two model
      validators. */
  predicate WellFormed(l: Line) {
    && l.lineNumber >= 1
    && l.debit >= 0.0 && l.credit >= 0.0
    && 0.0 <= l.discountPercentage <= 100.0
    && DebitOrCreditRequired(l)
    && DebitAndCreditMutuallyExclusive(l)
  }

  /** Every failed rule, as Sequelize collects them before saving a line.
      A line passes exactly when it is well-formed. */
  function Validate(l: Line): (errors: seq<LineError>)
    ensures errors == [] <==> WellFormed(l)
    ensures NeitherDebitNorCredit in errors <==> l.debit == 0.0 && l.credit == 0.0
    ensures BothDebitAndCredit in errors <==> l.debit > 0.0 && l.credit > 0.0
    ensures DiscountOutOfRange in errors <==> !(0.0 <= l.discountPercentage <= 100.0)
  {
    (if l.lineNumber < 1 then [LineNumberBelowOne] else [])
    + (if l.debit < 0.0 then [NegativeDebit] else [])
    + (if l.credit < 0.0 then [NegativeCredit] else [])
    + (if l.discountPercentage < 0.0 || l.discountPercentage > 100.0 then [DiscountOutOfRange] else [])
    + (if !DebitOrCreditRequired(l) then [NeitherDebitNorCredit] else [])
    + (if !DebitAndCreditMutuallyExclusive(l) then [BothDebitAndCredit] else [])
  }

  /** `isDebit`. */
  predicate IsDebit(l: Line) {
    l.debit > 0.0
  }

  /** `isCredit`. */
  predicate IsCredit(l: Line) {
    l.credit > 0.0
  }

  /** A line that passes validation is a debit or a credit, never both: the
      amounts are not negative, not both zero and not both positive. */
  lemma WellFormedIsOneSided(l: Line)
    requires WellFormed(l)
    ensures IsDebit(l) != IsCredit(l)
  {
  }

  /** `getAmount`: the larger of the two amounts; on a well-formed line, the
      positive one, so the line's magnitude. */
  function Amount(l: Line): (r: real)
    ensures r >= l.debit && r >= l.credit && (r == l.debit || r == l.credit)
    ensures WellFormed(l) ==> r > 0.0 && r == if IsDebit(l) then l.debit else l.credit
  {
    if l.debit >= l.credit then l.debit else l.credit
  }

  /** `calculateTotal`: quantity times unit price, less the discount
      percentage, plus the tax rate taken as a percentage of what remains. */
  function CalculateTotal(l: Line): (r: real)
    ensures r == l.quantity * l.unitPrice * (1.0 - l.discountPercentage / 100.0) * (1.0 + l.taxRate / 100.0)
  {
    var subtotal := l.quantity * l.unitPrice;
    var discount := subtotal * (l.discountPercentage / 100.0);
    var afterDiscount := subtotal - discount;
    var tax := afterDiscount * (l.taxRate / 100.0);
    afterDiscount + tax
  }

  /** Without discount and tax the total is quantity times unit price. */
  lemma TotalWithoutDiscountOrTax(l: Line)
    requires l.discountPercentage == 0.0 && l.taxRate == 0.0
    ensures CalculateTotal(l) == l.quantity * l.unitPrice
  {
  }

  /** A full discount brings the total to zero, whatever the tax. */
  lemma TotalWithFullDiscount(l: Line)
    requires l.discountPercentage == 100.0
    ensures CalculateTotal(l) == 0.0
  {
  }

  /** Within the column ranges, and with a tax rate no lower than -100,
      the total of a non-negative quantity at a non-negative price is not negative. */
  lemma TotalNonNegative(l: Line)
    requires l.quantity >= 0.0 && l.unitPrice >= 0.0
    requires 0.0 <= l.discountPercentage <= 100.0 && l.taxRate >= -100.0
    ensures CalculateTotal(l) >= 0.0
  {
    var subtotal := l.quantity * l.unitPrice;
    assert subtotal >= 0.0;
    var afterDiscount := subtotal * (1.0 - l.discountPercentage / 100.0);
    assert afterDiscount >= 0.0;
    assert CalculateTotal(l) == afterDiscount * (1.0 + l.taxRate / 100.0);
  }
}
