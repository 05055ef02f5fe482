/** The ledger transaction (backend/models/Transaction.js): the
    draft -> posted -> voided life cycle, the debit/credit balance test,
    the propagation of line amounts into account balances and its exact
    reversal, and reference numbering. */
module Transactions {
  import opened Wrappers
  import opened Text
  import opened ChartOfAccounts
  import opened TransactionLines

  datatype Status = Draft | Posted | Voided

  datatype TransactionError =
    | NotDraft     // "Only draft transactions can be posted"
    | Unbalanced   // "Transaction is not balanced: debits must equal credits"
    | NotPosted    // "Only posted transactions can be voided"

  /** Dates are read from the clock in the source; here they are passed in. */
  type Timestamp = int

  // ---------------------------------------------------------------------
  // Debit and credit totals
  // ---------------------------------------------------------------------

  /** `lines.reduce((sum, line) => sum + debit, 0)`: the debits summed in
      line order. No debit is negative on lines that passed validation, and
      then neither is the sum. */
  function TotalDebits(lines: seq<Line>): (r: real)
    ensures (forall i :: 0 <= i < |lines| ==> lines[i].debit >= 0.0) ==> r >= 0.0
  {
    if lines == [] then 0.0 else TotalDebits(lines[..|lines| - 1]) + lines[|lines| - 1].debit
  }

  /** The credits summed in line order, likewise never negative on
      validated lines. */
  function TotalCredits(lines: seq<Line>): (r: real)
    ensures (forall i :: 0 <= i < |lines| ==> lines[i].credit >= 0.0) ==> r >= 0.0
  {
    if lines == [] then 0.0 else TotalCredits(lines[..|lines| - 1]) + lines[|lines| - 1].credit
  }

  function Abs(x: real): real {
    if x < 0.0 then -x else x
  }

  /** The test `post` applies: debits and credits may differ by at most 0.01. */
  predicate WithinPostTolerance(lines: seq<Line>) {
    Abs(TotalDebits(lines) - TotalCredits(lines)) <= 0.01
  }

  /** `isBalanced`: the difference must be strictly below 0.01. It agrees
      with the test of `post` everywhere except at a difference of exactly
      0.01, which `post` accepts and `isBalanced` reports as unbalanced. */
  function IsBalanced(lines: seq<Line>): (r: bool)
    ensures r <==> WithinPostTolerance(lines) && Abs(TotalDebits(lines) - TotalCredits(lines)) != 0.01
  {
    Abs(TotalDebits(lines) - TotalCredits(lines)) < 0.01
  }

  /** A single debit of 0.01: the difference is exactly 0.01, so `post`
      accepts the transaction although `isBalanced` says it is not balanced.
      (0.01 - 0 is exactly the literal 0.01 in binary floating point too.) */
  lemma PostAcceptsWhatIsBalancedRejects()
    ensures var lines := [Line(1, 0, 0.01, 0.0, 1.0, 0.0, 0.0, 0.0)];
            WellFormed(lines[0]) && WithinPostTolerance(lines) && !IsBalanced(lines)
  {
    var lines := [Line(1, 0, 0.01, 0.0, 1.0, 0.0, 0.0, 0.0)];
    assert lines[..0] == [];
    assert TotalDebits(lines) == 0.01;
    assert TotalCredits(lines) == 0.0;
  }

  // ---------------------------------------------------------------------
  // Balance propagation, stated on balance maps
  // ---------------------------------------------------------------------

  /** `current_balance` of each account, by id. */
  type Balances = map<AccountId, real>

  /** `normal_balance` of each account, by id. */
  type Polarity = map<AccountId, NormalBalance>

  /** Every line refers to an account present in both maps. */
  predicate Covers(b: Balances, normals: Polarity, lines: seq<Line>) {
    forall l :: l in lines ==> l.accountId in b && l.accountId in normals
  }

  /** The updates one line makes to its account: a positive debit is applied
      as a debit, a positive credit as a credit; `reverse` negates the
      amounts, as `void` does. */
  function ApplyLine(b: Balances, normals: Polarity, l: Line, reverse: bool): (r: Balances)
    requires l.accountId in b && l.accountId in normals
    ensures r.Keys == b.Keys
  {
    var id := l.accountId;
    var b1 := if l.debit > 0.0
      then b[id := Adjusted(b[id], normals[id], if reverse then -l.debit else l.debit, true)]
      else b;
    if l.credit > 0.0
      then b1[id := Adjusted(b1[id], normals[id], if reverse then -l.credit else l.credit, false)]
      else b1
  }

  /** The updates of all lines, in order. */
  function ApplyLines(b: Balances, normals: Polarity, lines: seq<Line>, reverse: bool): (r: Balances)
    requires Covers(b, normals, lines)
    ensures r.Keys == b.Keys
  {
    if lines == [] then b
    else
      var init := lines[..|lines| - 1];
      assert forall l :: l in init ==> l in lines;
      ApplyLine(ApplyLines(b, normals, init, reverse), normals, lines[|lines| - 1], reverse)
  }

  /** The fold applies the last line after all the others. */
  lemma ApplyLinesSnoc(b: Balances, normals: Polarity, lines: seq<Line>, reverse: bool)
    requires Covers(b, normals, lines) && lines != []
    ensures Covers(b, normals, lines[..|lines| - 1])
    ensures ApplyLines(b, normals, lines, reverse)
            == ApplyLine(ApplyLines(b, normals, lines[..|lines| - 1], reverse), normals, lines[|lines| - 1], reverse)
  {
    assert forall l :: l in lines[..|lines| - 1] ==> l in lines;
  }

  /** What one line adds to the balance of account `id` when posted. */
  function LineEffect(normals: Polarity, l: Line, id: AccountId): real
    requires id in normals
  {
    if l.accountId != id then 0.0
    else
      (if l.debit > 0.0 then Adjusted(0.0, normals[id], l.debit, true) else 0.0)
      + (if l.credit > 0.0 then Adjusted(0.0, normals[id], l.credit, false) else 0.0)
  }

  /** What all lines add to the balance of account `id` when posted. */
  function NetEffect(normals: Polarity, lines: seq<Line>, id: AccountId): real
    requires id in normals
  {
    if lines == [] then 0.0
    else NetEffect(normals, lines[..|lines| - 1], id) + LineEffect(normals, lines[|lines| - 1], id)
  }

  /** Posting adds each account's net effect to its balance; voiding
      subtracts it. */
  lemma {:induction false} ApplyLinesAt(b: Balances, normals: Polarity, lines: seq<Line>, reverse: bool, id: AccountId)
    requires Covers(b, normals, lines) && id in b && id in normals
    ensures ApplyLines(b, normals, lines, reverse)[id]
            == b[id] + (if reverse then -NetEffect(normals, lines, id) else NetEffect(normals, lines, id))
  {
    if lines != [] {
      var init := lines[..|lines| - 1];
      assert forall l :: l in init ==> l in lines;
      ApplyLinesAt(b, normals, init, reverse, id);
    }
  }

  /** An account no line refers to keeps its balance. */
  lemma {:induction false} UntouchedAccountUnchanged(normals: Polarity, lines: seq<Line>, id: AccountId)
    requires id in normals
    requires forall l :: l in lines ==> l.accountId != id
    ensures NetEffect(normals, lines, id) == 0.0
  {
    if lines != [] {
      var init := lines[..|lines| - 1];
      assert forall l :: l in init ==> l in lines;
      UntouchedAccountUnchanged(normals, init, id);
    }
  }

  /** Voiding after posting gives back every balance exactly. */
  lemma VoidRestoresBalances(b: Balances, normals: Polarity, lines: seq<Line>)
    requires Covers(b, normals, lines)
    ensures ApplyLines(ApplyLines(b, normals, lines, false), normals, lines, true) == b
  {
    var posted := ApplyLines(b, normals, lines, false);
    var restored := ApplyLines(posted, normals, lines, true);
    forall id | id in b
      ensures restored[id] == b[id]
    {
      if id in normals {
        ApplyLinesAt(b, normals, lines, false, id);
        ApplyLinesAt(posted, normals, lines, true, id);
      } else {
        assert forall l :: l in lines ==> l.accountId != id;
        NotCoveredUnchanged(b, normals, lines, false, id);
        NotCoveredUnchanged(posted, normals, lines, true, id);
      }
    }
  }

  /** A balance whose polarity is unknown belongs to no line's account. */
  lemma {:induction false} NotCoveredUnchanged(b: Balances, normals: Polarity, lines: seq<Line>, reverse: bool, id: AccountId)
    requires Covers(b, normals, lines) && id in b
    requires forall l :: l in lines ==> l.accountId != id
    ensures ApplyLines(b, normals, lines, reverse)[id] == b[id]
  {
    if lines != [] {
      var init := lines[..|lines| - 1];
      assert forall l :: l in init ==> l in lines;
      NotCoveredUnchanged(b, normals, init, reverse, id);
    }
  }

  // ---------------------------------------------------------------------
  // The transaction record and its life cycle
  // ---------------------------------------------------------------------

  class Transaction {
    var status: Status
    /** The lines of the transaction, as `getTransactionLines` loads them. */
    const lines: seq<Line>
    /** The account of every line, as `getChartOfAccount` loads it. */
    const accounts: map<AccountId, Account>
    var postedDate: Option<Timestamp>
    var voidedDate: Option<Timestamp>
    var voidReason: Option<string>

    /** Every line's account exists (the foreign key on `account_id`), and
        distinct ids are distinct account rows. */
    ghost predicate Valid() {
      && (forall l :: l in lines ==> l.accountId in accounts)
      && (forall i, j :: i in accounts && j in accounts && i != j ==> accounts[i] != accounts[j])
    }

    ghost function Balances(): Balances
      reads accounts.Values
    {
      map id | id in accounts :: accounts[id].currentBalance
    }

    function Polarity(): Polarity {
      map id | id in accounts :: accounts[id].normalBalance
    }

    /** A new transaction is a draft, over lines whose accounts are loaded
        and distinct. */
    constructor (lines: seq<Line>, accounts: map<AccountId, Account>)
      requires forall l :: l in lines ==> l.accountId in accounts
      requires forall i, j :: i in accounts && j in accounts && i != j ==> accounts[i] != accounts[j]
      ensures Valid()
      ensures this.lines == lines && this.accounts == accounts
      ensures status == Draft && postedDate == None && voidedDate == None && voidReason == None
    {
      this.lines := lines;
      this.accounts := accounts;
      status := Draft;
      postedDate := None;
      voidedDate := None;
      voidReason := None;
    }

    /** `post()`: only a draft whose debits and credits agree within 0.01 is
        posted; every other call fails and changes nothing. A posted
        transaction has had every line applied to its account. */
    method Post(now: Timestamp) returns (outcome: Outcome<TransactionError>)
      requires Valid()
      modifies this`status, this`postedDate, accounts.Values
      ensures outcome == if old(status) != Draft then Fail(NotDraft)
                         else if !WithinPostTolerance(lines) then Fail(Unbalanced)
                         else Pass
      ensures outcome.Fail? ==>
                status == old(status) && postedDate == old(postedDate) && Balances() == old(Balances())
      ensures outcome.Pass? ==>
                && status == Posted && postedDate == Some(now)
                && Balances() == ApplyLines(old(Balances()), Polarity(), lines, false)
    {
      if status != Draft {
        return Fail(NotDraft);
      }
      var totalDebits := TotalDebits(lines);
      var totalCredits := TotalCredits(lines);
      if Abs(totalDebits - totalCredits) > 0.01 {
        return Fail(Unbalanced);
      }
      ApplyAll(false);
      status := Posted;
      postedDate := Some(now);
      outcome := Pass;
    }

    /** `void(reason)`: only a posted transaction is voided; every other call
        fails and changes nothing. A voided transaction has had every line
        applied again with its amount negated. */
    method Void(reason: Option<string>, now: Timestamp) returns (outcome: Outcome<TransactionError>)
      requires Valid()
      modifies this`status, this`voidedDate, this`voidReason, accounts.Values
      ensures outcome == if old(status) != Posted then Fail(NotPosted) else Pass
      ensures outcome.Fail? ==>
                && status == old(status) && voidedDate == old(voidedDate)
                && voidReason == old(voidReason) && Balances() == old(Balances())
      ensures outcome.Pass? ==>
                && status == Voided && voidedDate == Some(now) && voidReason == reason
                && Balances() == ApplyLines(old(Balances()), Polarity(), lines, true)
    {
      if status != Posted {
        return Fail(NotPosted);
      }
      ApplyAll(true);
      status := Voided;
      voidedDate := Some(now);
      voidReason := reason;
      outcome := Pass;
    }

    /** The loop shared by `post` and `void`: for each line, a positive debit
        is applied as a debit and a positive credit as a credit, negated when
        `reverse` holds. */
    method ApplyAll(reverse: bool)
      requires Valid()
      modifies accounts.Values
      ensures Balances() == ApplyLines(old(Balances()), Polarity(), lines, reverse)
    {
      ghost var initial := Balances();
      var i := 0;
      PrefixCovered(initial, 0);
      while i < |lines|
        invariant 0 <= i <= |lines|
        invariant Covers(initial, Polarity(), lines[..i])
        invariant Balances() == ApplyLines(initial, Polarity(), lines[..i], reverse)
      {
        NextPrefix(initial, i, reverse);
        ApplyLineTo(lines[i], reverse);
        i := i + 1;
      }
      assert lines[..i] == lines;
    }

    /** The two `updateBalance` calls one line makes on its account. */
    method ApplyLineTo(line: Line, reverse: bool)
      requires Valid() && line.accountId in accounts
      modifies accounts.Values
      ensures Balances() == ApplyLine(old(Balances()), Polarity(), line, reverse)
    {
      var id := line.accountId;
      var account := accounts[id];
      ghost var before := Balances();
      if line.debit > 0.0 {
        account.UpdateBalance(if reverse then -line.debit else line.debit, true);
        BalanceChangedAt(before, id, if reverse then -line.debit else line.debit, true);
      }
      ghost var middle := Balances();
      if line.credit > 0.0 {
        account.UpdateBalance(if reverse then -line.credit else line.credit, false);
        BalanceChangedAt(middle, id, if reverse then -line.credit else line.credit, false);
      }
    }

    /** One more line of the loop: the fold over the longer prefix is the
        fold over the shorter one followed by that line. */
    lemma NextPrefix(b: Balances, i: nat, reverse: bool)
      requires Valid() && b.Keys == accounts.Keys && i < |lines|
      ensures Covers(b, Polarity(), lines[..i]) && lines[i].accountId in accounts
      ensures ApplyLines(b, Polarity(), lines[..i + 1], reverse)
              == ApplyLine(ApplyLines(b, Polarity(), lines[..i], reverse), Polarity(), lines[i], reverse)
    {
      PrefixCovered(b, i + 1);
      ApplyLinesSnoc(b, Polarity(), lines[..i + 1], reverse);
      assert lines[..i + 1][..i] == lines[..i];
      assert lines[i] in lines;
    }

    /** Every prefix of the lines refers to loaded accounts only. */
    lemma PrefixCovered(b: Balances, i: nat)
      requires Valid() && b.Keys == accounts.Keys && i <= |lines|
      ensures Covers(b, Polarity(), lines[..i])
    {
      assert forall l :: l in lines[..i] ==> l in lines;
    }

    /** After one `updateBalance` on the account of `id`, only that account's
        balance differs. */
    lemma BalanceChangedAt(before: Balances, id: AccountId, amount: real, isDebit: bool)
      requires Valid() && id in accounts && before.Keys == accounts.Keys
      requires accounts[id].currentBalance == Adjusted(before[id], accounts[id].normalBalance, amount, isDebit)
      requires forall k :: k in accounts && k != id ==> accounts[k].currentBalance == before[k]
      ensures Balances() == before[id := Adjusted(before[id], Polarity()[id], amount, isDebit)]
    {
    }
  }

  /** Posting and then voiding a transaction leaves every account balance as
      it was before the post. */
  method PostThenVoid(t: Transaction, reason: Option<string>, postedAt: Timestamp, voidedAt: Timestamp)
    returns (posted: Outcome<TransactionError>, voided: Outcome<TransactionError>)
    requires t.Valid()
    modifies t, t.accounts.Values
    ensures old(t.status) == Draft && WithinPostTolerance(t.lines) ==> posted == Pass && voided == Pass
    ensures posted == Pass && voided == Pass ==> t.status == Voided && t.Balances() == old(t.Balances())
  {
    posted := t.Post(postedAt);
    voided := t.Void(reason, voidedAt);
    if posted == Pass && voided == Pass {
      VoidRestoresBalances(old(t.Balances()), t.Polarity(), t.lines);
    }
  }

  // ---------------------------------------------------------------------
  // Reference numbers
  // ---------------------------------------------------------------------

  /** The first three characters of the upper-cased transaction type: no
      lower-case ASCII letter is left in it. */
  function ReferencePrefix(transactionType: string): (r: string)
    ensures |r| == if |transactionType| < 3 then |transactionType| else 3
    ensures forall i :: 0 <= i < |r| ==>
      r[i] == if 'a' <= transactionType[i] <= 'z' then (transactionType[i] as int - 32) as char else transactionType[i]
    ensures forall i :: 0 <= i < |r| ==> !('a' <= r[i] <= 'z')
  {
    Take(ToUpperAscii(transactionType), 3)
  }

  /** One more than the trailing number of the most recent matching
      reference; 1 when there is none or it does not end in digits. */
  function NextNumber(last: Option<string>): (n: nat)
    ensures n >= 1
  {
    match last
    case None => 1
    case Some(reference) =>
      var digits := TrailingDigits(reference);
      if digits == [] then 1 else ParseDigits(digits) + 1
  }

  /** `generateReferenceNumber`: `PREFIX-YEAR-` followed by the next number,
      zero-padded to at least four digits and never truncated. The number
      can be read back from the reference's trailing digits. */
  function GenerateReferenceNumber(transactionType: string, year: nat, last: Option<string>): (r: string)
    ensures var head := ReferencePrefix(transactionType) + "-" + Decimal(year) + "-";
            && |r| > |head| && r[..|head|] == head
            && var suffix := r[|head|..];
            && |suffix| == (if |Decimal(NextNumber(last))| >= 4 then |Decimal(NextNumber(last))| else 4)
            && AllDigits(suffix) && ParseDigits(suffix) == NextNumber(last)
            && TrailingDigits(r) == suffix
  {
    var head := ReferencePrefix(transactionType) + "-" + Decimal(year) + "-";
    var suffix := PadStart(Decimal(NextNumber(last)), 4, '0');
    ZeroPaddedDecimal(NextNumber(last), 4);
    TrailingDigitsAfterSeparator(ReferencePrefix(transactionType) + "-" + Decimal(year), '-', suffix);
    assert head + suffix == (ReferencePrefix(transactionType) + "-" + Decimal(year)) + ['-'] + suffix;
    assert (head + suffix)[|head|..] == suffix;
    head + suffix
  }

  /** Generating a reference after the previous one continues the sequence:
      its number is one higher, with no gap. */
  lemma NextReferenceFollows(transactionType: string, year: nat, last: Option<string>)
    ensures NextNumber(Some(GenerateReferenceNumber(transactionType, year, last))) == NextNumber(last) + 1
  {
  }
}
