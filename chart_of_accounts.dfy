/** The chart of accounts (backend/models/ChartOfAccount.js): accounts with a
    normal-balance polarity and a running balance, arranged in a tree by an
    optional parent id, and the per-type listing used for statements. */
module ChartOfAccounts {
  import opened Wrappers
  import opened Text

  type AccountId = nat
  type CompanyId = nat

  datatype AccountType = Asset | Liability | Equity | Revenue | Expense | CostOfGoodsSold

  /** `normal_balance`: the side on which the account grows. */
  datatype NormalBalance = DebitNormal | CreditNormal

  // ---------------------------------------------------------------------
  // Balance polarity
  // ---------------------------------------------------------------------

  /** The balance `updateBalance(amount, isDebit)` leaves behind: an entry on
      the account's normal side raises the balance by `amount`, an entry on
      the opposite side lowers it by `amount`. */
  function Adjusted(balance: real, normal: NormalBalance, amount: real, isDebit: bool): (r: real)
    ensures isDebit == (normal == DebitNormal) ==> r == balance + amount
    ensures isDebit != (normal == DebitNormal) ==> r == balance - amount
  {
    var adjustment := if isDebit then amount else -amount;
    if normal == DebitNormal then balance + adjustment else balance - adjustment
  }

  /** Re-applying an entry with the negated amount and the same side restores
      the balance exactly. */
  lemma AdjustedReversed(balance: real, normal: NormalBalance, amount: real, isDebit: bool)
    ensures Adjusted(Adjusted(balance, normal, amount, isDebit), normal, -amount, isDebit) == balance
  {
  }

  /** An entry of amount zero leaves the balance as it was. */
  lemma AdjustedByZero(balance: real, normal: NormalBalance, isDebit: bool)
    ensures Adjusted(balance, normal, 0.0, isDebit) == balance
  {
  }

  // ---------------------------------------------------------------------
  // updateBalance on the values the database reads back
  // ---------------------------------------------------------------------

  /** An `amount` as `updateBalance` receives it: a JavaScript number, or the
      string a DECIMAL column reads back as (such as "500.00"), together with
      the number it spells. */
  datatype JsAmount = JsNumber(value: real) | DecimalText(text: string, value: real)

  /** The value assigned to `current_balance`: a number, or the string that
      JavaScript's `+` yields when one operand is a string. */
  datatype JsBalance = NumberValue(value: real) | StringValue(text: string)

  /** `String(x)` for a whole number `x`. */
  function IntegerText(x: int): string {
    if x < 0 then "-" + Decimal(-x) else Decimal(x)
  }

  /** The assignment in `updateBalance` as JavaScript evaluates it, for a
      stored balance that `parseFloat` reads as the whole number `balance`.
      `isDebit ? amount : -amount` passes a string through, while unary minus
      turns it into a number; `+` with a string operand concatenates, and `-`
      always subtracts. A debit of DECIMAL text on a debit-normal account is
      the one case that does not compute `Adjusted`. */
  function UpdatedBalanceAsWritten(balance: int, normal: NormalBalance, amount: JsAmount, isDebit: bool): (r: JsBalance)
    ensures r.StringValue? <==> normal == DebitNormal && isDebit && amount.DecimalText?
    ensures r.StringValue? ==> r.text == IntegerText(balance) + amount.text
    ensures r.NumberValue? ==> r.value == Adjusted(balance as real, normal, amount.value, isDebit)
  {
    var adjustment := if isDebit then amount else JsNumber(-amount.value);
    if normal == DebitNormal then
      match adjustment
      case DecimalText(text, _) => StringValue(IntegerText(balance) + text)
      case JsNumber(x) => NumberValue(balance as real + x)
    else NumberValue(balance as real - adjustment.value)
  }

  /** Posting a debit line of "500.00" to a debit-normal account holding 1000
      stores the text "1000500.00", where the numeric update gives 1500.
      Voiding negates the amount into a number, so from the stored 1000500 it
      subtracts 500 and leaves 1000000: the balance is not restored. */
  lemma DecimalTextDebitConcatenates()
    ensures UpdatedBalanceAsWritten(1000, DebitNormal, DecimalText("500.00", 500.0), true)
            == StringValue("1000500.00")
    ensures Adjusted(1000.0, DebitNormal, 500.0, true) == 1500.0
    ensures UpdatedBalanceAsWritten(1000500, DebitNormal, JsNumber(-500.0), true)
            == NumberValue(1000000.0)
  {
    SpelledThousand();
  }

  lemma SpelledThousand()
    ensures IntegerText(1000) + "500.00" == "1000500.00"
  {
    assert Decimal(1) == "1";
    assert Decimal(10) == "10";
    assert Decimal(100) == "100";
    assert Decimal(1000) == "1000";
  }

  /** An account row. Only `currentBalance` is changed by the core; the other
      columns are fixed for the purposes of this model. */
  class Account {
    const companyId: CompanyId
    const code: string
    const name: string
    const accountType: AccountType
    const normalBalance: NormalBalance
    const parentId: Option<AccountId>
    const isActive: bool
    const sortOrder: int
    var currentBalance: real

    constructor (companyId: CompanyId, code: string, name: string, accountType: AccountType,
                 normalBalance: NormalBalance, parentId: Option<AccountId>, isActive: bool,
                 sortOrder: int, currentBalance: real)
      ensures this.companyId == companyId && this.code == code && this.name == name
      ensures this.accountType == accountType && this.normalBalance == normalBalance
      ensures this.parentId == parentId && this.isActive == isActive && this.sortOrder == sortOrder
      ensures this.currentBalance == currentBalance
    {
      this.companyId := companyId;
      this.code := code;
      this.name := name;
      this.accountType := accountType;
      this.normalBalance := normalBalance;
      this.parentId := parentId;
      this.isActive := isActive;
      this.sortOrder := sortOrder;
      this.currentBalance := currentBalance;
    }

    /** `isDebitAccount`: a debit entry raises the balance exactly on a
        debit-normal account. */
    predicate IsDebitAccount()
      ensures IsDebitAccount() <==> Adjusted(0.0, normalBalance, 1.0, true) > 0.0
    {
      normalBalance == DebitNormal
    }

    /** Every account is exactly one of debit-normal and credit-normal. */
    predicate IsCreditAccount()
      ensures IsCreditAccount() <==> !IsDebitAccount()
    {
      normalBalance == CreditNormal
    }

    /** `updateBalance(amount, isDebit = true)`: only the running balance changes. */
    method UpdateBalance(amount: real, isDebit: bool := true)
      modifies this`currentBalance
      ensures currentBalance == Adjusted(old(currentBalance), normalBalance, amount, isDebit)
    {
      var adjustment := if isDebit then amount else -amount;
      if normalBalance == DebitNormal {
        currentBalance := currentBalance + adjustment;
      } else {
        currentBalance := currentBalance - adjustment;
      }
    }
  }

  // ---------------------------------------------------------------------
  // Hierarchy
  // ---------------------------------------------------------------------

  /** The loaded accounts, by id; a parent is reached through this table. */
  type Chart = map<AccountId, Account>

  /** The account's parent is present in the table. An account whose parent
      is absent is treated as a root, as `if (this.Parent)` does. */
  predicate HasLoadedParent(chart: Chart, id: AccountId)
    requires id in chart
  {
    chart[id].parentId.Some? && chart[id].parentId.value in chart
  }

  /** `rank` strictly decreases from child to parent, so the parent chain
      has no cycle and every walk up the tree ends. */
  ghost predicate Ranked(chart: Chart, rank: map<AccountId, nat>) {
    && chart.Keys <= rank.Keys
    && forall id :: id in chart && HasLoadedParent(chart, id) ==>
         rank[chart[id].parentId.value] < rank[id]
  }

  /** `getFullCode`: the codes from the root down to this account, joined by ".". */
  /** It ends with the account's own code, which a "." and more precede
      exactly when the parent is loaded. */
  function FullCode(chart: Chart, ghost rank: map<AccountId, nat>, id: AccountId): (r: string)
    requires id in chart && Ranked(chart, rank)
    ensures |r| >= |chart[id].code| && r[|r| - |chart[id].code|..] == chart[id].code
    ensures |r| > |chart[id].code| <==> HasLoadedParent(chart, id)
    ensures HasLoadedParent(chart, id) ==> r[|r| - |chart[id].code| - 1] == '.'
    decreases rank[id]
  {
    if HasLoadedParent(chart, id) then
      FullCode(chart, rank, chart[id].parentId.value) + "." + chart[id].code
    else chart[id].code
  }

  /** `getFullName`: the names from the root down to this account, joined by " > ". */
  /** It ends with the account's own name, which " > " and more precede
      exactly when the parent is loaded. */
  function FullName(chart: Chart, ghost rank: map<AccountId, nat>, id: AccountId): (r: string)
    requires id in chart && Ranked(chart, rank)
    ensures |r| >= |chart[id].name| && r[|r| - |chart[id].name|..] == chart[id].name
    ensures |r| >= |chart[id].name| + 3 <==> HasLoadedParent(chart, id)
    ensures HasLoadedParent(chart, id) ==> r[|r| - |chart[id].name| - 3..|r| - |chart[id].name|] == " > "
    decreases rank[id]
  {
    if HasLoadedParent(chart, id) then
      FullName(chart, rank, chart[id].parentId.value) + " > " + chart[id].name
    else chart[id].name
  }

  /** The ids on the way from the root of the tree down to `id`: it starts
      at a root, each step goes from a parent to its child, and it visits no
      account twice. */
  ghost function Lineage(chart: Chart, rank: map<AccountId, nat>, id: AccountId): (path: seq<AccountId>)
    requires id in chart && Ranked(chart, rank)
    ensures |path| >= 1 && path[|path| - 1] == id
    ensures forall k :: 0 <= k < |path| ==> path[k] in chart
    ensures !HasLoadedParent(chart, path[0])
    ensures forall k :: 0 < k < |path| ==>
              HasLoadedParent(chart, path[k]) && chart[path[k]].parentId.value == path[k - 1]
    ensures forall k, l :: 0 <= k < l < |path| ==> rank[path[k]] < rank[path[l]]
    ensures forall k, l :: 0 <= k < l < |path| ==> path[k] != path[l]
    decreases rank[id]
  {
    if HasLoadedParent(chart, id) then
      Lineage(chart, rank, chart[id].parentId.value) + [id]
    else [id]
  }

  function Codes(chart: Chart, path: seq<AccountId>): (r: seq<string>)
    requires forall k :: 0 <= k < |path| ==> path[k] in chart
    ensures |r| == |path| && forall k :: 0 <= k < |path| ==> r[k] == chart[path[k]].code
  {
    if path == [] then [] else Codes(chart, path[..|path| - 1]) + [chart[path[|path| - 1]].code]
  }

  function Names(chart: Chart, path: seq<AccountId>): (r: seq<string>)
    requires forall k :: 0 <= k < |path| ==> path[k] in chart
    ensures |r| == |path| && forall k :: 0 <= k < |path| ==> r[k] == chart[path[k]].name
  {
    if path == [] then [] else Names(chart, path[..|path| - 1]) + [chart[path[|path| - 1]].name]
  }

  /** The full code is the codes along the lineage, root first, joined by ".". */
  lemma {:induction false} FullCodeJoinsLineage(chart: Chart, rank: map<AccountId, nat>, id: AccountId)
    requires id in chart && Ranked(chart, rank)
    ensures FullCode(chart, rank, id) == Join(Codes(chart, Lineage(chart, rank, id)), ".")
    decreases rank[id]
  {
    if HasLoadedParent(chart, id) {
      var p := chart[id].parentId.value;
      FullCodeJoinsLineage(chart, rank, p);
      var path := Lineage(chart, rank, p) + [id];
      assert Lineage(chart, rank, id) == path;
      var cs := Codes(chart, path);
      assert path[..|path| - 1] == Lineage(chart, rank, p);
      assert cs == Codes(chart, Lineage(chart, rank, p)) + [chart[id].code];
      assert cs[..|cs| - 1] == Codes(chart, Lineage(chart, rank, p));
    }
  }

  /** The full name is the names along the lineage, root first, joined by " > ". */
  lemma {:induction false} FullNameJoinsLineage(chart: Chart, rank: map<AccountId, nat>, id: AccountId)
    requires id in chart && Ranked(chart, rank)
    ensures FullName(chart, rank, id) == Join(Names(chart, Lineage(chart, rank, id)), " > ")
    decreases rank[id]
  {
    if HasLoadedParent(chart, id) {
      var p := chart[id].parentId.value;
      FullNameJoinsLineage(chart, rank, p);
      var path := Lineage(chart, rank, p) + [id];
      assert Lineage(chart, rank, id) == path;
      var ns := Names(chart, path);
      assert path[..|path| - 1] == Lineage(chart, rank, p);
      assert ns == Names(chart, Lineage(chart, rank, p)) + [chart[id].name];
      assert ns[..|ns| - 1] == Names(chart, Lineage(chart, rank, p));
    }
  }

  /** The three-level example of the source's comments: Assets (1000) >
      Current Assets (1100) > Cash (1110). */
  lemma FullCodeAndNameExample(chart: Chart, rank: map<AccountId, nat>, assets: AccountId,
                               current: AccountId, cash: AccountId)
    requires Ranked(chart, rank) && assets in chart && current in chart && cash in chart
    requires chart[assets].code == "1000" && chart[assets].name == "Assets"
    requires chart[assets].parentId == None
    requires chart[current].code == "1100" && chart[current].name == "Current Assets"
    requires chart[current].parentId == Some(assets)
    requires chart[cash].code == "1110" && chart[cash].name == "Cash"
    requires chart[cash].parentId == Some(current)
    ensures FullCode(chart, rank, cash) == "1000.1100.1110"
    ensures FullName(chart, rank, cash) == "Assets > Current Assets > Cash"
  {
    FullCodeExample(chart, rank, assets, current, cash);
    FullNameExample(chart, rank, assets, current, cash);
  }

  lemma FullCodeExample(chart: Chart, rank: map<AccountId, nat>, assets: AccountId,
                        current: AccountId, cash: AccountId)
    requires Ranked(chart, rank) && assets in chart && current in chart && cash in chart
    requires chart[assets].code == "1000" && chart[assets].parentId == None
    requires chart[current].code == "1100" && chart[current].parentId == Some(assets)
    requires chart[cash].code == "1110" && chart[cash].parentId == Some(current)
    ensures FullCode(chart, rank, cash) == "1000.1100.1110"
  {
    assert FullCode(chart, rank, assets) == "1000";
    assert FullCode(chart, rank, current) == "1000" + "." + "1100";
    assert FullCode(chart, rank, cash) == "1000" + "." + "1100" + "." + "1110";
  }

  lemma FullNameExample(chart: Chart, rank: map<AccountId, nat>, assets: AccountId,
                        current: AccountId, cash: AccountId)
    requires Ranked(chart, rank) && assets in chart && current in chart && cash in chart
    requires chart[assets].name == "Assets" && chart[assets].parentId == None
    requires chart[current].name == "Current Assets" && chart[current].parentId == Some(assets)
    requires chart[cash].name == "Cash" && chart[cash].parentId == Some(current)
    ensures FullName(chart, rank, cash) == "Assets > Current Assets > Cash"
  {
    assert FullName(chart, rank, assets) == "Assets";
    assert FullName(chart, rank, current) == "Assets" + " > " + "Current Assets";
    assert FullName(chart, rank, cash) == "Assets" + " > " + "Current Assets" + " > " + "Cash";
    SpelledNames();
  }

  lemma SpelledNames()
    ensures "Assets" + " > " + "Current Assets" + " > " + "Cash" == "Assets > Current Assets > Cash"
  {
  }


  // ---------------------------------------------------------------------
  // getAccountsByType
  // ---------------------------------------------------------------------

  /** Code-point (lexicographic) order on codes. */
  predicate CodeLe(a: string, b: string) {
    a == [] || (b != [] && (a[0] < b[0] || (a[0] == b[0] && CodeLe(a[1..], b[1..]))))
  }

  lemma {:induction false} CodeLeTotal(a: string, b: string)
    ensures CodeLe(a, b) || CodeLe(b, a)
  {
    if a != [] && b != [] && a[0] == b[0] {
      CodeLeTotal(a[1..], b[1..]);
    }
  }

  lemma {:induction false} CodeLeTransitive(a: string, b: string, c: string)
    requires CodeLe(a, b) && CodeLe(b, c)
    ensures CodeLe(a, c)
  {
    if a != [] && b != [] && c != [] && a[0] == b[0] == c[0] {
      CodeLeTransitive(a[1..], b[1..], c[1..]);
    }
  }

  /** The listing order: `sort_order` ascending, then `code` ascending. */
  predicate KeyLe(a: Account, b: Account) {
    a.sortOrder < b.sortOrder || (a.sortOrder == b.sortOrder && CodeLe(a.code, b.code))
  }

  lemma KeyLeTotal(a: Account, b: Account)
    ensures KeyLe(a, b) || KeyLe(b, a)
  {
    CodeLeTotal(a.code, b.code);
  }

  lemma KeyLeTransitive(a: Account, b: Account, c: Account)
    requires KeyLe(a, b) && KeyLe(b, c)
    ensures KeyLe(a, c)
  {
    if a.sortOrder == b.sortOrder == c.sortOrder {
      CodeLeTransitive(a.code, b.code, c.code);
    }
  }

  predicate SortedByKey(s: seq<Account>) {
    forall i, j :: 0 <= i < j < |s| ==> KeyLe(s[i], s[j])
  }

  /** The `where` clause: same company, same type, active. */
  predicate Selected(a: Account, companyId: CompanyId, accountType: AccountType) {
    a.companyId == companyId && a.accountType == accountType && a.isActive
  }

  function Select(table: seq<Account>, companyId: CompanyId, accountType: AccountType): (r: seq<Account>)
    ensures forall a :: a in r ==> a in table && Selected(a, companyId, accountType)
    ensures forall a :: a in table ==>
              multiset(r)[a] == if Selected(a, companyId, accountType) then multiset(table)[a] else 0
  {
    if table == [] then []
    else
      var rest := Select(table[..|table| - 1], companyId, accountType);
      var last := table[|table| - 1];
      assert table == table[..|table| - 1] + [last];
      if Selected(last, companyId, accountType) then rest + [last] else rest
  }

  /** Places `a` into an ordered listing. */
  function Insert(a: Account, s: seq<Account>): (r: seq<Account>)
    requires SortedByKey(s)
    ensures SortedByKey(r) && multiset(r) == multiset(s) + multiset{a}
  {
    if s == [] then [a]
    else if KeyLe(a, s[0]) then
      forall j | 0 <= j < |s| ensures KeyLe(a, s[j]) {
        if j > 0 { KeyLeTransitive(a, s[0], s[j]); }
      }
      [a] + s
    else
      var tail := Insert(a, s[1..]);
      KeyLeTotal(a, s[0]);
      assert s == [s[0]] + s[1..];
      forall x | x in tail ensures KeyLe(s[0], x) {
        assert x in multiset(tail);
        if x != a { assert x in s[1..]; }
      }
      [s[0]] + tail
  }

  function SortByKey(s: seq<Account>): (r: seq<Account>)
    ensures SortedByKey(r) && multiset(r) == multiset(s)
  {
    if s == [] then []
    else
      assert s == s[..|s| - 1] + [s[|s| - 1]];
      Insert(s[|s| - 1], SortByKey(s[..|s| - 1]))
  }

  /** `getAccountsByType(companyId, accountType)`: exactly the active accounts
      of that company and type, each as often as in the table, listed by
      (`sort_order`, `code`). */
  function AccountsByType(table: seq<Account>, companyId: CompanyId, accountType: AccountType): (r: seq<Account>)
    ensures forall a :: a in r ==> a in table && Selected(a, companyId, accountType)
    ensures forall a :: a in table ==>
              multiset(r)[a] == if Selected(a, companyId, accountType) then multiset(table)[a] else 0
    ensures SortedByKey(r)
  {
    var selected := Select(table, companyId, accountType);
    var r := SortByKey(selected);
    forall a | a in r ensures a in selected {
      assert a in multiset(r);
    }
    r
  }
}
