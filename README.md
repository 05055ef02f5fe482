# Ledger posting engine of the persediaan accounting backend

This project models the double-entry core of the persediaan accounting and
inventory application and proves properties of that model:

- **Transactions** (`transaction.dfy`): the draft → posted → voided life
  cycle of a journal transaction. `post` checks that debits and credits
  agree within 0.01 and then pushes every line into its account; `void`
  pushes every line again with the amount negated. The side-effect-free
  `isBalanced` test and the `PREFIX-YEAR-NNNN` reference numbers are
  modelled too. The transaction is a class whose `status`, `postedDate`,
  `voidedDate` and `voidReason` change in place; its lines and the account
  row of every line are fixed inputs. `Post` and `Void` are proved against
  the pure fold `ApplyLines` over a map of balances.
- **Chart of accounts** (`chart_of_accounts.dfy`): an account row is a class
  whose running balance `UpdateBalance` changes in place, by a signed delta
  that depends on the account's normal balance. The account tree is an
  arena (id → account with an optional parent id). A ghost rank map
  excludes cycles and measures the recursion of `getFullCode` and
  `getFullName`. `getAccountsByType` is a filter followed by a sort on
  (`sort_order`, `code`).
- **Transaction lines** (`transaction_line.dfy`): the column ranges and the
  two model validators, the accessors, and the line total.
- **Company formatting** (`company.dfy`): the one-line postal address and
  the template-driven invoice and purchase-order numbers.
- **Access decisions** (`auth_middleware.dfy`): `authorize` and
  `checkPermission`, once a user is known or not.
- **Client session state** (`auth_context.dfy`): `initialState` and the
  `authReducer` state machine.
- **User records** (`user.dfy`): the username, password and name rules,
  `getFullName`, and the redacted copy `toSafeJSON`.

Shared pieces: `wrappers.dfy` (Option, and Outcome for operations that
throw), `json.dfy` (JavaScript values and their truthiness) and `text.dfy`
(the JavaScript string built-ins the core uses: `toString`, `padStart`,
`parseInt` on digits, `/(\d+)$/`, `join`, `replace` with a string pattern,
`trim`, `toUpperCase` and `substring`).

Money is an exact `real`, so the 0.01 tolerance is an exact comparison.
Clock reads (`new Date()`, `getFullYear()`) are parameters. Database loads
become inputs: the transaction's lines, the account of each line, the last
matching reference number, and the table of accounts.

An account whose parent id names no loaded account is treated as a root, as
`if (this.Parent)` does (backend/models/ChartOfAccount.js:162-176); no
missing-parent error is raised.

## Model

| member | source | states |
|---|---|---|
| ChartOfAccounts.Adjusted | backend/models/ChartOfAccount.js:186-193 | an entry on the account's normal side adds the amount; an entry on the other side subtracts it |
| ChartOfAccounts.AdjustedReversed | backend/models/ChartOfAccount.js:186-194 | `updateBalance(a, f)` then `updateBalance(-a, f)` gives back the original balance |
| ChartOfAccounts.AdjustedByZero | backend/models/ChartOfAccount.js:186-194 | `updateBalance(0, f)` leaves the balance unchanged |
| ChartOfAccounts.Account.UpdateBalance | backend/models/ChartOfAccount.js:186-196 | only `current_balance` changes, to the polarity-adjusted value; `isDebit` defaults to true |
| ChartOfAccounts.UpdatedBalanceAsWritten | backend/models/ChartOfAccount.js:186-193 | the JavaScript evaluation gives a string exactly for a debit of DECIMAL text on a debit-normal account, and that string is the balance's digits followed by the amount's text; every other case is the numeric `Adjusted` |
| ChartOfAccounts.DecimalTextDebitConcatenates | backend/models/Transaction.js:138-139 | a "500.00" debit on a debit-normal balance of 1000 stores "1000500.00" instead of 1500, and the void that follows leaves 1000000 |
| ChartOfAccounts.Account.IsDebitAccount | backend/models/ChartOfAccount.js:178-180 | an account is debit-normal exactly when a debit entry raises its balance |
| ChartOfAccounts.Account.IsCreditAccount | backend/models/ChartOfAccount.js:178-184 | an account is credit-normal exactly when it is not debit-normal |
| ChartOfAccounts.FullCode | backend/models/ChartOfAccount.js:162-168 | the full code ends with the account's own code, preceded by "." exactly when the parent is loaded |
| ChartOfAccounts.FullName | backend/models/ChartOfAccount.js:170-176 | the full name ends with the account's own name, preceded by " > " exactly when the parent is loaded |
| ChartOfAccounts.Lineage | backend/models/ChartOfAccount.js:162-176 | the parent chain walked by the recursion starts at a root, follows parent links and visits no account twice |
| ChartOfAccounts.FullCodeJoinsLineage | backend/models/ChartOfAccount.js:162-168 | `getFullCode` is the codes from the root down to the account, joined by "." |
| ChartOfAccounts.FullNameJoinsLineage | backend/models/ChartOfAccount.js:170-176 | `getFullName` is the names from the root down to the account, joined by " > " |
| ChartOfAccounts.FullCodeAndNameExample | backend/models/ChartOfAccount.js:162-176 | Assets/Current Assets/Cash give "1000.1100.1110" and "Assets > Current Assets > Cash" |
| ChartOfAccounts.KeyLeTransitive | backend/models/ChartOfAccount.js:206 | the (`sort_order`, `code`) order is transitive |
| ChartOfAccounts.KeyLeTotal | backend/models/ChartOfAccount.js:206 | any two accounts are comparable in that order |
| ChartOfAccounts.AccountsByType | backend/models/ChartOfAccount.js:199-208 | the result holds exactly the active accounts of the company and type, each as often as in the table, sorted by (`sort_order`, `code`) |
| TransactionLines.Validate | backend/models/TransactionLine.js:131-141 | a line passes exactly when it is well-formed; "neither" fails exactly for two zero amounts, "both" exactly for two positive amounts, and the discount rule exactly outside 0..100 |
| TransactionLines.IsDebit | backend/models/TransactionLine.js:150-152 | `isDebit` is `debit_amount > 0` (a definition; its property is in WellFormedIsOneSided) |
| TransactionLines.IsCredit | backend/models/TransactionLine.js:154-156 | `isCredit` is `credit_amount > 0` (a definition; its property is in WellFormedIsOneSided) |
| TransactionLines.WellFormedIsOneSided | backend/models/TransactionLine.js:131-156 | non-negative amounts that pass `debitOrCreditRequired` and `debitAndCreditMutuallyExclusive` make exactly one of `isDebit` and `isCredit` hold |
| TransactionLines.Amount | backend/models/TransactionLine.js:146-148 | `getAmount` is the larger amount; on a valid line it is the positive one |
| TransactionLines.CalculateTotal | backend/models/TransactionLine.js:158-164 | the stepwise total equals q·p·(1 − d/100)·(1 + t/100) |
| TransactionLines.TotalWithoutDiscountOrTax | backend/models/TransactionLine.js:158-164 | with no discount and no tax the total is quantity times price |
| TransactionLines.TotalWithFullDiscount | backend/models/TransactionLine.js:158-164 | a 100% discount makes the total 0 |
| TransactionLines.TotalNonNegative | backend/models/TransactionLine.js:50-57 | within the column ranges, a non-negative quantity and price give a non-negative total |
| Transactions.TotalDebits | backend/models/Transaction.js:128 | the debits summed in line order are not negative when no debit is |
| Transactions.TotalCredits | backend/models/Transaction.js:129 | the credits summed in line order are not negative when no credit is |
| Transactions.IsBalanced | backend/models/Transaction.js:174-180 | `isBalanced` holds exactly when `post` would accept the totals and they do not differ by exactly 0.01 |
| Transactions.PostAcceptsWhatIsBalancedRejects | backend/models/Transaction.js:128-180 | a single valid line debiting 0.01 passes the check of `post` but `isBalanced` returns false; the difference is the literal 0.01 in binary floating point as well |
| Transactions.ApplyLine | backend/models/Transaction.js:137-143 | one line's updates keep the set of accounts |
| Transactions.ApplyLines | backend/models/Transaction.js:136-144 | the updates of all lines keep the set of accounts |
| Transactions.ApplyLinesSnoc | backend/models/Transaction.js:136-144 | the lines are applied in order, the last one after all the others |
| Transactions.ApplyLinesAt | backend/models/Transaction.js:136-166 | posting adds each account's net effect to its balance; voiding subtracts it |
| Transactions.UntouchedAccountUnchanged | backend/models/Transaction.js:136-144 | an account no line refers to has a net effect of zero |
| Transactions.NotCoveredUnchanged | backend/models/Transaction.js:136-144 | a balance no line refers to is not changed by the updates |
| Transactions.VoidRestoresBalances | backend/models/Transaction.js:156-166 | voiding after posting gives back every balance exactly |
| Transactions.Transaction.constructor | backend/models/Transaction.js:33-36 | a new transaction over lines whose accounts are loaded and distinct is valid, and is a draft with no posted date, void date or reason |
| Transactions.Transaction.Post | backend/models/Transaction.js:121-149 | a non-draft fails with no change; a draft whose totals differ by more than 0.01 fails with no change; otherwise every line is applied, the status is posted and the posted date is set |
| Transactions.Transaction.Void | backend/models/Transaction.js:151-172 | anything but a posted transaction fails with no change; otherwise every line is applied negated, the status is voided and the void date and reason are set |
| Transactions.Transaction.ApplyAll | backend/models/Transaction.js:136-144 | the loop over the lines leaves the balances the fold prescribes |
| Transactions.Transaction.ApplyLineTo | backend/models/Transaction.js:137-143 | a line's two guarded `updateBalance` calls change its own account only |
| Transactions.Transaction.NextPrefix | backend/models/Transaction.js:136-144 | each turn of the loop applies the next line after all those before it |
| Transactions.Transaction.PrefixCovered | backend/models/Transaction.js:136-137 | every line's account is loaded |
| Transactions.Transaction.BalanceChangedAt | backend/models/Transaction.js:138-142 | one `updateBalance` changes one entry of the balance map |
| Transactions.PostThenVoid | backend/models/Transaction.js:121-172 | posting a balanced draft then voiding it succeeds and leaves every balance as before |
| Transactions.ReferencePrefix | backend/models/Transaction.js:184 | the prefix is the first three characters of the type (all of a shorter type), each ASCII letter upper-cased, so no lower-case letter remains |
| Transactions.NextNumber | backend/models/Transaction.js:198-204 | the next number is at least 1 |
| Transactions.GenerateReferenceNumber | backend/models/Transaction.js:183-207 | the reference is `PREFIX-YEAR-` and the number zero-padded to at least four digits, never truncated; its trailing digits parse back to the number |
| Transactions.NextReferenceFollows | backend/models/Transaction.js:198-206 | the reference after a generated one carries the next number: no gap, no repeat |
| Companies.KeptIsTruthyTrim | backend/models/Company.js:170 | `part && part.trim()` is truthy exactly for a present, non-blank part |
| Companies.KeptPartsAreKept | backend/models/Company.js:170 | every kept value is one of the parts and is not blank |
| Companies.KeptPartsEmpty | backend/models/Company.js:170 | nothing is kept exactly when every part is missing or blank |
| Companies.KeptPartsAppend | backend/models/Company.js:170 | the filter distributes over concatenation |
| Companies.UnkeptPartIsSkipped | backend/models/Company.js:170 | a blank part is dropped as if it were null |
| Companies.JoinedKeptPartsEmpty | backend/models/Company.js:170-172 | the joined parts are empty exactly when no part is kept |
| Companies.FullAddress | backend/models/Company.js:162-173 | the address is "" exactly when every part is missing or blank |
| Companies.FullAddressAllParts | backend/models/Company.js:162-173 | with all parts present, the address lists them untrimmed in the fixed order, separated by ", " |
| Companies.NumberTokenAt | backend/models/Company.js:180 | a match of `{number:(\d+)}` is `{number:`, one or more digits and `}` |
| Companies.NumberTokenRecognised | backend/models/Company.js:180 | every such token is matched with exactly its digits |
| Companies.ExpandNumberTokens | backend/models/Company.js:180-182 | the global replace as a left-to-right scan (a definition; its properties are in ExpandAfterHead, ExpandWithoutBrace and ExpandToken) |
| Companies.ExpandAfterHead | backend/models/Company.js:180-182 | text before the first '{' is copied unchanged |
| Companies.ExpandWithoutBrace | backend/models/Company.js:180-182 | text without '{' has no token and is unchanged |
| Companies.ExpandToken | backend/models/Company.js:180-182 | a token becomes the padded number and the scan continues after it |
| Companies.WidthAsWritten | backend/models/Company.js:181 | the code's width is 0, so nothing is padded, exactly when every digit after the first is a zero |
| Companies.WidthAsWrittenIgnoresFirstDigit | backend/models/Company.js:181 | the first digit of the token has no effect on the code's width |
| Companies.PaddedToTokenWidth | backend/models/Company.js:181 | with the width meant by the token, the number takes as many places as the token has digits or its own length if longer, and reads back unchanged |
| Companies.DefaultTokenWidths | backend/models/Company.js:101-103 | for the default token `0000` the code's width is 0, the meant width 4 |
| Companies.ExpandTemplate | backend/models/Company.js:175-182 | the chain of the two first-occurrence replaces and the token replace (a definition; its properties are in TemplateWithoutBrace and TemplateLayout) |
| Companies.TemplateWithoutBrace | backend/models/Company.js:175-182 | a format without '{' is returned as it is |
| Companies.PrefixAndYearReplaced | backend/models/Company.js:177-179 | only the first `{prefix}` and then only the first `{year}` are replaced |
| Companies.NumberTokenExpanded | backend/models/Company.js:180-182 | a lone token becomes the padded number in place |
| Companies.TemplateLayout | backend/models/Company.js:175-182 | `{prefix}S{year}T{number:D}U` becomes prefix, S, year, T, padded number, U |
| Companies.GenerateInvoiceNumberAsWritten | backend/models/Company.js:175-183 | the code's invoice number; a format without placeholders is returned unchanged |
| Companies.GenerateInvoiceNumber | backend/models/Company.js:175-183 | the intended invoice number; a format without placeholders is returned unchanged |
| Companies.GeneratePONumberAsWritten | backend/models/Company.js:185-193 | the code's purchase-order number; a format without placeholders is returned unchanged |
| Companies.GeneratePONumber | backend/models/Company.js:185-193 | the intended purchase-order number; a format without placeholders is returned unchanged |
| Companies.DefaultInvoiceNumberAsWritten | backend/models/Company.js:175-182 | with the default format the code yields prefix-year-number, the number unpadded |
| Companies.DefaultInvoiceNumber | backend/models/Company.js:101-103 | with the default format the intended number is padded to four digits |
| Companies.DefaultInvoiceNumberReadsBack | backend/models/Company.js:101-103 | the intended default-format number reads back from its trailing digits |
| Companies.DefaultInvoiceNumberExample | backend/models/Company.js:175-182 | "INV", 2024 and 7 give "INV-2024-7" in the code, "INV-2024-0007" as intended |
| Companies.PONumberMirrorsInvoiceNumber | backend/models/Company.js:185-193 | purchase-order numbers follow the invoice rules over their own columns |
| AuthMiddleware.Authorize | backend/middleware/auth.js:57-75 | no user gives 401; a role outside the list gives 403; otherwise the request passes |
| AuthMiddleware.AuthorizeMonotonic | backend/middleware/auth.js:66-73 | listing more roles never turns an allowed request away |
| AuthMiddleware.CheckPermission | backend/middleware/auth.js:77-102 | no user gives 401; admin always passes; another role passes exactly when the permission is truthy |
| AuthMiddleware.NullPermissionsAreEmpty | backend/middleware/auth.js:92-93 | a null permissions object acts as `{}` |
| AuthMiddleware.FalsyPermissionRefused | backend/middleware/auth.js:93-98 | a falsy permission value is refused as if absent |
| AuthMiddleware.GrantMonotonic | backend/middleware/auth.js:91-100 | granting one permission never revokes another |
| AuthMiddleware.UnauthenticatedEverywhere | backend/middleware/auth.js:59-84 | both checks answer 401 when there is no user |
| AuthContext.Reduce | frontend/src/contexts/AuthContext.js:15-71 | each action sets its fields as listed and leaves every other field alone; an unknown action changes nothing |
| AuthContext.Run | frontend/src/contexts/AuthContext.js:74 | the state after a sequence of dispatches, oldest first (a definition; its properties are in RunAppend and RunPreservesConsistent) |
| AuthContext.InitialStateConsistent | frontend/src/contexts/AuthContext.js:6-13 | the initial state is signed out with no token and no company |
| AuthContext.ReducePreservesConsistent | frontend/src/contexts/AuthContext.js:15-71 | no action leaves a token or a company behind on a signed-out state |
| AuthContext.RunPreservesConsistent | frontend/src/contexts/AuthContext.js:15-71 | the same holds after any sequence of dispatches |
| AuthContext.RunAppend | frontend/src/contexts/AuthContext.js:15-71 | dispatch sequences compose |
| AuthContext.LogoutForgetsSession | frontend/src/contexts/AuthContext.js:42-51 | the state after a logout does not depend on the state before; logging out twice is logging out once |
| AuthContext.LoginOverwritesSession | frontend/src/contexts/AuthContext.js:22-41 | after a login success or failure nothing of the earlier state is left |
| AuthContext.ClearErrorAfterSetError | frontend/src/contexts/AuthContext.js:57-67 | clearing an error just set restores the state but for loading, which stays finished |
| AuthContext.UpdateUserKeepsAuthentication | frontend/src/contexts/AuthContext.js:52-56 | an update never changes `isAuthenticated`; on a null user it yields the payload |
| Users.MatchesWordCharsIff | backend/models/User.js:17 | `/^[a-zA-Z0-9_]+$/` accepts exactly the non-empty strings of word characters |
| Users.ValidUsernameCharacters | backend/models/User.js:11-19 | a username is valid exactly when it has 3 to 50 word characters |
| Users.ValidPassword | backend/models/User.js:28-33 | a password is 6 to 255 characters (a definition of the column rule) |
| Users.ValidName | backend/models/User.js:35-47 | a first or last name is 1 to 100 characters (a definition of the column rule) |
| Users.FullName | backend/models/User.js:132-134 | the full name is the first name, one space, the last name |
| Users.FullNameSplits | backend/models/User.js:132-134 | a first name without spaces is recovered from the full name, and so is the last name |
| Users.ToSafeJson | backend/models/User.js:136-143 | none of the four sensitive keys remains; every other key keeps its value; no key is added |
| Text.Decimal | backend/models/Transaction.js:206 | `toString` gives digits that parse back to the number, one digit exactly below 10, and a leading '0' only for 0 itself |
| Text.ParseDigitsZero | backend/models/Company.js:181 | `parseInt` of digits is 0 exactly when they are all zeros |
| Text.PadStart | backend/models/Transaction.js:206 | `padStart` keeps the string as a suffix, fills to the width with the fill character and never truncates |
| Text.ZeroPaddedDecimal | backend/models/Transaction.js:206 | a zero-padded decimal still parses back to the number |
| Text.Join | backend/models/Company.js:172 | `join` of no parts is empty and of one part is that part; otherwise the result starts with the first part and ends with the separator followed by the last part |
| Text.TrailingDigits | backend/models/Transaction.js:200 | `/(\d+)$/` captures the longest all-digit suffix |
| Text.TrailingDigitsAfterSeparator | backend/models/Transaction.js:200-206 | after a non-digit separator the captured digits are exactly those appended |
| Text.ToUpperAscii | backend/models/Transaction.js:184 | upper-casing maps a–z to A–Z and keeps every other character |
| Text.Take | backend/models/Transaction.js:184 | `substring(0, n)` is the first n characters, or the whole string when shorter |
| Text.ReplaceFirst | backend/models/Company.js:178-179 | `replace` with a string pattern (a definition; its properties are in ReplaceFirstAbsent and ReplaceFirstLeftmost) |
| Text.ReplaceFirstAbsent | backend/models/Company.js:178-179 | `replace` with an absent pattern returns the string unchanged |
| Text.ReplaceFirstLeftmost | backend/models/Company.js:178-179 | `replace` with a string pattern replaces the leftmost occurrence only |
| Text.Trim | backend/models/Company.js:170 | `trim()` is the piece of the input between a blank head and a blank tail, and it neither starts nor ends with JavaScript white space |
| Text.TrimEmptyIffBlank | backend/models/Company.js:170 | `trim()` is empty exactly for a string made only of JavaScript whitespace |

## Left out

- Persistence: `save()`, `findOne`/`findAll`, `getTransactionLines`, `getChartOfAccount` and the eager-loaded parent are replaced by values passed in (the lines, the account of each line, the table of accounts, the last reference).
- Atomicity and concurrency: neither `post` nor `void` runs in a database transaction, and reference numbering reads then writes. The model is sequential. The unique indexes (company + reference, company + code) are database constraints and are not modelled.
- Each `getChartOfAccount()` call returns a fresh row object. The model gives every line with the same account id the same account object, which is what the saved rows amount to.
- Floating point: `parseFloat` and JavaScript number arithmetic in the sums, `updateBalance` and `calculateTotal` are binary floats. The model computes in exact reals and does not reproduce rounding.
- DECIMAL columns read back from PostgreSQL arrive as strings. The `=== 0` test of `debitOrCreditRequired` then never fires. The model treats every amount as a number; null amounts (`|| 0`) are not modelled, as every amount column has a default.
- ChartOfAccounts.Account.UpdateBalance: takes the amount as a number. In `post`, `updateBalance(line.debit_amount, true)` passes the DECIMAL string, and on a debit-normal account `parseFloat(current_balance) + adjustment` concatenates: 1000 and "500.00" give "1000500.00", and a fractional balance gives text such as "1000.5500.00" that the DECIMAL column rejects, part-way through the loop. `void` negates the string into a number, so posting then voiding does not restore the balance in the program, while Transactions.VoidRestoresBalances and Transactions.PostThenVoid prove it for numeric amounts. The string path is modelled by ChartOfAccounts.UpdatedBalanceAsWritten for whole-number balances only (see Findings).
- `getAccountHierarchy`: its depth-two `include` is ORM eager loading with ordering, not logic of the core.
- ChartOfAccounts.CodeLe: orders codes by code point. The database orders `code` by its collation, which may differ for letters and punctuation.
- Text.ToUpperAscii: upper-cases ASCII letters only; `toUpperCase` also maps other alphabets, and can lengthen a string (ß → SS).
- Text.ReplaceFirst: a replacement string containing `$` patterns (`$&`, `$1`) is copied literally; JavaScript would expand them.
- Transactions.NextNumber: `parseInt` of a very long digit run loses precision beyond 2^53 in JavaScript; the model's numbers are unbounded.
- Companies.GenerateInvoiceNumber: a null prefix or format column is not modelled (JavaScript would print "null" or throw); widths beyond the maximum string length, where `padStart` throws, are not modelled; a `sequenceNumber` that is not a number, or is negative, is not modelled.
- AuthMiddleware.CheckPermission: permission names that are `Object.prototype` members (`toString`, `constructor`) are truthy on `{}` in JavaScript; the model looks up own keys only. A permissions value that is a non-object JSON value is not modelled.
- Lengths are counted in Unicode scalar values. JavaScript's `.length` (used by `padStart` and `substring`) counts UTF-16 code units, which differ for characters outside the Basic Multilingual Plane. The `len` column validators follow their library's own counting rule, which is not modelled beyond a plain character count.
- Users.ValidPassword and Users.ValidName are the length rules as predicates; the password rule applies to the plain password before the hashing hook, which is not modelled.
- JWT signing and verification, bcrypt hashing and `validatePassword`, and `findByCredentials` are library or database calls.
- The React provider's effects, axios interceptors and localStorage are not part of this model; only `initialState` and `authReducer` are.
- Clocks: the posting and void dates and the years are parameters.

## Findings

| source | as written | input that shows it | evidently intended | confidence | as-written member | corrected member |
|---|---|---|---|---|---|---|
| backend/models/ChartOfAccount.js:190 | `parseFloat(current_balance) + adjustment`, where in `post` the adjustment is the DECIMAL amount as read back, a string, so `+` concatenates on a debit-normal account | balance 1000, debit line "500.00" on a debit-normal account: the stored balance becomes "1000500.00"; a void then leaves 1000000 | the amount is converted with `parseFloat` first, giving 1500, and a void restores 1000 | medium (relies on the PostgreSQL driver's default of reading DECIMAL as a string, which backend/config/database.js does not change); not executed | ChartOfAccounts.DecimalTextDebitConcatenates | ChartOfAccounts.AdjustedReversed |
| backend/models/Company.js:181 | the padding width is `parseInt(padding.slice(1))`, which drops the first digit of the token, so `{number:0000}` gives width 0 | default format `{prefix}-{year}-{number:0000}`, prefix "INV", year 2024, sequence number 7 gives "INV-2024-7" | the width is the number of digits in the token, giving "INV-2024-0007", as reference numbers are padded to four digits | high; not executed | Companies.DefaultInvoiceNumberAsWritten | Companies.DefaultInvoiceNumber |
