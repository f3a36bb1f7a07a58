# Shared-expense and personal-finance backend, modelled in Dafny

This project models the Node.js/MySQL backend of an app for shared expenses and personal finance, and proves properties of that model. The backend covers:

- **Debts between two accounts.** A creditor and a debtor, a proof of payment, and confirmation of both the debt and the payment.
- **Expense groups.** An owner, invited members who accept or reject, amounts each member owes, uploaded proofs, and the owner's review of them.
- **Group expenses.** A payer, and shares split explicitly or equally among the accepted members.
- **Monthly budgets.** A budget per personal category, with spending, summaries and alerts.
- **Backup and restore** of an account's personal-finance data.
- **The FCM push-token registry.**
- **Accounts.** Lookups, search and profile updates.

## How the model is built

- **Tables.** Each database table is a class with a `rows: map<Id, Row>` field and the next auto-increment id `next`. Its ghost predicate `Valid()` says every id is below `next`. The SQL statements of a model file are methods on that class, or functions that read it. Each method's `ensures` gives the table's whole new state.
- **Joins.** There are no foreign keys, so an insert may name an account, group or expense that does not exist. Every inner JOIN of a read query is then a filter:
  - `Joined` for both parties of a debt;
  - `HasAccount` and `MemberJoined` for member rows;
  - `OwnerExists` for groups;
  - `PayerExists`, `ExpenseJoined` and `SharerExists` for expenses and shares.
  A handler that looks a row up through such a query answers 404 for a row whose JOIN partner is missing (`DebtController.DanglingDebtUnreachable`, `ExpenseGroupController.DanglingInviteNotFound`).
- **Handlers.** Each request handler is a method of a controller module. It takes the tables it uses and the request fields, and returns an `Outcome` (`Ok`, `BadRequest`, `Forbidden`, `NotFound`, `ServerError`). Its contract gives the exact condition for each status code, and what the tables hold afterwards for each of them. Several handlers also prove an invariant:
  - `TableEvolves` for debts;
  - `MembersEvolve` for group members;
  - `SharesReferenceExpenses` for shares;
  - key uniqueness for budgets, member rows, FCM tokens and account e-mails.
- **Request fields.** A body field that the handlers read as a number or an id is a JSON value (`Js.Value`: undefined, null, a boolean, a number or a string). A free-text field (a name, note, description, proof URL, e-mail, username or FCM token) is `Option<string>`: absent or a string (see Left out). The module `Js` defines the JavaScript operations the handlers apply to values:
  - truthiness (`!x`);
  - `Number(x)`, and so `isNaN(x)`;
  - `parseFloat` and `parseInt`, which read the longest numeral at the front of the text;
  - `===` against the caller's numeric id;
  - what an INT or DECIMAL column stores when the value is bound to it (`IdValue`, `DecimalValue`). A value the column cannot take makes the statement fail, which the handler answers with 500.
  Dates are `DateInput` (absent, a date, or a string that does not parse). Route parameters are strings, which the handlers read with `parseInt`.
- **Queries.** SELECTs are functions over the maps. Filters are stated as "exactly the rows with …". `ORDER BY` is a proved sort over a lexicographic key. SQL `SUM` is `Option<real>`, with `None` when no row matches. `COUNT(DISTINCT …)` is the size of a de-duplicated column.
- **Collation.** `=` and `LIKE` on text compare under the database's case-insensitive collation (`Text.SameText`, `Text.Like`): e-mails, uids and search terms. Only ASCII letters are folded. The one exception is the FCM token column, which is taken to be binary-collated and compared exactly (see Left out).
- **Import.** `importAll` is modelled twice:
  - A value-level fold (`Import`) over a `Tab` (rows plus next id). The all-or-nothing import, its validation order and its round trip with `exportAll` are proved about this fold.
  - The imperative `ImportAll`, whose `for` loops over the three tables are proved equal to the fold.

Where the source's comments and its code disagree, the model follows the code:

- The code lets the **debtor**, not the creditor, confirm a debt (`src/controllers/debt.controller.js:310`); the comment in front of `confirmDebt` in `src/models/debt.model.js` says the creditor does.
- `getUserBalance` calls `this.getTotalPaid` inside an arrow function and array-destructures an object, so it cannot return a balance. `UserController.GetProfile` accordingly answers 500 for every existing account, and the intended formula is modelled separately (see Findings).
- `confirmPayment` does not check `paid_status` or `debt_confirm_status`, so "payment confirmed implies paid and accepted" does not hold. `DebtController.ConfirmedWithoutPayment` and `DebtController.RejectedYetSettled` exhibit this. The invariant the code does keep is `DebtController.Evolves`.
- setBudget checks the range of `Number(month)` and `Number(year)` but stores `parseInt` of them, so a month of "13x" passes the check and is stored as 13 (`MonthlyBudgetController.MonthCheckBypassed`).

## Model

| member | source | states |
|---|---|---|
| Js.ToNumber | src/controllers/group_expense.controller.js:22 | `Number(v)`: a number is itself, null and "" are 0, undefined is NaN |
| Js.ParseFloat | src/controllers/group_expense.controller.js:42 | `parseFloat(v)`: a number is itself; anything but a number or a string is NaN |
| Js.ParseInt | src/controllers/monthly_budget.controller.js:39-41 | `parseInt(v)` reads `String(v)`: a number from 1e-6 up to 1e21 in magnitude (or 0) gives its integer part, rounded toward zero; a smaller or larger one, which String writes with an exponent, gives a single signed digit; booleans, null and undefined give NaN |
| Js.ParseIntExponentForm | src/controllers/monthly_budget.controller.js:39 | that digit is the leading digit of the number: d with d·10^k ≤ \|n\| < (d+1)·10^k from 1e21 up, and the first non-zero digit after the point below 1e-6 |
| Js.LeadingDigitOfPlace | src/controllers/monthly_budget.controller.js:39 | the leading digit is the only digit d with d·10^k ≤ x < (d+1)·10^k |
| Js.ParseIntOfSmallNumbers | src/controllers/monthly_budget.controller.js:39 | parseInt(1e-7) is 1, parseInt(-5e-7) is -5, parseInt(0.000001) is 0 and parseInt(-12.75) is -12 |
| Js.ParseIntOfLargeNumbers | src/controllers/monthly_budget.controller.js:39 | parseInt(1e21) is 1 and parseInt(2.5e21) is 2 |
| Js.IdValue | src/models/group_expense_share.model.js:8-10 | what an INT column stores for v: a whole number is itself, null and undefined are refused, and a stored value is what `Number(v)` reads |
| Js.DecimalValue | src/models/expense_group_member.model.js:5-12 | what a DECIMAL column stores for v: a number is itself; undefined, null and "" are refused; a stored value is what `Number(v)` reads |
| Js.TruthinessIsNotNumber | src/controllers/group_expense.controller.js:209 | "0" is truthy and numerically 0; null and "" are falsy, not NaN, and NaN to parseFloat; undefined is falsy and NaN |
| Js.NumberAndParseFloatDiffer | src/controllers/debt.controller.js:189-215 | "12abc" is NaN to Number and 12 to parseFloat; blank text is 0 to Number and NaN to parseFloat |
| Js.ParseFloatAgrees | src/controllers/debt.controller.js:189-215 | for a text that is not blank, has no 0x, 0o or 0b prefix after its white space, and is a number to Number, parseFloat reads the same number |
| Js.DecimalValueIsParseFloat | src/controllers/expense_group.controller.js:311-319 | a text a DECIMAL column takes is the number parseFloat reads from it |
| Js.DecimalTextReadsBack | src/controllers/monthly_budget.controller.js:81 | the decimal text of n reads back as n under Number, parseFloat, parseInt and the INT column |
| Js.IdValueOfWhole | src/controllers/debt.controller.js:205-215 | a natural number, sent as a number or as its decimal text, is stored as itself |
| Text.Split | src/controllers/debt.controller.js:122 | `split(', ')` gives at least one piece |
| Text.JoinSplit | src/controllers/debt.controller.js:122 | joining the pieces of a split with ", " gives the text back |
| Text.SplitAppend | src/controllers/debt.controller.js:122 | for a non-empty s, splitting "s, e" gives the pieces of s followed by those of e |
| Text.Dedup | src/controllers/debt.controller.js:133-134 | `[...new Set(s)]`: the values of s, each once |
| Text.DedupSnoc | src/controllers/debt.controller.js:133-134 | appending a value already present leaves the Set as it was; a new one goes last |
| Text.DedupNoDuplicates | src/controllers/debt.controller.js:133-134 | a list without repeats passes through the Set unchanged |
| Text.DedupCount | src/models/expense_group.model.js:73 | COUNT(DISTINCT …) of a column is the number of its distinct values |
| Text.Upper | src/models/personal_finance.model.js:47 | `toUpperCase()` keeps the length and upper-cases each character |
| Text.UpperUnchanged | src/models/personal_finance.model.js:47-48 | text without a-z, ı or ſ is its own upper case |
| Text.Utf16Length | src/controllers/user.controller.js:74 | `q.length` counts UTF-16 code units: at least one and at most two per character |
| Text.SameTextEquivalence | src/models/account.model.js:20-26 | equality under the collation is reflexive, symmetric and transitive |
| Text.LikeContains | src/models/account.model.js:43-49 | for a term without wildcards, `s LIKE '%t%'` holds exactly when s contains t up to letter case |
| Text.LikePrefix | src/models/account.model.js:43-49 | for a term without wildcards, `s LIKE 't%'` holds exactly when s starts with t up to letter case |
| Text.LikeIgnoresCase | src/models/account.model.js:43-49 | the term "ALI" matches "alice" |
| Text.LikeUnderscores | src/models/account.model.js:43-49 | the term "__" matches every text of two or more characters |
| Text.DecimalText | src/controllers/monthly_budget.controller.js:69-88 | the decimal text of a number is non-empty and all digits |
| AccountModel.AccountTable.GetById | src/models/account.model.js:4-10 | the account with that id, or null exactly when there is none |
| AccountModel.AccountTable.GetByUid | src/models/account.model.js:12-18 | an account whose uid equals the given one up to ASCII case; null exactly when no account's does |
| AccountModel.AccountTable.GetByEmail | src/models/account.model.js:20-26 | an account whose e-mail equals the given one under the collation; null exactly when no account's does |
| AccountModel.AccountTable.Create | src/models/account.model.js:28-34 | the row is inserted under a fresh id, which is returned; no other row changes |
| AccountModel.AccountTable.UpdateProfile | src/models/account.model.js:36-41 | username and e-mail of that row are both overwritten (absent becomes null); an unknown id changes nothing |
| AccountModel.AccountTable.SearchUsers | src/models/account.model.js:43-49 | at most 20 distinct ids, each an account whose username or e-mail is LIKE %term%, with wildcards and case as the collation treats them, and not the excluded one. When fewer than 20 come back, every match is among them |
| AccountModel.MatchesPlain | src/models/account.model.js:43-49 | for a term without % or _, an account matches exactly when its username or e-mail contains the term up to letter case |
| UserController.GetProfile | src/controllers/user.controller.js:5-33 | 404 exactly for an unknown account; every known account gets 500, because the balance call throws |
| UserController.ProfileNeverServed | src/controllers/user.controller.js:15 | no caller ever receives the profile (finding, as written) |
| UserController.GetProfileFixed | src/controllers/user.controller.js:5-33 | corrected handler: 200 exactly for known accounts. The balance is total paid minus total owed, with missing sums as 0, and is 0 for a user who neither paid nor owes |
| UserController.ProfileFixedServes | src/controllers/user.controller.js:8-15 | for every known account the corrected handler answers 200 where the written one answers 500 |
| UserController.UpdateProfile | src/controllers/user.controller.js:36-66 | 400 exactly when neither field is given, or the e-mail belongs (under the collation) to another account. Otherwise both columns are overwritten, and e-mail uniqueness is preserved |
| UserController.OnlyHolder | src/controllers/user.controller.js:49-52 | with distinct e-mails, when getByEmail finds the caller or nobody, no other account holds the address |
| UserController.UpdateKeepsUnique | src/controllers/user.controller.js:49-59 | writing an e-mail no other account holds keeps e-mails unique |
| UserController.SearchUsers | src/controllers/user.controller.js:69-88 | 400 exactly when q is missing or shorter than 2 UTF-16 code units; otherwise the accounts LIKE q, the caller excluded, at most 20 and all of them when fewer |
| DebtModel.NewDebt | src/models/debt.model.js:4-10 | a new debt is pending, unpaid and unconfirmed, has no proof, and stores an absent note or due date as null |
| DebtModel.DebtTable.Create | src/models/debt.model.js:4-10 | NewDebt is inserted under the next id, which is returned |
| DebtModel.DebtTable.GetById | src/models/debt.model.js:26-37 | the debt with that id, or null exactly when there is none or one of its parties has no account |
| DebtModel.DebtTable.ReportPayment | src/models/debt.model.js:40-49 | only paid_status := paid, payment := unconfirmed and the proof change, on that row only |
| DebtModel.DebtTable.ConfirmDebt | src/models/debt.model.js:52-59 | only the debt status of that row becomes accepted |
| DebtModel.DebtTable.ConfirmPayment | src/models/debt.model.js:62-69 | only the payment status of that row becomes confirmed |
| DebtModel.DebtTable.RejectDebt | src/models/debt.model.js:72-79 | only the debt status of that row becomes rejected |
| DebtModel.DebtTable.Delete | src/models/debt.model.js:81-83 | exactly the row with that id is removed |
| DebtModel.DebtTable.Update | src/models/debt.model.js:85-92 | amount, note and due date are overwritten (absent becomes null); the status columns are kept |
| DebtModel.DebtTable.ByUser | src/models/debt.model.js:12-24 | exactly the debts where the user is creditor or debtor and both parties have accounts, newest first |
| DebtModel.DebtTable.PendingDebts | src/models/debt.model.js:95-107 | exactly the user's joined debts still pending, newest first |
| DebtModel.DebtTable.UnpaidDebts | src/models/debt.model.js:110-122 | exactly the user's joined unpaid debts, newest first |
| DebtController.EvolvesTransitive | src/controllers/debt.controller.js:248-508 | the per-row evolution every handler keeps holds across any sequence of calls |
| DebtController.InsertEvolves | src/controllers/debt.controller.js:208-218 | inserting a debt with a positive amount under a new id is an allowed evolution |
| DebtController.CreateDebt | src/controllers/debt.controller.js:175-234 | 400 exactly for a falsy party or amount, an amount that is NaN or not above 0, or an unparsable due date. 403 exactly when neither party field is `===` the caller's id (a string id never is). 500 when an id is not a whole number or parseFloat reads no number. Otherwise one NewDebt with the stored ids and parseFloat(amount). Nothing is written on refusal, and every amount stays positive |
| DebtController.CreateOutcome | src/controllers/debt.controller.js:175-215 | the answer before any write: success only with a parseFloat amount above 0 and two storable ids, one of them the caller's |
| DebtController.WholeCaller | src/controllers/debt.controller.js:205-215 | the caller's id, sent as a number, is stored as itself |
| DebtController.ReportPayment | src/controllers/debt.controller.js:248-295 | 400 without a proof or when already paid; 404 when getById finds nothing; 403 for a caller who is not the debtor. Otherwise the debt becomes paid and unconfirmed and stores the proof, whatever its debt status. Rows evolve as Evolves allows |
| DebtController.ConfirmDebt | src/controllers/debt.controller.js:298-339 | 404 not found, 403 not the debtor, 400 not pending; otherwise pending becomes accepted and nothing else changes |
| DebtController.ConfirmPayment | src/controllers/debt.controller.js:342-383 | 404 not found, 403 not the creditor, 400 already confirmed; otherwise the payment becomes confirmed, whatever the paid and debt status |
| DebtController.RejectDebt | src/controllers/debt.controller.js:386-427 | 404 not found, 403 not the creditor, 400 not pending; otherwise pending becomes rejected |
| DebtController.DeleteDebt | src/controllers/debt.controller.js:429-438 | always 200; the row is removed without any check of caller or state |
| DebtController.UpdateDebt | src/controllers/debt.controller.js:439-508 | 400 for a falsy, NaN or non-positive amount or an unparsable date; then 404/403 for a debt not found or a caller who is no party; 400 once the payment is confirmed; 500 when parseFloat reads no number. On success only amount, note and due date change |
| DebtController.BlankAmountFails | src/controllers/debt.controller.js:454-498 | an amount of blank text passes the guard yet parseFloat reads NaN from it |
| DebtController.ConfirmPaymentTwice | src/controllers/debt.controller.js:342-383 | after a successful confirmPayment, a second one on the same debt is refused with 400 and changes nothing |
| DebtController.SettledIsFinal | src/controllers/debt.controller.js:248-508 | a paid and confirmed debt is refused by reportPayment, confirmPayment and updateDebt, and stays unchanged |
| DebtController.TwoAccounts | src/models/account.model.js:28-34 | a table holding accounts 1 and 2 |
| DebtController.ConfirmedWithoutPayment | src/controllers/debt.controller.js:342-383 | a debt can reach "payment confirmed" while unpaid and still pending |
| DebtController.RejectedYetSettled | src/controllers/debt.controller.js:248-427 | a rejected debt can still be paid and have its payment confirmed |
| DebtController.ConfirmationReset | src/controllers/debt.controller.js:248-295 | a payment confirmed before it was reported is reset to unconfirmed by the later report |
| DebtController.DanglingDebtUnreachable | src/controllers/debt.controller.js:175-383 | a debt with a debtor who has no account is created, and confirmPayment then answers 404; a debtor id sent as the string "2" is accepted |
| DebtController.EmailList | src/controllers/debt.controller.js:121-134 | exactly the pieces of the ", "-separated column that are not empty or all white space (as `trim` defines it), each once; empty for a NULL or empty column |
| DebtController.EmailListAppend | src/controllers/debt.controller.js:121-134 | appending an address keeps the list when the address is blank or already listed, and adds it at the end otherwise, as a JavaScript Set does |
| DebtController.CreditorFullReport | src/controllers/debt.controller.js:114-141 | missing totals read as 0, both e-mail lists are cleaned by EmailList, and a report with no row is all zero and empty |
| DebtController.DebtorFullReport | src/controllers/debt.controller.js:147-173 | the same cleaning for the debtor's report |
| ExpenseGroupMemberModel.AmountOrZero | src/models/expense_group_member.model.js:109 | `amount \|\| 0`: 0 for an absent amount, else the amount |
| ExpenseGroupMemberModel.Fresh | src/models/expense_group_member.model.js:5-12 | a new member row: amount 0 when none is given, the given deadline, pending, unpaid, unreviewed, no proof |
| ExpenseGroupMemberModel.MemberTable.Find | src/models/expense_group_member.model.js:15-27 | a row with that (group, account) key; none exactly when no row has it |
| ExpenseGroupMemberModel.MemberTable.GetMember | src/models/expense_group_member.model.js:15-27 | getMember: the (group, account) row when its account and its group exist; null exactly when there is no such row or one of them is missing |
| ExpenseGroupMemberModel.MemberTable.AddMember | src/models/expense_group_member.model.js:5-12 | a fresh row is inserted exactly when no row has the (group, account) key; otherwise nothing changes |
| ExpenseGroupMemberModel.InsertableOne | src/models/expense_group_member.model.js:5-12 | a one-row insert respects the key exactly when no row holds its key |
| ExpenseGroupMemberModel.InsertableCons | src/models/expense_group_member.model.js:104-114 | a multi-row insert starting with e respects the key exactly when e does and the rest does after e |
| ExpenseGroupMemberModel.InsertAll | src/models/expense_group_member.model.js:104-114 | one fresh row per entry under consecutive new ids, with every old row kept |
| ExpenseGroupMemberModel.InsertedFromUnique | src/models/expense_group_member.model.js:104-114 | the old rows plus one fresh row per entry at consecutive ids determine the table |
| ExpenseGroupMemberModel.InsertAllAppend | src/models/expense_group_member.model.js:104-114 | inserting a + b is inserting a, then b |
| ExpenseGroupMemberModel.AppendInserted | src/models/expense_group_member.model.js:104-114 | two inserts in a row describe the insert of both lists |
| ExpenseGroupMemberModel.InsertAllUnique | src/models/expense_group_member.model.js:104-114 | an insert the key admits keeps (group, account) unique |
| ExpenseGroupMemberModel.ExtensionUnique | src/models/expense_group_member.model.js:104-114 | the same for any table the insert describes |
| ExpenseGroupMemberModel.MemberTable.BulkAddMembers | src/models/expense_group_member.model.js:104-114 | all entries or none are inserted; an empty list is a no-op |
| ExpenseGroupMemberModel.WithStatus | src/models/expense_group_member.model.js:30-57 | each supplied status column takes its new value; all other columns are kept |
| ExpenseGroupMemberModel.MemberTable.UpdateMemberStatus | src/models/expense_group_member.model.js:30-57 | only the (group, account) row changes, in the supplied columns only; with none supplied nothing changes |
| ExpenseGroupMemberModel.MemberTable.UpdateMemberDetails | src/models/expense_group_member.model.js:60-67 | amount, deadline and proof of that row are written together, an absent proof as null |
| ExpenseGroupMemberModel.MemberTable.RemoveMember | src/models/expense_group_member.model.js:70-75 | exactly the rows with that (group, account) key are removed; the rest are kept unchanged |
| ExpenseGroupMemberModel.MemberTable.PendingRequests | src/models/expense_group_member.model.js:78-88 | exactly the group's pending rows whose account exists |
| ExpenseGroupMemberModel.MemberTable.UnpaidMembers | src/models/expense_group_member.model.js:91-101 | exactly the group's unpaid, accepted rows whose account exists |
| ExpenseGroupMemberModel.MemberTable.GroupMembers | src/models/expense_group.model.js:56-67 | exactly the group's member rows whose account exists, in creation order |
| ExpenseGroupModel.GroupTable.Create | src/models/expense_group.model.js:5-11 | the group is inserted under a fresh id with its owner, and an absent deadline as null |
| ExpenseGroupModel.GroupTable.GetById | src/models/expense_group.model.js:14-24 | the group, or null exactly when there is none or its owner has no account |
| ExpenseGroupModel.GroupTable.Update | src/models/expense_group.model.js:43-48 | name and deadline are overwritten (absent deadline becomes null); an unknown id changes nothing |
| ExpenseGroupModel.GroupTable.ByUser | src/models/expense_group.model.js:27-40 | each group whose owner has an account and that the user owns or has a member row in, listed once, newest first; the role is owner exactly when the user owns it |
| ExpenseGroupModel.GroupAccounts | src/models/expense_group.model.js:73 | the account column of the group's rows: exactly the accounts with a row there, one entry per row |
| ExpenseGroupModel.GroupStats | src/models/expense_group.model.js:70-85 | total_members counts the distinct accounts among the group's rows |
| ExpenseGroupModel.StatsAmountsAddUp | src/models/expense_group.model.js:76-78 | paid_amount + unpaid_amount = total_amount (NULL read as 0) |
| ExpenseGroupModel.StatsCountsAddUp | src/models/expense_group.model.js:73-75 | paid_members and unpaid_members count the paid and unpaid rows. With (group, account) unique their sum is the row count, which is total_members |
| ExpenseGroupModel.GroupAccountsDistinct | src/models/expense_group.model.js:73-75 | with (group, account) unique, the group's account column has no repeats |
| ExpenseGroupController.ExtendsEvolves | src/controllers/expense_group.controller.js:76-93 | a change that only inserts rows is an allowed evolution of the member table |
| ExpenseGroupController.OneRowEvolves | src/controllers/expense_group.controller.js:292-568 | changing one row in an allowed way is an allowed evolution of the table |
| ExpenseGroupController.InvitedIds | src/controllers/expense_group.controller.js:85-91 | the invited ids as the INT column reads them: present exactly when every one is storable, one per id in order |
| ExpenseGroupController.InvitedEntries | src/controllers/expense_group.controller.js:85-91 | one entry per invited id, in order, with amount 0 and the group's deadline |
| ExpenseGroupController.Invited | src/controllers/expense_group.controller.js:85-93 | no field, no entries; otherwise the entries exist exactly when every id is storable, and are then InvitedEntries |
| ExpenseGroupController.MembersAfterCreateSpec | src/controllers/expense_group.controller.js:76-93 | the owner's insert and the bulk insert both succeed exactly when the owner's entry followed by the invited ones respects the key. They then add the same rows as one insert of all of them, and only ever add rows |
| ExpenseGroupController.CreateSteps | src/controllers/expense_group.controller.js:76-93 | a refused owner insert stops the handler; otherwise the bulk insert runs on the table holding the owner's row |
| ExpenseGroupController.InsertCreatorAndInvited | src/controllers/expense_group.controller.js:76-93 | the member table ends as MembersAfterCreate describes |
| ExpenseGroupController.InsertInvited | src/controllers/expense_group.controller.js:85-93 | the bulk insert is refused outright for an id that is not storable; otherwise all rows or none are added |
| ExpenseGroupController.CreateGroup | src/controllers/expense_group.controller.js:49-115 | 400 exactly for a missing name or an unparsable deadline, with nothing written. Otherwise the group is inserted, then the owner's and invited rows. A refused member insert answers 500 and keeps the rows inserted before it |
| ExpenseGroupController.UpdateGroup | src/controllers/expense_group.controller.js:166-198 | 404 when getById finds nothing, 403 not the owner, 400 unparsable deadline; otherwise name and deadline are overwritten |
| ExpenseGroupController.GroupDetails | src/controllers/expense_group.controller.js:131-163 | 404 exactly when getById finds no group; 403 exactly when the caller has no member row in it and does not own it; otherwise the group, its statistics, its member rows, and isOwner exactly when the caller owns it |
| ExpenseGroupController.StoredAmount | src/controllers/expense_group.controller.js:234-240 | `amount \|\| 0` as the DECIMAL column stores it: 0 for a falsy amount, a number as itself, and what Number reads for text it takes |
| ExpenseGroupController.GetMemberOfExisting | src/models/expense_group_member.model.js:15-27 | for an existing account and group, getMember finds what the key finds |
| ExpenseGroupController.AddMember | src/controllers/expense_group.controller.js:201-254 | owner only, and the account must exist (an id that is not a whole number finds none). 400 when getMember finds a row; 500 for an amount or date the columns refuse. On success one fresh row, with amount 0 and the group's deadline as defaults |
| ExpenseGroupController.RemoveMember | src/controllers/expense_group.controller.js:257-289 | the owner or the member themself may remove, but never the owner's row; exactly the member's rows disappear |
| ExpenseGroupController.UpdateMemberAmount | src/controllers/expense_group.controller.js:292-328 | owner only; 400 exactly when the amount is NaN or parseFloat reads a negative number. 500 when parseFloat reads no number (null, "") or the deadline does not parse. Otherwise the row's amount and deadline are written and its proof is cleared |
| ExpenseGroupController.NullAmountFails | src/controllers/expense_group.controller.js:311-321 | null and "" pass the amount guard, and parseFloat reads NaN from both |
| ExpenseGroupController.UpdateMemberProof | src/controllers/expense_group.controller.js:331-369 | a proof is required and the member must be the caller. The row becomes paid with the proof, and loses its amount and deadline, whatever its previous state |
| ExpenseGroupController.AnswerInvitation | src/controllers/expense_group.controller.js:372-453 | 404 when the group or getMember finds nothing, 400 unless pending; otherwise only the join status changes to the answer |
| ExpenseGroupController.AcceptInvitation | src/controllers/expense_group.controller.js:372-411 | succeeds exactly on a pending row, which becomes accepted; so a repeat call fails |
| ExpenseGroupController.RejectInvitation | src/controllers/expense_group.controller.js:414-453 | succeeds exactly on a pending row, which becomes rejected |
| ExpenseGroupController.LeaveGroup | src/controllers/expense_group.controller.js:456-489 | 404 group not found, 400 for the owner; otherwise exactly the caller's rows in the group disappear |
| ExpenseGroupController.ReviewOf | src/controllers/expense_group.controller.js:500-506 | only "confirmed" and "rejected" are accepted review values |
| ExpenseGroupController.ConfirmMemberPayment | src/controllers/expense_group.controller.js:493-568 | a valid status, the owner as caller, and a paid row found by getMember are required. Only owner_confirm_status is written; the row stays paid |
| ExpenseGroupController.InviteTargets | src/controllers/expense_group.controller.js:96-103 | no more tokens than invited ids; each is the active token of an invited account, and every invited account with an active token has it among them |
| ExpenseGroupController.InviteNotifications | src/controllers/expense_group.controller.js:96-103 | the invitation loop, walking the ids in order, notifies exactly InviteTargets |
| ExpenseGroupController.TargetReportGuard | src/controllers/expense_group.controller.js:9-31 | 400 exactly for a zero or non-numeric userId, or a numeric month outside 1..12 or year outside 2020..2035; otherwise 403 exactly when the caller is not userId |
| ExpenseGroupController.TargetReportNaNPasses | src/controllers/expense_group.controller.js:15-26 | a month and year that parse to NaN pass every guard (finding, as written) |
| ExpenseGroupController.TargetReportGuardStrict | src/controllers/expense_group.controller.js:9-31 | corrected guard: it passes only a numeric month in 1..12 and a numeric year in 2020..2035 |
| ExpenseGroupController.TargetReportGuardsAgree | src/controllers/expense_group.controller.js:9-31 | the two guards differ exactly on a NaN month or year, which the corrected one answers with 400 |
| ExpenseGroupController.TwoAccounts | src/models/account.model.js:28-34 | a table holding accounts 1 and 2 |
| ExpenseGroupController.ProofAndAmountOverwrite | src/models/expense_group_member.model.js:60-67 | uploading a proof nulls the amount, and a later amount update nulls the proof |
| ExpenseGroupController.DanglingInviteNotFound | src/controllers/expense_group.controller.js:85-93 | a group invites an id with no account; the member row is created, but confirmMemberPayment on it answers 404 |
| GroupExpenseModel.NewestFirst | src/models/group_expense.model.js:37 | ORDER BY expense_date DESC, created_at DESC: a permutation of the ids (none repeated when none was given twice), latest date first and the newer row first within a date |
| GroupExpenseModel.ListAs | src/models/group_expense.model.js:46-51 | one listing per id, in order, whose role is payer exactly when the user paid |
| GroupExpenseModel.ListedIds | src/models/group_expense.model.js:46-51 | a listing names exactly the ids it was built from |
| GroupExpenseModel.Visible | src/models/group_expense.model.js:44-61 | exactly the kept expenses, each once, latest date first and the newer row first within a date, each with the user's role |
| GroupExpenseModel.DateKeyOrder | src/models/group_expense.model.js:37 | a list sorted on the date-then-id key runs from the latest expense date to the earliest, and from the newest row to the oldest within a date |
| GroupExpenseModel.AmountKeyOrder | src/models/group_expense.model.js:86 | a list sorted on the amount key runs from the largest share to the smallest |
| GroupExpenseModel.ExpenseTable.Create | src/models/group_expense.model.js:5-12 | inserted under the next id with the description stored as null when absent; an unparsable date inserts nothing |
| GroupExpenseModel.ExpenseTable.GetById | src/models/group_expense.model.js:15-27 | the expense, or null exactly when there is none or its payer or group is missing |
| GroupExpenseModel.ExpenseTable.Update | src/models/group_expense.model.js:64-71 | total, description and date are written together. A missing total or an unparsable date makes the statement fail and changes nothing, as does an unknown id |
| GroupExpenseModel.ExpenseTable.Delete | src/models/group_expense.model.js:74-76 | exactly that row is removed |
| GroupExpenseModel.ExpenseTable.ByGroup | src/models/group_expense.model.js:30-41 | exactly the group's expenses whose payer has an account, each once, latest expense date first and the newer row first within a date |
| GroupExpenseModel.ExpenseTable.ByUser | src/models/group_expense.model.js:44-61 | exactly the expenses whose payer and group exist and that the user paid, holds a share in, or sees as an accepted member; each once, latest date first and the newer row first within a date; the role is payer exactly when the user paid |
| GroupExpenseModel.ExpenseShares | src/models/group_expense.model.js:79-90 | exactly that expense's shares whose account exists, largest amount first |
| GroupExpenseModel.Earliest | src/models/group_expense.model.js:93-106 | MIN(expense_date) over the group: NULL exactly without expenses, else a date of one of them and not after any |
| GroupExpenseModel.Latest | src/models/group_expense.model.js:93-106 | MAX(expense_date) over the group, the mirror of Earliest |
| GroupExpenseModel.IdsEmpty | src/models/group_expense.model.js:93-106 | a selection is empty exactly when no row is kept |
| GroupExpenseModel.GroupSummaryTotals | src/models/group_expense.model.js:93-106 | the count is 0 exactly for a group without expenses, and the total is NULL exactly then |
| GroupExpenseModel.CountTimesMean | src/models/group_expense.model.js:99 | count equal parts of a total add up to the total |
| GroupExpenseModel.SummarizeAverage | src/models/group_expense.model.js:93-106 | the average is present exactly when the count is positive, and average × count = total |
| GroupExpenseModel.GroupSummaryDates | src/models/group_expense.model.js:93-106 | earliest and latest are present exactly when the count is positive, and bracket every expense date of the group |
| GroupExpenseModel.ExpenseTable.MonthlySummary | src/models/group_expense.model.js:109-121 | no row exactly when the group has no expense in that month; otherwise a positive count no larger than the group's, and the sum over that month |
| GroupExpenseShareModel.Rows | src/models/group_expense_share.model.js:8-10 | one share row per storable value, in list order |
| GroupExpenseShareModel.ShareTable.AddShares | src/models/group_expense_share.model.js:5-15 | an empty list is a no-op; otherwise one row per element is appended under consecutive ids, or nothing when a value is not storable |
| GroupExpenseShareModel.ShareTable.UpdateShare | src/models/group_expense_share.model.js:60-67 | only the (expense, account) rows get the new amount |
| GroupExpenseShareModel.ShareTable.RemoveShare | src/models/group_expense_share.model.js:70-75 | exactly the (expense, account) rows are removed |
| GroupExpenseShareModel.Without | src/models/group_expense_share.model.js:78-83 | exactly the rows of other expenses, unchanged |
| GroupExpenseShareModel.ShareTable.RemoveAllShares | src/models/group_expense_share.model.js:78-83 | exactly the shares of that expense are removed |
| GroupExpenseShareModel.SharesOf | src/models/group_expense_share.model.js:5-15 | exactly the share rows of one expense, one entry per row, in ascending id (insertion) order |
| GroupExpenseShareModel.AppendedShares | src/models/group_expense_share.model.js:5-15 | inserting the shares of an expense that had none makes them exactly its shares, in order |
| GroupExpenseShareModel.TotalOwed | src/models/group_expense_share.model.js:86-98 | the sum is NULL exactly when the user owes no share. The counts are the numbers of distinct expenses and distinct groups concerned |
| GroupExpenseShareModel.GroupsAtMostExpenses | src/models/group_expense_share.model.js:86-98 | group_count never exceeds expense_count |
| GroupExpenseShareModel.OwedAfterShare | src/models/group_expense_share.model.js:86-98 | a new share adds its amount to total_owed exactly when it is the user's and its expense exists |
| GroupExpenseShareModel.TotalPaid | src/models/group_expense_share.model.js:101-111 | the count is the number of expenses the user paid, and the sum is NULL exactly when it is 0 |
| GroupExpenseShareModel.UserBalance | src/models/group_expense_share.model.js:118-122 | balance + owed = paid, with missing totals as 0 |
| GroupExpenseShareModel.BalanceAfterShare | src/models/group_expense_share.model.js:118-122 | a new share of an existing expense lowers its account's balance by exactly its amount |
| GroupExpenseController.CheckedValue | src/controllers/group_expense.controller.js:50 | `parseFloat(amount \|\| 0)`: 0 for a falsy amount, else what parseFloat reads |
| GroupExpenseController.FalsyAmountsDiffer | src/controllers/group_expense.controller.js:50-64 | null, "" and undefined count as 0 in the sum check but are NaN to the insert; the number 0 is 0 to both |
| GroupExpenseController.SharesTotal | src/controllers/group_expense.controller.js:50 | the reduce yields a number exactly when every checked amount is one |
| GroupExpenseController.ExplicitValues | src/controllers/group_expense.controller.js:60-66 | one value per input element, in order: the expense id, the account as the INT column reads it, and parseFloat of the amount |
| GroupExpenseController.ExplicitStorable | src/controllers/group_expense.controller.js:60-66 | the values are storable exactly when every account id is a storable whole number and parseFloat reads every amount |
| GroupExpenseController.CheckedIsStored | src/controllers/group_expense.controller.js:50-66 | when the values are storable, the sum that was checked equals the sum of the stored amounts |
| GroupExpenseController.TotalIsSum | src/controllers/group_expense.controller.js:50 | the reduce over the shares is the sum of their checked values whenever each of them is a number |
| GroupExpenseController.Amounts | src/controllers/group_expense.controller.js:50-66 | the amount column of a list of share rows |
| GroupExpenseController.ExplicitAgrees | src/controllers/group_expense.controller.js:48-66 | shares that passed the 0.01 check are stored with a sum within 0.01 of the total |
| GroupExpenseController.AcceptedAccounts | src/controllers/group_expense.controller.js:69-70 | exactly the accounts with an accepted row in the group whose account exists |
| GroupExpenseController.AutoValues | src/controllers/group_expense.controller.js:68-79 | one storable share per accepted member |
| GroupExpenseController.AutoSplitSum | src/controllers/group_expense.controller.js:68-79 | with at least one accepted member, the equal shares sum to the total, one per member in order |
| GroupExpenseController.Planned | src/controllers/group_expense.controller.js:47-80 | every value handed to addShares names the new expense |
| GroupExpenseController.PlannedSum | src/controllers/group_expense.controller.js:47-80 | explicit shares keep their count and agree with the total within 0.01. Automatic shares number the accepted members and add up to the total |
| GroupExpenseController.CreatedShares | src/controllers/group_expense.controller.js:47-80 | after the insert, the new expense's shares are exactly the planned rows, with the sums PlannedSum states |
| GroupExpenseController.RecordShares | src/controllers/group_expense.controller.js:47-80 | on a mismatch the new expense is deleted and no share is written; otherwise the planned shares are appended |
| GroupExpenseController.RecordedKeepsReferences | src/controllers/group_expense.controller.js:47-80 | recording shares keeps every share pointing at an existing expense |
| GroupExpenseController.TruthyNaNTotal | src/controllers/group_expense.controller.js:14-42 | a total of `true` passes the checks, yet parseFloat reads no number from it |
| GroupExpenseController.CreateExpense | src/controllers/group_expense.controller.js:9-109 | 400 for a falsy field or a total that is NaN or not above 0. 403 exactly when the checks pass and getMember finds no row of the caller. 500 when parseFloat reads no total or the date does not parse. None of these writes anything. Otherwise the expense (group id as stored, caller as payer, parseFloat(total)) and its shares as Recorded describes |
| GroupExpenseController.StoreExpense | src/controllers/group_expense.controller.js:38-80 | 500 with nothing written for a date that is not one; otherwise the insert under the next id, then the share stage as Recorded describes |
| GroupExpenseController.WrittenTotal | src/controllers/group_expense.controller.js:217 | `total ? parseFloat(total) : undefined`: nothing for a falsy total; a total that passed the guard is positive |
| GroupExpenseController.ZeroTotals | src/controllers/group_expense.controller.js:209-217 | the string "0" is refused by the guard; the number 0, null and "" pass it but write no total |
| GroupExpenseController.GroupExpenses | src/controllers/group_expense.controller.js:112-140 | with no member row of the caller: 500 when getById finds no group (reading owner_id of null throws), 403 when the group is not the caller's; otherwise the group's expenses newest first, each with its shares. A member row is enough even when the group is not found |
| GroupExpenseController.SharesOfEach | src/controllers/group_expense.controller.js:129-132 | one share list per listed expense, in the listing's order, each that expense's getExpenseShares |
| GroupExpenseController.UpdateExpense | src/controllers/group_expense.controller.js:191-227 | 404 when getById finds nothing, 403 for a caller who is not the payer, 400 for a truthy total that is NaN or not above 0. 500 when no total is written or the date does not parse, with nothing changed. Otherwise total, description and date are written, the total is positive, and the shares are not revisited |
| GroupExpenseController.DeleteExpense | src/controllers/group_expense.controller.js:230-257 | 404 when getById finds nothing, payer only; every share of the expense is removed, then the expense |
| GroupExpenseController.UpdateExpenseShares | src/controllers/group_expense.controller.js:260-311 | 404 when getById finds nothing, payer only, with a non-empty list within 0.01 of the stored total; refusals change nothing. A value that cannot be stored answers 500 after the old shares are already removed. On success the expense's shares are exactly the new list |
| MonthlyBudgetModel.WithoutKey | src/models/monthly_budget.model.js:48-53 | exactly the rows with another key, unchanged |
| MonthlyBudgetModel.NameKeySame | src/models/monthly_budget.model.js:31 | two category names sort as equal exactly when both are NULL or they are equal under the collation |
| MonthlyBudgetModel.ListingKeyPair | src/models/monthly_budget.model.js:31 | for two listed budgets in key order: the later year and month first; within a month EXPENSE before INCOME; within a type, names in order |
| MonthlyBudgetModel.ListingKeyOrder | src/models/monthly_budget.model.js:31 | a listing sorted on the key runs newest year and month first, then by type, then by category name |
| MonthlyBudgetModel.LimitKeepsKeys | src/models/monthly_budget.model.js:5-13 | changing a limit keeps the key unique |
| MonthlyBudgetModel.NewKeyKeepsKeys | src/models/monthly_budget.model.js:5-13 | inserting an unused key keeps keys unique |
| MonthlyBudgetModel.BudgetTable.Find | src/models/monthly_budget.model.js:16-22 | the unique row with the (account, category, month, year) key, none exactly when absent |
| MonthlyBudgetModel.BudgetTable.SetBudget | src/models/monthly_budget.model.js:5-13 | afterwards the key has exactly one row with the new limit; an existing row keeps its id and only its limit changes |
| MonthlyBudgetModel.BudgetTable.GetBudget | src/models/monthly_budget.model.js:16-22 | a budget of the caller with that key, null exactly when none exists |
| MonthlyBudgetModel.BudgetTable.UpdateBudget | src/models/monthly_budget.model.js:38-45 | only the limit of the matching row changes; no matching row, no change |
| MonthlyBudgetModel.BudgetTable.DeleteBudget | src/models/monthly_budget.model.js:48-53 | exactly the matching row is removed |
| MonthlyBudgetModel.BudgetTable.ByUser | src/models/monthly_budget.model.js:25-35 | exactly the account's budgets whose category exists, sorted on the listing key (year and month descending, then type, then name) |
| MonthlyBudgetModel.SpendingOf | src/models/monthly_budget.model.js:78-90 | the count is 0 exactly when no EXPENSE-category transaction of that account, category, month and year exists; the sum is then 0 |
| MonthlyBudgetModel.SpendingAfterTransaction | src/models/monthly_budget.model.js:78-90 | a new transaction adds its amount to the spending exactly when it matches the filter |
| MonthlyBudgetModel.BudgetVsSpending | src/models/monthly_budget.model.js:75-105 | limit is the budget's limit, or 0 without one; budget_set exactly when a budget exists; remaining = limit − spent |
| MonthlyBudgetModel.ReportOfListed | src/models/monthly_budget.model.js:75-105 | the report for one of the account's budgets shows that budget's limit |
| MonthlyBudgetModel.MonthSummaryOf | src/models/monthly_budget.model.js:108-138 | the budgets are exactly the listed ones of that month and year, in listing order. budget_limit_total is their sum, remaining = total − spent, and spent covers every EXPENSE category; month and year are the ones asked for, and the transaction count is that of the spending query |
| MonthlyBudgetModel.OverBy | src/models/monthly_budget.model.js:154 | max(0, −remaining), never negative |
| MonthlyBudgetModel.CheckExceeded | src/models/monthly_budget.model.js:150-157 | exceeded exactly when remaining < 0, with over_by its absolute value, else 0 |
| MonthlyBudgetModel.ExceededMeansOverLimit | src/models/monthly_budget.model.js:150-157 | exceeded exactly when spending is over the limit, by the excess |
| MonthlyBudgetModel.Round | src/models/monthly_budget.model.js:177 | Math.round: the nearest integer, halves rounded up |
| MonthlyBudgetModel.PercentageThresholds | src/models/monthly_budget.model.js:167-178 | with a positive limit, at least 90% exactly when spent × 10 ≥ limit × 9, and over 100% exactly when spent > limit |
| MonthlyBudgetModel.AlertFor | src/models/monthly_budget.model.js:164-180 | an alert exactly at 90% or more, carrying the report's fields; exceeded exactly above 100% |
| MonthlyBudgetModel.AlertThresholds | src/models/monthly_budget.model.js:164-180 | an alert exactly with a positive limit and spending of at least 90% of it; exceeded exactly when spending is over the limit |
| MonthlyBudgetModel.AlertOf | src/models/monthly_budget.model.js:164-180 | only budgets of EXPENSE categories can alert |
| MonthlyBudgetModel.AlertOfThresholds | src/models/monthly_budget.model.js:164-180 | a budget of the account alerts exactly when its category is EXPENSE, its limit positive and its spending at least 90%. The alert carries its limit, spending and key, and says exceeded exactly above the limit |
| MonthlyBudgetModel.CollectedMembers | src/models/monthly_budget.model.js:162-181 | the loop collects exactly the alerts of the budgets it visits |
| MonthlyBudgetModel.CollectedStep | src/models/monthly_budget.model.js:162-181 | one more budget visited: its alert, if any, goes last |
| MonthlyBudgetModel.BudgetAlerts | src/models/monthly_budget.model.js:160-187 | the loop's alerts, sorted year then month descending; the sort is stable, so the alerts of each month come in the order the loop pushed them, which is the listing order |
| Tables.SortByStable | src/models/monthly_budget.model.js:183-186 | the sort is stable: the elements of any one key come out in the order they went in, as `Array.prototype.sort` keeps them |
| MonthlyBudgetModel.AlertsExactly | src/models/monthly_budget.model.js:160-187 | an alert is returned exactly when it is the alert of one of the account's listed budgets |
| MonthlyBudgetController.SetBudget | src/controllers/monthly_budget.controller.js:4-53 | 400 exactly for a falsy field, a month Number reads outside 1..12, a year outside 2020..2030, or a limit that is NaN or not above 0. 500 exactly when parseInt or parseFloat then reads NaN. Otherwise the upsert of the parsed values, with a positive limit, and a month and year sent as numbers in range |
| MonthlyBudgetController.MonthCheckBypassed | src/controllers/monthly_budget.controller.js:14-41 | the month "13x" passes the range check (Number reads it as NaN) and parseInt stores it as 13 |
| MonthlyBudgetController.ParamOfDecimal | src/controllers/monthly_budget.controller.js:81 | a route parameter holding the decimal text of n is non-empty and parseInt reads n |
| MonthlyBudgetController.GetBudget | src/controllers/monthly_budget.controller.js:69-88 | 400 exactly for an empty parameter, 500 for one parseInt reads as NaN; otherwise the caller's budget for the parsed key, or null exactly when there is none |
| MonthlyBudgetController.UpdateBudget | src/controllers/monthly_budget.controller.js:91-124 | 400 exactly for a falsy limit or one that is NaN or not above 0. 500 for a parameter parseInt reads as NaN or a limit parseFloat cannot read. Otherwise only the matching row's limit changes, to a positive value |
| MonthlyBudgetController.DeleteBudget | src/controllers/monthly_budget.controller.js:127-139 | 500 exactly for a parameter parseInt reads as NaN; otherwise exactly the matching row is removed |
| MonthlyBudgetController.GetBudgetVsSpending | src/controllers/monthly_budget.controller.js:155-179 | the guards of getBudget, then exactly the model's BudgetVsSpending report for the caller and the parsed key |
| MonthlyBudgetController.SetThenGet | src/controllers/monthly_budget.controller.js:4-88 | a budget set with valid numeric fields (a category id below 1e21, which String writes without an exponent) is what getBudget then returns for the same key given as decimal text |
| FcmTokenModel.FindKey | src/models/fcm_token.model.js:13-18 | the row holding (account, token), none exactly when no row does |
| FcmTokenModel.DeactivateWhere | src/models/fcm_token.model.js:33-46 | the matching rows become inactive and every other row is kept |
| FcmTokenModel.UpsertedSpec | src/models/fcm_token.model.js:5-21 | afterwards the account's only active token is the new one, with a fresh timestamp. Other accounts' rows are unchanged, the (account, token) key stays unique and each account keeps at most one active token |
| FcmTokenModel.ClearedSpec | src/models/fcm_token.model.js:6-10 | the first statement deactivates all of the account's rows and nothing else |
| FcmTokenModel.SetActive | src/models/fcm_token.model.js:13-18 | the insert-or-update activates exactly the (account, token) row |
| FcmTokenModel.TokenTable.Upsert | src/models/fcm_token.model.js:5-21 | the table becomes Upserted, and a new id is used exactly when the key was absent |
| FcmTokenModel.LatestActive | src/models/fcm_token.model.js:24-30 | an active row of the account with the latest updated_at; none exactly when the account has no active row |
| FcmTokenModel.TokenTable.ActiveToken | src/models/fcm_token.model.js:24-30 | a non-empty active token of the account, or null; null also covers an empty token string |
| FcmTokenModel.TokenTable.DeactivateToken | src/models/fcm_token.model.js:33-38 | every row holding that token becomes inactive, and nothing else changes |
| FcmTokenModel.TokenTable.DeactivateAllTokens | src/models/fcm_token.model.js:41-46 | the account has no active token afterwards, and other rows are unchanged |
| FcmTokenModel.TokenTable.ActiveTokenList | src/models/fcm_token.model.js:49-54 | exactly the tokens of active rows |
| FcmTokenModel.TokenTable.AllActiveTokens | src/models/fcm_token.model.js:49-54 | exactly the tokens of active rows, each once |
| FcmTokenController.RegisterToken | src/controllers/fcm_token.controller.js:4-26 | 400 exactly for an empty token; otherwise the upsert, after which the caller's active token is the new one |
| FcmTokenController.DeactivateToken | src/controllers/fcm_token.controller.js:29-60 | 200 exactly for a non-empty token equal to the caller's active token, which is then deactivated. Otherwise 400 with no change |
| BackupController.FilterByRange | src/controllers/backup.controller.js:48-59 | the input unchanged without bounds. Otherwise exactly the items with a date in from..to inclusive, in their order, dropping items without a date |
| BackupController.IsSubsequenceRefl | src/controllers/backup.controller.js:49 | a list is a subsequence of itself, as the unbounded filter returns it |
| BackupController.RangeBounds | src/controllers/backup.controller.js:55-56 | a date before from, after to, or any date in an inverted range is dropped |
| BackupController.ExpensesInRange | src/controllers/backup.controller.js:61 | expenses are filtered by their expense date |
| BackupController.DebtsInRange | src/controllers/backup.controller.js:62 | the debts kept are exactly the caller's joined debts created in range |
| BackupController.GetPersonalSpendingBackup | src/controllers/backup.controller.js:11-77 | 400 exactly for a bound that does not parse. Budgets and groups are returned whole; expenses and debts are the order-preserving subsequences in range of the JOIN-filtered listings |
| BackupController.InvalidTransactions | src/controllers/backup.controller.js:110-115 | every entry is the (id, date, amount) of a non-null transaction lacking category_id, every such transaction has its entry, and the list is empty exactly when none lacks it |
| BackupController.InvalidListSnoc | src/controllers/backup.controller.js:110-115 | one entry per lacking transaction, in payload order: a further transaction adds its entry last exactly when it lacks category_id |
| BackupController.DataErrors | src/controllers/backup.controller.js:130-135 | an import error answers 400 exactly when it is not a null item or a key violation |
| BackupController.StartsInvalid | src/controllers/backup.controller.js:131-132 | every message beginning "Invalid " is a data error |
| BackupController.NullItemLacks | src/controllers/backup.controller.js:130-135 | the null-item message holds none of the letters that begin the data-error phrases |
| BackupController.DuplicateKeyLacks | src/controllers/backup.controller.js:130-135 | the same for the duplicate-key message |
| BackupController.LacksPhrases | src/controllers/backup.controller.js:130-135 | a message without those letters is not a data error |
| BackupController.NullItemNotData | src/controllers/backup.controller.js:130-135 | the message of a null payload item is not a data error |
| BackupController.DuplicateKeyNotData | src/controllers/backup.controller.js:130-135 | the message of a duplicate-key failure is not a data error |
| BackupController.CheckedImportHasCategories | src/controllers/backup.controller.js:110-126 | an import that passed the pre-check never fails for a missing category_id |
| BackupController.RestorePersonalFinanceBackup | src/controllers/backup.controller.js:100-137 | 400 for a missing payload or transactions lacking category_id, with nothing written. Then the import: 200 with the imported store, or the error's message with 400/500 by its classification and the data as before |
| PersonalFinanceModel.ExportAll | src/models/personal_finance.model.js:6-27 | exactly the account's rows of each table. Categories by id ascending, transactions by date then id descending, budgets by year, month, id descending |
| PersonalFinanceModel.TransactionOrderMeans | src/models/personal_finance.model.js:13 | the sort key orders transactions by date descending, then id descending |
| PersonalFinanceModel.BudgetOrderMeans | src/models/personal_finance.model.js:18 | the sort key orders budgets by year, month and id descending |
| PersonalFinanceModel.Named | src/models/personal_finance.model.js:60 | `id \|\| null` keeps exactly the non-zero ids |
| PersonalFinanceModel.NamedIds | src/models/personal_finance.model.js:60 | the ids a payload names are exactly the non-zero ids of its items |
| PersonalFinanceModel.KindOf | src/models/personal_finance.model.js:47-48 | INCOME or EXPENSE exactly when the upper-cased type is that word, else rejected |
| PersonalFinanceModel.KindTextRead | src/models/personal_finance.model.js:47-48 | an exported type is read back as the same kind |
| PersonalFinanceModel.Upsert | src/models/personal_finance.model.js:52-65 | an id present in the table updates that row; otherwise the row is inserted; no other row changes and the counter never decreases |
| PersonalFinanceModel.InsertKeeps | src/models/personal_finance.model.js:105-121 | a budget item of the caller that names no held id and matches no budget key of the caller is inserted, and the table still evolves as the import allows: every row is the caller's or kept its account, and budget keys stay unique |
| PersonalFinanceModel.RekeyKeeps | src/models/personal_finance.model.js:105-121 | a budget item of the caller naming a held id rewrites that row by primary key (unless another row holds the new key, which fails), and the table still evolves as the import allows: every row is the caller's or kept its account, and budget keys stay unique |
| PersonalFinanceModel.RekeyKeepsKeys | src/models/personal_finance.model.js:105-122 | an update that takes no other row's budget key keeps the budget keys unique |
| PersonalFinanceModel.OthersRows | src/models/personal_finance.model.js:37-39 | each of the three deletes keeps exactly the rows of the other accounts, unchanged |
| PersonalFinanceModel.CategoryItems | src/models/personal_finance.model.js:7-10 | the exported category rows, in export order, as the objects a restore payload carries: one item per id, each column under the field the import reads |
| PersonalFinanceModel.TransactionItems | src/models/personal_finance.model.js:12-15 | the same for the exported transaction rows |
| PersonalFinanceModel.BudgetItems | src/models/personal_finance.model.js:17-20 | the same for the exported budget rows |
| PersonalFinanceModel.CategoryStep | src/models/personal_finance.model.js:43-66 | a null item throws (reading its fields fails); otherwise an item throws exactly for a foreign account_id or an invalid type, with that message |
| PersonalFinanceModel.CategoryStepKeeps | src/models/personal_finance.model.js:43-66 | a successful category step keeps the table valid |
| PersonalFinanceModel.TransactionStep | src/models/personal_finance.model.js:71-96 | an item throws exactly for a foreign account_id or a missing category_id, with that message |
| PersonalFinanceModel.TransactionStepKeeps | src/models/personal_finance.model.js:71-96 | a successful transaction step keeps the table valid |
| PersonalFinanceModel.KeyElsewhere | src/models/personal_finance.model.js:105-122 | whether another row already holds the budget's unique key |
| PersonalFinanceModel.BudgetStep | src/models/personal_finance.model.js:101-123 | an item with a foreign account_id throws; a valid item fails only on the unique key |
| PersonalFinanceModel.BudgetStepKeeps | src/models/personal_finance.model.js:101-123 | a successful budget step keeps the table valid and the budget keys unique |
| PersonalFinanceModel.FoldFirstBad | src/models/personal_finance.model.js:43-66 | the loop fails exactly when some item is bad, with the error of the first bad item |
| PersonalFinanceModel.FoldLast | src/models/personal_finance.model.js:43-66 | one more item after a successful prefix is one more step |
| PersonalFinanceModel.FoldChain | src/models/personal_finance.model.js:43-124 | when each item's step takes one table of a chain to the next, the loop ends at the last table of the chain |
| PersonalFinanceModel.FoldFailedPrefix | src/models/personal_finance.model.js:43-124 | a prefix that failed makes the whole fold fail with its error |
| PersonalFinanceModel.FoldFailsWith | src/models/personal_finance.model.js:43-124 | a fold that throws throws the error of one of its items |
| PersonalFinanceModel.FoldKeeps | src/models/personal_finance.model.js:43-124 | a step property that every step keeps holds at the end of a successful fold |
| PersonalFinanceModel.FoldRejects | src/models/personal_finance.model.js:43-124 | an item that every step rejects, wherever it stands in the list, makes the whole loop fail |
| PersonalFinanceModel.ImportChecks | src/models/personal_finance.model.js:42-104 | the import aborts exactly for an invalid item or a key violation. The first invalid category, or else the first invalid transaction, gives the error |
| PersonalFinanceModel.ImportEvolves | src/models/personal_finance.model.js:31-133 | a successful import only adds and updates rows named in the payload, once the account's rows are deleted |
| PersonalFinanceModel.ImportCategories | src/models/personal_finance.model.js:36-67 | the account's unnamed categories are gone, other accounts' unnamed ones are kept, and every new or changed row is the caller's |
| PersonalFinanceModel.ImportTransactions | src/models/personal_finance.model.js:36-97 | the account's unnamed transactions are gone, other accounts' unnamed ones are kept, every new row is the caller's, and a changed row keeps its owner or is the caller's |
| PersonalFinanceModel.ImportBudgets | src/models/personal_finance.model.js:36-124 | the same for budgets |
| PersonalFinanceModel.ImportKeepsValid | src/models/personal_finance.model.js:31-133 | a successful import keeps every table's invariants, budget keys included |
| PersonalFinanceModel.ImportTakesForeignCategory | src/models/personal_finance.model.js:52-65 | a payload naming another account's category id moves that category to the caller (finding, as written) |
| PersonalFinanceModel.ImportOwnedKeepsOthers | src/models/personal_finance.model.js:52-65 | corrected import (ImportOwned): when it succeeds it agrees with the written one, and no other account's row changes |
| PersonalFinanceModel.InsertCategories | src/models/personal_finance.model.js:42-67 | the loop leaves the table the category fold gives, or stops with its error |
| PersonalFinanceModel.InsertTransactions | src/models/personal_finance.model.js:70-97 | the loop leaves the table the transaction fold gives, or stops with its error |
| PersonalFinanceModel.InsertBudgets | src/models/personal_finance.model.js:100-124 | the loop leaves the table the budget fold gives, or stops with its error |
| PersonalFinanceModel.ImportAll | src/models/personal_finance.model.js:31-133 | the tables end as Import gives; on an error every row is as before the call (rollback) |
| PersonalFinanceModel.ExportSplits | src/models/personal_finance.model.js:6-39 | each exported table lists exactly the rows the import's delete removes |
| PersonalFinanceModel.RestoredStep | src/models/personal_finance.model.js:42-124 | re-inserting one exported row after the delete puts it back under its id |
| PersonalFinanceModel.RestoredEnds | src/models/personal_finance.model.js:42-124 | re-inserting all exported rows after the delete rebuilds the table |
| PersonalFinanceModel.CategoryRestoreStep | src/models/personal_finance.model.js:42-67 | the category step on an exported row is that re-insertion |
| PersonalFinanceModel.TransactionRestoreStep | src/models/personal_finance.model.js:70-97 | the transaction step on an exported row is that re-insertion |
| PersonalFinanceModel.BudgetRestoreStep | src/models/personal_finance.model.js:100-124 | the budget step on an exported row is that re-insertion |
| PersonalFinanceModel.CategoriesRestored | src/models/personal_finance.model.js:42-67 | re-importing the exported categories after the delete rebuilds the category table |
| PersonalFinanceModel.TransactionsRestored | src/models/personal_finance.model.js:70-97 | re-importing the exported transactions after the delete rebuilds the transaction table (no empty notes) |
| PersonalFinanceModel.BudgetsRestored | src/models/personal_finance.model.js:100-124 | re-importing the exported budgets after the delete rebuilds the budget table |
| PersonalFinanceModel.BackupRestores | src/models/personal_finance.model.js:6-133 | importing an account's own export gives back exactly the same store, for a store without a zero id or an empty note (both of which `x \|\| null` turns into null) |

## Left out

- Push notifications (`sendNotification`, Firebase) are foreign calls whose errors are swallowed. They are not modelled; only which tokens the invitation loop reads is (InviteTargets).
- LeaveGroup, AcceptInvitation, RejectInvitation: when the owner has an active token, the notification after the write reads `user.username` from getById of the caller. If the caller's account row is missing this throws, and the answer is 500 with the write kept; the model answers 200.
- CreateExpense: the notification loop after the writes reads `group.group_name` from getById, which is null when the owner has no account; the TypeError it would raise (500 after the expense and shares are written) is not modelled.
- Logging, authentication, the chat WebSocket relay, object storage, routing and start-up are outside the modelled core.
- The report queries not defined in the model files are outside the model:
  - the debt summary, counterparty, monthly, yearly and full reports;
  - the group target report, getOwnerGroupsWithUnpaidMembers and getMemberPaymentStatus;
  - the user's monthly group-expense summary.
  Only the JavaScript around them is modelled: the target-report guard and the e-mail post-processing of the full reports.
- These handlers only pass a model result through, so the model function they return is the model:
  - getDebts, getUserGroups, getUserExpenses;
  - getBudgets, getCurrentBudgetSummary, getBudgetAlerts;
  - getPersonalFinanceBackup.
- getCurrentBudgets and getCurrentMonthSummary read the clock. They are covered by the month-parameterised functions (MonthSummaryOf) with the month passed in.
- `ExpenseGroup.delete`, `GroupExpenseShare.addShare`, `getByExpenseId` and the share-model `getByUserId` are not modelled: no handler in the core calls them. The display columns the JOINs add are not modelled; the rows they drop are.
- ByUser (GroupExpenseModel.ExpenseTable.ByUser): `SELECT DISTINCT` also selects the user's share amount, so an expense in which the user holds two shares of different amounts is listed twice by the database; the model lists every expense once.
- ORDER BY created_at is modelled as ascending or descending id, since rows are created in id order. Where SQL leaves ties open (rows created in the same second, equal amounts, or names equal under the collation) the model fixes one order; only the keys are stated.
- ListingKeyOrder: category names are ordered by their characters' code points with ASCII letters folded; the collation's order of other characters is not modelled.
- Money is exact `real`, not IEEE double. It is not integer cents either: the 0.01 tolerance is compared on reals.
- JavaScript values: Infinity, `-0`, objects and arrays in a body field are not modelled, and a number is an exact real. parseInt reads a number through `String(n)`, whose exponent form below 1e-6 and from 1e21 up is modelled; its digits are taken to be those of the exact real, not the shortest text that identifies an IEEE double. parseFloat and Number read decimal numerals only ("Infinity" is read as NaN). MySQL's conversion of text to a number is modelled as "a whole decimal numeral, white space around it allowed, or refused"; its partial reading of text such as "12abc" (with a warning) is not.
- Path parameters other than the budget routes' (expense id, group id, member id) are taken as already-parsed integers.
- Dates are compared through `Stamp`. Time zones and the parsing rules of `new Date` are reduced to "parses or not".
- Upper-casing (`toUpperCase`) is modelled only for the characters whose upper case is an ASCII letter (a-z, ı, ſ), and the case-insensitive collation folds ASCII letters only, so accented letters are compared exactly; `trim` uses ECMAScript's full white-space set.
- GetByEmail, SearchUsers, UpdateProfile: when the collation also ignores trailing spaces or accents, the database matches more than the model; only ASCII case is folded.
- CreateDebt, CreateOutcome: creditor_id and debtor_id are bound with `?` to INT columns, and MySQL rounds a fractional number there (2.5 is stored as 3). The model reads them through IdValue, which refuses anything but a whole number, so it answers 500 where the source stores the rounded id.
- CreateExpense, UpdateExpenseShares: an item of the `shares` array that is null (or not an object) makes the reduce throw, which answers 500; such an item is not modelled, since a `ShareInput` always has its two fields.
- UpdateProfile (UserController): username and email are taken as text or absent (`Option<string>`). A truthy value that is not a string (a number, true, an object) would pass the guard and be stored as its text form; the model has no such input.
- CreateDebt: the note is taken as text or absent. A truthy non-string note would be stored as its text form; the model has no such input.
- UpdateDebt: the same for the note.
- ReportPayment (DebtController): the same for the proof URL.
- CreateGroup: the same for the group name.
- UpdateGroup: the same for the group name.
- UpdateMemberProof: the same for the proof URL, whose `!proof_url` guard such a value passes.
- CreateExpense: the same for the description.
- UpdateExpense: the same for the description.
- Message: the duplicate-key text is a stand-in for MySQL's "Duplicate entry '<value>' for key '<index>'"; the quoted value and index name are not rebuilt, and BackupController.DuplicateKeyNotData holds for the stand-in's letters only.
- RegisterToken, DeactivateToken (FcmTokenController): the token field is taken as text or absent (`Option<string>`, with "" falsy). A truthy token that is not a string (a number, true, an object) is not modelled: registerToken would store its text form, and deactivateToken would answer 400, since a stored string is never `===` such a value.
- FindKey, Upsert, DeactivateToken, AllActiveTokens: the token column is taken to be binary-collated, since FCM tokens are case-sensitive, so the (account, token) key, `token = ?` and DISTINCT compare tokens exactly. Under a case-insensitive collation a token differing from a stored one only in ASCII case would match it.
- AddShares, BulkAddMembers, CreateExpense, UpdateExpenseShares, CreateGroup: addShares and bulkAddMembers paste the values into the SQL text instead of binding them. The model reads each id as an INT column would (IdValue) and refuses anything else, so a fractional id, which MySQL would round, is refused, and a value that alters the statement (a quote or a `),(` in an id or a deadline) is not modelled.
- ImportChecks, TransactionStep, BudgetStep, CategoryStep: the payload's fields are taken as typed (ids as integers, amounts as numbers, dates as dates). A field value the database refuses (amount "abc", an unparsable date, a month "x", a null category_id of a budget) would fail the import with 500 and roll it back; the model has no such item.
- Upsert (FCM tokens), SetBudget, ImportAll: InnoDB also consumes an AUTO_INCREMENT value when ON DUPLICATE KEY updates an existing row (setBudget, the FCM upsert, the import) and when an insert is rolled back. No handler shows ids, so the model keeps `next` unchanged on an update and says only that it does not decrease in the import.
- The database schema lies outside the source files. The model assumes:
  - the column defaults (pending, unpaid, unconfirmed, active);
  - unique keys on (group, account) members, (account, category, month, year) budgets and (account, token) FCM rows;
  - no foreign keys on any table: the inserts of CreateDebt, CreateGroup, AddMember, CreateExpense, AddShares, SetBudget and the import accept ids with no row behind them, and the JOINs of the read queries drop such rows;
  - NOT NULL on group_expense.total_amount and expense_date (an update writing NULL fails);
  - nullable member amount and payment_deadline, group_name and group deadline, and debt note and due date;
  - strict SQL mode, where an unparsable number or date makes the statement fail with 500.
- TransactionStep, BudgetStep, SetBudget: the delete order at src/models/personal_finance.model.js:36 hints at foreign keys from transactions and budgets to categories. The model assumes none, as for the other tables, so setBudget and the import accept a category id that no row holds. Under such keys the database would refuse it (500 from setBudget; 500 and rollback from the import).
- ON DUPLICATE KEY in the import is modelled as matching the primary key first, then the budget key. The database's choice between two conflicting keys is not modelled further.
- An array sent as the restore payload passes the `typeof payload === "object"` test; the model's payload is the object shape only.
- The `budget_alerts` and `sync_log` parts of a restore payload are ignored by the source and not modelled.
- Concurrency between requests is not modelled; each handler runs alone.
- BudgetStep: the contract does not name which budget-key violation fails. It says only that a valid item fails by DuplicateKey, because the database's choice between two conflicting keys is unmodelled.

## Findings

| source | as written | input that shows it | evidently intended | confidence | as-written member | corrected member |
|---|---|---|---|---|---|---|
| src/controllers/expense_group.controller.js:15-26 | `parseInt` of a non-numeric month or year gives NaN, and `NaN < 1` and `NaN > 12` are both false, so the range guards pass | `?month=abc&year=abc` for the caller's own userId | a month and year that do not parse are rejected with 400 | not executed | ExpenseGroupController.TargetReportNaNPasses | ExpenseGroupController.TargetReportGuardStrict, ExpenseGroupController.TargetReportGuardsAgree |
| src/controllers/user.controller.js:15 | getUserBalance uses `this` inside an arrow function and array-destructures the object results (src/models/group_expense_share.model.js:114-117), so it throws, and getProfile answers 500 for every existing account | any existing account calling GET profile | the profile with balance = total paid − total owed, missing totals as 0 | not executed | UserController.ProfileNeverServed | UserController.GetProfileFixed, UserController.ProfileFixedServes |
| src/models/personal_finance.model.js:52-65 | ON DUPLICATE KEY on the primary key updates `account_id` too, so a restore naming another account's category id takes that category over | a restore payload with one category whose id is another account's category | rows of other accounts are never touched by a restore | not executed | PersonalFinanceModel.ImportTakesForeignCategory | PersonalFinanceModel.ImportOwnedKeepsOthers |
