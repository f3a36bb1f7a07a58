/** The backup handlers: a spending backup cut to a date range, and the
    restore of a personal-finance backup, which checks the payload before
    handing it to importAll and turns its error into 400 or 500. */
module BackupController {
  import opened Common
  import opened Tables
  import opened Text
  import opened PersonalTables
  import opened MonthlyBudgetModel
  import opened PersonalFinanceModel
  import opened ExpenseGroupMemberModel
  import opened ExpenseGroupModel
  import opened GroupExpenseModel
  import opened GroupExpenseShareModel
  import opened DebtModel
  import opened AccountModel

  // ---------------------------------------------------------------- date ranges

  /** The checks of `filterByRange` on one item's date: there is one, and it
      lies within the bounds that are given, both ends included. */
  predicate InRange(date: Option<Date>, from: Option<Date>, to: Option<Date>) {
    && date.Some?
    && (from.None? || Stamp(from.value) <= Stamp(date.value))
    && (to.None? || Stamp(date.value) <= Stamp(to.value))
  }

  function RangeOf<T>(date: T -> Option<Date>, from: Option<Date>, to: Option<Date>): T -> bool {
    (x: T) => InRange(date(x), from, to)
  }

  /** `filterByRange`: with no bound the list itself; otherwise the items
      whose date is in range, in their order. */
  function FilterByRange<T(==,!new)>(items: seq<T>, date: T -> Option<Date>, from: Option<Date>, to: Option<Date>):
    (r: seq<T>)
    ensures from.None? && to.None? ==> r == items
    ensures IsSubsequence(r, items)
    ensures from.Some? || to.Some? ==> forall x :: x in r <==> x in items && InRange(date(x), from, to)
  {
    if from.None? && to.None? then
      IsSubsequenceRefl(items);
      items
    else
      var r := Filter(items, RangeOf(date, from, to));
      assert forall x :: x in r ==> x in items && InRange(date(x), from, to) by {
        forall x | x in r ensures x in items && InRange(date(x), from, to) {
          var i :| 0 <= i < |r| && r[i] == x;
        }
      }
      r
  }

  /** A list is a subsequence of itself. */
  lemma {:induction false} IsSubsequenceRefl<T>(s: seq<T>)
    ensures IsSubsequence(s, s)
    decreases |s|
  {
    if s != [] {
      IsSubsequenceRefl(s[..|s| - 1]);
      assert s[..|s| - 1] + [s[|s| - 1]] == s;
    }
  }

  /** A range check dropping a date before `from` or after `to`. */
  lemma RangeBounds(date: Date, from: Option<Date>, to: Option<Date>)
    ensures from.Some? && Stamp(date) < Stamp(from.value) ==> !InRange(Some(date), from, to)
    ensures to.Some? && Stamp(date) > Stamp(to.value) ==> !InRange(Some(date), from, to)
    ensures from.Some? && to.Some? && Stamp(to.value) < Stamp(from.value) ==> !InRange(Some(date), from, to)
  {
  }

  /** `expense_date` of a listed expense. */
  function ExpenseDate(rows: map<Id, Expense>): ExpenseListing -> Option<Date> {
    (l: ExpenseListing) => if l.id in rows then Some(rows[l.id].date) else None
  }

  /** `created_at` of a debt. */
  function DebtDate(rows: map<Id, Debt>): Id -> Option<Date> {
    (k: Id) => if k in rows then Some(rows[k].createdAt) else None
  }

  /** What the spending backup returns. */
  datatype SpendingBackup = SpendingBackup(budgets: seq<Id>, groups: seq<Listing>, expenses: seq<ExpenseListing>, debts: seq<Id>)

  datatype SpendingAnswer = SpendingAnswer(outcome: Outcome, data: Option<SpendingBackup>)

  /** `getPersonalSpendingBackup`: 400 for a `from` or `to` that is not a
      date; else the caller's budgets and groups whole, and the caller's
      expenses and debts cut to the range. */
  function GetPersonalSpendingBackup(budgets: BudgetTable, categories: CategoryTable, groups: GroupTable,
                                     members: MemberTable, expenses: ExpenseTable, shares: ShareTable,
                                     debts: DebtTable, accounts: AccountTable, caller: UserId, from: DateInput,
                                     to: DateInput):
    (r: SpendingAnswer)
    requires budgets.Valid() && groups.Valid() && expenses.Valid() && debts.Valid()
    reads budgets, categories, groups, members, expenses, shares, debts, accounts
    ensures r.outcome == BadRequest <==> Malformed(from) || Malformed(to)
    ensures r.outcome == Ok <==> r.data.Some?
    ensures r.data.Some? ==>
      var d := r.data.value;
      var all := expenses.ByUser(shares.rows, members.rows, accounts.rows, groups.rows.Keys, caller);
      var owned := debts.ByUser(caller, accounts.rows);
      var lo, hi := DateOrNull(from), DateOrNull(to);
      && d.budgets == budgets.ByUser(categories.rows, caller)
      && d.groups == groups.ByUser(members.rows, accounts.rows, caller)
      && IsSubsequence(d.expenses, all) && IsSubsequence(d.debts, owned)
      && (lo.None? && hi.None? ==> d.expenses == all && d.debts == owned)
      && (lo.Some? || hi.Some? ==>
            && (forall x :: x in d.expenses <==>
                  (x in all && x.id in expenses.rows && InRange(Some(expenses.rows[x.id].date), lo, hi)))
            && (forall k :: k in d.debts <==>
                  (k in debts.rows && Involves(debts.rows[k], caller) && Joined(debts.rows[k], accounts.rows)
                   && InRange(Some(debts.rows[k].createdAt), lo, hi))))
  {
    if Malformed(from) || Malformed(to) then SpendingAnswer(BadRequest, None)
    else
      var lo, hi := DateOrNull(from), DateOrNull(to);
      var all := expenses.ByUser(shares.rows, members.rows, accounts.rows, groups.rows.Keys, caller);
      var owned := debts.ByUser(caller, accounts.rows);
      ExpensesInRange(all, expenses.rows, lo, hi);
      DebtsInRange(owned, debts.rows, accounts.rows, caller, lo, hi);
      SpendingAnswer(Ok, Some(SpendingBackup(budgets.ByUser(categories.rows, caller),
                                             groups.ByUser(members.rows, accounts.rows, caller),
                                             FilterByRange(all, ExpenseDate(expenses.rows), lo, hi),
                                             FilterByRange(owned, DebtDate(debts.rows), lo, hi))))
  }

  /** The expenses a bounded range keeps: the listed ones whose expense date
      is in range. */
  lemma ExpensesInRange(all: seq<ExpenseListing>, rows: map<Id, Expense>, lo: Option<Date>, hi: Option<Date>)
    ensures lo.Some? || hi.Some? ==>
      forall x :: x in FilterByRange(all, ExpenseDate(rows), lo, hi) <==>
        (x in all && x.id in rows && InRange(Some(rows[x.id].date), lo, hi))
  {
  }

  /** The debts a bounded range keeps: the caller's listed debts created in
      range. */
  lemma DebtsInRange(owned: seq<Id>, rows: map<Id, Debt>, accounts: map<Id, Account>, caller: UserId,
                     lo: Option<Date>, hi: Option<Date>)
    requires forall k :: k in owned <==> k in rows && Involves(rows[k], caller) && Joined(rows[k], accounts)
    ensures lo.Some? || hi.Some? ==>
      forall k :: k in FilterByRange(owned, DebtDate(rows), lo, hi) <==>
        (k in rows && Involves(rows[k], caller) && Joined(rows[k], accounts) && InRange(Some(rows[k].createdAt), lo, hi))
  {
  }

  // ---------------------------------------------------------------- restore

  /** `t && (t.category_id === null || t.category_id === undefined)`. */
  predicate LacksCategory(t: Option<TransactionItem>) {
    t.Some? && t.value.category.None?
  }

  /** The part of a rejected transaction the answer repeats. */
  datatype InvalidTransaction = InvalidTransaction(id: Option<nat>, date: Date, amount: Money)

  function InvalidOf(t: Option<TransactionItem>): InvalidTransaction
    requires t.Some?
  {
    InvalidTransaction(t.value.id, t.value.date, t.value.amount)
  }

  /** The `invalidTransactions` list: the non-null transactions without a
      category, in payload order. */
  function InvalidTransactions(p: Payload): (r: seq<InvalidTransaction>)
    ensures r == [] <==> forall i :: 0 <= i < |Items(p.transactions)| ==> !LacksCategory(Items(p.transactions)[i])
    ensures forall i :: 0 <= i < |r| ==>
      exists t :: t in Items(p.transactions) && LacksCategory(t) && r[i] == InvalidOf(t)
    ensures forall t :: t in Items(p.transactions) && LacksCategory(t) ==> InvalidOf(t) in r
  {
    InvalidList(Items(p.transactions))
  }

  /** `.filter(t => t && category_id is null or undefined).map(…)` over a
      transactions array. */
  function InvalidList(ts: seq<Option<TransactionItem>>): (r: seq<InvalidTransaction>)
    ensures r == [] <==> forall i :: 0 <= i < |ts| ==> !LacksCategory(ts[i])
    ensures forall i :: 0 <= i < |r| ==> exists t :: t in ts && LacksCategory(t) && r[i] == InvalidOf(t)
    ensures forall t :: t in ts && LacksCategory(t) ==> InvalidOf(t) in r
  {
    var bad := Filter(ts, LacksCategory);
    var r := seq(|bad|, i requires 0 <= i < |bad| => InvalidOf(bad[i]));
    assert forall t :: t in ts && LacksCategory(t) ==> InvalidOf(t) in r by {
      forall t | t in ts && LacksCategory(t) ensures InvalidOf(t) in r {
        var j :| 0 <= j < |bad| && bad[j] == t;
        assert r[j] == InvalidOf(t);
      }
    }
    forall i | 0 <= i < |r| ensures exists t :: t in ts && LacksCategory(t) && r[i] == InvalidOf(t) {
      assert bad[i] in ts && LacksCategory(bad[i]);
    }
    r
  }

  /** One entry per transaction lacking a category, in payload order: a
      further transaction adds its entry last exactly when it lacks one. */
  lemma InvalidListSnoc(ts: seq<Option<TransactionItem>>, t: Option<TransactionItem>)
    ensures InvalidList(ts + [t]) == InvalidList(ts) + (if LacksCategory(t) then [InvalidOf(t)] else [])
  {
    FilterSnoc(ts, t, LacksCategory);
    var bad, bad2 := Filter(ts, LacksCategory), Filter(ts + [t], LacksCategory);
    var r, r2 := InvalidList(ts), InvalidList(ts + [t]);
    assert |r2| == |bad2| && |r| == |bad|;
    forall i | 0 <= i < |bad| ensures r2[i] == r[i] {
      assert bad2[i] == bad[i];
    }
  }

  /** The messages the restore answers with as data errors (400). */
  predicate IsDataError(msg: string) {
    || Contains(msg, "Invalid ")
    || Contains(msg, "missing category_id")
    || Contains(msg, "Some transactions are missing category_id")
  }

  /** An import error is a data error exactly when it is one of importAll's
      own checks; reading a null item and a duplicate budget key are server
      errors. */
  lemma DataErrors(e: ImportError)
    ensures IsDataError(Message(e)) <==> !(e.NullItem? || e.DuplicateKey?)
  {
    match e
    case NullItem => NullItemNotData();
    case DuplicateKey => DuplicateKeyNotData();
    case ForeignCategory => StartsInvalid(Message(e), "category account_id");
    case BadCategoryType => StartsInvalid(Message(e), "category type");
    case ForeignTransaction => StartsInvalid(Message(e), "transaction account_id");
    case MissingCategory(id) =>
      StartsInvalid(Message(e), "transaction: missing category_id (transaction id: "
                                + (if id.Some? && id.value != 0 then DecimalText(id.value) else "unknown") + ")");
    case ForeignBudget => StartsInvalid(Message(e), "budget account_id");
  }

  lemma StartsInvalid(m: string, rest: string)
    requires m == "Invalid " + rest
    ensures IsDataError(m)
  {
    assert m[0..8] == "Invalid ";
    ContainsAt(m, "Invalid ", 0);
  }

  /** The characters that set the two server messages apart from the three
      phrases: neither message holds an 'I' or an 'S', the first has no 'm'
      and the second no 's'. */
  lemma NullItemLacks(c: char)
    requires c == 'I' || c == 'm' || c == 'S'
    ensures c !in Message(NullItem)
  {
  }

  lemma DuplicateKeyLacks(c: char)
    requires c == 'I' || c == 's' || c == 'S'
    ensures c !in Message(DuplicateKey)
  {
  }

  /** No phrase of IsDataError is in a message lacking 'I' and 'S', and
      either 'm' or 's' (the first and third letters of "missing"). */
  lemma LacksPhrases(m: string, c: char)
    requires c == 'm' || c == 's'
    requires 'I' !in m && c !in m && 'S' !in m
    ensures !IsDataError(m)
  {
    NotContains(m, "Invalid ", 0);
    NotContains(m, "missing category_id", if c == 'm' then 0 else 2);
    NotContains(m, "Some transactions are missing category_id", 0);
  }

  lemma NullItemNotData()
    ensures !IsDataError(Message(NullItem))
  {
    NullItemLacks('I');
    NullItemLacks('m');
    NullItemLacks('S');
    LacksPhrases(Message(NullItem), 'm');
  }

  lemma DuplicateKeyNotData()
    ensures !IsDataError(Message(DuplicateKey))
  {
    DuplicateKeyLacks('I');
    DuplicateKeyLacks('s');
    DuplicateKeyLacks('S');
    LacksPhrases(Message(DuplicateKey), 's');
  }

  /** The restore's own check leaves importAll no transaction without a
      category to fail on. */
  lemma CheckedImportHasCategories(s: Store, caller: UserId, p: Payload)
    requires InvalidTransactions(p) == []
    ensures Import(s, caller, p).Aborted? ==> !Import(s, caller, p).error.MissingCategory?
  {
    var c := Cleared(s, caller);
    var cs, ts, bs := Items(p.categories), Items(p.transactions), Items(p.budgets);
    FoldFailsWith(c.categories, cs, PutCategory(caller), (i: Option<CategoryItem>, e: ImportError) => !e.MissingCategory?);
    FoldFailsWith(c.transactions, ts, PutTransaction(caller),
                  (i: Option<TransactionItem>, e: ImportError) => !LacksCategory(i) ==> !e.MissingCategory?);
    FoldFailsWith(c.budgets, bs, PutBudget(caller), (i: Option<BudgetItem>, e: ImportError) => !e.MissingCategory?);
  }

  /** What the restore answers. */
  datatype RestoreAnswer = RestoreAnswer(outcome: Outcome, message: string, invalid: seq<InvalidTransaction>)

  /** `restorePersonalFinanceBackup`: 400 for a payload that is not an
      object, 400 with the list when a transaction has no category, else
      importAll; its error is answered with its message, as 400 for a data
      error and 500 otherwise. `payload` is None when the body is not an
      object. */
  method RestorePersonalFinanceBackup(categories: CategoryTable, transactions: TransactionTable, budgets: BudgetTable,
                                      caller: UserId, payload: Option<Payload>)
    returns (r: RestoreAnswer)
    requires categories.Valid() && transactions.Valid() && budgets.Valid()
    modifies categories, transactions, budgets
    ensures categories.Valid() && transactions.Valid() && budgets.Valid()
    ensures payload.None? ==> r == RestoreAnswer(BadRequest, "Invalid payload", [])
    ensures payload.Some? && InvalidTransactions(payload.value) != [] ==>
      r == RestoreAnswer(BadRequest, "Some transactions are missing category_id", InvalidTransactions(payload.value))
    ensures payload.None? || InvalidTransactions(payload.value) != [] ==>
      categories.rows == old(categories.rows) && transactions.rows == old(transactions.rows)
      && budgets.rows == old(budgets.rows)
    ensures payload.Some? && InvalidTransactions(payload.value) == [] ==>
      var res := Import(old(StoreOf(categories, transactions, budgets)), caller, payload.value);
      && (res.Imported? ==>
            r == RestoreAnswer(Ok, "Personal finance restored successfully", [])
            && StoreOf(categories, transactions, budgets) == res.store)
      && (res.Aborted? ==>
            && r.message == Message(res.error) && r.invalid == []
            && r.outcome == (if IsDataError(Message(res.error)) then BadRequest else ServerError)
            && categories.rows == old(categories.rows) && transactions.rows == old(transactions.rows)
            && budgets.rows == old(budgets.rows))
  {
    if payload.None? {
      return RestoreAnswer(BadRequest, "Invalid payload", []);
    }
    var invalid := InvalidTransactions(payload.value);
    if invalid != [] {
      return RestoreAnswer(BadRequest, "Some transactions are missing category_id", invalid);
    }
    var failed := ImportAll(categories, transactions, budgets, caller, payload.value);
    if failed.None? {
      return RestoreAnswer(Ok, "Personal finance restored successfully", []);
    }
    var msg := Message(failed.value);
    r := RestoreAnswer(if IsDataError(msg) then BadRequest else ServerError, msg, []);
  }
}
