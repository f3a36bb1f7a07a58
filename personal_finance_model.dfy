/** Export and import of one account's personal finance: its categories,
    transactions and monthly budgets. An import deletes the account's rows
    and upserts the payload's items one by one inside a database
    transaction; the first failing item rolls everything back. */
module PersonalFinanceModel {
  import opened Common
  import opened Tables
  import opened Text
  import opened PersonalTables
  import opened MonthlyBudgetModel

  // ---------------------------------------------------------------- exportAll

  /** What exportAll returns: the ids of the caller's rows of each table, in
      the order of each query. */
  datatype Export = Export(categories: seq<Id>, transactions: seq<Id>, budgets: seq<Id>)

  /** The sort key of `ORDER BY transaction_date DESC, id DESC`. */
  function TransactionOrder(rows: map<Id, Transaction>): Id -> seq<real> {
    (k: Id) => [if k in rows then -(Stamp(rows[k].date) as real) else 0.0, -(k as real)]
  }

  /** The sort key of `ORDER BY year DESC, month DESC, id DESC`. */
  function BudgetOrder(rows: map<Id, Budget>): Id -> seq<real> {
    (k: Id) => if k in rows then [-(rows[k].year as real), -(rows[k].month as real), -(k as real)]
               else [0.0, 0.0, -(k as real)]
  }

  /** Transaction a is listed before b: a later date, or the same date and a
      greater id. */
  predicate TransactionBefore(rows: map<Id, Transaction>, a: Id, b: Id) {
    a in rows && b in rows &&
    (Stamp(rows[a].date) > Stamp(rows[b].date) || (Stamp(rows[a].date) == Stamp(rows[b].date) && a > b))
  }

  /** Budget a is listed before b: a later year, a later month in the same
      year, or the same month and a greater id. */
  predicate BudgetBefore(rows: map<Id, Budget>, a: Id, b: Id) {
    a in rows && b in rows &&
    (|| rows[a].year > rows[b].year
     || (rows[a].year == rows[b].year && rows[a].month > rows[b].month)
     || (rows[a].year == rows[b].year && rows[a].month == rows[b].month && a > b))
  }

  function OwnCategory(caller: UserId): (Id, Category) -> bool {
    (k: Id, c: Category) => c.account == caller
  }

  function OwnTransaction(caller: UserId): (Id, Transaction) -> bool {
    (k: Id, x: Transaction) => x.account == caller
  }

  function OwnBudget(caller: UserId): (Id, Budget) -> bool {
    (k: Id, b: Budget) => b.account == caller
  }

  /** `exportAll`: exactly the caller's rows of each table, each once;
      categories by ascending id, transactions newest first, budgets by
      year and month, newest first, ties by descending id. */
  function ExportAll(s: Store, caller: UserId): (r: Export)
    requires StoreValid(s)
    ensures forall k :: k in r.categories <==> k in s.categories.rows && s.categories.rows[k].account == caller
    ensures forall k :: k in r.transactions <==> k in s.transactions.rows && s.transactions.rows[k].account == caller
    ensures forall k :: k in r.budgets <==> k in s.budgets.rows && s.budgets.rows[k].account == caller
    ensures Ascending(r.categories)
    ensures forall i, j :: 0 <= i < j < |r.transactions| ==>
      TransactionBefore(s.transactions.rows, r.transactions[i], r.transactions[j])
    ensures forall i, j :: 0 <= i < j < |r.budgets| ==> BudgetBefore(s.budgets.rows, r.budgets[i], r.budgets[j])
  {
    var ts := Ids(s.transactions.rows, s.transactions.next, OwnTransaction(caller));
    var bs := Ids(s.budgets.rows, s.budgets.next, OwnBudget(caller));
    var sortedTs := SortBy(ts, TransactionOrder(s.transactions.rows));
    var sortedBs := SortBy(bs, BudgetOrder(s.budgets.rows));
    SortByNoDuplicates(ts, TransactionOrder(s.transactions.rows));
    SortByNoDuplicates(bs, BudgetOrder(s.budgets.rows));
    forall k ensures k in sortedTs <==> k in ts {
      SortByMembers(ts, TransactionOrder(s.transactions.rows), k);
    }
    forall k ensures k in sortedBs <==> k in bs {
      SortByMembers(bs, BudgetOrder(s.budgets.rows), k);
    }
    forall i, j | 0 <= i < j < |sortedTs|
      ensures TransactionBefore(s.transactions.rows, sortedTs[i], sortedTs[j])
    {
      assert sortedTs[i] in sortedTs && sortedTs[j] in sortedTs;
      TransactionOrderMeans(s.transactions.rows, sortedTs[i], sortedTs[j]);
    }
    forall i, j | 0 <= i < j < |sortedBs| ensures BudgetBefore(s.budgets.rows, sortedBs[i], sortedBs[j]) {
      assert sortedBs[i] in sortedBs && sortedBs[j] in sortedBs;
      BudgetOrderMeans(s.budgets.rows, sortedBs[i], sortedBs[j]);
    }
    Export(Ids(s.categories.rows, s.categories.next, OwnCategory(caller)), sortedTs, sortedBs)
  }

  /** Between two different transactions, the sort key orders them as
      TransactionBefore does. */
  lemma TransactionOrderMeans(rows: map<Id, Transaction>, a: Id, b: Id)
    requires a in rows && b in rows && a != b
    requires LexLe(TransactionOrder(rows)(a), TransactionOrder(rows)(b))
    ensures TransactionBefore(rows, a, b)
  {
    var ka, kb := TransactionOrder(rows)(a), TransactionOrder(rows)(b);
    assert ka[1..] == [-(a as real)] && kb[1..] == [-(b as real)];
    LexLeSingle(-(a as real), -(b as real));
  }

  /** The same for budgets. */
  lemma BudgetOrderMeans(rows: map<Id, Budget>, a: Id, b: Id)
    requires a in rows && b in rows && a != b
    requires LexLe(BudgetOrder(rows)(a), BudgetOrder(rows)(b))
    ensures BudgetBefore(rows, a, b)
  {
    var ka, kb := BudgetOrder(rows)(a), BudgetOrder(rows)(b);
    assert ka[1..][1..] == [-(a as real)] && kb[1..][1..] == [-(b as real)];
    assert ka[1..][0] == -(rows[a].month as real) && kb[1..][0] == -(rows[b].month as real);
    LexLeSingle(-(a as real), -(b as real));
  }

  // ---------------------------------------------------------------- payload

  /** A category of the payload. `account` is None when `account_id` is
      falsy, else the result of parseInt; `kind` is the raw `type`. */
  datatype CategoryItem = CategoryItem(id: Option<nat>, account: Option<Parsed>, name: Option<string>,
                                       kind: Option<string>)

  datatype TransactionItem = TransactionItem(id: Option<nat>, account: Option<Parsed>, category: Option<int>,
                                             amount: Money, note: Option<string>, date: Date)

  datatype BudgetItem = BudgetItem(id: Option<nat>, account: Option<Parsed>, category: int, month: int, year: int,
                                   limit: Money)

  /** The three lists of the payload; None when the field is missing or not
      an array. A None item is a JSON null inside the list. */
  datatype Payload = Payload(categories: Option<seq<Option<CategoryItem>>>,
                             transactions: Option<seq<Option<TransactionItem>>>,
                             budgets: Option<seq<Option<BudgetItem>>>)

  function Items<I>(list: Option<seq<I>>): seq<I> {
    list.GetOr([])
  }

  /** The error an import throws. */
  datatype ImportError =
    | NullItem
    | ForeignCategory
    | BadCategoryType
    | ForeignTransaction
    | MissingCategory(id: Option<nat>)
    | ForeignBudget
    | DuplicateKey

  /** `err.message` of each error: the Error objects importAll throws, the
      TypeError of reading `account_id` of null, and the database's message
      for a duplicate unique key. The texts are written word by word, which
      keeps the proofs about the words they hold small. The duplicate-key
      text stands in for MySQL's "Duplicate entry '<value>' for key
      '<index>'", whose quoted value and index name the model does not
      rebuild. BackupController.DuplicateKeyNotData depends on the letters of
      this stand-in (no 'I', 's' or 'S'), which the real quoted parts need
      not lack. */
  function Message(e: ImportError): string {
    match e
    case NullItem => "Cannot " + "read " + "properties " + "of " + "null " + "(reading " + "'account_id')"
    case ForeignCategory => "Invalid " + "category account_id"
    case BadCategoryType => "Invalid " + "category type"
    case ForeignTransaction => "Invalid " + "transaction account_id"
    case MissingCategory(id) =>
      "Invalid " + "transaction: missing category_id (transaction id: "
      + (if id.Some? && id.value != 0 then DecimalText(id.value) else "unknown") + ")"
    case ForeignBudget => "Invalid " + "budget account_id"
    case DuplicateKey => "Duplicate " + "entry " + "for " + "key " + "'monthly_budget'"
  }

  /** `x.id || null`: an explicit id, or None for auto-increment. */
  function Named(id: Option<nat>): (r: Option<nat>)
    ensures r.Some? <==> id.Some? && id.value != 0
    ensures r.Some? ==> r == id
  {
    if id.Some? && id.value != 0 then id else None
  }

  /** `x.account_id && parseInt(x.account_id, 10) !== accountId`. */
  predicate Foreign(account: Option<Parsed>, caller: UserId) {
    account.Some? && account.value != Int(caller)
  }

  /** `(c.type || "").toString().toUpperCase()` checked against INCOME and EXPENSE. */
  function KindOf(kind: Option<string>): (r: Option<Kind>)
    ensures r == Some(Income) <==> Upper(kind.GetOr("")) == "INCOME"
    ensures r == Some(Expense) <==> Upper(kind.GetOr("")) == "EXPENSE"
  {
    var raw := Upper(kind.GetOr(""));
    if raw == "INCOME" then Some(Income)
    else if raw == "EXPENSE" then Some(Expense)
    else None
  }

  /** The checks importAll makes of each item before writing it. */
  predicate CategoryValid(caller: UserId, item: Option<CategoryItem>) {
    item.Some? && !Foreign(item.value.account, caller) && KindOf(item.value.kind).Some?
  }

  function CategoryError(caller: UserId, item: Option<CategoryItem>): ImportError {
    if item.None? then NullItem
    else if Foreign(item.value.account, caller) then ForeignCategory
    else BadCategoryType
  }

  predicate TransactionValid(caller: UserId, item: Option<TransactionItem>) {
    item.Some? && !Foreign(item.value.account, caller) && item.value.category.Some?
  }

  function TransactionError(caller: UserId, item: Option<TransactionItem>): ImportError {
    if item.None? then NullItem
    else if Foreign(item.value.account, caller) then ForeignTransaction
    else MissingCategory(item.value.id)
  }

  predicate BudgetValid(caller: UserId, item: Option<BudgetItem>) {
    item.Some? && !Foreign(item.value.account, caller)
  }

  function BudgetError(item: Option<BudgetItem>): ImportError {
    if item.None? then NullItem else ForeignBudget
  }

  /** Every item of the payload passes its checks. */
  predicate PayloadValid(caller: UserId, p: Payload) {
    && (forall i :: 0 <= i < |Items(p.categories)| ==> CategoryValid(caller, Items(p.categories)[i]))
    && (forall i :: 0 <= i < |Items(p.transactions)| ==> TransactionValid(caller, Items(p.transactions)[i]))
    && (forall i :: 0 <= i < |Items(p.budgets)| ==> BudgetValid(caller, Items(p.budgets)[i]))
  }

  // ---------------------------------------------------------------- upserts

  /** A table as the import sees it: its rows and its auto-increment counter. */
  datatype Tab<R> = Tab(rows: map<Id, R>, next: nat)

  predicate Bounded<R>(t: Tab<R>) {
    forall k :: k in t.rows ==> k < t.next
  }

  /** What one item, or one list of items, leaves in a table. */
  datatype Step<R> = Done(table: Tab<R>) | Failed(error: ImportError)

  /** `INSERT (id, ...) ... ON DUPLICATE KEY UPDATE` on a table whose only
      unique key is the id: an explicit id that exists gets its row
      updated; otherwise the row is inserted at the explicit id, or at the
      counter, which moves past the new id. */
  function Upsert<R>(t: Tab<R>, id: Option<nat>, inserted: R, update: R -> R): (r: Tab<R>)
    ensures r.next >= t.next
    ensures t.rows.Keys <= r.rows.Keys
    ensures Bounded(t) ==> Bounded(r)
    ensures Bounded(t) ==> forall k :: k in t.rows && Named(id) != Some(k) ==> r.rows[k] == t.rows[k]
    ensures forall k :: k in t.rows && Named(id) == Some(k) ==> r.rows[k] == update(t.rows[k])
    ensures forall k :: k in r.rows && k !in t.rows ==> r.rows[k] == inserted
    ensures Named(id).Some? && Named(id).value !in t.rows ==> Named(id).value in r.rows
  {
    match Named(id)
    case Some(k) =>
      if k in t.rows then Tab(t.rows[k := update(t.rows[k])], t.next)
      else Tab(t.rows[k := inserted], if k < t.next then t.next else k + 1)
    case None => Tab(t.rows[t.next := inserted], t.next + 1)
  }

  /** One category of the payload. The row gets the caller's account also
      when an existing row is updated. */
  function CategoryStep(t: Tab<Category>, caller: UserId, item: Option<CategoryItem>): (r: Step<Category>)
    ensures r.Failed? <==> !CategoryValid(caller, item)
    ensures r.Failed? ==> r.error == CategoryError(caller, item)
    ensures r.Done? ==> r.table.next >= t.next
  {
    if item.None? then Failed(NullItem)
    else
      var c := item.value;
      if Foreign(c.account, caller) then Failed(ForeignCategory)
      else if KindOf(c.kind).None? then Failed(BadCategoryType)
      else
        var row := Category(caller, c.name, KindOf(c.kind).value);
        Done(Upsert(t, c.id, row, (was: Category) => row))
  }

  /** One transaction of the payload. An existing row keeps its account. */
  function TransactionStep(t: Tab<Transaction>, caller: UserId, item: Option<TransactionItem>):
    (r: Step<Transaction>)
    ensures r.Failed? <==> !TransactionValid(caller, item)
    ensures r.Failed? ==> r.error == TransactionError(caller, item)
    ensures r.Done? ==> r.table.next >= t.next
  {
    if item.None? then Failed(NullItem)
    else
      var x := item.value;
      if Foreign(x.account, caller) then Failed(ForeignTransaction)
      else if x.category.None? then Failed(MissingCategory(x.id))
      else
        var note := TextOrNull(x.note);
        Done(Upsert(t, x.id, Transaction(caller, x.category.value, x.amount, note, x.date),
                    (was: Transaction) => was.(category := x.category.value, amount := x.amount, note := note,
                                               date := x.date)))
  }

  /** A row other than k holds the key. */
  function KeyElsewhere(rows: map<Id, Budget>, n: nat, k: Id, account: int, category: int, month: int, year: int):
    (r: bool)
    ensures (forall j :: j in rows ==> j < n) ==>
      (r <==> exists j :: j in rows && j != k && HasKey(rows[j], account, category, month, year))
  {
    First(rows, n, (j: nat, b: Budget) => j != k && HasKey(b, account, category, month, year)).Some?
  }

  /** One budget of the payload. The table has two unique keys, the id and
      (account, category, month, year). An explicit id that exists has its
      row updated, which fails when the new key is another row's; otherwise
      a row of the caller with the same key has its limit replaced;
      otherwise the row is inserted. */
  function BudgetStep(t: Tab<Budget>, caller: UserId, item: Option<BudgetItem>): (r: Step<Budget>)
    ensures r.Failed? ==> !BudgetValid(caller, item) || r.error == DuplicateKey
    ensures !BudgetValid(caller, item) ==> r.Failed? && r.error == BudgetError(item)
    ensures r.Done? ==> r.table.next >= t.next
  {
    if item.None? then Failed(NullItem)
    else
      var b := item.value;
      if Foreign(b.account, caller) then Failed(ForeignBudget)
      else
        var id := Named(b.id);
        if id.Some? && id.value in t.rows then
          var k := id.value;
          var was := t.rows[k];
          if KeyElsewhere(t.rows, t.next, k, was.account, b.category, b.month, b.year) then Failed(DuplicateKey)
          else Done(Tab(t.rows[k := was.(category := b.category, month := b.month, year := b.year, limit := b.limit)],
                        t.next))
        else
          var same := First(t.rows, t.next, KeyIs(caller, b.category, b.month, b.year));
          if same.Some? then
            Done(Tab(t.rows[same.value := t.rows[same.value].(limit := b.limit)], t.next))
          else
            var row := Budget(caller, b.category, b.month, b.year, b.limit);
            match id
            case Some(k) => Done(Tab(t.rows[k := row], if k < t.next then t.next else k + 1))
            case None => Done(Tab(t.rows[t.next := row], t.next + 1))
  }

  /** The items of a list applied in order, stopping at the first failure:
      the `for (const x of list)` loop inside the transaction. */
  function Fold<R, I>(t: Tab<R>, items: seq<I>, put: (Tab<R>, I) -> Step<R>): Step<R>
    decreases |items|
  {
    if items == [] then Done(t)
    else
      var prev := Fold(t, items[..|items| - 1], put);
      if prev.Failed? then prev else put(prev.table, items[|items| - 1])
  }

  function PutCategory(caller: UserId): (Tab<Category>, Option<CategoryItem>) -> Step<Category> {
    (t: Tab<Category>, item: Option<CategoryItem>) => CategoryStep(t, caller, item)
  }

  function PutTransaction(caller: UserId): (Tab<Transaction>, Option<TransactionItem>) -> Step<Transaction> {
    (t: Tab<Transaction>, item: Option<TransactionItem>) => TransactionStep(t, caller, item)
  }

  function PutBudget(caller: UserId): (Tab<Budget>, Option<BudgetItem>) -> Step<Budget> {
    (t: Tab<Budget>, item: Option<BudgetItem>) => BudgetStep(t, caller, item)
  }

  // ---------------------------------------------------------------- importAll

  /** The three tables. */
  datatype Store = Store(categories: Tab<Category>, transactions: Tab<Transaction>, budgets: Tab<Budget>)

  predicate StoreValid(s: Store) {
    Bounded(s.categories) && Bounded(s.transactions) && Bounded(s.budgets) && KeysUnique(s.budgets.rows)
  }

  /** `DELETE FROM <table> WHERE account_id = ?`: the rows that own does not
      claim, unchanged. */
  function OthersRows<R>(rows: map<Id, R>, own: R -> bool): (r: map<Id, R>)
    ensures forall k :: k in r <==> k in rows && !own(rows[k])
    ensures forall k :: k in r ==> r[k] == rows[k]
  {
    map k | k in rows && !own(rows[k]) :: rows[k]
  }

  /** The three DELETE statements: the caller's rows go, the counters stay. */
  function Cleared(s: Store, caller: UserId): Store {
    Store(Tab(OthersRows(s.categories.rows, CategoryOwner(caller)), s.categories.next),
          Tab(OthersRows(s.transactions.rows, TransactionOwner(caller)), s.transactions.next),
          Tab(OthersRows(s.budgets.rows, BudgetOwner(caller)), s.budgets.next))
  }


  /** What an import leaves: the new tables, or the error it threw. */
  datatype ImportResult = Imported(store: Store) | Aborted(error: ImportError)

  /** `importAll` on values: the deletes, then the categories, the
      transactions and the budgets; the first failure is the result. */
  function Import(s: Store, caller: UserId, p: Payload): ImportResult {
    var c := Cleared(s, caller);
    var cats := Fold(c.categories, Items(p.categories), PutCategory(caller));
    if cats.Failed? then Aborted(cats.error)
    else
      var txs := Fold(c.transactions, Items(p.transactions), PutTransaction(caller));
      if txs.Failed? then Aborted(txs.error)
      else
        var budgets := Fold(c.budgets, Items(p.budgets), PutBudget(caller));
        if budgets.Failed? then Aborted(budgets.error)
        else Imported(Store(cats.table, txs.table, budgets.table))
  }

  // ---------------------------------------------------------------- folds

  /** The last item is applied to what the others left, unless they failed. */
  lemma FoldLast<R, I>(t: Tab<R>, items: seq<I>, put: (Tab<R>, I) -> Step<R>)
    requires items != []
    ensures var prev := Fold(t, items[..|items| - 1], put);
      Fold(t, items, put) == if prev.Failed? then prev else put(prev.table, items[|items| - 1])
  {
  }

  /** A relation to the start that every accepted step keeps holds at the end. */
  lemma {:induction false} FoldKeeps<R, I>(t: Tab<R>, items: seq<I>, put: (Tab<R>, I) -> Step<R>,
                                           rel: (Tab<R>, Tab<R>) -> bool)
    requires rel(t, t)
    requires forall u, i :: i in items && rel(t, u) && put(u, i).Done? ==> rel(t, put(u, i).table)
    ensures Fold(t, items, put).Done? ==> rel(t, Fold(t, items, put).table)
    decreases |items|
  {
    if items != [] {
      var init, last := items[..|items| - 1], items[|items| - 1];
      assert forall i :: i in init ==> i in items;
      assert last in items;
      FoldKeeps(t, init, put, rel);
      FoldLast(t, items, put);
    }
  }

  /** An item every step rejects makes the whole list fail. */
  lemma {:induction false} FoldRejects<R, I>(t: Tab<R>, items: seq<I>, put: (Tab<R>, I) -> Step<R>,
                                             bad: I -> bool)
    requires forall u, i :: bad(i) ==> put(u, i).Failed?
    ensures (exists j :: 0 <= j < |items| && bad(items[j])) ==> Fold(t, items, put).Failed?
    decreases |items|
  {
    if items != [] {
      var init := items[..|items| - 1];
      FoldRejects(t, init, put, bad);
      FoldLast(t, items, put);
      if exists j :: 0 <= j < |items| && bad(items[j]) {
        var j :| 0 <= j < |items| && bad(items[j]);
        if j < |init| {
          assert bad(init[j]);
        }
      }
    }
  }

  /** A list fails only with an error one of its steps can raise. */
  lemma {:induction false} FoldFailsWith<R, I>(t: Tab<R>, items: seq<I>, put: (Tab<R>, I) -> Step<R>,
                                               raised: (I, ImportError) -> bool)
    requires forall u, i :: i in items && put(u, i).Failed? ==> raised(i, put(u, i).error)
    ensures Fold(t, items, put).Failed? ==>
      exists j :: 0 <= j < |items| && raised(items[j], Fold(t, items, put).error)
    decreases |items|
  {
    if items != [] {
      var init := items[..|items| - 1];
      assert forall i :: i in init ==> i in items;
      FoldFailsWith(t, init, put, raised);
      FoldLast(t, items, put);
      var prev := Fold(t, init, put);
      if prev.Failed? {
        var j :| 0 <= j < |init| && raised(init[j], prev.error);
        assert items[j] == init[j];
      } else {
        assert items[|items| - 1] in items;
      }
    }
  }

  /** When exactly the bad items are rejected, each with its own error, a
      list fails exactly when it holds a bad item, with the first one's error. */
  lemma {:induction false} FoldFirstBad<R, I>(t: Tab<R>, items: seq<I>, put: (Tab<R>, I) -> Step<R>,
                                              bad: I -> bool, err: I -> ImportError)
    requires forall u, i :: put(u, i).Failed? <==> bad(i)
    requires forall u, i :: bad(i) ==> put(u, i).error == err(i)
    ensures Fold(t, items, put).Failed? <==> exists j :: 0 <= j < |items| && bad(items[j])
    ensures Fold(t, items, put).Failed? ==>
      exists j :: 0 <= j < |items| && bad(items[j]) && (forall i :: 0 <= i < j ==> !bad(items[i]))
                  && Fold(t, items, put).error == err(items[j])
    decreases |items|
  {
    if items != [] {
      var init := items[..|items| - 1];
      FoldFirstBad(t, init, put, bad, err);
      FoldLast(t, items, put);
      var prev := Fold(t, init, put);
      if prev.Failed? {
        var j :| 0 <= j < |init| && bad(init[j]) && (forall i :: 0 <= i < j ==> !bad(init[i])) && prev.error == err(init[j]);
        assert items[j] == init[j] && forall i :: 0 <= i < j ==> items[i] == init[i];
      } else {
        assert forall j :: 0 <= j < |init| ==> !bad(items[j]) by {
          forall j | 0 <= j < |init| ensures !bad(items[j]) {
            assert items[j] == init[j];
          }
        }
      }
    }
  }

  /** Once a prefix fails, the rest of the list is not applied. */
  lemma {:induction false} FoldFailedPrefix<R, I>(t: Tab<R>, items: seq<I>, j: nat, put: (Tab<R>, I) -> Step<R>)
    requires j <= |items| && Fold(t, items[..j], put).Failed?
    ensures Fold(t, items, put) == Fold(t, items[..j], put)
    decreases |items|
  {
    if j < |items| {
      var init := items[..|items| - 1];
      assert init[..j] == items[..j];
      FoldFailedPrefix(t, init, j, put);
      FoldLast(t, items, put);
    } else {
      assert items[..j] == items;
    }
  }

  // ---------------------------------------------------------------- what an import changes

  function CategoryItemId(c: CategoryItem): Option<nat> { c.id }
  function TransactionItemId(x: TransactionItem): Option<nat> { x.id }
  function BudgetItemId(b: BudgetItem): Option<nat> { b.id }

  /** The explicit ids the items of a list name. */
  function NamedIds<I(==)>(items: seq<Option<I>>, idOf: I -> Option<nat>): (r: set<nat>)
    ensures forall i :: i in items && i.Some? && Named(idOf(i.value)).Some? ==> Named(idOf(i.value)).value in r
    ensures forall x :: x in r ==> exists i :: i in items && i.Some? && Named(idOf(i.value)) == Some(x)
  {
    set i | i in items && i.Some? && Named(idOf(i.value)).Some? :: Named(idOf(i.value)).value
  }

  /** How a list of upserts may have changed a table t0 into u: the counter
      only grows, a row of t0 whose id no item names is untouched, and an id
      below t0's counter that t0 lacks and no item names stays free. */
  predicate Evolved<R(==)>(t0: Tab<R>, u: Tab<R>, named: set<nat>) {
    && Bounded(u) && u.next >= t0.next
    && (forall k :: k in t0.rows && k !in named ==> k in u.rows && u.rows[k] == t0.rows[k])
    && (forall k :: k < t0.next && k !in t0.rows && k !in named ==> k !in u.rows)
  }

  /** Each category is the caller's or untouched. */
  predicate CategoriesEvolved(t0: Tab<Category>, u: Tab<Category>, caller: UserId, named: set<nat>) {
    && Evolved(t0, u, named)
    && (forall k :: k in u.rows ==> u.rows[k].account == caller || (k in t0.rows && u.rows[k] == t0.rows[k]))
  }

  /** Each transaction is the caller's or kept its account. */
  predicate TransactionsEvolved(t0: Tab<Transaction>, u: Tab<Transaction>, caller: UserId, named: set<nat>) {
    && Evolved(t0, u, named)
    && (forall k :: k in u.rows ==>
          u.rows[k].account == caller || (k in t0.rows && u.rows[k].account == t0.rows[k].account))
  }

  /** Each budget is the caller's or kept its account, and keys stay unique. */
  predicate BudgetsEvolved(t0: Tab<Budget>, u: Tab<Budget>, caller: UserId, named: set<nat>) {
    && Evolved(t0, u, named)
    && (forall k :: k in u.rows ==>
          u.rows[k].account == caller || (k in t0.rows && u.rows[k].account == t0.rows[k].account))
    && KeysUnique(u.rows)
  }

  lemma CategoryStepKeeps(t0: Tab<Category>, u: Tab<Category>, caller: UserId, item: Option<CategoryItem>,
                          named: set<nat>)
    requires Bounded(t0) && CategoriesEvolved(t0, u, caller, named)
    requires item.Some? && Named(item.value.id).Some? ==> Named(item.value.id).value in named
    ensures CategoryStep(u, caller, item).Done? ==> CategoriesEvolved(t0, CategoryStep(u, caller, item).table, caller, named)
  {
  }

  lemma TransactionStepKeeps(t0: Tab<Transaction>, u: Tab<Transaction>, caller: UserId, item: Option<TransactionItem>,
                             named: set<nat>)
    requires Bounded(t0) && TransactionsEvolved(t0, u, caller, named)
    requires item.Some? && Named(item.value.id).Some? ==> Named(item.value.id).value in named
    ensures TransactionStep(u, caller, item).Done? ==>
      TransactionsEvolved(t0, TransactionStep(u, caller, item).table, caller, named)
  {
  }

  lemma BudgetStepKeeps(t0: Tab<Budget>, u: Tab<Budget>, caller: UserId, item: Option<BudgetItem>, named: set<nat>)
    requires Bounded(t0) && BudgetsEvolved(t0, u, caller, named)
    requires forall k :: k in t0.rows ==> t0.rows[k].account != caller
    requires item.Some? && Named(item.value.id).Some? ==> Named(item.value.id).value in named
    ensures BudgetStep(u, caller, item).Done? ==> BudgetsEvolved(t0, BudgetStep(u, caller, item).table, caller, named)
  {
    if item.Some? && !Foreign(item.value.account, caller) {
      var b := item.value;
      var id := Named(b.id);
      if id.Some? && id.value in u.rows {
        RekeyKeeps(t0, u, caller, b, named);
      } else {
        var same := First(u.rows, u.next, KeyIs(caller, b.category, b.month, b.year));
        if same.Some? {
          var j := same.value;
          assert u.rows[j].account == caller;
          LimitKeepsKeys(u.rows, j, b.limit);
        } else {
          InsertKeeps(t0, u, caller, b, named);
        }
      }
    }
  }

  /** The case of an explicit id that the table holds. */
  lemma RekeyKeeps(t0: Tab<Budget>, u: Tab<Budget>, caller: UserId, b: BudgetItem, named: set<nat>)
    requires Bounded(t0) && BudgetsEvolved(t0, u, caller, named)
    requires !Foreign(b.account, caller) && Named(b.id).Some? && Named(b.id).value in u.rows && Named(b.id).value in named
    ensures BudgetStep(u, caller, Some(b)).Done? ==> BudgetsEvolved(t0, BudgetStep(u, caller, Some(b)).table, caller, named)
  {
    var k := Named(b.id).value;
    var was := u.rows[k];
    if !KeyElsewhere(u.rows, u.next, k, was.account, b.category, b.month, b.year) {
      RekeyKeepsKeys(u.rows, k, was.(category := b.category, month := b.month, year := b.year, limit := b.limit));
    }
  }

  /** The case of a new row. */
  lemma InsertKeeps(t0: Tab<Budget>, u: Tab<Budget>, caller: UserId, b: BudgetItem, named: set<nat>)
    requires Bounded(t0) && BudgetsEvolved(t0, u, caller, named)
    requires !Foreign(b.account, caller) && (Named(b.id).Some? ==> Named(b.id).value !in u.rows && Named(b.id).value in named)
    requires First(u.rows, u.next, KeyIs(caller, b.category, b.month, b.year)).None?
    ensures BudgetStep(u, caller, Some(b)).Done? ==> BudgetsEvolved(t0, BudgetStep(u, caller, Some(b)).table, caller, named)
  {
    var id := Named(b.id);
    var row := Budget(caller, b.category, b.month, b.year, b.limit);
    var at := if id.Some? then id.value else u.next;
    NewKeyKeepsKeys(u.rows, at, row);
  }

  /** A row given a key no other row holds keeps the keys unique. */
  lemma RekeyKeepsKeys(rows: map<Id, Budget>, k: Id, b: Budget)
    requires KeysUnique(rows) && k in rows
    requires forall j :: j in rows && j != k ==> !HasKey(rows[j], b.account, b.category, b.month, b.year)
    ensures KeysUnique(rows[k := b])
  {
  }

  function CategoriesRel(caller: UserId, named: set<nat>): (Tab<Category>, Tab<Category>) -> bool {
    (a: Tab<Category>, b: Tab<Category>) => CategoriesEvolved(a, b, caller, named)
  }

  function TransactionsRel(caller: UserId, named: set<nat>): (Tab<Transaction>, Tab<Transaction>) -> bool {
    (a: Tab<Transaction>, b: Tab<Transaction>) => TransactionsEvolved(a, b, caller, named)
  }

  function BudgetsRel(caller: UserId, named: set<nat>): (Tab<Budget>, Tab<Budget>) -> bool {
    (a: Tab<Budget>, b: Tab<Budget>) => BudgetsEvolved(a, b, caller, named)
  }

  /** How each table of a successful import relates to the table left by
      the deletes. */
  lemma ImportEvolves(s: Store, caller: UserId, p: Payload)
    requires StoreValid(s)
    ensures Import(s, caller, p).Imported? ==>
      var c, r := Cleared(s, caller), Import(s, caller, p).store;
      && CategoriesEvolved(c.categories, r.categories, caller, NamedIds(Items(p.categories), CategoryItemId))
      && TransactionsEvolved(c.transactions, r.transactions, caller, NamedIds(Items(p.transactions), TransactionItemId))
      && BudgetsEvolved(c.budgets, r.budgets, caller, NamedIds(Items(p.budgets), BudgetItemId))
  {
    var c := Cleared(s, caller);
    var ci, ti, bi := Items(p.categories), Items(p.transactions), Items(p.budgets);
    var cn, tn, bn := NamedIds(ci, CategoryItemId), NamedIds(ti, TransactionItemId), NamedIds(bi, BudgetItemId);
    forall u, i | i in ci && CategoriesRel(caller, cn)(c.categories, u) && PutCategory(caller)(u, i).Done?
      ensures CategoriesRel(caller, cn)(c.categories, PutCategory(caller)(u, i).table)
    {
      CategoryStepKeeps(c.categories, u, caller, i, cn);
    }
    FoldKeeps(c.categories, ci, PutCategory(caller), CategoriesRel(caller, cn));
    forall u, i | i in ti && TransactionsRel(caller, tn)(c.transactions, u) && PutTransaction(caller)(u, i).Done?
      ensures TransactionsRel(caller, tn)(c.transactions, PutTransaction(caller)(u, i).table)
    {
      TransactionStepKeeps(c.transactions, u, caller, i, tn);
    }
    FoldKeeps(c.transactions, ti, PutTransaction(caller), TransactionsRel(caller, tn));
    forall u, i | i in bi && BudgetsRel(caller, bn)(c.budgets, u) && PutBudget(caller)(u, i).Done?
      ensures BudgetsRel(caller, bn)(c.budgets, PutBudget(caller)(u, i).table)
    {
      BudgetStepKeeps(c.budgets, u, caller, i, bn);
    }
    FoldKeeps(c.budgets, bi, PutBudget(caller), BudgetsRel(caller, bn));
  }

  /** After a successful import the tables are well formed, the caller's
      former categories are gone except where an item names their id, the
      other accounts' categories that no item names are untouched, and every
      other category is the caller's. */
  lemma ImportCategories(s: Store, caller: UserId, p: Payload)
    requires StoreValid(s)
    ensures Import(s, caller, p).Imported? ==>
      var before, r, named := s.categories.rows, Import(s, caller, p).store.categories.rows,
                           NamedIds(Items(p.categories), CategoryItemId);
      && (forall k :: k in before && before[k].account == caller && k !in named ==> k !in r)
      && (forall k :: k in before && before[k].account != caller && k !in named ==> k in r && r[k] == before[k])
      && (forall k :: k in r && (k !in before || r[k] != before[k]) ==> r[k].account == caller)
  {
    ImportEvolves(s, caller, p);
  }

  /** The same for transactions, except that a transaction of another
      account whose id an item names keeps that account. */
  lemma ImportTransactions(s: Store, caller: UserId, p: Payload)
    requires StoreValid(s)
    ensures Import(s, caller, p).Imported? ==>
      var before, r, named := s.transactions.rows, Import(s, caller, p).store.transactions.rows,
                           NamedIds(Items(p.transactions), TransactionItemId);
      && (forall k :: k in before && before[k].account == caller && k !in named ==> k !in r)
      && (forall k :: k in before && before[k].account != caller && k !in named ==> k in r && r[k] == before[k])
      && (forall k :: k in r && k !in before ==> r[k].account == caller)
      && (forall k :: k in r && k in before ==> r[k].account == caller || r[k].account == before[k].account)
  {
    ImportEvolves(s, caller, p);
  }

  /** The same for budgets. */
  lemma ImportBudgets(s: Store, caller: UserId, p: Payload)
    requires StoreValid(s)
    ensures Import(s, caller, p).Imported? ==>
      var before, r, named := s.budgets.rows, Import(s, caller, p).store.budgets.rows,
                           NamedIds(Items(p.budgets), BudgetItemId);
      && (forall k :: k in before && before[k].account == caller && k !in named ==> k !in r)
      && (forall k :: k in before && before[k].account != caller && k !in named ==> k in r && r[k] == before[k])
      && (forall k :: k in r && k !in before ==> r[k].account == caller)
      && (forall k :: k in r && k in before ==> r[k].account == caller || r[k].account == before[k].account)
  {
    ImportEvolves(s, caller, p);
  }

  /** A successful import leaves well-formed tables: ids below the
      counters, one budget per key. */
  lemma ImportKeepsValid(s: Store, caller: UserId, p: Payload)
    requires StoreValid(s)
    ensures Import(s, caller, p).Imported? ==> StoreValid(Import(s, caller, p).store)
  {
    ImportEvolves(s, caller, p);
  }

  /** An import fails exactly when an item fails its checks, or when a budget
      would duplicate a key; the error is that of the first failing
      category, else of the first failing transaction. */
  lemma ImportChecks(s: Store, caller: UserId, p: Payload)
    ensures Import(s, caller, p).Aborted? <==>
      !PayloadValid(caller, p) || Import(s, caller, p) == Aborted(DuplicateKey)
    ensures var cs := Items(p.categories);
      (exists j :: 0 <= j < |cs| && !CategoryValid(caller, cs[j])) ==>
      exists j :: 0 <= j < |cs| && !CategoryValid(caller, cs[j]) && (forall i :: 0 <= i < j ==> CategoryValid(caller, cs[i]))
                  && Import(s, caller, p) == Aborted(CategoryError(caller, cs[j]))
    ensures var cs, ts := Items(p.categories), Items(p.transactions);
      (forall i :: 0 <= i < |cs| ==> CategoryValid(caller, cs[i])) && (exists j :: 0 <= j < |ts| && !TransactionValid(caller, ts[j])) ==>
      exists j :: 0 <= j < |ts| && !TransactionValid(caller, ts[j]) && (forall i :: 0 <= i < j ==> TransactionValid(caller, ts[i]))
                  && Import(s, caller, p) == Aborted(TransactionError(caller, ts[j]))
  {
    var c := Cleared(s, caller);
    var cs, ts, bs := Items(p.categories), Items(p.transactions), Items(p.budgets);
    FoldFirstBad(c.categories, cs, PutCategory(caller), (i: Option<CategoryItem>) => !CategoryValid(caller, i),
                 (i: Option<CategoryItem>) => CategoryError(caller, i));
    FoldFirstBad(c.transactions, ts, PutTransaction(caller), (i: Option<TransactionItem>) => !TransactionValid(caller, i),
                 (i: Option<TransactionItem>) => TransactionError(caller, i));
    FoldRejects(c.budgets, bs, PutBudget(caller), (i: Option<BudgetItem>) => !BudgetValid(caller, i));
    FoldFailsWith(c.budgets, bs, PutBudget(caller),
                  (i: Option<BudgetItem>, e: ImportError) => !BudgetValid(caller, i) || e == DuplicateKey);
  }

  // ---------------------------------------------------------------- rows of other accounts

  /** As written, an item whose id is another account's category takes that
      category over: the upsert matches the id and sets the caller's
      account, name and type. */
  lemma ImportTakesForeignCategory(s: Store, caller: UserId, k: Id, c: CategoryItem)
    requires StoreValid(s) && k in s.categories.rows && s.categories.rows[k].account != caller
    requires Named(c.id) == Some(k) && CategoryValid(caller, Some(c))
    ensures var r := Import(s, caller, Payload(Some([Some(c)]), None, None));
      && r.Imported?
      && r.store.categories.rows[k].account == caller
      && r.store.categories.rows[k] != s.categories.rows[k]
  {
    var items := [Some(c)];
    var t := Cleared(s, caller).categories;
    assert k in t.rows;
    assert items[..0] == [];
    FoldLast(t, items, PutCategory(caller));
  }

  /** Some item of the list names an id that a row of `rows` holds. */
  predicate Claims<R, I(==)>(rows: map<Id, R>, items: seq<Option<I>>, idOf: I -> Option<nat>) {
    exists k :: k in NamedIds(items, idOf) && k in rows
  }

  /** The evidently intended import: an item naming the id of a row that
      another account keeps after the deletes is rejected as foreign. */
  function ImportOwned(s: Store, caller: UserId, p: Payload): ImportResult {
    var c := Cleared(s, caller);
    if Claims(c.categories.rows, Items(p.categories), CategoryItemId) then Aborted(ForeignCategory)
    else if Claims(c.transactions.rows, Items(p.transactions), TransactionItemId) then Aborted(ForeignTransaction)
    else if Claims(c.budgets.rows, Items(p.budgets), BudgetItemId) then Aborted(ForeignBudget)
    else Import(s, caller, p)
  }

  /** The intended import leaves every row of every other account as it
      was, and otherwise does what the import as written does. */
  lemma ImportOwnedKeepsOthers(s: Store, caller: UserId, p: Payload)
    requires StoreValid(s)
    ensures ImportOwned(s, caller, p).Imported? ==>
      var r := ImportOwned(s, caller, p).store;
      && r == Import(s, caller, p).store
      && (forall k :: k in s.categories.rows && s.categories.rows[k].account != caller ==>
            k in r.categories.rows && r.categories.rows[k] == s.categories.rows[k])
      && (forall k :: k in s.transactions.rows && s.transactions.rows[k].account != caller ==>
            k in r.transactions.rows && r.transactions.rows[k] == s.transactions.rows[k])
      && (forall k :: k in s.budgets.rows && s.budgets.rows[k].account != caller ==>
            k in r.budgets.rows && r.budgets.rows[k] == s.budgets.rows[k])
  {
    ImportCategories(s, caller, p);
    ImportTransactions(s, caller, p);
    ImportBudgets(s, caller, p);
  }

  // ---------------------------------------------------------------- importAll on the tables

  /** The three tables as one value. */
  function StoreOf(categories: CategoryTable, transactions: TransactionTable, budgets: BudgetTable): Store
    reads categories, transactions, budgets
  {
    Store(Tab(categories.rows, categories.next), Tab(transactions.rows, transactions.next),
          Tab(budgets.rows, budgets.next))
  }

  /** The categories loop: the items upserted in order; the first failing
      item's error, with the table then left part-way. */
  method InsertCategories(table: CategoryTable, caller: UserId, items: seq<Option<CategoryItem>>)
    returns (failed: Option<ImportError>)
    modifies table
    ensures var r := Fold(old(Tab(table.rows, table.next)), items, PutCategory(caller));
      && (failed.None? <==> r.Done?)
      && (r.Done? ==> Tab(table.rows, table.next) == r.table)
      && (r.Failed? ==> failed == Some(r.error))
    ensures table.next >= old(table.next)
  {
    ghost var t0 := Tab(table.rows, table.next);
    var i := 0;
    while i < |items|
      invariant i <= |items|
      invariant Fold(t0, items[..i], PutCategory(caller)) == Done(Tab(table.rows, table.next))
      invariant table.next >= t0.next
    {
      var step := CategoryStep(Tab(table.rows, table.next), caller, items[i]);
      assert items[..i + 1][..i] == items[..i];
      FoldLast(t0, items[..i + 1], PutCategory(caller));
      if step.Failed? {
        FoldFailedPrefix(t0, items, i + 1, PutCategory(caller));
        return Some(step.error);
      }
      table.rows, table.next := step.table.rows, step.table.next;
      i := i + 1;
    }
    assert items[..i] == items;
    return None;
  }

  /** The transactions loop. */
  method InsertTransactions(table: TransactionTable, caller: UserId, items: seq<Option<TransactionItem>>)
    returns (failed: Option<ImportError>)
    modifies table
    ensures var r := Fold(old(Tab(table.rows, table.next)), items, PutTransaction(caller));
      && (failed.None? <==> r.Done?)
      && (r.Done? ==> Tab(table.rows, table.next) == r.table)
      && (r.Failed? ==> failed == Some(r.error))
    ensures table.next >= old(table.next)
  {
    ghost var t0 := Tab(table.rows, table.next);
    var i := 0;
    while i < |items|
      invariant i <= |items|
      invariant Fold(t0, items[..i], PutTransaction(caller)) == Done(Tab(table.rows, table.next))
      invariant table.next >= t0.next
    {
      var step := TransactionStep(Tab(table.rows, table.next), caller, items[i]);
      assert items[..i + 1][..i] == items[..i];
      FoldLast(t0, items[..i + 1], PutTransaction(caller));
      if step.Failed? {
        FoldFailedPrefix(t0, items, i + 1, PutTransaction(caller));
        return Some(step.error);
      }
      table.rows, table.next := step.table.rows, step.table.next;
      i := i + 1;
    }
    assert items[..i] == items;
    return None;
  }

  /** The budgets loop. */
  method InsertBudgets(table: BudgetTable, caller: UserId, items: seq<Option<BudgetItem>>)
    returns (failed: Option<ImportError>)
    modifies table
    ensures var r := Fold(old(Tab(table.rows, table.next)), items, PutBudget(caller));
      && (failed.None? <==> r.Done?)
      && (r.Done? ==> Tab(table.rows, table.next) == r.table)
      && (r.Failed? ==> failed == Some(r.error))
    ensures table.next >= old(table.next)
  {
    ghost var t0 := Tab(table.rows, table.next);
    var i := 0;
    while i < |items|
      invariant i <= |items|
      invariant Fold(t0, items[..i], PutBudget(caller)) == Done(Tab(table.rows, table.next))
      invariant table.next >= t0.next
    {
      var step := BudgetStep(Tab(table.rows, table.next), caller, items[i]);
      assert items[..i + 1][..i] == items[..i];
      FoldLast(t0, items[..i + 1], PutBudget(caller));
      if step.Failed? {
        FoldFailedPrefix(t0, items, i + 1, PutBudget(caller));
        return Some(step.error);
      }
      table.rows, table.next := step.table.rows, step.table.next;
      i := i + 1;
    }
    assert items[..i] == items;
    return None;
  }

  /** `importAll`: inside one database transaction, the caller's rows are
      deleted and the three lists upserted; on the first error the
      transaction rolls back, so every row is as before (the counters keep
      the ids they handed out), and the error is rethrown. The result is
      None on success, else the error. */
  method ImportAll(categories: CategoryTable, transactions: TransactionTable, budgets: BudgetTable,
                   caller: UserId, p: Payload)
    returns (failed: Option<ImportError>)
    requires categories.Valid() && transactions.Valid() && budgets.Valid()
    modifies categories, transactions, budgets
    ensures categories.Valid() && transactions.Valid() && budgets.Valid()
    ensures var r := Import(old(StoreOf(categories, transactions, budgets)), caller, p);
      && (failed.None? <==> r.Imported?)
      && (r.Imported? ==> StoreOf(categories, transactions, budgets) == r.store)
      && (r.Aborted? ==> failed == Some(r.error))
    ensures failed.Some? ==>
      && categories.rows == old(categories.rows) && categories.next >= old(categories.next)
      && transactions.rows == old(transactions.rows) && transactions.next >= old(transactions.next)
      && budgets.rows == old(budgets.rows) && budgets.next >= old(budgets.next)
  {
    ghost var s0 := StoreOf(categories, transactions, budgets);
    var savedCategories, savedTransactions, savedBudgets := categories.rows, transactions.rows, budgets.rows;
    budgets.rows := OthersRows(budgets.rows, BudgetOwner(caller));
    transactions.rows := OthersRows(transactions.rows, TransactionOwner(caller));
    categories.rows := OthersRows(categories.rows, CategoryOwner(caller));
    assert StoreOf(categories, transactions, budgets) == Cleared(s0, caller);
    failed := InsertCategories(categories, caller, Items(p.categories));
    if failed.None? {
      failed := InsertTransactions(transactions, caller, Items(p.transactions));
      if failed.None? {
        failed := InsertBudgets(budgets, caller, Items(p.budgets));
      }
    }
    if failed.Some? {
      categories.rows, transactions.rows, budgets.rows := savedCategories, savedTransactions, savedBudgets;
    } else {
      ImportKeepsValid(s0, caller, p);
    }
  }

  // ---------------------------------------------------------------- backup, then restore

  /** `type` as exportAll writes it. */
  function KindText(k: Kind): string {
    if k == Income then "INCOME" else "EXPENSE"
  }

  /** importAll reads back the type exportAll wrote. */
  lemma KindTextRead(k: Kind)
    ensures KindOf(Some(KindText(k))) == Some(k)
  {
    UpperUnchanged("INCOME");
    UpperUnchanged("EXPENSE");
    assert Upper("INCOME") == "INCOME" && Upper("EXPENSE") == "EXPENSE";
    assert Some(KindText(k)).GetOr("") == KindText(k) && "EXPENSE" != "INCOME";
  }

  /** An exported row read back as an item of a restore payload. */
  function CategoryItemOf(rows: map<Id, Category>, k: Id): Option<CategoryItem> {
    if k in rows then Some(CategoryItem(Some(k), Some(Int(rows[k].account)), rows[k].name, Some(KindText(rows[k].kind))))
    else None
  }

  function TransactionItemOf(rows: map<Id, Transaction>, k: Id): Option<TransactionItem> {
    if k in rows then
      var x := rows[k];
      Some(TransactionItem(Some(k), Some(Int(x.account)), Some(x.category), x.amount, x.note, x.date))
    else None
  }

  function BudgetItemOf(rows: map<Id, Budget>, k: Id): Option<BudgetItem> {
    if k in rows then
      var b := rows[k];
      Some(BudgetItem(Some(k), Some(Int(b.account)), b.category, b.month, b.year, b.limit))
    else None
  }

  function CategoryItems(rows: map<Id, Category>, ids: seq<Id>): (r: seq<Option<CategoryItem>>)
    ensures |r| == |ids| && forall i :: 0 <= i < |ids| ==> r[i] == CategoryItemOf(rows, ids[i])
  {
    seq(|ids|, i requires 0 <= i < |ids| => CategoryItemOf(rows, ids[i]))
  }

  function TransactionItems(rows: map<Id, Transaction>, ids: seq<Id>): (r: seq<Option<TransactionItem>>)
    ensures |r| == |ids| && forall i :: 0 <= i < |ids| ==> r[i] == TransactionItemOf(rows, ids[i])
  {
    seq(|ids|, i requires 0 <= i < |ids| => TransactionItemOf(rows, ids[i]))
  }

  function BudgetItems(rows: map<Id, Budget>, ids: seq<Id>): (r: seq<Option<BudgetItem>>)
    ensures |r| == |ids| && forall i :: 0 <= i < |ids| ==> r[i] == BudgetItemOf(rows, ids[i])
  {
    seq(|ids|, i requires 0 <= i < |ids| => BudgetItemOf(rows, ids[i]))
  }

  /** The payload a restore receives when it is given what exportAll wrote. */
  function Backup(s: Store, caller: UserId): Payload
    requires StoreValid(s)
  {
    var e := ExportAll(s, caller);
    Payload(Some(CategoryItems(s.categories.rows, e.categories)),
            Some(TransactionItems(s.transactions.rows, e.transactions)),
            Some(BudgetItems(s.budgets.rows, e.budgets)))
  }

  /** Items applied one by one through a chain of tables reach its end. */
  lemma {:induction false} FoldChain<R, I>(t: Tab<R>, items: seq<I>, put: (Tab<R>, I) -> Step<R>, state: nat -> Tab<R>)
    requires state(0) == t
    requires forall i :: 0 <= i < |items| ==> put(state(i), items[i]) == Done(state(i + 1))
    ensures Fold(t, items, put) == Done(state(|items|))
    decreases |items|
  {
    if items != [] {
      var init := items[..|items| - 1];
      assert forall i :: 0 <= i < |init| ==> init[i] == items[i];
      FoldChain(t, init, put, state);
      FoldLast(t, items, put);
    }
  }

  /** The table part-way through a restore: the rows the deletes kept and
      the rows of the first i exported ids, as in the original table. */
  function Restored<R>(full: Tab<R>, kept: Tab<R>, ids: seq<Id>, i: nat): Tab<R> {
    Tab(map k | k in full.rows && (k in kept.rows || k in Take(ids, i)) :: full.rows[k], full.next)
  }

  function RestoredAt<R>(full: Tab<R>, kept: Tab<R>, ids: seq<Id>): nat -> Tab<R> {
    (i: nat) => Restored(full, kept, ids, i)
  }

  /** The chain starts at the kept rows and ends at the full table. */
  lemma RestoredEnds<R>(full: Tab<R>, kept: Tab<R>, ids: seq<Id>)
    requires kept.next == full.next
    requires forall k :: k in kept.rows ==> k in full.rows && kept.rows[k] == full.rows[k]
    requires forall k :: k in full.rows ==> (k in kept.rows <==> k !in ids)
    ensures Restored(full, kept, ids, 0) == kept
    ensures Restored(full, kept, ids, |ids|) == full
  {
    assert Take(ids, 0) == [];
    assert Take(ids, |ids|) == ids;
  }

  /** Each step of the chain adds the row of the next id, which the table
      did not hold. */
  lemma RestoredStep<R>(full: Tab<R>, kept: Tab<R>, ids: seq<Id>, i: nat)
    requires forall k :: k in full.rows ==> (k in kept.rows <==> k !in ids)
    requires NoDuplicates(ids) && i < |ids| && ids[i] in full.rows
    ensures ids[i] !in Restored(full, kept, ids, i).rows
    ensures Restored(full, kept, ids, i + 1) ==
      Tab(Restored(full, kept, ids, i).rows[ids[i] := full.rows[ids[i]]], full.next)
  {
    assert ids[i] in ids;
    assert Take(ids, i + 1) == Take(ids, i) + [ids[i]];
    assert ids[i] !in Take(ids, i) by {
      forall j | 0 <= j < i ensures Take(ids, i)[j] != ids[i] {
        assert Take(ids, i)[j] == ids[j];
      }
    }
  }

  /** How the exported ids of one table split it: the deletes keep exactly
      the rows of other accounts, and the ids are the caller's rows, each
      once. */
  ghost predicate Exported<R>(full: Tab<R>, kept: Tab<R>, ids: seq<Id>, own: R -> bool) {
    && Bounded(full) && kept.next == full.next && NoDuplicates(ids)
    && (forall k :: k in kept.rows ==> k in full.rows && kept.rows[k] == full.rows[k])
    && (forall k :: k in full.rows ==> (k in kept.rows <==> k !in ids))
    && (forall k :: k in ids <==> k in full.rows && own(full.rows[k]))
  }

  function CategoryOwner(caller: UserId): Category -> bool {
    (c: Category) => c.account == caller
  }

  function TransactionOwner(caller: UserId): Transaction -> bool {
    (x: Transaction) => x.account == caller
  }

  function BudgetOwner(caller: UserId): Budget -> bool {
    (b: Budget) => b.account == caller
  }

  lemma CategoryRestoreStep(full: Tab<Category>, kept: Tab<Category>, ids: seq<Id>, caller: UserId, i: nat)
    requires Exported(full, kept, ids, CategoryOwner(caller)) && i < |ids| && ids[i] != 0
    ensures CategoryStep(Restored(full, kept, ids, i), caller, CategoryItemOf(full.rows, ids[i])) ==
      Done(Restored(full, kept, ids, i + 1))
  {
    assert ids[i] in ids;
    RestoredStep(full, kept, ids, i);
    KindTextRead(full.rows[ids[i]].kind);
  }

  lemma TransactionRestoreStep(full: Tab<Transaction>, kept: Tab<Transaction>, ids: seq<Id>, caller: UserId, i: nat)
    requires Exported(full, kept, ids, TransactionOwner(caller)) && i < |ids| && ids[i] != 0
    requires full.rows[ids[i]].note != Some("")
    ensures TransactionStep(Restored(full, kept, ids, i), caller, TransactionItemOf(full.rows, ids[i])) ==
      Done(Restored(full, kept, ids, i + 1))
  {
    assert ids[i] in ids;
    RestoredStep(full, kept, ids, i);
  }

  lemma BudgetRestoreStep(full: Tab<Budget>, kept: Tab<Budget>, ids: seq<Id>, caller: UserId, i: nat)
    requires Exported(full, kept, ids, BudgetOwner(caller)) && KeysUnique(full.rows) && i < |ids| && ids[i] != 0
    ensures BudgetStep(Restored(full, kept, ids, i), caller, BudgetItemOf(full.rows, ids[i])) ==
      Done(Restored(full, kept, ids, i + 1))
  {
    assert ids[i] in ids;
    RestoredStep(full, kept, ids, i);
    var u, b := Restored(full, kept, ids, i), full.rows[ids[i]];
    assert forall k :: k in u.rows ==> u.rows[k] == full.rows[k] && k != ids[i];
    assert First(u.rows, u.next, KeyIs(caller, b.category, b.month, b.year)).None?;
  }

  /** A table restored item by item from its export. */
  lemma CategoriesRestored(full: Tab<Category>, kept: Tab<Category>, ids: seq<Id>, caller: UserId)
    requires Exported(full, kept, ids, CategoryOwner(caller)) && 0 !in ids
    ensures Fold(kept, CategoryItems(full.rows, ids), PutCategory(caller)) ==
      Done(full)
  {
    var items := CategoryItems(full.rows, ids);
    var state := RestoredAt(full, kept, ids);
    forall i | 0 <= i < |items| ensures PutCategory(caller)(state(i), items[i]) == Done(state(i + 1)) {
      assert ids[i] in ids;
      CategoryRestoreStep(full, kept, ids, caller, i);
    }
    RestoredEnds(full, kept, ids);
    FoldChain(kept, items, PutCategory(caller), state);
  }

  lemma TransactionsRestored(full: Tab<Transaction>, kept: Tab<Transaction>, ids: seq<Id>, caller: UserId)
    requires Exported(full, kept, ids, TransactionOwner(caller)) && 0 !in ids
    requires forall k :: k in ids ==> full.rows[k].note != Some("")
    ensures Fold(kept, TransactionItems(full.rows, ids),
                 PutTransaction(caller)) == Done(full)
  {
    var items := TransactionItems(full.rows, ids);
    var state := RestoredAt(full, kept, ids);
    forall i | 0 <= i < |items| ensures PutTransaction(caller)(state(i), items[i]) == Done(state(i + 1)) {
      assert ids[i] in ids;
      TransactionRestoreStep(full, kept, ids, caller, i);
    }
    RestoredEnds(full, kept, ids);
    FoldChain(kept, items, PutTransaction(caller), state);
  }

  lemma BudgetsRestored(full: Tab<Budget>, kept: Tab<Budget>, ids: seq<Id>, caller: UserId)
    requires Exported(full, kept, ids, BudgetOwner(caller)) && KeysUnique(full.rows) && 0 !in ids
    ensures Fold(kept, BudgetItems(full.rows, ids), PutBudget(caller)) ==
      Done(full)
  {
    var items := BudgetItems(full.rows, ids);
    var state := RestoredAt(full, kept, ids);
    forall i | 0 <= i < |items| ensures PutBudget(caller)(state(i), items[i]) == Done(state(i + 1)) {
      assert ids[i] in ids;
      BudgetRestoreStep(full, kept, ids, caller, i);
    }
    RestoredEnds(full, kept, ids);
    FoldChain(kept, items, PutBudget(caller), state);
  }

  /** Restoring what exportAll wrote gives back every table as it was, when
      no exported id is 0 (which `id || null` would drop) and no exported
      note is empty (which `note || null` would turn into null). */
  lemma BackupRestores(s: Store, caller: UserId)
    requires StoreValid(s)
    requires forall k :: k in s.categories.rows && s.categories.rows[k].account == caller ==> k != 0
    requires forall k :: k in s.transactions.rows && s.transactions.rows[k].account == caller ==>
      k != 0 && s.transactions.rows[k].note != Some("")
    requires forall k :: k in s.budgets.rows && s.budgets.rows[k].account == caller ==> k != 0
    ensures Import(s, caller, Backup(s, caller)) == Imported(s)
  {
    var c, e := Cleared(s, caller), ExportAll(s, caller);
    var p := Backup(s, caller);
    ExportSplits(s, caller);
    assert 0 !in e.categories && 0 !in e.transactions && 0 !in e.budgets;
    CategoriesRestored(s.categories, c.categories, e.categories, caller);
    TransactionsRestored(s.transactions, c.transactions, e.transactions, caller);
    BudgetsRestored(s.budgets, c.budgets, e.budgets, caller);
    assert Fold(c.categories, Items(p.categories), PutCategory(caller)) == Done(s.categories);
    assert Fold(c.transactions, Items(p.transactions), PutTransaction(caller)) == Done(s.transactions);
    assert Fold(c.budgets, Items(p.budgets), PutBudget(caller)) == Done(s.budgets);
  }

  /** The export and the deletes split each table between them. */
  lemma ExportSplits(s: Store, caller: UserId)
    requires StoreValid(s)
    ensures var c, e := Cleared(s, caller), ExportAll(s, caller);
      && Exported(s.categories, c.categories, e.categories, CategoryOwner(caller))
      && Exported(s.transactions, c.transactions, e.transactions, TransactionOwner(caller))
      && Exported(s.budgets, c.budgets, e.budgets, BudgetOwner(caller))
  {
    var e := ExportAll(s, caller);
    assert NoDuplicates(e.categories);
  }
}
