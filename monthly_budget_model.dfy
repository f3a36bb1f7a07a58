/** The `monthly_budget` table (one spending limit per account, category,
    month and year) and the reports that compare the limits with the
    account's EXPENSE transactions. */
module MonthlyBudgetModel {
  import opened Common
  import opened Tables
  import opened PersonalTables
  import opened Text

  datatype Budget = Budget(account: int, category: int, month: int, year: int, limit: Money)

  /** The row has the unique key (account_id, category_id, month, year). */
  predicate HasKey(b: Budget, account: int, category: int, month: int, year: int) {
    b.account == account && b.category == category && b.month == month && b.year == year
  }

  /** At most one row per key. */
  predicate KeysUnique(rows: map<Id, Budget>) {
    forall i, j :: i in rows && j in rows && i != j ==>
      !HasKey(rows[j], rows[i].account, rows[i].category, rows[i].month, rows[i].year)
  }

  function KeyIs(account: int, category: int, month: int, year: int): (nat, Budget) -> bool {
    (k: nat, b: Budget) => HasKey(b, account, category, month, year)
  }

  /** The rows without the ones holding the key: the DELETE of deleteBudget. */
  function WithoutKey(rows: map<Id, Budget>, account: int, category: int, month: int, year: int): (r: map<Id, Budget>)
    ensures forall k :: k in r <==> k in rows && !HasKey(rows[k], account, category, month, year)
    ensures forall k :: k in r ==> r[k] == rows[k]
  {
    map k | k in rows && !HasKey(rows[k], account, category, month, year) :: rows[k]
  }

  /** `ORDER BY pc.type ASC`: 'EXPENSE' sorts before 'INCOME'. */
  function KindRank(k: Kind): real {
    if k == Expense then 0.0 else 1.0
  }

  /** `ORDER BY pc.name ASC` as an ascending key: NULL first, then the
      names character by character with ASCII letters folded to one case,
      as the case-insensitive collation compares them, a prefix before its
      extensions. */
  function NameKey(name: Option<string>): seq<real> {
    if name.None? then []
    else [0.0] + seq(|name.value|, i requires 0 <= i < |name.value| => Fold(name.value[i]) as int as real)
  }

  /** Two names get the same key exactly when both are NULL or the
      collation finds them equal. */
  lemma NameKeySame(a: Option<string>, b: Option<string>)
    ensures NameKey(a) == NameKey(b) <==>
              (a.None? && b.None?) || (a.Some? && b.Some? && SameText(a.value, b.value))
  {
    if a.Some? && b.Some? {
      var ka, kb := NameKey(a), NameKey(b);
      if ka == kb {
        forall i | 0 <= i < |a.value| ensures SameLetter(a.value[i], b.value[i]) {
          assert ka[i + 1] == kb[i + 1];
        }
      }
      if SameText(a.value, b.value) {
        forall i | 0 <= i < |ka| ensures ka[i] == kb[i] {
          if i > 0 {
            assert SameLetter(a.value[i - 1], b.value[i - 1]);
          }
        }
      }
    } else if a.Some? {
      assert |NameKey(a)| > 0;
    } else if b.Some? {
      assert |NameKey(b)| > 0;
    }
  }

  /** ORDER BY year DESC, month DESC, category type ASC, category name ASC
      as an ascending key. */
  function ListingKey(rows: map<Id, Budget>, categories: map<Id, Category>): Id -> seq<real> {
    (k: Id) =>
      if k in rows then
        var b := rows[k];
        if b.category >= 0 && b.category in categories then
          [-(b.year as real), -(b.month as real), KindRank(categories[b.category].kind)]
          + NameKey(categories[b.category].name)
        else [-(b.year as real), -(b.month as real), 0.0]
      else []
  }

  /** The category of a budget, when it exists. */
  function CategoryOf(categories: map<Id, Category>, b: Budget): Option<Category> {
    if b.category >= 0 && b.category in categories then Some(categories[b.category]) else None
  }

  /** What ListingKey orders on, column by column, for two budgets whose
      categories exist. */
  lemma ListingKeyPair(rows: map<Id, Budget>, categories: map<Id, Category>, x: Id, y: Id)
    requires x in rows && y in rows
    requires CategoryOf(categories, rows[x]).Some? && CategoryOf(categories, rows[y]).Some?
    requires LexLe(ListingKey(rows, categories)(x), ListingKey(rows, categories)(y))
    ensures var b, c := rows[x], rows[y];
      var cb, cc := CategoryOf(categories, b).value, CategoryOf(categories, c).value;
      && (b.year > c.year || (b.year == c.year && b.month >= c.month))
      && (b.year == c.year && b.month == c.month ==> KindRank(cb.kind) <= KindRank(cc.kind))
      && (b.year == c.year && b.month == c.month && cb.kind == cc.kind ==> LexLe(NameKey(cb.name), NameKey(cc.name)))
  {
    var b, c := rows[x], rows[y];
    var cb, cc := CategoryOf(categories, b).value, CategoryOf(categories, c).value;
    var ka, kb := ListingKey(rows, categories)(x), ListingKey(rows, categories)(y);
    assert ka == [-(b.year as real), -(b.month as real), KindRank(cb.kind)] + NameKey(cb.name);
    assert kb == [-(c.year as real), -(c.month as real), KindRank(cc.kind)] + NameKey(cc.name);
    if b.year == c.year {
      assert LexLe(ka[1..], kb[1..]);
      if b.month == c.month {
        assert LexLe(ka[1..][1..], kb[1..][1..]);
        if cb.kind == cc.kind {
          assert ka[1..][1..][1..] == NameKey(cb.name) && kb[1..][1..][1..] == NameKey(cc.name);
        }
      }
    }
  }

  /** A list of listed budgets sorted on ListingKey runs from the latest
      month to the earliest, EXPENSE before INCOME within a month, and by
      category name within a month and type. */
  lemma ListingKeyOrder(rows: map<Id, Budget>, categories: map<Id, Category>, r: seq<Id>)
    requires forall i :: 0 <= i < |r| ==> r[i] in rows && CategoryOf(categories, rows[r[i]]).Some?
    requires SortedBy(r, ListingKey(rows, categories))
    ensures forall i, j :: 0 <= i < j < |r| ==>
      rows[r[i]].year > rows[r[j]].year
      || (rows[r[i]].year == rows[r[j]].year && rows[r[i]].month >= rows[r[j]].month)
    ensures forall i, j :: 0 <= i < j < |r| && rows[r[i]].year == rows[r[j]].year
                           && rows[r[i]].month == rows[r[j]].month ==>
      KindRank(CategoryOf(categories, rows[r[i]]).value.kind) <= KindRank(CategoryOf(categories, rows[r[j]]).value.kind)
    ensures forall i, j :: 0 <= i < j < |r| && rows[r[i]].year == rows[r[j]].year
                           && rows[r[i]].month == rows[r[j]].month
                           && CategoryOf(categories, rows[r[i]]).value.kind == CategoryOf(categories, rows[r[j]]).value.kind ==>
      LexLe(NameKey(CategoryOf(categories, rows[r[i]]).value.name), NameKey(CategoryOf(categories, rows[r[j]]).value.name))
  {
    forall i, j | 0 <= i < j < |r| ensures
      var b, c := rows[r[i]], rows[r[j]];
      var cb, cc := CategoryOf(categories, b).value, CategoryOf(categories, c).value;
      && (b.year > c.year || (b.year == c.year && b.month >= c.month))
      && (b.year == c.year && b.month == c.month ==> KindRank(cb.kind) <= KindRank(cc.kind))
      && (b.year == c.year && b.month == c.month && cb.kind == cc.kind ==> LexLe(NameKey(cb.name), NameKey(cc.name)))
    {
      ListingKeyPair(rows, categories, r[i], r[j]);
    }
  }

  /** The budget's category exists: the JOIN of getByUserId. */
  predicate Listed(categories: map<Id, Category>, b: Budget, account: int) {
    b.account == account && b.category >= 0 && b.category in categories
  }

  /** The transaction counts as spending of the account in that month and
      year, in the given category or in any when there is none. */
  predicate Spent(categories: map<Id, Category>, t: Transaction, account: int, category: Option<int>,
                  month: int, year: int) {
    && t.account == account
    && (category.Some? ==> t.category == category.value)
    && ExpenseCategory(categories, t.category)
    && t.date.month == month && t.date.year == year
  }

  function SpentAmount(categories: map<Id, Category>, account: int, category: Option<int>, month: int, year: int):
    (nat, Transaction) -> Option<real>
  {
    (k: nat, t: Transaction) => if Spent(categories, t, account, category, month, year) then Some(t.amount) else None
  }

  function SpentWhere(categories: map<Id, Category>, account: int, category: Option<int>, month: int, year: int):
    (nat, Transaction) -> bool
  {
    (k: nat, t: Transaction) => Spent(categories, t, account, category, month, year)
  }

  /** `COALESCE(SUM(pt.amount), 0)` and `COUNT(pt.id)`. */
  datatype Spending = Spending(total: Money, count: nat)

  /** The spending query over the transactions with id below n. */
  function SpendingOf(txs: map<Id, Transaction>, n: nat, categories: map<Id, Category>, account: int,
                      category: Option<int>, month: int, year: int): (r: Spending)
    requires forall k :: k in txs ==> k < n
    ensures r.count == 0 <==> forall k :: k in txs ==> !Spent(categories, txs[k], account, category, month, year)
    ensures r.count == 0 ==> r.total == 0.0
  {
    var keep := SpentWhere(categories, account, category, month, year);
    var val := SpentAmount(categories, account, category, month, year);
    SumNull(txs, n, val);
    var ids := Ids(txs, n, keep);
    assert ids != [] ==> ids[0] in ids;
    Spending(OrZero(Sum(txs, n, val)), |ids|)
  }

  /** A new transaction adds its amount to the spending it counts for and
      nothing to any other. */
  lemma SpendingAfterTransaction(txs: map<Id, Transaction>, n: nat, t: Transaction, categories: map<Id, Category>,
                                 account: int, category: Option<int>, month: int, year: int)
    requires forall k :: k in txs ==> k < n
    ensures SpendingOf(Append(txs, n, [t]), n + 1, categories, account, category, month, year).total ==
            SpendingOf(txs, n, categories, account, category, month, year).total
            + if Spent(categories, t, account, category, month, year) then t.amount else 0.0
  {
    var a := Append(txs, n, [t]);
    var v := SpentAmount(categories, account, category, month, year);
    SumAgree(txs, a, n, v);
    assert n in a && a[n] == t;
    PlusOrZero(Sum(a, n, v), v(n, t));
  }

  /** The category report of getBudgetVsSpending. */
  datatype Report = Report(category: int, month: int, year: int, limit: Money, spent: Money,
                           remaining: Money, count: nat, budgetSet: bool)

  /** checkBudgetExceeded's fields in front of the report. */
  datatype Check = Check(exceeded: bool, overBy: Money, report: Report)

  /** The alert status: 'exceeded' above 100 percent, else 'warning'. */
  datatype AlertStatus = Warning | Exceeded

  datatype Alert = Alert(category: int, month: int, year: int, limit: Money, spent: Money, percentage: int,
                         status: AlertStatus)

  /** `Math.abs(Math.min(remaining, 0))`. */
  function OverBy(remaining: Money): (r: Money)
    ensures r >= 0.0
    ensures remaining < 0.0 ==> r == -remaining
    ensures remaining >= 0.0 ==> r == 0.0
  {
    var m := if remaining < 0.0 then remaining else 0.0;
    if m < 0.0 then -m else m
  }

  /** `checkBudgetExceeded`: exceeded iff the remaining amount is negative,
      over_by its size then and 0 otherwise. */
  function CheckExceeded(report: Report): (r: Check)
    ensures r.report == report
    ensures r.exceeded <==> report.remaining < 0.0
    ensures r.overBy >= 0.0
    ensures r.exceeded ==> r.overBy == -report.remaining
    ensures !r.exceeded ==> r.overBy == 0.0
  {
    Check(report.remaining < 0.0, OverBy(report.remaining), report)
  }

  /** For a report whose remaining is limit minus spent, exceeded means
      spending above the limit, and over_by is the excess. */
  lemma ExceededMeansOverLimit(report: Report)
    requires report.remaining == report.limit - report.spent
    ensures CheckExceeded(report).exceeded <==> report.spent > report.limit
    ensures CheckExceeded(report).overBy == if report.spent > report.limit then report.spent - report.limit else 0.0
  {
  }

  /** `budget_limit > 0 ? (total_spent / budget_limit) * 100 : 0`. */
  function Percentage(spent: Money, limit: Money): real {
    if limit > 0.0 then spent / limit * 100.0 else 0.0
  }

  /** `Math.round`: the nearest integer, halves rounded up. */
  function Round(x: real): (r: int)
    ensures r as real <= x + 0.5 < r as real + 1.0
  {
    (x + 0.5).Floor
  }

  /** The two thresholds of getBudgetAlerts in terms of spent and limit. */
  lemma PercentageThresholds(spent: Money, limit: Money)
    requires limit > 0.0
    ensures Percentage(spent, limit) >= 90.0 <==> spent * 10.0 >= limit * 9.0
    ensures Percentage(spent, limit) > 100.0 <==> spent > limit
  {
    var p := spent / limit;
    assert p * limit == spent;
    assert Percentage(spent, limit) == p * 100.0;
    SignOfScaled(p * 10.0 - 9.0, limit);
    assert (p * 10.0 - 9.0) * limit == spent * 10.0 - limit * 9.0;
    SignOfScaled(p - 1.0, limit);
    assert (p - 1.0) * limit == spent - limit;
  }

  /** Scaling by a positive factor keeps the sign. */
  lemma SignOfScaled(x: real, l: real)
    requires l > 0.0
    ensures x * l > 0.0 <==> x > 0.0
    ensures x * l >= 0.0 <==> x >= 0.0
  {
    if x > 0.0 {
      assert x * l > 0.0 * l;
    } else if x < 0.0 {
      assert (-x) * l > 0.0 * l;
    }
  }

  /** The alert for a report of a budget with limit > 0 whose spending
      reaches 90 percent of it, or none. */
  function AlertFor(report: Report): (r: Option<Alert>)
    ensures r.Some? <==> Percentage(report.spent, report.limit) >= 90.0
    ensures r.Some? ==> r.value.category == report.category && r.value.month == report.month
                        && r.value.year == report.year && r.value.limit == report.limit
                        && r.value.spent == report.spent
    ensures r.Some? ==> (r.value.status == Exceeded <==> Percentage(report.spent, report.limit) > 100.0)
  {
    var p := Percentage(report.spent, report.limit);
    if p >= 90.0 then
      Some(Alert(report.category, report.month, report.year, report.limit, report.spent, Round(p),
                 if p > 100.0 then Exceeded else Warning))
    else None
  }

  /** An alert exists exactly for a positive limit with spending at 90
      percent of it or more, and says exceeded exactly above the limit. */
  lemma AlertThresholds(report: Report)
    ensures AlertFor(report).Some? <==> report.limit > 0.0 && report.spent * 10.0 >= report.limit * 9.0
    ensures AlertFor(report).Some? ==> (AlertFor(report).value.status == Exceeded <==> report.spent > report.limit)
  {
    if report.limit > 0.0 {
      PercentageThresholds(report.spent, report.limit);
    }
  }

  /** alerts.sort: year descending, then month descending, as an ascending key. */
  function AlertKey(a: Alert): seq<real> {
    [-(a.year as real), -(a.month as real)]
  }

  /** Changing a limit leaves every key where it was. */
  lemma LimitKeepsKeys(rows: map<Id, Budget>, k: Id, limit: Money)
    requires KeysUnique(rows) && k in rows
    ensures KeysUnique(rows[k := rows[k].(limit := limit)])
  {
    var after := rows[k := rows[k].(limit := limit)];
    forall i, j | i in after && j in after && i != j
      ensures !HasKey(after[j], after[i].account, after[i].category, after[i].month, after[i].year)
    {
      assert !HasKey(rows[j], rows[i].account, rows[i].category, rows[i].month, rows[i].year);
    }
  }

  /** A row whose key no row holds keeps the keys unique. */
  lemma NewKeyKeepsKeys(rows: map<Id, Budget>, id: Id, b: Budget)
    requires KeysUnique(rows) && id !in rows
    requires forall k :: k in rows ==> !HasKey(rows[k], b.account, b.category, b.month, b.year)
    ensures KeysUnique(rows[id := b])
  {
  }

  class BudgetTable {
    var rows: map<Id, Budget>
    var next: nat

    ghost predicate Valid()
      reads this
    {
      && (forall id :: id in rows ==> id < next)
      && KeysUnique(rows)
    }

    constructor ()
      ensures Valid() && rows == map[] && next == 1
    {
      rows := map[];
      next := 1;
    }

    /** The row holding the key, if any; there is at most one. */
    function Find(account: int, category: int, month: int, year: int): (r: Option<Id>)
      requires Valid()
      reads this
      ensures r.Some? ==> r.value in rows && HasKey(rows[r.value], account, category, month, year)
      ensures r.Some? ==> forall k :: k in rows && HasKey(rows[k], account, category, month, year) ==> k == r.value
      ensures r.None? <==> forall k :: k in rows ==> !HasKey(rows[k], account, category, month, year)
    {
      First(rows, next, KeyIs(account, category, month, year))
    }

    /** `setBudget`: INSERT ... ON DUPLICATE KEY UPDATE limit_amount. A new
        key gets a new row; an existing one has only its limit replaced. */
    method SetBudget(account: int, category: int, month: int, year: int, limit: Money)
      requires Valid()
      modifies this
      ensures Valid()
      ensures Find(account, category, month, year).Some?
      ensures rows[Find(account, category, month, year).value].limit == limit
      ensures old(Find(account, category, month, year)).Some? ==>
        var k := old(Find(account, category, month, year)).value;
        rows == old(rows)[k := old(rows)[k].(limit := limit)] && next == old(next)
      ensures old(Find(account, category, month, year)).None? ==>
        rows == old(rows)[old(next) := Budget(account, category, month, year, limit)] && next == old(next) + 1
    {
      var found := Find(account, category, month, year);
      if found.Some? {
        var k := found.value;
        LimitKeepsKeys(rows, k, limit);
        rows := rows[k := rows[k].(limit := limit)];
        assert HasKey(rows[k], account, category, month, year);
      } else {
        NewKeyKeepsKeys(rows, next, Budget(account, category, month, year, limit));
        rows := rows[next := Budget(account, category, month, year, limit)];
        assert HasKey(rows[next], account, category, month, year);
        next := next + 1;
      }
    }

    /** `getBudget`: the row with the key, or null. */
    function GetBudget(account: int, category: int, month: int, year: int): (r: Option<Budget>)
      requires Valid()
      reads this
      ensures r.Some? <==> exists k :: k in rows && HasKey(rows[k], account, category, month, year)
      ensures r.Some? ==> HasKey(r.value, account, category, month, year) && r.value in rows.Values
    {
      var found := Find(account, category, month, year);
      if found.Some? then Some(rows[found.value]) else None
    }

    /** `updateBudget`: sets the limit of the row with the key; no row,
        no change. */
    method UpdateBudget(account: int, category: int, month: int, year: int, limit: Money)
      requires Valid()
      modifies this
      ensures Valid() && next == old(next)
      ensures old(Find(account, category, month, year)).Some? ==>
        var k := old(Find(account, category, month, year)).value;
        rows == old(rows)[k := old(rows)[k].(limit := limit)]
      ensures old(Find(account, category, month, year)).None? ==> rows == old(rows)
    {
      var found := Find(account, category, month, year);
      if found.Some? {
        var k := found.value;
        LimitKeepsKeys(rows, k, limit);
        rows := rows[k := rows[k].(limit := limit)];
      }
    }

    /** `deleteBudget`: removes the rows with the key, which is at most one. */
    method DeleteBudget(account: int, category: int, month: int, year: int)
      requires Valid()
      modifies this
      ensures Valid() && next == old(next)
      ensures rows == WithoutKey(old(rows), account, category, month, year)
      ensures old(Find(account, category, month, year)).Some? ==>
        rows == old(rows) - {old(Find(account, category, month, year)).value}
      ensures old(Find(account, category, month, year)).None? ==> rows == old(rows)
    {
      rows := WithoutKey(rows, account, category, month, year);
    }

    /** `getByUserId`: the account's budgets whose category exists, latest
        month first, EXPENSE before INCOME within a month, then by category
        name (ListingKeyOrder). */
    function ByUser(categories: map<Id, Category>, account: int): (r: seq<Id>)
      requires Valid()
      reads this
      ensures forall k :: k in r <==> k in rows && Listed(categories, rows[k], account)
      ensures SortedBy(r, ListingKey(rows, categories))
      ensures forall i :: 0 <= i < |r| ==> r[i] in rows
    {
      var ids := Ids(rows, next, (k: nat, b: Budget) => Listed(categories, b, account));
      var r := SortBy(ids, ListingKey(rows, categories));
      assert forall k :: k in r <==> k in ids by {
        forall k ensures k in r <==> k in ids {
          SortByMembers(ids, ListingKey(rows, categories), k);
        }
      }
      assert forall i :: 0 <= i < |r| ==> r[i] in r;
      r
    }
  }

  /** `getBudgetVsSpending`: the budget's limit, or 0 when the key has no
      budget, against the account's EXPENSE spending in that category,
      month and year. */
  function BudgetVsSpending(budgets: BudgetTable, txs: TransactionTable, categories: CategoryTable,
                            account: int, category: int, month: int, year: int): (r: Report)
    requires budgets.Valid() && txs.Valid()
    reads budgets, txs, categories
    ensures r.category == category && r.month == month && r.year == year
    ensures r.budgetSet <==> exists k :: k in budgets.rows && HasKey(budgets.rows[k], account, category, month, year)
    ensures r.budgetSet ==> exists k :: k in budgets.rows && HasKey(budgets.rows[k], account, category, month, year)
                                         && r.limit == budgets.rows[k].limit
    ensures !r.budgetSet ==> r.limit == 0.0
    ensures r.remaining == r.limit - r.spent
    ensures r.count == 0 <==> forall k :: k in txs.rows ==> !Spent(categories.rows, txs.rows[k], account, Some(category), month, year)
    ensures r.count == 0 ==> r.spent == 0.0
  {
    var budget := budgets.GetBudget(account, category, month, year);
    var spending := SpendingOf(txs.rows, txs.next, categories.rows, account, Some(category), month, year);
    var limit := if budget.Some? then budget.value.limit else 0.0;
    Report(category, month, year, limit, spending.total, limit - spending.total, spending.count, budget.Some?)
  }

  /** The report for a listed budget's own key carries that budget's limit. */
  lemma ReportOfListed(budgets: BudgetTable, txs: TransactionTable, categories: CategoryTable, account: int, k: Id)
    requires budgets.Valid() && txs.Valid() && k in budgets.rows
    ensures var b := budgets.rows[k];
      var r := BudgetVsSpending(budgets, txs, categories, account, b.category, b.month, b.year);
      b.account == account ==> r.budgetSet && r.limit == b.limit
  {
    var b := budgets.rows[k];
    if b.account == account {
      assert HasKey(b, account, b.category, b.month, b.year);
    }
  }

  /** `getMonthSummaryAllCategories`. */
  datatype MonthSummary = MonthSummary(month: int, year: int, limitTotal: Money, spent: Money,
                                       remaining: Money, count: nat, budgets: seq<Id>)

  function InMonth(rows: map<Id, Budget>, month: int, year: int): Id -> bool {
    (k: Id) => k in rows && rows[k].month == month && rows[k].year == year
  }

  function LimitOf(k: nat, b: Budget): Money {
    b.limit
  }

  /** The month's budgets in listing order, the sum of their limits, and the
      account's EXPENSE spending in that month over all categories. */
  function MonthSummaryOf(budgets: BudgetTable, txs: TransactionTable, categories: CategoryTable,
                          account: int, month: int, year: int): (r: MonthSummary)
    requires budgets.Valid() && txs.Valid()
    reads budgets, txs, categories
    ensures forall k :: k in r.budgets <==>
      k in budgets.rows && Listed(categories.rows, budgets.rows[k], account)
      && budgets.rows[k].month == month && budgets.rows[k].year == year
    ensures IsSubsequence(r.budgets, budgets.ByUser(categories.rows, account))
    ensures r.limitTotal == SumSeq(Column(budgets.rows, r.budgets, LimitOf))
    ensures r.remaining == r.limitTotal - r.spent
    ensures r.spent == SpendingOf(txs.rows, txs.next, categories.rows, account, None, month, year).total
    ensures r.count == SpendingOf(txs.rows, txs.next, categories.rows, account, None, month, year).count
    ensures r.month == month && r.year == year
  {
    var listed := budgets.ByUser(categories.rows, account);
    var mine := Filter(listed, InMonth(budgets.rows, month, year));
    var total := SumSeq(Column(budgets.rows, mine, LimitOf));
    var spending := SpendingOf(txs.rows, txs.next, categories.rows, account, None, month, year);
    MonthSummary(month, year, total, spending.total, total - spending.total, spending.count, mine)
  }

  /** The alert getBudgetAlerts raises for one listed budget: none for an
      INCOME category, else the one of its report, if any. */
  function AlertOf(budgets: BudgetTable, txs: TransactionTable, categories: CategoryTable, account: int, k: Id):
    (r: Option<Alert>)
    requires budgets.Valid() && txs.Valid()
    reads budgets, txs, categories
    ensures r.Some? ==> k in budgets.rows && ExpenseCategory(categories.rows, budgets.rows[k].category)
  {
    if k in budgets.rows && ExpenseCategory(categories.rows, budgets.rows[k].category) then
      var b := budgets.rows[k];
      AlertFor(BudgetVsSpending(budgets, txs, categories, account, b.category, b.month, b.year))
    else None
  }

  /** The alerts pushed while walking ids, in that order. */
  function Collected(budgets: BudgetTable, txs: TransactionTable, categories: CategoryTable, account: int,
                     ids: seq<Id>): seq<Alert>
    requires budgets.Valid() && txs.Valid()
    reads budgets, txs, categories
    decreases |ids|
  {
    if ids == [] then []
    else
      var a := AlertOf(budgets, txs, categories, account, ids[|ids| - 1]);
      Collected(budgets, txs, categories, account, ids[..|ids| - 1]) + if a.Some? then [a.value] else []
  }

  /** The collected alerts are exactly those of the walked budgets. */
  lemma {:induction false} CollectedMembers(budgets: BudgetTable, txs: TransactionTable, categories: CategoryTable,
                                            account: int, ids: seq<Id>, a: Alert)
    requires budgets.Valid() && txs.Valid()
    ensures a in Collected(budgets, txs, categories, account, ids) <==>
      exists k :: k in ids && AlertOf(budgets, txs, categories, account, k) == Some(a)
    decreases |ids|
  {
    if ids != [] {
      var init, last := ids[..|ids| - 1], ids[|ids| - 1];
      CollectedMembers(budgets, txs, categories, account, init, a);
      assert ids == init + [last];
      assert forall k :: k in ids <==> k in init || k == last;
    }
  }

  /** One more budget walked: its alert, if any, goes last. */
  lemma CollectedStep(budgets: BudgetTable, txs: TransactionTable, categories: CategoryTable, account: int,
                      ids: seq<Id>, i: nat)
    requires budgets.Valid() && txs.Valid() && i < |ids|
    ensures var a := AlertOf(budgets, txs, categories, account, ids[i]);
      Collected(budgets, txs, categories, account, ids[..i + 1])
      == Collected(budgets, txs, categories, account, ids[..i]) + if a.Some? then [a.value] else []
  {
    assert ids[..i + 1][..i] == ids[..i];
  }

  /** `getBudgetAlerts`: walks the account's listed budgets, pushes the alert
      of each EXPENSE budget that reaches 90 percent of a positive limit, and
      sorts the alerts by year, then month, latest first; the sort is
      stable, so the alerts of one month keep the listing order. */
  method BudgetAlerts(budgets: BudgetTable, txs: TransactionTable, categories: CategoryTable, account: int)
    returns (alerts: seq<Alert>)
    requires budgets.Valid() && txs.Valid()
    ensures alerts == SortBy(Collected(budgets, txs, categories, account, budgets.ByUser(categories.rows, account)), AlertKey)
    ensures SortedBy(alerts, AlertKey)
    ensures forall k :: Filter(alerts, SameKey(AlertKey, k))
                        == Filter(Collected(budgets, txs, categories, account, budgets.ByUser(categories.rows, account)),
                                  SameKey(AlertKey, k))
  {
    var listed := budgets.ByUser(categories.rows, account);
    var pushed: seq<Alert> := [];
    var i := 0;
    while i < |listed|
      invariant 0 <= i <= |listed|
      invariant pushed == Collected(budgets, txs, categories, account, listed[..i])
    {
      var k := listed[i];
      CollectedStep(budgets, txs, categories, account, listed, i);
      var b := budgets.rows[k];
      if ExpenseCategory(categories.rows, b.category) {
        var report := BudgetVsSpending(budgets, txs, categories, account, b.category, b.month, b.year);
        var alert := AlertFor(report);
        if alert.Some? {
          pushed := pushed + [alert.value];
        }
      }
      i := i + 1;
    }
    assert listed[..i] == listed;
    alerts := SortBy(pushed, AlertKey);
    forall k ensures Filter(alerts, SameKey(AlertKey, k)) == Filter(pushed, SameKey(AlertKey, k)) {
      SortByStable(pushed, AlertKey, k);
    }
  }

  /** A listed budget raises an alert exactly when its category is an
      EXPENSE category, its limit is positive and its month's spending in
      the category reaches 90 percent of the limit; the alert says exceeded
      exactly when the spending is above the limit. */
  lemma AlertOfThresholds(budgets: BudgetTable, txs: TransactionTable, categories: CategoryTable, account: int, k: Id)
    requires budgets.Valid() && txs.Valid()
    requires k in budgets.rows && budgets.rows[k].account == account
    ensures var b := budgets.rows[k];
      var spent := SpendingOf(txs.rows, txs.next, categories.rows, account, Some(b.category), b.month, b.year).total;
      var a := AlertOf(budgets, txs, categories, account, k);
      && (a.Some? <==> ExpenseCategory(categories.rows, b.category) && b.limit > 0.0 && spent * 10.0 >= b.limit * 9.0)
      && (a.Some? ==> a.value.limit == b.limit && a.value.spent == spent
                      && a.value.category == b.category && a.value.month == b.month && a.value.year == b.year
                      && (a.value.status == Exceeded <==> spent > b.limit))
  {
    var b := budgets.rows[k];
    var report := BudgetVsSpending(budgets, txs, categories, account, b.category, b.month, b.year);
    ReportOfListed(budgets, txs, categories, account, k);
    AlertThresholds(report);
  }

  /** The alerts returned are exactly those of the account's listed budgets. */
  lemma AlertsExactly(budgets: BudgetTable, txs: TransactionTable, categories: CategoryTable, account: int, a: Alert)
    requires budgets.Valid() && txs.Valid()
    ensures a in SortBy(Collected(budgets, txs, categories, account, budgets.ByUser(categories.rows, account)), AlertKey) <==>
      exists k :: k in budgets.rows && Listed(categories.rows, budgets.rows[k], account)
                  && AlertOf(budgets, txs, categories, account, k) == Some(a)
  {
    var listed := budgets.ByUser(categories.rows, account);
    SortByMembers(Collected(budgets, txs, categories, account, listed), AlertKey, a);
    CollectedMembers(budgets, txs, categories, account, listed, a);
    if exists k :: k in budgets.rows && Listed(categories.rows, budgets.rows[k], account)
                  && AlertOf(budgets, txs, categories, account, k) == Some(a) {
      var k :| k in budgets.rows && Listed(categories.rows, budgets.rows[k], account)
               && AlertOf(budgets, txs, categories, account, k) == Some(a);
      assert k in listed;
    }
  }
}
