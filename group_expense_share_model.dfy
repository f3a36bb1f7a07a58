/** The `group_expense_share` table: the bulk insert of an expense's shares,
    the updates and deletes by (expense, account) and by expense, and the
    per-user totals owed and paid with the balance between them. */
module GroupExpenseShareModel {
  import opened Common
  import opened Tables
  import opened Text
  import opened GroupExpenseModel

  /** One element of the list handed to addShares, as it is interpolated
      into the VALUES clause. An account_id or shared_amount that renders as
      no SQL value the column accepts (undefined, null, NaN) is None. */
  datatype NewShare = NewShare(expense: int, account: Option<int>, amount: Option<Money>)

  predicate Storable(v: NewShare) {
    v.account.Some? && v.amount.Some?
  }

  predicate AllStorable(vs: seq<NewShare>) {
    forall i :: 0 <= i < |vs| ==> Storable(vs[i])
  }

  /** The rows a fully storable VALUES list inserts, in list order. */
  function Rows(vs: seq<NewShare>): (r: seq<Share>)
    requires AllStorable(vs)
    ensures |r| == |vs|
    ensures forall i :: 0 <= i < |vs| ==> r[i] == Share(vs[i].expense, vs[i].account.value, vs[i].amount.value)
  {
    seq(|vs|, i requires 0 <= i < |vs| => Share(vs[i].expense, vs[i].account.value, vs[i].amount.value))
  }

  predicate OfPair(s: Share, expense: int, account: int) {
    s.expense == expense && s.account == account
  }

  /** A share row as itself, for Column. */
  const ShareValue: (nat, Share) -> Share := (k: nat, s: Share) => s

  /** r lists the rows of one expense, one entry per row, in ascending id
      (insertion) order: ids are the rows' ids in that order. */
  predicate ListedInIdOrder(rows: map<Id, Share>, expense: int, r: seq<Share>, ids: seq<nat>) {
    && Ascending(ids) && |ids| == |r|
    && (forall i :: 0 <= i < |ids| ==> ids[i] in rows && rows[ids[i]].expense == expense && r[i] == rows[ids[i]])
    && (forall k :: k in rows && rows[k].expense == expense ==> k in ids)
  }

  /** The rows of one expense, in id (insertion) order. */
  function SharesOf(rows: map<Id, Share>, n: nat, expense: int): (r: seq<Share>)
    requires forall k :: k in rows ==> k < n
    ensures forall s :: s in r <==> exists k :: k in rows && rows[k] == s && s.expense == expense
    ensures exists ids :: ListedInIdOrder(rows, expense, r, ids)
  {
    var ids := Ids(rows, n, OfExpense(expense));
    var r := Column(rows, ids, ShareValue);
    assert ListedInIdOrder(rows, expense, r, ids);
    r
  }

  /** Inserting the shares of an expense that had none makes them exactly
      its shares, in the order given. */
  lemma AppendedShares(rows: map<Id, Share>, n: nat, xs: seq<Share>, expense: int, a: map<Id, Share>, m: nat)
    requires forall k :: k in rows ==> k < n
    requires forall k :: k in rows ==> rows[k].expense != expense
    requires forall i :: 0 <= i < |xs| ==> xs[i].expense == expense
    requires a == Append(rows, n, xs) && m == n + |xs|
    ensures forall k :: k in a ==> k < m
    ensures SharesOf(a, m, expense) == xs
  {
    forall k | n <= k < m ensures k in a && OfExpense(expense)(k, a[k]) && ShareValue(k, a[k]) == xs[k - n] {
      assert a[k] == xs[k - n];
    }
    ColumnFrom(a, n, m, OfExpense(expense), ShareValue, xs);
  }

  /** The table after `DELETE ... WHERE group_expense_id = ?`. */
  function Without(rows: map<Id, Share>, expense: int): (r: map<Id, Share>)
    ensures forall k :: k in r <==> k in rows && rows[k].expense != expense
    ensures forall k :: k in r ==> r[k] == rows[k]
  {
    map k | k in rows && rows[k].expense != expense :: rows[k]
  }

  /** The result row of `getTotalOwed`. */
  datatype Owed = Owed(total: Option<Money>, expenseCount: nat, groupCount: nat)

  /** The result row of `getTotalPaid`. */
  datatype Paid = Paid(total: Option<Money>, expenseCount: nat)

  /** The result of `getUserBalance`: both totals with NULL read as 0, and
      their difference. */
  datatype Balance = Balance(totalPaid: Money, totalOwed: Money, balance: Money)

  /** The share is the user's and its expense exists: the JOIN and WHERE of
      getTotalOwed. */
  predicate Owes(expenses: map<Id, Expense>, s: Share, user: UserId) {
    s.account == user && s.expense >= 0 && s.expense in expenses
  }

  /** The group of a share's expense (0 when it has none, which no joined row reaches). */
  function GroupOf(expenses: map<Id, Expense>, e: int): int {
    if e >= 0 && e in expenses then expenses[e].group else 0
  }

  /** The distinct expenses the user owes a share of. */
  function OwedExpenses(rows: map<Id, Share>, expenses: map<Id, Expense>, user: UserId): set<int> {
    set k | k in rows && Owes(expenses, rows[k], user) :: rows[k].expense
  }

  /** The distinct groups of those expenses. */
  function OwedGroups(rows: map<Id, Share>, expenses: map<Id, Expense>, user: UserId): set<int> {
    set k | k in rows && Owes(expenses, rows[k], user) :: GroupOf(expenses, rows[k].expense)
  }

  function OwedAmount(expenses: map<Id, Expense>, user: UserId): (nat, Share) -> Option<real> {
    (k: nat, s: Share) => if Owes(expenses, s, user) then Some(s.amount) else None
  }

  /** `getTotalOwed` over the share rows with id below n: SUM(shared_amount),
      COUNT(DISTINCT group_expense_id) and COUNT(DISTINCT group_id) of the
      user's shares joined with their expenses. The aggregate always yields
      one row, so the `|| {..}` fallback never applies. */
  function TotalOwed(rows: map<Id, Share>, n: nat, expenses: map<Id, Expense>, user: UserId): (r: Owed)
    requires forall k :: k in rows ==> k < n
    ensures r.total.None? <==> forall k :: k in rows ==> !Owes(expenses, rows[k], user)
    ensures r.expenseCount == |OwedExpenses(rows, expenses, user)|
    ensures r.groupCount == |OwedGroups(rows, expenses, user)|
  {
    var keep := (k: nat, s: Share) => Owes(expenses, s, user);
    var ids := Ids(rows, n, keep);
    var es := Column(rows, ids, (k: nat, s: Share) => s.expense);
    var gs := Column(rows, ids, (k: nat, s: Share) => GroupOf(expenses, s.expense));
    SumNull(rows, n, OwedAmount(expenses, user));
    DistinctColumnCount(rows, n, keep, (k: nat, s: Share) => s.expense, OwedExpenses(rows, expenses, user));
    DistinctColumnCount(rows, n, keep, (k: nat, s: Share) => GroupOf(expenses, s.expense),
                        OwedGroups(rows, expenses, user));
    Owed(Sum(rows, n, OwedAmount(expenses, user)), |Dedup(es)|, |Dedup(gs)|)
  }

  /** Each distinct expense lies in one group, so the user's shares span no
      more groups than expenses: group_count <= expense_count. */
  lemma GroupsAtMostExpenses(rows: map<Id, Share>, expenses: map<Id, Expense>, user: UserId)
    ensures |OwedGroups(rows, expenses, user)| <= |OwedExpenses(rows, expenses, user)|
  {
    var es := OwedExpenses(rows, expenses, user);
    var g := (e: int) => GroupOf(expenses, e);
    forall x | x in OwedGroups(rows, expenses, user) ensures exists e :: e in es && x == g(e) {
      var k :| k in rows && Owes(expenses, rows[k], user) && x == GroupOf(expenses, rows[k].expense);
      assert rows[k].expense in es;
    }
    ImageBound(es, OwedGroups(rows, expenses, user), g);
  }

  /** Adding one share row adds its amount to the owed total of its account
      (when its expense exists) and nothing to anyone else's. */
  lemma OwedAfterShare(rows: map<Id, Share>, n: nat, s: Share, expenses: map<Id, Expense>, user: UserId)
    requires forall k :: k in rows ==> k < n
    ensures OrZero(TotalOwed(Append(rows, n, [s]), n + 1, expenses, user).total) ==
            OrZero(TotalOwed(rows, n, expenses, user).total) + if Owes(expenses, s, user) then s.amount else 0.0
  {
    var a := Append(rows, n, [s]);
    var v := OwedAmount(expenses, user);
    SumAgree(rows, a, n, v);
    assert n in a && a[n] == s;
    PlusOrZero(Sum(a, n, v), v(n, s));
  }

  /** The expenses the user paid. */
  function PaidExpenses(expenses: map<Id, Expense>, user: UserId): set<Id> {
    set k | k in expenses && expenses[k].payer == user
  }

  function PaidAmount(user: UserId): (nat, Expense) -> Option<real> {
    (k: nat, e: Expense) => if e.payer == user then Some(e.total) else None
  }

  /** `getTotalPaid` over the expense rows with id below n: SUM(total_amount)
      and COUNT(id) of the expenses the user paid. */
  function TotalPaid(expenses: map<Id, Expense>, n: nat, user: UserId): (r: Paid)
    requires forall k :: k in expenses ==> k < n
    ensures r.expenseCount == |PaidExpenses(expenses, user)|
    ensures r.total.None? <==> r.expenseCount == 0
  {
    var ids := Ids(expenses, n, (k: nat, e: Expense) => e.payer == user);
    SumNull(expenses, n, PaidAmount(user));
    IdsEmpty(expenses, n, (k: nat, e: Expense) => e.payer == user);
    IdsCount(expenses, n, (k: nat, e: Expense) => e.payer == user, PaidExpenses(expenses, user));
    Paid(Sum(expenses, n, PaidAmount(user)), |ids|)
  }

  /** The formula of `getUserBalance`: totals `|| 0`, balance paid minus owed. */
  function UserBalance(paid: Paid, owed: Owed): (b: Balance)
    ensures b.balance + b.totalOwed == b.totalPaid
    ensures b.totalPaid == OrZero(paid.total) && b.totalOwed == OrZero(owed.total)
  {
    Balance(OrZero(paid.total), OrZero(owed.total), OrZero(paid.total) - OrZero(owed.total))
  }

  /** One more share of an existing expense lowers its account's balance by
      exactly the share's amount. */
  lemma BalanceAfterShare(rows: map<Id, Share>, n: nat, s: Share, expenses: map<Id, Expense>, m: nat)
    requires forall k :: k in rows ==> k < n
    requires forall k :: k in expenses ==> k < m
    requires s.expense >= 0 && s.expense in expenses
    ensures var paid := TotalPaid(expenses, m, s.account);
      UserBalance(paid, TotalOwed(Append(rows, n, [s]), n + 1, expenses, s.account)).balance ==
      UserBalance(paid, TotalOwed(rows, n, expenses, s.account)).balance - s.amount
  {
    OwedAfterShare(rows, n, s, expenses, s.account);
  }

  class ShareTable {
    var rows: map<Id, Share>
    var next: nat

    ghost predicate Valid()
      reads this
    {
      forall id :: id in rows ==> id < next
    }

    constructor ()
      ensures Valid() && rows == map[] && next == 1
    {
      rows := map[];
      next := 1;
    }

    /** `addShares`: nothing for an empty list; otherwise one INSERT of all
        values, which adds every row, or none when a value is not storable
        (ok false). The table has no unique key. */
    method AddShares(values: seq<NewShare>) returns (ok: bool)
      requires Valid()
      modifies this
      ensures Valid()
      ensures ok <==> AllStorable(values)
      ensures !ok ==> rows == old(rows) && next == old(next)
      ensures ok ==> rows == Append(old(rows), old(next), Rows(values)) && next == old(next) + |values|
      ensures values == [] ==> rows == old(rows) && next == old(next)
    {
      if values == [] {
        assert rows == Append(rows, next, Rows(values));
        return true;
      }
      if !AllStorable(values) {
        return false;
      }
      rows := Append(rows, next, Rows(values));
      next := next + |values|;
      return true;
    }

    /** `updateShare`: sets shared_amount on every row of the (expense,
        account) pair; the other rows and all ids stay. */
    method UpdateShare(expense: int, account: int, amount: Money)
      requires Valid()
      modifies this
      ensures Valid() && next == old(next)
      ensures rows.Keys == old(rows).Keys
      ensures forall k :: k in rows ==>
        rows[k] == if OfPair(old(rows)[k], expense, account) then old(rows)[k].(amount := amount) else old(rows)[k]
    {
      rows := map k | k in rows :: if OfPair(rows[k], expense, account) then rows[k].(amount := amount) else rows[k];
    }

    /** `removeShare`: deletes the rows of the (expense, account) pair and no other. */
    method RemoveShare(expense: int, account: int)
      requires Valid()
      modifies this
      ensures Valid() && next == old(next)
      ensures forall k :: k in rows <==> k in old(rows) && !OfPair(old(rows)[k], expense, account)
      ensures forall k :: k in rows ==> rows[k] == old(rows)[k]
    {
      rows := map k | k in rows && !OfPair(rows[k], expense, account) :: rows[k];
    }

    /** `removeAllShares`: deletes exactly the rows of the expense. */
    method RemoveAllShares(expense: int)
      requires Valid()
      modifies this
      ensures Valid() && next == old(next)
      ensures rows == Without(old(rows), expense)
    {
      rows := Without(rows, expense);
    }
  }
}
