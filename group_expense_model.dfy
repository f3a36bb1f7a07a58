/** The `group_expense` table and the queries over it: a group's expenses
    newest first, a user's expenses with the user's role, an expense's shares
    largest first, and the per-group and per-month summaries. */
module GroupExpenseModel {
  import opened Common
  import opened Tables
  import opened Text
  import opened ExpenseGroupMemberModel
  import opened AccountModel

  /** A group expense. total_amount and expense_date are required columns;
      an absent description is stored as NULL. */
  datatype Expense = Expense(group: int, payer: UserId, total: Money, description: Option<string>, date: Date)

  /** A row of `group_expense_share`: one member's part of one expense. */
  datatype Share = Share(expense: int, account: int, amount: Money)

  /** The payer has an account row: the `JOIN account` of every expense
      listing. */
  predicate PayerExists(e: Expense, accounts: map<Id, Account>) {
    e.payer >= 0 && e.payer in accounts
  }

  /** The payer's account and the group both exist: the two inner JOINs of
      getById and getByUserId. */
  predicate ExpenseJoined(e: Expense, accounts: map<Id, Account>, groups: set<Id>) {
    PayerExists(e, accounts) && e.group >= 0 && e.group in groups
  }

  /** The share's account exists: the `JOIN account` of getExpenseShares. */
  predicate SharerExists(s: Share, accounts: map<Id, Account>) {
    s.account >= 0 && s.account in accounts
  }

  /** `user_role` of getByUserId. */
  datatype UserRole = AsPayer | AsParticipant

  datatype ExpenseListing = ExpenseListing(id: Id, role: UserRole)

  /** ORDER BY expense_date DESC, created_at DESC as an ascending key.
      created_at is the insert time, which never decreases along the
      auto-increment id, so ties on it are broken by the newer id. */
  function DateKey(rows: map<Id, Expense>): Id -> seq<real> {
    (k: Id) => if k in rows then [-(Stamp(rows[k].date) as real), -(k as real)] else []
  }

  /** Expense a is listed before expense b: a later date, or the same date
      and a newer row. */
  predicate ListedBefore(rows: map<Id, Expense>, a: Id, b: Id)
    requires a in rows && b in rows
  {
    Stamp(rows[a].date) > Stamp(rows[b].date) || (Stamp(rows[a].date) == Stamp(rows[b].date) && a >= b)
  }

  /** ORDER BY shared_amount DESC as an ascending key. */
  function AmountKey(shares: map<Id, Share>): Id -> seq<real> {
    (k: Id) => if k in shares then [-shares[k].amount] else []
  }

  /** ORDER BY expense_date DESC, created_at DESC over the listed ids: the
      same ids as often as given, latest date first and newest row first
      within a date. */
  function NewestFirst(rows: map<Id, Expense>, ids: seq<Id>): (r: seq<Id>)
    requires forall k :: k in ids ==> k in rows
    ensures multiset(r) == multiset(ids)
    ensures forall k :: k in r <==> k in ids
    ensures NoDuplicates(ids) ==> NoDuplicates(r)
    ensures forall i :: 0 <= i < |r| ==> r[i] in rows
    ensures forall i, j :: 0 <= i < j < |r| ==> ListedBefore(rows, r[i], r[j])
  {
    var r := SortBy(ids, DateKey(rows));
    assert forall k :: k in r <==> k in ids by {
      forall k ensures k in r <==> k in ids {
        SortByMembers(ids, DateKey(rows), k);
      }
    }
    assert NoDuplicates(ids) ==> NoDuplicates(r) by {
      if NoDuplicates(ids) {
        SortByNoDuplicates(ids, DateKey(rows));
      }
    }
    assert forall i :: 0 <= i < |r| ==> r[i] in r;
    DateKeyOrder(rows, r);
    r
  }

  /** Each listed expense with the user's role in it. */
  function ListAs(rows: map<Id, Expense>, ids: seq<Id>, user: UserId): (r: seq<ExpenseListing>)
    requires forall i :: 0 <= i < |ids| ==> ids[i] in rows
    ensures |r| == |ids|
    ensures forall i :: 0 <= i < |r| ==> r[i].id == ids[i] && (r[i].role == AsPayer <==> rows[ids[i]].payer == user)
  {
    seq(|ids|, i requires 0 <= i < |ids| => ExpenseListing(ids[i], if rows[ids[i]].payer == user then AsPayer else AsParticipant))
  }

  /** The kept expenses, each once, latest first and newest row first within
      a date, each with the user's role. */
  function Visible(rows: map<Id, Expense>, next: nat, keep: (nat, Expense) -> bool, user: UserId):
    (r: seq<ExpenseListing>)
    requires forall k :: k in rows ==> k < next
    ensures forall k :: (exists i :: 0 <= i < |r| && r[i].id == k) <==> k in rows && keep(k, rows[k])
    ensures forall i :: 0 <= i < |r| ==>
              r[i].id in rows && (r[i].role == AsPayer <==> rows[r[i].id].payer == user)
    ensures forall i, j :: 0 <= i < j < |r| ==> r[i].id != r[j].id
    ensures forall i, j :: 0 <= i < j < |r| ==> ListedBefore(rows, r[i].id, r[j].id)
  {
    var ids := IdsDesc(rows, next, keep);
    assert NoDuplicates(ids);
    var sorted := NewestFirst(rows, ids);
    var r := ListAs(rows, sorted, user);
    ListedIds(sorted, r);
    r
  }

  /** A listing names exactly the ids it was built from. */
  lemma ListedIds(ids: seq<Id>, r: seq<ExpenseListing>)
    requires |r| == |ids| && forall i :: 0 <= i < |r| ==> r[i].id == ids[i]
    ensures forall k :: (exists i :: 0 <= i < |r| && r[i].id == k) <==> k in ids
  {
    forall k | k in ids ensures exists i :: 0 <= i < |r| && r[i].id == k {
      var i :| 0 <= i < |ids| && ids[i] == k;
      assert r[i].id == k;
    }
  }

  /** A list sorted on DateKey runs from the latest date to the earliest,
      and from the newest row to the oldest within a date. */
  lemma DateKeyOrder(rows: map<Id, Expense>, r: seq<Id>)
    requires forall i :: 0 <= i < |r| ==> r[i] in rows
    requires SortedBy(r, DateKey(rows))
    ensures forall i, j :: 0 <= i < j < |r| ==> ListedBefore(rows, r[i], r[j])
  {
    forall i, j | 0 <= i < j < |r| ensures ListedBefore(rows, r[i], r[j]) {
      var ka, kb := DateKey(rows)(r[i]), DateKey(rows)(r[j]);
      assert LexLe(ka, kb);
      if Stamp(rows[r[i]].date) == Stamp(rows[r[j]].date) {
        assert LexLe(ka[1..], kb[1..]);
        LexLeSingle(ka[1], kb[1]);
      }
    }
  }

  /** A list sorted on AmountKey runs from the largest share to the smallest. */
  lemma AmountKeyOrder(shares: map<Id, Share>, r: seq<Id>)
    requires forall i :: 0 <= i < |r| ==> r[i] in shares
    requires SortedBy(r, AmountKey(shares))
    ensures forall i, j :: 0 <= i < j < |r| ==> shares[r[i]].amount >= shares[r[j]].amount
  {
    forall i, j | 0 <= i < j < |r| ensures shares[r[i]].amount >= shares[r[j]].amount {
      LexLeSingle(-shares[r[i]].amount, -shares[r[j]].amount);
    }
  }

  /** Selects the share rows of one expense. */
  function OfExpense(expense: int): (nat, Share) -> bool {
    (k: nat, s: Share) => s.expense == expense
  }

  /** `getExpenseShares`: the expense's shares whose account exists,
      largest amount first. */
  function ExpenseShares(shares: map<Id, Share>, n: nat, expense: int, accounts: map<Id, Account>): (r: seq<Id>)
    requires forall k :: k in shares ==> k < n
    ensures forall k :: k in r <==> k in shares && shares[k].expense == expense && SharerExists(shares[k], accounts)
    ensures forall i, j :: 0 <= i < j < |r| ==> shares[r[i]].amount >= shares[r[j]].amount
  {
    var ids := Ids(shares, n, (k: nat, s: Share) => s.expense == expense && SharerExists(s, accounts));
    var r := SortBy(ids, AmountKey(shares));
    assert forall k :: k in r <==> k in ids by {
      forall k ensures k in r <==> k in ids {
        SortByMembers(ids, AmountKey(shares), k);
      }
    }
    assert forall i :: 0 <= i < |r| ==> r[i] in r;
    AmountKeyOrder(shares, r);
    r
  }

  /** The user paid the expense, holds a share of it, or has an accepted
      member row in its group: the WHERE clause of getByUserId. */
  predicate SeesExpense(shares: map<Id, Share>, members: map<Id, Member>, k: Id, e: Expense, user: UserId) {
    || e.payer == user
    || (exists s :: s in shares && shares[s].expense == k && shares[s].account == user)
    || (exists m :: m in members && members[m].group == e.group && members[m].account == user
                    && members[m].join == Accepted)
  }

  /** The result row of `getGroupExpenseSummary`. */
  datatype Summary = Summary(count: nat, total: Option<Money>, average: Option<Money>,
                             earliest: Option<Date>, latest: Option<Date>)

  /** The result row of `getMonthlySummary`: the month's expense count and
      total; month_year is the (year, month) pair. */
  datatype MonthTotal = MonthTotal(count: nat, total: Money, year: int, month: int)

  function InGroup(group: int): (nat, Expense) -> bool {
    (k: nat, e: Expense) => e.group == group
  }

  function InMonth(group: int, year: int, month: int): (nat, Expense) -> bool {
    (k: nat, e: Expense) => e.group == group && e.date.year == year && e.date.month == month
  }

  /** total_amount of the expenses a WHERE clause keeps. */
  function TotalWhere(keep: (nat, Expense) -> bool): (nat, Expense) -> Option<real> {
    (k: nat, e: Expense) => if keep(k, e) then Some(e.total) else None
  }

  /** MIN(expense_date) over the group's expenses with id below n. */
  function Earliest(rows: map<Id, Expense>, n: nat, group: int): (r: Option<Date>)
    ensures r.None? <==> forall k :: k < n && k in rows ==> rows[k].group != group
    ensures r.Some? ==> exists k :: k < n && k in rows && rows[k].group == group && rows[k].date == r.value
    ensures r.Some? ==> forall k :: k < n && k in rows && rows[k].group == group ==>
                          Stamp(r.value) <= Stamp(rows[k].date)
    decreases n
  {
    if n == 0 then None
    else
      var prev := Earliest(rows, n - 1, group);
      if n - 1 in rows && rows[n - 1].group == group && (prev.None? || Stamp(rows[n - 1].date) < Stamp(prev.value))
      then Some(rows[n - 1].date)
      else prev
  }

  /** MAX(expense_date) over the group's expenses with id below n. */
  function Latest(rows: map<Id, Expense>, n: nat, group: int): (r: Option<Date>)
    ensures r.None? <==> forall k :: k < n && k in rows ==> rows[k].group != group
    ensures r.Some? ==> exists k :: k < n && k in rows && rows[k].group == group && rows[k].date == r.value
    ensures r.Some? ==> forall k :: k < n && k in rows && rows[k].group == group ==>
                          Stamp(rows[k].date) <= Stamp(r.value)
    decreases n
  {
    if n == 0 then None
    else
      var prev := Latest(rows, n - 1, group);
      if n - 1 in rows && rows[n - 1].group == group && (prev.None? || Stamp(prev.value) < Stamp(rows[n - 1].date))
      then Some(rows[n - 1].date)
      else prev
  }

  /** A selection is empty exactly when no row below n is kept. */
  lemma IdsEmpty<R>(rows: map<nat, R>, n: nat, keep: (nat, R) -> bool)
    ensures Ids(rows, n, keep) == [] <==> forall k :: k < n && k in rows ==> !keep(k, rows[k])
  {
    var ids := Ids(rows, n, keep);
    if ids != [] {
      assert ids[0] in ids;
    }
  }

  class ExpenseTable {
    var rows: map<Id, Expense>
    var next: nat

    ghost predicate Valid()
      reads this
    {
      forall id :: id in rows ==> id < next
    }

    constructor ()
      ensures Valid() && rows == map[] && next == 1
    {
      rows := map[];
      next := 1;
    }

    /** `create`: inserts the expense and returns its id; an expense_date the
        column cannot store (absent or unparsable) makes the insert fail. */
    method Create(group: int, payer: UserId, total: Money, description: Option<string>, date: DateInput)
      returns (id: Option<Id>)
      requires Valid()
      modifies this
      ensures Valid()
      ensures id.Some? <==> date.OnDate?
      ensures id.None? ==> rows == old(rows) && next == old(next)
      ensures id.Some? ==> id.value == old(next) && id.value !in old(rows) && next == old(next) + 1
      ensures id.Some? ==> rows == old(rows)[id.value := Expense(group, payer, total, TextOrNull(description), date.date)]
    {
      if !date.OnDate? {
        return None;
      }
      id := Some(next);
      rows := rows[next := Expense(group, payer, total, TextOrNull(description), date.date)];
      next := next + 1;
    }

    /** `getById`: the expense, or null when there is no such row or its
        payer's account or its group is missing. */
    function GetById(id: int, accounts: map<Id, Account>, groups: set<Id>): (r: Option<Expense>)
      reads this
      ensures r.Some? <==> id >= 0 && id in rows && ExpenseJoined(rows[id], accounts, groups)
      ensures r.Some? ==> r.value == rows[id]
    {
      if id >= 0 && id in rows && ExpenseJoined(rows[id], accounts, groups) then Some(rows[id]) else None
    }

    /** `update`: writes total_amount, description and expense_date together.
        An absent total or date is NULL, which the required columns refuse,
        as they refuse an unparsable date: the statement then fails (ok
        false) and changes nothing. Group and payer stay. */
    method Update(id: Id, total: Option<Money>, description: Option<string>, date: DateInput)
      returns (ok: bool)
      requires Valid()
      modifies this
      ensures Valid() && next == old(next)
      ensures ok <==> id !in old(rows) || (total.Some? && date.OnDate?)
      ensures !ok || id !in old(rows) ==> rows == old(rows)
      ensures ok && id in old(rows) ==>
        rows == old(rows)[id := old(rows)[id].(total := total.value, description := TextOrNull(description),
                                              date := date.date)]
    {
      if id !in rows {
        return true;
      }
      if total.None? || !date.OnDate? {
        return false;
      }
      rows := rows[id := rows[id].(total := total.value, description := TextOrNull(description), date := date.date)];
      return true;
    }

    /** `delete`: removes the row with that id and no other. */
    method Delete(id: Id)
      requires Valid()
      modifies this
      ensures Valid() && next == old(next)
      ensures rows == old(rows) - {id}
    {
      rows := rows - {id};
    }

    /** `getByGroupId`: the group's expenses whose payer has an account,
        each once, latest expense_date first and newest row first within a
        date. */
    function ByGroup(group: int, accounts: map<Id, Account>): (r: seq<Id>)
      requires Valid()
      reads this
      ensures forall k :: k in r <==> k in rows && rows[k].group == group && PayerExists(rows[k], accounts)
      ensures NoDuplicates(r)
      ensures forall i :: 0 <= i < |r| ==> r[i] in rows
      ensures forall i, j :: 0 <= i < j < |r| ==> ListedBefore(rows, r[i], r[j])
    {
      var ids := IdsDesc(rows, next, (k: nat, e: Expense) => e.group == group && PayerExists(e, accounts));
      assert NoDuplicates(ids);
      NewestFirst(rows, ids)
    }

    /** `getByUserId`: every expense the user paid, holds a share of, or
        belongs to the group of as an accepted member, and whose payer and
        group exist, latest first, with role payer exactly when the user
        paid it. */
    function ByUser(shares: map<Id, Share>, members: map<Id, Member>, accounts: map<Id, Account>,
                    groups: set<Id>, user: UserId): (r: seq<ExpenseListing>)
      requires Valid()
      reads this
      ensures forall k :: (exists i :: 0 <= i < |r| && r[i].id == k) <==>
                            k in rows && SeesExpense(shares, members, k, rows[k], user)
                            && ExpenseJoined(rows[k], accounts, groups)
      ensures forall i :: 0 <= i < |r| ==>
                r[i].id in rows && (r[i].role == AsPayer <==> rows[r[i].id].payer == user)
      ensures forall i, j :: 0 <= i < j < |r| ==> r[i].id != r[j].id
      ensures forall i, j :: 0 <= i < j < |r| ==> ListedBefore(rows, r[i].id, r[j].id)
    {
      Visible(rows, next, (k: nat, e: Expense) => SeesExpense(shares, members, k, e, user)
                                                  && ExpenseJoined(e, accounts, groups), user)
    }

    /** `getGroupExpenseSummary`: count, SUM, AVG, MIN and MAX of the group's
        expenses (AVG over the non-NULL totals, which are all of them). */
    function GroupSummary(group: int): Summary
      reads this
    {
      var count := |Ids(rows, next, InGroup(group))|;
      var total := Sum(rows, next, TotalWhere(InGroup(group)));
      Summarize(count, total, Earliest(rows, next, group), Latest(rows, next, group))
    }

    /** `getMonthlySummary`: null when the group has no expense dated in that
        year and month, otherwise the month's count and total. */
    function MonthlySummary(group: int, year: int, month: int): (r: Option<MonthTotal>)
      requires Valid()
      reads this
      ensures r.None? <==> forall k :: k in rows ==> !InMonth(group, year, month)(k, rows[k])
      ensures r.Some? ==> r.value.year == year && r.value.month == month && r.value.count > 0
      ensures r.Some? ==> Some(r.value.total) == Sum(rows, next, TotalWhere(InMonth(group, year, month)))
      ensures r.Some? ==> r.value.count <= GroupSummary(group).count
    {
      var ids := Ids(rows, next, InMonth(group, year, month));
      IdsEmpty(rows, next, InMonth(group, year, month));
      SumNull(rows, next, TotalWhere(InMonth(group, year, month)));
      IdsMono(rows, next, InMonth(group, year, month), InGroup(group));
      if ids == [] then None
      else Some(MonthTotal(|ids|, Sum(rows, next, TotalWhere(InMonth(group, year, month))).value, year, month))
    }
  }

  /** Over no expense the summary has count 0 and NULL elsewhere; otherwise
      the total is there and the average times the count is the total. */
  lemma GroupSummaryTotals(t: ExpenseTable, group: int)
    requires t.Valid()
    ensures var s := t.GroupSummary(group);
      && (s.count == 0 <==> forall k :: k in t.rows ==> t.rows[k].group != group)
      && (s.total.None? <==> s.count == 0)
  {
    IdsEmpty(t.rows, t.next, InGroup(group));
    SumNull(t.rows, t.next, TotalWhere(InGroup(group)));
  }

  /** The summary row from COUNT, SUM, MIN and MAX; AVG is NULL over no row. */
  function Summarize(count: nat, total: Option<Money>, earliest: Option<Date>, latest: Option<Date>): Summary {
    Summary(count, total, if count == 0 then None else Some(Mean(OrZero(total), count)), earliest, latest)
  }

  /** The arithmetic mean of count values adding up to total. */
  function Mean(total: Money, count: nat): Money
    requires count > 0
  {
    total / count as real
  }

  /** count equal parts of total add up to total. */
  lemma CountTimesMean(total: Money, count: nat)
    requires count > 0
    ensures count as real * Mean(total, count) == total
  {
  }

  /** AVG is the total spread evenly: average times count gives the total
      back, and there is an average exactly when there is a row. */
  lemma SummarizeAverage(count: nat, total: Option<Money>, earliest: Option<Date>, latest: Option<Date>)
    ensures var s := Summarize(count, total, earliest, latest);
      && (s.average.Some? <==> count > 0)
      && (s.average.Some? ==> s.average.value * count as real == OrZero(total))
  {
  }

  /** With at least one expense both dates are there, and every expense of
      the group is dated between the earliest and the latest. */
  lemma GroupSummaryDates(t: ExpenseTable, group: int)
    requires t.Valid()
    ensures var s := t.GroupSummary(group);
      && (s.earliest.Some? <==> s.count > 0)
      && (s.latest.Some? <==> s.count > 0)
      && (s.count > 0 ==> Stamp(s.earliest.value) <= Stamp(s.latest.value))
      && (s.count > 0 ==> forall k :: k in t.rows && t.rows[k].group == group ==>
                            Stamp(s.earliest.value) <= Stamp(t.rows[k].date) <= Stamp(s.latest.value))
  {
    IdsEmpty(t.rows, t.next, InGroup(group));
    var s := t.GroupSummary(group);
    if s.count > 0 {
      var k :| k < t.next && k in t.rows && t.rows[k].group == group && t.rows[k].date == s.earliest.value;
    }
  }
}
