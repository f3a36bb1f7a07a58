/** The group-expense handlers: recording an expense with explicit or equal
    shares, changing it, deleting it with its shares, and replacing its
    shares. The invariant they keep is that every share row belongs to an
    existing expense. */
module GroupExpenseController {
  import opened Common
  import opened Tables
  import opened ExpenseGroupMemberModel
  import opened GroupExpenseModel
  import opened GroupExpenseShareModel
  import opened AccountModel
  import opened Js
  import ExpenseGroupModel

  /** One element of the `shares` array of a request body: its account_id
      and shared_amount fields. */
  datatype ShareInput = ShareInput(account: Value, amount: Value)

  /** Every share row names an existing expense. */
  predicate SharesReferenceExpenses(shares: map<Id, Share>, expenses: map<Id, Expense>) {
    forall k :: k in shares ==> shares[k].expense >= 0 && shares[k].expense in expenses
  }

  /** `shares && Array.isArray(shares) && shares.length > 0`. */
  predicate Explicit(input: Option<seq<ShareInput>>) {
    input.Some? && |input.value| > 0
  }

  /** `parseFloat(share.shared_amount || 0)` in the reduce: a falsy amount
      (missing, null, "", 0, false) counts as 0, a truthy one is read by
      parseFloat. Wherever parseFloat alone gives a number, this is that
      number: the check and the insert then see the same value. */
  function CheckedValue(v: Value): (r: Option<Money>)
    ensures !Truthy(v) ==> r == Some(0.0)
    ensures ParseFloat(v).Some? ==> r == ParseFloat(v)
  {
    if !Truthy(v) then Some(0.0) else ParseFloat(v)
  }

  /** A falsy amount passes the sum check as 0 yet reaches the insert as
      NaN, except the number 0 itself. */
  lemma FalsyAmountsDiffer()
    ensures CheckedValue(Null) == Some(0.0) && ParseFloat(Null).None?
    ensures CheckedValue(Str("")) == Some(0.0) && ParseFloat(Str("")).None?
    ensures CheckedValue(Undefined) == Some(0.0) && ParseFloat(Undefined).None?
    ensures CheckedValue(Num(0.0)) == ParseFloat(Num(0.0))
  {
    TruthinessIsNotNumber();
  }

  /** The reduce over the shares: the sum of the checked values, NaN (None)
      as soon as one of them is NaN. */
  function SharesTotal(input: seq<ShareInput>): (r: Option<Money>)
    ensures r.Some? <==> forall i :: 0 <= i < |input| ==> CheckedValue(input[i].amount).Some?
    decreases |input|
  {
    if input == [] then Some(0.0)
    else
      var prev := SharesTotal(input[..|input| - 1]);
      var last := CheckedValue(input[|input| - 1].amount);
      if prev.Some? && last.Some? then Some(prev.value + last.value) else None
  }

  /** `Math.abs(sharesTotal - total) > 0.01`, which is false for NaN. */
  predicate Mismatch(sum: Option<Money>, total: Money) {
    sum.Some? && (sum.value - total > 0.01 || total - sum.value > 0.01)
  }

  /** The addShares values for explicit shares of expense id: account_id
      written into the statement as the integer it spells, shared_amount
      as `parseFloat(share.shared_amount)`. */
  function ExplicitValues(id: Id, input: seq<ShareInput>): (r: seq<NewShare>)
    ensures |r| == |input|
    ensures forall i :: 0 <= i < |input| ==>
      r[i] == NewShare(id, IdValue(input[i].account), ParseFloat(input[i].amount))
  {
    seq(|input|, i requires 0 <= i < |input| => NewShare(id, IdValue(input[i].account), ParseFloat(input[i].amount)))
  }

  /** The explicit values insert exactly when every element's account_id is
      a whole number and parseFloat reads a number from its shared_amount. */
  lemma ExplicitStorable(id: Id, input: seq<ShareInput>)
    ensures AllStorable(ExplicitValues(id, input)) <==>
            forall i :: 0 <= i < |input| ==> IdValue(input[i].account).Some? && ParseFloat(input[i].amount).Some?
  {
    var vs := ExplicitValues(id, input);
    if !AllStorable(vs) {
      var i :| 0 <= i < |vs| && !Storable(vs[i]);
      assert !(IdValue(input[i].account).Some? && ParseFloat(input[i].amount).Some?);
    }
  }

  /** When the inserted values are all numbers, the sum the handler checked
      is the sum of the amounts stored. */
  lemma CheckedIsStored(id: Id, input: seq<ShareInput>)
    requires AllStorable(ExplicitValues(id, input))
    ensures SharesTotal(input) == Some(SumSeq(Amounts(Rows(ExplicitValues(id, input)))))
  {
    var vs := ExplicitValues(id, input);
    var all := Amounts(Rows(vs));
    forall i | 0 <= i < |input|
      ensures CheckedValue(input[i].amount) == Some(all[i])
    {
      assert Storable(vs[i]);
    }
    TotalIsSum(input, all);
  }

  /** The reduce adds up the checked values: when each share's checked
      value is a number, the total is their sum. */
  lemma {:induction false} TotalIsSum(input: seq<ShareInput>, a: seq<Money>)
    requires |a| == |input|
    requires forall i :: 0 <= i < |input| ==> CheckedValue(input[i].amount) == Some(a[i])
    ensures SharesTotal(input) == Some(SumSeq(a))
    decreases |input|
  {
    if input != [] {
      var n := |input|;
      TotalIsSum(input[..n - 1], a[..n - 1]);
      SumSeqLast(a);
    }
  }

  /** The amount column of a list of share rows. */
  function Amounts(rows: seq<Share>): (r: seq<Money>)
    ensures |r| == |rows| && forall i :: 0 <= i < |rows| ==> r[i] == rows[i].amount
  {
    seq(|rows|, i requires 0 <= i < |rows| => rows[i].amount)
  }

  /** The accounts of the group's accepted members that have an account
      row, in the order of getGroupMembers
      (`members.filter(m => m.join_status === 'accepted')`). */
  function AcceptedAccounts(members: MemberTable, accounts: map<Id, Account>, group: int): (r: seq<int>)
    requires members.Valid()
    reads members
    ensures forall a :: a in r <==> exists k :: k in members.rows && members.rows[k].group == group
                                               && members.rows[k].join == Accepted && members.rows[k].account == a
                                               && HasAccount(members.rows[k], accounts)
  {
    var all, rows := members.GroupMembers(group, accounts), members.rows;
    var accepted := Filter(all, (k: Id) => k in rows && rows[k].join == Accepted);
    assert forall k :: k in accepted <==> k in all && rows[k].join == Accepted by {
      forall k ensures k in accepted <==> k in all && rows[k].join == Accepted {
        if k in accepted {
          var i :| 0 <= i < |accepted| && accepted[i] == k;
        }
        if k in all && rows[k].join == Accepted {
          var i :| 0 <= i < |all| && all[i] == k;
        }
      }
    }
    Column(rows, accepted, (k: nat, m: Member) => m.account)
  }

  /** The equal split: every accepted member's share is total / n, and with
      no accepted member there is nothing to insert. */
  function AutoValues(id: Id, accounts: seq<int>, total: Money): (r: seq<NewShare>)
    ensures |r| == |accounts| && AllStorable(r)
  {
    seq(|accounts|, i requires 0 <= i < |accounts| => NewShare(id, Some(accounts[i]), Some(Mean(total, |accounts|))))
  }

  /** The equal shares go to exactly the given accounts, belong to the
      expense, and add up to the total. */
  lemma AutoSplitSum(id: Id, accounts: seq<int>, total: Money)
    requires |accounts| > 0
    ensures var r := Rows(AutoValues(id, accounts, total));
      && SumSeq(Amounts(r)) == total
      && (forall i :: 0 <= i < |r| ==> r[i].expense == id && r[i].account == accounts[i])
  {
    var amounts := Amounts(Rows(AutoValues(id, accounts, total)));
    SumSeqConstant(amounts, Mean(total, |accounts|));
    CountTimesMean(total, |accounts|);
  }

  /** The values createExpense hands to addShares for expense id. */
  function Planned(id: Id, input: Option<seq<ShareInput>>, accepted: seq<int>, total: Money): (r: seq<NewShare>)
    ensures forall i :: 0 <= i < |r| ==> r[i].expense == id
  {
    if Explicit(input) then ExplicitValues(id, input.value) else AutoValues(id, accepted, total)
  }

  /** `!group_id || !total_amount || !expense_date`, then
      `isNaN(total_amount) || parseFloat(total_amount) <= 0`. */
  predicate CreateRejected(group: Value, total: Value, date: DateInput) {
    !Truthy(group) || !Truthy(total) || date.NoDate? || IsNaN(total) || FloatAtMost(total, 0.0)
  }

  /** `getMember(group_id, userId)` finds a row: group_id, bound to the
      INT column, names the group, and the caller has a member row there
      whose account and group exist. */
  predicate MemberOf(members: MemberTable, accounts: map<Id, Account>, groups: set<Id>, group: Value, caller: UserId)
    requires members.Valid()
    reads members
  {
    IdValue(group).Some? && members.GetMember(IdValue(group).value, caller, accounts, groups).Some?
  }

  /** A positive total that passes the checks yet spells no number for
      parseFloat (true, white space): the insert writes NaN and fails. */
  lemma TruthyNaNTotal()
    ensures !CreateRejected(Num(1.0), Bool(true), OnDate(Date(2024, 1, 1, 0))) && ParseFloat(Bool(true)).None?
  {
  }

  /** `createExpense`. Fields are checked before any write (400); the caller
      needs a member row of the group of any join status (403). The expense
      is inserted with the caller as payer and `parseFloat(total_amount)` as
      its total; a total parseFloat cannot read or an unparsable date fails
      that insert (500, nothing written). The rest is RecordShares. */
  method CreateExpense(expenses: ExpenseTable, shares: ShareTable, members: MemberTable,
                       accounts: map<Id, Account>, groups: set<Id>, caller: UserId,
                       group: Value, total: Value, description: Option<string>, date: DateInput,
                       input: Option<seq<ShareInput>>)
    returns (o: Outcome, id: Option<Id>)
    requires expenses.Valid() && shares.Valid() && members.Valid()
    modifies expenses, shares
    ensures expenses.Valid() && shares.Valid()
    ensures id.Some? <==> o == Ok
    ensures CreateRejected(group, total, date) ==> o == BadRequest
    ensures o == Forbidden <==> !CreateRejected(group, total, date) && !MemberOf(members, accounts, groups, group, caller)
    ensures CreateRejected(group, total, date) || !MemberOf(members, accounts, groups, group, caller)
            || ParseFloat(total).None? || date.BadDate? ==>
      (o == BadRequest || o == Forbidden || o == ServerError) &&
      expenses.rows == old(expenses.rows) && expenses.next == old(expenses.next) &&
      shares.rows == old(shares.rows) && shares.next == old(shares.next)
    ensures !CreateRejected(group, total, date) && MemberOf(members, accounts, groups, group, caller)
            && ParseFloat(total).Some? && date.OnDate? ==>
      var n := old(expenses.next);
      && expenses.next == n + 1
      && Recorded(old(expenses.rows), n, old(shares.rows), old(shares.next),
                  Expense(IdValue(group).value, caller, ParseFloat(total).value, TextOrNull(description), date.date),
                  input, AcceptedAccounts(members, accounts, IdValue(group).value), o,
                  expenses.rows, shares.rows, shares.next)
      && (o == Ok ==> id == Some(n))
    ensures SharesReferenceExpenses(old(shares.rows), old(expenses.rows)) ==>
      SharesReferenceExpenses(shares.rows, expenses.rows)
  {
    // both field checks answer 400
    if CreateRejected(group, total, date) {
      return BadRequest, None;
    }
    if !MemberOf(members, accounts, groups, group, caller) {
      return Forbidden, None;
    }
    var amount := ParseFloat(total);
    if amount.None? {
      return ServerError, None;
    }
    var g := IdValue(group).value;
    o, id := StoreExpense(expenses, shares, g, caller, amount.value, description, date,
                          input, AcceptedAccounts(members, accounts, g));
    // notifying the other accepted members is not modelled
  }

  /** The writes of createExpense once the checks passed: the insert of the
      expense (500 and nothing written when the date is not one), then
      RecordShares. */
  method StoreExpense(expenses: ExpenseTable, shares: ShareTable, group: int, payer: UserId, total: Money,
                      description: Option<string>, date: DateInput,
                      input: Option<seq<ShareInput>>, accepted: seq<int>)
    returns (o: Outcome, id: Option<Id>)
    requires expenses.Valid() && shares.Valid()
    modifies expenses, shares
    ensures expenses.Valid() && shares.Valid()
    ensures id.Some? <==> o == Ok
    ensures !date.OnDate? ==>
      o == ServerError && expenses.rows == old(expenses.rows) && expenses.next == old(expenses.next) &&
      shares.rows == old(shares.rows) && shares.next == old(shares.next)
    ensures date.OnDate? ==>
      var n := old(expenses.next);
      && expenses.next == n + 1
      && Recorded(old(expenses.rows), n, old(shares.rows), old(shares.next),
                  Expense(group, payer, total, TextOrNull(description), date.date),
                  input, accepted, o, expenses.rows, shares.rows, shares.next)
      && (o == Ok ==> id == Some(n))
    ensures SharesReferenceExpenses(old(shares.rows), old(expenses.rows)) ==>
      SharesReferenceExpenses(shares.rows, expenses.rows)
  {
    var created := expenses.Create(group, payer, total, description, date);
    if created.None? {
      return ServerError, None;
    }
    var n := created.value;
    ghost var orig, origShares := old(expenses.rows), old(shares.rows);
    assert expenses.rows - {n} == orig;
    assert n in expenses.rows && orig.Keys <= expenses.rows.Keys;
    o := RecordShares(expenses, shares, n, input, accepted);
    id := if o == Ok then created else None;
    if SharesReferenceExpenses(origShares, orig) {
      RecordedKeepsReferences(orig, n, origShares, old(shares.next), input, accepted, o,
                              expenses.rows, shares.rows);
    }
  }

  /** What happens after the expense row e was inserted at id n, from the
      tables before the insert to the tables at the end. Explicit shares
      whose checked sum misses the total by more than 0.01: the expense is
      deleted again (400, the tables as before, one id used up). Otherwise
      the planned values (explicit, or total / n per accepted member) are
      inserted; one without account or numeric amount fails the insert (500,
      the expense stays without shares). */
  ghost predicate Recorded(expenses: map<Id, Expense>, n: Id, shares: map<Id, Share>, m: nat, e: Expense,
                           input: Option<seq<ShareInput>>, accepted: seq<int>,
                           o: Outcome, expensesAfter: map<Id, Expense>, sharesAfter: map<Id, Share>, mAfter: nat)
    requires forall k :: k in shares ==> k < m
  {
    var mismatch := Explicit(input) && Mismatch(SharesTotal(input.value), e.total);
    var planned := Planned(n, input, accepted, e.total);
    && (o == BadRequest <==> mismatch)
    && (o == ServerError <==> !mismatch && !AllStorable(planned))
    && (o == Ok <==> !mismatch && AllStorable(planned))
    && (o == BadRequest ==> expensesAfter == expenses && sharesAfter == shares && mAfter == m)
    && (o == ServerError ==> expensesAfter == expenses[n := e] && sharesAfter == shares && mAfter == m)
    && (o == Ok ==> expensesAfter == expenses[n := e] && sharesAfter == Append(shares, m, Rows(planned))
                    && mAfter == m + |planned|)
  }

  /** Whatever the share stage does, every share still names an existing
      expense: new shares name the expense just inserted. */
  lemma RecordedKeepsReferences(expenses: map<Id, Expense>, n: Id, shares: map<Id, Share>, m: nat,
                                input: Option<seq<ShareInput>>, accepted: seq<int>,
                                o: Outcome, expensesAfter: map<Id, Expense>, sharesAfter: map<Id, Share>)
    requires forall k :: k in shares ==> k < m
    requires SharesReferenceExpenses(shares, expenses)
    requires o == BadRequest ==> expensesAfter == expenses && sharesAfter == shares
    requires o != BadRequest ==> n in expensesAfter && expenses.Keys <= expensesAfter.Keys
    requires o != Ok && o != BadRequest ==> sharesAfter == shares
    requires o == Ok ==> forall k :: k in sharesAfter ==> k in shares || sharesAfter[k].expense == n
    requires o == Ok ==> forall k :: k in shares ==> k in sharesAfter && sharesAfter[k] == shares[k]
    ensures SharesReferenceExpenses(sharesAfter, expensesAfter)
  {
  }

  /** The share stage of createExpense for the expense just inserted at n. */
  method RecordShares(expenses: ExpenseTable, shares: ShareTable, n: Id, input: Option<seq<ShareInput>>,
                      accepted: seq<int>)
    returns (o: Outcome)
    requires expenses.Valid() && shares.Valid() && n in expenses.rows && n + 1 == expenses.next
    modifies expenses, shares
    ensures expenses.Valid() && shares.Valid() && expenses.next == old(expenses.next)
    ensures Recorded(old(expenses.rows) - {n}, n, old(shares.rows), old(shares.next), old(expenses.rows)[n],
                     input, accepted, o, expenses.rows, shares.rows, shares.next)
    ensures o == Ok ==> forall k :: k in shares.rows ==> k in old(shares.rows) || shares.rows[k].expense == n
    ensures forall k :: k in old(shares.rows) ==> k in shares.rows && shares.rows[k] == old(shares.rows)[k]
    ensures o != Ok ==> shares.rows == old(shares.rows)
    ensures o == BadRequest ==> expenses.rows == old(expenses.rows) - {n}
    ensures o != BadRequest ==> expenses.rows == old(expenses.rows)
  {
    var e := expenses.rows[n];
    ghost var before := expenses.rows - {n};
    assert before[n := e] == expenses.rows;
    if Explicit(input) && Mismatch(SharesTotal(input.value), e.total) {
      expenses.Delete(n);
      return BadRequest;
    }
    var planned := Planned(n, input, accepted, e.total);
    var ok := shares.AddShares(planned);
    if !ok {
      return ServerError;
    }
    return Ok;
  }
  /** After a successful createExpense the new expense's shares are
      exactly the planned rows, one per element, in order. Explicit shares
      add up to within 0.01 of the total; equal shares add up to the total
      exactly, and without accepted members there are none. */
  lemma CreatedShares(shares: map<Id, Share>, m: nat, n: Id, input: Option<seq<ShareInput>>, accepted: seq<int>,
                      total: Money, sharesAfter: map<Id, Share>, mAfter: nat)
    requires forall k :: k in shares ==> k < m
    requires forall k :: k in shares ==> shares[k].expense != n
    requires !(Explicit(input) && Mismatch(SharesTotal(input.value), total))
    requires AllStorable(Planned(n, input, accepted, total))
    requires sharesAfter == Append(shares, m, Rows(Planned(n, input, accepted, total)))
    requires mAfter == m + |Planned(n, input, accepted, total)|
    ensures var mine := SharesOf(sharesAfter, mAfter, n);
      && mine == Rows(Planned(n, input, accepted, total))
      && (Explicit(input) ==> |mine| == |input.value| && !Mismatch(Some(SumSeq(Amounts(mine))), total))
      && (!Explicit(input) && |accepted| > 0 ==> SumSeq(Amounts(mine)) == total)
      && (!Explicit(input) ==> |mine| == |accepted|)
  {
    AppendedShares(shares, m, Rows(Planned(n, input, accepted, total)), n, sharesAfter, mAfter);
    PlannedSum(n, input, accepted, total);
  }

  /** What the planned rows add up to when they are stored. */
  lemma PlannedSum(n: Id, input: Option<seq<ShareInput>>, accepted: seq<int>, total: Money)
    requires AllStorable(Planned(n, input, accepted, total))
    requires !(Explicit(input) && Mismatch(SharesTotal(input.value), total))
    ensures var r := Rows(Planned(n, input, accepted, total));
      && (Explicit(input) ==> |r| == |input.value| && !Mismatch(Some(SumSeq(Amounts(r))), total))
      && (!Explicit(input) && |accepted| > 0 ==> SumSeq(Amounts(r)) == total)
      && (!Explicit(input) ==> |r| == |accepted|)
  {
    if Explicit(input) {
      ExplicitAgrees(n, input.value, total);
    } else if |accepted| > 0 {
      AutoSplitSum(n, accepted, total);
    }
  }

  /** Stored explicit shares whose checked sum passed the 0.01 test add up
      to within 0.01 of the total. */
  lemma ExplicitAgrees(id: Id, input: seq<ShareInput>, total: Money)
    requires AllStorable(ExplicitValues(id, input))
    requires !Mismatch(SharesTotal(input), total)
    ensures !Mismatch(Some(SumSeq(Amounts(Rows(ExplicitValues(id, input))))), total)
  {
    CheckedIsStored(id, input);
  }

  /** getById finds the expense: the row exists and its payer and group
      do too. */
  predicate ExpenseFound(rows: map<Id, Expense>, accounts: map<Id, Account>, groups: set<Id>, id: int) {
    id >= 0 && id in rows && ExpenseJoined(rows[id], accounts, groups)
  }

  /** `total_amount && (isNaN(total_amount) || parseFloat(total_amount) <= 0)`:
      only a truthy total is checked, so the string "0" is refused while the
      number 0 passes. */
  predicate TotalRejected(total: Value) {
    Truthy(total) && (IsNaN(total) || FloatAtMost(total, 0.0))
  }

  /** `total_amount ? parseFloat(total_amount) : undefined`: the value the
      update writes, None for NULL and NaN alike. */
  function WrittenTotal(total: Value): (r: Option<Money>)
    ensures !Truthy(total) ==> r.None?
    ensures !TotalRejected(total) && r.Some? ==> r.value > 0.0
  {
    if Truthy(total) then ParseFloat(total) else None
  }

  /** The string "0" is refused (400), the number 0 passes the check and
      reaches the update as NULL (500), and null or "" do the same. */
  lemma ZeroTotals()
    ensures TotalRejected(Str("0"))
    ensures !TotalRejected(Num(0.0)) && WrittenTotal(Num(0.0)).None?
    ensures !TotalRejected(Null) && WrittenTotal(Null).None?
    ensures !TotalRejected(Str("")) && WrittenTotal(Str("")).None?
  {
    TruthinessIsNotNumber();
  }

  /** `updateExpense`: the expense must be found (404) and be the caller's
      (403); a truthy total must be a positive number (400). The update then
      writes WrittenTotal, the description and the date; the required
      columns refuse NULL, NaN and an unparsable date (500, nothing
      changes). The shares are not revisited. */
  method UpdateExpense(expenses: ExpenseTable, accounts: map<Id, Account>, groups: set<Id>, caller: UserId,
                       id: int, total: Value, description: Option<string>, date: DateInput)
    returns (o: Outcome)
    requires expenses.Valid()
    modifies expenses
    ensures expenses.Valid() && expenses.next == old(expenses.next)
    ensures o == NotFound <==> !ExpenseFound(old(expenses.rows), accounts, groups, id)
    ensures o == Forbidden <==> ExpenseFound(old(expenses.rows), accounts, groups, id)
                                && old(expenses.rows)[id].payer != caller
    ensures o == BadRequest <==> ExpenseFound(old(expenses.rows), accounts, groups, id)
                                 && old(expenses.rows)[id].payer == caller && TotalRejected(total)
    ensures o == ServerError <==> ExpenseFound(old(expenses.rows), accounts, groups, id)
                                  && old(expenses.rows)[id].payer == caller && !TotalRejected(total)
                                  && (WrittenTotal(total).None? || !date.OnDate?)
    ensures o == Ok <==> ExpenseFound(old(expenses.rows), accounts, groups, id)
                         && old(expenses.rows)[id].payer == caller && !TotalRejected(total)
                         && WrittenTotal(total).Some? && date.OnDate?
    ensures o != Ok ==> expenses.rows == old(expenses.rows)
    ensures o == Ok ==> expenses.rows == old(expenses.rows)[id := old(expenses.rows)[id].(
                          total := WrittenTotal(total).value, description := TextOrNull(description),
                          date := date.date)]
    ensures o == Ok ==> expenses.rows[id].total > 0.0
  {
    var e := expenses.GetById(id, accounts, groups);
    if e.None? {
      return NotFound;
    }
    if e.value.payer != caller {
      return Forbidden;
    }
    if TotalRejected(total) {
      return BadRequest;
    }
    var ok := expenses.Update(id, WrittenTotal(total), description, date);
    if !ok {
      return ServerError;
    }
    return Ok;
  }

  /** What getGroupExpenses answers: the group's expenses and, for each,
      its shares. */
  datatype ExpensesAnswer = ExpensesAnswer(outcome: Outcome, expenses: seq<Id>, shares: seq<seq<Id>>)

  /** `getGroupExpenses`: a caller without a member row in the group (under
      getMember's JOINs) is refused unless getById finds a group they own.
      When there is no row and no group, reading `group.owner_id` throws and
      the answer is 500. A member row is enough even when getById finds no
      group. */
  function GroupExpenses(expenses: ExpenseTable, shares: ShareTable, members: MemberTable,
                         groups: ExpenseGroupModel.GroupTable, accounts: map<Id, Account>, caller: UserId, groupId: Id)
    : (r: ExpensesAnswer)
    requires expenses.Valid() && shares.Valid() && members.Valid()
    reads expenses, shares, members, groups
    ensures var member, group := members.GetMember(groupId, caller, accounts, groups.rows.Keys),
                                 groups.GetById(groupId, accounts);
      && (r.outcome == ServerError <==> member.None? && group.None?)
      && (r.outcome == Forbidden <==> member.None? && group.Some? && group.value.owner != caller)
      && (r.outcome == Ok <==> member.Some? || (group.Some? && group.value.owner == caller))
    ensures r.outcome == Ok ==> && r.expenses == expenses.ByGroup(groupId, accounts)
                                && |r.shares| == |r.expenses|
                                && forall i :: 0 <= i < |r.expenses| ==>
                                     r.shares[i] == ExpenseShares(shares.rows, shares.next, r.expenses[i], accounts)
    ensures r.outcome != Ok ==> r.expenses == [] && r.shares == []
  {
    var member := members.GetMember(groupId, caller, accounts, groups.rows.Keys);
    var group := groups.GetById(groupId, accounts);
    if member.None? && group.None? then ExpensesAnswer(ServerError, [], [])
    else if member.None? && group.value.owner != caller then ExpensesAnswer(Forbidden, [], [])
    else
      var listed := expenses.ByGroup(groupId, accounts);
      ExpensesAnswer(Ok, listed, SharesOfEach(shares, listed, accounts))
  }

  /** getExpenseShares of each listed expense, in the listing's order. */
  function SharesOfEach(shares: ShareTable, listed: seq<Id>, accounts: map<Id, Account>): (r: seq<seq<Id>>)
    requires shares.Valid()
    reads shares
    ensures |r| == |listed|
    ensures forall i :: 0 <= i < |listed| ==> r[i] == ExpenseShares(shares.rows, shares.next, listed[i], accounts)
  {
    var rows, n := shares.rows, shares.next;
    seq(|listed|, i requires 0 <= i < |listed| => ExpenseShares(rows, n, listed[i], accounts))
  }

  /** `deleteExpense`: the expense must be found (404) and be the caller's
      (403); then all its shares go, then the expense. */
  method DeleteExpense(expenses: ExpenseTable, shares: ShareTable, accounts: map<Id, Account>, groups: set<Id>,
                       caller: UserId, id: int)
    returns (o: Outcome)
    requires expenses.Valid() && shares.Valid()
    modifies expenses, shares
    ensures expenses.Valid() && shares.Valid()
    ensures expenses.next == old(expenses.next) && shares.next == old(shares.next)
    ensures o == NotFound <==> !ExpenseFound(old(expenses.rows), accounts, groups, id)
    ensures o == Forbidden <==> ExpenseFound(old(expenses.rows), accounts, groups, id)
                                && old(expenses.rows)[id].payer != caller
    ensures o == Ok <==> ExpenseFound(old(expenses.rows), accounts, groups, id) && old(expenses.rows)[id].payer == caller
    ensures o != Ok ==> expenses.rows == old(expenses.rows) && shares.rows == old(shares.rows)
    ensures o == Ok ==> expenses.rows == old(expenses.rows) - {id as nat}
    ensures o == Ok ==> shares.rows == Without(old(shares.rows), id)
    ensures SharesReferenceExpenses(old(shares.rows), old(expenses.rows)) ==>
      SharesReferenceExpenses(shares.rows, expenses.rows)
  {
    var e := expenses.GetById(id, accounts, groups);
    if e.None? {
      return NotFound;
    }
    if e.value.payer != caller {
      return Forbidden;
    }
    shares.RemoveAllShares(id);
    expenses.Delete(id);
    return Ok;
  }

  /** `updateExpenseShares`: the expense must be found (404) and be the
      caller's (403); the list must be non-empty (400) and its checked sum
      within 0.01 of the stored total (400). Then the old shares are
      removed and the new ones inserted; a value without account or
      numeric amount fails that insert (500), after the removal. */
  method UpdateExpenseShares(expenses: ExpenseTable, shares: ShareTable, accounts: map<Id, Account>, groups: set<Id>,
                             caller: UserId, id: int,
                             input: Option<seq<ShareInput>>)
    returns (o: Outcome)
    requires expenses.Valid() && shares.Valid()
    modifies shares
    ensures shares.Valid()
    ensures o == NotFound <==> !ExpenseFound(expenses.rows, accounts, groups, id)
    ensures o == Forbidden <==> ExpenseFound(expenses.rows, accounts, groups, id) && expenses.rows[id].payer != caller
    ensures o == BadRequest <==> ExpenseFound(expenses.rows, accounts, groups, id) && expenses.rows[id].payer == caller
                                 && (!Explicit(input) || Mismatch(SharesTotal(input.value), expenses.rows[id].total))
    ensures o == ServerError <==> ExpenseFound(expenses.rows, accounts, groups, id) && expenses.rows[id].payer == caller
                                  && Explicit(input) && !Mismatch(SharesTotal(input.value), expenses.rows[id].total)
                                  && !AllStorable(ExplicitValues(id, input.value))
    ensures o == NotFound || o == Forbidden || o == BadRequest ==>
      shares.rows == old(shares.rows) && shares.next == old(shares.next)
    ensures o == ServerError ==> shares.rows == Without(old(shares.rows), id) && shares.next == old(shares.next)
    ensures o == Ok ==> shares.rows == Append(Without(old(shares.rows), id), old(shares.next), Rows(ExplicitValues(id, input.value)))
                        && shares.next == old(shares.next) + |input.value|
    ensures o == Ok ==> SharesOf(shares.rows, shares.next, id) == Rows(ExplicitValues(id, input.value))
    ensures SharesReferenceExpenses(old(shares.rows), expenses.rows) ==>
      SharesReferenceExpenses(shares.rows, expenses.rows)
  {
    var e := expenses.GetById(id, accounts, groups);
    if e.None? {
      return NotFound;
    }
    if e.value.payer != caller {
      return Forbidden;
    }
    if !Explicit(input) {
      return BadRequest;
    }
    if Mismatch(SharesTotal(input.value), e.value.total) {
      return BadRequest;
    }
    shares.RemoveAllShares(id);
    ghost var kept := shares.rows;
    var values := ExplicitValues(id, input.value);
    var ok := shares.AddShares(values);
    if !ok {
      return ServerError;
    }
    AppendedShares(kept, old(shares.next), Rows(values), id, shares.rows, shares.next);
    return Ok;
  }
}
