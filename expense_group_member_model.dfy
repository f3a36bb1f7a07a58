/** The `expense_group_member` table: one row per (group, account), with the
    invitation, payment and owner-review statuses of that member. */
module ExpenseGroupMemberModel {
  import opened Common
  import opened Tables
  import opened AccountModel

  datatype JoinStatus = Pending | Accepted | Rejected
  datatype PaymentStatus = Unpaid | Paid
  datatype OwnerConfirm = OwnerUnconfirmed | OwnerConfirmed | OwnerRejected

  /** amount is NULL after an update that omitted it. */
  datatype Member = Member(
    group: int,
    account: int,
    amount: Option<Money>,
    deadline: Option<Date>,
    join: JoinStatus,
    payment: PaymentStatus,
    ownerConfirm: OwnerConfirm,
    proof: Option<string>)

  /** One entry of a bulk insert. */
  datatype NewMember = NewMember(group: int, account: int, amount: Option<Money>, deadline: Option<Date>)

  /** `amount || 0`. */
  function AmountOrZero(amount: Option<Money>): (r: Money)
    ensures amount.None? ==> r == 0.0
    ensures amount.Some? ==> r == amount.value
  {
    if amount.Some? then amount.value else 0.0
  }

  /** A freshly inserted row: the statuses take the column defaults
      (pending, unpaid, unconfirmed), the amount defaults to 0. */
  function Fresh(e: NewMember): (m: Member)
    ensures m.group == e.group && m.account == e.account && m.deadline == e.deadline
    ensures m.amount == Some(AmountOrZero(e.amount)) && m.proof == None
    ensures m.join == Pending && m.payment == Unpaid && m.ownerConfirm == OwnerUnconfirmed
  {
    Member(e.group, e.account, Some(AmountOrZero(e.amount)), e.deadline,
           Pending, Unpaid, OwnerUnconfirmed, None)
  }

  predicate HasKey(m: Member, group: int, account: int) {
    m.group == group && m.account == account
  }

  /** The inner JOIN on the account table that every member listing makes:
      a row whose account has no account row is never listed. */
  predicate HasAccount(m: Member, accounts: map<Id, Account>) {
    m.account >= 0 && m.account in accounts
  }

  /** The two inner JOINs of getMember, on the account and on the group. */
  predicate MemberJoined(m: Member, accounts: map<Id, Account>, groups: set<Id>) {
    HasAccount(m, accounts) && m.group >= 0 && m.group in groups
  }

  /** The unique key (group_id, account_id). */
  predicate KeyUnique(rows: map<Id, Member>) {
    forall i, j :: i in rows && j in rows && i != j ==>
      rows[i].group != rows[j].group || rows[i].account != rows[j].account
  }

  predicate Bounded(rows: map<Id, Member>, n: nat) {
    forall id :: id in rows ==> id < n
  }

  /** A bulk insert that violates no key: no entry's key is taken, and no
      two entries share one. */
  predicate Insertable(rows: map<Id, Member>, entries: seq<NewMember>) {
    && (forall i, k :: 0 <= i < |entries| && k in rows ==>
          !HasKey(rows[k], entries[i].group, entries[i].account))
    && (forall i, j :: 0 <= i < j < |entries| ==>
          entries[i].group != entries[j].group || entries[i].account != entries[j].account)
  }

  /** A one-row insert is refused exactly when a row already holds its key. */
  lemma InsertableOne(rows: map<Id, Member>, e: NewMember)
    ensures Insertable(rows, [e]) <==> forall k :: k in rows ==> !HasKey(rows[k], e.group, e.account)
  {
    if forall k :: k in rows ==> !HasKey(rows[k], e.group, e.account) {
      assert forall i, k :: 0 <= i < 1 && k in rows ==> [e][i] == e;
    } else {
      var k :| k in rows && HasKey(rows[k], e.group, e.account);
      assert [e][0] == e;
    }
  }

  /** The rows of a multi-row INSERT, given ids n, n+1, ... in order. */
  function InsertAll(rows: map<Id, Member>, n: nat, entries: seq<NewMember>): (r: map<Id, Member>)
    requires Bounded(rows, n)
    ensures Bounded(r, n + |entries|)
    ensures forall k :: k in rows ==> k in r && r[k] == rows[k]
    ensures forall k :: n <= k < n + |entries| ==> k in r && r[k] == Fresh(entries[k - n])
    ensures forall k :: k in r ==> k in rows || n <= k < n + |entries|
    ensures InsertedFrom(rows, n, entries, r)
    decreases |entries|
  {
    if entries == [] then rows
    else
      var init := entries[..|entries| - 1];
      var prev := InsertAll(rows, n, init);
      prev[n + |init| := Fresh(entries[|entries| - 1])]
  }

  /** r holds the old rows unchanged plus one fresh row per entry at ids
      n, n+1, ..., and nothing else. */
  predicate InsertedFrom(rows: map<Id, Member>, n: nat, entries: seq<NewMember>, r: map<Id, Member>) {
    && (forall k :: k in rows ==> k in r && r[k] == rows[k])
    && (forall k :: n <= k < n + |entries| ==> k in r && r[k] == Fresh(entries[k - n]))
    && (forall k :: k in r ==> k in rows || n <= k < n + |entries|)
  }

  /** That description fixes the table. */
  lemma InsertedFromUnique(rows: map<Id, Member>, n: nat, entries: seq<NewMember>, r1: map<Id, Member>, r2: map<Id, Member>)
    requires Bounded(rows, n) && InsertedFrom(rows, n, entries, r1) && InsertedFrom(rows, n, entries, r2)
    ensures r1 == r2
  {
    assert r1.Keys == r2.Keys;
  }

  /** Inserting a ++ b is inserting a, then b after it. */
  lemma InsertAllAppend(rows: map<Id, Member>, n: nat, a: seq<NewMember>, b: seq<NewMember>)
    requires Bounded(rows, n)
    ensures InsertAll(rows, n, a + b) == InsertAll(InsertAll(rows, n, a), n + |a|, b)
  {
    var first := InsertAll(rows, n, a);
    var both := InsertAll(first, n + |a|, b);
    AppendInserted(rows, n, a, b, first, both);
    InsertedFromUnique(rows, n, a + b, InsertAll(rows, n, a + b), both);
  }

  lemma AppendInserted(rows: map<Id, Member>, n: nat, a: seq<NewMember>, b: seq<NewMember>,
                       first: map<Id, Member>, both: map<Id, Member>)
    requires Bounded(rows, n)
    requires InsertedFrom(rows, n, a, first) && InsertedFrom(first, n + |a|, b, both)
    ensures InsertedFrom(rows, n, a + b, both)
  {
    forall k | n <= k < n + |a + b| ensures k in both && both[k] == Fresh((a + b)[k - n]) {
      if k >= n + |a| {
        assert (a + b)[k - n] == b[k - (n + |a|)];
      } else {
        assert (a + b)[k - n] == a[k - n];
      }
    }
  }

  /** An insert that starts with e respects the key exactly when e does and
      the rest does once e is in. */
  lemma InsertableCons(rows: map<Id, Member>, n: nat, e: NewMember, es: seq<NewMember>)
    requires Bounded(rows, n)
    ensures Insertable(rows, [e] + es) <==> Insertable(rows, [e]) && Insertable(rows[n := Fresh(e)], es)
  {
    var all := [e] + es;
    var w := rows[n := Fresh(e)];
    assert all[0] == e;
    assert forall i :: 0 <= i < |es| ==> all[i + 1] == es[i];
    if Insertable(rows, all) {
      assert forall i, k :: 0 <= i < 1 && k in rows ==> !HasKey(rows[k], [e][i].group, [e][i].account) by {
        forall i, k | 0 <= i < 1 && k in rows ensures !HasKey(rows[k], [e][i].group, [e][i].account) {
          assert [e][i] == all[0];
        }
      }
      forall i, k | 0 <= i < |es| && k in w ensures !HasKey(w[k], es[i].group, es[i].account) {
        if k == n {
          assert all[0].group != all[i + 1].group || all[0].account != all[i + 1].account;
        } else {
          assert !HasKey(rows[k], all[i + 1].group, all[i + 1].account);
        }
      }
      forall i, j | 0 <= i < j < |es| ensures es[i].group != es[j].group || es[i].account != es[j].account {
        assert all[i + 1].group != all[j + 1].group || all[i + 1].account != all[j + 1].account;
      }
    }
    if Insertable(rows, [e]) && Insertable(w, es) {
      InsertableOne(rows, e);
      forall i, k | 0 <= i < |all| && k in rows ensures !HasKey(rows[k], all[i].group, all[i].account) {
        if i > 0 {
          assert w[k] == rows[k];
          assert !HasKey(w[k], es[i - 1].group, es[i - 1].account);
        }
      }
      forall i, j | 0 <= i < j < |all| ensures all[i].group != all[j].group || all[i].account != all[j].account {
        if i == 0 {
          assert n in w && w[n] == Fresh(e);
          assert !HasKey(w[n], es[j - 1].group, es[j - 1].account);
        } else {
          assert all[i] == es[i - 1] && all[j] == es[j - 1];
        }
      }
    }
  }

  /** A key-respecting bulk insert keeps the key unique. */
  lemma InsertAllUnique(rows: map<Id, Member>, n: nat, entries: seq<NewMember>)
    requires Bounded(rows, n) && KeyUnique(rows) && Insertable(rows, entries)
    ensures KeyUnique(InsertAll(rows, n, entries))
  {
    ExtensionUnique(rows, n, entries, InsertAll(rows, n, entries));
  }

  /** The same, for any table that holds the old rows plus one fresh row per
      entry at ids n, n+1, ... */
  lemma ExtensionUnique(rows: map<Id, Member>, n: nat, entries: seq<NewMember>, r: map<Id, Member>)
    requires Bounded(rows, n) && KeyUnique(rows) && Insertable(rows, entries)
    requires InsertedFrom(rows, n, entries, r)
    ensures KeyUnique(r)
  {
    forall i, j | i in r && j in r && i < j
      ensures r[i].group != r[j].group || r[i].account != r[j].account
    {
      if j !in rows {
        var ej := entries[j - n];
        assert r[j] == Fresh(ej);
        if i !in rows {
          assert r[i] == Fresh(entries[i - n]);
          assert entries[i - n].group != ej.group || entries[i - n].account != ej.account;
        } else {
          assert !HasKey(rows[i], ej.group, ej.account);
        }
      }
    }
  }

  /** The columns updateMemberStatus writes: only the ones supplied. */
  function WithStatus(m: Member, join: Option<JoinStatus>, payment: Option<PaymentStatus>,
                      ownerConfirm: Option<OwnerConfirm>): (r: Member)
    ensures r.join == join.GetOr(m.join) && r.payment == payment.GetOr(m.payment)
    ensures r.ownerConfirm == ownerConfirm.GetOr(m.ownerConfirm)
    ensures r.group == m.group && r.account == m.account && r.amount == m.amount
    ensures r.deadline == m.deadline && r.proof == m.proof
  {
    m.(join := join.GetOr(m.join), payment := payment.GetOr(m.payment),
       ownerConfirm := ownerConfirm.GetOr(m.ownerConfirm))
  }

  class MemberTable {
    var rows: map<Id, Member>
    var next: nat

    ghost predicate Valid()
      reads this
    {
      Bounded(rows, next) && KeyUnique(rows)
    }

    constructor ()
      ensures Valid() && rows == map[] && next == 1
    {
      rows := map[];
      next := 1;
    }

    /** The (group, account) row, found by its key alone: the row the
        UPDATE and DELETE statements with `WHERE group_id = ? AND account_id
        = ?` reach. */
    function Find(group: int, account: int): (r: Option<Id>)
      requires Valid()
      reads this
      ensures r.Some? ==> r.value in rows && HasKey(rows[r.value], group, account)
      ensures r.None? <==> forall k :: k in rows ==> !HasKey(rows[k], group, account)
    {
      First(rows, next, (k: nat, m: Member) => HasKey(m, group, account))
    }

    /** `getMember`: the (group, account) row when its account and its group
        exist (groups holds the ids of the group table), or null. */
    function GetMember(group: int, account: int, accounts: map<Id, Account>, groups: set<Id>): (r: Option<Id>)
      requires Valid()
      reads this
      ensures r.Some? ==> r == Find(group, account) && MemberJoined(rows[r.value], accounts, groups)
      ensures r.None? <==> Find(group, account).None? || !MemberJoined(rows[Find(group, account).value], accounts, groups)
    {
      var k := Find(group, account);
      if k.Some? && MemberJoined(rows[k.value], accounts, groups) then k else None
    }

    /** `addMember`: one insert with amount `|| 0`; a row already holding
        the key makes the insert fail (ok false) and nothing changes. */
    method AddMember(group: int, account: int, amount: Option<Money>, deadline: Option<Date>)
      returns (ok: bool)
      requires Valid()
      modifies this
      ensures Valid()
      ensures ok <==> old(Find(group, account)).None?
      ensures !ok ==> rows == old(rows) && next == old(next)
      ensures ok ==> next == old(next) + 1 &&
                     rows == old(rows)[old(next) := Fresh(NewMember(group, account, amount, deadline))]
    {
      var found := Find(group, account);
      if found.Some? {
        return false;
      }
      InsertAllUnique(rows, next, [NewMember(group, account, amount, deadline)]);
      rows := rows[next := Fresh(NewMember(group, account, amount, deadline))];
      next := next + 1;
      return true;
    }

    /** `bulkAddMembers`: nothing for an empty list; otherwise one INSERT of
        all entries, which either adds every row or, on a key violation,
        none (ok false). */
    method BulkAddMembers(entries: seq<NewMember>) returns (ok: bool)
      requires Valid()
      modifies this
      ensures Valid()
      ensures ok <==> Insertable(old(rows), entries)
      ensures !ok ==> rows == old(rows) && next == old(next)
      ensures ok ==> rows == InsertAll(old(rows), old(next), entries) && next == old(next) + |entries|
      ensures entries == [] ==> ok && rows == old(rows) && next == old(next)
    {
      if entries == [] {
        return true;
      }
      if !Insertable(rows, entries) {
        return false;
      }
      InsertAllUnique(rows, next, entries);
      rows := InsertAll(rows, next, entries);
      next := next + |entries|;
      return true;
    }

    /** `updateMemberStatus`: writes only the supplied status columns of the
        (group, account) row; with none supplied it does nothing. */
    method UpdateMemberStatus(group: int, account: int, join: Option<JoinStatus>,
                              payment: Option<PaymentStatus>, ownerConfirm: Option<OwnerConfirm>)
      requires Valid()
      modifies this
      ensures Valid() && next == old(next)
      ensures join.None? && payment.None? && ownerConfirm.None? ==> rows == old(rows)
      ensures rows == match old(Find(group, account))
                      case None => old(rows)
                      case Some(k) => old(rows)[k := WithStatus(old(rows)[k], join, payment, ownerConfirm)]
    {
      if join.None? && payment.None? && ownerConfirm.None? {
        assert forall k :: k in rows ==> WithStatus(rows[k], join, payment, ownerConfirm) == rows[k];
        return;
      }
      var found := Find(group, account);
      if found.Some? {
        rows := rows[found.value := WithStatus(rows[found.value], join, payment, ownerConfirm)];
      }
    }

    /** `updateMemberDetails`: always writes amount, deadline and proof
        together; an omitted deadline or proof becomes NULL. */
    method UpdateMemberDetails(group: int, account: int, amount: Option<Money>,
                               deadline: Option<Date>, proof: Option<string>)
      requires Valid()
      modifies this
      ensures Valid() && next == old(next)
      ensures rows == match old(Find(group, account))
                      case None => old(rows)
                      case Some(k) => old(rows)[k := old(rows)[k].(amount := amount, deadline := deadline,
                                                                   proof := TextOrNull(proof))]
    {
      var found := Find(group, account);
      if found.Some? {
        rows := rows[found.value := rows[found.value].(amount := amount, deadline := deadline,
                                                       proof := TextOrNull(proof))];
      }
    }

    /** `removeMember`: deletes the (group, account) row and no other. */
    method RemoveMember(group: int, account: int)
      requires Valid()
      modifies this
      ensures Valid() && next == old(next)
      ensures forall k :: k in rows <==> k in old(rows) && !HasKey(old(rows)[k], group, account)
      ensures forall k :: k in rows ==> rows[k] == old(rows)[k]
    {
      var found := Find(group, account);
      if found.Some? {
        rows := rows - {found.value};
      }
    }

    /** `getPendingRequests`: exactly the group's rows awaiting an answer
        whose account exists. */
    function PendingRequests(group: int, accounts: map<Id, Account>): (r: seq<Id>)
      requires Valid()
      reads this
      ensures forall k :: k in r <==> k in rows && rows[k].group == group && rows[k].join == Pending
                                      && HasAccount(rows[k], accounts)
    {
      Ids(rows, next, (k: nat, m: Member) => m.group == group && m.join == Pending && HasAccount(m, accounts))
    }

    /** `getUnpaidMembers`: exactly the group's rows that are unpaid and
        accepted and whose account exists. */
    function UnpaidMembers(group: int, accounts: map<Id, Account>): (r: seq<Id>)
      requires Valid()
      reads this
      ensures forall k :: k in r <==> k in rows && rows[k].group == group
                                      && rows[k].payment == Unpaid && rows[k].join == Accepted
                                      && HasAccount(rows[k], accounts)
    {
      Ids(rows, next, (k: nat, m: Member) => m.group == group && m.payment == Unpaid && m.join == Accepted
                                             && HasAccount(m, accounts))
    }

    /** `getGroupMembers`: the group's rows whose account exists, in
        insertion order. */
    function GroupMembers(group: int, accounts: map<Id, Account>): (r: seq<Id>)
      requires Valid()
      reads this
      ensures forall k :: k in r <==> k in rows && rows[k].group == group && HasAccount(rows[k], accounts)
      ensures Ascending(r)
    {
      Ids(rows, next, (k: nat, m: Member) => m.group == group && HasAccount(m, accounts))
    }
  }
}
