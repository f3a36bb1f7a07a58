/** The `expense_group` table and the two aggregate queries over its members:
    the groups a user belongs to (with the user's role) and a group's
    payment statistics. */
module ExpenseGroupModel {
  import opened Common
  import opened Tables
  import opened Text
  import opened ExpenseGroupMemberModel
  import opened AccountModel

  /** group_name is whatever the request carried (NULL when it was absent). */
  datatype Group = Group(name: Option<string>, owner: UserId, deadline: Option<Date>)

  datatype Role = Owner | Participant

  /** One row of `getByUserId`: the group and `user_role`. */
  datatype Listing = Listing(id: Id, role: Role)

  /** The user holds a row of the group in the member table. */
  predicate HasMemberRow(members: map<Id, Member>, group: Id, user: UserId) {
    exists m :: m in members && members[m].group == group && members[m].account == user
  }

  /** The inner JOIN of getById and getByUserId on the owner's account: a
      group whose owner has no account row is never returned. */
  predicate OwnerExists(g: Group, accounts: map<Id, Account>) {
    g.owner >= 0 && g.owner in accounts
  }

  /** The WHERE clause of `getByUserId`: owner, or a member row (of any status). */
  predicate Visible(members: map<Id, Member>, id: Id, g: Group, user: UserId) {
    g.owner == user || HasMemberRow(members, id, user)
  }

  /** The result row of `getGroupStats`. COUNT(DISTINCT ..) is a number; each
      SUM is NULL for a group without member rows. */
  datatype Stats = Stats(
    totalMembers: nat,
    paidMembers: Option<real>,
    unpaidMembers: Option<real>,
    totalAmount: Option<real>,
    paidAmount: Option<real>,
    unpaidAmount: Option<real>)

  /** `SUM(CASE WHEN payment_status = p THEN 1 ELSE 0 END)` over the group's rows. */
  function CountWhen(group: int, p: PaymentStatus): (nat, Member) -> Option<real> {
    (k: nat, m: Member) => if m.group != group then None
                           else if m.payment == p then Some(1.0) else Some(0.0)
  }

  /** `SUM(CASE WHEN payment_status = p THEN amount ELSE 0 END)` over the group's rows. */
  function AmountWhen(group: int, p: PaymentStatus): (nat, Member) -> Option<real> {
    (k: nat, m: Member) => if m.group != group then None
                           else if m.payment == p then m.amount else Some(0.0)
  }

  /** `SUM(amount)` over the group's rows. */
  function AmountOf(group: int): (nat, Member) -> Option<real> {
    (k: nat, m: Member) => if m.group != group then None else m.amount
  }

  /** The accounts of the group's member rows, in id order (with repeats). */
  function GroupAccounts(rows: map<Id, Member>, n: nat, group: int): (r: seq<int>)
    ensures forall a :: a in r <==> exists k :: k < n && k in rows && rows[k].group == group && rows[k].account == a
    ensures |r| == |Ids(rows, n, (k: nat, m: Member) => m.group == group)|
  {
    var ids := Ids(rows, n, (k: nat, m: Member) => m.group == group);
    Column(rows, ids, (k: nat, m: Member) => m.account)
  }

  /** `getGroupStats` over the member rows with id below n. */
  function GroupStats(rows: map<Id, Member>, n: nat, group: int): (s: Stats)
    ensures forall a :: (exists k :: k < n && k in rows && rows[k].group == group && rows[k].account == a)
                        <==> a in Dedup(GroupAccounts(rows, n, group))
    ensures s.totalMembers == |Dedup(GroupAccounts(rows, n, group))|
  {
    Stats(|Dedup(GroupAccounts(rows, n, group))|,
          Sum(rows, n, CountWhen(group, Paid)),
          Sum(rows, n, CountWhen(group, Unpaid)),
          Sum(rows, n, AmountOf(group)),
          Sum(rows, n, AmountWhen(group, Paid)),
          Sum(rows, n, AmountWhen(group, Unpaid)))
  }

  /** Every row is paid or unpaid, so the paid and unpaid amounts add up to
      the total (NULL read as 0). */
  lemma StatsAmountsAddUp(rows: map<Id, Member>, n: nat, group: int)
    ensures var s := GroupStats(rows, n, group);
      OrZero(s.paidAmount) + OrZero(s.unpaidAmount) == OrZero(s.totalAmount)
  {
    SumSplit(rows, n, AmountOf(group), AmountWhen(group, Paid), AmountWhen(group, Unpaid));
  }

  /** The paid and unpaid member counts partition the group's rows, and with
      the (group, account) key each row is a distinct account, so they add
      up to total_members. */
  lemma StatsCountsAddUp(rows: map<Id, Member>, n: nat, group: int)
    requires KeyUnique(rows)
    ensures var s := GroupStats(rows, n, group);
      var groupRows := Ids(rows, n, (k: nat, m: Member) => m.group == group);
      && OrZero(s.paidMembers) == |Ids(rows, n, (k: nat, m: Member) => m.group == group && m.payment == Paid)| as real
      && OrZero(s.unpaidMembers) == |Ids(rows, n, (k: nat, m: Member) => m.group == group && m.payment == Unpaid)| as real
      && OrZero(s.paidMembers) + OrZero(s.unpaidMembers) == |groupRows| as real
      && s.totalMembers == |groupRows|
  {
    var inGroup := (k: nat, m: Member) => m.group == group;
    SumCount(rows, n, (k: nat, m: Member) => m.group == group && m.payment == Paid, CountWhen(group, Paid));
    SumCount(rows, n, (k: nat, m: Member) => m.group == group && m.payment == Unpaid, CountWhen(group, Unpaid));
    var both := (k: nat, m: Member) => if m.group != group then None else Some(1.0);
    SumSplit(rows, n, both, CountWhen(group, Paid), CountWhen(group, Unpaid));
    SumCount(rows, n, inGroup, both);
    GroupAccountsDistinct(rows, n, group);
    DedupNoDuplicates(GroupAccounts(rows, n, group));
  }

  /** Under the (group, account) key no account appears twice in a group. */
  lemma GroupAccountsDistinct(rows: map<Id, Member>, n: nat, group: int)
    requires KeyUnique(rows)
    ensures NoDuplicates(GroupAccounts(rows, n, group))
  {
    var ids := Ids(rows, n, (k: nat, m: Member) => m.group == group);
    var r := GroupAccounts(rows, n, group);
    forall i, j | 0 <= i < j < |r| ensures r[i] != r[j] {
      assert ids[i] in ids && ids[j] in ids && ids[i] != ids[j];
    }
  }

  class GroupTable {
    var rows: map<Id, Group>
    var next: nat

    ghost predicate Valid()
      reads this
    {
      forall id :: id in rows ==> id < next
    }

    constructor ()
      ensures Valid() && rows == map[] && next == 1
    {
      rows := map[];
      next := 1;
    }

    /** `create`: inserts the group (an absent deadline as NULL), returns its id. */
    method Create(name: Option<string>, owner: UserId, deadline: DateInput) returns (id: Id)
      requires Valid()
      modifies this
      ensures Valid()
      ensures id == old(next) && id !in old(rows) && next == old(next) + 1
      ensures rows == old(rows)[id := Group(name, owner, DateOrNull(deadline))]
    {
      id := next;
      rows := rows[id := Group(name, owner, DateOrNull(deadline))];
      next := next + 1;
    }

    /** `getById`: the group when it exists and its owner has an account,
        or null. */
    function GetById(id: Id, accounts: map<Id, Account>): (r: Option<Group>)
      reads this
      ensures r.Some? <==> id in rows && OwnerExists(rows[id], accounts)
      ensures r.Some? ==> r.value == rows[id]
    {
      if id in rows && OwnerExists(rows[id], accounts) then Some(rows[id]) else None
    }

    /** `update`: overwrites name and deadline (an absent deadline as NULL);
        the owner stays. */
    method Update(id: Id, name: Option<string>, deadline: DateInput)
      requires Valid()
      modifies this
      ensures Valid() && next == old(next)
      ensures rows == if id in old(rows)
                      then old(rows)[id := old(rows)[id].(name := name, deadline := DateOrNull(deadline))]
                      else old(rows)
    {
      if id in rows {
        rows := rows[id := rows[id].(name := name, deadline := DateOrNull(deadline))];
      }
    }

    /** `getByUserId`: each group the user owns or holds a member row in and
        whose owner has an account, once, newest first, with role owner
        exactly when the user owns it. */
    function ByUser(members: map<Id, Member>, accounts: map<Id, Account>, user: UserId): (r: seq<Listing>)
      requires Valid()
      reads this
      ensures forall k :: (exists i :: 0 <= i < |r| && r[i].id == k) <==>
                            k in rows && Visible(members, k, rows[k], user) && OwnerExists(rows[k], accounts)
      ensures forall i :: 0 <= i < |r| ==>
        r[i].id in rows && (r[i].role == Owner <==> rows[r[i].id].owner == user)
      ensures forall i, j :: 0 <= i < j < |r| ==> r[i].id > r[j].id
    {
      var ids := IdsDesc(rows, next, (k: nat, g: Group) => Visible(members, k, g, user) && OwnerExists(g, accounts));
      assert forall i :: 0 <= i < |ids| ==> ids[i] in ids;
      Column(rows, ids, (k: nat, g: Group) => Listing(k, if g.owner == user then Owner else Participant))
    }
  }
}
