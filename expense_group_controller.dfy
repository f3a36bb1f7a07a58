/** The group handlers: each checks its inputs, the caller's role and the
    member row's state, answers with an HTTP outcome, and only then writes to
    the group or member table. Push notifications are left out; what the
    invitation loop of createGroup reads is modelled by InviteNotifications. */
module ExpenseGroupController {
  import opened Common
  import opened Tables
  import opened ExpenseGroupMemberModel
  import opened ExpenseGroupModel
  import opened AccountModel
  import opened Js
  import FcmTokenModel

  // ------------------------------------------------------------ invariants

  /** The owner has reviewed only payments that were reported: a row whose
      owner_confirm_status is confirmed or rejected is paid. */
  predicate ReviewedArePaid(rows: map<Id, Member>) {
    forall k :: k in rows && rows[k].ownerConfirm != OwnerUnconfirmed ==> rows[k].payment == Paid
  }

  /** How a handler may change one member row: the key stays, an answered
      invitation stays answered, a paid row stays paid, and the review
      changes only on a paid row. */
  predicate MemberEvolves(a: Member, b: Member) {
    && b.group == a.group && b.account == a.account
    && (a.join != Pending ==> b.join == a.join)
    && (a.payment == Paid ==> b.payment == Paid)
    && (b.ownerConfirm != a.ownerConfirm ==> b.payment == Paid)
  }

  /** The account owns the group the row belongs to. */
  predicate IsOwnerRow(groups: map<Id, Group>, m: Member) {
    m.group >= 0 && m.group in groups && groups[m.group].owner == m.account
  }

  /** Across one handler call: surviving rows evolve, new rows arrive fresh,
      the consistency invariant is kept, and no owner's row disappears. */
  predicate MembersEvolve(groups: map<Id, Group>, before: map<Id, Member>, after: map<Id, Member>) {
    && (forall k :: k in before && k in after ==> MemberEvolves(before[k], after[k]))
    && (forall k :: k in after && k !in before ==>
          after[k].join == Pending && after[k].payment == Unpaid && after[k].ownerConfirm == OwnerUnconfirmed)
    && (forall k :: k in before && IsOwnerRow(groups, before[k]) ==> k in after)
    && (ReviewedArePaid(before) ==> ReviewedArePaid(after))
  }

  /** Only inserts happened: every old row is still there unchanged and every
      new row has the column defaults. */
  predicate Extends(before: map<Id, Member>, after: map<Id, Member>) {
    && (forall k :: k in before ==> k in after && after[k] == before[k])
    && (forall k :: k in after && k !in before ==>
          after[k].join == Pending && after[k].payment == Unpaid && after[k].ownerConfirm == OwnerUnconfirmed)
  }

  lemma ExtendsEvolves(groups: map<Id, Group>, before: map<Id, Member>, after: map<Id, Member>)
    requires Extends(before, after)
    ensures MembersEvolve(groups, before, after)
  {
  }

  /** Changing one row in an allowed way is an allowed evolution of the table. */
  lemma OneRowEvolves(groups: map<Id, Group>, rows: map<Id, Member>, k: Id, b: Member)
    requires k in rows && MemberEvolves(rows[k], b)
    ensures MembersEvolve(groups, rows, rows[k := b])
  {
  }

  /** The entry insert of createGroup gives for the owner: amount 0 and the
      group's deadline. */
  function OwnerEntry(group: Id, owner: UserId, deadline: DateInput): NewMember {
    NewMember(group, owner, Some(0.0), DateOrNull(deadline))
  }

  /** Each invited id as the INT column reads it from the text of the bulk
      INSERT, or None when one of them is not a whole number written as
      such (the statement is then refused). */
  function InvitedIds(ids: seq<Value>): (r: Option<seq<int>>)
    ensures r.Some? <==> forall i :: 0 <= i < |ids| ==> IdValue(ids[i]).Some?
    ensures r.Some? ==> |r.value| == |ids| && forall i :: 0 <= i < |ids| ==> r.value[i] == IdValue(ids[i]).value
    decreases |ids|
  {
    if ids == [] then Some([])
    else
      var rest := InvitedIds(ids[1..]);
      assert forall i :: 1 <= i < |ids| ==> ids[1..][i - 1] == ids[i];
      if IdValue(ids[0]).Some? && rest.Some? then Some([IdValue(ids[0]).value] + rest.value) else None
  }

  /** The entries createGroup bulk-inserts, one per invited id, in order. */
  function InvitedEntries(group: Id, ids: seq<int>, deadline: DateInput): (r: seq<NewMember>)
    ensures |r| == |ids|
    ensures forall i :: 0 <= i < |ids| ==> r[i] == NewMember(group, ids[i], Some(0.0), DateOrNull(deadline))
  {
    seq(|ids|, i requires 0 <= i < |ids| => NewMember(group, ids[i], Some(0.0), DateOrNull(deadline)))
  }

  /** The bulk insert createGroup issues for its `member_ids` field: no
      entries when the field is absent or not an array (None), the entries
      of the ids when every one is a whole number, and otherwise a statement
      the database refuses (None). */
  function Invited(group: Id, memberIds: Option<seq<Value>>, deadline: DateInput): (r: Option<seq<NewMember>>)
    ensures memberIds.None? ==> r == Some([])
    ensures memberIds.Some? ==> (r.Some? <==> InvitedIds(memberIds.value).Some?)
    ensures memberIds.Some? && r.Some? ==> r.value == InvitedEntries(group, InvitedIds(memberIds.value).value, deadline)
  {
    if memberIds.None? then Some([])
    else match InvitedIds(memberIds.value)
      case None => None
      case Some(ids) => Some(InvitedEntries(group, ids, deadline))
  }

  /** What the owner's insert and the bulk insert of createGroup leave in the
      member table, given its rows and next id before them. */
  datatype Created = Created(ok: bool, rows: map<Id, Member>, next: nat)

  function MembersAfterCreate(rows: map<Id, Member>, n: nat, owner: NewMember, invited: Option<seq<NewMember>>): Created
    requires Bounded(rows, n)
  {
    if !Insertable(rows, [owner]) then Created(false, rows, n)
    else if invited.None? then Created(false, rows[n := Fresh(owner)], n + 1)
    else AfterBulk(rows[n := Fresh(owner)], n + 1, invited.value)
  }

  /** The bulk insert of the invited entries alone: all rows or none. */
  function AfterBulk(rows: map<Id, Member>, n: nat, invited: seq<NewMember>): Created
    requires Bounded(rows, n)
  {
    if Insertable(rows, invited) then Created(true, InsertAll(rows, n, invited), n + |invited|)
    else Created(false, rows, n)
  }

  /** createGroup's two inserts succeed together exactly when the bulk insert
      is one the database takes and the owner's entry followed by the invited
      ones respects the key, and then they add the same rows as one insert of
      all of them; otherwise what was inserted before the refused statement
      stays. */
  lemma MembersAfterCreateSpec(rows: map<Id, Member>, n: nat, owner: NewMember, invited: Option<seq<NewMember>>)
    requires Bounded(rows, n)
    ensures var c := MembersAfterCreate(rows, n, owner, invited);
      && (c.ok <==> invited.Some? && Insertable(rows, [owner] + invited.value))
      && (c.ok ==> c.rows == InsertAll(rows, n, [owner] + invited.value) && c.next == n + 1 + |invited.value|)
      && Extends(rows, c.rows)
  {
    if invited.Some? {
      InsertableCons(rows, n, owner, invited.value);
      InsertAllAppend(rows, n, [owner], invited.value);
      assert InsertAll(rows, n, [owner]) == rows[n := Fresh(owner)];
    }
  }

  /** createGroup stops after a refused owner insert; otherwise a refused
      bulk statement leaves the owner's row, and a taken one goes on with the
      bulk insert on the table holding it. */
  lemma CreateSteps(rows: map<Id, Member>, n: nat, owner: NewMember, invited: Option<seq<NewMember>>)
    requires Bounded(rows, n)
    ensures !Insertable(rows, [owner]) ==> MembersAfterCreate(rows, n, owner, invited) == Created(false, rows, n)
    ensures Insertable(rows, [owner]) && invited.None? ==>
              MembersAfterCreate(rows, n, owner, invited) == Created(false, rows[n := Fresh(owner)], n + 1)
    ensures Insertable(rows, [owner]) && invited.Some? ==>
              MembersAfterCreate(rows, n, owner, invited) == AfterBulk(rows[n := Fresh(owner)], n + 1, invited.value)
  {
  }

  // -------------------------------------------------------------- handlers

  /** getById found the group: it exists and its owner has an account. */
  predicate GroupFound(groups: map<Id, Group>, accounts: map<Id, Account>, id: Id) {
    id in groups && OwnerExists(groups[id], accounts)
  }

  /** `createGroup`: a name is required and a given deadline must parse; then
      the group is inserted, the owner's row added, and one row per invited
      id bulk-inserted. An insert refused by the (group, account) key (an
      invited id repeated, or equal to the owner) or by an invited id that
      is not a whole number answers 500 with the group and the rows inserted
      before it kept. memberIds is None when the field is absent or not an
      array. */
  method CreateGroup(groups: GroupTable, members: MemberTable, caller: UserId,
                     name: Option<string>, deadline: DateInput, memberIds: Option<seq<Value>>)
    returns (o: Outcome, groupId: Option<Id>)
    requires groups.Valid() && members.Valid()
    modifies groups, members
    ensures groups.Valid() && members.Valid()
    ensures o == BadRequest <==> !TextGiven(name) || Malformed(deadline)
    ensures o == BadRequest ==> groupId.None? && groups.rows == old(groups.rows) && groups.next == old(groups.next)
    ensures o == BadRequest ==> members.rows == old(members.rows) && members.next == old(members.next)
    ensures o != BadRequest ==> groupId == Some(old(groups.next)) && groups.next == old(groups.next) + 1
    ensures o != BadRequest ==> groups.rows == old(groups.rows)[old(groups.next) := Group(name, caller, DateOrNull(deadline))]
    ensures o != BadRequest ==>
      var c := MembersAfterCreate(old(members.rows), old(members.next), OwnerEntry(old(groups.next), caller, deadline),
                                  Invited(old(groups.next), memberIds, deadline));
      && (o == Ok <==> c.ok) && (o != Ok ==> o == ServerError)
      && members.rows == c.rows && members.next == c.next
    ensures Extends(old(members.rows), members.rows)
  {
    if !TextGiven(name) || Malformed(deadline) {
      return BadRequest, None;
    }
    var id := groups.Create(name, caller, deadline);
    groupId := Some(id);
    var owner, invited := OwnerEntry(id, caller, deadline), Invited(id, memberIds, deadline);
    MembersAfterCreateSpec(members.rows, members.next, owner, invited);
    var ok := InsertCreatorAndInvited(members, owner, invited);
    o := if ok then Ok else ServerError;
  }

  /** The owner's insert, then (if it succeeded) the bulk insert of the
      invited entries, as createGroup issues them. */
  method InsertCreatorAndInvited(members: MemberTable, owner: NewMember, invited: Option<seq<NewMember>>)
    returns (ok: bool)
    requires members.Valid()
    modifies members
    ensures members.Valid()
    ensures var c := MembersAfterCreate(old(members.rows), old(members.next), owner, invited);
      ok == c.ok && members.rows == c.rows && members.next == c.next
  {
    ghost var before, n := members.rows, members.next;
    InsertableOne(before, owner);
    CreateSteps(before, n, owner, invited);
    ok := members.AddMember(owner.group, owner.account, owner.amount, owner.deadline);
    if ok {
      ok := InsertInvited(members, invited);
    }
  }

  /** The bulk insert after the owner's row: refused outright when an id is
      not a whole number, otherwise all entries or none. */
  method InsertInvited(members: MemberTable, invited: Option<seq<NewMember>>) returns (ok: bool)
    requires members.Valid()
    modifies members
    ensures members.Valid()
    ensures var c := if invited.Some? then AfterBulk(old(members.rows), old(members.next), invited.value)
                     else Created(false, old(members.rows), old(members.next));
      ok == c.ok && members.rows == c.rows && members.next == c.next
  {
    if invited.None? {
      return false;
    }
    ok := members.BulkAddMembers(invited.value);
  }

  /** `updateGroup`: the group must be found, the caller must own it, and a
      given deadline must parse; then name and deadline are overwritten. */
  method UpdateGroup(groups: GroupTable, accounts: AccountTable, caller: UserId, groupId: Id,
                     name: Option<string>, deadline: DateInput)
    returns (o: Outcome)
    requires groups.Valid()
    modifies groups
    ensures groups.Valid() && groups.next == old(groups.next)
    ensures o == NotFound <==> !GroupFound(old(groups.rows), accounts.rows, groupId)
    ensures o == Forbidden <==> GroupFound(old(groups.rows), accounts.rows, groupId) && old(groups.rows)[groupId].owner != caller
    ensures o == BadRequest <==> GroupFound(old(groups.rows), accounts.rows, groupId) && old(groups.rows)[groupId].owner == caller
                                 && Malformed(deadline)
    ensures o == Ok <==> GroupFound(old(groups.rows), accounts.rows, groupId) && old(groups.rows)[groupId].owner == caller
                         && !Malformed(deadline)
    ensures o != Ok ==> groups.rows == old(groups.rows)
    ensures o == Ok ==> groups.rows == old(groups.rows)[groupId :=
              old(groups.rows)[groupId].(name := name, deadline := DateOrNull(deadline))]
  {
    var g := groups.GetById(groupId, accounts.rows);
    if g.None? {
      return NotFound;
    }
    if g.value.owner != caller {
      return Forbidden;
    }
    if Malformed(deadline) {
      return BadRequest;
    }
    groups.Update(groupId, name, deadline);
    return Ok;
  }

  /** What getGroupDetails answers: the group, its statistics, its member
      rows and whether the caller owns it. */
  datatype DetailsAnswer = DetailsAnswer(outcome: Outcome, group: Option<Group>, stats: Option<Stats>,
                                         members: seq<Id>, isOwner: bool)

  /** `getGroupDetails`: the group must be found, and the caller must have a
      member row in it (under getMember's JOINs) or own it. */
  function GroupDetails(groups: GroupTable, members: MemberTable, accounts: AccountTable, caller: UserId, groupId: Id)
    : (r: DetailsAnswer)
    requires members.Valid()
    reads groups, members, accounts
    ensures r.outcome == NotFound <==> !GroupFound(groups.rows, accounts.rows, groupId)
    ensures r.outcome == Forbidden <==> GroupFound(groups.rows, accounts.rows, groupId)
                                        && members.GetMember(groupId, caller, accounts.rows, groups.rows.Keys).None?
                                        && groups.rows[groupId].owner != caller
    ensures r.outcome == Ok <==> GroupFound(groups.rows, accounts.rows, groupId)
                                 && (members.GetMember(groupId, caller, accounts.rows, groups.rows.Keys).Some?
                                     || groups.rows[groupId].owner == caller)
    ensures r.outcome == Ok ==> && r.group == Some(groups.rows[groupId])
                                && r.stats == Some(GroupStats(members.rows, members.next, groupId))
                                && r.members == members.GroupMembers(groupId, accounts.rows)
                                && (r.isOwner <==> groups.rows[groupId].owner == caller)
    ensures r.outcome != Ok ==> r.group.None? && r.stats.None? && r.members == []
  {
    var g := groups.GetById(groupId, accounts.rows);
    if g.None? then DetailsAnswer(NotFound, None, None, [], false)
    else if members.GetMember(groupId, caller, accounts.rows, groups.rows.Keys).None? && g.value.owner != caller then
      DetailsAnswer(Forbidden, None, None, [], false)
    else
      DetailsAnswer(Ok, g, Some(GroupStats(members.rows, members.next, groupId)),
                    members.GroupMembers(groupId, accounts.rows), g.value.owner == caller)
  }

  /** The amount addMember inserts: `amount || 0` as the DECIMAL column
      takes it, None when the column refuses it. */
  function StoredAmount(amount: Value): (r: Option<Money>)
    ensures !Truthy(amount) ==> r == Some(0.0)
    ensures amount.Num? ==> r == Some(amount.n)
    ensures Truthy(amount) && r.Some? ==> ToNumber(amount) == r
  {
    if !Truthy(amount) then Some(0.0) else DecimalValue(amount)
  }

  /** Under the JOINs of getMember, the (group, account) row of an existing
      group and account is found exactly when it exists. */
  lemma GetMemberOfExisting(members: MemberTable, accounts: map<Id, Account>, groups: set<Id>, group: Id, account: Id)
    requires members.Valid() && account in accounts && group in groups
    ensures members.GetMember(group, account, accounts, groups) == members.Find(group, account)
  {
    var k := members.Find(group, account);
    if k.Some? {
      assert HasKey(members.rows[k.value], group, account);
    }
  }

  /** `addMember`: the group must be found and be the caller's, the account
      must exist and have no row in the group; the new row gets `amount || 0`
      and `deadline || group's deadline`. A value the amount or date column
      refuses (text that is not one number, an unparsable date, neither
      checked here) makes the insert fail with 500. An account_id that is
      not a whole number finds no account. */
  method AddMember(groups: GroupTable, members: MemberTable, accounts: AccountTable, caller: UserId,
                   groupId: Id, account: Value, amount: Value, deadline: DateInput)
    returns (o: Outcome)
    requires members.Valid()
    modifies members
    ensures members.Valid()
    ensures !GroupFound(groups.rows, accounts.rows, groupId) ==> o == NotFound
    ensures GroupFound(groups.rows, accounts.rows, groupId) && groups.rows[groupId].owner != caller ==> o == Forbidden
    ensures GroupFound(groups.rows, accounts.rows, groupId) && groups.rows[groupId].owner == caller ==>
      if IdValue(account).None? || accounts.GetById(IdValue(account).value).None? then o == NotFound
      else if old(members.GetMember(groupId, IdValue(account).value, accounts.rows, groups.rows.Keys)).Some?
      then o == BadRequest
      else if StoredAmount(amount).None? || Malformed(deadline) then o == ServerError
      else o == Ok
    ensures o != Ok ==> members.rows == old(members.rows) && members.next == old(members.next)
    ensures o == Ok ==> members.next == old(members.next) + 1
    ensures o == Ok ==> members.rows == old(members.rows)[old(members.next) :=
              Fresh(NewMember(groupId, IdValue(account).value, StoredAmount(amount),
                              if deadline.OnDate? then Some(deadline.date) else groups.rows[groupId].deadline))]
    ensures MembersEvolve(groups.rows, old(members.rows), members.rows)
  {
    var g := groups.GetById(groupId, accounts.rows);
    if g.None? {
      return NotFound;
    }
    if g.value.owner != caller {
      return Forbidden;
    }
    var id := IdValue(account);
    if id.None? || accounts.GetById(id.value).None? {
      return NotFound;
    }
    var existing := members.GetMember(groupId, id.value, accounts.rows, groups.rows.Keys);
    if existing.Some? {
      return BadRequest;
    }
    var value := StoredAmount(amount);
    if value.None? || Malformed(deadline) {
      return ServerError;
    }
    GetMemberOfExisting(members, accounts.rows, groups.rows.Keys, groupId, id.value);
    var due := if deadline.OnDate? then Some(deadline.date) else g.value.deadline;
    var ok := members.AddMember(groupId, id.value, value, due);
    return Ok;
  }

  /** `removeMember`: the group must be found, the caller must be the owner
      or the member named, and the owner's own row cannot be removed; then
      the (group, member) row is deleted. */
  method RemoveMember(groups: GroupTable, members: MemberTable, accounts: AccountTable, caller: UserId,
                      groupId: Id, memberId: int)
    returns (o: Outcome)
    requires members.Valid()
    modifies members
    ensures members.Valid() && members.next == old(members.next)
    ensures o == NotFound <==> !GroupFound(groups.rows, accounts.rows, groupId)
    ensures o == Forbidden <==> GroupFound(groups.rows, accounts.rows, groupId)
                                && groups.rows[groupId].owner != caller && memberId != caller
    ensures o == BadRequest <==> GroupFound(groups.rows, accounts.rows, groupId)
                                 && (groups.rows[groupId].owner == caller || memberId == caller)
                                 && memberId == groups.rows[groupId].owner
    ensures o == Ok <==> GroupFound(groups.rows, accounts.rows, groupId)
                         && (groups.rows[groupId].owner == caller || memberId == caller)
                         && memberId != groups.rows[groupId].owner
    ensures o != Ok ==> members.rows == old(members.rows)
    ensures o == Ok ==> forall k :: k in members.rows <==> k in old(members.rows) && !HasKey(old(members.rows)[k], groupId, memberId)
    ensures forall k :: k in members.rows ==> k in old(members.rows) && members.rows[k] == old(members.rows)[k]
    ensures MembersEvolve(groups.rows, old(members.rows), members.rows)
  {
    var g := groups.GetById(groupId, accounts.rows);
    if g.None? {
      return NotFound;
    }
    if g.value.owner != caller && memberId != caller {
      return Forbidden;
    }
    if memberId == g.value.owner {
      return BadRequest;
    }
    members.RemoveMember(groupId, memberId);
    return Ok;
  }

  /** The guard of updateMemberAmount: `isNaN(amount) || parseFloat(amount) < 0`. */
  predicate AmountRejected(amount: Value) {
    IsNaN(amount) || FloatBelow(amount, 0.0)
  }

  /** `updateMemberAmount`: the group must be found and be the caller's, and
      the amount must pass `isNaN(amount) || parseFloat(amount) < 0`. The
      write stores `parseFloat(amount)`: null, "" and blank text pass the
      guard as 0, but parseFloat gives them NaN, which the statement refuses
      (500). The write goes through updateMemberDetails, so the deadline is
      overwritten (absent becomes NULL) and the proof is erased; an
      unparsable deadline, not checked here, is refused by the column (500).
      A missing row is not noticed. */
  method UpdateMemberAmount(groups: GroupTable, members: MemberTable, accounts: AccountTable, caller: UserId,
                            groupId: Id, memberId: int, amount: Value, deadline: DateInput)
    returns (o: Outcome)
    requires members.Valid()
    modifies members
    ensures members.Valid() && members.next == old(members.next)
    ensures o == NotFound <==> !GroupFound(groups.rows, accounts.rows, groupId)
    ensures o == Forbidden <==> GroupFound(groups.rows, accounts.rows, groupId) && groups.rows[groupId].owner != caller
    ensures o == BadRequest <==> GroupFound(groups.rows, accounts.rows, groupId) && groups.rows[groupId].owner == caller
                                 && AmountRejected(amount)
    ensures o == ServerError <==> GroupFound(groups.rows, accounts.rows, groupId) && groups.rows[groupId].owner == caller
                                  && !AmountRejected(amount) && (ParseFloat(amount).None? || Malformed(deadline))
    ensures o == Ok ==> ParseFloat(amount).Some? && ParseFloat(amount).value >= 0.0 && !Malformed(deadline)
    ensures o != Ok ==> members.rows == old(members.rows)
    ensures o == Ok ==> members.rows == match old(members.Find(groupId, memberId))
              case None => old(members.rows)
              case Some(k) => old(members.rows)[k := old(members.rows)[k].(
                                amount := ParseFloat(amount), deadline := DateOrNull(deadline), proof := None)]
    ensures MembersEvolve(groups.rows, old(members.rows), members.rows)
  {
    var g := groups.GetById(groupId, accounts.rows);
    if g.None? {
      return NotFound;
    }
    if g.value.owner != caller {
      return Forbidden;
    }
    if AmountRejected(amount) {
      return BadRequest;
    }
    var value := ParseFloat(amount);
    if value.None? || Malformed(deadline) {
      return ServerError;
    }
    ghost var before := members.rows;
    ghost var found := members.Find(groupId, memberId);
    members.UpdateMemberDetails(groupId, memberId, value, DateOrNull(deadline), None);
    if found.Some? {
      OneRowEvolves(groups.rows, before, found.value, members.rows[found.value]);
    }
    return Ok;
  }

  /** `updateMemberProof`: a proof URL is required, the group must be found
      and the caller must be the member named; then the proof is stored
      through updateMemberDetails (erasing amount and deadline) and the row
      is marked paid, whatever its earlier payment or review state. */
  method UpdateMemberProof(groups: GroupTable, members: MemberTable, accounts: AccountTable, caller: UserId,
                           groupId: Id, memberId: int, proof: Option<string>)
    returns (o: Outcome)
    requires members.Valid()
    modifies members
    ensures members.Valid() && members.next == old(members.next)
    ensures o == BadRequest <==> !TextGiven(proof)
    ensures o == NotFound <==> TextGiven(proof) && !GroupFound(groups.rows, accounts.rows, groupId)
    ensures o == Forbidden <==> TextGiven(proof) && GroupFound(groups.rows, accounts.rows, groupId) && memberId != caller
    ensures o == Ok <==> TextGiven(proof) && GroupFound(groups.rows, accounts.rows, groupId) && memberId == caller
    ensures o != Ok ==> members.rows == old(members.rows)
    ensures o == Ok ==> members.rows == match old(members.Find(groupId, memberId))
              case None => old(members.rows)
              case Some(k) => old(members.rows)[k := old(members.rows)[k].(
                                amount := None, deadline := None, proof := proof, payment := Paid)]
    ensures MembersEvolve(groups.rows, old(members.rows), members.rows)
  {
    if !TextGiven(proof) {
      return BadRequest;
    }
    var g := groups.GetById(groupId, accounts.rows);
    if g.None? {
      return NotFound;
    }
    if memberId != caller {
      return Forbidden;
    }
    ghost var before := members.rows;
    ghost var found := members.Find(groupId, memberId);
    members.UpdateMemberDetails(groupId, memberId, None, None, proof);
    label mid:
    members.UpdateMemberStatus(groupId, memberId, None, Some(Paid), None);
    if found.Some? {
      var k := found.value;
      assert old@mid(members.Find(groupId, memberId)) == found by {
        assert old@mid(members.rows)[k].group == groupId && old@mid(members.rows)[k].account == memberId;
      }
      assert members.rows[k] == before[k].(amount := None, deadline := None, proof := proof, payment := Paid);
      assert members.rows == before[k := members.rows[k]];
      OneRowEvolves(groups.rows, before, k, members.rows[k]);
    } else {
      assert members.rows == before;
    }
    return Ok;
  }

  /** The shared guard of accept/rejectInvitation: the group must be found
      and getMember must find a pending row of the caller in it; then
      join_status is set. */
  method AnswerInvitation(groups: GroupTable, members: MemberTable, accounts: AccountTable, caller: UserId,
                          groupId: Id, answer: JoinStatus)
    returns (o: Outcome)
    requires members.Valid() && answer != Pending
    modifies members
    ensures members.Valid() && members.next == old(members.next)
    ensures o == NotFound <==> !GroupFound(groups.rows, accounts.rows, groupId)
                               || old(members.GetMember(groupId, caller, accounts.rows, groups.rows.Keys)).None?
    ensures o == Ok <==> GroupFound(groups.rows, accounts.rows, groupId)
                         && old(members.GetMember(groupId, caller, accounts.rows, groups.rows.Keys)).Some?
                         && old(members.rows)[old(members.GetMember(groupId, caller, accounts.rows, groups.rows.Keys)).value].join == Pending
    ensures o == BadRequest <==> GroupFound(groups.rows, accounts.rows, groupId)
                                 && old(members.GetMember(groupId, caller, accounts.rows, groups.rows.Keys)).Some?
                                 && old(members.rows)[old(members.GetMember(groupId, caller, accounts.rows, groups.rows.Keys)).value].join != Pending
    ensures o != Ok ==> members.rows == old(members.rows)
    ensures o == Ok ==> var k := old(members.GetMember(groupId, caller, accounts.rows, groups.rows.Keys)).value;
              old(members.rows)[k].join == Pending && members.rows == old(members.rows)[k := old(members.rows)[k].(join := answer)]
    ensures MembersEvolve(groups.rows, old(members.rows), members.rows)
  {
    var g := groups.GetById(groupId, accounts.rows);
    if g.None? {
      return NotFound;
    }
    var found := members.GetMember(groupId, caller, accounts.rows, groups.rows.Keys);
    if found.None? {
      return NotFound;
    }
    if members.rows[found.value].join != Pending {
      return BadRequest;
    }
    ghost var before := members.rows;
    members.UpdateMemberStatus(groupId, caller, Some(answer), None, None);
    OneRowEvolves(groups.rows, before, found.value, members.rows[found.value]);
    return Ok;
  }

  /** `acceptInvitation`. */
  method AcceptInvitation(groups: GroupTable, members: MemberTable, accounts: AccountTable, caller: UserId, groupId: Id)
    returns (o: Outcome)
    requires members.Valid()
    modifies members
    ensures members.Valid() && members.next == old(members.next)
    ensures o == Ok <==> GroupFound(groups.rows, accounts.rows, groupId)
                         && old(members.GetMember(groupId, caller, accounts.rows, groups.rows.Keys)).Some?
                         && old(members.rows)[old(members.GetMember(groupId, caller, accounts.rows, groups.rows.Keys)).value].join == Pending
    ensures o != Ok ==> members.rows == old(members.rows)
    ensures o == Ok ==> var k := old(members.GetMember(groupId, caller, accounts.rows, groups.rows.Keys)).value;
              members.rows == old(members.rows)[k := old(members.rows)[k].(join := Accepted)]
    ensures MembersEvolve(groups.rows, old(members.rows), members.rows)
  {
    o := AnswerInvitation(groups, members, accounts, caller, groupId, Accepted);
  }

  /** `rejectInvitation`. */
  method RejectInvitation(groups: GroupTable, members: MemberTable, accounts: AccountTable, caller: UserId, groupId: Id)
    returns (o: Outcome)
    requires members.Valid()
    modifies members
    ensures members.Valid() && members.next == old(members.next)
    ensures o == Ok <==> GroupFound(groups.rows, accounts.rows, groupId)
                         && old(members.GetMember(groupId, caller, accounts.rows, groups.rows.Keys)).Some?
                         && old(members.rows)[old(members.GetMember(groupId, caller, accounts.rows, groups.rows.Keys)).value].join == Pending
    ensures o != Ok ==> members.rows == old(members.rows)
    ensures o == Ok ==> var k := old(members.GetMember(groupId, caller, accounts.rows, groups.rows.Keys)).value;
              members.rows == old(members.rows)[k := old(members.rows)[k].(join := Rejected)]
    ensures MembersEvolve(groups.rows, old(members.rows), members.rows)
  {
    o := AnswerInvitation(groups, members, accounts, caller, groupId, Rejected);
  }

  /** `leaveGroup`: the group must be found and the caller must not own it;
      then the caller's row is deleted (whether or not there is one). */
  method LeaveGroup(groups: GroupTable, members: MemberTable, accounts: AccountTable, caller: UserId, groupId: Id)
    returns (o: Outcome)
    requires members.Valid()
    modifies members
    ensures members.Valid() && members.next == old(members.next)
    ensures o == NotFound <==> !GroupFound(groups.rows, accounts.rows, groupId)
    ensures o == BadRequest <==> GroupFound(groups.rows, accounts.rows, groupId) && groups.rows[groupId].owner == caller
    ensures o == Ok <==> GroupFound(groups.rows, accounts.rows, groupId) && groups.rows[groupId].owner != caller
    ensures o != Ok ==> members.rows == old(members.rows)
    ensures o == Ok ==> forall k :: k in members.rows <==> k in old(members.rows) && !HasKey(old(members.rows)[k], groupId, caller)
    ensures forall k :: k in members.rows ==> k in old(members.rows) && members.rows[k] == old(members.rows)[k]
    ensures MembersEvolve(groups.rows, old(members.rows), members.rows)
  {
    var g := groups.GetById(groupId, accounts.rows);
    if g.None? {
      return NotFound;
    }
    if g.value.owner == caller {
      return BadRequest;
    }
    members.RemoveMember(groupId, caller);
    return Ok;
  }

  /** The review a `status` field asks for: only the two exact strings count. */
  function ReviewOf(status: Option<string>): (r: Option<OwnerConfirm>)
    ensures r == Some(OwnerConfirmed) <==> status == Some("confirmed")
    ensures r == Some(OwnerRejected) <==> status == Some("rejected")
    ensures r != Some(OwnerUnconfirmed)
  {
    if status == Some("confirmed") then Some(OwnerConfirmed)
    else if status == Some("rejected") then Some(OwnerRejected)
    else None
  }

  /** `confirmMemberPayment`: status must be 'confirmed' or 'rejected', the
      group must be found and be the caller's, and getMember must find the
      member's row and it must be paid; then only owner_confirm_status is
      written (so a review can be changed again later). */
  method ConfirmMemberPayment(groups: GroupTable, members: MemberTable, accounts: AccountTable, caller: UserId,
                              groupId: Id, memberId: int, status: Option<string>)
    returns (o: Outcome)
    requires members.Valid()
    modifies members
    ensures members.Valid() && members.next == old(members.next)
    ensures o == BadRequest <==>
      || ReviewOf(status).None?
      || (&& GroupFound(groups.rows, accounts.rows, groupId) && groups.rows[groupId].owner == caller
          && old(members.GetMember(groupId, memberId, accounts.rows, groups.rows.Keys)).Some?
          && old(members.rows)[old(members.GetMember(groupId, memberId, accounts.rows, groups.rows.Keys)).value].payment != Paid)
    ensures o == NotFound <==>
      && ReviewOf(status).Some?
      && (|| !GroupFound(groups.rows, accounts.rows, groupId)
          || (groups.rows[groupId].owner == caller
              && old(members.GetMember(groupId, memberId, accounts.rows, groups.rows.Keys)).None?))
    ensures o == Forbidden <==> ReviewOf(status).Some? && GroupFound(groups.rows, accounts.rows, groupId)
                                && groups.rows[groupId].owner != caller
    ensures o == Ok <==>
      && ReviewOf(status).Some? && GroupFound(groups.rows, accounts.rows, groupId) && groups.rows[groupId].owner == caller
      && old(members.GetMember(groupId, memberId, accounts.rows, groups.rows.Keys)).Some?
      && old(members.rows)[old(members.GetMember(groupId, memberId, accounts.rows, groups.rows.Keys)).value].payment == Paid
    ensures o != Ok ==> members.rows == old(members.rows)
    ensures o == Ok ==> var k := old(members.GetMember(groupId, memberId, accounts.rows, groups.rows.Keys)).value;
              old(members.rows)[k].payment == Paid &&
              members.rows == old(members.rows)[k := old(members.rows)[k].(ownerConfirm := ReviewOf(status).value)]
    ensures MembersEvolve(groups.rows, old(members.rows), members.rows)
  {
    var review := ReviewOf(status);
    if review.None? {
      return BadRequest;
    }
    var g := groups.GetById(groupId, accounts.rows);
    if g.None? {
      return NotFound;
    }
    if g.value.owner != caller {
      return Forbidden;
    }
    var found := members.GetMember(groupId, memberId, accounts.rows, groups.rows.Keys);
    if found.None? {
      return NotFound;
    }
    if members.rows[found.value].payment != Paid {
      return BadRequest;
    }
    ghost var before := members.rows;
    members.UpdateMemberStatus(groupId, memberId, None, None, review);
    OneRowEvolves(groups.rows, before, found.value, members.rows[found.value]);
    return Ok;
  }

  // ------------------------------------------------------ notifications

  /** The active token of each invited id that has one, in the order of the
      ids: the devices createGroup's loop sends an invitation to. */
  function InviteTargets(tokens: FcmTokenModel.TokenTable, ids: seq<int>): (r: seq<string>)
    requires tokens.Valid()
    reads tokens
    ensures |r| <= |ids|
    ensures forall t :: t in r ==> exists i :: 0 <= i < |ids| && tokens.ActiveToken(ids[i]) == Some(t)
    ensures forall i :: 0 <= i < |ids| && tokens.ActiveToken(ids[i]).Some? ==> tokens.ActiveToken(ids[i]).value in r
    decreases |ids|
  {
    if ids == [] then []
    else
      var init := ids[..|ids| - 1];
      var prev := InviteTargets(tokens, init);
      assert forall i :: 0 <= i < |init| ==> init[i] == ids[i];
      match tokens.ActiveToken(ids[|ids| - 1])
      case Some(t) => prev + [t]
      case None => prev
  }

  /** createGroup's notification loop: for each invited id in turn, asks for
      its active token and sends to the one found. */
  method InviteNotifications(tokens: FcmTokenModel.TokenTable, ids: seq<int>) returns (sent: seq<string>)
    requires tokens.Valid()
    ensures sent == InviteTargets(tokens, ids)
  {
    sent := [];
    for i := 0 to |ids|
      invariant sent == InviteTargets(tokens, ids[..i])
    {
      assert ids[..i + 1][..i] == ids[..i];
      var token := tokens.ActiveToken(ids[i]);
      if token.Some? {
        sent := sent + [token.value];
      }
    }
    assert ids[..|ids|] == ids;
  }

  // ------------------------------------------------ report parameter guard

  /** `year ? parseInt(year, 10) : now`: an absent or empty field takes the
      current value. */
  function OrNow(field: Option<Parsed>, now: int): Parsed {
    if field.Some? then field.value else Int(now)
  }

  /** The guards of `getUserMonthlyGroupTargetReport`, in their order: a
      refusal, or None when the request reaches the report query. */
  function TargetReportGuard(caller: UserId, userId: Parsed, month: Option<Parsed>, year: Option<Parsed>,
                             nowMonth: int, nowYear: int): (r: Option<Outcome>)
    ensures r == Some(BadRequest) <==>
              !ParsedGiven(userId) || OutOfRange(OrNow(month, nowMonth), 1, 12)
              || OutOfRange(OrNow(year, nowYear), 2020, 2035)
    ensures r == Some(Forbidden) <==> r != Some(BadRequest) && userId.value != caller
    ensures r.None? ==> userId == Int(caller) && caller != 0
    ensures r.Some? ==> r.value == BadRequest || r.value == Forbidden
  {
    var m := OrNow(month, nowMonth);
    var y := OrNow(year, nowYear);
    if !ParsedGiven(userId) then Some(BadRequest)
    else if OutOfRange(m, 1, 12) then Some(BadRequest)
    else if OutOfRange(y, 2020, 2035) then Some(BadRequest)
    else if userId.value != caller then Some(Forbidden)
    else None
  }

  /** As written, a month or year that does not parse passes the range
      guards and reaches the query. */
  lemma TargetReportNaNPasses(caller: UserId)
    requires caller != 0
    ensures TargetReportGuard(caller, Int(caller), Some(NaN), Some(NaN), 6, 2024).None?
  {
  }

  /** The evidently intended guard: a month or year must be a number in range. */
  function TargetReportGuardStrict(caller: UserId, userId: Parsed, month: Option<Parsed>, year: Option<Parsed>,
                                   nowMonth: int, nowYear: int): (r: Option<Outcome>)
    ensures r.None? ==> userId == Int(caller) && caller != 0
    ensures r.None? ==> OrNow(month, nowMonth).Int? && 1 <= OrNow(month, nowMonth).value <= 12
    ensures r.None? ==> OrNow(year, nowYear).Int? && 2020 <= OrNow(year, nowYear).value <= 2035
  {
    var m := OrNow(month, nowMonth);
    var y := OrNow(year, nowYear);
    if !ParsedGiven(userId) then Some(BadRequest)
    else if !m.Int? || OutOfRange(m, 1, 12) then Some(BadRequest)
    else if !y.Int? || OutOfRange(y, 2020, 2035) then Some(BadRequest)
    else if userId.value != caller then Some(Forbidden)
    else None
  }

  /** The strict guard refuses exactly what the written one refuses, plus the
      requests whose month or year does not parse. */
  lemma TargetReportGuardsAgree(caller: UserId, userId: Parsed, month: Option<Parsed>, year: Option<Parsed>,
                                nowMonth: int, nowYear: int)
    ensures TargetReportGuardStrict(caller, userId, month, year, nowMonth, nowYear) ==
            if ParsedGiven(userId) && (OrNow(month, nowMonth).NaN? || OrNow(year, nowYear).NaN?)
               && TargetReportGuard(caller, userId, month, year, nowMonth, nowYear) != Some(BadRequest)
            then Some(BadRequest)
            else TargetReportGuard(caller, userId, month, year, nowMonth, nowYear)
  {
  }

  // ------------------------------------------------------- consequences

  /** Two accounts, ids 1 and 2. */
  method TwoAccounts() returns (a: AccountTable)
    ensures fresh(a) && a.Valid() && a.rows.Keys == {1, 2}
  {
    a := new AccountTable();
    var one := a.Create("u1", Some("ann"), Some("ann@x.com"), None);
    var two := a.Create("u2", Some("bob"), Some("bob@x.com"), None);
  }

  /** Account 1 owns a group in which account 2 has a row (id 1) with the
      amount 50. */
  method GroupWithMember() returns (accounts: AccountTable, groups: GroupTable, members: MemberTable, gid: Id)
    ensures fresh(accounts) && fresh(groups) && fresh(members)
    ensures accounts.Valid() && accounts.rows.Keys == {1, 2} && members.Valid()
    ensures GroupFound(groups.rows, accounts.rows, gid) && groups.rows[gid].owner == 1
    ensures members.rows == map[1 := Fresh(NewMember(gid, 2, Some(50.0), None))]
    ensures members.Find(gid, 2) == Some(1)
  {
    accounts := TwoAccounts();
    groups := new GroupTable();
    members := new MemberTable();
    gid := groups.Create(Some("trip"), 1, NoDate);
    var added := members.AddMember(gid, 2, Some(50.0), None);
    assert members.rows == map[1 := Fresh(NewMember(gid, 2, Some(50.0), None))];
    assert members.Find(gid, 2) == Some(1);
  }

  /** A proof upload erases the amount the owner set (50 here), and a later
      amount update erases the proof: updateMemberDetails writes all three
      columns. */
  method ProofAndAmountOverwrite() returns (afterProof: Member, afterAmount: Member)
    ensures afterProof.amount == None && afterProof.proof == Some("receipt.png") && afterProof.payment == Paid
    ensures afterAmount.amount == Some(30.0) && afterAmount.proof == None && afterAmount.payment == Paid
  {
    var accounts, groups, members, gid := ProofUploaded();
    afterProof := members.rows[1];
    var o2 := UpdateMemberAmount(groups, members, accounts, 1, gid, 2, Num(30.0), NoDate);
    assert o2 == Ok;
    afterAmount := members.rows[1];
  }

  /** The group of GroupWithMember after account 2 uploaded a proof for
      its row. */
  method ProofUploaded() returns (accounts: AccountTable, groups: GroupTable, members: MemberTable, gid: Id)
    ensures fresh(accounts) && fresh(groups) && fresh(members)
    ensures accounts.Valid() && members.Valid()
    ensures GroupFound(groups.rows, accounts.rows, gid) && groups.rows[gid].owner == 1
    ensures members.rows == map[1 := Member(gid, 2, None, None, Pending, Paid, OwnerUnconfirmed, Some("receipt.png"))]
    ensures members.Find(gid, 2) == Some(1)
  {
    accounts, groups, members, gid := GroupWithMember();
    var o1 := UpdateMemberProof(groups, members, accounts, 2, gid, 2, Some("receipt.png"));
    assert o1 == Ok;
    assert members.rows == map[1 := Member(gid, 2, None, None, Pending, Paid, OwnerUnconfirmed, Some("receipt.png"))];
    assert members.Find(gid, 2) == Some(1);
  }

  /** Account 1 creates group 1, inviting the id 999, which has no account. */
  method GroupInvitingNobody() returns (accounts: AccountTable, groups: GroupTable, members: MemberTable, created: Outcome)
    ensures fresh(accounts) && fresh(groups) && fresh(members)
    ensures accounts.Valid() && accounts.rows.Keys == {1, 2} && members.Valid()
    ensures GroupFound(groups.rows, accounts.rows, 1) && groups.rows[1].owner == 1
    ensures created == Ok
  {
    accounts := TwoAccounts();
    groups := new GroupTable();
    members := new MemberTable();
    var gid;
    assert IdValue(Num(999.0)) == Some(999);
    created, gid := CreateGroup(groups, members, 1, Some("trip"), NoDate, Some([Num(999.0)]));
  }

  /** An invited id with no account gets a member row, but getMember joins
      the account table and never finds it: the owner's review of that row
      answers 404, not the 400 of an unpaid row. */
  method DanglingInviteNotFound() returns (created: Outcome, review: Outcome)
    ensures created == Ok && review == NotFound
  {
    var accounts, groups, members;
    accounts, groups, members, created := GroupInvitingNobody();
    review := ConfirmMemberPayment(groups, members, accounts, 1, 1, 999, Some("confirmed"));
  }

  /** An amount of null passes the isNaN guard as 0, but parseFloat reads
      NaN from it, and the write is refused: 500, not 400. */
  lemma NullAmountFails()
    ensures !AmountRejected(Null) && ParseFloat(Null).None?
    ensures !AmountRejected(Str("")) && ParseFloat(Str("")).None?
  {
  }
}
