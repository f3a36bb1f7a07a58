/** The profile handlers: the caller's profile with their group-expense
    balance, changing username and e-mail, and searching other users. */
module UserController {
  import opened Common
  import opened Tables
  import opened Text
  import opened AccountModel
  import opened GroupExpenseModel
  import opened GroupExpenseShareModel

  /** What getProfile answers: the status and, on 200, the account and its
      balance. */
  datatype Profile = Profile(outcome: Outcome, user: Option<Account>, balance: Option<Balance>)

  /** `getProfile` as written: an unknown caller gets 404. For a known one
      the handler calls getUserBalance, whose body reads `this.getTotalPaid`
      inside an arrow function defined at module level; `this` there is the
      module's exports object, which has no such member, so the call throws
      and the handler answers 500. */
  function GetProfile(accounts: AccountTable, caller: UserId): (r: Profile)
    reads accounts
    ensures r.outcome == NotFound <==> accounts.GetById(caller).None?
    ensures r.outcome == ServerError <==> accounts.GetById(caller).Some?
    ensures r.user.None? && r.balance.None?
  {
    if accounts.GetById(caller).None? then Profile(NotFound, None, None)
    else Profile(ServerError, None, None)
  }

  /** As written, no caller ever receives a profile. */
  lemma ProfileNeverServed(accounts: AccountTable, caller: UserId)
    ensures GetProfile(accounts, caller).outcome != Ok
  {
  }

  /** The evidently intended getProfile: 404 for an unknown caller, else the
      account with the balance of getUserBalance's formula over all expenses
      and shares. */
  function GetProfileFixed(accounts: AccountTable, expenses: ExpenseTable, shares: ShareTable,
                           caller: UserId): (r: Profile)
    requires expenses.Valid() && shares.Valid()
    reads accounts, expenses, shares
    ensures r.outcome == NotFound <==> accounts.GetById(caller).None?
    ensures r.outcome == Ok <==> accounts.GetById(caller).Some?
    ensures r.outcome == Ok ==> r.user == accounts.GetById(caller) && r.balance.Some?
    ensures r.outcome == Ok ==>
      var b := r.balance.value;
      && b.totalPaid == OrZero(TotalPaid(expenses.rows, expenses.next, caller).total)
      && b.totalOwed == OrZero(TotalOwed(shares.rows, shares.next, expenses.rows, caller).total)
      && b.balance == b.totalPaid - b.totalOwed
    ensures r.outcome == Ok && PaidExpenses(expenses.rows, caller) == {}
            && (forall k :: k in shares.rows ==> !Owes(expenses.rows, shares.rows[k], caller)) ==>
      r.balance.value.balance == 0.0
  {
    var user := accounts.GetById(caller);
    if user.None? then Profile(NotFound, None, None)
    else
      var paid := TotalPaid(expenses.rows, expenses.next, caller);
      var owed := TotalOwed(shares.rows, shares.next, expenses.rows, caller);
      Profile(Ok, user, Some(UserBalance(paid, owed)))
  }

  /** The intended handler serves every known caller. */
  lemma ProfileFixedServes(accounts: AccountTable, expenses: ExpenseTable, shares: ShareTable, caller: UserId)
    requires expenses.Valid() && shares.Valid()
    requires caller >= 0 && caller in accounts.rows
    ensures GetProfileFixed(accounts, expenses, shares, caller).outcome == Ok
    ensures GetProfile(accounts, caller).outcome == ServerError
  {
  }

  /** The e-mail belongs to an account other than the caller's: the check
      `existingUser && existingUser.id !== userId` of updateProfile, on the
      first account getByEmail returns. */
  predicate EmailTaken(accounts: AccountTable, caller: UserId, email: string)
    requires accounts.Valid()
    reads accounts
  {
    var holder := accounts.GetByEmail(email);
    holder.Some? && holder.value != caller
  }

  /** `updateProfile`: 400 when neither field is given, or when a given
      e-mail is already held by another account; otherwise both columns are
      written (an omitted field becomes NULL). A caller without a row gets
      200 and nothing changes. Accounts keep distinct e-mail addresses. */
  method UpdateProfile(accounts: AccountTable, caller: UserId, username: Option<string>, email: Option<string>)
    returns (o: Outcome)
    requires accounts.Valid()
    modifies accounts
    ensures accounts.Valid() && accounts.next == old(accounts.next)
    ensures o == BadRequest <==>
      (!TextGiven(username) && !TextGiven(email))
      || (TextGiven(email) && old(EmailTaken(accounts, caller, email.value)))
    ensures o == Ok <==> o != BadRequest
    ensures o == BadRequest ==> accounts.rows == old(accounts.rows)
    ensures o == Ok && caller >= 0 && caller in old(accounts.rows) ==>
      accounts.rows == old(accounts.rows)[caller := old(accounts.rows)[caller].(username := username, email := email)]
    ensures o == Ok && !(caller >= 0 && caller in old(accounts.rows)) ==> accounts.rows == old(accounts.rows)
    ensures EmailsUnique(old(accounts.rows)) ==> EmailsUnique(accounts.rows)
  {
    if !TextGiven(username) && !TextGiven(email) {
      return BadRequest;
    }
    if TextGiven(email) {
      var holder := accounts.GetByEmail(email.value);
      if holder.Some? && holder.value != caller {
        return BadRequest;
      }
    }
    ghost var before := accounts.rows;
    if caller >= 0 && caller in before && EmailsUnique(before) && TextGiven(email) {
      var holder := accounts.GetByEmail(email.value);
      OnlyHolder(before, caller, email.value, holder);
    }
    accounts.UpdateProfile(caller, username, email);
    if caller >= 0 && caller in before && EmailsUnique(before) {
      UpdateKeepsUnique(before, caller, username, email);
    }
    return Ok;
  }

  /** With distinct e-mails, the account getByEmail finds is the only one
      holding that address: when it is the caller's, no other account does. */
  lemma OnlyHolder(rows: map<Id, Account>, id: Id, email: string, holder: Option<Id>)
    requires EmailsUnique(rows) && id in rows && email != ""
    requires holder.Some? ==> holder.value in rows && EmailIs(rows[holder.value], email)
    requires holder.None? <==> forall k :: k in rows ==> !EmailIs(rows[k], email)
    requires holder.Some? ==> holder.value == id
    ensures forall k :: k in rows && k != id ==> !EmailIs(rows[k], email)
  {
    forall k | k in rows && k != id ensures !EmailIs(rows[k], email) {
      if EmailIs(rows[k], email) {
        var h := holder.value;
        var a, b := rows[h].email.value, rows[k].email.value;
        SameTextEquivalence(a, email, b);
        SameTextEquivalence(b, email, a);
        assert |a| == |email| > 0;
        assert EmailIs(rows[k], a);
        assert false;
      }
    }
  }

  /** Writing an e-mail that no other account holds keeps e-mails distinct. */
  lemma UpdateKeepsUnique(rows: map<Id, Account>, id: Id, username: Option<string>, email: Option<string>)
    requires EmailsUnique(rows) && id in rows
    requires TextGiven(email) ==> forall k :: k in rows && k != id ==> !EmailIs(rows[k], email.value)
    ensures EmailsUnique(rows[id := rows[id].(username := username, email := email)])
  {
    var after := rows[id := rows[id].(username := username, email := email)];
    forall i, j | i in after && j in after && i != j && after[i].email.Some? && after[i].email.value != ""
      ensures !EmailIs(after[j], after[i].email.value)
    {
      if i == id {
        assert TextGiven(email);
      } else if j == id && email.Some? {
        SameTextEquivalence(email.value, after[i].email.value, after[i].email.value);
      } else {
        assert rows[i].email == after[i].email;
        assert j != id ==> rows[j] == after[j];
      }
    }
  }

  /** What searchUsers answers: the status and, on 200, the account ids. */
  datatype Search = Search(outcome: Outcome, users: seq<Id>)

  /** `searchUsers`: a missing query or one shorter than two UTF-16 code
      units gets 400; otherwise at most 20 accounts other than the caller
      whose username or e-mail is LIKE the query, and all of them when fewer
      come back. */
  function SearchUsers(accounts: AccountTable, caller: UserId, q: Option<string>): (r: Search)
    requires accounts.Valid()
    reads accounts
    ensures r.outcome == BadRequest <==> q.None? || Utf16Length(q.value) < 2
    ensures r.outcome == Ok <==> r.outcome != BadRequest
    ensures r.outcome == BadRequest ==> r.users == []
    ensures r.outcome == Ok ==>
      && |r.users| <= SearchLimit
      && (forall i :: 0 <= i < |r.users| ==>
            r.users[i] in accounts.rows && Matches(accounts.rows[r.users[i]], q.value) && r.users[i] != caller)
      && (|r.users| < SearchLimit ==>
            forall k :: k in accounts.rows && Matches(accounts.rows[k], q.value) && k != caller ==> k in r.users)
  {
    if q.None? || Utf16Length(q.value) < 2 then Search(BadRequest, [])
    else Search(Ok, accounts.SearchUsers(q.value, caller))
  }
}
