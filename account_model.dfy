/** The `account` table and its lookups. */
module AccountModel {
  import opened Common
  import opened Tables
  import opened Text

  /** A NULL column is None; `undefined` fields are written as NULL. */
  datatype Account = Account(uid: string, username: Option<string>, email: Option<string>,
                             password: Option<string>)

  /** `col LIKE '%term%'` under the case-insensitive collation: `%` and `_`
      in the term are wildcards too. A NULL column matches nothing. */
  predicate LikeTerm(col: Option<string>, term: string) {
    col.Some? && Like(col.value, "%" + term + "%")
  }

  /** The search condition `(username LIKE ? OR email LIKE ?)`. */
  predicate Matches(a: Account, term: string) {
    LikeTerm(a.username, term) || LikeTerm(a.email, term)
  }

  /** The condition `email = ?` under the same collation. */
  predicate EmailIs(a: Account, email: string) {
    a.email.Some? && SameText(a.email.value, email)
  }

  /** For a term without wildcards, an account matches exactly when its
      username or e-mail contains the term, letters compared without case. */
  lemma MatchesPlain(a: Account, term: string)
    requires Plain(term)
    ensures Matches(a, term) <==>
              (a.username.Some? && ContainsUpToCase(a.username.value, term))
              || (a.email.Some? && ContainsUpToCase(a.email.value, term))
  {
    if a.username.Some? {
      LikeContains(a.username.value, term);
    }
    if a.email.Some? {
      LikeContains(a.email.value, term);
    }
  }

  /** The most rows searchUsers returns. */
  const SearchLimit: nat := 20

  /** No two accounts hold the same non-empty e-mail address, as the
      collation compares them. */
  predicate EmailsUnique(rows: map<Id, Account>) {
    forall i, j :: i in rows && j in rows && i != j && rows[i].email.Some? && rows[i].email.value != "" ==>
      !EmailIs(rows[j], rows[i].email.value)
  }

  class AccountTable {
    var rows: map<Id, Account>
    var next: nat

    ghost predicate Valid()
      reads this
    {
      forall id :: id in rows ==> id < next
    }

    constructor ()
      ensures Valid() && rows == map[] && next == 1
    {
      rows := map[];
      next := 1;
    }

    /** `getById`: the account, or null. */
    function GetById(id: UserId): (r: Option<Account>)
      reads this
      ensures r.Some? <==> id >= 0 && id in rows
      ensures r.Some? ==> r.value == rows[id]
    {
      if id >= 0 && id in rows then Some(rows[id]) else None
    }

    /** `getByUid`: an account whose uid equals the given one up to case, or
        null. */
    function GetByUid(uid: string): (r: Option<Id>)
      requires Valid()
      reads this
      ensures r.Some? ==> r.value in rows && SameText(rows[r.value].uid, uid)
      ensures r.None? <==> forall k :: k in rows ==> !SameText(rows[k].uid, uid)
    {
      First(rows, next, (k: nat, a: Account) => SameText(a.uid, uid))
    }

    /** `getByEmail`: an account whose e-mail equals the given one up to
        case, or null. */
    function GetByEmail(email: string): (r: Option<Id>)
      requires Valid()
      reads this
      ensures r.Some? ==> r.value in rows && EmailIs(rows[r.value], email)
      ensures r.None? <==> forall k :: k in rows ==> !EmailIs(rows[k], email)
    {
      First(rows, next, (k: nat, a: Account) => EmailIs(a, email))
    }

    /** `create`: inserts the account and returns its new id. */
    method Create(uid: string, username: Option<string>, email: Option<string>,
                  password: Option<string>) returns (id: Id)
      requires Valid()
      modifies this
      ensures Valid() && id == old(next) && id !in old(rows) && next == old(next) + 1
      ensures rows == old(rows)[id := Account(uid, username, email, password)]
    {
      id := next;
      rows := rows[id := Account(uid, username, email, password)];
      next := next + 1;
    }

    /** `updateProfile`: overwrites both username and e-mail in one write
        (an omitted one becomes NULL); no row for the id means no change. */
    method UpdateProfile(id: UserId, username: Option<string>, email: Option<string>)
      requires Valid()
      modifies this
      ensures Valid() && next == old(next)
      ensures rows == if id >= 0 && id in old(rows)
                      then old(rows)[id := old(rows)[id].(username := username, email := email)]
                      else old(rows)
    {
      if id >= 0 && id in rows {
        rows := rows[id := rows[id].(username := username, email := email)];
      }
    }

    /** `searchUsers`: accounts whose username or e-mail is LIKE the term,
        never the excluded id, at most 20 of them; when fewer than 20 come
        back, every matching account is among them. */
    function SearchUsers(term: string, exclude: UserId): (r: seq<Id>)
      requires Valid()
      reads this
      ensures |r| <= SearchLimit
      ensures forall i :: 0 <= i < |r| ==> r[i] in rows && Matches(rows[r[i]], term) && r[i] != exclude
      ensures |r| < SearchLimit ==>
                forall k :: k in rows && Matches(rows[k], term) && k != exclude ==> k in r
      ensures NoDuplicates(r)
    {
      var all := Ids(rows, next, (k: nat, a: Account) => Matches(a, term) && k != exclude);
      var r := Take(all, SearchLimit);
      assert forall i :: 0 <= i < |r| ==> r[i] == all[i] && all[i] in all;
      r
    }
  }
}
