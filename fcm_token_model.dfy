/** The `fcm_token` table: push-notification tokens per account, at most one
    row per (account, token), of which at most one per account is active. */
module FcmTokenModel {
  import opened Common
  import opened Tables
  import opened Text

  /** updatedAt is the CURRENT_TIMESTAMP of the row's last insert or
      reactivation, given as a number of seconds. */
  datatype TokenRow = TokenRow(account: UserId, token: string, active: bool, updatedAt: int)

  predicate ActiveOf(r: TokenRow, account: UserId) {
    r.account == account && r.active
  }

  /** The active row of the account updated last (the newest id among equal
      times), over the ids below n. */
  function LatestActive(rows: map<Id, TokenRow>, n: nat, account: UserId): (r: Option<Id>)
    ensures r.Some? ==> r.value < n && r.value in rows && ActiveOf(rows[r.value], account)
    ensures r.Some? ==> forall k :: k < n && k in rows && ActiveOf(rows[k], account) ==>
                          rows[k].updatedAt <= rows[r.value].updatedAt
    ensures r.None? <==> forall k :: k < n && k in rows ==> !ActiveOf(rows[k], account)
    decreases n
  {
    if n == 0 then None
    else
      var prev := LatestActive(rows, n - 1, account);
      if n - 1 in rows && ActiveOf(rows[n - 1], account)
         && (prev.None? || rows[prev.value].updatedAt <= rows[n - 1].updatedAt)
      then Some(n - 1)
      else prev
  }

  /** Clears is_active on every row that matches. */
  function DeactivateWhere(rows: map<Id, TokenRow>, p: TokenRow -> bool): (r: map<Id, TokenRow>)
    ensures r.Keys == rows.Keys
    ensures forall k :: k in rows ==> r[k] == if p(rows[k]) then rows[k].(active := false) else rows[k]
  {
    map k | k in rows :: if p(rows[k]) then rows[k].(active := false) else rows[k]
  }

  /** The unique key (account_id, token). */
  predicate KeyUnique(rows: map<Id, TokenRow>) {
    forall i, j :: i in rows && j in rows && i != j ==>
      rows[i].account != rows[j].account || rows[i].token != rows[j].token
  }

  /** No account has two active rows. */
  predicate OneActive(rows: map<Id, TokenRow>) {
    forall i, j :: i in rows && j in rows && i != j && rows[i].active && rows[j].active ==>
      rows[i].account != rows[j].account
  }

  predicate Bounded(rows: map<Id, TokenRow>, n: nat) {
    forall id :: id in rows ==> id < n
  }

  /** The row holding (account, token), if any. */
  function FindKey(rows: map<Id, TokenRow>, n: nat, account: UserId, token: string): (r: Option<Id>)
    requires Bounded(rows, n)
    ensures r.Some? ==> r.value in rows && rows[r.value].account == account && rows[r.value].token == token
    ensures r.None? ==> forall k :: k in rows ==> rows[k].account != account || rows[k].token != token
  {
    First(rows, n, (k: nat, x: TokenRow) => x.account == account && x.token == token)
  }

  /** The table after `upsert(account, token)` at time now, where n is the
      next auto-increment id. */
  function Upserted(rows: map<Id, TokenRow>, n: nat, account: UserId, token: string, now: int)
    : map<Id, TokenRow>
    requires Bounded(rows, n)
  {
    var cleared := DeactivateWhere(rows, (x: TokenRow) => x.account == account);
    match FindKey(rows, n, account, token)
    case Some(k) => cleared[k := cleared[k].(active := true, updatedAt := now)]
    case None => cleared[n := TokenRow(account, token, true, now)]
  }

  /** After upsert the account's only active token is the one registered, it
      carries the new timestamp, the table keeps its key and at most one active
      row per account, and no other account's row changes. */
  lemma UpsertedSpec(rows: map<Id, TokenRow>, n: nat, account: UserId, token: string, now: int)
    requires Bounded(rows, n) && KeyUnique(rows) && OneActive(rows)
    ensures var r := Upserted(rows, n, account, token, now);
      && KeyUnique(r) && OneActive(r)
      && (exists k :: k in r && r[k] == TokenRow(account, token, true, now))
      && (forall k :: k in r && r[k].account == account ==> (r[k].active <==> r[k].token == token))
      && (forall k :: k in rows && rows[k].account != account ==> k in r && r[k] == rows[k])
      && rows.Keys <= r.Keys
  {
    var cleared := DeactivateWhere(rows, (x: TokenRow) => x.account == account);
    ClearedSpec(rows, cleared, account);
    var entry := TokenRow(account, token, true, now);
    match FindKey(rows, n, account, token)
    case Some(k) =>
      SetActive(rows, cleared, account, k, entry);
    case None =>
      assert n !in rows;
      SetActive(rows, cleared, account, n, entry);
  }

  /** Clearing the account's rows keeps the key and leaves it no active row. */
  lemma ClearedSpec(rows: map<Id, TokenRow>, cleared: map<Id, TokenRow>, account: UserId)
    requires KeyUnique(rows) && OneActive(rows)
    requires cleared == DeactivateWhere(rows, (x: TokenRow) => x.account == account)
    ensures cleared.Keys == rows.Keys && KeyUnique(cleared) && OneActive(cleared)
    ensures forall k :: k in cleared ==> cleared[k].account == rows[k].account && cleared[k].token == rows[k].token
    ensures forall k :: k in cleared && cleared[k].account == account ==> !cleared[k].active
    ensures forall k :: k in rows && rows[k].account != account ==> cleared[k] == rows[k]
  {
  }

  /** Writing the account's one active row at k, where k holds the same
      (account, token) or is a new id, into a table where the account has no
      active row. */
  lemma SetActive(rows: map<Id, TokenRow>, cleared: map<Id, TokenRow>, account: UserId, k: Id, entry: TokenRow)
    requires cleared.Keys == rows.Keys && KeyUnique(cleared) && OneActive(cleared)
    requires forall j :: j in cleared && cleared[j].account == account ==> !cleared[j].active
    requires forall j :: j in rows && rows[j].account != account ==> cleared[j] == rows[j]
    requires entry.account == account && entry.active
    requires k in cleared ==> cleared[k].account == account && cleared[k].token == entry.token
    requires k !in cleared ==> forall j :: j in cleared ==> cleared[j].account != account || cleared[j].token != entry.token
    ensures var r := cleared[k := entry];
      && KeyUnique(r) && OneActive(r)
      && k in r && r[k] == entry
      && (forall j :: j in r && r[j].account == account ==> (r[j].active <==> r[j].token == entry.token))
      && (forall j :: j in rows && rows[j].account != account ==> j in r && r[j] == rows[j])
      && rows.Keys <= r.Keys
  {
    var r := cleared[k := entry];
    forall j | j in r && r[j].account == account ensures r[j].active <==> r[j].token == entry.token {
      if j != k {
        assert cleared[j].account != account || cleared[j].token != entry.token;
      }
    }
  }

  class TokenTable {
    var rows: map<Id, TokenRow>
    var next: nat

    ghost predicate Valid()
      reads this
    {
      Bounded(rows, next) && KeyUnique(rows) && OneActive(rows)
    }

    constructor ()
      ensures Valid() && rows == map[] && next == 1
    {
      rows := map[];
      next := 1;
    }

    /** `upsert`: deactivates all of the account's tokens, then inserts the
        token active, or reactivates its existing row with a new timestamp. */
    method Upsert(account: UserId, token: string, now: int)
      requires Valid()
      modifies this
      ensures Valid()
      ensures rows == Upserted(old(rows), old(next), account, token, now)
      ensures next == if FindKey(old(rows), old(next), account, token).Some? then old(next) else old(next) + 1
    {
      UpsertedSpec(rows, next, account, token, now);
      var found := FindKey(rows, next, account, token);
      rows := Upserted(rows, next, account, token, now);
      if found.None? {
        next := next + 1;
      }
    }

    /** `getActiveToken`: the account's most recently updated active token;
        an empty token reads as none (`|| null`). */
    function ActiveToken(account: UserId): (r: Option<string>)
      requires Valid()
      reads this
      ensures r.Some? ==> r.value != "" && exists k :: k in rows && ActiveOf(rows[k], account) && rows[k].token == r.value
      ensures r.None? ==> forall k :: k in rows && ActiveOf(rows[k], account) ==> rows[k].token == ""
    {
      var latest := LatestActive(rows, next, account);
      if latest.None? then None
      else
        var tok := rows[latest.value].token;
        if tok == "" then None else Some(tok)
    }

    /** `deactivateToken`: every row holding the token becomes inactive,
        whichever account it belongs to; nothing else changes. */
    method DeactivateToken(token: string)
      requires Valid()
      modifies this
      ensures Valid() && next == old(next)
      ensures rows == DeactivateWhere(old(rows), (x: TokenRow) => x.token == token)
    {
      rows := DeactivateWhere(rows, (x: TokenRow) => x.token == token);
    }

    /** `deactivateAllTokens`: the account keeps no active token; other
        accounts' rows are unchanged. */
    method DeactivateAllTokens(account: UserId)
      requires Valid()
      modifies this
      ensures Valid() && next == old(next)
      ensures rows == DeactivateWhere(old(rows), (x: TokenRow) => x.account == account)
      ensures ActiveToken(account).None?
    {
      rows := DeactivateWhere(rows, (x: TokenRow) => x.account == account);
    }

    /** The token of every active row, in id order. */
    function ActiveTokenList(): (r: seq<string>)
      requires Valid()
      reads this
      ensures forall x :: x in r <==> exists k :: k in rows && rows[k].active && rows[k].token == x
    {
      var ids := Ids(rows, next, (k: nat, x: TokenRow) => x.active);
      Column(rows, ids, (k: nat, x: TokenRow) => x.token)
    }

    /** `getAllActiveTokens`: each active token once (SELECT DISTINCT). */
    function AllActiveTokens(): (r: seq<string>)
      requires Valid()
      reads this
      ensures forall x :: x in r <==> exists k :: k in rows && rows[k].active && rows[k].token == x
      ensures NoDuplicates(r)
    {
      Dedup(ActiveTokenList())
    }
  }
}
