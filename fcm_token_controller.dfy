/** The two token endpoints: register the caller's device token, and
    deactivate it, but only when it is the caller's current token. */
module FcmTokenController {
  import opened Common
  import opened FcmTokenModel

  /** `registerToken`: a token is required; then it becomes the caller's
      only active token. */
  method RegisterToken(t: TokenTable, caller: UserId, token: Option<string>, now: int)
    returns (o: Outcome)
    requires t.Valid()
    modifies t
    ensures t.Valid()
    ensures o == BadRequest <==> !TextGiven(token)
    ensures o == Ok <==> TextGiven(token)
    ensures o != Ok ==> t.rows == old(t.rows) && t.next == old(t.next)
    ensures o == Ok ==> t.rows == Upserted(old(t.rows), old(t.next), caller, token.value, now)
    ensures o == Ok ==> t.ActiveToken(caller) == token
  {
    if !TextGiven(token) {
      return BadRequest;
    }
    UpsertedSpec(t.rows, t.next, caller, token.value, now);
    t.Upsert(caller, token.value, now);
    var k :| k in t.rows && t.rows[k] == TokenRow(caller, token.value, true, now);
    assert ActiveOf(t.rows[k], caller);
    return Ok;
  }

  /** `deactivateToken`: a token is required and must be the caller's
      current active token; then every row holding it is deactivated, so
      the caller is left with no active token. */
  method DeactivateToken(t: TokenTable, caller: UserId, token: Option<string>)
    returns (o: Outcome)
    requires t.Valid()
    modifies t
    ensures t.Valid() && t.next == old(t.next)
    ensures o == Ok <==> TextGiven(token) && old(t.ActiveToken(caller)) == token
    ensures o != Ok ==> o == BadRequest && t.rows == old(t.rows)
    ensures o == Ok ==> t.rows == DeactivateWhere(old(t.rows), (x: TokenRow) => x.token == token.value)
    ensures o == Ok ==> t.ActiveToken(caller).None?
  {
    if !TextGiven(token) {
      return BadRequest;
    }
    var active := t.ActiveToken(caller);
    if active != token {
      return BadRequest;
    }
    ghost var k :| k in t.rows && ActiveOf(t.rows[k], caller) && t.rows[k].token == token.value;
    t.DeactivateToken(token.value);
    assert forall j :: j in t.rows && j != k ==> !ActiveOf(t.rows[j], caller);
    return Ok;
  }
}
