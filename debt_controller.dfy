/** The debt handlers: each checks its inputs, who the caller is and the state
    of the debt, answers with an HTTP outcome, and writes only on success.
    Also the post-processing of the full reports' e-mail lists. */
module DebtController {
  import opened Common
  import opened Tables
  import opened Text
  import opened Js
  import opened AccountModel
  import opened DebtModel

  // ------------------------------------------------------------ invariants

  /** Paid and the payment confirmed by the creditor. */
  predicate Settled(d: Debt) {
    d.paid == Paid && d.payment == Confirmed
  }

  /** What every handler keeps between the old and the new version of a row:
      the parties and creation time never change, an accepted or rejected
      debt stays so, a paid debt stays paid, a settled debt keeps its terms,
      its proof and its settlement, and the amount stays positive. */
  predicate Evolves(a: Debt, b: Debt) {
    && b.creditor == a.creditor && b.debtor == a.debtor && b.createdAt == a.createdAt
    && (a.confirm != Pending ==> b.confirm == a.confirm)
    && (a.paid == Paid ==> b.paid == Paid)
    && (Settled(a) ==> Settled(b) && b.amount == a.amount && b.note == a.note
                       && b.due == a.due && b.proof == a.proof)
    && (a.amount > 0.0 ==> b.amount > 0.0)
  }

  /** Every row that survives a call has evolved from its old version, and
      every row has a positive amount if every row had one before. */
  predicate TableEvolves(before: map<Id, Debt>, after: map<Id, Debt>) {
    && (forall k :: k in after && k in before ==> Evolves(before[k], after[k]))
    && ((forall k :: k in before ==> before[k].amount > 0.0) ==>
        (forall k :: k in after ==> after[k].amount > 0.0))
  }

  /** Evolves is a preorder, so it holds across any sequence of handler calls. */
  lemma EvolvesTransitive(a: Debt, b: Debt, c: Debt)
    requires Evolves(a, b) && Evolves(b, c)
    ensures Evolves(a, c)
  {
  }

  /** Adding a row with a positive amount under a new key evolves the table. */
  lemma InsertEvolves(before: map<Id, Debt>, k: Id, d: Debt)
    requires k !in before && d.amount > 0.0
    ensures TableEvolves(before, before[k := d])
  {
    var after := before[k := d];
    forall j | j in after && j in before ensures Evolves(before[j], after[j]) {
      assert after[j] == before[j];
    }
  }

  // -------------------------------------------------------------- handlers

  /** The 400 cases of createDebt: a party or the amount missing (`!x`), an
      amount for which `isNaN(x) || parseFloat(x) <= 0` holds, or a due date
      that does not parse. */
  predicate CreateRejected(creditor: Value, debtor: Value, amount: Value, due: DateInput) {
    !Truthy(creditor) || !Truthy(debtor) || !Truthy(amount)
    || IsNaN(amount) || FloatAtMost(amount, 0.0) || Malformed(due)
  }

  /** `createDebt`: fields required, amount a positive number, a due date that
      parses, and the caller strictly equal (`!==`) to one of the two party
      fields; then one insert of the ids as sent and of `parseFloat(amount)`,
      which the database refuses (500) when an id is not a whole number or
      the amount is NaN. */
  method CreateDebt(t: DebtTable, caller: UserId, creditor: Value, debtor: Value,
                    amount: Value, note: Option<string>, due: DateInput, now: Date)
    returns (o: Outcome, id: Option<Id>)
    requires t.Valid()
    modifies t
    ensures t.Valid()
    ensures o == BadRequest <==> CreateRejected(creditor, debtor, amount, due)
    ensures o == Forbidden <==> !CreateRejected(creditor, debtor, amount, due)
                                && !SameNumber(creditor, caller) && !SameNumber(debtor, caller)
    ensures o == ServerError <==> !CreateRejected(creditor, debtor, amount, due)
                                  && (SameNumber(creditor, caller) || SameNumber(debtor, caller))
                                  && (IdValue(creditor).None? || IdValue(debtor).None? || ParseFloat(amount).None?)
    ensures o == Ok <==> o != BadRequest && o != Forbidden && o != ServerError
    ensures o != Ok ==> t.rows == old(t.rows) && t.next == old(t.next) && id.None?
    ensures o == Ok ==> id == Some(old(t.next)) && t.next == old(t.next) + 1
    ensures o == Ok ==> t.rows == old(t.rows)[old(t.next) :=
              NewDebt(IdValue(creditor).value, IdValue(debtor).value, ParseFloat(amount).value, note, due, now)]
    ensures o == Ok ==> t.rows[id.value].amount > 0.0 && Involves(t.rows[id.value], caller)
    ensures TableEvolves(old(t.rows), t.rows)
  {
    id := None;
    o := CreateOutcome(caller, creditor, debtor, amount, due);
    if o == Ok {
      var c, d, m := IdValue(creditor).value, IdValue(debtor).value, ParseFloat(amount).value;
      ghost var before := t.rows;
      var newId := t.Create(c, d, m, note, due, now);
      InsertEvolves(before, newId, t.rows[newId]);
      id := Some(newId);
    }
  }

  /** The answer createDebt gives before any write, in the order of its
      checks: the 400 guards, the 403 of `!==`, then the 500 of an insert the
      database refuses. */
  function CreateOutcome(caller: UserId, creditor: Value, debtor: Value, amount: Value, due: DateInput): (o: Outcome)
    ensures o == Ok ==> ParseFloat(amount).Some? && ParseFloat(amount).value > 0.0
    ensures o == Ok ==> IdValue(creditor).Some? && IdValue(debtor).Some?
                        && (IdValue(creditor).value == caller || IdValue(debtor).value == caller)
  {
    if !Truthy(creditor) || !Truthy(debtor) || !Truthy(amount) then BadRequest
    else if IsNaN(amount) || FloatAtMost(amount, 0.0) then BadRequest
    else if Malformed(due) then BadRequest
    else if !SameNumber(creditor, caller) && !SameNumber(debtor, caller) then Forbidden
    else if IdValue(creditor).None? || IdValue(debtor).None? || ParseFloat(amount).None? then ServerError
    else
      WholeCaller(caller);
      Ok
  }

  /** The caller's id, bound as a number, is stored as itself. */
  lemma WholeCaller(caller: UserId)
    ensures IdValue(Num(caller as real)) == Some(caller)
  {
    assert (caller as real).Floor == caller;
  }

  /** `reportPayment`: proof required, the debt must exist, only the debtor,
      and not already paid. The acceptance status is not consulted. */
  method ReportPayment(t: DebtTable, accounts: AccountTable, caller: UserId, id: Id, proof: Option<string>)
    returns (o: Outcome)
    requires t.Valid()
    modifies t
    ensures t.Valid() && t.next == old(t.next)
    ensures o == BadRequest <==> !TextGiven(proof) || (Found(old(t.rows), accounts.rows, id) && old(t.rows)[id].debtor == caller
                                                       && old(t.rows)[id].paid == Paid)
    ensures o == NotFound <==> TextGiven(proof) && !Found(old(t.rows), accounts.rows, id)
    ensures o == Forbidden <==> TextGiven(proof) && Found(old(t.rows), accounts.rows, id) && old(t.rows)[id].debtor != caller
    ensures o == Ok <==> TextGiven(proof) && Found(old(t.rows), accounts.rows, id) && old(t.rows)[id].debtor == caller
                         && old(t.rows)[id].paid == Unpaid
    ensures o != Ok ==> t.rows == old(t.rows)
    ensures o == Ok ==> t.rows == old(t.rows)[id := old(t.rows)[id].(paid := Paid, payment := Unconfirmed,
                                                                    proof := proof)]
    ensures TableEvolves(old(t.rows), t.rows)
  {
    if !TextGiven(proof) {
      return BadRequest;
    }
    var d := t.GetById(id, accounts.rows);
    if d.None? {
      return NotFound;
    }
    if d.value.debtor != caller {
      return Forbidden;
    }
    if d.value.paid == Paid {
      return BadRequest;
    }
    t.ReportPayment(id, proof.value);
    return Ok;
  }

  /** `confirmDebt`: only the debtor, and only while pending. */
  method ConfirmDebt(t: DebtTable, accounts: AccountTable, caller: UserId, id: Id) returns (o: Outcome)
    requires t.Valid()
    modifies t
    ensures t.Valid() && t.next == old(t.next)
    ensures o == NotFound <==> !Found(old(t.rows), accounts.rows, id)
    ensures o == Forbidden <==> Found(old(t.rows), accounts.rows, id) && old(t.rows)[id].debtor != caller
    ensures o == BadRequest <==> Found(old(t.rows), accounts.rows, id) && old(t.rows)[id].debtor == caller
                                 && old(t.rows)[id].confirm != Pending
    ensures o == Ok <==> Found(old(t.rows), accounts.rows, id) && old(t.rows)[id].debtor == caller
                         && old(t.rows)[id].confirm == Pending
    ensures o != Ok ==> t.rows == old(t.rows)
    ensures o == Ok ==> t.rows == old(t.rows)[id := old(t.rows)[id].(confirm := Accepted)]
    ensures TableEvolves(old(t.rows), t.rows)
  {
    var d := t.GetById(id, accounts.rows);
    if d.None? {
      return NotFound;
    }
    if d.value.debtor != caller {
      return Forbidden;
    }
    if d.value.confirm != Pending {
      return BadRequest;
    }
    t.ConfirmDebt(id);
    return Ok;
  }

  /** `confirmPayment`: only the creditor, and only while the payment is
      unconfirmed, whatever the paid and acceptance statuses are. */
  method ConfirmPayment(t: DebtTable, accounts: AccountTable, caller: UserId, id: Id) returns (o: Outcome)
    requires t.Valid()
    modifies t
    ensures t.Valid() && t.next == old(t.next)
    ensures o == NotFound <==> !Found(old(t.rows), accounts.rows, id)
    ensures o == Forbidden <==> Found(old(t.rows), accounts.rows, id) && old(t.rows)[id].creditor != caller
    ensures o == BadRequest <==> Found(old(t.rows), accounts.rows, id) && old(t.rows)[id].creditor == caller
                                 && old(t.rows)[id].payment == Confirmed
    ensures o == Ok <==> Found(old(t.rows), accounts.rows, id) && old(t.rows)[id].creditor == caller
                         && old(t.rows)[id].payment == Unconfirmed
    ensures o != Ok ==> t.rows == old(t.rows)
    ensures o == Ok ==> t.rows == old(t.rows)[id := old(t.rows)[id].(payment := Confirmed)]
    ensures TableEvolves(old(t.rows), t.rows)
  {
    var d := t.GetById(id, accounts.rows);
    if d.None? {
      return NotFound;
    }
    if d.value.creditor != caller {
      return Forbidden;
    }
    if d.value.payment != Unconfirmed {
      return BadRequest;
    }
    t.ConfirmPayment(id);
    return Ok;
  }

  /** `rejectDebt`: only the creditor, and only while pending. */
  method RejectDebt(t: DebtTable, accounts: AccountTable, caller: UserId, id: Id) returns (o: Outcome)
    requires t.Valid()
    modifies t
    ensures t.Valid() && t.next == old(t.next)
    ensures o == NotFound <==> !Found(old(t.rows), accounts.rows, id)
    ensures o == Forbidden <==> Found(old(t.rows), accounts.rows, id) && old(t.rows)[id].creditor != caller
    ensures o == BadRequest <==> Found(old(t.rows), accounts.rows, id) && old(t.rows)[id].creditor == caller
                                 && old(t.rows)[id].confirm != Pending
    ensures o == Ok <==> Found(old(t.rows), accounts.rows, id) && old(t.rows)[id].creditor == caller
                         && old(t.rows)[id].confirm == Pending
    ensures o != Ok ==> t.rows == old(t.rows)
    ensures o == Ok ==> t.rows == old(t.rows)[id := old(t.rows)[id].(confirm := Rejected)]
    ensures TableEvolves(old(t.rows), t.rows)
  {
    var d := t.GetById(id, accounts.rows);
    if d.None? {
      return NotFound;
    }
    if d.value.creditor != caller {
      return Forbidden;
    }
    if d.value.confirm != Pending {
      return BadRequest;
    }
    t.RejectDebt(id);
    return Ok;
  }

  /** `deleteDebt`: no check of the caller or of the debt's state. */
  method DeleteDebt(t: DebtTable, id: Id) returns (o: Outcome)
    requires t.Valid()
    modifies t
    ensures t.Valid() && t.next == old(t.next)
    ensures o == Ok
    ensures t.rows == old(t.rows) - {id}
    ensures TableEvolves(old(t.rows), t.rows)
  {
    t.Delete(id);
    return Ok;
  }

  /** The 400 cases of updateDebt that precede the lookup: the amount
      missing, NaN or not above zero, or a due date that does not parse. */
  predicate UpdateRejected(amount: Value, due: DateInput) {
    !Truthy(amount) || IsNaN(amount) || FloatAtMost(amount, 0.0) || Malformed(due)
  }

  /** `updateDebt`: a positive amount, a due date that parses, a debt
      getById finds, a party as caller, and a payment not yet confirmed;
      then `parseFloat(amount)` is written, which the database refuses (500)
      when it is NaN. */
  method UpdateDebt(t: DebtTable, accounts: AccountTable, caller: UserId, id: Id, amount: Value,
                    note: Option<string>, due: DateInput) returns (o: Outcome)
    requires t.Valid()
    modifies t
    ensures t.Valid() && t.next == old(t.next)
    ensures o == NotFound <==> !UpdateRejected(amount, due) && !Found(old(t.rows), accounts.rows, id)
    ensures o == Forbidden <==> !UpdateRejected(amount, due) && Found(old(t.rows), accounts.rows, id)
                                && !Involves(old(t.rows)[id], caller)
    ensures o == ServerError <==> !UpdateRejected(amount, due) && Found(old(t.rows), accounts.rows, id)
                                  && Involves(old(t.rows)[id], caller) && old(t.rows)[id].payment == Unconfirmed
                                  && ParseFloat(amount).None?
    ensures o == Ok <==> !UpdateRejected(amount, due) && Found(old(t.rows), accounts.rows, id)
                         && Involves(old(t.rows)[id], caller) && old(t.rows)[id].payment == Unconfirmed
                         && ParseFloat(amount).Some?
    ensures o == BadRequest <==> o != NotFound && o != Forbidden && o != ServerError && o != Ok
    ensures o != Ok ==> t.rows == old(t.rows)
    ensures o == Ok ==> t.rows == old(t.rows)[id := old(t.rows)[id].(amount := ParseFloat(amount).value,
                                   note := TextOrNull(note), due := DateOrNull(due))]
    ensures TableEvolves(old(t.rows), t.rows)
  {
    if !Truthy(amount) {
      return BadRequest;
    }
    if IsNaN(amount) || FloatAtMost(amount, 0.0) {
      return BadRequest;
    }
    if Malformed(due) {
      return BadRequest;
    }
    var d := t.GetById(id, accounts.rows);
    if d.None? {
      return NotFound;
    }
    if d.value.creditor != caller && d.value.debtor != caller {
      return Forbidden;
    }
    if d.value.payment == Confirmed {
      return BadRequest;
    }
    var m := ParseFloat(amount);
    if m.None? {
      return ServerError;
    }
    t.Update(id, m.value, note, due);
    return Ok;
  }

  /** The amount test lets through values the write then refuses: blank text
      is 0 to isNaN and NaN to parseFloat. */
  lemma BlankAmountFails()
    ensures !UpdateRejected(Str("  "), NoDate) && ParseFloat(Str("  ")).None?
  {
    NumberAndParseFloatDiffer();
  }

  // ------------------------------------------------ lifecycle consequences

  /** A second confirmPayment on the same debt is refused and changes nothing. */
  method ConfirmPaymentTwice(t: DebtTable, accounts: AccountTable, caller: UserId, id: Id)
    returns (first: Outcome, second: Outcome)
    requires t.Valid()
    modifies t
    ensures first == Ok ==> second == BadRequest
    ensures first == Ok ==> Found(old(t.rows), accounts.rows, id)
                            && t.rows == old(t.rows)[id := old(t.rows)[id].(payment := Confirmed)]
  {
    first := ConfirmPayment(t, accounts, caller, id);
    second := ConfirmPayment(t, accounts, caller, id);
  }

  /** A settled debt stays settled through any handler: reportPayment,
      confirmPayment and updateDebt all refuse it. */
  method SettledIsFinal(t: DebtTable, accounts: AccountTable, caller: UserId, id: Id, proof: Option<string>,
                        amount: Value, note: Option<string>, due: DateInput)
    returns (report: Outcome, confirm: Outcome, update: Outcome)
    requires t.Valid() && id in t.rows && Settled(t.rows[id])
    modifies t
    ensures report != Ok && confirm != Ok && update != Ok
    ensures t.rows == old(t.rows)
  {
    report := ReportPayment(t, accounts, caller, id, proof);
    confirm := ConfirmPayment(t, accounts, caller, id);
    update := UpdateDebt(t, accounts, caller, id, amount, note, due);
  }

  /** An account table holding users 1 and 2. */
  method TwoAccounts() returns (a: AccountTable)
    ensures fresh(a) && a.Valid() && a.rows.Keys == {1, 2}
  {
    a := new AccountTable();
    var one := a.Create("u1", None, None, None);
    var two := a.Create("u2", None, None, None);
  }

  /** The code does not make a confirmed payment imply a paid, accepted debt:
      a creditor may confirm payment of a debt that was never reported paid
      nor accepted by the debtor. */
  method ConfirmedWithoutPayment() returns (d: Debt)
    ensures d.payment == Confirmed && d.paid == Unpaid && d.confirm == Pending
  {
    var t := new DebtTable();
    var accounts := TwoAccounts();
    var now := Date(2024, 1, 1, 0);
    var o, id := CreateDebt(t, 1, Num(1.0), Num(2.0), Num(100.0), None, NoDate, now);
    var o2 := ConfirmPayment(t, accounts, 1, id.value);
    assert o2 == Ok;
    d := t.rows[id.value];
  }

  /** A rejected debt can still be paid and the payment confirmed. */
  method RejectedYetSettled() returns (d: Debt)
    ensures d.confirm == Rejected && Settled(d)
  {
    var t := new DebtTable();
    var accounts := TwoAccounts();
    var now := Date(2024, 1, 1, 0);
    var o, id := CreateDebt(t, 1, Num(1.0), Num(2.0), Num(50.0), None, NoDate, now);
    var o2 := RejectDebt(t, accounts, 1, id.value);
    var o3 := ReportPayment(t, accounts, 2, id.value, Some("proof.png"));
    var o4 := ConfirmPayment(t, accounts, 1, id.value);
    assert o4 == Ok;
    d := t.rows[id.value];
  }

  /** A payment confirmed before it was reported is reset to unconfirmed by a
      later report, so "confirmed" does not last unless the debt is paid. */
  method ConfirmationReset() returns (before: Debt, after: Debt)
    ensures before.payment == Confirmed && before.paid == Unpaid
    ensures after.payment == Unconfirmed && after.paid == Paid
  {
    var t := new DebtTable();
    var accounts := TwoAccounts();
    var now := Date(2024, 1, 1, 0);
    var o, id := CreateDebt(t, 1, Num(1.0), Num(2.0), Num(10.0), None, NoDate, now);
    var o2 := ConfirmPayment(t, accounts, 1, id.value);
    before := t.rows[id.value];
    var o3 := ReportPayment(t, accounts, 2, id.value, Some("proof.png"));
    assert o3 == Ok;
    after := t.rows[id.value];
  }

  /** Nothing checks that the other party exists: a debt with an unknown
      debtor is created, but every later lookup misses it, so no handler can
      act on it. A debtor id sent as a string is stored as its number. */
  method DanglingDebtUnreachable() returns (created: Outcome, confirm: Outcome, stringId: Outcome)
    ensures created == Ok && confirm == NotFound && stringId == Ok
  {
    var t := new DebtTable();
    var accounts := TwoAccounts();
    var now := Date(2024, 1, 1, 0);
    var id;
    created, id := CreateDebt(t, 1, Num(1.0), Num(999.0), Num(5.0), None, NoDate, now);
    confirm := ConfirmPayment(t, accounts, 1, id.value);
    DecimalTextReadsBack(2);
    assert DecimalText(2) == "2";
    stringId, id := CreateDebt(t, 1, Num(1.0), Str("2"), Num(5.0), None, NoDate, now);
  }

  // ------------------------------------------------------- report post-processing

  /** A GROUP_CONCAT list of e-mail addresses turned into an array: split on
      ", ", blank entries dropped, duplicates removed keeping the first. A
      NULL or empty column gives the empty array. */
  function EmailList(column: Option<string>): (r: seq<string>)
    ensures forall e :: e in r <==> TextGiven(column) && e in Split(column.value) && NonBlank(e)
    ensures NoDuplicates(r)
  {
    if TextGiven(column) then Dedup(Filter(Split(column.value), NonBlank)) else []
  }

  /** The list grows as a JavaScript Set does: appending an address already
      listed, or a blank one, changes nothing; a new one goes to the end. */
  lemma EmailListAppend(column: string, e: string)
    requires column != "" && Split(e) == [e]
    ensures EmailList(Some(column + Sep + e)) ==
            if !NonBlank(e) || e in EmailList(Some(column)) then EmailList(Some(column))
            else EmailList(Some(column)) + [e]
  {
    SplitAppend(column, e);
    var parts := Split(column);
    assert Split(column + Sep + e) == parts + [e];
    FilterSnoc(parts, e, NonBlank);
    var f := Filter(parts, NonBlank);
    if NonBlank(e) {
      DedupSnoc(f, e);
      assert e in f <==> e in parts;
    }
  }

  /** The row a full-report query returns; every column may be NULL, and a
      report with no row reads as all NULL (`rows[0] || {}`). */
  datatype ReportRow = ReportRow(totalPaid: Option<real>, totalUnpaid: Option<real>,
                                 unpaidEmails: Option<string>, overdueEmails: Option<string>)

  datatype CreditorReport = CreditorReport(totalPaid: Money, totalUnpaid: Money,
                                           unpaidEmails: seq<string>, overdueEmails: seq<string>)

  datatype DebtorReport = DebtorReport(totalUnpaid: Money,
                                       unpaidEmails: seq<string>, overdueEmails: seq<string>)

  function RowOrEmpty(row: Option<ReportRow>): ReportRow {
    row.GetOr(ReportRow(None, None, None, None))
  }

  /** `getCreditorFullReport`'s response: missing totals read as 0 and both
      e-mail lists cleaned as EmailList does. */
  function CreditorFullReport(row: Option<ReportRow>): (r: CreditorReport)
    ensures row.None? ==> r == CreditorReport(0.0, 0.0, [], [])
    ensures r.totalPaid == OrZero(RowOrEmpty(row).totalPaid)
    ensures r.totalUnpaid == OrZero(RowOrEmpty(row).totalUnpaid)
    ensures r.unpaidEmails == EmailList(RowOrEmpty(row).unpaidEmails)
    ensures r.overdueEmails == EmailList(RowOrEmpty(row).overdueEmails)
  {
    var x := RowOrEmpty(row);
    CreditorReport(OrZero(x.totalPaid), OrZero(x.totalUnpaid),
                   EmailList(x.unpaidEmails), EmailList(x.overdueEmails))
  }

  /** `getDebtorFullReport`'s response, the same cleaning without the paid total. */
  function DebtorFullReport(row: Option<ReportRow>): (r: DebtorReport)
    ensures row.None? ==> r == DebtorReport(0.0, [], [])
    ensures r.totalUnpaid == OrZero(RowOrEmpty(row).totalUnpaid)
    ensures r.unpaidEmails == EmailList(RowOrEmpty(row).unpaidEmails)
    ensures r.overdueEmails == EmailList(RowOrEmpty(row).overdueEmails)
  {
    var x := RowOrEmpty(row);
    DebtorReport(OrZero(x.totalUnpaid), EmailList(x.unpaidEmails), EmailList(x.overdueEmails))
  }
}
