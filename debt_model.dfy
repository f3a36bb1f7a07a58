/** The `debt` table: one row per loan between a creditor and a debtor, with
    three independent status columns, and the queries that list a user's debts. */
module DebtModel {
  import opened Common
  import opened Tables
  import opened AccountModel

  datatype ConfirmStatus = Pending | Accepted | Rejected
  datatype PaidStatus = Unpaid | Paid
  datatype PaymentConfirm = Unconfirmed | Confirmed

  datatype Debt = Debt(
    creditor: UserId,
    debtor: UserId,
    amount: Money,
    note: Option<string>,
    due: Option<Date>,
    confirm: ConfirmStatus,
    paid: PaidStatus,
    payment: PaymentConfirm,
    proof: Option<string>,
    createdAt: Date)

  /** The user is on one side of the debt (`creditor_id = ? OR debtor_id = ?`). */
  predicate Involves(d: Debt, user: UserId) {
    d.creditor == user || d.debtor == user
  }

  /** The inner JOINs of every read query on the account table, once for the
      creditor and once for the debtor: a debt one of whose parties has no
      account row is never returned. */
  predicate Joined(d: Debt, accounts: map<Id, Account>) {
    d.creditor in accounts && d.debtor in accounts
  }

  /** getById returns the row: it exists and both its parties have accounts. */
  predicate Found(rows: map<Id, Debt>, accounts: map<Id, Account>, id: Id) {
    id in rows && Joined(rows[id], accounts)
  }

  /** The row `create` inserts: the three statuses start at pending, unpaid and
      unconfirmed, and an absent note or due date is stored as NULL. */
  function NewDebt(creditor: UserId, debtor: UserId, amount: Money,
                   note: Option<string>, due: DateInput, now: Date): (d: Debt)
    ensures d.confirm == Pending && d.paid == Unpaid && d.payment == Unconfirmed
    ensures d.proof == None && d.createdAt == now
    ensures d.creditor == creditor && d.debtor == debtor && d.amount == amount
    ensures d.note == TextOrNull(note) && d.due == DateOrNull(due)
  {
    Debt(creditor, debtor, amount, TextOrNull(note), DateOrNull(due),
         Pending, Unpaid, Unconfirmed, None, now)
  }

  class DebtTable {
    var rows: map<Id, Debt>
    var next: nat

    ghost predicate Valid()
      reads this
    {
      forall id :: id in rows ==> id < next
    }

    constructor ()
      ensures Valid() && rows == map[] && next == 1
    {
      rows := map[];
      next := 1;
    }

    /** `create`: inserts the row and returns its new id. */
    method Create(creditor: UserId, debtor: UserId, amount: Money,
                  note: Option<string>, due: DateInput, now: Date) returns (id: Id)
      requires Valid()
      modifies this
      ensures Valid()
      ensures id == old(next) && id !in old(rows) && next == old(next) + 1
      ensures rows == old(rows)[id := NewDebt(creditor, debtor, amount, note, due, now)]
    {
      id := next;
      rows := rows[id := NewDebt(creditor, debtor, amount, note, due, now)];
      next := next + 1;
    }

    /** `getById`: the row, or nothing (an empty result set) when there is
        no such row or one of its parties has no account. */
    function GetById(id: Id, accounts: map<Id, Account>): (r: Option<Debt>)
      reads this
      ensures r.Some? <==> Found(rows, accounts, id)
      ensures r.Some? ==> r.value == rows[id]
    {
      if id in rows && Joined(rows[id], accounts) then Some(rows[id]) else None
    }

    /** `reportPayment`: writes paid, unconfirmed and the proof, nothing else. */
    method ReportPayment(id: Id, proof: string)
      requires Valid()
      modifies this
      ensures Valid() && next == old(next)
      ensures rows == if id in old(rows)
                      then old(rows)[id := old(rows)[id].(paid := Paid, payment := Unconfirmed, proof := Some(proof))]
                      else old(rows)
    {
      if id in rows {
        rows := rows[id := rows[id].(paid := Paid, payment := Unconfirmed, proof := Some(proof))];
      }
    }

    /** `confirmDebt`: writes debt_confirm_status = accepted only. */
    method ConfirmDebt(id: Id)
      requires Valid()
      modifies this
      ensures Valid() && next == old(next)
      ensures rows == if id in old(rows) then old(rows)[id := old(rows)[id].(confirm := Accepted)] else old(rows)
    {
      if id in rows {
        rows := rows[id := rows[id].(confirm := Accepted)];
      }
    }

    /** `confirmPayment`: writes payment_confirm_status = confirmed only. */
    method ConfirmPayment(id: Id)
      requires Valid()
      modifies this
      ensures Valid() && next == old(next)
      ensures rows == if id in old(rows) then old(rows)[id := old(rows)[id].(payment := Confirmed)] else old(rows)
    {
      if id in rows {
        rows := rows[id := rows[id].(payment := Confirmed)];
      }
    }

    /** `rejectDebt`: writes debt_confirm_status = rejected only. */
    method RejectDebt(id: Id)
      requires Valid()
      modifies this
      ensures Valid() && next == old(next)
      ensures rows == if id in old(rows) then old(rows)[id := old(rows)[id].(confirm := Rejected)] else old(rows)
    {
      if id in rows {
        rows := rows[id := rows[id].(confirm := Rejected)];
      }
    }

    /** `delete`: removes the row with that id and no other. */
    method Delete(id: Id)
      requires Valid()
      modifies this
      ensures Valid() && next == old(next)
      ensures rows == old(rows) - {id}
    {
      rows := rows - {id};
    }

    /** `update`: overwrites amount, note and due date (absent ones become
        NULL) and leaves the status columns alone. */
    method Update(id: Id, amount: Money, note: Option<string>, due: DateInput)
      requires Valid()
      modifies this
      ensures Valid() && next == old(next)
      ensures rows == if id in old(rows)
                      then old(rows)[id := old(rows)[id].(amount := amount, note := TextOrNull(note), due := DateOrNull(due))]
                      else old(rows)
    {
      if id in rows {
        rows := rows[id := rows[id].(amount := amount, note := TextOrNull(note), due := DateOrNull(due))];
      }
    }

    /** `getByUser`: the ids of the debts the user is a party to and whose
        parties both have accounts, newest first. */
    function ByUser(user: UserId, accounts: map<Id, Account>): (r: seq<Id>)
      requires Valid()
      reads this
      ensures forall k :: k in r <==> k in rows && Involves(rows[k], user) && Joined(rows[k], accounts)
      ensures Descending(r)
    {
      IdsDesc(rows, next, (k: nat, d: Debt) => Involves(d, user) && Joined(d, accounts))
    }

    /** `getPendingDebts`: the same for the user's debts still awaiting
        acceptance. */
    function PendingDebts(user: UserId, accounts: map<Id, Account>): (r: seq<Id>)
      requires Valid()
      reads this
      ensures forall k :: k in r <==>
                k in rows && Involves(rows[k], user) && Joined(rows[k], accounts) && rows[k].confirm == Pending
      ensures Descending(r)
    {
      IdsDesc(rows, next, (k: nat, d: Debt) => Involves(d, user) && Joined(d, accounts) && d.confirm == Pending)
    }

    /** `getUnpaidDebts`: the same for the user's debts not yet reported paid. */
    function UnpaidDebts(user: UserId, accounts: map<Id, Account>): (r: seq<Id>)
      requires Valid()
      reads this
      ensures forall k :: k in r <==>
                k in rows && Involves(rows[k], user) && Joined(rows[k], accounts) && rows[k].paid == Unpaid
      ensures Descending(r)
    {
      IdsDesc(rows, next, (k: nat, d: Debt) => Involves(d, user) && Joined(d, accounts) && d.paid == Unpaid)
    }
  }
}
