/** The personal-finance tables that the budget queries join and that a
    restore replaces: `personal_category` and `personal_transaction`. */
module PersonalTables {
  import opened Common

  /** `personal_category.type`, stored upper-case. */
  datatype Kind = Income | Expense

  datatype Category = Category(account: int, name: Option<string>, kind: Kind)

  datatype Transaction = Transaction(account: int, category: int, amount: Money, note: Option<string>,
                                     date: Date)

  class CategoryTable {
    var rows: map<Id, Category>
    var next: nat

    ghost predicate Valid()
      reads this
    {
      forall id :: id in rows ==> id < next
    }

    constructor ()
      ensures Valid() && rows == map[] && next == 1
    {
      rows := map[];
      next := 1;
    }
  }

  class TransactionTable {
    var rows: map<Id, Transaction>
    var next: nat

    ghost predicate Valid()
      reads this
    {
      forall id :: id in rows ==> id < next
    }

    constructor ()
      ensures Valid() && rows == map[] && next == 1
    {
      rows := map[];
      next := 1;
    }
  }

  /** The category of a transaction exists and is an EXPENSE category: the
      `JOIN personal_category pc ON pt.category_id = pc.id ... pc.type =
      'EXPENSE'` every spending query applies. */
  predicate ExpenseCategory(categories: map<Id, Category>, category: int) {
    category >= 0 && category in categories && categories[category].kind == Expense
  }
}
