/**
 * The two persistent entities. Both are reference objects whose fields the
 * application updates in place; identity is object identity, and the `id`
 * field is the opaque UUID the entity was created with.
 */
module Models {
  import opened Wrappers
  import Money
  import Calendar

  type UUID = nat

  /** The icon a category gets when none is chosen. */
  const DefaultIcon: string := "\U{1F4B8}"

  class CategoryEntity {
    var id: UUID
    var name: string
    var icon: string
    var createdAt: int
    var sortOrder: int
    /** Inverse of `ExpenseEntity.category`; the context keeps it up to date. */
    var expenses: Option<seq<ExpenseEntity>>

    /** `init(name:icon:sortOrder:)`; `id` stands for the fresh UUID and `now` for `Date()`. */
    constructor(id: UUID, now: int, name: string, icon: string := DefaultIcon, sortOrder: int := 0)
      ensures this.id == id && this.name == name && this.icon == icon
      ensures this.sortOrder == sortOrder && createdAt == now
      ensures expenses == Some([])
      ensures !HasExpenses()
    {
      this.id := id;
      this.name := name;
      this.icon := icon;
      this.createdAt := now;
      this.sortOrder := sortOrder;
      this.expenses := Some([]);
    }

    /** `hasExpenses`: the expense list exists and is not empty. */
    predicate HasExpenses()
      reads this
    {
      expenses.Some? && expenses.value != []
    }
  }

  class ExpenseEntity {
    var id: UUID
    /** The amount, kept as decimal text. */
    var amountString: string
    var date: Calendar.Date
    var comment: Option<string>
    var createdAt: int
    var category: CategoryEntity?

    /** `init(amount:date:category:comment:)`; the amount is stored through its text form. */
    constructor(id: UUID, now: int, amount: Money.Cents, date: Calendar.Date,
                category: CategoryEntity?, comment: Option<string> := None)
      ensures this.id == id && createdAt == now
      ensures amountString == Money.Serialize(amount) && Amount() == amount
      ensures this.date == date && this.category == category && this.comment == comment
    {
      this.id := id;
      this.amountString := Money.Serialize(amount);
      this.date := date;
      this.category := category;
      this.comment := comment;
      this.createdAt := now;
      Money.RoundTrip(amount);
    }

    /** The `amount` getter: the parsed text, or 0 when the text does not parse. */
    function Amount(): (a: Money.Cents)
      reads this
      ensures Money.Parse(amountString).None? ==> a == 0
      ensures Money.Parse(amountString).Some? ==> a == Money.Parse(amountString).value
    {
      Money.Parse(amountString).GetOr(0)
    }

    /** The `amount` setter: only `amountString` changes, and the getter then gives `value`. */
    method SetAmount(value: Money.Cents)
      modifies this`amountString
      ensures amountString == Money.Serialize(value)
      ensures Amount() == value
    {
      amountString := Money.Serialize(value);
      Money.RoundTrip(value);
    }
  }
}
