/**
 * The SwiftData `ModelContext` as BudgetLite uses it: the stored categories and
 * expenses, `insert`, `delete`, and the relationship between an expense and its
 * category, whose inverse `CategoryEntity.expenses` the context maintains and whose
 * delete rule is nullify. A `@Query` without a sort reads `expenses` or
 * `categories` as they are.
 */
module Persistence {
  import opened Wrappers
  import opened Collections
  import opened Models

  class ModelContext {
    var categories: seq<CategoryEntity>
    var expenses: seq<ExpenseEntity>

    /**
     * Each entity is stored once, an expense only refers to a stored category, and each
     * stored category lists exactly the stored expenses that refer to it.
     */
    ghost predicate Valid()
      reads this, categories, expenses
    {
      Distinct(categories) && Distinct(expenses)
      && (forall e :: e in expenses && e.category != null ==> e.category in categories)
      && (forall c :: c in categories ==> c.expenses.Some?)
      && (forall c, e :: c in categories && e in c.expenses.value ==> e in expenses && e.category == c)
      && (forall c, e :: c in categories && e in expenses && e.category == c ==> e in c.expenses.value)
    }

    constructor()
      ensures Valid() && categories == [] && expenses == []
    {
      categories, expenses := [], [];
    }

    /** `insert` of a new category. */
    method InsertCategory(c: CategoryEntity)
      requires Valid() && c !in categories && c.expenses == Some([])
      modifies this
      ensures Valid()
      ensures categories == old(categories) + [c] && expenses == old(expenses)
    {
      categories := categories + [c];
    }

    /** `insert` of a new expense; its category's inverse list gains it. */
    method InsertExpense(e: ExpenseEntity)
      requires Valid() && e !in expenses
      requires e.category != null ==> e.category in categories
      modifies this, {e.category}`expenses
      ensures Valid()
      ensures expenses == old(expenses) + [e] && categories == old(categories)
      ensures e.category != null ==> e.category.expenses == Some(old(e.category.expenses.value) + [e])
    {
      expenses := expenses + [e];
      if e.category != null {
        var c := e.category;
        c.expenses := Some(c.expenses.value + [e]);
      }
    }

    /** `delete` of an expense; a stored expense also leaves its category's inverse list. */
    method DeleteExpense(e: ExpenseEntity)
      requires Valid()
      modifies this, {e.category}`expenses
      ensures Valid()
      ensures expenses == Without(old(expenses), {e}) && categories == old(categories)
      ensures e.category != null && e in old(expenses) ==>
        e.category.expenses == Some(Without(old(e.category.expenses.value), {e}))
      ensures e !in old(expenses) ==> e.category == null || unchanged(e.category)
    {
      if e in expenses {
        WithoutDistinct(expenses, {e});
        expenses := Without(expenses, {e});
        if e.category != null {
          var c := e.category;
          c.expenses := Some(Without(c.expenses.value, {e}));
        }
      } else {
        WithoutAbsent(expenses, {e});
      }
    }

    /** Assigning `e.category`; both inverse lists follow. */
    method SetCategory(e: ExpenseEntity, c: CategoryEntity?)
      requires Valid() && e in expenses
      requires c != null ==> c in categories
      modifies e`category, {e.category}`expenses, {c}`expenses
      ensures Valid()
      ensures e.category == c
      ensures expenses == old(expenses) && categories == old(categories)
      ensures old(e.category) == c ==> forall d :: d in categories ==> d.expenses == old(d.expenses)
      ensures var p := old(e.category); p != null && p != c ==>
        p.expenses == Some(Without(old(p.expenses.value), {e}))
      ensures c != null && old(e.category) != c ==> c.expenses == Some(old(c.expenses.value) + [e])
    {
      if e.category != c {
        Detach(e);
        if c != null {
          Attach(e, c);
        }
      }
    }

    /** Setting `e.category` to nil: the expense leaves its category's inverse list. */
    method Detach(e: ExpenseEntity)
      requires Valid() && e in expenses
      modifies e`category, {e.category}`expenses
      ensures Valid() && e.category == null
      ensures expenses == old(expenses) && categories == old(categories)
      ensures var p := old(e.category); p != null ==> p.expenses == Some(Without(old(p.expenses.value), {e}))
    {
      var previous := e.category;
      if previous != null {
        previous.expenses := Some(Without(previous.expenses.value, {e}));
        e.category := null;
      }
    }

    /** Setting the category of an expense that has none: the expense joins the inverse list. */
    method Attach(e: ExpenseEntity, c: CategoryEntity)
      requires Valid() && e in expenses && e.category == null && c in categories
      modifies e`category, {c}`expenses
      ensures Valid() && e.category == c
      ensures expenses == old(expenses) && categories == old(categories)
      ensures c.expenses == Some(old(c.expenses.value) + [e])
    {
      e.category := c;
      c.expenses := Some(c.expenses.value + [e]);
    }

    /**
     * `delete` of a category: it leaves the store, and every expense that referred to
     * it is kept with its category set to nil (the nullify rule).
     */
    method DeleteCategory(c: CategoryEntity)
      requires Valid()
      modifies this, expenses`category
      ensures Valid()
      ensures categories == Without(old(categories), {c}) && expenses == old(expenses)
      ensures forall e :: e in expenses ==>
        e.category == (if old(e.category) == c then null else old(e.category))
      ensures forall e :: e in expenses ==>
        e.id == old(e.id) && e.amountString == old(e.amountString) && e.date == old(e.date)
        && e.comment == old(e.comment) && e.createdAt == old(e.createdAt)
    {
      forall e | e in expenses && e.category == c {
        e.category := null;
      }
      assert forall e :: e in expenses ==> e.category == (if old(e.category) == c then null else old(e.category));
      assert forall d :: d in categories ==> d.expenses == old(d.expenses);
      WithoutDistinct(categories, {c});
      categories := Without(categories, {c});
      assert forall d, e :: d in categories && e in d.expenses.value ==> e in expenses && e.category == d;
    }
  }

  /** A stored category has expenses exactly when some stored expense refers to it. */
  lemma HasExpensesIffReferenced(context: ModelContext, c: CategoryEntity)
    requires context.Valid() && c in context.categories
    ensures c.HasExpenses() <==> exists e :: e in context.expenses && e.category == c
  {
    if c.HasExpenses() {
      var e := c.expenses.value[0];
      assert e in context.expenses && e.category == c;
    }
  }

  /**
   * Changing fields of stored entities other than `expenses` and `category` (a name,
   * an icon, an amount, a date, a comment) keeps the store consistent.
   */
  twostate lemma ValidKept(context: ModelContext)
    requires old(context.Valid())
    requires context.categories == old(context.categories) && context.expenses == old(context.expenses)
    requires forall c :: c in context.categories ==> c.expenses == old(c.expenses)
    requires forall e :: e in context.expenses ==> e.category == old(e.category)
    ensures context.Valid()
  {
  }
}
