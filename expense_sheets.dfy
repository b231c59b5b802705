/**
 * The two expense sheets. Their `@State` form (the amount text, the chosen category,
 * the comment and, when editing, the date) is a value. Saving needs text that reads as
 * a positive amount and a chosen category; an empty comment is stored as no comment.
 */
module ExpenseSheets {
  import opened Wrappers
  import opened Models
  import opened Persistence
  import opened Collections
  import Money
  import Calendar
  import Stores
  import ExpensesTab

  /** The form of `AddExpenseSheet`. */
  datatype AddExpenseForm = AddExpenseForm(amountText: string, selectedCategory: CategoryEntity?, comment: string)

  /** `AddExpenseSheet` opens with no amount, no category and no comment. */
  const NewAddExpenseForm := AddExpenseForm("", null, "")

  /**
   * `isValid` of both sheets, and the guard of both `saveExpense()`: `Decimal(string:)`
   * reads the text as an amount above zero, and a category is chosen.
   */
  predicate IsValidEntry(amountText: string, selectedCategory: CategoryEntity?) {
    match Money.Parse(amountText)
    case Some(amount) => amount > 0 && selectedCategory != null
    case None => false
  }

  /** `comment.isEmpty ? nil : comment`: the comment as it is stored. */
  function StoredComment(comment: string): Option<string> {
    if comment == [] then None else Some(comment)
  }

  /** `expense.comment ?? ""`: the comment as the edit form shows it. */
  function FormComment(stored: Option<string>): string {
    stored.GetOr([])
  }

  /** Storing a typed comment and showing it again gives back what was typed. */
  lemma TypedCommentRoundTrip(comment: string)
    ensures FormComment(StoredComment(comment)) == comment
  {
  }

  /**
   * Showing a stored comment and storing it again gives it back, except that a stored
   * empty comment comes back as no comment.
   */
  lemma StoredCommentRoundTrip(stored: Option<string>)
    ensures StoredComment(FormComment(stored)) == stored <==> stored != Some([])
    ensures StoredComment(FormComment(stored)) == (if stored == Some([]) then None else stored)
  {
  }

  /**
   * `AddExpenseSheet.saveExpense()`: for a valid form, one new expense with the parsed
   * amount, the selected month's day, the chosen category and the comment is inserted;
   * it then shows in that month's list. Otherwise nothing happens. `id` and `now` stand
   * for the fresh UUID and `Date()`.
   */
  method SaveNewExpense(context: ModelContext, monthStore: Stores.MonthStore, form: AddExpenseForm,
                        id: UUID, now: int) returns (saved: ExpenseEntity?)
    requires context.Valid()
    requires form.selectedCategory != null ==> form.selectedCategory in context.categories
    modifies context, {form.selectedCategory}`expenses
    ensures context.Valid()
    ensures context.categories == old(context.categories)
    ensures !IsValidEntry(form.amountText, form.selectedCategory) ==>
      saved == null && context.expenses == old(context.expenses)
    ensures IsValidEntry(form.amountText, form.selectedCategory) ==>
      saved != null && fresh(saved) && context.expenses == old(context.expenses) + [saved]
    ensures IsValidEntry(form.amountText, form.selectedCategory) ==>
      Money.Parse(form.amountText) == Some(saved.Amount()) && saved.Amount() > 0
    ensures IsValidEntry(form.amountText, form.selectedCategory) ==>
      saved.date == monthStore.selectedDate && saved.category == form.selectedCategory
      && saved.comment == StoredComment(form.comment) && saved.id == id && saved.createdAt == now
    ensures IsValidEntry(form.amountText, form.selectedCategory) ==>
      saved in ExpensesTab.ListedExpenses(context.expenses, monthStore.selectedDate)
    ensures IsValidEntry(form.amountText, form.selectedCategory) ==>
      form.selectedCategory.expenses == Some(old(form.selectedCategory.expenses.value) + [saved])
    ensures !IsValidEntry(form.amountText, form.selectedCategory) ==>
      forall c :: c in context.categories ==> c.expenses == old(c.expenses)
  {
    var parsed := Money.Parse(form.amountText);
    if parsed.None? || parsed.value <= 0 || form.selectedCategory == null {
      return null;
    }
    saved := new ExpenseEntity(id, now, parsed.value, monthStore.selectedDate, form.selectedCategory,
                               StoredComment(form.comment));
    context.InsertExpense(saved);
    ExpensesTab.ListedAreTheMonth(context.expenses, monthStore.selectedDate, saved);
  }

  /** The form of `EditExpenseSheet`. */
  datatype EditExpenseForm = EditExpenseForm(amountText: string, selectedCategory: CategoryEntity?,
                                             date: Calendar.Date, comment: string)

  /**
   * `init(expense:)` and `onAppear`: the form starts from the expense, its amount written
   * as text that reads back as the same amount.
   */
  function EditForm(expense: ExpenseEntity): (form: EditExpenseForm)
    reads expense
    ensures Money.Parse(form.amountText) == Some(expense.Amount())
  {
    Money.RoundTrip(expense.Amount());
    EditExpenseForm(Money.Serialize(expense.Amount()), expense.category, expense.date, FormComment(expense.comment))
  }

  /**
   * `EditExpenseSheet.saveExpense()`: for a valid form the expense takes the parsed amount,
   * the date, the category and the comment, keeping its identity and creation time, and
   * moves between the categories' expense lists; otherwise nothing changes.
   */
  method SaveEditedExpense(context: ModelContext, expense: ExpenseEntity, form: EditExpenseForm)
    requires context.Valid() && expense in context.expenses
    requires form.selectedCategory != null ==> form.selectedCategory in context.categories
    modifies expense, {expense.category}`expenses, {form.selectedCategory}`expenses
    ensures context.Valid()
    ensures context.expenses == old(context.expenses) && context.categories == old(context.categories)
    ensures !IsValidEntry(form.amountText, form.selectedCategory) ==> unchanged(expense)
    ensures !IsValidEntry(form.amountText, form.selectedCategory) || form.selectedCategory == old(expense.category) ==>
      forall c :: c in context.categories ==> c.expenses == old(c.expenses)
    ensures var p := old(expense.category);
      IsValidEntry(form.amountText, form.selectedCategory) && form.selectedCategory != p ==>
      form.selectedCategory.expenses == Some(old(form.selectedCategory.expenses.value) + [expense])
      && (p != null ==> p.expenses == Some(Without(old(p.expenses.value), {expense})))
    ensures IsValidEntry(form.amountText, form.selectedCategory) ==>
      Money.Parse(form.amountText) == Some(expense.Amount()) && expense.Amount() > 0
    ensures IsValidEntry(form.amountText, form.selectedCategory) ==>
      expense.date == form.date && expense.category == form.selectedCategory
      && expense.comment == StoredComment(form.comment)
    ensures expense.id == old(expense.id) && expense.createdAt == old(expense.createdAt)
  {
    var parsed := Money.Parse(form.amountText);
    if parsed.None? || parsed.value <= 0 || form.selectedCategory == null {
      return;
    }
    // The four assignments touch different fields; the relationship is set last.
    SetFields(context, expense, parsed.value, form.date, StoredComment(form.comment));
    context.SetCategory(expense, form.selectedCategory);
  }

  /** The amount, date and comment assignments of `saveExpense()`. */
  method SetFields(context: ModelContext, expense: ExpenseEntity, amount: Money.Cents,
                   date: Calendar.Date, comment: Option<string>)
    requires context.Valid() && expense in context.expenses
    modifies expense`amountString, expense`date, expense`comment
    ensures context.Valid()
    ensures expense.Amount() == amount && expense.date == date && expense.comment == comment
  {
    expense.SetAmount(amount);
    expense.date := date;
    expense.comment := comment;
    ValidKept(context);
  }

  /**
   * Opening the edit sheet and saving without touching the form keeps the amount, date,
   * category and comment (an empty comment becomes no comment, and the amount text is
   * rewritten in its canonical form); when the stored amount is not positive or the
   * expense has no category, the form is not valid and nothing changes.
   */
  method ReopenAndSaveExpense(context: ModelContext, expense: ExpenseEntity)
    requires context.Valid() && expense in context.expenses
    modifies expense, {expense.category}`expenses
    ensures context.Valid()
    ensures old(expense.Amount()) <= 0 || old(expense.category) == null ==> unchanged(expense)
    ensures expense.Amount() == old(expense.Amount()) && expense.date == old(expense.date)
    ensures expense.category == old(expense.category)
    ensures forall c :: c in context.categories ==> c.expenses == old(c.expenses)
    ensures old(expense.Amount()) > 0 && old(expense.category) != null ==>
      expense.comment == if old(expense.comment) == Some([]) then None else old(expense.comment)
  {
    var form := EditForm(expense);
    StoredCommentRoundTrip(expense.comment);
    SaveEditedExpense(context, expense, form);
  }
}
