# BudgetLite core in Dafny

BudgetLite is a small SwiftUI/SwiftData expense tracker. A user records
expenses, each with:

- an amount;
- a day;
- an optional category;
- an optional comment.

The expenses are browsed one month at a time. Per month, the app shows:

- a list of the month's expenses, newest first;
- statistics: spending per category, with percentages, drawn as a donut chart;
- the categories themselves, which can be added, edited, reordered and deleted.
  A category that still has expenses cannot be deleted.

This project models that core and proves what it promises. The pieces are:

- **Entities** (`models.dfy`): `CategoryEntity` and `ExpenseEntity` are classes with
  the same fields.
  - An expense keeps its amount as text: `Money.Serialize` writes it and
    `Money.Parse` reads it back.
  - Amounts are exact integers of cents (`money.dfy`).
- **Store** (`persistence.dfy`): the SwiftData model context is the class
  `ModelContext`.
  - It holds the stored categories and expenses.
  - Its invariant `Valid` keeps each category's `expenses` list equal to the expenses
    whose `category` points to it, which is the inverse relationship with the nullify
    delete rule.
- **Calendar** (`calendar.dfy`): day-level Gregorian dates. It provides start and end of
  month, adding months (clamping the day) and the same-month test.
  - `month_store.dfy` is the `MonthStore` that holds the selected month.
- **Statistics tab** (`stats_tab.dfy`): the month filter, the total, and the
  per-category statistics.
  - The statistics are built by a dictionary loop, a map and a sort.
  - `donut_chart.dfy` has the chart's segment angles and colours.
- **Expenses tab** (`expenses_tab.dfy`): the month's list, newest first, and swipe
  deletion.
- **Categories tab** (`categories_tab.dfy`): the list in `sortOrder` order.
  - Swipe deletion is guarded by `hasExpenses`, which raises an alert instead.
  - Drag-and-drop reordering renumbers `sortOrder` as `0 ..< n`. `collections.dfy`
    has `Array.move(fromOffsets:toOffset:)`.
- **The four sheets** (`category_sheets.dfy`, `expense_sheets.dfy`): Add/Edit Category
  and Add/Edit Expense.
  - Each sheet's `@State` form is a datatype value.
  - Saving validates the form, then inserts a new entity or updates the edited one.
- **First-launch seeder** (`data_seeder.dfy`): creates the four default categories.
- **Support files:** `text.dfy` has whitespace trimming; `wrappers.dfy` has `Option`.

## Model

| member | source | states |
|---|---|---|
| Money.RoundTrip | BudgetLite/Models/ExpenseEntity.swift:24-31 | the text the amount setter stores reads back through the getter as exactly the amount that was set |
| Money.NegativeRoundTrip | BudgetLite/Models/ExpenseEntity.swift:24-31 | the round trip for negative amounts (a leading minus sign) |
| Money.NonNegativeRoundTrip | BudgetLite/Models/ExpenseEntity.swift:24-31 | the round trip for amounts of zero and above |
| Money.UnsignedRoundTrip | BudgetLite/Models/ExpenseEntity.swift:24-31 | the unsigned canonical text reads back as the same number of cents |
| Money.MinusRoundTrip | BudgetLite/Models/ExpenseEntity.swift:24-31 | a minus sign before the written magnitude reads back as the negated magnitude |
| Money.Numeral | BudgetLite/Models/ExpenseEntity.swift:29 | the whole part is written as non-empty digits with no leading zero, and its value is the number |
| Money.FractionText | BudgetLite/Models/ExpenseEntity.swift:29 | the fraction is written with at most two digits, no trailing zero, and empty exactly for whole amounts; its value is the cents |
| Money.DotIndex | BudgetLite/Models/ExpenseEntity.swift:26 | the position of the first decimal point, or the length when there is none |
| Money.Serialize | BudgetLite/Models/ExpenseEntity.swift:29 | the canonical text of an amount is never empty and starts with a minus sign exactly when the amount is negative |
| Money.Parse | BudgetLite/Models/ExpenseEntity.swift:26 | empty text is not an amount; a value read from text starting with a minus sign is not positive, and one read from any other text is not negative |
| Text.Trim | BudgetLite/Views/Sheets/AddCategorySheet.swift:61 | a non-empty trimmed name neither starts nor ends with whitespace |
| Text.TrimLeading | BudgetLite/Views/Sheets/AddCategorySheet.swift:61 | the result is a suffix, only whitespace was cut, and it starts with a non-blank |
| Text.TrimTrailing | BudgetLite/Views/Sheets/AddCategorySheet.swift:61 | the result is a prefix, only whitespace was cut, and it ends with a non-blank |
| Text.TrimIsInfix | BudgetLite/Views/Sheets/AddCategorySheet.swift:61 | the trimmed name is a contiguous part of the typed one, with only whitespace on either side |
| Text.TrimEmptyIff | BudgetLite/Views/Sheets/AddCategorySheet.swift:13-15 | the trimmed name is empty exactly when the typed one is whitespace only |
| Text.TrimIdempotent | BudgetLite/Views/Sheets/AddCategorySheet.swift:61 | trimming a trimmed name changes nothing |
| Calendar.DaysInMonth | BudgetLite/Helpers/DateExtensions.swift:9-15 | months have 28 to 31 days, and 29 exactly for February of a leap year |
| Calendar.AddMonths | BudgetLite/Stores/MonthStore.swift:26-36 | adding n months moves the month index by exactly n; the day is kept when that month has it and is otherwise lowered to that month's last day |
| Calendar.PreviousDay | BudgetLite/Helpers/DateExtensions.swift:11 | one day back is strictly earlier: the day before in the same month, or for the 1st the last day of the month one month index earlier |
| Calendar.StartOfMonth | BudgetLite/Helpers/DateExtensions.swift:4-7 | the first day of the same year and month |
| Calendar.EndOfMonth | BudgetLite/Helpers/DateExtensions.swift:9-15 | defined as the source computes it, start of month plus one month minus one day; what that is (the month's last day) is proved in Calendar.EndOfMonthIsLastDay |
| Calendar.IsSameMonth | BudgetLite/Views/Tabs/StatsTab.swift:13 | equal year and month; Calendar.SameMonthIffIndex proves it is equality of the month index |
| Calendar.SameMonthIffIndex | BudgetLite/Views/Tabs/StatsTab.swift:13 | month granularity equality is equality of the month index |
| Calendar.EndOfMonthIsLastDay | BudgetLite/Helpers/DateExtensions.swift:9-15 | start of month plus one month minus one day is the month's last day |
| Calendar.MonthBrackets | BudgetLite/Helpers/DateExtensions.swift:4-15 | a day lies between its month's start and end, both in its month |
| Calendar.StartOfMonthIdempotent | BudgetLite/Helpers/DateExtensions.swift:4-7 | the start of the start of a month is that start |
| Calendar.MonthBoundary | BudgetLite/Helpers/DateExtensions.swift:9-15 | the end of a month is not in the next month, whose start comes exactly one month index later |
| Calendar.NextMonthOfDecember | BudgetLite/Helpers/DateExtensions.swift:10 | after December comes January 1 of the next year |
| Calendar.NextMonthWithinYear | BudgetLite/Helpers/DateExtensions.swift:10 | before December, the next month starts on the 1st of the following month of the same year |
| Calendar.NextThenPrevious | BudgetLite/Stores/MonthStore.swift:26-36 | one month forward then back gives the same month, on a day no later |
| Calendar.PreviousThenNext | BudgetLite/Stores/MonthStore.swift:26-36 | one month back then forward gives the same month |
| Calendar.PreviousMonthOfJanuary | BudgetLite/Stores/MonthStore.swift:26-30 | before January comes December of the previous year |
| Stores.MonthStore.constructor | BudgetLite/Stores/MonthStore.swift:6-10 | the store starts on today, which is the current month |
| Stores.MonthStore.MonthStart | BudgetLite/Stores/MonthStore.swift:12-14 | day 1 of the selected month, not after the selected day |
| Stores.MonthStore.MonthEnd | BudgetLite/Stores/MonthStore.swift:16-18 | the last day of the selected month, not before the selected day |
| Stores.MonthStore.PreviousMonth | BudgetLite/Stores/MonthStore.swift:26-30 | the selected day moves one month back, so the month index drops by one |
| Stores.MonthStore.NextMonth | BudgetLite/Stores/MonthStore.swift:32-36 | the selected day moves one month forward, so the month index rises by one |
| Stores.MonthStore.IsCurrentMonth | BudgetLite/Stores/MonthStore.swift:38-40 | the selected day is in the same year and month as today; the constructor ensures it holds at start |
| Stores.ForwardAndBack | BudgetLite/Stores/MonthStore.swift:26-36 | next then previous month returns to the same month, on a day no later than before |
| Models.CategoryEntity.constructor | BudgetLite/Models/CategoryEntity.swift:15-22 | a new category has the given id, name, icon, sort order and creation time and no expenses |
| Models.ExpenseEntity.constructor | BudgetLite/Models/ExpenseEntity.swift:15-22 | a new expense stores its amount as canonical text reading back as that amount, with the given day, category, comment, id and creation time |
| Models.ExpenseEntity.Amount | BudgetLite/Models/ExpenseEntity.swift:25-27 | the stored text's value, or 0 when the text does not read as an amount |
| Models.ExpenseEntity.SetAmount | BudgetLite/Models/ExpenseEntity.swift:28-30 | the stored text becomes the canonical text of the new amount, and reading it gives that amount |
| Models.CategoryEntity.HasExpenses | BudgetLite/Models/CategoryEntity.swift:24-26 | the expense list exists and is non-empty; Persistence.HasExpensesIffReferenced proves that for a stored category this means some stored expense refers to it |
| Persistence.ModelContext.constructor | BudgetLite/Models/CategoryEntity.swift:12-13 | an empty store is consistent |
| Persistence.ModelContext.InsertCategory | BudgetLite/Views/Sheets/AddCategorySheet.swift:71 | the category is appended to the stored categories; the store stays consistent |
| Persistence.ModelContext.InsertExpense | BudgetLite/Views/Sheets/AddExpenseSheet.swift:156 | the expense is appended and joins the end of its category's expense list; of the category only that list may change, and the store stays consistent |
| Persistence.ModelContext.DeleteExpense | BudgetLite/Views/Tabs/ExpensesTab.swift:88 | the expense is removed from the store and from its category's expense list; of the category only that list may change, and the store stays consistent |
| Persistence.ModelContext.SetCategory | BudgetLite/Views/Sheets/EditExpenseSheet.swift:104 | the expense leaves the old category's list and is appended to the new one's; assigning the same category changes no list; only the expense's category and the two lists may change |
| Persistence.ModelContext.Detach | BudgetLite/Views/Sheets/EditExpenseSheet.swift:104 | clearing an expense's category removes it from exactly that category's list, changes nothing else of the category, and keeps the store consistent |
| Persistence.ModelContext.Attach | BudgetLite/Views/Sheets/EditExpenseSheet.swift:104 | giving an uncategorised expense a stored category appends it to that category's list, changes nothing else of the category, and keeps the store consistent |
| Persistence.ModelContext.DeleteCategory | BudgetLite/Models/ExpenseEntity.swift:12-13 | the category is removed; its expenses stay stored with no category, every other expense keeps its category, and no other field of any expense changes |
| Persistence.HasExpensesIffReferenced | BudgetLite/Models/CategoryEntity.swift:12-26 | a stored category has expenses exactly when some stored expense refers to it |
| Persistence.ValidKept | BudgetLite/Views/Sheets/EditCategorySheet.swift:68-69 | writing fields other than the relationship keeps the store consistent |
| Collections.Without | BudgetLite/Views/Tabs/CategoriesTab.swift:71 | deleting keeps exactly the elements not deleted, and no more of them than there were; counts and order are in WithoutMultiplicity and WithoutAppend |
| Collections.WithoutMultiplicity | BudgetLite/Views/Tabs/CategoriesTab.swift:71 | every element not deleted is kept as often as it occurred, and no copy of a deleted one remains |
| Collections.WithoutAppend | BudgetLite/Views/Tabs/CategoriesTab.swift:71 | deleting from two lists placed one after the other gives the two results one after the other, so the kept elements stay in order |
| Collections.WithoutTwice | BudgetLite/Views/Tabs/ExpensesTab.swift:87-89 | deleting one set and then another is deleting their union |
| Collections.SplitMultiset | BudgetLite/Views/Tabs/CategoriesTab.swift:78 | proof helper: cutting the list in two splits its elements between the parts |
| Collections.Move | BudgetLite/Views/Tabs/CategoriesTab.swift:78 | `Array.move(fromOffsets:toOffset:)`; Collections.MovePermutes and Collections.MoveKeepsOrder state what it does |
| Collections.AtOffsets | BudgetLite/Views/Tabs/ExpensesTab.swift:88 | the elements at the swiped offsets of the shown list, in offset order (used by both tabs' deletes) |
| Collections.MovePermutes | BudgetLite/Views/Tabs/CategoriesTab.swift:78 | moving rows is a permutation of the list |
| Collections.MoveKeepsOrder | BudgetLite/Views/Tabs/CategoriesTab.swift:78 | the moved rows, in their old order, land at the destination between the unmoved rows before and after it |
| StatsTab.InMonth | BudgetLite/Views/Tabs/StatsTab.swift:11-15 | exactly the expenses dated in the selected year and month, each as often as stored |
| StatsTab.TotalSpent | BudgetLite/Views/Tabs/StatsTab.swift:17-19 | the sum of the amounts; StatsTab.CoveredSum and StatsTab.StatsPartitionTotal relate it to the statistics |
| StatsTab.CategoriesOf | BudgetLite/Views/Tabs/StatsTab.swift:24-28 | every category some expense refers to |
| StatsTab.CategoriesOfReferenced | BudgetLite/Views/Tabs/StatsTab.swift:24-28 | only categories some expense refers to |
| StatsTab.CategorySum | BudgetLite/Views/Tabs/StatsTab.swift:26 | a category no expense refers to sums to 0 |
| StatsTab.UncategorisedSum | BudgetLite/Views/Tabs/StatsTab.swift:25 | when every expense has a category, nothing is left uncategorised |
| StatsTab.Percentage | BudgetLite/Views/Tabs/StatsTab.swift:33 | amount / total * 100 for a positive total, 0 otherwise |
| StatsTab.InsertByAmount | BudgetLite/Views/Tabs/StatsTab.swift:35 | inserting into rows sorted by amount keeps them sorted and adds the one row |
| StatsTab.SortByAmount | BudgetLite/Views/Tabs/StatsTab.swift:35 | the rows sorted largest amount first, a permutation of the input |
| StatsTab.SumsByCategory | BudgetLite/Views/Tabs/StatsTab.swift:22-28 | the dictionary has a key for exactly the referenced categories, each mapped to its exact sum |
| StatsTab.RowsOf | BudgetLite/Views/Tabs/StatsTab.swift:32-34 | one row per dictionary entry, with its amount and its percentage of the total |
| StatsTab.CategoryStats | BudgetLite/Views/Tabs/StatsTab.swift:21-36 | one row per referenced category and no other, each with its exact sum and percentage, largest amount first |
| StatsTab.SortedRowsKeepShape | BudgetLite/Views/Tabs/StatsTab.swift:35 | sorting the rows keeps them distinct, exact and about the same categories |
| StatsTab.SumInAddCategory | BudgetLite/Views/Tabs/StatsTab.swift:24-28 | summing over one more category adds that category's sum |
| StatsTab.RowsSumIn | BudgetLite/Views/Tabs/StatsTab.swift:24-28 | the rows' amounts add up to the sum over their categories |
| StatsTab.SumInNone | BudgetLite/Views/Tabs/StatsTab.swift:24-28 | proof helper: summing over no category gives 0 |
| StatsTab.CoveredSum | BudgetLite/Views/Tabs/StatsTab.swift:17-28 | categorised plus uncategorised spending is the total |
| StatsTab.StatsPartitionTotal | BudgetLite/Views/Tabs/StatsTab.swift:17-36 | the statistics' amounts plus the uncategorised spending equal the month's total |
| StatsTab.PercentTotalOfRows | BudgetLite/Views/Tabs/StatsTab.swift:30-34 | the percentages add up to the rows' share of the total |
| StatsTab.PercentagesSumTo100 | BudgetLite/Views/Tabs/StatsTab.swift:30-35 | when every expense has a category and the total is positive, the percentages add up to 100 |
| StatsTab.NoCategorisedExpensesNoStats | BudgetLite/Views/Tabs/StatsTab.swift:24-28 | a month without categorised expenses has no statistics, so no chart is shown |
| StatsTab.EmptyMonthTotal | BudgetLite/Views/Tabs/StatsTab.swift:11-19 | a month with no expenses lists none and totals 0 |
| DonutChart.ColourIndex | BudgetLite/Views/Components/DonutChart.swift:20 | the colour index is always inside the palette |
| DonutChart.SegmentColour | BudgetLite/Views/Components/DonutChart.swift:20 | the palette colour at the row index modulo ten; ColoursRepeat states the period |
| DonutChart.Prefix | BudgetLite/Views/Components/DonutChart.swift:39 | `prefix(k)` is the first k elements, or all of them when there are fewer |
| DonutChart.StartAngle | BudgetLite/Views/Components/DonutChart.swift:38-41 | the source's formula; FirstSegmentStartsAtTop, SegmentsMeet and AnglesNonDecreasing state its properties |
| DonutChart.EndAngle | BudgetLite/Views/Components/DonutChart.swift:43-46 | the source's formula; SegmentSpan and FullCircle state its properties |
| DonutChart.Segments | BudgetLite/Views/Components/DonutChart.swift:19-20 | one segment per statistics row, for that row's category |
| DonutChart.FirstSegmentStartsAtTop | BudgetLite/Views/Components/DonutChart.swift:38-41 | the first segment starts at -90 degrees |
| DonutChart.SumAppend | BudgetLite/Views/Components/DonutChart.swift:44 | proof helper: one more percentage extends the running sum by that percentage |
| DonutChart.SegmentSpan | BudgetLite/Views/Components/DonutChart.swift:38-46 | each segment spans 3.6 degrees per percentage point of its row |
| DonutChart.SegmentsMeet | BudgetLite/Views/Components/DonutChart.swift:38-46 | each segment ends where the next one starts |
| DonutChart.AnglesNonDecreasing | BudgetLite/Views/Components/DonutChart.swift:38-41 | start angles never decrease along the rows |
| DonutChart.FullCircle | BudgetLite/Views/Components/DonutChart.swift:43-46 | with percentages adding up to 100, the last segment ends at 270 degrees, a full turn after the first starts |
| DonutChart.SumOfPercentages | BudgetLite/Views/Components/DonutChart.swift:39 | the chart's running sum over all rows is the rows' percentage total |
| DonutChart.SegmentsPartitionCircle | BudgetLite/Views/Components/DonutChart.swift:19-46 | a month's segments meet end to start and together close the circle |
| DonutChart.SegmentsClose | BudgetLite/Views/Components/DonutChart.swift:19-46 | for percentages adding up to 100, the drawn segments meet end to start and the last ends a full turn after the first starts |
| DonutChart.ColoursRepeat | BudgetLite/Views/Components/DonutChart.swift:6-20 | colours repeat every ten rows |
| ExpensesTab.ListsBefore | BudgetLite/Views/Tabs/ExpensesTab.swift:14-19 | the list comparator at day level: a later day first, then the later creation time; transitivity and totality are proved beside it |
| ExpensesTab.ListsBeforeTransitive | BudgetLite/Views/Tabs/ExpensesTab.swift:14-19 | the list order is transitive |
| ExpensesTab.ListsBeforeTotal | BudgetLite/Views/Tabs/ExpensesTab.swift:14-19 | any two expenses are comparable in the list order |
| ExpensesTab.PrependNewestFirst | BudgetLite/Views/Tabs/ExpensesTab.swift:14-19 | an expense that lists before all the others can head the list |
| ExpensesTab.FirstBeforeAll | BudgetLite/Views/Tabs/ExpensesTab.swift:14-19 | an expense listing before the head lists before everything |
| ExpensesTab.HeadBeforeInserted | BudgetLite/Views/Tabs/ExpensesTab.swift:14-19 | the head still lists first after inserting behind it |
| ExpensesTab.InsertNewestFirst | BudgetLite/Views/Tabs/ExpensesTab.swift:14-19 | inserting keeps the list newest first and adds exactly that expense |
| ExpensesTab.SortNewestFirst | BudgetLite/Views/Tabs/ExpensesTab.swift:14-19 | a permutation ordered by day descending, then by creation time descending |
| ExpensesTab.ListedExpenses | BudgetLite/Views/Tabs/ExpensesTab.swift:11-20 | the month's expenses, each as often as stored, newest first |
| ExpensesTab.ListedAreTheMonth | BudgetLite/Views/Tabs/ExpensesTab.swift:11-20 | a stored expense is listed exactly when it is dated in the selected month |
| ExpensesTab.SameDateNewerFirst | BudgetLite/Views/Tabs/ExpensesTab.swift:14-19 | later rows are not later days, and on the same day not more recently created |
| ExpensesTab.DeleteExpenses | BudgetLite/Views/Tabs/ExpensesTab.swift:86-90 | exactly the expenses at the swiped offsets are deleted; the stored categories stay, and of them only the expense lists may change |
| ExpensesTab.DeleteEach | BudgetLite/Views/Tabs/ExpensesTab.swift:87-89 | deleting each given expense in turn removes exactly those; of the categories only the expense lists may change |
| ExpensesTab.DeleteStep | BudgetLite/Views/Tabs/ExpensesTab.swift:88 | one deletion extends the set of deleted expenses by one; of the categories only the expense lists may change |
| CategoriesTab.ListsBefore | BudgetLite/Views/Tabs/CategoriesTab.swift:6 | the `@Query` order: lower sort order first, then earlier creation time; transitivity and totality are proved beside it |
| CategoriesTab.ListsBeforeTransitive | BudgetLite/Views/Tabs/CategoriesTab.swift:6-7 | the list order is transitive |
| CategoriesTab.ListsBeforeTotal | BudgetLite/Views/Tabs/CategoriesTab.swift:6-7 | any two categories are comparable in the list order |
| CategoriesTab.PrependInOrder | BudgetLite/Views/Tabs/CategoriesTab.swift:6-7 | a category that lists before all the others can head the list |
| CategoriesTab.FirstBeforeAll | BudgetLite/Views/Tabs/CategoriesTab.swift:6-7 | a category listing before the head lists before everything |
| CategoriesTab.HeadBeforeInserted | BudgetLite/Views/Tabs/CategoriesTab.swift:6-7 | the head still lists first after inserting behind it |
| CategoriesTab.InsertInOrder | BudgetLite/Views/Tabs/CategoriesTab.swift:6-7 | inserting keeps the list in order and adds exactly that category |
| CategoriesTab.ListedCategories | BudgetLite/Views/Tabs/CategoriesTab.swift:6-7 | the stored categories, a permutation, in ascending sort order |
| CategoriesTab.Flags | BudgetLite/Views/Tabs/CategoriesTab.swift:67 | for each swiped category, whether it has expenses |
| CategoriesTab.DeletableBy | BudgetLite/Views/Tabs/CategoriesTab.swift:67-71 | exactly the swiped categories flagged as having no expenses |
| CategoriesTab.LastBlockedBy | BudgetLite/Views/Tabs/CategoriesTab.swift:67-69 | a swiped category with expenses that no later swiped category with expenses follows, or none exactly when there is no such category |
| CategoriesTab.Deletable | BudgetLite/Views/Tabs/CategoriesTab.swift:67-71 | exactly the swiped categories without expenses |
| CategoriesTab.LastBlocked | BudgetLite/Views/Tabs/CategoriesTab.swift:67-69 | the last swiped category with expenses (none after it has expenses), or none exactly when none of them has expenses |
| CategoriesTab.DeleteCategory | BudgetLite/Views/Tabs/CategoriesTab.swift:64-74 | the swiped categories without expenses are deleted, none with expenses is, no field of any expense changes, and the alert is raised naming the last one with expenses |
| CategoriesTab.DeleteSwiped | BudgetLite/Views/Tabs/CategoriesTab.swift:65-73 | the loop over the swiped categories deletes exactly the deletable ones, changes no field of any expense, and sets the alert state |
| CategoriesTab.SwipeStep | BudgetLite/Views/Tabs/CategoriesTab.swift:66-72 | one iteration extends the deleted set and the alert state by one swiped category and changes no field of any expense |
| CategoriesTab.BlockedAreKept | BudgetLite/Views/Tabs/CategoriesTab.swift:67-69 | a category with expenses survives the deletion |
| CategoriesTab.DeletableStep | BudgetLite/Views/Tabs/CategoriesTab.swift:67-71 | the deletable categories of one more swiped category |
| CategoriesTab.LastBlockedStep | BudgetLite/Views/Tabs/CategoriesTab.swift:67-69 | the alerted category after one more swiped category |
| CategoriesTab.DeleteStep | BudgetLite/Views/Tabs/CategoriesTab.swift:71 | deleting a category without expenses extends the deleted set by it and changes no field of any expense |
| CategoriesTab.MoveCategory | BudgetLite/Views/Tabs/CategoriesTab.swift:76-83 | the list is rearranged by the move, the new order's positions become the sort orders `0 ..< n`, and nothing else changes |
| CategoriesTab.Renumber | BudgetLite/Views/Tabs/CategoriesTab.swift:80-82 | each category's sort order becomes its position; nothing else changes |
| CategoriesTab.SortOrders | BudgetLite/Views/Tabs/CategoriesTab.swift:81 | exactly the sort orders the categories have: each category's is in the set, and each value in the set belongs to some category |
| CategoriesTab.SortOrdersContiguous | BudgetLite/Views/Tabs/CategoriesTab.swift:80-82 | after renumbering, the sort orders are exactly `0 ..< n`, one per category |
| CategorySheets.IsValid | BudgetLite/Views/Sheets/AddCategorySheet.swift:13-15 | the name trimmed of whitespace is not empty; CategorySheets.ValidIffNotBlank states what that means |
| CategorySheets.ValidIffNotBlank | BudgetLite/Views/Sheets/AddCategorySheet.swift:13-15 | a name is accepted exactly when it is not whitespace only |
| CategorySheets.MaxSortOrder | BudgetLite/Views/Sheets/AddCategorySheet.swift:64 | the largest sort order of the categories, attained by one of them, or -1 for none |
| CategorySheets.SaveNewCategory | BudgetLite/Views/Sheets/AddCategorySheet.swift:60-73 | a blank name inserts nothing; otherwise one new category with the trimmed name, the chosen icon and a sort order one above all existing ones is appended, and contiguous sort orders stay contiguous |
| CategorySheets.InsertAfterLast | BudgetLite/Views/Sheets/AddCategorySheet.swift:64-71 | the new category is appended, numbered after every existing one |
| CategorySheets.NextSortOrder | BudgetLite/Views/Sheets/AddCategorySheet.swift:64-68 | max + 1 is above every existing sort order and keeps `0 ..< n` numbering contiguous |
| CategorySheets.NextSortOrderKeepsOffsets | BudgetLite/Views/Sheets/AddCategorySheet.swift:64-68 | sort orders `0 ..< n` plus max + 1 are `0 ..< n + 1` |
| CategorySheets.NewCategoryListsLast | BudgetLite/Views/Sheets/AddCategorySheet.swift:64-68 | a newly added category is listed last on the Categories tab |
| CategorySheets.HighestListsLast | BudgetLite/Views/Tabs/CategoriesTab.swift:6-7 | in list order, the category with the highest sort order comes last |
| CategorySheets.SaveEditedCategory | BudgetLite/Views/Sheets/EditCategorySheet.swift:64-71 | a blank name changes nothing; otherwise the category takes the trimmed name and chosen icon, and the store stays consistent |
| CategorySheets.EditForm | BudgetLite/Views/Sheets/EditCategorySheet.swift:57-60 | the form starts from the category's name and icon; CategorySheets.ReopenAndSaveCategory proves saving it unchanged keeps the category |
| CategorySheets.ReopenAndSaveCategory | BudgetLite/Views/Sheets/EditCategorySheet.swift:57-71 | opening the edit sheet and saving unchanged leaves a saved category as it was |
| ExpenseSheets.IsValidEntry | BudgetLite/Views/Sheets/AddExpenseSheet.swift:21-25 | the amount text reads as an amount above zero and a category is chosen |
| ExpenseSheets.StoredComment | BudgetLite/Views/Sheets/AddExpenseSheet.swift:153 | an empty comment is stored as no comment; the round-trip lemmas beside it state the relation to FormComment |
| ExpenseSheets.FormComment | BudgetLite/Views/Sheets/EditExpenseSheet.swift:20 | no comment shows as empty text; the round-trip lemmas beside it state the relation to StoredComment |
| ExpenseSheets.TypedCommentRoundTrip | BudgetLite/Views/Sheets/EditExpenseSheet.swift:20-105 | a typed comment, stored and shown again, is what was typed |
| ExpenseSheets.StoredCommentRoundTrip | BudgetLite/Views/Sheets/EditExpenseSheet.swift:20 | a stored comment, shown and stored again, comes back unchanged exactly when it is not the empty comment, which becomes no comment |
| ExpenseSheets.SaveNewExpense | BudgetLite/Views/Sheets/AddExpenseSheet.swift:144-163 | an invalid form inserts nothing and changes no category list; otherwise one new expense with the parsed positive amount, the selected month's day, the category and the comment is appended, joins the end of the category's list, and shows in that month's list; of the category only that list may change |
| ExpenseSheets.EditForm | BudgetLite/Views/Sheets/EditExpenseSheet.swift:90-93 | the edit form's amount text reads back as the expense's amount |
| ExpenseSheets.SaveEditedExpense | BudgetLite/Views/Sheets/EditExpenseSheet.swift:97-108 | an invalid form changes neither the expense nor any category list; otherwise the expense takes the parsed positive amount, the date, the category and the comment, keeping its id and creation time, and moves from the old category's list to the end of the new one's (no list changes when the category stays) |
| ExpenseSheets.SetFields | BudgetLite/Views/Sheets/EditExpenseSheet.swift:102-105 | the amount, date and comment take their new values and the store stays consistent |
| ExpenseSheets.ReopenAndSaveExpense | BudgetLite/Views/Sheets/EditExpenseSheet.swift:17-108 | opening the edit sheet and saving unchanged keeps amount, date and category, and the comment except that an empty one becomes none; no category list changes, and of the categories nothing else can |
| DataSeeder.SeedIfNeeded | BudgetLite/Helpers/DataSeeder.swift:5-29 | an empty store receives Food, Transport, Home and Fun numbered 0 to 3, without expenses; a non-empty store is unchanged; afterwards there is a category |
| DataSeeder.MakeDefaults | BudgetLite/Helpers/DataSeeder.swift:13-18 | four new distinct categories with the default names, icons and sort orders |
| DataSeeder.InsertAll | BudgetLite/Helpers/DataSeeder.swift:20-22 | inserting the defaults in turn makes them the stored categories, in order |
| DataSeeder.SeededOffsets | BudgetLite/Helpers/DataSeeder.swift:13-18 | the default sort orders are their positions `0 ..< 4` |
| DataSeeder.SeedTwice | BudgetLite/Helpers/DataSeeder.swift:11 | seeding a second time changes nothing: on an empty store the categories after both calls are the four defaults made by the first call from its ids and time, on a seeded store they are the old ones, and the stored expenses are those before both |

## Left out

- Amounts: Foundation `Decimal` is modelled as whole cents, so at most two fractional
  digits are kept.
  - `Money.Parse` rejects text with more than two fraction digits, which
    `Decimal(string:)` reads.
  - It also does not model that call's leniency (leading whitespace, trailing garbage,
    exponents) or locale-dependent separators.
  - The app accepts and stores amounts typed with more than two fraction digits
    ("12.345", "0.001"), because the Add and Edit Expense sheets pass the unrounded
    `Decimal(string:)` value to the entity. `ExpenseSheets.IsValidEntry` refuses such
    text, so in the model `ExpenseSheets.SaveNewExpense` and
    `ExpenseSheets.SaveEditedExpense` leave the store unchanged for it.
- Without: the function's own contract states which elements remain. That each remaining
  element keeps its count, and that the order is kept, is proved in
  `Collections.WithoutMultiplicity` and `Collections.WithoutAppend`. Stating these on the
  function itself makes every proof about the store far more expensive.
- Percentages and angles are `Double` in the app and exact reals here. Rounding is not
  modelled.
- Dates are calendar days. Time of day, time zones and the user's `Calendar.current`
  settings are not modelled.
  - `createdAt` is an integer timestamp.
  - This changes the Expenses tab's order. The app compares full `Date` values, so two
    expenses on the same day are listed by time of day. `ExpensesTab.ListsBefore` sees
    only the day, so it lists them by `createdAt`, later first. The two orders differ
    when an expense created later is dated earlier in the same day.
  - The Edit Expense sheet's date picker is modelled at day level.
- `UUID()` and `Date()` are parameters (`id`, `now`). The seeder gives all four defaults
  the same `now`.
- `Stores.MonthStore.IsCurrentMonth` takes today as a parameter instead of reading the
  clock. `monthYearString` (a formatted label) is not modelled.
- The order of the `stats.map` rows before sorting is arbitrary, as for a Swift
  dictionary. `StatsTab.SortByAmount` and `ExpensesTab.SortNewestFirst` fix an order for
  ties, which the Swift sort does not promise. `CategoriesTab.ListedCategories` likewise
  fixes an order for categories equal in both `sortOrder` and `createdAt`, which `@Query`
  does not promise.
  - The contracts only state the ordering the comparators give.
- `IndexSet` offsets are a sequence (for deletion) or a set (for moves) of list positions.
  - The deletion loops work on the list as it was shown when the swipe happened. They do
    not see rows disappear from a refreshed `@Query` while the loop runs.
- `AddCategorySheet` reads the `@Query` sorted by `sortOrder`. The maximum does not depend
  on the order, so `CategorySheets.MaxSortOrder` reads the stored categories.
- Views' `@State` (forms, the delete alert) are values passed in and handed back.
  - Purely presentational state is not modelled: `showingEmojiPicker`,
    `showCommentField`, `expenseToEdit`, `showingAddExpense`.
  - `dismiss()` is not modelled.
- SwiftUI layout, `EmojiPicker`, `CategoryTile`, `ExpenseRow`, `MonthNavigator`,
  `currencyFormatted` (`DecimalExtensions.swift`) and haptics are presentation only and
  are not part of this model.
- Seeder persistence: `DataSeeder.SeedIfNeeded` does not model the fetch error path (which
  only prints) or `modelContext.save()` writing to disk. The store is in memory and fetch
  cannot fail.
- Nothing is concurrent. SwiftData's autosave and undo are not modelled.
