/**
 * The Expenses tab: the selected month's expenses, newest first, and swipe-to-delete.
 */
module ExpensesTab {
  import opened Collections
  import opened Models
  import opened Persistence
  import Calendar
  import StatsTab

  /**
   * The list order: a later date first, and on the same date the later `createdAt` first.
   * `ListsBefore(a, b)` holds when `a` may stand before `b`.
   */
  predicate ListsBefore(a: ExpenseEntity, b: ExpenseEntity)
    reads a, b
  {
    Calendar.IsBefore(b.date, a.date) || (a.date == b.date && a.createdAt >= b.createdAt)
  }

  predicate IsNewestFirst(s: seq<ExpenseEntity>)
    reads s
  {
    forall i, j :: 0 <= i < j < |s| ==> ListsBefore(s[i], s[j])
  }

  lemma ListsBeforeTransitive(a: ExpenseEntity, b: ExpenseEntity, c: ExpenseEntity)
    requires ListsBefore(a, b) && ListsBefore(b, c)
    ensures ListsBefore(a, c)
  {
  }

  lemma ListsBeforeTotal(a: ExpenseEntity, b: ExpenseEntity)
    ensures ListsBefore(a, b) || ListsBefore(b, a)
  {
  }

  /** Putting `head` before a newest-first list whose members all may follow it. */
  lemma PrependNewestFirst(head: ExpenseEntity, s: seq<ExpenseEntity>)
    requires IsNewestFirst(s)
    requires forall y :: y in s ==> ListsBefore(head, y)
    ensures IsNewestFirst([head] + s)
  {
    var r := [head] + s;
    forall i, j | 0 <= i < j < |r| ensures ListsBefore(r[i], r[j]) {
      if i == 0 {
        assert r[j] == s[j - 1];
        assert r[j] in s;
      } else {
        assert r[i] == s[i - 1] && r[j] == s[j - 1];
      }
    }
  }

  /** The insertion step of the sort. */
  function InsertNewestFirst(x: ExpenseEntity, s: seq<ExpenseEntity>): (r: seq<ExpenseEntity>)
    reads {x} + set y | y in s
    requires IsNewestFirst(s)
    ensures IsNewestFirst(r)
    ensures multiset(r) == multiset(s) + multiset{x}
    ensures forall y :: y in r ==> y == x || y in s
  {
    if s == [] then [x]
    else if ListsBefore(x, s[0]) then
      FirstBeforeAll(x, s);
      PrependNewestFirst(x, s);
      [x] + s
    else
      var tail := InsertNewestFirst(x, s[1..]);
      InsertBehindHead(x, s, tail);
      [s[0]] + tail
  }

  /** The head of a newest-first list, followed by `x` inserted into the rest, is `x` inserted into the list. */
  lemma InsertBehindHead(x: ExpenseEntity, s: seq<ExpenseEntity>, tail: seq<ExpenseEntity>)
    requires IsNewestFirst(s) && s != [] && !ListsBefore(x, s[0])
    requires IsNewestFirst(tail) && multiset(tail) == multiset(s[1..]) + multiset{x}
    requires forall y :: y in tail ==> y == x || y in s[1..]
    ensures IsNewestFirst([s[0]] + tail)
    ensures multiset([s[0]] + tail) == multiset(s) + multiset{x}
    ensures forall y :: y in [s[0]] + tail ==> y == x || y in s
  {
    assert s == [s[0]] + s[1..];
    HeadBeforeInserted(x, s, tail);
    PrependNewestFirst(s[0], tail);
  }

  lemma FirstBeforeAll(x: ExpenseEntity, s: seq<ExpenseEntity>)
    requires IsNewestFirst(s) && s != [] && ListsBefore(x, s[0])
    ensures forall y :: y in s ==> ListsBefore(x, y)
  {
    forall y | y in s ensures ListsBefore(x, y) {
      var m :| 0 <= m < |s| && s[m] == y;
      if m > 0 {
        ListsBeforeTransitive(x, s[0], s[m]);
      }
    }
  }

  lemma HeadBeforeInserted(x: ExpenseEntity, s: seq<ExpenseEntity>, tail: seq<ExpenseEntity>)
    requires IsNewestFirst(s) && s != [] && !ListsBefore(x, s[0])
    requires forall y :: y in tail ==> y == x || y in s[1..]
    ensures forall y :: y in tail ==> ListsBefore(s[0], y)
  {
    forall y | y in tail ensures ListsBefore(s[0], y) {
      if y == x {
        ListsBeforeTotal(x, s[0]);
      } else {
        assert y in s[1..];
        var m :| 0 <= m < |s[1..]| && s[1..][m] == y;
        assert s[m + 1] == y;
      }
    }
  }

  /** The `sorted` call: newest first, a permutation of the input. */
  function SortNewestFirst(s: seq<ExpenseEntity>): (r: seq<ExpenseEntity>)
    reads set y | y in s
    ensures IsNewestFirst(r)
    ensures multiset(r) == multiset(s)
    ensures forall y :: y in r ==> y in s
  {
    if s == [] then []
    else
      assert s == [s[0]] + s[1..];
      var t := SortNewestFirst(s[1..]);
      assert forall y :: y in t ==> y in s;
      assert s[0] in s;
      InsertNewestFirst(s[0], t)
  }

  /** `filteredExpenses`: the month's expenses, newest first. */
  function ListedExpenses(all: seq<ExpenseEntity>, selected: Calendar.Date): (r: seq<ExpenseEntity>)
    reads all
    ensures IsNewestFirst(r)
    ensures multiset(r) == multiset(StatsTab.InMonth(all, selected))
  {
    SortNewestFirst(StatsTab.InMonth(all, selected))
  }

  /**
   * The list holds exactly the expenses dated in the selected month, each as often as it
   * is stored, whether or not it has a category.
   */
  lemma ListedAreTheMonth(all: seq<ExpenseEntity>, selected: Calendar.Date, e: ExpenseEntity)
    requires e in all
    ensures e in ListedExpenses(all, selected) <==> Calendar.IsSameMonth(e.date, selected)
    ensures multiset(ListedExpenses(all, selected))[e] ==
      if Calendar.IsSameMonth(e.date, selected) then multiset(all)[e] else 0
  {
    var r := ListedExpenses(all, selected);
    assert e in r <==> e in multiset(r);
  }

  /** On the same date the later-created expense comes first. */
  lemma SameDateNewerFirst(s: seq<ExpenseEntity>, i: nat, j: nat)
    requires IsNewestFirst(s) && i < j < |s|
    ensures Calendar.IsAtOrBefore(s[j].date, s[i].date)
    ensures s[i].date == s[j].date ==> s[i].createdAt >= s[j].createdAt
  {
  }

  /**
   * `deleteExpenses(at:)`: deletes the expenses at the swiped offsets of the list as it
   * was shown, and nothing else.
   */
  method DeleteExpenses(context: ModelContext, selected: Calendar.Date, offsets: seq<nat>)
    requires context.Valid()
    requires forall k :: 0 <= k < |offsets| ==> offsets[k] < |ListedExpenses(context.expenses, selected)|
    modifies context, context.categories`expenses
    ensures context.Valid()
    ensures context.expenses ==
      Without(old(context.expenses), Elements(AtOffsets(old(ListedExpenses(context.expenses, selected)), offsets)))
    ensures context.categories == old(context.categories)
  {
    var listed := ListedExpenses(context.expenses, selected);
    var doomed := AtOffsets(listed, offsets);
    forall i | 0 <= i < |doomed| && doomed[i].category != null
      ensures doomed[i].category in context.categories
    {
      assert doomed[i] in multiset(listed);
      assert doomed[i] in StatsTab.InMonth(context.expenses, selected);
    }
    DeleteEach(context, doomed);
  }

  /** The loop of `deleteExpenses(at:)`: `modelContext.delete` on each expense in turn. */
  method DeleteEach(context: ModelContext, doomed: seq<ExpenseEntity>)
    requires context.Valid()
    requires forall i :: 0 <= i < |doomed| && doomed[i].category != null ==> doomed[i].category in context.categories
    modifies context, context.categories`expenses
    ensures context.Valid()
    ensures context.expenses == Without(old(context.expenses), Elements(doomed))
    ensures context.categories == old(context.categories)
  {
    var base := context.expenses;
    WithoutAbsent(base, {});
    assert Elements(doomed[..0]) == {};
    for k := 0 to |doomed|
      invariant context.Valid()
      invariant context.categories == old(context.categories)
      invariant forall i :: 0 <= i < |doomed| && doomed[i].category != null ==> doomed[i].category in context.categories
      invariant context.expenses == Without(base, Elements(doomed[..k]))
    {
      var e := doomed[k];
      ElementsGrow(doomed, k);
      DeleteStep(context, base, Elements(doomed[..k]), e);
    }
    assert doomed[..|doomed|] == doomed;
  }

  /** One `modelContext.delete` of the loop, in terms of what the loop has deleted so far. */
  method DeleteStep(context: ModelContext, base: seq<ExpenseEntity>, gone: set<ExpenseEntity>, e: ExpenseEntity)
    requires context.Valid()
    requires context.expenses == Without(base, gone)
    requires e.category != null ==> e.category in context.categories
    modifies context, context.categories`expenses
    ensures context.Valid()
    ensures context.expenses == Without(base, gone + {e})
    ensures context.categories == old(context.categories)
  {
    WithoutTwice(base, gone, {e});
    context.DeleteExpense(e);
  }
}
