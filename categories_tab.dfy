/**
 * The Categories tab: the categories in `sortOrder` order, swipe-to-delete guarded by
 * `hasExpenses`, and drag-to-reorder, which renumbers `sortOrder`.
 */
module CategoriesTab {
  import opened Wrappers
  import opened Collections
  import opened Models
  import opened Persistence

  /**
   * The `@Query` order: ascending `sortOrder`, and on equal `sortOrder` ascending
   * `createdAt`. `ListsBefore(a, b)` holds when `a` may stand before `b`.
   */
  predicate ListsBefore(a: CategoryEntity, b: CategoryEntity)
    reads a, b
  {
    a.sortOrder < b.sortOrder || (a.sortOrder == b.sortOrder && a.createdAt <= b.createdAt)
  }

  predicate IsInListOrder(s: seq<CategoryEntity>)
    reads s
  {
    forall i, j :: 0 <= i < j < |s| ==> ListsBefore(s[i], s[j])
  }

  lemma ListsBeforeTransitive(a: CategoryEntity, b: CategoryEntity, c: CategoryEntity)
    requires ListsBefore(a, b) && ListsBefore(b, c)
    ensures ListsBefore(a, c)
  {
  }

  lemma ListsBeforeTotal(a: CategoryEntity, b: CategoryEntity)
    ensures ListsBefore(a, b) || ListsBefore(b, a)
  {
  }

  /** Putting `head` before a list in order whose members all may follow it. */
  lemma PrependInOrder(head: CategoryEntity, s: seq<CategoryEntity>)
    requires IsInListOrder(s)
    requires forall y :: y in s ==> ListsBefore(head, y)
    ensures IsInListOrder([head] + s)
  {
    var r := [head] + s;
    forall i, j | 0 <= i < j < |r| ensures ListsBefore(r[i], r[j]) {
      if i == 0 {
        assert r[j] == s[j - 1];
        assert r[j] in s;
      } else {
        assert r[i] == s[i - 1] && r[j] == s[j - 1];
      }
    }
  }

  lemma FirstBeforeAll(x: CategoryEntity, s: seq<CategoryEntity>)
    requires IsInListOrder(s) && s != [] && ListsBefore(x, s[0])
    ensures forall y :: y in s ==> ListsBefore(x, y)
  {
    forall y | y in s ensures ListsBefore(x, y) {
      var m :| 0 <= m < |s| && s[m] == y;
      if m > 0 {
        ListsBeforeTransitive(x, s[0], s[m]);
      }
    }
  }

  lemma HeadBeforeInserted(x: CategoryEntity, s: seq<CategoryEntity>, tail: seq<CategoryEntity>)
    requires IsInListOrder(s) && s != [] && !ListsBefore(x, s[0])
    requires forall y :: y in tail ==> y == x || y in s[1..]
    ensures forall y :: y in tail ==> ListsBefore(s[0], y)
  {
    forall y | y in tail ensures ListsBefore(s[0], y) {
      if y == x {
        ListsBeforeTotal(x, s[0]);
      } else {
        assert y in s[1..];
        var m :| 0 <= m < |s[1..]| && s[1..][m] == y;
        assert s[m + 1] == y;
      }
    }
  }

  /** The insertion step of the sort. */
  function InsertInOrder(x: CategoryEntity, s: seq<CategoryEntity>): (r: seq<CategoryEntity>)
    reads {x} + set y | y in s
    requires IsInListOrder(s)
    ensures IsInListOrder(r)
    ensures multiset(r) == multiset(s) + multiset{x}
    ensures forall y :: y in r ==> y == x || y in s
  {
    if s == [] then [x]
    else if ListsBefore(x, s[0]) then
      FirstBeforeAll(x, s);
      PrependInOrder(x, s);
      [x] + s
    else
      var tail := InsertInOrder(x, s[1..]);
      InsertBehindHead(x, s, tail);
      [s[0]] + tail
  }

  /** The head of a list in order, followed by `x` inserted into the rest, is `x` inserted into the list. */
  lemma InsertBehindHead(x: CategoryEntity, s: seq<CategoryEntity>, tail: seq<CategoryEntity>)
    requires IsInListOrder(s) && s != [] && !ListsBefore(x, s[0])
    requires IsInListOrder(tail) && multiset(tail) == multiset(s[1..]) + multiset{x}
    requires forall y :: y in tail ==> y == x || y in s[1..]
    ensures IsInListOrder([s[0]] + tail)
    ensures multiset([s[0]] + tail) == multiset(s) + multiset{x}
    ensures forall y :: y in [s[0]] + tail ==> y == x || y in s
  {
    assert s == [s[0]] + s[1..];
    HeadBeforeInserted(x, s, tail);
    PrependInOrder(s[0], tail);
  }

  /** The `@Query` sort: in list order, a permutation of the stored categories. */
  function ListedCategories(s: seq<CategoryEntity>): (r: seq<CategoryEntity>)
    reads set y | y in s
    ensures IsInListOrder(r)
    ensures multiset(r) == multiset(s)
    ensures forall y :: y in r ==> y in s
  {
    if s == [] then []
    else
      assert s == [s[0]] + s[1..];
      var t := ListedCategories(s[1..]);
      assert forall y :: y in t ==> y in s;
      assert s[0] in s;
      InsertInOrder(s[0], t)
  }

  /** Whether each category in `s` has expenses, as `hasExpenses` reads at this moment. */
  function Flags(s: seq<CategoryEntity>): (r: seq<bool>)
    reads set c | c in s
    ensures |r| == |s|
    ensures forall i :: 0 <= i < |s| ==> r[i] == s[i].HasExpenses()
  {
    if s == [] then [] else
      assert forall c :: c in s[..|s| - 1] ==> c in s;
      Flags(s[..|s| - 1]) + [s[|s| - 1].HasExpenses()]
  }

  /** Of the categories in `s`, those whose flag is off (no expenses): the swipe deletes these. */
  function DeletableBy(s: seq<CategoryEntity>, flags: seq<bool>): (r: seq<CategoryEntity>)
    requires |flags| == |s|
    ensures forall c :: c in r ==> exists i :: 0 <= i < |s| && s[i] == c && !flags[i]
    ensures forall i :: 0 <= i < |s| && !flags[i] ==> s[i] in r
  {
    if s == [] then []
    else
      var rest := DeletableBy(s[..|s| - 1], flags[..|s| - 1]);
      assert forall i :: 0 <= i < |s| - 1 ==> s[..|s| - 1][i] == s[i] && flags[..|s| - 1][i] == flags[i];
      if flags[|s| - 1] then rest else rest + [s[|s| - 1]]
  }

  /** Of the categories in `s`, the last one whose flag is on: the one the alert names. */
  function LastBlockedBy(s: seq<CategoryEntity>, flags: seq<bool>): (r: Option<CategoryEntity>)
    requires |flags| == |s|
    ensures r.Some? ==> exists i :: 0 <= i < |s| && s[i] == r.value && flags[i]
                                   && forall j :: i < j < |s| ==> !flags[j]
    ensures r.None? <==> forall i :: 0 <= i < |s| ==> !flags[i]
    ensures |s| > 0 && flags[|s| - 1] ==> r == Some(s[|s| - 1])
  {
    if s == [] then None
    else if flags[|s| - 1] then Some(s[|s| - 1])
    else
      var rest := LastBlockedBy(s[..|s| - 1], flags[..|s| - 1]);
      assert forall i :: 0 <= i < |s| - 1 ==> s[..|s| - 1][i] == s[i] && flags[..|s| - 1][i] == flags[i];
      rest
  }

  /** The swiped categories that have no expenses. */
  function Deletable(s: seq<CategoryEntity>): (r: seq<CategoryEntity>)
    reads set c | c in s
    ensures forall c :: c in r ==> c in s && !c.HasExpenses()
    ensures forall c :: c in s && !c.HasExpenses() ==> c in r
  {
    var flags := Flags(s);
    assert forall c :: c in s ==> exists i :: 0 <= i < |s| && s[i] == c;
    DeletableBy(s, flags)
  }

  /** The last of the swiped categories that has expenses, if any. */
  function LastBlocked(s: seq<CategoryEntity>): (r: Option<CategoryEntity>)
    reads set c | c in s
    ensures r.Some? ==> r.value in s && r.value.HasExpenses()
    ensures r.Some? ==> exists i :: 0 <= i < |s| && s[i] == r.value
                                   && forall j :: i < j < |s| ==> !s[j].HasExpenses()
    ensures r.None? <==> forall c :: c in s ==> !c.HasExpenses()
  {
    var flags := Flags(s);
    assert forall c :: c in s ==> exists i :: 0 <= i < |s| && s[i] == c;
    LastBlockedBy(s, flags)
  }

  /**
   * The tab's own `@State`: whether the "Cannot Delete Category" alert shows, and the
   * category it is about. The tab is a value, so its state is passed in and handed back.
   */
  datatype TabState = TabState(showingDeleteAlert: bool, categoryToDelete: CategoryEntity?)

  /** The state the tab starts in: no alert, no category. */
  const InitialState := TabState(false, null)

  /**
   * `deleteCategory(at:)`: of the categories at the swiped offsets of the list as it was
   * shown, those without expenses are deleted; for one with expenses the alert is raised
   * instead and names it (the last such one when there are several). No expense is
   * touched, and no category with expenses is deleted.
   */
  method DeleteCategory(context: ModelContext, offsets: seq<nat>, state: TabState) returns (after: TabState)
    requires context.Valid()
    requires forall k :: 0 <= k < |offsets| ==> offsets[k] < |ListedCategories(context.categories)|
    modifies context, context.expenses`category
    ensures context.Valid()
    ensures context.categories == Without(old(context.categories),
      Elements(old(Deletable(AtOffsets(ListedCategories(context.categories), offsets)))))
    ensures forall c :: c in old(context.categories) && old(c.HasExpenses()) ==> c in context.categories
    ensures context.expenses == old(context.expenses)
    ensures forall e :: e in context.expenses ==> e.category == old(e.category)
    ensures var blocked := old(LastBlocked(AtOffsets(ListedCategories(context.categories), offsets)));
      after.showingDeleteAlert == (state.showingDeleteAlert || blocked.Some?)
      && after.categoryToDelete == if blocked.Some? then blocked.value else state.categoryToDelete
  {
    var listed := ListedCategories(context.categories);
    var swiped := AtOffsets(listed, offsets);
    BlockedAreKept(context.categories, swiped);
    after := DeleteSwiped(context, swiped, state);
  }

  /** The loop of `deleteCategory(at:)` over the categories that were swiped. */
  method DeleteSwiped(context: ModelContext, swiped: seq<CategoryEntity>, state: TabState) returns (after: TabState)
    requires context.Valid()
    modifies context, context.expenses`category
    ensures context.Valid()
    ensures context.categories == Without(old(context.categories), Elements(old(Deletable(swiped))))
    ensures context.expenses == old(context.expenses)
    ensures forall e :: e in context.expenses ==> e.category == old(e.category)
    ensures var blocked := old(LastBlocked(swiped));
      after.showingDeleteAlert == (state.showingDeleteAlert || blocked.Some?)
      && after.categoryToDelete == if blocked.Some? then blocked.value else state.categoryToDelete
  {
    var showing, toDelete := state.showingDeleteAlert, state.categoryToDelete;
    ghost var flags := Flags(swiped);
    ghost var base := context.categories;
    WithoutAbsent(base, {});
    assert swiped[..0] == [] && flags[..0] == [];
    for k := 0 to |swiped|
      invariant forall i :: 0 <= i < |swiped| ==> swiped[i].expenses == old(swiped[i].expenses)
      invariant forall i :: 0 <= i < |swiped| ==> swiped[i].HasExpenses() == flags[i]
      invariant context.Valid()
      invariant context.categories == Without(base, Elements(DeletableBy(swiped[..k], flags[..k])))
      invariant context.expenses == old(context.expenses)
      invariant forall e :: e in context.expenses ==> e.category == old(e.category)
      invariant var b := LastBlockedBy(swiped[..k], flags[..k]);
        showing == (state.showingDeleteAlert || b.Some?)
        && toDelete == if b.Some? then b.value else state.categoryToDelete
    {
      showing, toDelete := SwipeStep(context, base, swiped, flags, k, state, showing, toDelete);
    }
    assert swiped[..|swiped|] == swiped && flags[..|swiped|] == flags;
    after := TabState(showing, toDelete);
  }

  /** One pass of the loop of `deleteCategory(at:)`: the category at swiped offset `k`. */
  method SwipeStep(context: ModelContext, ghost base: seq<CategoryEntity>, swiped: seq<CategoryEntity>,
                   ghost flags: seq<bool>, k: nat, ghost state: TabState, showing: bool, toDelete: CategoryEntity?)
    returns (showing': bool, toDelete': CategoryEntity?)
    requires k < |swiped| == |flags|
    requires forall i :: 0 <= i < |swiped| ==> swiped[i].HasExpenses() == flags[i]
    requires context.Valid()
    requires context.categories == Without(base, Elements(DeletableBy(swiped[..k], flags[..k])))
    requires var b := LastBlockedBy(swiped[..k], flags[..k]);
      showing == (state.showingDeleteAlert || b.Some?)
      && toDelete == if b.Some? then b.value else state.categoryToDelete
    modifies context, context.expenses`category
    ensures forall i :: 0 <= i < |swiped| ==> swiped[i].expenses == old(swiped[i].expenses)
    ensures context.Valid()
    ensures context.categories == Without(base, Elements(DeletableBy(swiped[..k + 1], flags[..k + 1])))
    ensures context.expenses == old(context.expenses)
    ensures forall e :: e in context.expenses ==> e.category == old(e.category)
    ensures var b := LastBlockedBy(swiped[..k + 1], flags[..k + 1]);
      showing' == (state.showingDeleteAlert || b.Some?)
      && toDelete' == if b.Some? then b.value else state.categoryToDelete
  {
    var category := swiped[k];
    LastBlockedStep(swiped, flags, k);
    DeletableStep(swiped, flags, k);
    if category.HasExpenses() {
      toDelete' := category;
      showing' := true;
    } else {
      showing', toDelete' := showing, toDelete;
      ElementsAppend(DeletableBy(swiped[..k], flags[..k]), category);
      DeleteStep(context, base, Elements(DeletableBy(swiped[..k], flags[..k])), category, swiped);
    }
  }

  /** Deleting the deletable categories keeps every category that has expenses. */
  lemma BlockedAreKept(cats: seq<CategoryEntity>, swiped: seq<CategoryEntity>)
    ensures forall c :: c in cats && c.HasExpenses() ==> c in Without(cats, Elements(Deletable(swiped)))
  {
    forall c | c in cats && c.HasExpenses() ensures c !in Elements(Deletable(swiped)) {
      ElementsAreMembers(Deletable(swiped), c);
    }
  }

  /** The deletable categories of one more swiped category. */
  lemma DeletableStep(s: seq<CategoryEntity>, flags: seq<bool>, k: nat)
    requires |flags| == |s| && k < |s|
    ensures DeletableBy(s[..k + 1], flags[..k + 1])
      == if flags[k] then DeletableBy(s[..k], flags[..k]) else DeletableBy(s[..k], flags[..k]) + [s[k]]
  {
    assert s[..k + 1][..k] == s[..k] && flags[..k + 1][..k] == flags[..k];
  }

  /** The last blocked category of one more swiped category. */
  lemma LastBlockedStep(s: seq<CategoryEntity>, flags: seq<bool>, k: nat)
    requires |flags| == |s| && k < |s|
    ensures LastBlockedBy(s[..k + 1], flags[..k + 1])
      == if flags[k] then Some(s[k]) else LastBlockedBy(s[..k], flags[..k])
  {
    assert s[..k + 1][..k] == s[..k] && flags[..k + 1][..k] == flags[..k];
  }

  /**
   * One `modelContext.delete` of a category without expenses: no stored expense refers
   * to it, so the nullify rule changes no expense.
   */
  method DeleteStep(context: ModelContext, ghost base: seq<CategoryEntity>, ghost gone: set<CategoryEntity>,
                    c: CategoryEntity, ghost others: seq<CategoryEntity>)
    requires context.Valid() && !c.HasExpenses()
    requires context.categories == Without(base, gone)
    modifies context, context.expenses`category
    ensures context.Valid()
    ensures forall i :: 0 <= i < |others| ==> others[i].expenses == old(others[i].expenses)
    ensures context.categories == Without(base, gone + {c})
    ensures context.expenses == old(context.expenses)
    ensures forall e :: e in context.expenses ==> e.category == old(e.category)
  {
    if c in context.categories {
      HasExpensesIffReferenced(context, c);
    }
    WithoutTwice(base, gone, {c});
    context.DeleteCategory(c);
  }

  /**
   * `moveCategory(from:to:)`: the shown list is reordered as `Array.move` does and every
   * category's `sortOrder` becomes its position in the reordered list, so the stored
   * sort orders become exactly 0..n-1. Nothing else of any category, and nothing of the
   * context, changes.
   */
  method MoveCategory(context: ModelContext, source: set<nat>, destination: nat)
    returns (reordered: seq<CategoryEntity>)
    requires context.Valid()
    requires destination <= |ListedCategories(context.categories)|
    modifies context.categories
    ensures reordered == Move(old(ListedCategories(context.categories)), source, destination)
    ensures multiset(reordered) == multiset(context.categories)
    ensures forall i :: 0 <= i < |reordered| ==> reordered[i].sortOrder == i
    ensures forall c :: c in context.categories ==>
      (c.name == old(c.name) && c.icon == old(c.icon) && c.id == old(c.id)
       && c.createdAt == old(c.createdAt) && c.expenses == old(c.expenses))
    ensures context.Valid()
    ensures SortOrdersAreOffsets(context.categories)
  {
    var listed := ListedCategories(context.categories);
    reordered := Move(listed, source, destination);
    MovePermutes(listed, source, destination);
    PermutationDistinct(context.categories, reordered);
    Renumber(context, reordered);
    SortOrdersContiguous(context.categories, reordered);
  }

  /** The renumbering loop of `moveCategory(from:to:)`. */
  method Renumber(context: ModelContext, reordered: seq<CategoryEntity>)
    requires context.Valid()
    requires Distinct(reordered) && multiset(reordered) == multiset(context.categories)
    modifies context.categories
    ensures forall i :: 0 <= i < |reordered| ==> reordered[i].sortOrder == i
    ensures forall c :: c in context.categories ==>
      (c.name == old(c.name) && c.icon == old(c.icon) && c.id == old(c.id)
       && c.createdAt == old(c.createdAt) && c.expenses == old(c.expenses))
    ensures context.Valid()
  {
    for i := 0 to |reordered|
      invariant forall j :: 0 <= j < i ==> reordered[j].sortOrder == j
      invariant forall c :: c in context.categories ==>
        (c.name == old(c.name) && c.icon == old(c.icon) && c.id == old(c.id)
         && c.createdAt == old(c.createdAt) && c.expenses == old(c.expenses))
    {
      assert reordered[i] in multiset(context.categories);
      reordered[i].sortOrder := i;
    }
  }

  /** The sort orders of the categories in `cats`. */
  function SortOrders(cats: seq<CategoryEntity>): (r: set<int>)
    reads cats
    ensures forall c :: c in cats ==> c.sortOrder in r
    ensures forall o :: o in r ==> exists c :: c in cats && c.sortOrder == o
  {
    set c | c in cats :: c.sortOrder
  }

  /** Every category's sort order is an offset of the list, and no two share one. */
  predicate SortOrdersAreOffsets(cats: seq<CategoryEntity>)
    reads cats
  {
    (forall c :: c in cats ==> 0 <= c.sortOrder < |cats|)
    && (forall i, j :: 0 <= i < |cats| && 0 <= j < |cats| && i != j ==> cats[i].sortOrder != cats[j].sortOrder)
  }

  /**
   * Numbering a permutation of repetition-free `cats` by position leaves the sort
   * orders exactly 0..n-1: in range, unique, and (counting) each one taken.
   */
  lemma SortOrdersContiguous(cats: seq<CategoryEntity>, reordered: seq<CategoryEntity>)
    requires Distinct(cats)
    requires multiset(reordered) == multiset(cats)
    requires forall i :: 0 <= i < |reordered| ==> reordered[i].sortOrder == i
    ensures SortOrdersAreOffsets(cats)
    ensures forall i :: 0 <= i < |cats| ==> i in SortOrders(cats)
  {
    PermutationDistinct(cats, reordered);
    assert |reordered| == |cats| by {
      assert |multiset(reordered)| == |multiset(cats)|;
    }
    forall c | c in cats ensures c in reordered {
      assert c in multiset(reordered);
    }
    forall i | 0 <= i < |cats| ensures i in SortOrders(cats) {
      assert reordered[i] in multiset(cats);
      assert reordered[i].sortOrder == i;
    }
    forall i, j | 0 <= i < |cats| && 0 <= j < |cats| && i != j ensures cats[i].sortOrder != cats[j].sortOrder {
      assert cats[i] in reordered && cats[j] in reordered;
      var a :| 0 <= a < |reordered| && reordered[a] == cats[i];
      var b :| 0 <= b < |reordered| && reordered[b] == cats[j];
    }
  }
}
