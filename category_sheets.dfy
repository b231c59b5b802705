/**
 * The two category sheets. Their `@State` form (the name being typed and the chosen
 * icon) is a value; saving either creates a category after the existing ones or
 * updates the edited one in place, and does nothing for a blank name.
 */
module CategorySheets {
  import opened Models
  import opened Persistence
  import Text
  import CategoriesTab

  /** The form of both sheets: the typed name and the selected icon. */
  datatype CategoryForm = CategoryForm(name: string, selectedIcon: string)

  /** `AddCategorySheet` opens with an empty name and the default icon. */
  const NewCategoryForm := CategoryForm("", DefaultIcon)

  /** `isValid` of both sheets: the name, trimmed, is not empty. */
  predicate IsValid(form: CategoryForm) {
    Text.Trim(form.name) != []
  }

  /** A name is accepted exactly when it is not made of whitespace only. */
  lemma ValidIffNotBlank(form: CategoryForm)
    ensures IsValid(form) <==> !Text.AllWhitespace(form.name)
  {
    Text.TrimEmptyIff(form.name);
  }

  /** `categories.map(\.sortOrder).max() ?? -1`. */
  function MaxSortOrder(cats: seq<CategoryEntity>): (m: int)
    reads cats
    ensures forall i :: 0 <= i < |cats| ==> cats[i].sortOrder <= m
    ensures cats == [] ==> m == -1
    ensures cats != [] ==> exists i :: 0 <= i < |cats| && cats[i].sortOrder == m
  {
    if cats == [] then -1
    else if |cats| == 1 then cats[0].sortOrder
    else
      var m := MaxSortOrder(cats[..|cats| - 1]);
      var last := cats[|cats| - 1].sortOrder;
      if m < last then last else m
  }

  /**
   * `AddCategorySheet.saveCategory()`: for a valid form, one new category with the
   * trimmed name, the chosen icon and a sort order one above every existing one is
   * inserted; otherwise nothing happens. `id` and `now` stand for the fresh UUID and
   * `Date()`.
   */
  method SaveNewCategory(context: ModelContext, form: CategoryForm, id: UUID, now: int)
    returns (saved: CategoryEntity?)
    requires context.Valid()
    modifies context
    ensures context.Valid()
    ensures context.expenses == old(context.expenses)
    ensures !IsValid(form) ==> saved == null && context.categories == old(context.categories)
    ensures IsValid(form) ==> saved != null && fresh(saved)
    ensures IsValid(form) ==> context.categories == old(context.categories) + [saved]
    ensures IsValid(form) ==> saved.id == id && saved.createdAt == now && !saved.HasExpenses()
    ensures IsValid(form) ==> saved.name == Text.Trim(form.name) && saved.icon == form.selectedIcon
    ensures IsValid(form) ==> IsStoredName(saved.name)
    ensures IsValid(form) ==> saved.sortOrder == old(MaxSortOrder(context.categories)) + 1
    ensures IsValid(form) ==> forall c :: c in old(context.categories) ==> c.sortOrder < saved.sortOrder
    ensures IsValid(form) && CategoriesTab.SortOrdersAreOffsets(old(context.categories))
      ==> CategoriesTab.SortOrdersAreOffsets(context.categories)
  {
    var trimmed := Text.Trim(form.name);
    if trimmed == [] {
      return null;
    }
    Text.TrimIdempotent(form.name);
    saved := InsertAfterLast(context, trimmed, form.selectedIcon, id, now);
  }

  /** The insertion of `saveCategory()`: a new category numbered after every existing one. */
  method InsertAfterLast(context: ModelContext, name: string, icon: string, id: UUID, now: int)
    returns (saved: CategoryEntity)
    requires context.Valid()
    modifies context
    ensures context.Valid()
    ensures context.expenses == old(context.expenses)
    ensures fresh(saved) && context.categories == old(context.categories) + [saved]
    ensures saved.id == id && saved.createdAt == now && !saved.HasExpenses()
    ensures saved.name == name && saved.icon == icon
    ensures saved.sortOrder == old(MaxSortOrder(context.categories)) + 1
    ensures forall c :: c in old(context.categories) ==> c.sortOrder < saved.sortOrder
    ensures CategoriesTab.SortOrdersAreOffsets(old(context.categories))
      ==> CategoriesTab.SortOrdersAreOffsets(context.categories)
  {
    ghost var before := context.categories;
    var next := MaxSortOrder(context.categories) + 1;
    saved := new CategoryEntity(id, now, name, icon, next);
    context.InsertCategory(saved);
    NextSortOrder(before, saved);
  }

  /** What a saved name looks like: already trimmed, and not empty. */
  predicate IsStoredName(name: string) {
    name != [] && Text.Trim(name) == name
  }

  /**
   * Numbering the new category one above the largest existing sort order keeps the
   * sort orders of a list numbered `0 ..< n` within `0 ..< n + 1` and distinct.
   */
  lemma NextSortOrder(cats: seq<CategoryEntity>, c: CategoryEntity)
    requires c !in cats && c.sortOrder == MaxSortOrder(cats) + 1
    ensures forall d :: d in cats ==> d.sortOrder < c.sortOrder
    ensures CategoriesTab.SortOrdersAreOffsets(cats) ==> CategoriesTab.SortOrdersAreOffsets(cats + [c])
  {
    if CategoriesTab.SortOrdersAreOffsets(cats) {
      NextSortOrderKeepsOffsets(cats, c);
    }
  }

  lemma NextSortOrderKeepsOffsets(cats: seq<CategoryEntity>, c: CategoryEntity)
    requires CategoriesTab.SortOrdersAreOffsets(cats) && c !in cats
    requires c.sortOrder == MaxSortOrder(cats) + 1
    ensures CategoriesTab.SortOrdersAreOffsets(cats + [c])
  {
    var r := cats + [c];
    if cats != [] {
      var i :| 0 <= i < |cats| && cats[i].sortOrder == MaxSortOrder(cats);
      assert cats[i] in cats;
    }
    forall d | d in r ensures 0 <= d.sortOrder < |r| {
      if d != c {
        assert d in cats;
      }
    }
    forall i, j | 0 <= i < |r| && 0 <= j < |r| && i != j ensures r[i].sortOrder != r[j].sortOrder {
      if i < |cats| && j < |cats| {
        assert r[i] == cats[i] && r[j] == cats[j];
      }
    }
  }

  /** A category whose sort order exceeds every other one is listed last. */
  lemma NewCategoryListsLast(cats: seq<CategoryEntity>, c: CategoryEntity)
    requires c !in cats
    requires forall d :: d in cats ==> d.sortOrder < c.sortOrder
    ensures var r := CategoriesTab.ListedCategories(cats + [c]);
      r != [] && r[|r| - 1] == c
  {
    var r := CategoriesTab.ListedCategories(cats + [c]);
    assert c in multiset(cats + [c]);
    assert c in multiset(r);
    HighestListsLast(r, c);
  }

  /** In list order, a member whose sort order exceeds every other member's comes last. */
  lemma HighestListsLast(r: seq<CategoryEntity>, c: CategoryEntity)
    requires CategoriesTab.IsInListOrder(r) && c in r
    requires forall d :: d in r && d != c ==> d.sortOrder < c.sortOrder
    ensures r != [] && r[|r| - 1] == c
  {
    var k :| 0 <= k < |r| && r[k] == c;
    var last := r[|r| - 1];
    if last != c {
      assert false;
    }
  }

  /** `onAppear` of `EditCategorySheet`: the form starts from the category's name and icon. */
  function EditForm(category: CategoryEntity): CategoryForm
    reads category
  {
    CategoryForm(category.name, category.icon)
  }

  /**
   * `EditCategorySheet.saveCategory()`: for a valid form the category takes the trimmed
   * name and the chosen icon, and nothing else about it or the store changes; otherwise
   * nothing happens.
   */
  method SaveEditedCategory(ghost context: ModelContext, category: CategoryEntity, form: CategoryForm)
    requires context.Valid()
    modifies category`name, category`icon
    ensures context.Valid()
    ensures !IsValid(form) ==> category.name == old(category.name) && category.icon == old(category.icon)
    ensures IsValid(form) ==> category.name == Text.Trim(form.name) && category.icon == form.selectedIcon
    ensures IsValid(form) ==> IsStoredName(category.name)
  {
    var trimmed := Text.Trim(form.name);
    if trimmed == [] {
      return;
    }
    category.name := trimmed;
    category.icon := form.selectedIcon;
    ValidKept(context);
    Text.TrimIdempotent(form.name);
  }

  /**
   * Opening the edit sheet on a category whose name was saved by either sheet and
   * saving without touching the form leaves the category as it was.
   */
  method ReopenAndSaveCategory(ghost context: ModelContext, category: CategoryEntity)
    requires context.Valid() && IsStoredName(category.name)
    modifies category`name, category`icon
    ensures context.Valid()
    ensures category.name == old(category.name) && category.icon == old(category.icon)
  {
    var form := EditForm(category);
    SaveEditedCategory(context, category, form);
  }
}
