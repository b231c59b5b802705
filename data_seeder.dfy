/**
 * `DataSeeder.seedIfNeeded`: on a store without categories, the four default
 * categories are created and inserted; a store that has any category is left alone.
 */
module DataSeeder {
  import opened Models
  import opened Persistence
  import CategoriesTab
  import opened Collections
  import opened Wrappers

  /** One of the default categories: its name, icon and sort order. */
  datatype DefaultCategory = DefaultCategory(name: string, icon: string, sortOrder: int)

  /** Food, Transport, Home and Fun, numbered from 0. */
  const Defaults: seq<DefaultCategory> := [
    DefaultCategory("Food", "\U{1F354}", 0),
    DefaultCategory("Transport", "\U{1F697}", 1),
    DefaultCategory("Home", "\U{1F3E0}", 2),
    DefaultCategory("Fun", "\U{1F3AE}", 3)
  ]

  /** `cats` are the default categories, in order, with the given ids, made at `now`, without expenses. */
  predicate IsSeeded(cats: seq<CategoryEntity>, ids: seq<UUID>, now: int)
    reads cats
  {
    |cats| == |Defaults| == |ids|
    && forall i :: 0 <= i < |cats| ==>
      cats[i].name == Defaults[i].name && cats[i].icon == Defaults[i].icon
      && cats[i].sortOrder == Defaults[i].sortOrder && cats[i].id == ids[i]
      && cats[i].createdAt == now && !cats[i].HasExpenses()
  }

  /**
   * `seedIfNeeded(modelContext:)`: an empty store receives the four defaults, numbered
   * `0 ..< 4` in list order; any other store is unchanged. Afterwards the store has a
   * category either way. `ids` and `now` stand for the UUIDs and `Date()` of the four
   * initialisers.
   */
  method SeedIfNeeded(context: ModelContext, ids: seq<UUID>, now: int)
    requires context.Valid() && |ids| == |Defaults|
    modifies context
    ensures context.Valid()
    ensures context.expenses == old(context.expenses)
    ensures old(context.categories) != [] ==> context.categories == old(context.categories)
    ensures old(context.categories) == [] ==> IsSeeded(context.categories, ids, now)
    ensures old(context.categories) == [] ==> CategoriesTab.SortOrdersAreOffsets(context.categories)
    ensures old(context.categories) == [] ==> forall c :: c in context.categories ==> fresh(c)
    ensures context.categories != []
  {
    if context.categories == [] {
      var defaults := MakeDefaults(ids, now);
      InsertAll(context, defaults);
      SeededOffsets(defaults, ids, now);
    }
  }

  /** The array literal of the four new default categories. */
  method MakeDefaults(ids: seq<UUID>, now: int) returns (defaults: seq<CategoryEntity>)
    requires |ids| == |Defaults|
    ensures IsSeeded(defaults, ids, now) && Distinct(defaults)
    ensures forall c :: c in defaults ==> fresh(c) && c.expenses == Some([])
  {
    var food := new CategoryEntity(ids[0], now, Defaults[0].name, Defaults[0].icon, Defaults[0].sortOrder);
    var transport := new CategoryEntity(ids[1], now, Defaults[1].name, Defaults[1].icon, Defaults[1].sortOrder);
    var home := new CategoryEntity(ids[2], now, Defaults[2].name, Defaults[2].icon, Defaults[2].sortOrder);
    var fun := new CategoryEntity(ids[3], now, Defaults[3].name, Defaults[3].icon, Defaults[3].sortOrder);
    defaults := [food, transport, home, fun];
  }

  /** The loop `for category in defaultCategories { modelContext.insert(category) }` on an empty store. */
  method InsertAll(context: ModelContext, defaults: seq<CategoryEntity>)
    requires context.Valid() && context.categories == []
    requires Distinct(defaults) && forall c :: c in defaults ==> c.expenses == Some([])
    modifies context
    ensures context.Valid()
    ensures context.categories == defaults && context.expenses == old(context.expenses)
  {
    for k := 0 to |defaults|
      invariant context.Valid()
      invariant context.categories == defaults[..k]
      invariant context.expenses == old(context.expenses)
    {
      assert defaults[k] !in defaults[..k];
      context.InsertCategory(defaults[k]);
      assert defaults[..k + 1] == defaults[..k] + [defaults[k]];
    }
    assert defaults[..|defaults|] == defaults;
  }

  /** The defaults are numbered by their positions. */
  lemma SeededOffsets(cats: seq<CategoryEntity>, ids: seq<UUID>, now: int)
    requires IsSeeded(cats, ids, now)
    ensures CategoriesTab.SortOrdersAreOffsets(cats)
  {
    forall c | c in cats ensures 0 <= c.sortOrder < |cats| {
      var i :| 0 <= i < |cats| && cats[i] == c;
    }
  }

  /** Seeding a second time changes nothing: the store after both calls is the store after the first. */
  method SeedTwice(context: ModelContext, ids: seq<UUID>, now: int, laterIds: seq<UUID>, later: int)
    returns (afterFirst: seq<CategoryEntity>)
    requires context.Valid() && |ids| == |laterIds| == |Defaults|
    modifies context
    ensures context.Valid()
    ensures context.categories == afterFirst && context.categories != []
    ensures context.expenses == old(context.expenses)
    ensures old(context.categories) == [] ==> IsSeeded(afterFirst, ids, now)
    ensures old(context.categories) != [] ==> afterFirst == old(context.categories)
  {
    SeedIfNeeded(context, ids, now);
    afterFirst := context.categories;
    SeedIfNeeded(context, laterIds, later);
  }
}
