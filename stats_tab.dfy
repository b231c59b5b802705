/**
 * The monthly statistics of the Stats tab: the expenses of the selected month,
 * their exact total, and one entry per category with its exact sum and its share
 * of the total in percent, largest first.
 *
 * Amounts are exact (cents); percentages are exact reals, standing for the
 * `Double` values the source computes.
 */
module StatsTab {
  import opened Collections
  import opened Models
  import Calendar
  import Money

  /** `filteredExpenses`: the expenses dated in the year and month of `selected`, in stored order. */
  function InMonth(all: seq<ExpenseEntity>, selected: Calendar.Date): (r: seq<ExpenseEntity>)
    reads all
    ensures forall e :: e in r ==> e in all && Calendar.IsSameMonth(e.date, selected)
    ensures forall e :: e in all ==>
      multiset(r)[e] == if Calendar.IsSameMonth(e.date, selected) then multiset(all)[e] else 0
  {
    if all == [] then []
    else
      var rest := InMonth(all[1..], selected);
      assert all == [all[0]] + all[1..];
      if Calendar.IsSameMonth(all[0].date, selected) then [all[0]] + rest else rest
  }

  /** `totalSpent`: the exact sum of the amounts, uncategorised expenses included. */
  function TotalSpent(es: seq<ExpenseEntity>): Money.Cents
    reads es
  {
    if es == [] then 0 else TotalSpent(es[..|es| - 1]) + es[|es| - 1].Amount()
  }

  /** The categories the expenses refer to. */
  function CategoriesOf(es: seq<ExpenseEntity>): (r: set<CategoryEntity>)
    reads es
    ensures forall e :: e in es && e.category != null ==> e.category in r
  {
    if es == [] then {}
    else
      var last := es[|es| - 1];
      assert forall e :: e in es ==> e in es[..|es| - 1] || e == last;
      CategoriesOf(es[..|es| - 1]) + if last.category == null then {} else {last.category as CategoryEntity}
  }

  /** Every category in `CategoriesOf(es)` is the category of one of the expenses. */
  lemma {:induction false} CategoriesOfReferenced(es: seq<ExpenseEntity>, c: CategoryEntity)
    requires c in CategoriesOf(es)
    ensures exists e :: e in es && e.category == c
  {
    var init := es[..|es| - 1];
    if c in CategoriesOf(init) {
      CategoriesOfReferenced(init, c);
      var e :| e in init && e.category == c;
      assert e in es;
    } else {
      assert es[|es| - 1] in es;
    }
  }

  /** The exact sum of the amounts of the expenses that refer to `c`. */
  function CategorySum(es: seq<ExpenseEntity>, c: CategoryEntity): (r: Money.Cents)
    reads es
    ensures c !in CategoriesOf(es) ==> r == 0
  {
    if es == [] then 0
    else
      var last := es[|es| - 1];
      CategorySum(es[..|es| - 1], c) + if last.category == c then last.Amount() else 0
  }

  /** The exact sum of the amounts of the expenses without a category. */
  function UncategorisedSum(es: seq<ExpenseEntity>): (r: Money.Cents)
    reads es
    ensures (forall e :: e in es ==> e.category != null) ==> r == 0
  {
    if es == [] then 0
    else
      var last := es[|es| - 1];
      UncategorisedSum(es[..|es| - 1]) + if last.category == null then last.Amount() else 0
  }

  /** The exact sum of the amounts of the expenses whose category is in `cats`. */
  function SumIn(es: seq<ExpenseEntity>, cats: set<CategoryEntity>): Money.Cents
    reads es
  {
    if es == [] then 0
    else
      var last := es[|es| - 1];
      SumIn(es[..|es| - 1], cats) + if last.category != null && last.category in cats then last.Amount() else 0
  }

  /** One row of `categoryStats`. */
  datatype CategoryStat = CategoryStat(category: CategoryEntity, amount: Money.Cents, percentage: real)

  /** A category's share of the total in percent; 0 when the total is not positive. */
  function Percentage(amount: Money.Cents, total: Money.Cents): (p: real)
    ensures total > 0 ==> p * (total as real) == (amount as real) * 100.0
    ensures total <= 0 ==> p == 0.0
  {
    if total > 0 then (amount as real) / (total as real) * 100.0 else 0.0
  }

  function StatCategories(stats: seq<CategoryStat>): set<CategoryEntity> {
    set i | 0 <= i < |stats| :: stats[i].category
  }

  predicate IsSortedByAmount(stats: seq<CategoryStat>) {
    forall i, j :: 0 <= i < j < |stats| ==> stats[i].amount >= stats[j].amount
  }

  predicate DistinctCategories(stats: seq<CategoryStat>) {
    forall i, j :: 0 <= i < j < |stats| ==> stats[i].category != stats[j].category
  }

  /** Every row carries its category's exact sum and that sum's share of `total`. */
  predicate RowsMatch(es: seq<ExpenseEntity>, stats: seq<CategoryStat>, total: Money.Cents)
    reads es
  {
    forall i :: 0 <= i < |stats| ==>
      stats[i].amount == CategorySum(es, stats[i].category)
      && stats[i].percentage == Percentage(stats[i].amount, total)
  }

  /**
   * `stats` is a `categoryStats` result for the month's expenses `es`: one row for each
   * category some expense refers to and no other, each with its exact sum and its
   * percentage of the total, largest amount first (equal amounts in any order).
   */
  predicate IsStatsOf(es: seq<ExpenseEntity>, stats: seq<CategoryStat>)
    reads es
  {
    StatCategories(stats) == CategoriesOf(es)
    && DistinctCategories(stats)
    && RowsMatch(es, stats, TotalSpent(es))
    && IsSortedByAmount(stats)
  }

  function InsertByAmount(x: CategoryStat, s: seq<CategoryStat>): (r: seq<CategoryStat>)
    requires IsSortedByAmount(s)
    ensures IsSortedByAmount(r)
    ensures multiset(r) == multiset(s) + multiset{x}
  {
    if s == [] || x.amount >= s[0].amount then
      PrependSorted(x, s);
      [x] + s
    else
      var tail := InsertByAmount(x, s[1..]);
      HeadAboveInserted(x, s, tail);
      PrependSorted(s[0], tail);
      assert s == [s[0]] + s[1..];
      [s[0]] + tail
  }

  /** A row at least as large as every row of a sorted list can head it. */
  lemma PrependSorted(head: CategoryStat, s: seq<CategoryStat>)
    requires IsSortedByAmount(s)
    requires s != [] ==> head.amount >= s[0].amount
    ensures IsSortedByAmount([head] + s)
  {
    var r := [head] + s;
    forall i, j | 0 <= i < j < |r| ensures r[i].amount >= r[j].amount {
      if i == 0 {
        assert r[j] == s[j - 1];
      } else {
        assert r[i] == s[i - 1] && r[j] == s[j - 1];
      }
    }
  }

  /** Inserting a smaller row behind the head of a sorted list leaves the head the largest. */
  lemma HeadAboveInserted(x: CategoryStat, s: seq<CategoryStat>, tail: seq<CategoryStat>)
    requires IsSortedByAmount(s) && s != [] && x.amount < s[0].amount
    requires multiset(tail) == multiset(s[1..]) + multiset{x}
    ensures tail != [] ==> s[0].amount >= tail[0].amount
  {
    if tail != [] {
      assert tail[0] in multiset(tail);
      if tail[0] != x {
        assert tail[0] in s[1..];
        var j :| 0 <= j < |s[1..]| && s[1..][j] == tail[0];
        assert s[j + 1] == tail[0];
      }
    }
  }

  /** `sorted { $0.amount > $1.amount }`: largest amount first, a permutation of the input. */
  function SortByAmount(s: seq<CategoryStat>): (r: seq<CategoryStat>)
    ensures IsSortedByAmount(r)
    ensures multiset(r) == multiset(s)
  {
    if s == [] then []
    else
      assert s == [s[0]] + s[1..];
      InsertByAmount(s[0], SortByAmount(s[1..]))
  }

  /**
   * The dictionary loop of `categoryStats`: one pass over the expenses, adding each
   * categorised amount to its category's entry (`stats[category, default: 0] += amount`).
   */
  method SumsByCategory(filtered: seq<ExpenseEntity>) returns (sums: map<CategoryEntity, Money.Cents>)
    ensures sums.Keys == CategoriesOf(filtered)
    ensures forall c :: c in sums ==> sums[c] == CategorySum(filtered, c)
  {
    sums := map[];
    for i := 0 to |filtered|
      invariant sums.Keys == CategoriesOf(filtered[..i])
      invariant forall c :: c in sums ==> sums[c] == CategorySum(filtered[..i], c)
    {
      assert filtered[..i + 1][..i] == filtered[..i];
      var e := filtered[i];
      if e.category != null {
        var c: CategoryEntity := e.category;
        sums := sums[c := (if c in sums then sums[c] else 0) + e.Amount()];
      }
    }
    assert filtered[..|filtered|] == filtered;
  }

  /** `stats.map`: one row per dictionary entry, taken in no particular order. */
  method RowsOf(sums: map<CategoryEntity, Money.Cents>, total: Money.Cents) returns (rows: seq<CategoryStat>)
    ensures StatCategories(rows) == sums.Keys
    ensures DistinctCategories(rows)
    ensures forall i :: 0 <= i < |rows| ==>
      (rows[i].category in sums
       && rows[i].amount == sums[rows[i].category]
       && rows[i].percentage == Percentage(rows[i].amount, total))
  {
    rows := [];
    var rest := sums.Keys;
    while rest != {}
      invariant rest <= sums.Keys
      invariant StatCategories(rows) == sums.Keys - rest
      invariant DistinctCategories(rows)
      invariant forall i :: 0 <= i < |rows| ==>
        (rows[i].category in sums
         && rows[i].amount == sums[rows[i].category]
         && rows[i].percentage == Percentage(rows[i].amount, total))
      decreases rest
    {
      var c :| c in rest;
      StatCategoriesAppend(rows, CategoryStat(c, sums[c], Percentage(sums[c], total)));
      rows := rows + [CategoryStat(c, sums[c], Percentage(sums[c], total))];
      rest := rest - {c};
    }
  }

  /**
   * `categoryStats`: sums the amounts per category in a dictionary, turns each entry
   * into a row with its percentage of the month's total, and sorts the rows.
   */
  method CategoryStats(filtered: seq<ExpenseEntity>) returns (stats: seq<CategoryStat>)
    ensures IsStatsOf(filtered, stats)
  {
    var sums := SumsByCategory(filtered);
    var total := TotalSpent(filtered);
    var rows := RowsOf(sums, total);
    stats := SortByAmount(rows);
    SortedRowsKeepShape(filtered, rows, stats, total);
  }

  lemma StatCategoriesAppend(rows: seq<CategoryStat>, x: CategoryStat)
    ensures StatCategories(rows + [x]) == StatCategories(rows) + {x.category}
  {
    var r := rows + [x];
    forall c | c in StatCategories(r) ensures c in StatCategories(rows) + {x.category} {
      var i :| 0 <= i < |r| && r[i].category == c;
      if i < |rows| { assert rows[i].category == c; }
    }
    forall c | c in StatCategories(rows) ensures c in StatCategories(r) {
      var i :| 0 <= i < |rows| && rows[i].category == c;
      assert r[i].category == c;
    }
    assert r[|rows|].category == x.category;
  }

  /** Reordering the rows keeps them matching, and keeps one row per category. */
  lemma SortedRowsKeepShape(es: seq<ExpenseEntity>, rows: seq<CategoryStat>, stats: seq<CategoryStat>, total: Money.Cents)
    requires multiset(stats) == multiset(rows)
    requires DistinctCategories(rows) && RowsMatch(es, rows, total)
    ensures DistinctCategories(stats) && RowsMatch(es, stats, total)
    ensures StatCategories(stats) == StatCategories(rows)
  {
    forall i | 0 <= i < |stats| ensures stats[i] in rows {
      assert stats[i] in multiset(rows);
    }
    forall i | 0 <= i < |rows| ensures rows[i] in stats {
      assert rows[i] in multiset(stats);
    }
    assert Distinct(rows) by {
      forall i, j | 0 <= i < j < |rows| ensures rows[i] != rows[j] {
        assert rows[i].category != rows[j].category;
      }
    }
    PermutationDistinct(rows, stats);
    forall c | c in StatCategories(stats) ensures c in StatCategories(rows) {
      var i :| 0 <= i < |stats| && stats[i].category == c;
      var j :| 0 <= j < |rows| && rows[j] == stats[i];
    }
    forall c | c in StatCategories(rows) ensures c in StatCategories(stats) {
      var i :| 0 <= i < |rows| && rows[i].category == c;
      var j :| 0 <= j < |stats| && stats[j] == rows[i];
    }
  }

  /** Sum of the amounts of the rows. */
  function AmountTotal(stats: seq<CategoryStat>): Money.Cents {
    if stats == [] then 0 else AmountTotal(stats[..|stats| - 1]) + stats[|stats| - 1].amount
  }

  /** Sum of the percentages of the rows. */
  function PercentTotal(stats: seq<CategoryStat>): real {
    if stats == [] then 0.0 else PercentTotal(stats[..|stats| - 1]) + stats[|stats| - 1].percentage
  }

  lemma {:induction false} SumInAddCategory(es: seq<ExpenseEntity>, cats: set<CategoryEntity>, c: CategoryEntity)
    requires c !in cats
    ensures SumIn(es, cats + {c}) == SumIn(es, cats) + CategorySum(es, c)
  {
    if es != [] {
      SumInAddCategory(es[..|es| - 1], cats, c);
    }
  }

  lemma {:induction false} RowsSumIn(es: seq<ExpenseEntity>, stats: seq<CategoryStat>)
    requires DistinctCategories(stats)
    requires forall i :: 0 <= i < |stats| ==> stats[i].amount == CategorySum(es, stats[i].category)
    ensures AmountTotal(stats) == SumIn(es, StatCategories(stats))
  {
    if stats != [] {
      var init, last := stats[..|stats| - 1], stats[|stats| - 1];
      RowsSumIn(es, init);
      assert StatCategories(stats) == StatCategories(init) + {last.category} by {
        forall c | c in StatCategories(stats) ensures c in StatCategories(init) + {last.category} {
          var i :| 0 <= i < |stats| && stats[i].category == c;
          if i < |stats| - 1 { assert init[i].category == c; }
        }
      }
      SumInAddCategory(es, StatCategories(init), last.category);
    } else {
      assert StatCategories(stats) == {};
      SumInNone(es);
    }
  }

  lemma {:induction false} SumInNone(es: seq<ExpenseEntity>)
    ensures SumIn(es, {}) == 0
  {
    if es != [] {
      SumInNone(es[..|es| - 1]);
    }
  }

  lemma {:induction false} CoveredSum(es: seq<ExpenseEntity>, cats: set<CategoryEntity>)
    requires CategoriesOf(es) <= cats
    ensures SumIn(es, cats) + UncategorisedSum(es) == TotalSpent(es)
  {
    if es != [] {
      CoveredSum(es[..|es| - 1], cats);
    }
  }

  /**
   * The row amounts and the uncategorised amounts together make up the total exactly;
   * the rows alone make it up only when no expense of the month lacks a category.
   */
  lemma StatsPartitionTotal(es: seq<ExpenseEntity>, stats: seq<CategoryStat>)
    requires IsStatsOf(es, stats)
    ensures AmountTotal(stats) + UncategorisedSum(es) == TotalSpent(es)
  {
    RowsSumIn(es, stats);
    CoveredSum(es, StatCategories(stats));
  }

  lemma {:induction false} PercentTotalOfRows(stats: seq<CategoryStat>, total: Money.Cents)
    requires total > 0
    requires forall i :: 0 <= i < |stats| ==> stats[i].percentage == Percentage(stats[i].amount, total)
    ensures PercentTotal(stats) == (AmountTotal(stats) as real) / (total as real) * 100.0
  {
    if stats != [] {
      PercentTotalOfRows(stats[..|stats| - 1], total);
      var a, s, t := stats[|stats| - 1].amount as real, AmountTotal(stats[..|stats| - 1]) as real, total as real;
      assert s / t * 100.0 + a / t * 100.0 == (s + a) / t * 100.0;
    }
  }

  /** With a positive total and every expense categorised, the percentages add up to 100. */
  lemma PercentagesSumTo100(es: seq<ExpenseEntity>, stats: seq<CategoryStat>)
    requires IsStatsOf(es, stats) && TotalSpent(es) > 0
    requires forall e :: e in es ==> e.category != null
    ensures PercentTotal(stats) == 100.0
  {
    var total := TotalSpent(es);
    assert AmountTotal(stats) == total by {
      StatsPartitionTotal(es, stats);
    }
    assert PercentTotal(stats) == (total as real) / (total as real) * 100.0 by {
      assert RowsMatch(es, stats, total);
      PercentTotalOfRows(stats, total);
    }
    WholeIsHundred(total as real);
  }

  lemma WholeIsHundred(t: real)
    requires t > 0.0
    ensures t / t * 100.0 == 100.0
  {
  }

  /** A month in which no expense has a category has no rows (in particular, an empty month). */
  lemma NoCategorisedExpensesNoStats(es: seq<ExpenseEntity>, stats: seq<CategoryStat>)
    requires IsStatsOf(es, stats)
    requires forall e :: e in es ==> e.category == null
    ensures stats == []
  {
    if stats != [] {
      var c := stats[0].category;
      assert c in CategoriesOf(es);
      CategoriesOfReferenced(es, c);
    }
  }

  /** An empty month has a total of exactly zero. */
  lemma EmptyMonthTotal(all: seq<ExpenseEntity>, selected: Calendar.Date)
    requires forall e :: e in all ==> !Calendar.IsSameMonth(e.date, selected)
    ensures InMonth(all, selected) == [] && TotalSpent(InMonth(all, selected)) == 0
  {
  }
}
