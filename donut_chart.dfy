/**
 * The geometry of the donut chart: segment `i` of the category rows runs from
 * 3.6 times the sum of the percentages before it, minus 90 degrees, to 3.6 times
 * the sum up to and including it, minus 90 degrees; its colour is taken from a
 * fixed palette of ten by the row index modulo ten. Angles are exact reals.
 */
module DonutChart {
  import opened StatsTab
  import opened Models

  datatype Colour = Blue | Green | Orange | Purple | Pink | Red | Yellow | Cyan | Mint | Indigo

  /** The chart's palette, in order. */
  const Palette: seq<Colour> := [Blue, Green, Orange, Purple, Pink, Red, Yellow, Cyan, Mint, Indigo]

  function Percentages(stats: seq<CategoryStat>): (ps: seq<real>)
    ensures |ps| == |stats| && forall i :: 0 <= i < |stats| ==> ps[i] == stats[i].percentage
  {
    seq(|stats|, i requires 0 <= i < |stats| => stats[i].percentage)
  }

  function Sum(xs: seq<real>): real {
    if xs == [] then 0.0 else Sum(xs[..|xs| - 1]) + xs[|xs| - 1]
  }

  /** `Array.prefix(k)`: the first `k` elements, or all of them when there are fewer. */
  function Prefix(xs: seq<real>, k: nat): (p: seq<real>)
    ensures |p| == if k <= |xs| then k else |xs|
    ensures p == xs[..|p|]
  {
    if k <= |xs| then xs[..k] else xs
  }

  /** `startAngle(for:)`, in degrees. */
  function StartAngle(stats: seq<CategoryStat>, index: nat): real {
    Sum(Prefix(Percentages(stats), index)) * 3.6 - 90.0
  }

  /** `endAngle(for:)`, in degrees. */
  function EndAngle(stats: seq<CategoryStat>, index: nat): real {
    Sum(Prefix(Percentages(stats), index + 1)) * 3.6 - 90.0
  }

  /** `index % colors.count`. */
  function ColourIndex(index: nat): (k: nat)
    ensures k < |Palette|
  {
    index % |Palette|
  }

  function SegmentColour(index: nat): Colour {
    Palette[ColourIndex(index)]
  }

  /** What the chart draws for one row. */
  datatype ChartSegment = ChartSegment(category: CategoryEntity, startAngle: real, endAngle: real, colour: Colour)

  /** The `ForEach` over the enumerated rows. */
  function Segments(stats: seq<CategoryStat>): (segs: seq<ChartSegment>)
    ensures |segs| == |stats|
    ensures forall i :: 0 <= i < |stats| ==> segs[i].category == stats[i].category
  {
    seq(|stats|, i requires 0 <= i < |stats| =>
      ChartSegment(stats[i].category, StartAngle(stats, i), EndAngle(stats, i), SegmentColour(i)))
  }

  /** The first segment starts at the top of the circle. */
  lemma FirstSegmentStartsAtTop(stats: seq<CategoryStat>)
    ensures StartAngle(stats, 0) == -90.0
  {
  }

  lemma SumAppend(xs: seq<real>, i: nat)
    requires i < |xs|
    ensures Sum(xs[..i + 1]) == Sum(xs[..i]) + xs[i]
  {
    assert xs[..i + 1][..i] == xs[..i];
  }

  /** Each segment spans 3.6 degrees per percentage point of its row. */
  lemma SegmentSpan(stats: seq<CategoryStat>, i: nat)
    requires i < |stats|
    ensures EndAngle(stats, i) - StartAngle(stats, i) == 3.6 * stats[i].percentage
  {
    SumAppend(Percentages(stats), i);
  }

  /** A segment ends where the next one starts: no gap and no overlap. */
  lemma SegmentsMeet(stats: seq<CategoryStat>, i: nat)
    ensures EndAngle(stats, i) == StartAngle(stats, i + 1)
  {
  }

  /** With no negative percentages, start angles never decrease along the rows. */
  lemma {:induction false} AnglesNonDecreasing(stats: seq<CategoryStat>, i: nat, j: nat)
    requires forall k :: 0 <= k < |stats| ==> stats[k].percentage >= 0.0
    requires i <= j
    ensures StartAngle(stats, i) <= StartAngle(stats, j)
  {
    if i < j {
      AnglesNonDecreasing(stats, i, j - 1);
      if j - 1 < |stats| {
        SegmentSpan(stats, j - 1);
        assert StartAngle(stats, j) == EndAngle(stats, j - 1);
      } else {
        assert Prefix(Percentages(stats), j) == Prefix(Percentages(stats), j - 1);
      }
    }
  }

  /** When the percentages add up to 100, the last segment ends a full turn after the first starts. */
  lemma FullCircle(stats: seq<CategoryStat>)
    requires stats != [] && Sum(Percentages(stats)) == 100.0
    ensures EndAngle(stats, |stats| - 1) == 270.0
    ensures EndAngle(stats, |stats| - 1) == StartAngle(stats, 0) + 360.0
  {
    assert Prefix(Percentages(stats), |stats|) == Percentages(stats);
  }

  lemma {:induction false} SumOfPercentages(stats: seq<CategoryStat>)
    ensures Sum(Percentages(stats)) == PercentTotal(stats)
  {
    if stats != [] {
      var init := stats[..|stats| - 1];
      SumOfPercentages(init);
      assert Percentages(stats)[..|stats| - 1] == Percentages(init);
    }
  }

  /**
   * The segments of a month's statistics partition the circle: adjacent segments meet,
   * and when the total is positive and every expense has a category the last one ends
   * at 270 degrees, a full turn after the first starts.
   */
  lemma SegmentsPartitionCircle(es: seq<ExpenseEntity>, stats: seq<CategoryStat>)
    requires IsStatsOf(es, stats) && stats != [] && TotalSpent(es) > 0
    requires forall e :: e in es ==> e.category != null
    ensures forall i :: 0 <= i < |stats| - 1 ==> Segments(stats)[i].endAngle == Segments(stats)[i + 1].startAngle
    ensures Segments(stats)[|stats| - 1].endAngle == Segments(stats)[0].startAngle + 360.0
  {
    PercentagesSumTo100(es, stats);
    SumOfPercentages(stats);
    SegmentsClose(stats);
  }

  /** The drawn segments meet end to start and, for percentages adding up to 100, close the circle. */
  lemma SegmentsClose(stats: seq<CategoryStat>)
    requires stats != [] && Sum(Percentages(stats)) == 100.0
    ensures forall i :: 0 <= i < |stats| - 1 ==> Segments(stats)[i].endAngle == Segments(stats)[i + 1].startAngle
    ensures Segments(stats)[|stats| - 1].endAngle == Segments(stats)[0].startAngle + 360.0
  {
    FullCircle(stats);
  }

  /** Colours repeat every ten rows and depend on nothing but the position. */
  lemma ColoursRepeat(i: nat)
    ensures SegmentColour(i + |Palette|) == SegmentColour(i)
  {
    var q := i / 10;
    assert i + 10 == (q + 1) * 10 + i % 10;
    assert (i + 10) % 10 == i % 10;
  }
}
