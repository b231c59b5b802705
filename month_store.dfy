/**
 * The month cursor shared by the tabs: one selected day, moved a month at a time.
 * `now` is passed in wherever the source reads the clock.
 */
module Stores {
  import opened Calendar

  class MonthStore {
    var selectedDate: Date

    /** `init()`: the cursor starts on today. */
    constructor(now: Date)
      ensures selectedDate == now
      ensures IsCurrentMonth(now)
    {
      selectedDate := now;
    }

    /** `monthStart`: day 1 of the selected month. */
    function MonthStart(): (d: Date)
      reads this
      ensures IsSameMonth(d, selectedDate) && d.day == 1
      ensures IsAtOrBefore(d, selectedDate)
    {
      StartOfMonth(selectedDate)
    }

    /** `monthEnd`: the last day of the selected month. */
    function MonthEnd(): (d: Date)
      reads this
      ensures IsSameMonth(d, selectedDate)
      ensures d.day == DaysInMonth(selectedDate.year, selectedDate.month)
      ensures IsAtOrBefore(selectedDate, d)
    {
      EndOfMonthIsLastDay(selectedDate);
      EndOfMonth(selectedDate)
    }

    /** `previousMonth()`: the month immediately before, day clamped to its length. */
    method PreviousMonth()
      modifies this
      ensures selectedDate == AddMonths(old(selectedDate), -1)
      ensures MonthIndex(selectedDate) == MonthIndex(old(selectedDate)) - 1
    {
      selectedDate := AddMonths(selectedDate, -1);
    }

    /** `nextMonth()`: the month immediately after; nothing here stops it passing today. */
    method NextMonth()
      modifies this
      ensures selectedDate == AddMonths(old(selectedDate), 1)
      ensures MonthIndex(selectedDate) == MonthIndex(old(selectedDate)) + 1
    {
      selectedDate := AddMonths(selectedDate, 1);
    }

    /** `isCurrentMonth()`: the selected day is in the same year and month as `now`. */
    predicate IsCurrentMonth(now: Date)
      reads this
    {
      IsSameMonth(selectedDate, now)
    }
  }

  /** Going forward a month and back again returns to the same year and month. */
  method ForwardAndBack(store: MonthStore)
    modifies store
    ensures IsSameMonth(store.selectedDate, old(store.selectedDate))
    ensures store.selectedDate.day <= old(store.selectedDate.day)
  {
    store.NextMonth();
    store.PreviousMonth();
    NextThenPrevious(old(store.selectedDate));
  }
}
