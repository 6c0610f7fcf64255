/** Worked months: the grid of August 2023 and of two Januaries whose grids
    show the leading-cell and the epoch behaviour of toArray, each with weeks
    starting on Sunday. */
module Scenarios {
  import opened Gregorian
  import opened DateFormat
  import opened Names
  import opened Calendar
  import opened CellFlags
  import opened GridProperties

  /** 1 August 2023 was a Tuesday. */
  lemma August2023Weekday()
    ensures Weekday(DayNumber(Date(2023, 8, 1))) == 1
  {
    assert DaysBeforeMonth(2023, 8) == 212;
    assert DaysBeforeYear(2023) == 738886;
  }

  /** Sunday is the last entry of the weekday table. */
  lemma SundayIndex()
    ensures IndexOf(DaysOfWeek, "Sunday") == 6
  {
    WeekdaysDistinct();
    IndexOfDistinct(DaysOfWeek, 6);
  }

  /** A Sunday-first August 2023 starts with two cells of July. */
  lemma August2023Lead()
    ensures LeadingCells(2023, 8, "Sunday") == 2
  {
    August2023Weekday();
    SundayIndex();
    LeadingCellsFormula(2023, 8, "Sunday");
  }

  /** The text of 30 July 2023. */
  lemma TextJuly30()
    ensures FullDate(Date(2023, 7, 30)) == "2023-07-30"
  {
    assert Digits(2023) == "2023";
    assert Digits(7) == "7";
    assert Digits(30) == "30";
  }

  /** The first cell of that grid is 30 July 2023, a previous-month day. */
  lemma August2023()
    ensures Grid(2023, 8, "Sunday", Date(2023, 8, 15))[0].date == "2023-07-30"
    ensures Grid(2023, 8, "Sunday", Date(2023, 8, 15))[0].isPrevMonth
  {
    August2023Lead();
    assert CellDate(2023, 8, 2, 0) == Date(2023, 7, 30);
    TextJuly30();
    GridFlags(2023, 8, "Sunday", Date(2023, 8, 15), 0);
  }

  /** 1 January 2024 was a Monday, so one cell leads in a Sunday-first grid. */
  lemma January2024Lead()
    ensures LeadingCells(2024, 1, "Sunday") == 1
  {
    assert DaysBeforeYear(2024) == 739251;
    SundayIndex();
    LeadingCellsFormula(2024, 1, "Sunday");
  }

  /** That leading cell shows day 31 but counts as next month, not previous:
      it is dated 31 December 2024. */
  lemma January2024()
    ensures !Grid(2024, 1, "Sunday", Date(2024, 1, 10))[0].isPrevMonth
    ensures Grid(2024, 1, "Sunday", Date(2024, 1, 10))[0].isNextMonth
    ensures Grid(2024, 1, "Sunday", Date(2024, 1, 10))[0].dayOfMonth == 31
  {
    January2024Lead();
    assert CellDate(2024, 1, 1, 0) == Date(2024, 12, 31);
    GridFlags(2024, 1, "Sunday", Date(2024, 1, 10), 0);
  }

  /** No cell of January 1970 is flagged as the current month. */
  lemma January1970()
    ensures forall i :: 0 <= i < GridCells ==> !Grid(1970, 1, "Sunday", Date(1970, 1, 10))[i].isCurrentMonth
  {
    forall i | 0 <= i < GridCells
      ensures !Grid(1970, 1, "Sunday", Date(1970, 1, 10))[i].isCurrentMonth
    {
      GridFlags(1970, 1, "Sunday", Date(1970, 1, 10), i);
    }
  }

  /** Constructing without arguments gives January 2023 with weeks starting on Sunday. */
  method DefaultConstruction() returns (r: Result<SimpleCalendar>)
    ensures r.Success? && r.value.month == "January" && r.value.year == 2023
    ensures r.value.firstDayOfWeek == "Sunday"
  {
    r := SimpleCalendar.Create();
  }
}
