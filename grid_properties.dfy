/** Properties of the grid toArray returns: which date each cell shows, how
    its flags come out, and that the columns line up with the rotated
    weekday header. */
module GridProperties {
  import opened Gregorian
  import opened DateFormat
  import opened Names
  import opened Calendar
  import opened CellFlags

  /** Cell `j` of a run of day cells shows day `first + j`. */
  lemma {:induction false} DayCellsAt(ts: Timestamps, y: int, m: int, first: int, last: int, today: Date, j: int, d: Date)
    requires 1 <= m <= 12 && 1 <= first <= last + 1 && ValidDate(today)
    requires 0 <= j <= last - first && d.year == y && d.month == m && d.day == first + j
    ensures DayCells(ts, y, m, first, last, today)[j] == CellAt(ts, d, today)
    decreases last - first
  {
    if j < last - first {
      DayCellsAt(ts, y, m, first, last - 1, today, j, d);
    } else {
      assert d == Date(y, m, last);
    }
  }

  /** The date cell `i` of the grid shows when `lead` cells come before the
      first of month `m` of year `y`. */
  function CellDate(y: int, m: int, lead: int, i: int): (d: Date)
    requires 1 <= m <= 12 && 0 <= lead < 7 && 0 <= i < GridCells
    ensures 1 <= d.month <= 12 && 1 <= d.day
  {
    if i < lead then Date(y, MonthBefore(y, m).1, PrevMonthLength(y, m) - lead + 1 + i)
    else if i < lead + DaysInMonth(y, m) then Date(y, m, i - lead + 1)
    else Date(MonthAfter(y, m).0, MonthAfter(y, m).1, i - lead - DaysInMonth(y, m) + 1)
  }

  /** Cell `i` of the layout is the cell of the date CellDate gives. */
  lemma LayoutAt(ts: Timestamps, y: int, m: int, lead: int, today: Date, i: int)
    requires 1 <= m <= 12 && 0 <= lead < 7 && ValidDate(today) && 0 <= i < GridCells
    ensures Layout(ts, y, m, lead, today)[i] == CellAt(ts, CellDate(y, m, lead, i), today)
  {
    if i < lead {
      LeadingAt(ts, y, m, lead, today, i);
    } else if i < lead + DaysInMonth(y, m) {
      CurrentAt(ts, y, m, lead, today, i);
    } else {
      TrailingAt(ts, y, m, lead, today, i);
    }
  }

  lemma LeadingAt(ts: Timestamps, y: int, m: int, lead: int, today: Date, i: int)
    requires 1 <= m <= 12 && 0 <= lead < 7 && ValidDate(today) && 0 <= i < lead
    ensures Layout(ts, y, m, lead, today)[i] == CellAt(ts, CellDate(y, m, lead, i), today)
  {
    GridBounds(y, m, lead);
    DayCellsAt(ts, y, MonthBefore(y, m).1, FirstLeadingDay(y, m, lead), PrevMonthLength(y, m), today, i,
               CellDate(y, m, lead, i));
  }

  lemma CurrentAt(ts: Timestamps, y: int, m: int, lead: int, today: Date, i: int)
    requires 1 <= m <= 12 && 0 <= lead < 7 && ValidDate(today) && lead <= i < lead + DaysInMonth(y, m)
    ensures Layout(ts, y, m, lead, today)[i] == CellAt(ts, CellDate(y, m, lead, i), today)
  {
    GridBounds(y, m, lead);
    DayCellsAt(ts, y, m, 1, DaysInMonth(y, m), today, i - |LeadingRun(ts, y, m, lead, today)|,
               CellDate(y, m, lead, i));
  }

  lemma TrailingAt(ts: Timestamps, y: int, m: int, lead: int, today: Date, i: int)
    requires 1 <= m <= 12 && 0 <= lead < 7 && ValidDate(today) && lead + DaysInMonth(y, m) <= i < GridCells
    ensures Layout(ts, y, m, lead, today)[i] == CellAt(ts, CellDate(y, m, lead, i), today)
  {
    LayoutTail(ts, y, m, lead, today, i);
    TrailingRunAt(ts, y, m, lead, today, i);
  }

  /** Entry `i - |ShownRun|` of the run of next-month days is the cell of CellDate. */
  lemma TrailingRunAt(ts: Timestamps, y: int, m: int, lead: int, today: Date, i: int)
    requires 1 <= m <= 12 && 0 <= lead < 7 && ValidDate(today) && lead + DaysInMonth(y, m) <= i < GridCells
    ensures 1 <= GridCells - |ShownRun(ts, y, m, lead, today)|
    ensures 0 <= i - |ShownRun(ts, y, m, lead, today)| < GridCells - |ShownRun(ts, y, m, lead, today)|
    ensures DayCells(ts, MonthAfter(y, m).0, MonthAfter(y, m).1, 1, GridCells - |ShownRun(ts, y, m, lead, today)|, today)
              [i - |ShownRun(ts, y, m, lead, today)|]
            == CellAt(ts, CellDate(y, m, lead, i), today)
  {
    GridBounds(y, m, lead);
    DayCellsAt(ts, MonthAfter(y, m).0, MonthAfter(y, m).1, 1, GridCells - |ShownRun(ts, y, m, lead, today)|, today,
               i - |ShownRun(ts, y, m, lead, today)|, CellDate(y, m, lead, i));
  }

  /** A cell after the month's own days is taken from the run of next-month days. */
  lemma LayoutTail(ts: Timestamps, y: int, m: int, lead: int, today: Date, i: int)
    requires 1 <= m <= 12 && 0 <= lead < 7 && ValidDate(today) && lead + DaysInMonth(y, m) <= i < GridCells
    ensures Layout(ts, y, m, lead, today)[i]
            == DayCells(ts, MonthAfter(y, m).0, MonthAfter(y, m).1, 1, GridCells - |ShownRun(ts, y, m, lead, today)|, today)
               [i - |ShownRun(ts, y, m, lead, today)|]
  {
    GridBounds(y, m, lead);
  }

  /** Outside January's leading cells, the cells show consecutive days:
      cell `i` shows the day `i - lead` days after the first of the month. */
  lemma CellDayNumber(y: int, m: int, lead: int, i: int)
    requires 1 <= m <= 12 && 0 <= lead < 7 && 0 <= i < GridCells && (lead <= i || m != 1)
    ensures ValidDate(CellDate(y, m, lead, i))
    ensures DayNumber(CellDate(y, m, lead, i)) == DayNumber(Date(y, m, 1)) + i - lead
  {
    GridBounds(y, m, lead);
    if i < lead {
      PrevMonthPrecedes(y, m);
    } else if lead + DaysInMonth(y, m) <= i {
      NextMonthFollows(y, m);
    }
  }

  /** January's leading cells show the last days of December of the same
      year, not of the year before: each lies exactly one year length (that
      of the year shown) after the day it stands for. */
  lemma JanuaryLeadingCells(y: int, lead: int, i: int)
    requires 0 <= i < lead < 7
    ensures CellDate(y, 1, lead, i) == Date(y, 12, 32 - lead + i)
    ensures ValidDate(CellDate(y, 1, lead, i))
    ensures DayNumber(CellDate(y, 1, lead, i))
            == DayNumber(Date(y, 1, 1)) + i - lead + (if IsLeapYear(y) then 366 else 365)
  {
    YearLength(y);
  }

  /** The number of leading cells is how many days the configured first day
      of the week comes before the weekday of the first of the month. */
  lemma LeadingCellsFormula(y: int, m: int, firstDay: string)
    requires 1 <= m <= 12 && firstDay in DaysOfWeek
    ensures LeadingCells(y, m, firstDay)
            == (Weekday(DayNumber(Date(y, m, 1))) - IndexOf(DaysOfWeek, firstDay)) % 7
  {
    RotatedWeekIndex(firstDay, Weekday(DayNumber(Date(y, m, 1))));
  }

  /** Outside January's leading cells, the header above each cell names the
      weekday of the day the cell shows. */
  lemma ColumnWeekday(y: int, m: int, firstDay: string, i: int)
    requires 1 <= m <= 12 && firstDay in DaysOfWeek && 0 <= i < GridCells
    requires LeadingCells(y, m, firstDay) <= i || m != 1
    ensures RotatedWeek(firstDay)[i % 7]
            == DaysOfWeek[Weekday(DayNumber(CellDate(y, m, LeadingCells(y, m, firstDay), i)))]
  {
    var lead := LeadingCells(y, m, firstDay);
    LeadingCellsFormula(y, m, firstDay);
    CellDayNumber(y, m, lead, i);
    RotatedColumn(DayNumber(Date(y, m, 1)), IndexOf(DaysOfWeek, firstDay), lead, i,
                  DayNumber(CellDate(y, m, lead, i)));
  }

  /** Column `i % 7` of the weekday header rotated to start at weekday `k`
      names the weekday of day `d`, under the hypotheses of WeekColumn. */
  lemma RotatedColumn(n: int, k: int, lead: int, i: int, d: int)
    requires 0 <= k < 7 && 0 <= i && lead == (Weekday(n) - k) % 7 && d == n + i - lead
    ensures RotateLeft(DaysOfWeek, k)[i % 7] == DaysOfWeek[Weekday(d)]
  {
    RotateWeekAt(DaysOfWeek, k);
    WeekColumn(n, k, lead, i, d);
  }

  /** Column `i % 7` of a week starting on weekday `k` holds weekday
      `k + i` (mod 7). When `lead` counts the days from weekday `k` forward
      to the weekday of day `n`, that is the weekday of day `d = n + i - lead`. */
  lemma WeekColumn(n: int, k: int, lead: int, i: int, d: int)
    requires 0 <= k < 7 && 0 <= i && lead == (Weekday(n) - k) % 7 && d == n + i - lead
    ensures (k + i % 7) % 7 == Weekday(d)
  {
    var w := Weekday(n);
    WrapWeekday(w - k);
    var t := (n + 3) / 7 + i / 7 - (if w - k < 0 then 1 else 0);
    assert d + 3 == 7 * t + (k + i % 7);
    SevenfoldShift(t, k + i % 7);
  }

  /** Adding whole weeks does not change a weekday. */
  lemma SevenfoldShift(t: int, x: int)
    ensures (7 * t + x) % 7 == x % 7
  {
  }

  /** Where the date of cell `i` lies relative to the first of the month and
      the first of the next month: before the first exactly in the leading
      cells (except January's), before the next month exactly in the cells
      up to the month's last day (January's leading cells excluded), and
      after the first of the next month exactly from the second trailing cell
      on and in January's leading cells. */
  lemma CellSections(y: int, m: int, lead: int, i: int)
    requires 1 <= m <= 12 && 0 <= lead < 7 && 0 <= i < GridCells
    ensures ValidDate(CellDate(y, m, lead, i))
    ensures Before(CellDate(y, m, lead, i), Date(y, m, 1)) <==> i < lead && m != 1
    ensures Before(CellDate(y, m, lead, i), NextFirst(y, m))
            <==> lead <= i < lead + DaysInMonth(y, m) || (i < lead && m != 1)
    ensures Before(NextFirst(y, m), CellDate(y, m, lead, i))
            <==> lead + DaysInMonth(y, m) < i || (i < lead && m == 1)
  {
    var d := CellDate(y, m, lead, i);
    if i < lead && m == 1 {
      JanuaryLeadingCells(y, lead, i);
    } else {
      CellDayNumber(y, m, lead, i);
      NextMonthFollows(y, m);
      DayNumberOrder(d, Date(y, m, 1));
      DayNumberOrder(d, NextFirst(y, m));
      DayNumberOrder(NextFirst(y, m), d);
    }
  }

  /** Cell `i` of the grid toArray returns is the cell of CellDate. */
  lemma GridCellAt(y: int, m: int, firstDay: string, today: Date, i: int)
    requires 1 <= m <= 12 && firstDay in DaysOfWeek && ValidDate(today) && 0 <= i < GridCells
    ensures Grid(y, m, firstDay, today)[i]
            == CellAt(MonthTimestamps(y, m), CellDate(y, m, LeadingCells(y, m, firstDay), i), today)
  {
    LayoutAt(MonthTimestamps(y, m), y, m, LeadingCells(y, m, firstDay), today, i);
  }

  /** The flags of every grid cell, by position: the leading cells are the
      previous month's, except in January, where they are dated December of
      the same year and so count as next month's; the cells from the first of
      the month up to and including the first trailing cell are current
      (none are in January 1970 and December 1969); the trailing cells are
      next month's; and a cell is today's exactly when it shows today. */
  lemma GridFlags(y: int, m: int, firstDay: string, today: Date, i: int)
    requires 1 <= m <= 12 && firstDay in DaysOfWeek && ValidDate(today) && 0 <= i < GridCells
    ensures var lead := LeadingCells(y, m, firstDay);
            var d := CellDate(y, m, lead, i);
            var c := Grid(y, m, firstDay, today)[i];
            && c.date == FullDate(d) && c.dayOfMonth == d.day
            && (c.isPrevMonth <==> i < lead && m != 1)
            && (c.isCurrentMonth <==> !EpochMonth(y, m) && lead <= i <= lead + DaysInMonth(y, m))
            && (c.isNextMonth <==> lead + DaysInMonth(y, m) <= i || (i < lead && m == 1))
            && (c.isToday <==> d == today)
  {
    var lead := LeadingCells(y, m, firstDay);
    var d := CellDate(y, m, lead, i);
    GridCellAt(y, m, firstDay, today, i);
    CellSections(y, m, lead, i);
    CellText(y, m, d, today);
    PrevFlag(y, m, d, today);
    CurrentFlag(y, m, d, today);
    NextFlag(y, m, d, today);
    TodayFlag(y, m, d, today);
  }

  /** The day numbers the grid shows: the previous month's last `lead` days
      in ascending order, then days 1 to the month's length, then days 1, 2,
      ... of the next month up to the 42nd cell. */
  lemma GridDays(y: int, m: int, firstDay: string, today: Date, i: int)
    requires 1 <= m <= 12 && firstDay in DaysOfWeek && ValidDate(today) && 0 <= i < GridCells
    ensures var lead := LeadingCells(y, m, firstDay);
            var c := Grid(y, m, firstDay, today)[i];
            && (i < lead ==> c.dayOfMonth == PrevMonthLength(y, m) - lead + 1 + i)
            && (lead <= i < lead + DaysInMonth(y, m) ==> c.dayOfMonth == i - lead + 1)
            && (lead + DaysInMonth(y, m) <= i ==> c.dayOfMonth == i - lead - DaysInMonth(y, m) + 1)
  {
    var lead := LeadingCells(y, m, firstDay);
    GridCellAt(y, m, firstDay, today, i);
    CellSections(y, m, lead, i);
    CellText(y, m, CellDate(y, m, lead, i), today);
  }
}
