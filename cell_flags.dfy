/** How getDateModel classifies a date against the timestamps that
    processCurrentCalendar sets: the three timestamps are the first of the
    month, the first of the next month and the last day of the previous
    month, and each flag of a cell is a comparison of calendar dates. */
module CellFlags {
  import opened Gregorian
  import opened DateFormat
  import opened Calendar

  /** The first of the month after month `m` of year `y`. */
  function NextFirst(y: int, m: int): (d: Date)
    requires 1 <= m <= 12
    ensures ValidDate(d) && d.day == 1
  {
    Date(MonthAfter(y, m).0, MonthAfter(y, m).1, 1)
  }

  /** Timestamps order valid dates as the calendar does. */
  lemma TimestampOrder(a: Date, b: Date)
    requires ValidDate(a) && ValidDate(b)
    ensures Timestamp(a) < Timestamp(b) <==> Before(a, b)
    ensures Timestamp(a) == Timestamp(b) <==> a == b
  {
    DayNumberOrder(a, b);
    DayNumberOrder(b, a);
  }

  /** A timestamp of a day start is never the unset marker -1. */
  lemma TimestampIsSet(d: Date)
    requires 1 <= d.month <= 12
    ensures Timestamp(d) != Unset
  {
  }

  /** The timestamps processCurrentCalendar sets are the starts of the first
      of the month, of the first of the next month and of the last day of the
      previous month. */
  lemma TimestampDates(y: int, m: int)
    requires 1 <= m <= 12
    ensures var ts := MonthTimestamps(y, m);
            && IsDateAt(Date(y, m, 1), ts.currentMonthFirstDay)
            && IsDateAt(NextFirst(y, m), ts.nextMonthFirstDay)
            && IsDateAt(Date(MonthBefore(y, m).0, MonthBefore(y, m).1, PrevMonthLength(y, m)), ts.prevMonthLastDay)
  {
    NextMonthFollows(y, m);
    PrevMonthPrecedes(y, m);
  }

  /** January 1970 and December 1969. */
  predicate EpochMonth(y: int, m: int) {
    (y == 1970 && m == 1) || (y == 1969 && m == 12)
  }

  /** A month's timestamps include the value 0, which PHP treats as false,
      exactly for January 1970 (its first day is the epoch) and December 1969
      (the first of the next month is). */
  lemma EpochMonths(y: int, m: int)
    requires 1 <= m <= 12
    ensures MonthTimestamps(y, m).currentMonthFirstDay == 0 || MonthTimestamps(y, m).nextMonthFirstDay == 0
            <==> EpochMonth(y, m)
  {
    var epoch := Date(1970, 1, 1);
    assert DayNumber(epoch) == 0;
    TimestampDates(y, m);
    if MonthTimestamps(y, m).currentMonthFirstDay == 0 {
      DayNumberInjective(Date(y, m, 1), epoch);
    }
    if MonthTimestamps(y, m).nextMonthFirstDay == 0 {
      DayNumberInjective(NextFirst(y, m), epoch);
    }
  }

  /** The text and the day of a cell are those of its date. */
  lemma CellText(y: int, m: int, d: Date, today: Date)
    requires 1 <= m <= 12 && ValidDate(d) && ValidDate(today)
    ensures CellAt(MonthTimestamps(y, m), d, today).date == FullDate(d)
    ensures CellAt(MonthTimestamps(y, m), d, today).dayOfMonth == d.day
  {
  }

  /** A cell is flagged as the previous month exactly when its date comes before the first of the month. */
  lemma PrevFlag(y: int, m: int, d: Date, today: Date)
    requires 1 <= m <= 12 && ValidDate(d) && ValidDate(today)
    ensures CellAt(MonthTimestamps(y, m), d, today).isPrevMonth <==> Before(d, Date(y, m, 1))
  {
    TimestampDates(y, m);
    TimestampIsSet(Date(y, m, 1));
    TimestampOrder(d, Date(y, m, 1));
  }

  /** A cell is flagged as the next month exactly when its date is on or after the first of the next month. */
  lemma NextFlag(y: int, m: int, d: Date, today: Date)
    requires 1 <= m <= 12 && ValidDate(d) && ValidDate(today)
    ensures CellAt(MonthTimestamps(y, m), d, today).isNextMonth <==> !Before(d, NextFirst(y, m))
  {
    TimestampDates(y, m);
    TimestampIsSet(NextFirst(y, m));
    TimestampOrder(d, NextFirst(y, m));
  }

  /** A cell is flagged as the current month exactly when its date lies from
      the first of the month up to and including the first of the next month,
      unless one of those two timestamps is 0. */
  lemma CurrentFlag(y: int, m: int, d: Date, today: Date)
    requires 1 <= m <= 12 && ValidDate(d) && ValidDate(today)
    ensures CellAt(MonthTimestamps(y, m), d, today).isCurrentMonth
            <==> !EpochMonth(y, m) && !Before(d, Date(y, m, 1)) && !Before(NextFirst(y, m), d)
  {
    TimestampDates(y, m);
    EpochMonths(y, m);
    TimestampOrder(d, Date(y, m, 1));
    TimestampOrder(NextFirst(y, m), d);
  }

  /** A cell is flagged as today exactly when its date is `today`. */
  lemma TodayFlag(y: int, m: int, d: Date, today: Date)
    requires 1 <= m <= 12 && ValidDate(d) && ValidDate(today)
    ensures CellAt(MonthTimestamps(y, m), d, today).isToday <==> d == today
  {
    FullDateInjective(today, d);
  }

  /** No cell is flagged both as the previous month and as the next month. */
  lemma PrevAndNextExclusive(y: int, m: int, d: Date, today: Date)
    requires 1 <= m <= 12 && ValidDate(d) && ValidDate(today)
    ensures !(CellAt(MonthTimestamps(y, m), d, today).isPrevMonth
              && CellAt(MonthTimestamps(y, m), d, today).isNextMonth)
  {
    PrevFlag(y, m, d, today);
    NextFlag(y, m, d, today);
    NextMonthFollows(y, m);
    DayNumberOrder(d, Date(y, m, 1));
    DayNumberOrder(d, NextFirst(y, m));
  }

  /** The upper bound of the current-month test is inclusive: the first of
      the next month is flagged both current and next, except in the two
      months whose timestamps include 0. */
  lemma NextFirstIsCurrentAndNext(y: int, m: int, today: Date)
    requires 1 <= m <= 12 && ValidDate(today)
    ensures CellAt(MonthTimestamps(y, m), NextFirst(y, m), today).isNextMonth
    ensures CellAt(MonthTimestamps(y, m), NextFirst(y, m), today).isCurrentMonth <==> !EpochMonth(y, m)
  {
    var d := NextFirst(y, m);
    NextFlag(y, m, d, today);
    CurrentFlag(y, m, d, today);
    NextMonthFollows(y, m);
    DayNumberOrder(d, Date(y, m, 1));
  }
}

