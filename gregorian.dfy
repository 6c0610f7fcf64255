/** Proleptic Gregorian calendar arithmetic: leap years, month lengths, day
    numbers counted from 1970-01-01 and weekdays. It stands in for the host
    platform's date library that the calendar builder calls. */
module Gregorian {

  /** A calendar date; `month` is 1..12. */
  datatype Date = Date(year: int, month: int, day: int)

  /** The Gregorian leap rule: divisible by 4, and not by 100 unless by 400. */
  predicate IsLeapYear(y: int) {
    y % 4 == 0 && (y % 100 != 0 || y % 400 == 0)
  }

  /** Length of month `m` of year `y`. */
  function DaysInMonth(y: int, m: int): (n: int)
    requires 1 <= m <= 12
    ensures 28 <= n <= 31
  {
    if m == 2 then (if IsLeapYear(y) then 29 else 28)
    else if m == 4 || m == 6 || m == 9 || m == 11 then 30
    else 31
  }

  predicate ValidDate(d: Date) {
    1 <= d.month <= 12 && 1 <= d.day <= DaysInMonth(d.year, d.month)
  }

  /** Days in the months of year `y` that come before month `m` (1..13). */
  function DaysBeforeMonth(y: int, m: int): (n: int)
    requires 1 <= m <= 13
    ensures 0 <= n <= 31 * (m - 1)
  {
    if m == 1 then 0 else DaysBeforeMonth(y, m - 1) + DaysInMonth(y, m - 1)
  }

  /** Days from 0000-01-01 to the first of January of year `y` (negative
      before year 0). The three quotients count the multiples of 4, 100 and
      400 in [0, y). */
  function DaysBeforeYear(y: int): int {
    365 * y + (y + 3) / 4 - (y + 99) / 100 + (y + 399) / 400
  }

  /** DaysBeforeYear(1970): the epoch of the day numbers. */
  const EpochOffset: int := 719528

  /** Number of days from 1970-01-01 to `d`. */
  function DayNumber(d: Date): int
    requires 1 <= d.month <= 12
  {
    DaysBeforeYear(d.year) + DaysBeforeMonth(d.year, d.month) + d.day - 1 - EpochOffset
  }

  /** Weekday of day number `n`, Monday = 0 .. Sunday = 6 (1970-01-01 was a Thursday). */
  function Weekday(n: int): (w: int)
    ensures 0 <= w < 7
  {
    (n + 3) % 7
  }

  /** Year and month of the month after month `m` of year `y`. */
  function MonthAfter(y: int, m: int): (r: (int, int))
    requires 1 <= m <= 12
  {
    if m == 12 then (y + 1, 1) else (y, m + 1)
  }

  /** Year and month of the month before month `m` of year `y`. */
  function MonthBefore(y: int, m: int): (r: (int, int))
    requires 1 <= m <= 12
  {
    if m == 1 then (y - 1, 12) else (y, m - 1)
  }

  /** The calendar day after `d`. */
  function NextDay(d: Date): (r: Date)
    requires ValidDate(d)
    ensures ValidDate(r) && DayNumber(r) == DayNumber(d) + 1
  {
    if d.day < DaysInMonth(d.year, d.month) then Date(d.year, d.month, d.day + 1)
    else if d.month < 12 then Date(d.year, d.month + 1, 1)
    else
      YearStep(d.year);
      Date(d.year + 1, 1, 1)
  }

  /** The calendar day before `d`. */
  function PrevDay(d: Date): (r: Date)
    requires ValidDate(d)
    ensures ValidDate(r) && DayNumber(r) + 1 == DayNumber(d)
  {
    if d.day > 1 then Date(d.year, d.month, d.day - 1)
    else if d.month > 1 then Date(d.year, d.month - 1, DaysInMonth(d.year, d.month - 1))
    else
      YearStep(d.year - 1);
      Date(d.year - 1, 12, 31)
  }

  /** Lexicographic order of dates. */
  predicate Before(a: Date, b: Date) {
    a.year < b.year
    || (a.year == b.year && a.month < b.month)
    || (a.year == b.year && a.month == b.month && a.day < b.day)
  }

  /** The twelve month lengths add up to 366 in a leap year, else 365. */
  lemma YearLength(y: int)
    ensures DaysBeforeMonth(y, 13) == if IsLeapYear(y) then 366 else 365
  {
    var leap := if IsLeapYear(y) then 1 else 0;
    assert DaysBeforeMonth(y, 3) == 59 + leap;
    assert DaysBeforeMonth(y, 5) == 120 + leap;
    assert DaysBeforeMonth(y, 7) == 181 + leap;
    assert DaysBeforeMonth(y, 9) == 243 + leap;
    assert DaysBeforeMonth(y, 11) == 304 + leap;
  }

  /** Consecutive years start exactly one year length apart. */
  lemma YearStep(y: int)
    ensures DaysBeforeYear(y + 1) == DaysBeforeYear(y) + DaysBeforeMonth(y, 13)
  {
    YearLength(y);
    QuotientStep(y, 4);
    QuotientStep(y, 100);
    QuotientStep(y, 400);
    if y % 400 == 0 {
      CenturyOfFourHundred(y);
    }
    if y % 100 == 0 {
      FourDividesCentury(y);
    }
  }

  /** A multiple of 400 is a multiple of 100. */
  lemma CenturyOfFourHundred(y: int)
    requires y % 400 == 0
    ensures y % 100 == 0
  {
    var k := y / 400;
    assert y == 100 * (4 * k);
  }

  /** A multiple of 100 is a multiple of 4. */
  lemma FourDividesCentury(y: int)
    requires y % 100 == 0
    ensures y % 4 == 0
  {
    var k := y / 100;
    assert y == 4 * (25 * k);
  }

  /** Moving from `y` to `y + 1` adds one to the count of multiples of `d`
      in [0, y) exactly when `y` is one of them. */
  lemma QuotientStep(y: int, d: int)
    requires d == 4 || d == 100 || d == 400
    ensures (y + d) / d == (y + d - 1) / d + (if y % d == 0 then 1 else 0)
  {
    if d == 4 {
      assert (y + 4) / 4 == (y + 3) / 4 + (if y % 4 == 0 then 1 else 0);
    } else if d == 100 {
      assert (y + 100) / 100 == (y + 99) / 100 + (if y % 100 == 0 then 1 else 0);
    } else {
      assert (y + 400) / 400 == (y + 399) / 400 + (if y % 400 == 0 then 1 else 0);
    }
  }

  /** Month starts are ordered within a year. */
  lemma {:induction false} MonthStartsOrdered(y: int, i: int, j: int)
    requires 1 <= i <= j <= 13
    ensures DaysBeforeMonth(y, i) + 28 * (j - i) <= DaysBeforeMonth(y, j)
    decreases j - i
  {
    if i < j {
      MonthStartsOrdered(y, i, j - 1);
    }
  }

  /** Year starts are ordered: a whole year fits between the starts of two different years. */
  lemma {:induction false} YearStartsOrdered(a: int, b: int)
    requires a < b
    ensures DaysBeforeYear(a) + DaysBeforeMonth(a, 13) <= DaysBeforeYear(b)
    decreases b - a
  {
    YearStep(a);
    if a + 1 < b {
      YearStartsOrdered(a + 1, b);
      YearLength(a + 1);
    }
  }

  /** A valid date's day number lies inside its month and inside its year. */
  lemma DayWithinYear(d: Date)
    requires ValidDate(d)
    ensures DaysBeforeYear(d.year) - EpochOffset <= DayNumber(d)
    ensures DayNumber(d) < DaysBeforeYear(d.year) + DaysBeforeMonth(d.year, 13) - EpochOffset
  {
    MonthStartsOrdered(d.year, d.month + 1, 13);
  }

  /** A valid date of an earlier year has a smaller day number. */
  lemma EarlierYearFirst(a: Date, b: Date)
    requires ValidDate(a) && ValidDate(b) && a.year < b.year
    ensures DayNumber(a) < DayNumber(b)
  {
    DayWithinYear(a);
    DayWithinYear(b);
    YearStartsOrdered(a.year, b.year);
  }

  /** Within one year, a valid date of an earlier month has a smaller day number. */
  lemma EarlierMonthFirst(a: Date, b: Date)
    requires ValidDate(a) && ValidDate(b) && a.year == b.year && a.month < b.month
    ensures DayNumber(a) < DayNumber(b)
  {
    MonthStartsOrdered(a.year, a.month + 1, b.month);
  }

  /** Day numbers order valid dates exactly as the calendar does. */
  lemma DayNumberOrder(a: Date, b: Date)
    requires ValidDate(a) && ValidDate(b)
    ensures Before(a, b) <==> DayNumber(a) < DayNumber(b)
  {
    if a.year < b.year {
      EarlierYearFirst(a, b);
    } else if b.year < a.year {
      EarlierYearFirst(b, a);
    } else if a.month < b.month {
      EarlierMonthFirst(a, b);
    } else if b.month < a.month {
      EarlierMonthFirst(b, a);
    }
  }

  /** At most one valid date has a given day number. */
  lemma DayNumberInjective(a: Date, b: Date)
    requires ValidDate(a) && ValidDate(b) && DayNumber(a) == DayNumber(b)
    ensures a == b
  {
    DayNumberOrder(a, b);
    DayNumberOrder(b, a);
  }

  /** The first of the following month comes the day after the last day of a month. */
  lemma NextMonthFollows(y: int, m: int)
    requires 1 <= m <= 12
    ensures Date(MonthAfter(y, m).0, MonthAfter(y, m).1, 1)
            == NextDay(Date(y, m, DaysInMonth(y, m)))
  {
  }

  /** The last day of the preceding month is the day before the first of a month. */
  lemma PrevMonthPrecedes(y: int, m: int)
    requires 1 <= m <= 12
    ensures Date(MonthBefore(y, m).0, MonthBefore(y, m).1,
                 DaysInMonth(MonthBefore(y, m).0, MonthBefore(y, m).1))
            == PrevDay(Date(y, m, 1))
  {
  }
}
