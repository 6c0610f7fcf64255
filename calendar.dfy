/** The calendar builder: the SimpleCalendar class (src/SimpleCalendar.php),
    which holds a month, a year and a first day of week and lays out the
    7 x 6 grid of a month, with the days of the previous month before it and
    of the next month after it.

    Timestamps are seconds at midnight UTC: the day number from 1970-01-01
    times 86400. The date library calls of the source (strtotime, date) are
    replaced by the functions of the Gregorian and DateFormat modules, and
    the host clock by a `today` argument. */
module Calendar {
  import opened Gregorian
  import opened DateFormat
  import opened Names

  /** The exceptions the class throws. */
  datatype CalendarError =
    | InvalidDayOfWeek      // setFirstDayOfWeek with a name that is not a weekday
    | UndefinedMonthIndex   // setMonth with a number outside 0..11: the table lookup yields null,
                            // which PHP refuses to store in the string-typed property
    | InvalidYearFormat     // _validateInput: the year does not print as four characters
    | InvalidMonthFormat    // _validateInput: the month is not one of the twelve names

  datatype Outcome = Pass | Fail(error: CalendarError)

  datatype Result<T> = Success(value: T) | Failure(error: CalendarError)

  /** What setMonth is given: a numeric value (cast to int) or any other string. */
  datatype MonthInput = Index(index: int) | Name(name: string)

  const DaySeconds: int := 86400  // 24 * 60 * 60

  /** 7 days x 6 weeks. */
  const GridCells: int := 42

  /** Initial value of every timestamp, before the month is processed. */
  const Unset: int := -1

  datatype Timestamps = Timestamps(currentMonthFirstDay: int, nextMonthFirstDay: int, prevMonthLastDay: int)

  const InitialTimestamps: Timestamps := Timestamps(Unset, Unset, Unset)

  /** Facts about the configured month; the source keeps the counts and the
      year as formatted strings, the model as integers. */
  datatype MonthData = MonthData(
    firstDayOfWeek: string,    // weekday name of the first of the month
    totalDaysInMonth: int,
    nextMonthName: string,
    nextMonthYear: int,
    prevMonthName: string,
    prevMonthTotalDays: int)

  /** The source starts every entry as ''; the numeric entries start as 0 here. */
  const InitialData: MonthData := MonthData("", 0, "", 0, "", 0)

  /** One grid cell. */
  datatype Cell = Cell(
    date: string,              // 'Y-m-d'
    dayOfMonth: int,
    isPrevMonth: bool,
    isCurrentMonth: bool,
    isNextMonth: bool,
    isToday: bool)

  /** Timestamp of the start of day `d`. */
  function Timestamp(d: Date): int
    requires 1 <= d.month <= 12
  {
    DayNumber(d) * DaySeconds
  }

  /** `d` is the calendar date at timestamp `ts`. */
  predicate IsDateAt(d: Date, ts: int) {
    ValidDate(d) && Timestamp(d) == ts
  }

  /** A timestamp has at most one date, so formatting it is well defined. */
  lemma DateAtUnique(a: Date, b: Date, ts: int)
    requires IsDateAt(a, ts) && IsDateAt(b, ts)
    ensures a == b
  {
    DayNumberInjective(a, b);
  }

  /** The month setMonth stores, or the error it throws. */
  function ResolveMonth(input: MonthInput): (r: Result<string>)
    ensures r.Failure? <==> input.Index? && !(0 <= input.index < 12)
    ensures r.Failure? ==> r.error == UndefinedMonthIndex
    ensures input.Index? && r.Success? ==> r.value in Months && MonthNumber(r.value) == input.index + 1
  {
    match input
    case Index(i) =>
      if 0 <= i < 12 then
        MonthNumberOf(i);
        Success(Months[i])
      else Failure(UndefinedMonthIndex)
    case Name(s) => Success(UcFirst(s))
  }

  /** A month name given to setMonth resolves to the i-th month exactly when
      it is that month's name or the name with a lower-case first letter. */
  lemma NameResolvesTo(s: string, i: int)
    requires 0 <= i < 12
    ensures ResolveMonth(Name(s)) == Success(Months[i]) <==> s == Months[i] || s == LcFirst(Months[i])
  {
    UcFirstPreimage(s, Months[i]);
  }

  /** _validateInput: the year must print as exactly four characters, then the
      month must be one of the twelve names. */
  function ValidateInput(year: int, month: string): (r: Outcome)
    ensures r.Pass? <==> (1000 <= year <= 9999 || -999 <= year <= -100) && month in Months
    ensures !(1000 <= year <= 9999 || -999 <= year <= -100) ==> r == Fail(InvalidYearFormat)
    ensures (1000 <= year <= 9999 || -999 <= year <= -100) && month !in Months ==> r == Fail(InvalidMonthFormat)
  {
    FourCharacterYears(year);
    if |IntToString(year)| != 4 then Fail(InvalidYearFormat)
    else if month !in Months then Fail(InvalidMonthFormat)
    else Pass
  }

  /** Reference definition of what processCurrentCalendar derives for month
      `m` of year `y`, by month arithmetic. */
  function MonthFacts(y: int, m: int): (r: MonthData)
    requires 1 <= m <= 12
    ensures r.totalDaysInMonth == DaysInMonth(y, m)
    ensures 28 <= r.prevMonthTotalDays <= 31
    ensures r.nextMonthYear == y || r.nextMonthYear == y + 1
  {
    var prev := MonthBefore(y, m);
    var next := MonthAfter(y, m);
    MonthData(DaysOfWeek[Weekday(DayNumber(Date(y, m, 1)))], DaysInMonth(y, m),
              Months[next.1 - 1], next.0, Months[prev.1 - 1], DaysInMonth(prev.0, prev.1))
  }

  /** The neighbouring months roll over at the year's ends: the month after
      December is January of the next year, the month before January is
      December with 31 days; otherwise the neighbours are the adjacent table
      entries of the same year. */
  lemma MonthRollover(y: int, m: int)
    requires 1 <= m <= 12
    ensures MonthFacts(y, m).nextMonthName == Months[m % 12]
    ensures MonthFacts(y, m).nextMonthYear == if m == 12 then y + 1 else y
    ensures MonthFacts(y, m).prevMonthName == Months[(m + 10) % 12]
    ensures MonthFacts(y, m).prevMonthTotalDays == if m == 1 then 31 else DaysInMonth(y, m - 1)
  {
    if m == 1 {
      assert (m + 10) % 12 == 11;
    } else if m == 12 {
      assert m % 12 == 0;
    } else {
      assert m % 12 == m && (m + 10) % 12 == m - 2;
    }
  }

  /** Reference definition of the timestamps processCurrentCalendar sets. */
  function MonthTimestamps(y: int, m: int): (r: Timestamps)
    requires 1 <= m <= 12
    ensures r.prevMonthLastDay + 86400 == r.currentMonthFirstDay
    ensures r.currentMonthFirstDay + 28 * 86400 <= r.nextMonthFirstDay <= r.currentMonthFirstDay + 31 * 86400
  {
    var first := Timestamp(Date(y, m, 1));
    Timestamps(first, first + DaysInMonth(y, m) * DaySeconds, first - DaySeconds)
  }

  /** The cell for `date`, classified against the processed timestamps `ts`:
      before the month's first day, between its first day and the first of
      the next month (both included), from the first of the next month on,
      and whether it is `today`. */
  function CellAt(ts: Timestamps, date: Date, today: Date): (c: Cell)
    requires 1 <= date.month <= 12 && 1 <= date.day && ValidDate(today)
    ensures c.isCurrentMonth ==> !c.isPrevMonth
    ensures ts.currentMonthFirstDay <= ts.nextMonthFirstDay ==> !(c.isPrevMonth && c.isNextMonth)
  {
    var input := Timestamp(date);
    var formatted := FullDate(date);
    var cur := ts.currentMonthFirstDay;
    var next := ts.nextMonthFirstDay;
    Cell(formatted, date.day,
         Unset != cur && input < cur,
         cur != 0 && next != 0 && input >= cur && input <= next,
         Unset != next && input >= next,
         FullDate(today) == formatted)
  }

  /** getDateModel: the cell for day `day` of month `monthName` of `year`. */
  function DateModel(ts: Timestamps, monthName: string, day: int, year: int, today: Date): (c: Cell)
    requires ValidDate(Date(year, MonthNumber(monthName), day)) && ValidDate(today)
    ensures c.dayOfMonth == day
    ensures ParseFullDate(c.date) == Some(Date(year, MonthNumber(monthName), day))
    ensures c.isToday <==> Date(year, MonthNumber(monthName), day) == today
  {
    ParseFullDateRoundTrip(Date(year, MonthNumber(monthName), day));
    FullDateInjective(today, Date(year, MonthNumber(monthName), day));
    CellAt(ts, Date(year, MonthNumber(monthName), day), today)
  }

  /** The number of cells before the first of the month: the position of the
      month's first weekday in the rotated header. */
  function LeadingCells(y: int, m: int, firstDay: string): (n: nat)
    requires 1 <= m <= 12 && firstDay in DaysOfWeek
    ensures n < 7
  {
    RotatedWeekProperties(firstDay);
    IndexOf(RotatedWeek(firstDay), MonthFacts(y, m).firstDayOfWeek)
  }

  /** The neighbouring month names are table names, and name the months
      before and after. */
  lemma NeighbourMonths(y: int, m: int)
    requires 1 <= m <= 12
    ensures var facts := MonthFacts(y, m);
            && facts.totalDaysInMonth == DaysInMonth(y, m)
            && MonthNumber(Months[m - 1]) == m
            && MonthNumber(facts.prevMonthName) == MonthBefore(y, m).1
            && facts.prevMonthTotalDays == DaysInMonth(MonthBefore(y, m).0, MonthBefore(y, m).1)
            && MonthNumber(facts.nextMonthName) == MonthAfter(y, m).1
            && facts.nextMonthYear == MonthAfter(y, m).0
  {
    MonthNumberOf(m - 1);
    MonthNumberOf(MonthBefore(y, m).1 - 1);
    MonthNumberOf(MonthAfter(y, m).1 - 1);
  }

  /** The month's first weekday occurs in the rotated header, so toArray's
      array_search finds it; this is what lets ToArray's `firstIndex` be
      LeadingCells. */
  lemma LeadingCellsIndex(y: int, m: int, firstDay: string)
    requires 1 <= m <= 12 && firstDay in DaysOfWeek
    ensures MonthFacts(y, m).firstDayOfWeek in RotatedWeek(firstDay)
  {
    RotatedWeekProperties(firstDay);
  }

  /** The cells of days `first` to `last` of month `m` of year `y`, classified
      against the timestamps `ts`; empty when `last < first`. */
  function DayCells(ts: Timestamps, y: int, m: int, first: int, last: int, today: Date): (cells: seq<Cell>)
    requires 1 <= m <= 12 && 1 <= first <= last + 1 && ValidDate(today)
    ensures |cells| == last - first + 1
    decreases last - first
  {
    if last < first then [] else DayCells(ts, y, m, first, last - 1, today) + [CellAt(ts, Date(y, m, last), today)]
  }

  /** Length of the month before month `m`, taken in year `y`: the same as
      in the previous month's own year, since only January's predecessor
      lies in another year and December always has 31 days. */
  function PrevMonthLength(y: int, m: int): (n: int)
    requires 1 <= m <= 12
    ensures n == DaysInMonth(MonthBefore(y, m).0, MonthBefore(y, m).1)
  {
    DaysInMonth(y, MonthBefore(y, m).1)
  }

  /** The `lead` cells before the first of month `m` of year `y`: the last
      `lead` days of the previous month, dated in year `y` itself (even for
      January). */
  function LeadingRun(ts: Timestamps, y: int, m: int, lead: int, today: Date): (cells: seq<Cell>)
    requires 1 <= m <= 12 && 0 <= lead < 7 && ValidDate(today)
    ensures |cells| == lead
  {
    DayCells(ts, y, MonthBefore(y, m).1, FirstLeadingDay(y, m, lead), PrevMonthLength(y, m), today)
  }

  /** The day of the previous month shown in the first of `lead` leading cells. */
  function FirstLeadingDay(y: int, m: int, lead: int): (day: int)
    requires 1 <= m <= 12 && 0 <= lead < 7
    ensures 1 <= day <= PrevMonthLength(y, m) + 1 && PrevMonthLength(y, m) - day + 1 == lead
  {
    PrevMonthLength(y, m) - lead + 1
  }

  /** The leading cells followed by the month's own days. */
  function ShownRun(ts: Timestamps, y: int, m: int, lead: int, today: Date): (cells: seq<Cell>)
    requires 1 <= m <= 12 && 0 <= lead < 7 && ValidDate(today)
    ensures |cells| == lead + DaysInMonth(y, m)
  {
    LeadingRun(ts, y, m, lead, today) + DayCells(ts, y, m, 1, DaysInMonth(y, m), today)
  }

  /** The cells toArray lays out for month `m` of year `y` when `lead` cells
      come before the first of the month: the leading cells, the month's own
      days, then the first days of the next month until there are 42 cells,
      all classified against the timestamps `ts`. */
  function Layout(ts: Timestamps, y: int, m: int, lead: int, today: Date): (g: seq<Cell>)
    requires 1 <= m <= 12 && 0 <= lead < 7 && ValidDate(today)
    ensures |g| == GridCells
  {
    GridBounds(y, m, lead);
    ShownRun(ts, y, m, lead, today)
    + DayCells(ts, MonthAfter(y, m).0, MonthAfter(y, m).1, 1, GridCells - |ShownRun(ts, y, m, lead, today)|, today)
  }

  /** The grid toArray returns for month `m` of year `y` with weeks starting
      on `firstDay`, classified against the month's timestamps. */
  function Grid(y: int, m: int, firstDay: string, today: Date): (g: seq<Cell>)
    requires 1 <= m <= 12 && firstDay in DaysOfWeek && ValidDate(today)
    ensures |g| == GridCells
  {
    Layout(MonthTimestamps(y, m), y, m, LeadingCells(y, m, firstDay), today)
  }

  /** Appending getDateModel of day `day` to cells that end in the run of
      days `first` to `day - 1` extends that run to `day`. The run's end is
      passed as `last` (equal to `day - 1`) so that callers name it with the
      same term their loop invariant uses, which keeps the proofs cheap. */
  lemma AppendDayCell(ts: Timestamps, y: int, m: int, first: int, last: int, today: Date,
                      name: string, day: int, shown: seq<Cell>)
    requires 1 <= m <= 12 && 1 <= first <= day <= DaysInMonth(y, m) && ValidDate(today)
    requires MonthNumber(name) == m && last == day - 1
    ensures ValidDate(Date(y, MonthNumber(name), day))
    ensures shown + DayCells(ts, y, m, first, last, today) + [DateModel(ts, name, day, y, today)]
            == shown + DayCells(ts, y, m, first, day, today)
  {
    var run := DayCells(ts, y, m, first, last, today);
    assert DayCells(ts, y, m, first, day, today) == run + [CellAt(ts, Date(y, m, day), today)];
    AppendAssociates(shown, run, DateModel(ts, name, day, y, today));
  }

  /** Appending one element after two sequences regroups freely. */
  lemma AppendAssociates<T>(a: seq<T>, b: seq<T>, x: T)
    ensures a + b + [x] == a + (b + [x])
  {
  }

  /** The previous month has the same length in year `y` as in its own year,
      and the cells left after the month's days fit in the next month. */
  lemma GridBounds(y: int, m: int, lead: int)
    requires 1 <= m <= 12 && 0 <= lead < 7
    ensures var prev := MonthBefore(y, m);
            var next := MonthAfter(y, m);
            && DaysInMonth(prev.0, prev.1) == DaysInMonth(y, prev.1)
            && 5 <= GridCells - lead - DaysInMonth(y, m) <= DaysInMonth(next.0, next.1)
  {
  }

  /** The month facts are those read off the day before the first of the
      month and the day after its last day. */
  lemma FactsFromNeighbourDays(y: int, m: int)
    requires 1 <= m <= 12
    ensures var firstDate := Date(y, m, 1);
            var prevLastDate := PrevDay(firstDate);
            var lastDate := Date(y, m, DaysInMonth(y, m));
            var nextFirstDate := NextDay(lastDate);
            MonthFacts(y, m)
            == MonthData(DaysOfWeek[Weekday(DayNumber(firstDate))], DaysInMonth(y, m),
                         Months[nextFirstDate.month - 1], nextFirstDate.year,
                         Months[prevLastDate.month - 1], DaysInMonth(prevLastDate.year, prevLastDate.month))
            && MonthTimestamps(y, m)
               == Timestamps(Timestamp(firstDate), Timestamp(lastDate) + DaySeconds, Timestamp(firstDate) - DaySeconds)
  {
    PrevMonthPrecedes(y, m);
    NextMonthFollows(y, m);
  }

  class SimpleCalendar {
    var year: int
    var month: string
    var firstDayOfWeek: string
    var timestamps: Timestamps
    var data: MonthData

    /** The first day of week is always one of the seven names. */
    ghost predicate Valid()
      reads this
    {
      firstDayOfWeek in DaysOfWeek
    }

    /** The property defaults, before __construct calls the setters. */
    constructor Defaults()
      ensures Valid()
      ensures year == 0 && month == "" && firstDayOfWeek == "Sunday"
      ensures timestamps == InitialTimestamps && data == InitialData
    {
      year := 0;
      month := "";
      firstDayOfWeek := "Sunday";
      timestamps := InitialTimestamps;
      data := InitialData;
    }

    /** __construct: setMonth, setYear, then _validateInput; an exception becomes a Failure. */
    static method Create(monthInput: MonthInput := Name("January"), yearInput: int := 2023) returns (r: Result<SimpleCalendar>)
      ensures ResolveMonth(monthInput).Failure? ==> r == Failure(UndefinedMonthIndex)
      ensures ResolveMonth(monthInput).Success? ==>
        var outcome := ValidateInput(yearInput, ResolveMonth(monthInput).value);
        (r.Success? <==> outcome.Pass?) && (r.Failure? ==> r.error == outcome.error)
      ensures r.Success? ==>
        fresh(r.value) && r.value.Valid() && r.value.month in Months
        && r.value.month == ResolveMonth(monthInput).value && r.value.year == yearInput
        && r.value.firstDayOfWeek == "Sunday"
        && r.value.timestamps == InitialTimestamps && r.value.data == InitialData
    {
      var c := new SimpleCalendar.Defaults();
      var monthSet := c.SetMonth(monthInput);
      if monthSet.Fail? {
        return Failure(monthSet.error);
      }
      c.SetYear(yearInput);
      var valid := ValidateInput(c.year, c.month);
      if valid.Fail? {
        return Failure(valid.error);
      }
      return Success(c);
    }

    /** setFirstDayOfWeek: stores a weekday name, throws for anything else. */
    method SetFirstDayOfWeek(day: string := "Sunday") returns (outcome: Outcome)
      requires Valid()
      modifies this`firstDayOfWeek
      ensures Valid()
      ensures outcome == if day in DaysOfWeek then Pass else Fail(InvalidDayOfWeek)
      ensures firstDayOfWeek == if day in DaysOfWeek then day else old(firstDayOfWeek)
    {
      if day !in DaysOfWeek {
        return Fail(InvalidDayOfWeek);
      }
      firstDayOfWeek := day;
      outcome := Pass;
    }

    /** setMonth: a numeric index selects from the month table, a string is
        stored with ucfirst applied. */
    method SetMonth(input: MonthInput := Name("January")) returns (outcome: Outcome)
      modifies this`month
      ensures outcome.Pass? <==> ResolveMonth(input).Success?
      ensures outcome.Pass? ==> month == ResolveMonth(input).value
      ensures outcome.Fail? ==> outcome.error == UndefinedMonthIndex && month == old(month)
    {
      match input
      case Index(i) =>
        if 0 <= i < 12 {
          month := Months[i];
          outcome := Pass;
        } else {
          outcome := Fail(UndefinedMonthIndex);
        }
      case Name(s) =>
        month := UcFirst(s);
        outcome := Pass;
    }

    /** setYear. */
    method SetYear(y: int := 2023)
      modifies this`year
      ensures year == y
    {
      year := y;
    }

    /** getDaysOfWeek: rotate the weekday table until the configured day leads. */
    method GetDaysOfWeek() returns (days: seq<string>)
      requires Valid()
      ensures days == RotatedWeek(firstDayOfWeek)
    {
      days := DaysOfWeek;
      ghost var target := IndexOf(DaysOfWeek, firstDayOfWeek);
      ghost var k := 0;
      while firstDayOfWeek != days[0]
        invariant 0 <= k <= target
        invariant days == RotateLeft(DaysOfWeek, k)
        decreases target - k
      {
        RotateLeftStep(DaysOfWeek, k);
        days := days[1..] + [days[0]];
        k := k + 1;
      }
      IndexOfFirst(DaysOfWeek, firstDayOfWeek, k);
    }

    /** processCurrentCalendar: the first day of the month, its weekday and
        length, the day before it and the day after its last day, each read
        off the date at the corresponding timestamp. */
    method ProcessCurrentCalendar()
      requires MonthNumber(month) <= 12
      modifies this`data, this`timestamps
      ensures data == MonthFacts(year, MonthNumber(month))
      ensures timestamps == MonthTimestamps(year, MonthNumber(month))
    {
      var y, m := year, MonthNumber(month);
      FactsFromNeighbourDays(y, m);
      var facts, stamps := data, timestamps;
      var firstDate := Date(y, m, 1);
      var first := Timestamp(firstDate);
      facts := facts.(firstDayOfWeek := DaysOfWeek[Weekday(DayNumber(firstDate))]);
      facts := facts.(totalDaysInMonth := DaysInMonth(y, m));
      stamps := stamps.(currentMonthFirstDay := first);

      stamps := stamps.(prevMonthLastDay := first - DaySeconds);
      var prevLastDate := PrevDay(firstDate);
      facts := facts.(prevMonthName := Months[prevLastDate.month - 1]);
      facts := facts.(prevMonthTotalDays := DaysInMonth(prevLastDate.year, prevLastDate.month));

      var lastDate := Date(y, m, facts.totalDaysInMonth);
      stamps := stamps.(nextMonthFirstDay := Timestamp(lastDate) + DaySeconds);
      var nextFirstDate := NextDay(lastDate);
      facts := facts.(nextMonthName := Months[nextFirstDate.month - 1]);
      facts := facts.(nextMonthYear := nextFirstDate.year);

      data, timestamps := facts, stamps;
      assert year == y && MonthNumber(month) == m;
    }

    /** toArray: process the month, rotate the weekday header, then lay out the cells. */
    method ToArray(today: Date) returns (output: seq<Cell>)
      requires Valid() && month in Months && ValidDate(today)
      modifies this`data, this`timestamps
      ensures MonthNumber(month) <= 12
      ensures data == MonthFacts(year, MonthNumber(month))
      ensures timestamps == MonthTimestamps(year, MonthNumber(month))
      ensures output == Grid(year, MonthNumber(month), firstDayOfWeek, today)
    {
      MonthNumberNames(month);
      ProcessCurrentCalendar();
      var daysOfWeek := GetDaysOfWeek();
      NeighbourMonths(year, MonthNumber(month));
      LeadingCellsIndex(year, MonthNumber(month), firstDayOfWeek);
      var firstIndex := IndexOf(daysOfWeek, data.firstDayOfWeek);
      // The month's name as the first day's timestamp formats it.
      var currentMonthName := Months[MonthNumber(month) - 1];
      output := LayOutCells(year, MonthNumber(month), firstIndex, data, timestamps, currentMonthName, today);
    }
  }

  /** The three cell sections of toArray, run on the processed month facts
      and timestamps; `firstIndex` is the position of the month's first
      weekday in the rotated header. */
  method LayOutCells(year: int, m: int, firstIndex: int, data: MonthData, timestamps: Timestamps,
                     currentMonthName: string, today: Date) returns (output: seq<Cell>)
    requires 1 <= m <= 12 && 0 <= firstIndex < 7 && ValidDate(today)
    requires MonthNumber(currentMonthName) == m
    requires data.totalDaysInMonth == DaysInMonth(year, m)
    requires MonthNumber(data.prevMonthName) == MonthBefore(year, m).1
    requires data.prevMonthTotalDays == PrevMonthLength(year, m)
    requires MonthNumber(data.nextMonthName) == MonthAfter(year, m).1
    requires data.nextMonthYear == MonthAfter(year, m).0
    ensures output == Layout(timestamps, year, m, firstIndex, today)
  {
    GridBounds(year, m, firstIndex);
    output := PrevMonthCells(timestamps, year, m, firstIndex, data.prevMonthName, data.prevMonthTotalDays, today);
    output := CurrentMonthCells(timestamps, year, m, currentMonthName, data.totalDaysInMonth, today, output);
    output := NextMonthCells(timestamps, year, m, data.nextMonthName, data.nextMonthYear, today, output);
  }

  /** The leading cells: when the month does not start in the first column,
      the last `firstIndex` days of the previous month, counted up to its
      last day and dated in `year`. The previous month has the same length
      in `year` as in its own year (GridBounds). */
  method PrevMonthCells(timestamps: Timestamps, year: int, m: int, firstIndex: int,
                        prevMonthName: string, prevMonthTotalDays: int, today: Date) returns (output: seq<Cell>)
    requires 1 <= m <= 12 && 0 <= firstIndex < 7 && ValidDate(today)
    requires MonthNumber(prevMonthName) == MonthBefore(year, m).1
    requires prevMonthTotalDays == PrevMonthLength(year, m)
    ensures output == LeadingRun(timestamps, year, m, firstIndex, today)
  {
    var first := prevMonthTotalDays - firstIndex + 1;
    ghost var pm := MonthBefore(year, m).1;
    assert first == FirstLeadingDay(year, m, firstIndex);
    output := [];
    if firstIndex != 0 {
      var day := first;
      ghost var last := day - 1;  // the run's end, named as in AppendDayCell; kept for proof cost only
      while day <= prevMonthTotalDays
        invariant first <= day <= prevMonthTotalDays + 1 && last == day - 1
        invariant output == [] + DayCells(timestamps, year, pm, first, last, today)
      {
        AppendDayCell(timestamps, year, pm, first, last, today, prevMonthName, day, []);
        output := output + [DateModel(timestamps, prevMonthName, day, year, today)];
        last := day;
        day := day + 1;
      }
    }
  }

  /** The month's own days, 1 to its last, appended to the cells `shown`. */
  method CurrentMonthCells(timestamps: Timestamps, year: int, m: int, currentMonthName: string,
                           totalDaysInMonth: int, today: Date, shown: seq<Cell>) returns (output: seq<Cell>)
    requires 1 <= m <= 12 && ValidDate(today)
    requires MonthNumber(currentMonthName) == m
    requires totalDaysInMonth == DaysInMonth(year, m)
    ensures output == shown + DayCells(timestamps, year, m, 1, DaysInMonth(year, m), today)
  {
    output := shown;
    var i := 0;
    while i < totalDaysInMonth
      invariant 0 <= i <= totalDaysInMonth
      invariant output == shown + DayCells(timestamps, year, m, 1, i, today)
    {
      AppendDayCell(timestamps, year, m, 1, i, today, currentMonthName, i + 1, shown);
      output := output + [DateModel(timestamps, currentMonthName, i + 1, year, today)];
      i := i + 1;
    }
  }

  /** Days 1, 2, ... of the next month, appended to the cells `shown` until
      the grid holds 42 cells. */
  method NextMonthCells(timestamps: Timestamps, year: int, m: int,
                        nextMonthName: string, nextMonthYear: int, today: Date, shown: seq<Cell>)
    returns (output: seq<Cell>)
    requires 1 <= m <= 12 && ValidDate(today)
    requires MonthNumber(nextMonthName) == MonthAfter(year, m).1
    requires nextMonthYear == MonthAfter(year, m).0
    requires GridCells - |shown| <= DaysInMonth(MonthAfter(year, m).0, MonthAfter(year, m).1)
    ensures |shown| <= GridCells ==>
      output == shown + DayCells(timestamps, MonthAfter(year, m).0, MonthAfter(year, m).1, 1, GridCells - |shown|, today)
    ensures |shown| > GridCells ==> output == shown
  {
    output := shown;
    var remaining := GridCells - |output|;
    if remaining > 0 {
      var i := 0;
      while remaining != 0
        invariant 0 <= i && remaining == GridCells - |shown| - i && remaining >= 0
        invariant output == shown + DayCells(timestamps, nextMonthYear, MonthAfter(year, m).1, 1, i, today)
      {
        ghost var last := i;
        i := i + 1;
        AppendDayCell(timestamps, nextMonthYear, MonthAfter(year, m).1, 1, last, today, nextMonthName, i, shown);
        output := output + [DateModel(timestamps, nextMonthName, i, nextMonthYear, today)];
        remaining := remaining - 1;
      }
    }
  }
}
