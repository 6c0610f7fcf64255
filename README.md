# SimpleCalendar in Dafny

This project models `SimpleCalendar` (src/SimpleCalendar.php), a PHP class that builds a month grid of 7 × 6 = 42 cells. The model covers:

- **Configuration.** The month is given as a name or as an index 0..11. There is also a year and the weekday that starts each week. `_validateInput` checks the month and the year.
- **`processCurrentCalendar`.** It derives the month's first weekday and length, the previous month's name and length, and the next month's name and year.
- **The weekday header.** It is rotated so that the configured day comes first.
- **The grid.** `toArray` lays out the last days of the previous month, then every day of the month, then the first days of the next month until there are 42 cells. Each cell is classified by `getDateModel`: previous month, current month, next month, today.

The PHP date library (`strtotime`, `date`) is replaced by proleptic Gregorian arithmetic in `gregorian.dfy`:

- A date is a (year, month, day) triple.
- A timestamp is the day number counted from 1970-01-01, times 86400.
- Cell texts are the `Y-m-d` format in `date_format.dfy`, which is the `full-date` of section 5.6 of RFC 3339 for years 0 to 9999.
- The leap-year rule is the one of Appendix C of RFC 3339.

The modules follow the class:

- `Gregorian`: leap years, month lengths, day numbers, weekdays, the day before and after a date.
- `DateFormat`: PHP's `(string)` cast of an int and the `Y-m-d` text, with a parser. The parser is there to prove that the text determines the date.
- `Names`: the month and weekday tables, `ucfirst`, `array_search`, and rotation of the weekday list.
- `Calendar`: the class `SimpleCalendar`, with fields for the year, month, first day of week, timestamps and month data. Its setters and `processCurrentCalendar` update those fields. `getDaysOfWeek` and the three cell loops of `toArray` are methods with loop invariants. Each is proved against a specification function: `MonthFacts`, `MonthTimestamps`, `RotatedWeek`, `LeadingRun`, `Layout` and `Grid`.
- `CellFlags`: each flag of `getDateModel` stated as a comparison of calendar dates.
- `GridProperties`: which date every grid cell shows, its flags, its day number, and the weekday column it sits in.
- `Scenarios`: construction with the default arguments, and August 2023, January 2024 and January 1970 with weeks starting on Sunday.

The model reproduces the class as written. Four behaviours stand out:

- **Leading cells keep the displayed year.** They are built with the displayed year, not the previous month's year. In January they are therefore dated December of the same year, and their timestamps lie after the first of February. They come out flagged as next month, not previous month.
- **The year check counts characters.** `_validateInput` accepts a year whose decimal text has four characters: 1000..9999 and also -999..-100.
- **The current-month test includes the first of the next month.** Its upper bound is inclusive, so the first trailing cell is flagged both current and next month.
- **A timestamp of 0 is false.** In January 1970 and December 1969 one of the two timestamps is 0. PHP reads that as false, so no cell of those two grids is flagged current.

## Model

| member | source | states |
|---|---|---|
| Names.MonthsDistinct | src/SimpleCalendar.php:116-118 | the month table has twelve entries, all different |
| Names.WeekdaysDistinct | src/SimpleCalendar.php:123-125 | the weekday table has seven entries, all different |
| Names.FindFirst | src/SimpleCalendar.php:253 | the search finds a position exactly when the name occurs, and no earlier position holds it |
| Names.IndexOf | src/SimpleCalendar.php:253 | array_search returns a position holding the name, with no occurrence before it |
| Names.MonthNumber | src/SimpleCalendar.php:167-168 | a month name is read as its position 1..12 in the table, and only a table name gets a number up to 12 |
| Names.MonthNumberNames | src/SimpleCalendar.php:139 | a name has a month number up to 12 exactly when it is in the month table |
| Names.MonthNumberOf | src/SimpleCalendar.php:84 | the i-th table name is month i + 1 |
| Names.UcFirst | src/SimpleCalendar.php:86 | ucfirst keeps the length of the string |
| Names.UcFirstPreimage | src/SimpleCalendar.php:86 | ucfirst yields a capitalised name exactly for that name and for the name with a lower-case first letter |
| Names.RotatedWeek | src/SimpleCalendar.php:221-227 | the header that starts with the configured day: the weekday table rotated left by that day's position; its properties are those of Names.RotatedWeekProperties |
| Names.RotateLeftStep | src/SimpleCalendar.php:224 | moving the first entry to the back turns a rotation by k into a rotation by k + 1 |
| Names.RotateLeftPermutes | src/SimpleCalendar.php:221-227 | a rotation of a list without repeats has no repeats and the same members |
| Names.RotatedWeekProperties | src/SimpleCalendar.php:221-227 | the rotated header has seven entries, starts with the configured day, holds each weekday exactly once, and its entry i is the weekday i days after the configured one |
| Names.RotatedWeekIndex | src/SimpleCalendar.php:253 | weekday w sits in the rotated header at the number of days from the configured day forward to w |
| Gregorian.DayNumber | src/SimpleCalendar.php:168 | the day count from 1970-01-01 that strtotime's midnight timestamp stands for; Gregorian.DayNumberOrder and Gregorian.DayNumberInjective state its properties |
| Gregorian.Weekday | src/SimpleCalendar.php:202 | the weekday date('l') names, as a number 0..6 with Monday = 0 (1970-01-01 was a Thursday) |
| Gregorian.DaysInMonth | src/SimpleCalendar.php:203 | every month has 28 to 31 days |
| Gregorian.YearLength | src/SimpleCalendar.php:203 | the twelve month lengths sum to 366 in a leap year and to 365 otherwise |
| Gregorian.NextDay | src/SimpleCalendar.php:213-215 | the day after a valid date is a valid date whose day number is one more |
| Gregorian.PrevDay | src/SimpleCalendar.php:207-209 | the day before a valid date is a valid date whose day number is one less |
| Gregorian.DayNumberOrder | src/SimpleCalendar.php:175-179 | day numbers order valid dates as the calendar orders them, in both directions |
| Gregorian.DayNumberInjective | src/SimpleCalendar.php:169 | two valid dates with the same day number are the same date |
| Gregorian.NextMonthFollows | src/SimpleCalendar.php:212-215 | the day after the month's last day is the first of the next month, December rolling over into January of the next year |
| Gregorian.PrevMonthPrecedes | src/SimpleCalendar.php:207-209 | the day before the first of the month is the last day of the previous month, January rolling back into December of the previous year |
| DateFormat.IntToString | src/SimpleCalendar.php:135 | the (string) cast of an int: at least one character, a minus sign first exactly for negative values, decimal digits after it |
| DateFormat.FullDate | src/SimpleCalendar.php:166-169 | date('Y-m-d') of a date: at least ten characters; DateFormat.ParseFullDateRoundTrip reads the date back from it |
| DateFormat.FourCharacterYears | src/SimpleCalendar.php:135 | an int prints as exactly four characters exactly for 1000..9999 and -999..-100 |
| DateFormat.ParseFullDateRoundTrip | src/SimpleCalendar.php:166-169 | reading back the Y-m-d text of a valid date gives that date |
| DateFormat.FullDateInjective | src/SimpleCalendar.php:174 | two valid dates have the same Y-m-d text exactly when they are the same date |
| Calendar.Timestamp | src/SimpleCalendar.php:168 | the timestamp of the start of a day, its day number times 86400; CellFlags.TimestampOrder states how timestamps compare |
| Calendar.DateAtUnique | src/SimpleCalendar.php:169 | a timestamp is the start of at most one valid date, so formatting it is well defined |
| Calendar.ValidateInput | src/SimpleCalendar.php:132-142 | passes exactly for a four-character year together with a table month; a bad year fails with the year error first, then a bad month fails with the month error |
| Calendar.ResolveMonth | src/SimpleCalendar.php:82-88 | setMonth fails exactly for an index outside 0..11, with the index error; an index i in range stores a table name that is month i + 1 |
| Calendar.NameResolvesTo | src/SimpleCalendar.php:82-88 | a month string stores the i-th table name exactly when it is that name or the name with a lower-case first letter |
| Calendar.MonthFacts | src/SimpleCalendar.php:196-216 | reference definition of the month data: the month's length, a previous-month length of 28 to 31 days, and a next-month year that is the same year or the one after |
| Calendar.MonthTimestamps | src/SimpleCalendar.php:196-216 | reference definition of the timestamps: the previous month's last day starts 86400 seconds before the first of the month, and the first of the next month starts 28 to 31 days after it |
| Calendar.CellAt | src/SimpleCalendar.php:169-188 | getDateModel's cell for a date: a cell flagged current is never flagged previous, and when the first of the month does not come after the first of the next month no cell is flagged both previous and next; the CellFlags lemmas give each flag exactly |
| Calendar.DateModel | src/SimpleCalendar.php:164-191 | getDateModel: the cell's day is the day asked for, its text reads back as the date asked for, and it is flagged today exactly when that date is today; the flags are those of Calendar.CellAt |
| Calendar.MonthRollover | src/SimpleCalendar.php:207-215 | the next month's name is table entry m mod 12 and its year is y + 1 only after December; the previous month's name is entry (m + 10) mod 12, and its length is 31 before January and the previous month's length otherwise |
| Calendar.NeighbourMonths | src/SimpleCalendar.php:203-215 | the month data names the months before and after, and holds their lengths and the next month's year |
| Calendar.FactsFromNeighbourDays | src/SimpleCalendar.php:196-216 | the month data and timestamps are what the date library reads off the first of the month, the day before it and the day after the last day |
| Calendar.LeadingCells | src/SimpleCalendar.php:253 | the number of leading cells is below 7 |
| Calendar.LeadingCellsIndex | src/SimpleCalendar.php:253 | the month's first weekday occurs in the rotated header, so array_search never returns false; this is what ties ToArray's firstIndex to Calendar.LeadingCells |
| Calendar.DayCells | src/SimpleCalendar.php:260-262 | a run of day cells from first to last has last - first + 1 cells |
| Calendar.PrevMonthLength | src/SimpleCalendar.php:257-258 | the previous month's length read in the displayed year equals its length in its own year |
| Calendar.FirstLeadingDay | src/SimpleCalendar.php:256-259 | the first leading cell shows a day such that the range up to the previous month's last day has exactly as many days as there are leading cells |
| Calendar.LeadingRun | src/SimpleCalendar.php:252-263 | the leading run has exactly firstIndex cells, none when firstIndex is 0 |
| Calendar.ShownRun | src/SimpleCalendar.php:252-269 | leading and current-month cells together number firstIndex + the month's length |
| Calendar.Layout | src/SimpleCalendar.php:271-283 | the laid-out grid always has 42 cells |
| Calendar.Grid | src/SimpleCalendar.php:238-284 | the grid of any month and first weekday has 42 cells |
| Calendar.GridBounds | src/SimpleCalendar.php:272-274 | at least 5 trailing cells remain after the month's days, and no more than the next month has days |
| Calendar.AppendDayCell | src/SimpleCalendar.php:261 | appending getDateModel of the next day extends a run of day cells by one |
| Calendar.SimpleCalendar.Defaults | src/SimpleCalendar.php:13-43 | a new object has year 0, an empty month, first day Sunday, every timestamp -1 and empty month data |
| Calendar.SimpleCalendar.Create | src/SimpleCalendar.php:50-54 | with January and 2023 as default arguments, construction fails with the index error, the year error or the month error exactly as setMonth and _validateInput decide; on success the month is a table name, the year is the input and the first day is Sunday |
| Calendar.SimpleCalendar.SetFirstDayOfWeek | src/SimpleCalendar.php:62-67 | with Sunday as the default argument, a weekday name is stored; any other string throws and leaves the stored day unchanged |
| Calendar.SimpleCalendar.SetMonth | src/SimpleCalendar.php:82-88 | with January as the default argument, an index 0..11 stores that table name, a string is stored with ucfirst applied, and an index outside 0..11 fails and leaves the month unchanged |
| Calendar.SimpleCalendar.SetYear | src/SimpleCalendar.php:95-97 | the year is stored, 2023 by default |
| Calendar.SimpleCalendar.GetDaysOfWeek | src/SimpleCalendar.php:221-227 | the rotation loop ends and returns the weekday table rotated to start at the configured day |
| Calendar.SimpleCalendar.ProcessCurrentCalendar | src/SimpleCalendar.php:196-216 | the month data and the three timestamps become those of the reference definitions MonthFacts and MonthTimestamps |
| Calendar.SimpleCalendar.ToArray | src/SimpleCalendar.php:238-284 | processes the month and returns exactly the reference grid of the month, year and first weekday |
| Calendar.LayOutCells | src/SimpleCalendar.php:250-283 | the three cell sections together produce the reference layout |
| Calendar.PrevMonthCells | src/SimpleCalendar.php:252-263 | the leading loop yields the last firstIndex days of the previous month, ascending, dated in the displayed year |
| Calendar.CurrentMonthCells | src/SimpleCalendar.php:265-269 | the loop appends days 1 to the month's length, ascending |
| Calendar.NextMonthCells | src/SimpleCalendar.php:271-283 | the countdown appends days 1 to 42 minus the cells so far of the next month, ascending, and appends nothing when 42 cells are already there |
| CellFlags.NextFirst | src/SimpleCalendar.php:213 | the first of the next month is a valid date and a first day |
| CellFlags.TimestampOrder | src/SimpleCalendar.php:175-179 | timestamps compare as the dates they start |
| CellFlags.TimestampIsSet | src/SimpleCalendar.php:175-176 | a processed timestamp is never the -1 marker |
| CellFlags.TimestampDates | src/SimpleCalendar.php:196-215 | the processed timestamps start the first of the month, the first of the next month and the previous month's last day |
| CellFlags.EpochMonths | src/SimpleCalendar.php:177 | a processed timestamp is 0 exactly in January 1970 and December 1969 |
| CellFlags.CellText | src/SimpleCalendar.php:169-183 | a cell's text is the Y-m-d text of its date and its day is the date's day |
| CellFlags.PrevFlag | src/SimpleCalendar.php:175 | a cell is flagged previous month exactly when its date is before the first of the month |
| CellFlags.NextFlag | src/SimpleCalendar.php:176 | a cell is flagged next month exactly when its date is on or after the first of the next month |
| CellFlags.CurrentFlag | src/SimpleCalendar.php:177-179 | a cell is flagged current exactly when its date lies from the first of the month to the first of the next month inclusive, outside January 1970 and December 1969 |
| CellFlags.TodayFlag | src/SimpleCalendar.php:174 | a cell is flagged today exactly when its date is today |
| CellFlags.PrevAndNextExclusive | src/SimpleCalendar.php:175-176 | no cell is flagged both previous and next month |
| CellFlags.NextFirstIsCurrentAndNext | src/SimpleCalendar.php:176-179 | the first of the next month is flagged next month, and also current outside January 1970 and December 1969 |
| GridProperties.DayCellsAt | src/SimpleCalendar.php:260-262 | cell j of a run of day cells shows day first + j |
| GridProperties.CellDate | src/SimpleCalendar.php:250-283 | every grid cell shows a date with a month 1..12 and a positive day |
| GridProperties.LayoutAt | src/SimpleCalendar.php:250-283 | cell i of the layout is the cell of CellDate i |
| GridProperties.LeadingAt | src/SimpleCalendar.php:252-263 | a leading cell is the cell of its previous-month date in the displayed year |
| GridProperties.CurrentAt | src/SimpleCalendar.php:265-269 | a current-month cell i is the cell of day i - firstIndex + 1 |
| GridProperties.TrailingAt | src/SimpleCalendar.php:271-283 | a trailing cell is the cell of its next-month date |
| GridProperties.CellDayNumber | src/SimpleCalendar.php:250-283 | outside January's leading cells, cell i shows the day i - firstIndex days after the first of the month |
| GridProperties.JanuaryLeadingCells | src/SimpleCalendar.php:261 | January's leading cells show December of the same year, a whole year after the days they stand for |
| GridProperties.LeadingCellsFormula | src/SimpleCalendar.php:253 | the number of leading cells is the weekday of the first of the month minus the configured weekday, mod 7 |
| GridProperties.ColumnWeekday | src/SimpleCalendar.php:244-253 | outside January's leading cells, the header entry above each cell names the weekday of the cell's date |
| GridProperties.CellSections | src/SimpleCalendar.php:250-283 | where each cell's date lies relative to the first of the month and the first of the next month, by position |
| GridProperties.GridCellAt | src/SimpleCalendar.php:238-284 | cell i of the grid is the cell of CellDate i under the month's timestamps |
| GridProperties.GridFlags | src/SimpleCalendar.php:174-179 | by position: the text and day are those of the cell's date; prev exactly in the leading cells except January's; current exactly from the first of the month to the first trailing cell, outside the epoch months; next exactly in the trailing cells and January's leading cells; today exactly on today's date |
| GridProperties.GridDays | src/SimpleCalendar.php:256-283 | the days shown are prevTotal - firstIndex + 1 .. prevTotal, then 1 .. the month's length, then 1, 2, ... of the next month |
| Scenarios.August2023Lead | src/SimpleCalendar.php:253 | a Sunday-first August 2023 has two leading cells |
| Scenarios.August2023 | src/SimpleCalendar.php:252-263 | the first cell of that grid is 2023-07-30, flagged previous month |
| Scenarios.January2024 | src/SimpleCalendar.php:261 | the leading cell of a Sunday-first January 2024 shows day 31, flagged next month and not previous month |
| Scenarios.DefaultConstruction | src/SimpleCalendar.php:43-54 | constructing without arguments succeeds with January 2023 and weeks starting on Sunday |
| Scenarios.January1970 | src/SimpleCalendar.php:177 | no cell of January 1970 is flagged current |

## Left out

- `setDateFunction` and the `is_callable` fallback of `_formatDate` are not modelled. They call a user-supplied function by name; only the default `date` formatter is modelled.
- The getters `getYear` and `getMonth` are not modelled as separate members, because they only return a field.
- `strtotime` text parsing is replaced by direct construction of the date from the month name, day and year. Free-form English date parsing is not modelled.
- Time zones and daylight-saving time are not modelled. Days are exact day numbers in UTC, and adding 86400 seconds always moves to the next day.
- The host clock behind `strtotime('today')` is not modelled. Today is a parameter of the cell functions.
- The tables are compared with `in_array`'s loose comparison. For the strings involved this is taken as string equality.
- The `is_numeric` test of the year is left out, because the year is always an int after `setYear`.
- The numeric entries of the month data start as 0 rather than the empty string: `MonthData` holds ints.
- Calendar.SimpleCalendar.SetYear: takes an int. PHP's `(int)` cast of a numeric string is not modelled, and neither is `setMonth`'s `(int)` cast of a numeric string; a `MonthInput` is already an index or a name.
- Calendar.SimpleCalendar.ToArray: requires that the stored month is a table name. In the source a later `setMonth` with an unknown name reaches `strtotime`, whose result is not modelled.
- Calendar.SimpleCalendar.ProcessCurrentCalendar: requires a month name from the table, for the same reason as ToArray.
- Calendar.SimpleCalendar.SetFirstDayOfWeek: only string arguments are modelled. The source's parameter is untyped and its `in_array` check is loose, so `true` passes it (`true == 'Monday'`); the property then holds "1", and the rotation loops of `getDaysOfWeek` and `toArray` never end. `Valid()` excludes that state.
- Calendar.DateModel: requires a valid date. `strtotime` would also normalise an overflowing day such as 30 February; the grid never asks for one.
- Calendar.NextMonthCells: requires that the remaining cells fit in the next month; toArray always meets this (GridBounds).
- The three cell loops of toArray are separate methods (PrevMonthCells, CurrentMonthCells, NextMonthCells) called in order by LayOutCells. The rotation loop of toArray is the GetDaysOfWeek method, which has the same loop.
- Calendar.SimpleCalendar.ToArray: for every year outside 1000..9999 the grid is this model's own extension. Only the constructor checks the year; `setYear` stores any year, so `toArray` can run on years such as 50, 12345 or -500, and on a next-month year of 10000 after December 9999. The model builds these grids from the proleptic Gregorian calendar, with a year text carrying a leading minus sign and padded to four digits. The class would build them from `strtotime` text such as "August 50" or "January -500", and PHP's date parser does not read that text as that year. So the model does not claim the class produces these grids; only `_validateInput`'s year check is modelled as the class does it.
