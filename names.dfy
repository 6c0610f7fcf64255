/** The fixed English month and weekday names the calendar works with, PHP's
    ucfirst, lookup of a name's position and rotation of the weekday list. */
module Names {

  /** The month table, January first (src/SimpleCalendar.php:116-118). */
  const Months: seq<string> := ["January", "February", "March", "April", "May", "June", "July",
                                "August", "September", "October", "November", "December"]

  /** The weekday table, Monday first (src/SimpleCalendar.php:123-125). */
  const DaysOfWeek: seq<string> := ["Monday", "Tuesday", "Wednesday", "Thursday", "Friday",
                                    "Saturday", "Sunday"]

  /** No name occurs twice in `s`. */
  predicate Distinct(s: seq<string>) {
    forall i, j :: 0 <= i < j < |s| ==> s[i] != s[j]
  }

  /** The twelve month names are different names. */
  lemma MonthsDistinct()
    ensures |Months| == 12 && Distinct(Months)
  {
  }

  /** The seven weekday names are different names. */
  lemma WeekdaysDistinct()
    ensures |DaysOfWeek| == 7 && Distinct(DaysOfWeek)
  {
  }

  /** The first position at or after `k` of `x` in `s`, or `|s|` when `x` does not occur there. */
  function FindFrom(s: seq<string>, x: string, k: nat): (i: nat)
    requires k <= |s|
    ensures k <= i <= |s| && (i < |s| ==> s[i] == x)
    decreases |s| - k
  {
    if k == |s| then k else if s[k] == x then k else FindFrom(s, x, k + 1)
  }

  /** The search passes over no occurrence of `x`. */
  lemma {:induction false} FindFromFirst(s: seq<string>, x: string, k: nat)
    requires k <= |s|
    ensures forall j :: k <= j < FindFrom(s, x, k) ==> s[j] != x
    decreases |s| - k
  {
    if k < |s| && s[k] != x {
      FindFromFirst(s, x, k + 1);
    }
  }

  /** The first position of `x` in `s`, or `|s|` when `x` does not occur. */
  function Find(s: seq<string>, x: string): (i: nat)
    ensures i <= |s| && (i < |s| ==> s[i] == x)
  {
    FindFrom(s, x, 0)
  }

  /** `Find` stops at the first occurrence, and runs off the end exactly when there is none. */
  lemma FindFirst(s: seq<string>, x: string)
    ensures Find(s, x) < |s| <==> x in s
    ensures x !in s[..Find(s, x)]
  {
    FindFromFirst(s, x, 0);
  }

  /** The first position of `x` in `s`, which holds it (array_search). */
  function IndexOf(s: seq<string>, x: string): (i: nat)
    requires x in s
    ensures i < |s| && s[i] == x && x !in s[..i]
  {
    FindFirst(s, x);
    Find(s, x)
  }

  /** Position of a month name, January = 1 .. December = 12, or 13 for
      anything that is not a month name. */
  function MonthNumber(name: string): (m: int)
    ensures 1 <= m <= 13 && (m <= 12 ==> Months[m - 1] == name)
  {
    Find(Months, name) + 1
  }

  /** Exactly the twelve names have a month number up to 12. */
  lemma MonthNumberNames(name: string)
    ensures MonthNumber(name) <= 12 <==> name in Months
  {
    FindFirst(Months, name);
  }

  /** Month number of the i-th name of the table. */
  lemma MonthNumberOf(i: int)
    requires 0 <= i < 12
    ensures MonthNumber(Months[i]) == i + 1
  {
    MonthsDistinct();
    IndexOfDistinct(Months, i);
  }

  /** PHP's ucfirst: an ASCII lower-case first letter is made upper-case, everything else kept. */
  function UcFirst(s: string): (r: string)
    ensures |r| == |s|
  {
    if |s| > 0 && 'a' <= s[0] <= 'z' then [(s[0] as int - 32) as char] + s[1..] else s
  }

  /** The first letter of `s` made lower-case. */
  function LcFirst(s: string): string
    requires |s| > 0 && 'A' <= s[0] <= 'Z'
  {
    [(s[0] as int + 32) as char] + s[1..]
  }

  /** ucfirst maps exactly two spellings onto a capitalised name: the name and
      the name with its first letter in lower case. */
  lemma UcFirstPreimage(s: string, name: string)
    requires |name| > 0 && 'A' <= name[0] <= 'Z'
    ensures UcFirst(s) == name <==> s == name || s == LcFirst(name)
  {
    if UcFirst(s) == name {
      if |s| > 0 && 'a' <= s[0] <= 'z' {
        assert s[0] as int - 32 == name[0] as int;
        assert s == [s[0]] + s[1..] && name == [name[0]] + name[1..];
        assert s[1..] == name[1..];
      }
    }
  }

  /** `s` rotated left by `k`: the element at `k` comes first. */
  function RotateLeft(s: seq<string>, k: nat): (r: seq<string>)
    requires k <= |s|
    ensures |r| == |s|
  {
    s[k..] + s[..k]
  }

  /** Moving the first entry of a rotation to the back rotates one place further. */
  lemma RotateLeftStep(s: seq<string>, k: nat)
    requires k < |s|
    ensures RotateLeft(s, k)[1..] + [RotateLeft(s, k)[0]] == RotateLeft(s, k + 1)
  {
    assert s[k..][1..] == s[k + 1..];
    assert s[..k] + [s[k]] == s[..k + 1];
  }

  /** A position holding `x` at or before the first occurrence of `x` is the first occurrence. */
  lemma IndexOfFirst(s: seq<string>, x: string, k: nat)
    requires x in s && k < |s| && s[k] == x && k <= IndexOf(s, x)
    ensures k == IndexOf(s, x)
  {
  }

  /** The weekday header that starts with `firstDay`. */
  function RotatedWeek(firstDay: string): (r: seq<string>)
    requires firstDay in DaysOfWeek
  {
    RotateLeft(DaysOfWeek, IndexOf(DaysOfWeek, firstDay))
  }

  /** Entry `i` of a left rotation by `k` is the entry `k + i` places along, wrapping around. */
  lemma RotateLeftAt(s: seq<string>, k: nat, i: int)
    requires k < |s| && 0 <= i < |s|
    ensures RotateLeft(s, k)[i] == s[if k + i < |s| then k + i else k + i - |s|]
  {
  }

  /** A rotation of a list without repeats has no repeats and the same members. */
  lemma RotateLeftPermutes(s: seq<string>, k: nat)
    requires k < |s| && Distinct(s)
    ensures Distinct(RotateLeft(s, k))
    ensures forall d :: d in RotateLeft(s, k) <==> d in s
  {
    var r := RotateLeft(s, k);
    var n := |s|;
    forall i, j | 0 <= i < j < n
      ensures r[i] != r[j]
    {
      RotateLeftAt(s, k, i);
      RotateLeftAt(s, k, j);
    }
    forall d | d in s
      ensures d in r
    {
      var j :| 0 <= j < n && s[j] == d;
      RotateLeftAt(s, k, if j >= k then j - k else j - k + n);
    }
  }

  /** The rotated header starts with the configured day, holds each weekday
      exactly once, and its i-th entry is the weekday that many days after the
      configured one. */
  lemma RotatedWeekProperties(firstDay: string)
    requires firstDay in DaysOfWeek
    ensures |RotatedWeek(firstDay)| == 7 && RotatedWeek(firstDay)[0] == firstDay
    ensures Distinct(RotatedWeek(firstDay))
    ensures forall d :: d in RotatedWeek(firstDay) <==> d in DaysOfWeek
    ensures forall i :: 0 <= i < 7 ==>
      RotatedWeek(firstDay)[i] == DaysOfWeek[(IndexOf(DaysOfWeek, firstDay) + i) % 7]
  {
    WeekdaysDistinct();
    var k := IndexOf(DaysOfWeek, firstDay);
    RotateLeftPermutes(DaysOfWeek, k);
    RotateWeekAt(DaysOfWeek, k);
  }

  /** Entry `i` of a seven-day list rotated left by `k` is the entry `k + i` places along, modulo 7. */
  lemma RotateWeekAt(s: seq<string>, k: nat)
    requires |s| == 7 && k < 7
    ensures forall i :: 0 <= i < 7 ==> RotateLeft(s, k)[i] == s[(k + i) % 7]
  {
    forall i | 0 <= i < 7
      ensures RotateLeft(s, k)[i] == s[(k + i) % 7]
    {
      RotateLeftAt(s, k, i);
      WrapWeekday(k + i);
    }
  }

  /** In a list without repeats, the position of the entry at `p` is `p`. */
  lemma IndexOfDistinct(s: seq<string>, p: int)
    requires Distinct(s) && 0 <= p < |s|
    ensures IndexOf(s, s[p]) == p
  {
  }

  /** In a rotation of a list without repeats, entry `w` of the list sits `w - k` places along, wrapping around. */
  lemma RotateLeftIndex(s: seq<string>, k: nat, w: int)
    requires k < |s| && Distinct(s) && 0 <= w < |s|
    ensures IndexOf(RotateLeft(s, k), s[w]) == if w >= k then w - k else w - k + |s|
  {
    var p := if w >= k then w - k else w - k + |s|;
    RotateLeftAt(s, k, p);
    RotateLeftPermutes(s, k);
    IndexOfDistinct(RotateLeft(s, k), p);
  }

  /** Position, in the header that starts with `firstDay`, of weekday number `w`
      (Monday = 0): the number of days from `firstDay` forward to it. */
  lemma RotatedWeekIndex(firstDay: string, w: int)
    requires firstDay in DaysOfWeek && 0 <= w < 7
    ensures IndexOf(RotatedWeek(firstDay), DaysOfWeek[w])
            == (w - IndexOf(DaysOfWeek, firstDay)) % 7
  {
    WeekdaysDistinct();
    var k := IndexOf(DaysOfWeek, firstDay);
    RotateLeftIndex(DaysOfWeek, k, w);
    WrapWeekday(w - k);
  }

  /** Reducing a sum or a difference of two weekday numbers modulo 7 adds or
      takes away at most one week. */
  lemma WrapWeekday(x: int)
    requires -7 < x < 14
    ensures x % 7 == if x < 0 then x + 7 else if x < 7 then x else x - 7
  {
  }
}
