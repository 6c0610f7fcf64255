/** Decimal text of integers as PHP prints them, and the 'Y-m-d' date format
    of PHP's date(): a year of at least four digits ('-' before years BCE), a
    two-digit month and a two-digit day. A parser is given beside the
    formatter so that the formatter is proved injective. */
module DateFormat {
  import opened Gregorian

  datatype Option<T> = None | Some(value: T)

  predicate IsDigit(c: char) {
    '0' <= c <= '9'
  }

  predicate AllDigits(s: string) {
    forall i :: 0 <= i < |s| ==> IsDigit(s[i])
  }

  function DigitChar(d: int): (c: char)
    requires 0 <= d < 10
    ensures IsDigit(c)
  {
    ('0' as int + d) as char
  }

  /** Decimal digits of `n`, without leading zeros ("0" for zero). */
  function Digits(n: nat): (s: string)
    ensures |s| >= 1
  {
    if n < 10 then [DigitChar(n)] else Digits(n / 10) + [DigitChar(n % 10)]
  }

  /** PHP's (string) cast of an int. */
  function IntToString(x: int): (s: string)
    ensures |s| >= 1
    ensures s[0] == '-' <==> x < 0
    ensures AllDigits(if x < 0 then s[1..] else s)
  {
    DigitsAreDigits(if x < 0 then -x else x);
    if x < 0 then "-" + Digits(-x) else Digits(x)
  }

  /** `k` zero digits. */
  function Zeros(k: nat): (s: string)
    ensures |s| == k
  {
    if k == 0 then [] else Zeros(k - 1) + ['0']
  }

  /** `n` in decimal, left-padded with zeros to at least `width` characters. */
  function PadDigits(n: nat, width: nat): (s: string)
    ensures |s| >= width
  {
    var digits := Digits(n);
    (if |digits| < width then Zeros(width - |digits|) else "") + digits
  }

  /** The year as date('Y') prints it. */
  function YearField(y: int): string {
    if y < 0 then "-" + PadDigits(-y, 4) else PadDigits(y, 4)
  }

  /** date('Y-m-d') of the day `d`. */
  function FullDate(d: Date): (s: string)
    requires d.month >= 0 && d.day >= 0
    ensures |s| >= 10
  {
    YearField(d.year) + "-" + PadDigits(d.month, 2) + "-" + PadDigits(d.day, 2)
  }

  /** Value of a string of decimal digits (leading zeros allowed). */
  function ParseDigits(s: string): (n: nat)
    requires AllDigits(s)
  {
    if s == [] then 0 else ParseDigits(s[..|s| - 1]) * 10 + (s[|s| - 1] as int - '0' as int)
  }

  /** Reads back what YearField writes. */
  function ParseYear(text: string): Option<int> {
    if text == [] then None
    else
      var negative := text[0] == '-';
      var digits := if negative then text[1..] else text;
      if !AllDigits(digits) then None
      else
        var magnitude: int := ParseDigits(digits);
        Some(if negative then -magnitude else magnitude)
  }

  /** Reads back what FullDate writes; None for text of another shape. */
  function ParseFullDate(s: string): Option<Date> {
    if |s| < 10 || s[|s| - 6] != '-' || s[|s| - 3] != '-' then None
    else
      var monthText := s[|s| - 5..|s| - 3];
      var dayText := s[|s| - 2..];
      match ParseYear(s[..|s| - 6])
      case None => None
      case Some(year) =>
        if !AllDigits(monthText) || !AllDigits(dayText) then None
        else Some(Date(year, ParseDigits(monthText), ParseDigits(dayText)))
  }

  function Pow10(k: nat): (p: nat)
    ensures p >= 1
  {
    if k == 0 then 1 else 10 * Pow10(k - 1)
  }

  /** Digits(n) has at most k characters exactly when n < 10^k. */
  lemma {:induction false} DigitsLength(n: nat, k: nat)
    requires k >= 1
    ensures |Digits(n)| <= k <==> n < Pow10(k)
  {
    if n >= 10 && k >= 2 {
      DigitsLength(n / 10, k - 1);
    } else if n >= 10 {
      assert Pow10(1) == 10;
    } else {
      PowAtLeastTen(k);
    }
  }

  lemma {:induction false} PowAtLeastTen(k: nat)
    requires k >= 1
    ensures Pow10(k) >= 10
  {
    if k > 1 {
      PowAtLeastTen(k - 1);
    }
  }

  /** (string)$year has exactly four characters for 1000..9999 and for -999..-100, and for no other year. */
  lemma FourCharacterYears(y: int)
    ensures |IntToString(y)| == 4 <==> (1000 <= y <= 9999 || -999 <= y <= -100)
  {
    assert Pow10(3) == 1000 && Pow10(4) == 10000 && Pow10(2) == 100;
    if y < 0 {
      DigitsLength(-y, 3);
      DigitsLength(-y, 2);
    } else {
      DigitsLength(y, 4);
      DigitsLength(y, 3);
    }
  }

  /** Digits, Zeros and PadDigits write only decimal digits. */
  lemma {:induction false} DigitsAreDigits(n: nat)
    ensures AllDigits(Digits(n))
  {
    if n >= 10 {
      DigitsAreDigits(n / 10);
    }
  }

  lemma {:induction false} ZerosAreDigits(k: nat)
    ensures AllDigits(Zeros(k))
  {
    if k > 0 {
      ZerosAreDigits(k - 1);
    }
  }

  lemma PadDigitsAreDigits(n: nat, width: nat)
    ensures AllDigits(PadDigits(n, width))
  {
    DigitsAreDigits(n);
    if |Digits(n)| < width {
      ZerosAreDigits(width - |Digits(n)|);
    }
  }

  lemma {:induction false} ParseDigitsOfDigits(n: nat)
    ensures AllDigits(Digits(n)) && ParseDigits(Digits(n)) == n
  {
    DigitsAreDigits(n);
    if n >= 10 {
      var s := Digits(n);
      assert s[..|s| - 1] == Digits(n / 10);
      ParseDigitsOfDigits(n / 10);
    }
  }

  /** Leading zeros do not change the value of a digit string. */
  lemma {:induction false} ParseIgnoresZeros(k: nat, s: string)
    requires AllDigits(s)
    ensures AllDigits(Zeros(k) + s) && ParseDigits(Zeros(k) + s) == ParseDigits(s)
    decreases |s|
  {
    ZerosAreDigits(k);
    if s == [] {
      assert Zeros(k) + s == Zeros(k);
      ZerosParseToZero(k);
    } else {
      var t := Zeros(k) + s;
      assert t[..|t| - 1] == Zeros(k) + s[..|s| - 1];
      ParseIgnoresZeros(k, s[..|s| - 1]);
    }
  }

  lemma {:induction false} ZerosParseToZero(k: nat)
    ensures AllDigits(Zeros(k)) && ParseDigits(Zeros(k)) == 0
  {
    ZerosAreDigits(k);
    if k > 0 {
      ZerosParseToZero(k - 1);
    }
  }

  lemma ParsePadDigits(n: nat, width: nat)
    ensures AllDigits(PadDigits(n, width)) && ParseDigits(PadDigits(n, width)) == n
  {
    PadDigitsAreDigits(n, width);
    ParseDigitsOfDigits(n);
    var digits := Digits(n);
    if |digits| < width {
      ParseIgnoresZeros(width - |digits|, digits);
    } else {
      assert PadDigits(n, width) == digits;
    }
  }

  lemma PadDigitsTwo(n: nat)
    requires n < 100
    ensures |PadDigits(n, 2)| == 2
  {
    DigitsLength(n, 2);
    assert Pow10(2) == 100;
  }

  /** A digit string with no sign reads back as its value. */
  lemma ParseUnsignedYear(digits: string)
    requires |digits| >= 1 && AllDigits(digits)
    ensures ParseYear(digits) == Some(ParseDigits(digits))
  {
    assert IsDigit(digits[0]);
  }

  /** A digit string after a minus sign reads back as its negated value. */
  lemma ParseSignedYear(digits: string)
    requires AllDigits(digits)
    ensures ParseYear("-" + digits) == Some(-(ParseDigits(digits) as int))
  {
    assert ("-" + digits)[1..] == digits;
  }

  lemma ParseYearField(y: int)
    ensures ParseYear(YearField(y)) == Some(y)
  {
    var n: nat := if y < 0 then -y else y;
    var digits := PadDigits(n, 4);
    ParsePadDigits(n, 4);
    if y < 0 {
      ParseSignedYear(digits);
    } else {
      ParseUnsignedYear(digits);
    }
  }

  /** ParseFullDate splits its input at the two dashes that precede the month and the day. */
  lemma ParseFullDateShape(yearText: string, monthText: string, dayText: string)
    requires |yearText| >= 4 && |monthText| == 2 && |dayText| == 2
    requires AllDigits(monthText) && AllDigits(dayText)
    ensures ParseYear(yearText).Some? ==>
      ParseFullDate(yearText + "-" + monthText + "-" + dayText)
      == Some(Date(ParseYear(yearText).value, ParseDigits(monthText), ParseDigits(dayText)))
  {
    var s := yearText + "-" + monthText + "-" + dayText;
    assert s[|s| - 6] == '-' && s[|s| - 3] == '-';
    assert s[..|s| - 6] == yearText;
    assert s[|s| - 5..|s| - 3] == monthText;
    assert s[|s| - 2..] == dayText;
  }

  /** Reading back the text of a valid date gives the date again. */
  lemma ParseFullDateRoundTrip(d: Date)
    requires ValidDate(d)
    ensures ParseFullDate(FullDate(d)) == Some(d)
  {
    PadDigitsTwo(d.month);
    PadDigitsTwo(d.day);
    ParsePadDigits(d.month, 2);
    ParsePadDigits(d.day, 2);
    ParseYearField(d.year);
    ParseFullDateShape(YearField(d.year), PadDigits(d.month, 2), PadDigits(d.day, 2));
  }

  /** Two valid dates print the same 'Y-m-d' text only if they are the same date. */
  lemma FullDateInjective(a: Date, b: Date)
    requires ValidDate(a) && ValidDate(b)
    ensures FullDate(a) == FullDate(b) <==> a == b
  {
    ParseFullDateRoundTrip(a);
    ParseFullDateRoundTrip(b);
  }
}
