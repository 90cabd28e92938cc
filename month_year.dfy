/** The "MM-YYYY" text form of a month: parsing with Go's time.Parse under the
    layout "01-2006", normalised to the 1st of the month, and formatting with
    the same layout. */
module MonthYear {
  import opened Wrappers
  import opened Times

  /** Why the layout "01-2006" rejects a string. */
  datatype ParseError =
    | BadMonth          // the "01" chunk is not two digits
    | MonthOutOfRange   // two digits, but not 01 to 12
    | MissingSeparator  // the literal "-" is not next
    | BadYear           // the "2006" chunk is not four digits
    | ExtraText         // characters remain after the year

  predicate IsDigit(c: char) {
    '0' <= c <= '9'
  }

  function DigitValue(c: char): (d: int)
    requires IsDigit(c)
    ensures 0 <= d < 10
  {
    c as int - '0' as int
  }

  function DigitChar(d: int): (c: char)
    requires 0 <= d < 10
    ensures IsDigit(c) && DigitValue(c) == d
  {
    ('0' as int + d) as char
  }

  /** The "01" layout chunk: exactly two digits forming a month from 1 to 12.
      Yields the month and the text after it. */
  function ZeroMonth(s: string): Result<(int, string), ParseError> {
    if |s| < 2 || !IsDigit(s[0]) || !IsDigit(s[1]) then Err(BadMonth)
    else
      var month := DigitValue(s[0]) * 10 + DigitValue(s[1]);
      if month < 1 || 12 < month then Err(MonthOutOfRange)
      else Ok((month, s[2..]))
  }

  /** The literal "-" between the chunks. */
  function Separator(s: string): Result<string, ParseError> {
    if 1 <= |s| && s[0] == '-' then Ok(s[1..]) else Err(MissingSeparator)
  }

  /** The "2006" layout chunk: exactly four digits. Yields the year and the
      text after it. */
  function LongYear(s: string): Result<(int, string), ParseError> {
    if |s| < 4 || !IsDigit(s[0]) || !IsDigit(s[1]) || !IsDigit(s[2]) || !IsDigit(s[3]) then Err(BadYear)
    else
      Ok((DigitValue(s[0]) * 1000 + DigitValue(s[1]) * 100 + DigitValue(s[2]) * 10 + DigitValue(s[3]), s[4..]))
  }

  /** ParseMonthYear: the layout's chunks in order, nothing left over, and the
      result moved to 00:00 UTC on the 1st of the parsed month. */
  function ParseMonthYear(s: string): (r: Result<Instant, ParseError>)
    ensures r.Ok? ==> r.value.nanos == 0 && 0 <= YearOf(r.value.month) <= 9999
  {
    match ZeroMonth(s)
    case Err(e) => Err(e)
    case Ok((month, afterMonth)) =>
      match Separator(afterMonth)
      case Err(e) => Err(e)
      case Ok(afterDash) =>
        match LongYear(afterDash)
        case Err(e) => Err(e)
        case Ok((year, rest)) =>
          if rest != [] then Err(ExtraText) else Ok(FirstOf(MonthIndex(year, month)))
  }

  /** The strings of the form MM-YYYY: two digits naming a month 01 to 12, a
      dash, four digits, and nothing else. */
  predicate IsMonthYear(s: string) {
    && |s| == 7
    && IsDigit(s[0]) && IsDigit(s[1])
    && 1 <= DigitValue(s[0]) * 10 + DigitValue(s[1]) <= 12
    && s[2] == '-'
    && IsDigit(s[3]) && IsDigit(s[4]) && IsDigit(s[5]) && IsDigit(s[6])
  }

  /** The month written in an MM-YYYY string. */
  function MonthText(s: string): int
    requires IsMonthYear(s)
  {
    DigitValue(s[0]) * 10 + DigitValue(s[1])
  }

  /** The year written in an MM-YYYY string. */
  function YearText(s: string): int
    requires IsMonthYear(s)
  {
    DigitValue(s[3]) * 1000 + DigitValue(s[4]) * 100 + DigitValue(s[5]) * 10 + DigitValue(s[6])
  }

  /** ParseMonthYear accepts exactly the MM-YYYY strings, and what it returns
      is the 1st of the written month of the written year. */
  lemma ParseAcceptsExactly(s: string)
    ensures ParseMonthYear(s).Ok? <==> IsMonthYear(s)
    ensures IsMonthYear(s) ==>
      var t := ParseMonthYear(s).value;
      t == FirstOf(MonthIndex(YearText(s), MonthText(s)))
      && YearOf(t.month) == YearText(s) && MonthOfYear(t.month) == MonthText(s)
  {
    if IsMonthYear(s) {
      assert s[2..][0] == '-' && s[2..][1..] == s[3..];
    }
  }

  /** The decimal digits of `n`, without leading zeros. */
  function Decimal(n: nat): (r: string)
    ensures 1 <= |r|
  {
    if n < 10 then [DigitChar(n)] else Decimal(n / 10) + [DigitChar(n % 10)]
  }

  /** `s` with zeros in front up to `width` characters. */
  function ZeroPad(s: string, width: nat): (r: string)
    ensures |s| <= width ==> r == seq(width - |s|, _ => '0') + s
    ensures width < |s| ==> r == s
    decreases width - |s|
  {
    if width <= |s| then s else ZeroPad(['0'] + s, width)
  }

  /** The "2006" chunk when formatting: the year padded with zeros to four
      digits, after a minus sign when it is negative. */
  function YearDigits(year: int): string {
    if year < 0 then "-" + ZeroPad(Decimal(-year), 4) else ZeroPad(Decimal(year), 4)
  }

  /** FormatMonthYear: the month as two digits, a dash, then the year. Only
      the month of `t` is read: the day and the time are dropped. */
  function FormatMonthYear(t: Instant): (r: string)
    ensures 7 <= |r| && r[2] == '-'
    ensures IsDigit(r[0]) && IsDigit(r[1]) && DigitValue(r[0]) * 10 + DigitValue(r[1]) == MonthOfYear(t.month)
  {
    var month := MonthOfYear(t.month);
    [DigitChar(month / 10), DigitChar(month % 10)] + "-" + YearDigits(YearOf(t.month))
  }

  /** Splitting a number below 10000 into its decimal digits and putting
      them back together. */
  lemma DecimalDigits(a: int, b: int, c: int, d: int)
    requires 0 <= a < 10 && 0 <= b < 10 && 0 <= c < 10 && 0 <= d < 10
    ensures
      var y := a * 1000 + b * 100 + c * 10 + d;
      y % 10 == d && y / 10 % 10 == c && y / 10 / 10 % 10 == b && y / 10 / 10 / 10 == a
  {
    var y := a * 1000 + b * 100 + c * 10 + d;
    assert y == 10 * (a * 100 + b * 10 + c) + d;
    assert y / 10 == a * 100 + b * 10 + c == 10 * (a * 10 + b) + c;
    assert y / 10 / 10 == a * 10 + b;
  }

  /** A year from 0 to 9999 is formatted as exactly its four digits. */
  lemma FourDigitYear(year: int)
    requires 0 <= year <= 9999
    ensures YearDigits(year) ==
      [DigitChar(year / 10 / 10 / 10), DigitChar(year / 10 / 10 % 10), DigitChar(year / 10 % 10), DigitChar(year % 10)]
  {
    var d0, d1, d2, d3 := DigitChar(year / 10 / 10 / 10), DigitChar(year / 10 / 10 % 10), DigitChar(year / 10 % 10), DigitChar(year % 10);
    if year < 10 {
      assert Decimal(year) == [d3];
      assert ZeroPad(Decimal(year), 4) == ['0', '0', '0'] + [d3];
    } else if year < 100 {
      assert Decimal(year / 10) == [d2];
      assert Decimal(year) == [d2, d3];
      assert ZeroPad(Decimal(year), 4) == ['0', '0'] + [d2, d3];
    } else if year < 1000 {
      assert Decimal(year / 10 / 10) == [d1];
      assert Decimal(year / 10) == [d1, d2];
      assert Decimal(year) == [d1, d2, d3];
      assert ZeroPad(Decimal(year), 4) == ['0'] + [d1, d2, d3];
    } else {
      assert Decimal(year / 10 / 10 / 10) == [d0];
      assert Decimal(year / 10 / 10) == [d0, d1];
      assert Decimal(year / 10) == [d0, d1, d2];
      assert Decimal(year) == [d0, d1, d2, d3];
    }
  }

  /** For the years 0 to 9999, the seven characters FormatMonthYear writes. */
  lemma FormatShape(t: Instant)
    requires 0 <= YearOf(t.month) <= 9999
    ensures
      var month, year := MonthOfYear(t.month), YearOf(t.month);
      FormatMonthYear(t) ==
        [DigitChar(month / 10), DigitChar(month % 10), '-',
         DigitChar(year / 10 / 10 / 10), DigitChar(year / 10 / 10 % 10), DigitChar(year / 10 % 10), DigitChar(year % 10)]
  {
    FourDigitYear(YearOf(t.month));
  }

  /** The digits of an MM-YYYY string are those of the month and the year
      it names. */
  lemma TextDigits(s: string)
    requires IsMonthYear(s)
    ensures
      var month, year := MonthText(s), YearText(s);
      DigitChar(month / 10) == s[0] && DigitChar(month % 10) == s[1]
      && DigitChar(year / 10 / 10 / 10) == s[3] && DigitChar(year / 10 / 10 % 10) == s[4]
      && DigitChar(year / 10 % 10) == s[5] && DigitChar(year % 10) == s[6]
  {
    var a, b := DigitValue(s[0]), DigitValue(s[1]);
    assert MonthText(s) / 10 == a && MonthText(s) % 10 == b;
    DecimalDigits(DigitValue(s[3]), DigitValue(s[4]), DigitValue(s[5]), DigitValue(s[6]));
  }

  /** Every string ParseMonthYear accepts is formatted back to itself. */
  lemma FormatAfterParse(s: string)
    requires ParseMonthYear(s).Ok?
    ensures FormatMonthYear(ParseMonthYear(s).value) == s
  {
    ParseAcceptsExactly(s);
    FormatShape(ParseMonthYear(s).value);
    TextDigits(s);
  }

  /** Formatting and then parsing yields the 1st of the month, 00:00 UTC, for
      the years 0 to 9999 the four-digit chunk can hold. */
  lemma ParseAfterFormat(t: Instant)
    requires 0 <= YearOf(t.month) <= 9999
    ensures ParseMonthYear(FormatMonthYear(t)) == Ok(FirstOf(t.month))
  {
    var s := FormatMonthYear(t);
    var month, year := MonthOfYear(t.month), YearOf(t.month);
    FormatShape(t);
    assert IsMonthYear(s);
    ParseAcceptsExactly(s);
    assert MonthText(s) == month;
    assert year == (year / 10 / 10 / 10) * 1000 + (year / 10 / 10 % 10) * 100 + (year / 10 % 10) * 10 + year % 10;
    assert YearText(s) == year;
    assert MonthIndex(year, month) == t.month;
  }

  /** Two instants in the same month and year format to the same text. */
  lemma SameMonthSameText(t: Instant, u: Instant)
    requires YearOf(t.month) == YearOf(u.month) && MonthOfYear(t.month) == MonthOfYear(u.month)
    ensures FormatMonthYear(t) == FormatMonthYear(u)
  {
    assert t.month == YearOf(t.month) * 12 + MonthOfYear(t.month) - 1;
    assert u.month == YearOf(u.month) * 12 + MonthOfYear(u.month) - 1;
  }
}
