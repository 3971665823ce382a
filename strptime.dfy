/**
  The date format used by `parse_amazon_date`: Python's
  `datetime.strptime(s, '%m-%d-%y')`.

  Python compiles the format to one regular expression, matched from the
  start of the string, and refuses a match that leaves characters over:

    %m   1[0-2] | 0[1-9] | [1-9]
    %d   3[01] | [12][0-9] | 0[1-9] | [1-9] | ' '[1-9]
    %y   [0-9][0-9], read as 2000 + yy when yy <= 68 and 1900 + yy otherwise

  The fields found are then handed to `datetime(year, month, day)`, which
  refuses a day beyond the end of the month (so "02-30-22" is refused).
  Only ASCII digits are modelled.
*/
module Strptime {
  import opened Wrappers

  /** A `datetime` made by this format; its time of day is always midnight. */
  datatype DateTime = DateTime(year: int, month: int, day: int)

  predicate IsDigit(ch: char) {
    '0' <= ch <= '9'
  }

  function DigitValue(ch: char): (n: nat)
    requires IsDigit(ch)
    ensures n < 10
  {
    ch as int - '0' as int
  }

  function DigitChar(n: nat): (ch: char)
    requires n < 10
    ensures IsDigit(ch) && DigitValue(ch) == n
  {
    ('0' as int + n) as char
  }

  predicate IsLeapYear(year: int) {
    year % 4 == 0 && (year % 100 != 0 || year % 400 == 0)
  }

  /** The number of days of a month in the proleptic Gregorian calendar. */
  function DaysInMonth(year: int, month: int): (n: int)
    requires 1 <= month <= 12
    ensures 28 <= n <= 31
    ensures n == 29 <==> month == 2 && IsLeapYear(year)
  {
    if month == 2 then (if IsLeapYear(year) then 29 else 28)
    else if month == 4 || month == 6 || month == 9 || month == 11 then 30
    else 31
  }

  /** A date that Python's `datetime` constructor accepts. */
  predicate IsCalendarDate(d: DateTime) {
    1 <= d.month <= 12 && 1 <= d.day <= DaysInMonth(d.year, d.month)
  }

  /** The hundred years that a two-digit `%y` can denote. */
  predicate InPivotWindow(year: int) {
    1969 <= year <= 2068
  }

  /** The value of two ASCII digits. */
  function TwoDigitValue(t: string): (n: nat)
    requires |t| == 2 && IsDigit(t[0]) && IsDigit(t[1])
    ensures n < 100
  {
    10 * DigitValue(t[0]) + DigitValue(t[1])
  }

  /** The text `%m` accepts, and the month it denotes. */
  function MonthField(t: string): (r: Option<int>)
    ensures r.Some? ==> 1 <= r.value <= 12 && 1 <= |t| <= 2 && '-' !in t
  {
    if |t| == 1 && IsDigit(t[0]) && t[0] != '0' then Some(DigitValue(t[0]))
    else if |t| == 2 && IsDigit(t[0]) && IsDigit(t[1]) && 1 <= TwoDigitValue(t) <= 12 then Some(TwoDigitValue(t))
    else None
  }

  /** The text `%d` accepts, and the day it denotes. */
  function DayField(t: string): (r: Option<int>)
    ensures r.Some? ==> 1 <= r.value <= 31 && 1 <= |t| <= 2 && '-' !in t
  {
    if |t| == 1 && IsDigit(t[0]) && t[0] != '0' then Some(DigitValue(t[0]))
    else if |t| == 2 && t[0] == ' ' && IsDigit(t[1]) && t[1] != '0' then Some(DigitValue(t[1]))
    else if |t| == 2 && IsDigit(t[0]) && IsDigit(t[1]) && 1 <= TwoDigitValue(t) <= 31 then Some(TwoDigitValue(t))
    else None
  }

  /** The text `%y` accepts, and the year it denotes after the century pivot. */
  function YearField(t: string): (r: Option<int>)
    ensures r.Some? ==> InPivotWindow(r.value) && |t| == 2
  {
    if |t| == 2 && IsDigit(t[0]) && IsDigit(t[1]) then
      var yy := TwoDigitValue(t);
      Some(if yy <= 68 then 2000 + yy else 1900 + yy)
    else None
  }

  /** The match with a month of `lm` characters and a day of `ld` characters. */
  function ParseSplit(s: string, lm: nat, ld: nat): Option<DateTime>
    requires |s| == lm + ld + 4
  {
    if s[lm] == '-' && s[lm + 1 + ld] == '-' then
      var m, d, y := MonthField(s[..lm]), DayField(s[lm + 1..lm + 1 + ld]), YearField(s[lm + 2 + ld..]);
      if m.Some? && d.Some? && y.Some? && IsCalendarDate(DateTime(y.value, m.value, d.value))
      then Some(DateTime(y.value, m.value, d.value))
      else None
    else None
  }

  /**
    `datetime.strptime(s, '%m-%d-%y')`: `Some` of the date, or `None` where
    Python raises `ValueError`. A month or a day field never holds '-', so the
    length of the string and the place of its first '-' fix the split.
  */
  function Parse(s: string): (r: Option<DateTime>)
    ensures r.Some? ==> IsCalendarDate(r.value) && InPivotWindow(r.value.year)
  {
    if |s| == 6 then ParseSplit(s, 1, 1)
    else if |s| == 7 then (if s[1] == '-' then ParseSplit(s, 1, 2) else ParseSplit(s, 2, 1))
    else if |s| == 8 then ParseSplit(s, 2, 2)
    else None
  }

  // ---------------------------------------------------------------------
  // The texts that denote a date: the reference the parser is proved against
  // ---------------------------------------------------------------------

  /** How a day below 10 is written: "06", "6" or " 6". */
  datatype DayStyle = ZeroPadded | Unpadded | SpacePadded

  /** How a date is written: whether a month below 10 has its leading zero, and the day's style. */
  datatype Style = Style(padMonth: bool, dayStyle: DayStyle)

  /** The style `strftime('%m-%d-%y')` writes, as in "08-06-22". */
  const Canonical := Style(true, ZeroPadded)

  function TwoDigits(n: nat): (t: string)
    requires n < 100
    ensures |t| == 2 && IsDigit(t[0]) && IsDigit(t[1]) && TwoDigitValue(t) == n
  {
    [DigitChar(n / 10), DigitChar(n % 10)]
  }

  function MonthText(month: int, pad: bool): string
    requires 1 <= month <= 12
  {
    if month >= 10 then TwoDigits(month)
    else if pad then ['0', DigitChar(month)]
    else [DigitChar(month)]
  }

  function DayText(day: int, style: DayStyle): string
    requires 1 <= day <= 31
  {
    if day >= 10 then TwoDigits(day)
    else match style
      case ZeroPadded => ['0', DigitChar(day)]
      case Unpadded => [DigitChar(day)]
      case SpacePadded => [' ', DigitChar(day)]
  }

  /** The text of `d` in style `st`: month, '-', day, '-', the last two digits of the year. */
  function Format(d: DateTime, st: Style): string
    requires IsCalendarDate(d) && InPivotWindow(d.year)
  {
    MonthText(d.month, st.padMonth) + "-" + DayText(d.day, st.dayStyle) + "-" + TwoDigits(d.year % 100)
  }

  /** The texts the parser accepts are exactly the formatted dates. */
  ghost predicate DenotesDate(s: string) {
    exists d: DateTime, st: Style :: IsCalendarDate(d) && InPivotWindow(d.year) && Format(d, st) == s
  }

  // ---------------------------------------------------------------------
  // Each field reads back what the formatter wrote, and writes back what it read
  // ---------------------------------------------------------------------

  lemma TwoDigitsOfValue(t: string)
    requires |t| == 2 && IsDigit(t[0]) && IsDigit(t[1])
    ensures TwoDigits(TwoDigitValue(t)) == t
  {
    var n := TwoDigitValue(t);
    assert n / 10 == DigitValue(t[0]) && n % 10 == DigitValue(t[1]);
    assert DigitChar(DigitValue(t[0])) == t[0];
    assert DigitChar(DigitValue(t[1])) == t[1];
  }

  lemma MonthRoundTrip(month: int, pad: bool)
    requires 1 <= month <= 12
    ensures MonthField(MonthText(month, pad)) == Some(month)
  {
  }

  lemma MonthFieldWritesBack(t: string)
    requires MonthField(t).Some?
    ensures MonthText(MonthField(t).value, |t| == 2) == t
  {
    if |t| == 2 {
      TwoDigitsOfValue(t);
    }
  }

  /** The style a day field is written in. */
  function DayStyleOf(t: string): DayStyle {
    if |t| == 1 then Unpadded else if |t| == 2 && t[0] == ' ' then SpacePadded else ZeroPadded
  }

  lemma DayRoundTrip(day: int, style: DayStyle)
    requires 1 <= day <= 31
    ensures DayField(DayText(day, style)) == Some(day)
  {
  }

  lemma DayFieldWritesBack(t: string)
    requires DayField(t).Some?
    ensures DayText(DayField(t).value, DayStyleOf(t)) == t
  {
    if |t| == 2 && t[0] != ' ' {
      TwoDigitsOfValue(t);
    }
  }

  lemma YearRoundTrip(year: int)
    requires InPivotWindow(year)
    ensures YearField(TwoDigits(year % 100)) == Some(year)
  {
  }

  lemma YearFieldWritesBack(t: string)
    requires YearField(t).Some?
    ensures TwoDigits(YearField(t).value % 100) == t
  {
    TwoDigitsOfValue(t);
  }

  // ---------------------------------------------------------------------
  // The parser against the formatter
  // ---------------------------------------------------------------------

  /** Every date of the pivot window, written in any accepted style, parses back to itself. */
  lemma ParseFormat(d: DateTime, st: Style)
    requires IsCalendarDate(d) && InPivotWindow(d.year)
    ensures Parse(Format(d, st)) == Some(d)
  {
    var mt, dt, yt := MonthText(d.month, st.padMonth), DayText(d.day, st.dayStyle), TwoDigits(d.year % 100);
    var s := Format(d, st);
    MonthRoundTrip(d.month, st.padMonth);
    DayRoundTrip(d.day, st.dayStyle);
    YearRoundTrip(d.year);
    var lm, ld := |mt|, |dt|;
    assert s == mt + "-" + dt + "-" + yt;
    assert s[..lm] == mt && s[lm + 1..lm + 1 + ld] == dt && s[lm + 2 + ld..] == yt;
    assert ParseSplit(s, lm, ld) == Some(d);
    if |s| == 7 {
      assert s[1] == '-' <==> lm == 1;
    }
  }

  lemma ParseSplitSound(s: string, lm: nat, ld: nat)
    requires |s| == lm + ld + 4 && ParseSplit(s, lm, ld).Some?
    ensures IsCalendarDate(ParseSplit(s, lm, ld).value) && InPivotWindow(ParseSplit(s, lm, ld).value.year)
    ensures Format(ParseSplit(s, lm, ld).value, Style(lm == 2, DayStyleOf(s[lm + 1..lm + 1 + ld]))) == s
  {
    var mt, dt, yt := s[..lm], s[lm + 1..lm + 1 + ld], s[lm + 2 + ld..];
    MonthFieldWritesBack(mt);
    DayFieldWritesBack(dt);
    YearFieldWritesBack(yt);
    assert s == mt + "-" + dt + "-" + yt;
  }

  /** Whatever the parser accepts is a date of the pivot window written in some accepted style. */
  lemma ParseSound(s: string)
    requires Parse(s).Some?
    ensures exists st: Style :: Format(Parse(s).value, st) == s
  {
    if |s| == 6 {
      ParseSplitSound(s, 1, 1);
    } else if |s| == 8 {
      ParseSplitSound(s, 2, 2);
    } else if s[1] == '-' {
      ParseSplitSound(s, 1, 2);
    } else {
      ParseSplitSound(s, 2, 1);
    }
  }

  /**
    The parser accepts a string exactly when it is some date of the pivot
    window written in an accepted style; every other string is refused.
  */
  lemma ParseAcceptsExactlyFormattedDates(s: string)
    ensures Parse(s).Some? <==> DenotesDate(s)
  {
    if Parse(s).Some? {
      ParseSound(s);
    }
    if DenotesDate(s) {
      var d: DateTime, st: Style :| IsCalendarDate(d) && InPivotWindow(d.year) && Format(d, st) == s;
      ParseFormat(d, st);
    }
  }

  /** A text denotes at most one date: two styles that write the same text write the same date. */
  lemma FormatDeterminesDate(d1: DateTime, st1: Style, d2: DateTime, st2: Style)
    requires IsCalendarDate(d1) && InPivotWindow(d1.year)
    requires IsCalendarDate(d2) && InPivotWindow(d2.year)
    requires Format(d1, st1) == Format(d2, st2)
    ensures d1 == d2
  {
    ParseFormat(d1, st1);
    ParseFormat(d2, st2);
  }

  /** The example of the source's date column, in the canonical and the unpadded style. */
  lemma ParseAcceptsExamples()
    ensures Parse("08-06-22") == Some(DateTime(2022, 8, 6))
    ensures Parse("8-6-22") == Some(DateTime(2022, 8, 6))
    ensures Parse("02-29-24") == Some(DateTime(2024, 2, 29))
  {
    ParseFormat(DateTime(2022, 8, 6), Canonical);
    ParseFormat(DateTime(2022, 8, 6), Style(false, Unpadded));
    ParseFormat(DateTime(2024, 2, 29), Canonical);
  }

  /** Texts the parser refuses: a day past the end of the month, a month past 12, other layouts. */
  lemma ParseRefusesExamples()
    ensures Parse("02-29-23") == None
    ensures Parse("04-31-22") == None
    ensures Parse("13-01-22") == None
    ensures Parse("08-06-2022") == None
    ensures Parse("not-a-date") == None
  {
    assert !IsLeapYear(2023);
    var s := "02-29-23";
    assert s[..2] == "02" && s[3..5] == "29" && s[6..] == "23";
    var t := "04-31-22";
    assert t[..2] == "04" && t[3..5] == "31" && t[6..] == "22";
    var u := "13-01-22";
    assert u[..2] == "13";
  }
}
