/** Calendar dates as the ISO text `YYYY-MM-DD` that task due dates are
    stored in: a strict parser, the matching formatter, and the order on
    dates that decides overdue status. */
module Dates {
  import opened Outcomes

  datatype Date = Date(year: int, month: int, day: int)

  predicate IsLeapYear(y: int)
  {
    y % 4 == 0 && (y % 100 != 0 || y % 400 == 0)
  }

  function DaysInMonth(y: int, m: int): (n: int)
    requires 1 <= m <= 12
    ensures 28 <= n <= 31
    ensures n == 29 <==> m == 2 && IsLeapYear(y)
  {
    if m == 2 then (if IsLeapYear(y) then 29 else 28)
    else if m == 4 || m == 6 || m == 9 || m == 11 then 30
    else 31
  }

  /** A date the calendar has, with a four-digit year (years 1 to 9999). */
  predicate IsValid(d: Date)
  {
    1 <= d.year <= 9999 && 1 <= d.month <= 12 && 1 <= d.day <= DaysInMonth(d.year, d.month)
  }

  /** The order on dates: by year, then month, then day. */
  predicate Before(a: Date, b: Date)
  {
    a.year < b.year
    || (a.year == b.year && (a.month < b.month || (a.month == b.month && a.day < b.day)))
  }

  predicate IsDigit(c: char)
  {
    '0' <= c <= '9'
  }

  function DigitValue(c: char): (n: int)
    requires IsDigit(c)
    ensures 0 <= n < 10
  {
    c as int - '0' as int
  }

  function DigitChar(n: int): (c: char)
    requires 0 <= n < 10
    ensures IsDigit(c) && DigitValue(c) == n
  {
    ('0' as int + n) as char
  }

  /** The text has the shape `DDDD-DD-DD`, each D a decimal digit. */
  predicate HasIsoShape(s: string)
  {
    |s| == 10 && s[4] == '-' && s[7] == '-'
    && forall i :: 0 <= i < 10 && i != 4 && i != 7 ==> IsDigit(s[i])
  }

  function TwoDigits(s: string, i: nat): (n: int)
    requires i + 1 < |s| && IsDigit(s[i]) && IsDigit(s[i + 1])
    ensures 0 <= n < 100
  {
    10 * DigitValue(s[i]) + DigitValue(s[i + 1])
  }

  function FourDigits(s: string, i: nat): (n: int)
    requires i + 3 < |s| && forall k :: i <= k < i + 4 ==> IsDigit(s[k])
    ensures 0 <= n < 10000
  {
    100 * TwoDigits(s, i) + TwoDigits(s, i + 2)
  }

  /** Parses a due date in the format `%Y-%m-%d`; None where the text is not
      a zero-padded date of that shape or names a day the calendar lacks. */
  function ParseIsoDate(s: string): (r: Option<Date>)
    ensures r.Some? ==> IsValid(r.value) && HasIsoShape(s)
  {
    if !HasIsoShape(s) then None
    else
      var d := Date(FourDigits(s, 0), TwoDigits(s, 5), TwoDigits(s, 8));
      if IsValid(d) then Some(d) else None
  }

  function Pad2(n: int): (s: string)
    requires 0 <= n < 100
    ensures |s| == 2 && IsDigit(s[0]) && IsDigit(s[1]) && TwoDigits(s, 0) == n
  {
    [DigitChar(n / 10), DigitChar(n % 10)]
  }

  function Pad4(n: int): (s: string)
    requires 0 <= n < 10000
    ensures |s| == 4 && (forall k :: 0 <= k < 4 ==> IsDigit(s[k])) && FourDigits(s, 0) == n
  {
    Pad2(n / 100) + Pad2(n % 100)
  }

  /** Writes a date as `YYYY-MM-DD`. */
  function FormatIsoDate(d: Date): (s: string)
    requires IsValid(d)
    ensures HasIsoShape(s)
  {
    Pad4(d.year) + "-" + Pad2(d.month) + "-" + Pad2(d.day)
  }

  /** Formatting a date and parsing the text gives the date back. */
  lemma ParseFormatted(d: Date)
    requires IsValid(d)
    ensures ParseIsoDate(FormatIsoDate(d)) == Some(d)
  {
  }

  lemma TwoDigitsFormatted(s: string, i: nat)
    requires i + 1 < |s| && IsDigit(s[i]) && IsDigit(s[i + 1])
    ensures Pad2(TwoDigits(s, i)) == s[i..i + 2]
  {
    var a, b := DigitValue(s[i]), DigitValue(s[i + 1]);
    assert (10 * a + b) / 10 == a && (10 * a + b) % 10 == b;
  }

  /** Every text the parser accepts is exactly the formatted date it yields:
      there is one spelling per date. */
  lemma FormatParsed(s: string)
    requires ParseIsoDate(s).Some?
    ensures FormatIsoDate(ParseIsoDate(s).value) == s
  {
    var d := ParseIsoDate(s).value;
    TwoDigitsFormatted(s, 0);
    TwoDigitsFormatted(s, 2);
    TwoDigitsFormatted(s, 5);
    TwoDigitsFormatted(s, 8);
    var t := FormatIsoDate(d);
    assert d.year / 100 == TwoDigits(s, 0) && d.year % 100 == TwoDigits(s, 2);
    assert t == s;
  }

  /** The day before a date, across month and year ends. */
  function PreviousDay(d: Date): (p: Date)
    requires IsValid(d) && d != Date(1, 1, 1)
    ensures IsValid(p) && Before(p, d)
  {
    if d.day > 1 then Date(d.year, d.month, d.day - 1)
    else if d.month > 1 then Date(d.year, d.month - 1, DaysInMonth(d.year, d.month - 1))
    else Date(d.year - 1, 12, 31)
  }

  /** No valid date lies strictly between the previous day and the day. */
  lemma PreviousDayIsImmediate(d: Date, e: Date)
    requires IsValid(d) && d != Date(1, 1, 1) && IsValid(e)
    ensures !(Before(PreviousDay(d), e) && Before(e, d))
  {
  }
}
