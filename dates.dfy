/** Calendar dates as the price history holds them: what `pd.to_datetime(...,
    format='%m/%d/%Y')` turns a date string into, and what `strftime('%m/%d/%Y')`
    turns it back into. */
module Dates {
  import opened Wrappers
  import opened Text

  /** A calendar date; dates are ordered by (year, month, day). */
  datatype Date = Date(year: nat, month: nat, day: nat)

  /** Chronological order: `a` is on or before `b`. */
  predicate DateLe(a: Date, b: Date)
  {
    || a.year < b.year
    || (a.year == b.year && (a.month < b.month || (a.month == b.month && a.day <= b.day)))
  }

  /** The Gregorian leap-year rule. */
  predicate IsLeapYear(y: int)
  {
    y % 4 == 0 && (y % 100 != 0 || y % 400 == 0)
  }

  function DaysInMonth(y: int, m: int): int
  {
    if m == 2 then (if IsLeapYear(y) then 29 else 28)
    else if m == 4 || m == 6 || m == 9 || m == 11 then 30
    else 31
  }

  /** The first and the last whole day a nanosecond-resolution pandas Timestamp can
      hold (its range is 1677-09-21 00:12:43 to 2262-04-11 23:47:16). */
  const EarliestDay := Date(1677, 9, 22)
  const LatestDay := Date(2262, 4, 11)

  /** A date that exists in the calendar and that a pandas Timestamp can represent. */
  predicate ValidDate(d: Date)
  {
    && 1 <= d.month <= 12 && 1 <= d.day <= DaysInMonth(d.year, d.month)
    && DateLe(EarliestDay, d) && DateLe(d, LatestDay)
  }

  /** `strftime('%m/%d/%Y')`: month, day and year, zero-padded, separated by slashes. */
  function FormatUsDate(d: Date): string
  {
    ZeroPadded(d.month, 2) + "/" + ZeroPadded(d.day, 2) + "/" + ZeroPadded(d.year, 4)
  }

  /** `s` has the shape `\d{2}/\d{2}/\d{4}`. */
  predicate IsUsDateShape(s: string)
  {
    && |s| == 10
    && IsDigit(s[0]) && IsDigit(s[1]) && s[2] == '/'
    && IsDigit(s[3]) && IsDigit(s[4]) && s[5] == '/'
    && IsDigit(s[6]) && IsDigit(s[7]) && IsDigit(s[8]) && IsDigit(s[9])
  }

  /** Every formatted date has the `dd/dd/dddd` shape. */
  lemma {:induction false} FormatShape(d: Date)
    ensures IsUsDateShape(FormatUsDate(d))
  {
    var m, dd, y := ZeroPadded(d.month, 2), ZeroPadded(d.day, 2), ZeroPadded(d.year, 4);
    PaddedDigits(d.month, 2);
    PaddedDigits(d.day, 2);
    PaddedDigits(d.year, 4);
    var s := FormatUsDate(d);
    assert s[0..2] == m && s[3..5] == dd && s[6..10] == y;
  }

  /** The date the digits of a `dd/dd/dddd` string name: month, day, year. */
  function DateOfShape(s: string): Date
    requires IsUsDateShape(s)
  {
    Date(DigitsValue(s[6..10]), DigitsValue(s[0..2]), DigitsValue(s[3..5]))
  }

  /** `pd.to_datetime(s, format='%m/%d/%Y')` on one value, for the shapes an invoice
      date takes (`dd/dd/dddd`, or "" when the header has no date): a `dd/dd/dddd`
      string parses exactly when it names a valid date, and then gives that date.
      Every other string is rejected, including the one-digit month and day fields
      `%m` and `%d` would also accept. */
  function ParseUsDate(s: string): Option<Date>
  {
    if IsUsDateShape(s) then
      var d := DateOfShape(s);
      if ValidDate(d) then Some(d) else None
    else None
  }

  /** What parses is a valid date that formats back to the string parsed. */
  lemma {:induction false} ParseUsDateSound(s: string)
    ensures ParseUsDate(s).Some? ==> ValidDate(ParseUsDate(s).value) && FormatUsDate(ParseUsDate(s).value) == s
  {
    if IsUsDateShape(s) {
      ShapeReformat(s);
    }
  }

  /** Writing back the date a `dd/dd/dddd` string names gives the string. */
  lemma {:induction false} ShapeReformat(s: string)
    requires IsUsDateShape(s)
    ensures FormatUsDate(DateOfShape(s)) == s
  {
    PaddedOfValue(s[0..2]);
    PaddedOfValue(s[3..5]);
    PaddedOfValue(s[6..10]);
    assert s == s[0..2] + "/" + s[3..5] + "/" + s[6..10];
  }

  /** Parsing a formatted valid date gives that date back. */
  lemma {:induction false} ParseFormatted(d: Date)
    requires ValidDate(d)
    ensures ParseUsDate(FormatUsDate(d)) == Some(d)
  {
    var s := FormatUsDate(d);
    FormatShape(d);
    assert s[0..2] == ZeroPadded(d.month, 2);
    assert s[3..5] == ZeroPadded(d.day, 2);
    assert s[6..10] == ZeroPadded(d.year, 4);
    assert Pow10(2) == 100 && Pow10(4) == 10000;
    ValueOfPadded(d.month, 2);
    ValueOfPadded(d.day, 2);
    ValueOfPadded(d.year, 4);
    assert DateOfShape(s) == d;
  }

  /** Chronological order is a total preorder ... */
  lemma {:induction false} DateLeTotalPreorder()
    ensures forall a, b :: DateLe(a, b) || DateLe(b, a)
    ensures forall a, b, c :: DateLe(a, b) && DateLe(b, c) ==> DateLe(a, c)
  {
  }

  /** ... and antisymmetric, so dates on the same day are the same date. */
  lemma {:induction false} DateLeAntisymmetric(a: Date, b: Date)
    requires DateLe(a, b) && DateLe(b, a)
    ensures a == b
  {
  }
}
