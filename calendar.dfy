/** Calendar days as the booking form sees them: the day a `Date` picked in
    the calendar widget stands for, its position on the time line, and the
    two date-fns renderings the form sends to the server (`dd-MM-yyyy` in
    the booking payload, `yyyy-MM-dd` in the availability queries). */
module Calendar {
  import opened Wrappers
  import opened JsStrings

  datatype Ymd = Ymd(year: int, month: int, day: int)

  /** Gregorian leap years. */
  predicate IsLeapYear(y: int) {
    y % 4 == 0 && (y % 100 != 0 || y % 400 == 0)
  }

  function DaysInMonth(y: int, m: int): (n: int)
    requires 1 <= m <= 12
    ensures 28 <= n <= 31
    ensures m == 2 ==> (n == 29 <==> IsLeapYear(y))
  {
    if m == 2 then (if IsLeapYear(y) then 29 else 28)
    else if m == 4 || m == 6 || m == 9 || m == 11 then 30
    else 31
  }

  predicate ValidYmd(d: Ymd) {
    d.year >= 1 && 1 <= d.month <= 12 && 1 <= d.day <= DaysInMonth(d.year, d.month)
  }

  /** A day of the proleptic Gregorian calendar, anno Domini. */
  type CalDate = d: Ymd | ValidYmd(d) witness Ymd(1970, 1, 1)

  function YearLength(y: int): int {
    if IsLeapYear(y) then 366 else 365
  }

  /** Days from 0001-01-01 to the first of January of year `y`. */
  function DaysBeforeYear(y: int): int
    requires y >= 1
  {
    365 * (y - 1) + (y - 1) / 4 - (y - 1) / 100 + (y - 1) / 400
  }

  /** Days from the first of January to the first of month `m` (13 meaning
      the next first of January), as a cumulative table. */
  function DaysBeforeMonth(y: int, m: int): int
    requires 1 <= m <= 13
  {
    [0, 31, 59, 90, 120, 151, 181, 212, 243, 273, 304, 334, 365][m - 1]
      + (if m > 2 && IsLeapYear(y) then 1 else 0)
  }

  /** Days from 0001-01-01 to `d`. */
  function DayNumber(d: CalDate): int {
    DaysBeforeYear(d.year) + DaysBeforeMonth(d.year, d.month) + d.day - 1
  }

  /** The day number of 1970-01-01, the origin of JavaScript time values. */
  const UnixEpochDay: int := 719162

  lemma UnixEpoch()
    ensures DayNumber(Ymd(1970, 1, 1)) == UnixEpochDay
  {
  }

  /** The cumulative table agrees with the month lengths. */
  lemma MonthStep(y: int, m: int)
    requires 1 <= m <= 12
    ensures DaysBeforeMonth(y, m + 1) == DaysBeforeMonth(y, m) + DaysInMonth(y, m)
    ensures DaysBeforeMonth(y, 13) == YearLength(y)
  {
  }

  /** Consecutive new years are one year length apart. */
  lemma YearStep(y: int)
    requires y >= 1
    ensures DaysBeforeYear(y + 1) == DaysBeforeYear(y) + YearLength(y)
  {
    assert y / 4 - (y - 1) / 4 == if y % 4 == 0 then 1 else 0;
    assert y / 100 - (y - 1) / 100 == if y % 100 == 0 then 1 else 0;
    assert y / 400 - (y - 1) / 400 == if y % 400 == 0 then 1 else 0;
  }

  /** The day after `d`. */
  function NextDay(d: CalDate): (r: CalDate)
    ensures DayNumber(r) == DayNumber(d) + 1
  {
    MonthStep(d.year, d.month);
    if d.day < DaysInMonth(d.year, d.month) then Ymd(d.year, d.month, d.day + 1)
    else if d.month < 12 then Ymd(d.year, d.month + 1, 1)
    else
      YearStep(d.year);
      Ymd(d.year + 1, 1, 1)
  }

  /** Lexicographic order on (year, month, day). */
  predicate Before(a: Ymd, b: Ymd) {
    a.year < b.year
    || (a.year == b.year && (a.month < b.month || (a.month == b.month && a.day < b.day)))
  }

  lemma MonthsMonotone(y: int, m1: int, m2: int)
    requires 1 <= m1 <= m2 <= 13
    ensures DaysBeforeMonth(y, m1) <= DaysBeforeMonth(y, m2)
  {
  }

  lemma DayWithinYear(d: CalDate)
    ensures 0 <= DayNumber(d) - DaysBeforeYear(d.year) < YearLength(d.year)
  {
    MonthStep(d.year, d.month);
    MonthsMonotone(d.year, d.month + 1, 13);
  }

  lemma {:induction false} YearsMonotone(y1: int, y2: int)
    requires 1 <= y1 < y2
    ensures DaysBeforeYear(y1) + YearLength(y1) <= DaysBeforeYear(y2)
    decreases y2 - y1
  {
    YearStep(y1);
    if y1 + 1 < y2 {
      YearsMonotone(y1 + 1, y2);
    }
  }

  /** Later calendar days have larger day numbers. */
  lemma DayNumberMonotone(a: CalDate, b: CalDate)
    requires Before(a, b)
    ensures DayNumber(a) < DayNumber(b)
  {
    DayWithinYear(a);
    DayWithinYear(b);
    if a.year < b.year {
      YearsMonotone(a.year, b.year);
    } else if a.month < b.month {
      MonthStep(a.year, a.month);
      MonthsMonotone(a.year, a.month + 1, b.month);
    }
  }

  /** Distinct days have distinct day numbers. */
  lemma DayNumberInjective(a: CalDate, b: CalDate)
    requires DayNumber(a) == DayNumber(b)
    ensures a == b
  {
    if Before(a, b) {
      DayNumberMonotone(a, b);
    } else if Before(b, a) {
      DayNumberMonotone(b, a);
    }
  }

  // ---------------------------------------------------------------------
  // date-fns renderings and their inverses
  // ---------------------------------------------------------------------

  /** `format(d, 'dd-MM-yyyy')`. */
  function FormatDmy(d: CalDate): string {
    ZeroPad(d.day, 2) + "-" + ZeroPad(d.month, 2) + "-" + ZeroPad(d.year, 4)
  }

  /** `format(d, 'yyyy-MM-dd')`. */
  function FormatYmd(d: CalDate): string {
    ZeroPad(d.year, 4) + "-" + ZeroPad(d.month, 2) + "-" + ZeroPad(d.day, 2)
  }

  predicate IsNumeral(s: string) {
    s != [] && AllDigits(s)
  }

  /** Reads three dash-separated numerals as a calendar day, given the
      positions of day, month and year. */
  function ParseDashed(s: string, dayAt: nat, monthAt: nat, yearAt: nat): Option<CalDate>
    requires dayAt < 3 && monthAt < 3 && yearAt < 3
  {
    var p := Split(s, '-');
    if |p| == 3 && IsNumeral(p[0]) && IsNumeral(p[1]) && IsNumeral(p[2]) then
      var d := Ymd(DigitsValue(p[yearAt]), DigitsValue(p[monthAt]), DigitsValue(p[dayAt]));
      if ValidYmd(d) then Some(d) else None
    else None
  }

  /** Reads a `dd-MM-yyyy` string back. */
  function ParseDmy(s: string): Option<CalDate> {
    ParseDashed(s, 0, 1, 2)
  }

  /** Reads a `yyyy-MM-dd` string back. */
  function ParseYmd(s: string): Option<CalDate> {
    ParseDashed(s, 2, 1, 0)
  }

  lemma DashedRoundTrip(a: string, b: string, c: string)
    requires IsNumeral(a) && IsNumeral(b) && IsNumeral(c)
    ensures Split(a + "-" + b + "-" + c, '-') == [a, b, c]
  {
    var parts := [a, b, c];
    NoSeparatorInDigits(a, '-');
    NoSeparatorInDigits(b, '-');
    NoSeparatorInDigits(c, '-');
    assert parts[1..][1..] == [c];
    assert Join(parts[1..], '-') == b + ['-'] + c;
    assert Join(parts, '-') == a + ['-'] + (b + ['-'] + c);
    assert a + "-" + b + "-" + c == a + ['-'] + (b + ['-'] + c);
    SplitJoin(parts, '-');
  }

  /** The `dd-MM-yyyy` rendering loses nothing. */
  lemma FormatDmyRoundTrip(d: CalDate)
    ensures ParseDmy(FormatDmy(d)) == Some(d)
  {
    DashedRoundTrip(ZeroPad(d.day, 2), ZeroPad(d.month, 2), ZeroPad(d.year, 4));
  }

  /** The `yyyy-MM-dd` rendering loses nothing. */
  lemma FormatYmdRoundTrip(d: CalDate)
    ensures ParseYmd(FormatYmd(d)) == Some(d)
  {
    DashedRoundTrip(ZeroPad(d.year, 4), ZeroPad(d.month, 2), ZeroPad(d.day, 2));
  }

  /** Neither rendering contains a space, so a space placed after one marks
      where it ends. */
  lemma NoSpaceInFormats(d: CalDate)
    ensures ' ' !in FormatDmy(d) && ' ' !in FormatYmd(d)
  {
    var dd, mm, yy := ZeroPad(d.day, 2), ZeroPad(d.month, 2), ZeroPad(d.year, 4);
    NoSeparatorInDigits(dd, ' ');
    NoSeparatorInDigits(mm, ' ');
    NoSeparatorInDigits(yy, ' ');
    assert FormatDmy(d) == dd + ['-'] + mm + ['-'] + yy;
    assert FormatYmd(d) == yy + ['-'] + mm + ['-'] + dd;
  }

  /** For four-digit years the rendering has the fixed shape `dd-MM-yyyy`. */
  lemma FormatDmyShape(d: CalDate)
    requires d.year <= 9999
    ensures |FormatDmy(d)| == 10
    ensures FormatDmy(d)[2] == '-' && FormatDmy(d)[5] == '-'
  {
    assert Pow10(2) == 100;
    assert Pow10(4) == 10000;
    DecimalLength(d.day, 2);
    DecimalLength(d.month, 2);
    DecimalLength(d.year, 4);
  }
}
