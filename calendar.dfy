/** Dates, minute-resolution timestamps and the strict decoding of the
    ten-digit `YYMMDDHHMM` text that the parser hands to
    datetime.strptime with the format '%y%m%d%H%M'. */
module Calendar {
  import opened Results

  datatype Date = Date(year: int, month: int, day: int)

  /** A datetime with zero seconds: the parser never reads seconds. */
  datatype Event = Event(date: Date, hour: int, minute: int)

  predicate IsLeapYear(y: int)
  {
    y % 4 == 0 && (y % 100 != 0 || y % 400 == 0)
  }

  function DaysInYear(y: int): int
  {
    if IsLeapYear(y) then 366 else 365
  }

  function DaysInMonth(y: int, m: int): int
    requires 1 <= m <= 12
  {
    if m == 2 then (if IsLeapYear(y) then 29 else 28)
    else if m == 4 || m == 6 || m == 9 || m == 11 then 30
    else 31
  }

  predicate ValidDate(d: Date)
  {
    1 <= d.year && 1 <= d.month <= 12 && 1 <= d.day <= DaysInMonth(d.year, d.month)
  }

  predicate ValidEvent(e: Event)
  {
    ValidDate(e.date) && 0 <= e.hour < 24 && 0 <= e.minute < 60
  }

  /** The events a successful strptime can produce. */
  type Timestamp = e: Event | ValidEvent(e) witness Event(Date(1970, 1, 1), 0, 0)

  /** Days in the years before `y`, as in the proleptic Gregorian calendar
      that Python's datetime uses. */
  function DaysBeforeYear(y: int): int
    requires y >= 1
  {
    var p := y - 1;
    p * 365 + p / 4 - p / 100 + p / 400
  }

  /** Days in the months of year `y` before month `m`. */
  function DaysBeforeMonth(y: int, m: int): int
    requires 1 <= m <= 12
  {
    [0, 31, 59, 90, 120, 151, 181, 212, 243, 273, 304, 334][m - 1]
      + (if m > 2 && IsLeapYear(y) then 1 else 0)
  }

  /** date.toordinal(): 1 for 0001-01-01. */
  function Ordinal(d: Date): int
    requires ValidDate(d)
  {
    DaysBeforeYear(d.year) + DaysBeforeMonth(d.year, d.month) + d.day
  }

  const MinutesPerDay := 1440

  /** Minutes since 0001-01-01 00:00; subtracting two of these is Python's
      datetime subtraction at minute resolution. */
  function Minutes(e: Timestamp): int
  {
    Ordinal(e.date) * MinutesPerDay + e.hour * 60 + e.minute
  }

  /** Python's datetime ordering: by date, then hour, then minute. */
  predicate DateBefore(a: Date, b: Date)
  {
    a.year < b.year || (a.year == b.year && (a.month < b.month || (a.month == b.month && a.day < b.day)))
  }

  predicate EventBefore(a: Event, b: Event)
  {
    DateBefore(a.date, b.date)
    || (a.date == b.date && (a.hour < b.hour || (a.hour == b.hour && a.minute < b.minute)))
  }

  // The count of multiples of 4, 100 and 400 below y grows by one
  // exactly when y is such a multiple.

  lemma QuadStep(y: int)
    ensures y / 4 == (y - 1) / 4 + (if y % 4 == 0 then 1 else 0)
  {
    var p := y - 1;
    assert p == 4 * (p / 4) + p % 4;
    assert y == 4 * (y / 4) + y % 4;
  }

  lemma CenturyStep(y: int)
    ensures y / 100 == (y - 1) / 100 + (if y % 100 == 0 then 1 else 0)
  {
    var p := y - 1;
    assert p == 100 * (p / 100) + p % 100;
    assert y == 100 * (y / 100) + y % 100;
  }

  lemma QuadCenturyStep(y: int)
    ensures y / 400 == (y - 1) / 400 + (if y % 400 == 0 then 1 else 0)
  {
    var p := y - 1;
    assert p == 400 * (p / 400) + p % 400;
    assert y == 400 * (y / 400) + y % 400;
  }

  lemma DaysBeforeNextYear(y: int)
    requires y >= 1
    ensures DaysBeforeYear(y + 1) == DaysBeforeYear(y) + DaysInYear(y)
  {
    QuadStep(y);
    CenturyStep(y);
    QuadCenturyStep(y);
  }

  lemma {:induction false} DaysBeforeYearGrows(y: int, z: int)
    requires 1 <= y < z
    ensures DaysBeforeYear(y) + DaysInYear(y) <= DaysBeforeYear(z)
    decreases z - y
  {
    DaysBeforeNextYear(y);
    if y + 1 < z {
      DaysBeforeYearGrows(y + 1, z);
    }
  }

  lemma MonthFitsYear(y: int, m: int)
    requires 1 <= m <= 12
    ensures m < 12 ==> DaysBeforeMonth(y, m) + DaysInMonth(y, m) == DaysBeforeMonth(y, m + 1)
    ensures m == 12 ==> DaysBeforeMonth(y, m) + DaysInMonth(y, m) == DaysInYear(y)
  {
  }

  lemma {:induction false} DaysBeforeMonthGrows(y: int, m: int, n: int)
    requires 1 <= m < n <= 12
    ensures DaysBeforeMonth(y, m) + DaysInMonth(y, m) <= DaysBeforeMonth(y, n)
    decreases n - m
  {
    MonthFitsYear(y, m);
    if m + 1 < n {
      DaysBeforeMonthGrows(y, m + 1, n);
    }
  }

  lemma OrdinalWithinYear(d: Date)
    requires ValidDate(d)
    ensures DaysBeforeYear(d.year) < Ordinal(d) <= DaysBeforeYear(d.year) + DaysInYear(d.year)
  {
    if d.month < 12 {
      DaysBeforeMonthGrows(d.year, d.month, 12);
    }
    MonthFitsYear(d.year, 12);
  }

  lemma OrdinalIncreases(a: Date, b: Date)
    requires ValidDate(a) && ValidDate(b) && DateBefore(a, b)
    ensures Ordinal(a) < Ordinal(b)
  {
    if a.year < b.year {
      OrdinalWithinYear(a);
      OrdinalWithinYear(b);
      DaysBeforeYearGrows(a.year, b.year);
    } else if a.month < b.month {
      DaysBeforeMonthGrows(a.year, a.month, b.month);
    }
  }

  /** Calendar order and day-number order agree, so distinct dates have
      distinct ordinals. */
  lemma OrdinalOrder(a: Date, b: Date)
    requires ValidDate(a) && ValidDate(b)
    ensures DateBefore(a, b) <==> Ordinal(a) < Ordinal(b)
    ensures a == b <==> Ordinal(a) == Ordinal(b)
  {
    if DateBefore(a, b) {
      OrdinalIncreases(a, b);
    } else if DateBefore(b, a) {
      OrdinalIncreases(b, a);
    }
  }

  /** Python's datetime ordering coincides with the order of Minutes. */
  lemma MinutesOrder(a: Timestamp, b: Timestamp)
    ensures EventBefore(a, b) <==> Minutes(a) < Minutes(b)
    ensures a == b <==> Minutes(a) == Minutes(b)
  {
    OrdinalOrder(a.date, b.date);
  }

  // ---- The '%y%m%d%H%M' text format.

  predicate IsDigit(c: char)
  {
    '0' <= c <= '9'
  }

  function DigitValue(c: char): int
    requires IsDigit(c)
  {
    c as int - '0' as int
  }

  function DigitChar(n: int): char
    requires 0 <= n <= 9
  {
    ('0' as int + n) as char
  }

  predicate AllDigits(s: string)
  {
    forall i :: 0 <= i < |s| ==> IsDigit(s[i])
  }

  /** The two-digit number at position i. */
  function TwoDigits(s: string, i: nat): int
    requires i + 2 <= |s| && AllDigits(s)
  {
    10 * DigitValue(s[i]) + DigitValue(s[i + 1])
  }

  /** The '%y' directive: 00..68 stand for 2000..2068, 69..99 for 1969..1999. */
  function CenturyYear(yy: int): int
  {
    if yy <= 68 then 2000 + yy else 1900 + yy
  }

  /** datetime.strptime(s, '%y%m%d%H%M'), read strictly: exactly ten digits
      that name an existing date and a time of day. */
  function DecodeTimestamp(s: string): (r: Result<Timestamp>)
    ensures r.Err? ==> r.error == MalformedTimestamp(s)
    ensures r.Ok? ==> |s| == 10 && AllDigits(s) && 1969 <= r.value.date.year <= 2068
  {
    if |s| != 10 || !AllDigits(s) then
      Err(MalformedTimestamp(s))
    else
      var year, month, day := CenturyYear(TwoDigits(s, 0)), TwoDigits(s, 2), TwoDigits(s, 4);
      var hour, minute := TwoDigits(s, 6), TwoDigits(s, 8);
      if 1 <= month <= 12 && 1 <= day <= DaysInMonth(year, month) && hour <= 23 && minute <= 59 then
        Ok(Event(Date(year, month, day), hour, minute))
      else
        Err(MalformedTimestamp(s))
  }

  function TwoDigitText(n: int): (s: string)
    requires 0 <= n < 100
  {
    [DigitChar(n / 10), DigitChar(n % 10)]
  }

  /** The ten-digit text of a timestamp whose year '%y' can express. */
  function FormatTimestamp(e: Timestamp): (s: string)
    requires 1969 <= e.date.year <= 2068
  {
    TwoDigitText(e.date.year % 100) + TwoDigitText(e.date.month) + TwoDigitText(e.date.day)
      + TwoDigitText(e.hour) + TwoDigitText(e.minute)
  }

  /** Decoding the written form of a timestamp gives that timestamp back. */
  lemma DecodeFormatted(e: Timestamp)
    requires 1969 <= e.date.year <= 2068
    ensures DecodeTimestamp(FormatTimestamp(e)) == Ok(e)
  {
    var s := FormatTimestamp(e);
    assert AllDigits(s);
    assert TwoDigits(s, 0) == e.date.year % 100;
    assert TwoDigits(s, 2) == e.date.month;
    assert TwoDigits(s, 4) == e.date.day;
    assert TwoDigits(s, 6) == e.hour;
    assert TwoDigits(s, 8) == e.minute;
  }

  /** Two digits, read as a number and written back, are those digits. */
  lemma TwoDigitsWritten(s: string, i: nat)
    requires i + 2 <= |s| && AllDigits(s)
    ensures 0 <= TwoDigits(s, i) < 100 && TwoDigitText(TwoDigits(s, i)) == s[i..i + 2]
  {
    var n := TwoDigits(s, i);
    assert n / 10 == DigitValue(s[i]) && n % 10 == DigitValue(s[i + 1]);
  }

  /** Every text that decodes is the written form of what it decodes to. */
  lemma FormatDecoded(s: string)
    requires DecodeTimestamp(s).Ok?
    ensures FormatTimestamp(DecodeTimestamp(s).value) == s
  {
    var e := DecodeTimestamp(s).value;
    assert e.date.year % 100 == TwoDigits(s, 0);
    TwoDigitsWritten(s, 0);
    TwoDigitsWritten(s, 2);
    TwoDigitsWritten(s, 4);
    TwoDigitsWritten(s, 6);
    TwoDigitsWritten(s, 8);
    assert s == s[0..2] + s[2..4] + s[4..6] + s[6..8] + s[8..10];
  }
}
