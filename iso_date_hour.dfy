/**
 * The timestamp the rolling file writer puts into its file names: an instant,
 * given as milliseconds since 1970-01-01T00:00Z, truncated to the hour in UTC
 * and written `yyyy-MM-ddTHH` -- the ISO 8601 extended calendar date with a
 * reduced-accuracy time of day (ISO 8601:2004, section 4.3.3), in the
 * proleptic Gregorian calendar.
 */
module IsoDateHour {
  import opened Optional

  const MillisPerHour: int := 3600000
  const HoursPerDay: int := 24
  const EpochYear: int := 1970

  /** A calendar date with an hour of the day. */
  datatype DateHour = DateHour(year: int, month: nat, day: nat, hour: nat)

  predicate IsLeapYear(y: int)
  {
    y % 4 == 0 && (y % 100 != 0 || y % 400 == 0)
  }

  function DaysInYear(y: int): int
  {
    if IsLeapYear(y) then 366 else 365
  }

  function DaysInMonth(y: int, m: int): int
    requires 1 <= m <= 12
  {
    if m == 2 then (if IsLeapYear(y) then 29 else 28)
    else if m == 4 || m == 6 || m == 9 || m == 11 then 30
    else 31
  }

  /** The days of year `y` before the first of month `m` (`m == 13`: the whole year). */
  function DaysBeforeMonth(y: int, m: int): (n: int)
    requires 1 <= m <= 13
    ensures m == 13 ==> n == DaysInYear(y)
  {
    var common := [0, 31, 59, 90, 120, 151, 181, 212, 243, 273, 304, 334, 365][m - 1];
    if IsLeapYear(y) && m > 2 then common + 1 else common
  }

  /** Each month starts where the one before it ends. */
  lemma DaysBeforeNextMonth(y: int, m: int)
    requires 1 <= m <= 12
    ensures DaysBeforeMonth(y, m) + DaysInMonth(y, m) == DaysBeforeMonth(y, m + 1)
  {
  }

  predicate ValidDateHour(d: DateHour)
  {
    1 <= d.month <= 12 && 1 <= d.day <= DaysInMonth(d.year, d.month) && d.hour < HoursPerDay
  }

  /** The year holding day `z` counted from January 1st of year `y` (`z` may be
      negative), and the index of that day within its year. */
  function YearOfDay(y: int, z: int): (r: (int, int))
    ensures 0 <= r.1 < DaysInYear(r.0)
    decreases if z < 0 then 366 - z else z
  {
    if z < 0 then YearOfDay(y - 1, z + DaysInYear(y - 1))
    else if z < DaysInYear(y) then (y, z)
    else YearOfDay(y + 1, z - DaysInYear(y))
  }

  /** The month, from `m` on, holding day `doy` of year `y`, and the index of that day within its month. */
  function MonthOfDay(y: int, m: int, doy: int): (r: (int, int))
    requires 1 <= m <= 12 && DaysBeforeMonth(y, m) <= doy < DaysInYear(y)
    ensures m <= r.0 <= 12 && 0 <= r.1 < DaysInMonth(y, r.0)
    ensures DaysBeforeMonth(y, r.0) + r.1 == doy
    decreases 12 - m
  {
    DaysBeforeNextMonth(y, m);
    if doy < DaysBeforeMonth(y, m + 1) then (m, doy - DaysBeforeMonth(y, m))
    else MonthOfDay(y, m + 1, doy)
  }

  /** The UTC calendar date and hour of the `hours`-th hour since the epoch. */
  function CivilOfHour(hours: int): (d: DateHour)
    ensures ValidDateHour(d)
  {
    var (y, doy) := YearOfDay(EpochYear, hours / HoursPerDay);
    var (m, dom) := MonthOfDay(y, 1, doy);
    DateHour(y, m, dom + 1, hours % HoursPerDay)
  }

  /** The instant `millis`, truncated to the hour, as a UTC date and hour. */
  function DateHourOf(millis: int): (d: DateHour)
    ensures ValidDateHour(d)
  {
    CivilOfHour(millis / MillisPerHour)
  }

  // ---------------------------------------------------------------------------
  // The inverse: counting the hours of a date in closed form.

  /** The leap years from year 0 up to, not including, year `y` (negated for negative `y`). */
  function LeapYearsBefore(y: int): int
  {
    (y + 3) / 4 - (y + 99) / 100 + (y + 399) / 400
  }

  /** The days from 0000-01-01 to January 1st of year `y`. */
  function YearStart(y: int): int
  {
    365 * y + LeapYearsBefore(y)
  }

  /** The hours from the epoch to the start of the hour `d`. */
  function HoursOfCivil(d: DateHour): int
    requires 1 <= d.month <= 12
  {
    (YearStart(d.year) - YearStart(EpochYear) + DaysBeforeMonth(d.year, d.month) + d.day - 1) * HoursPerDay + d.hour
  }

  /** Moving from `y` to `y + 1` adds one multiple of `k` exactly when `k` divides `y`. */
  lemma MultiplesStep(y: int, k: int)
    requires k == 4 || k == 100 || k == 400
    ensures (y + k) / k - (y + k - 1) / k == (if y % k == 0 then 1 else 0)
  {
    assert (y + k) / k == y / k + 1;
    assert (y + k - 1) / k == y / k + (if y % k == 0 then 0 else 1);
  }

  lemma DividesChain(y: int)
    ensures y % 400 == 0 ==> y % 100 == 0
    ensures y % 100 == 0 ==> y % 4 == 0
  {
    if y % 400 == 0 {
      var q := y / 400;
      assert y == 100 * (4 * q);
    }
    if y % 100 == 0 {
      var q := y / 100;
      assert y == 4 * (25 * q);
    }
  }

  lemma YearStartStep(y: int)
    ensures YearStart(y + 1) == YearStart(y) + DaysInYear(y)
  {
    MultiplesStep(y, 4);
    MultiplesStep(y, 100);
    MultiplesStep(y, 400);
    DividesChain(y);
  }

  lemma {:induction false} YearOfDayCounts(y: int, z: int)
    ensures YearStart(YearOfDay(y, z).0) + YearOfDay(y, z).1 == YearStart(y) + z
    decreases if z < 0 then 366 - z else z
  {
    if z < 0 {
      YearStartStep(y - 1);
      YearOfDayCounts(y - 1, z + DaysInYear(y - 1));
    } else if z >= DaysInYear(y) {
      YearStartStep(y);
      YearOfDayCounts(y + 1, z - DaysInYear(y));
    }
  }

  /** Counting back the hours of the date and hour of an hour gives that hour. */
  lemma HoursOfCivilOfHour(hours: int)
    ensures HoursOfCivil(CivilOfHour(hours)) == hours
  {
    YearOfDayCounts(EpochYear, hours / HoursPerDay);
  }

  /** Years start apart by at least the length of the earlier one. */
  lemma {:induction false} YearStartsOrdered(y1: int, y2: int)
    requires y1 < y2
    ensures YearStart(y1) + DaysInYear(y1) <= YearStart(y2)
    decreases y2 - y1
  {
    YearStartStep(y1);
    if y1 + 1 < y2 {
      YearStartsOrdered(y1 + 1, y2);
      YearStartStep(y1 + 1);
    }
  }

  lemma {:induction false} MonthsOrdered(y: int, m1: int, m2: int)
    requires 1 <= m1 < m2 <= 13
    ensures DaysBeforeMonth(y, m1) + DaysInMonth(y, m1) <= DaysBeforeMonth(y, m2)
    decreases m2 - m1
  {
    DaysBeforeNextMonth(y, m1);
    if m1 + 1 < m2 {
      MonthsOrdered(y, m1 + 1, m2);
    }
  }

  /** Two valid dates and hours with the same hour count are the same. */
  lemma HoursOfCivilInjective(d1: DateHour, d2: DateHour)
    requires ValidDateHour(d1) && ValidDateHour(d2)
    requires HoursOfCivil(d1) == HoursOfCivil(d2)
    ensures d1 == d2
  {
    var days1 := YearStart(d1.year) + DaysBeforeMonth(d1.year, d1.month) + d1.day - 1;
    var days2 := YearStart(d2.year) + DaysBeforeMonth(d2.year, d2.month) + d2.day - 1;
    assert days1 == days2 && d1.hour == d2.hour;
    assert DaysBeforeMonth(d1.year, d1.month) + d1.day - 1 < DaysInYear(d1.year) by {
      MonthsOrdered(d1.year, d1.month, 13);
    }
    assert DaysBeforeMonth(d2.year, d2.month) + d2.day - 1 < DaysInYear(d2.year) by {
      MonthsOrdered(d2.year, d2.month, 13);
    }
    if d1.year < d2.year {
      YearStartsOrdered(d1.year, d2.year);
    } else if d2.year < d1.year {
      YearStartsOrdered(d2.year, d1.year);
    }
    assert d1.year == d2.year;
    if d1.month < d2.month {
      MonthsOrdered(d1.year, d1.month, d2.month);
    } else if d2.month < d1.month {
      MonthsOrdered(d1.year, d2.month, d1.month);
    }
  }

  /** The date and hour of a valid date and hour's hour count is that date and hour. */
  lemma CivilOfHoursOfCivil(d: DateHour)
    requires ValidDateHour(d)
    ensures CivilOfHour(HoursOfCivil(d)) == d
  {
    HoursOfCivilOfHour(HoursOfCivil(d));
    HoursOfCivilInjective(CivilOfHour(HoursOfCivil(d)), d);
  }

  // ---------------------------------------------------------------------------
  // Writing and reading `yyyy-MM-ddTHH`.

  predicate IsDigit(c: char) { '0' <= c <= '9' }

  function DigitChar(n: int): (c: char)
    requires 0 <= n < 10
    ensures IsDigit(c)
  {
    ('0' as int + n) as char
  }

  /** The decimal digits of `n`, without leading zeros. */
  function Digits(n: nat): (s: string)
    ensures 1 <= |s|
    ensures forall i :: 0 <= i < |s| ==> IsDigit(s[i])
  {
    if n < 10 then [DigitChar(n)] else Digits(n / 10) + [DigitChar(n % 10)]
  }

  /** `n` in decimal, left-padded with zeros to at least `width` characters. */
  function Padded(n: nat, width: nat): string
  {
    if width <= |Digits(n)| then Digits(n) else ['0'] + Padded(n, width - 1)
  }

  /** A signed field: a minus sign before the padded magnitude of a negative value. */
  function SignedPadded(n: int, width: nat): string
  {
    if n < 0 then "-" + Padded(-n, width) else Padded(n, width)
  }

  /** ISODateTimeFormat.dateHour: `yyyy-MM-ddTHH`. */
  function FormatDateHour(d: DateHour): (s: string)
    ensures |s| >= 13 && (d.year < 0 <==> s[0] == '-')
    ensures ValidDateHour(d) ==> s[|s| - 9] == '-' && s[|s| - 6] == '-' && s[|s| - 3] == 'T'
    ensures ValidDateHour(d) && 0 <= d.year < 10000 ==> |s| == 13
  {
    FieldLengths(d);
    SignedPadded(d.year, 4) + "-" + Padded(d.month, 2) + "-" + Padded(d.day, 2) + "T" + Padded(d.hour, 2)
  }

  /** The widths of the fields of a stamp: the year takes at least four
      characters, a minus sign only when negative; the other fields of a valid
      date and hour take two digits each. */
  lemma FieldLengths(d: DateHour)
    ensures |SignedPadded(d.year, 4)| >= 4
    ensures d.year < 0 <==> SignedPadded(d.year, 4)[0] == '-'
    ensures 0 <= d.year < 10000 ==> |SignedPadded(d.year, 4)| == 4
    ensures |Padded(d.month, 2)| >= 2 && |Padded(d.day, 2)| >= 2 && |Padded(d.hour, 2)| >= 2
    ensures ValidDateHour(d) ==> |Padded(d.month, 2)| == 2 && |Padded(d.day, 2)| == 2 && |Padded(d.hour, 2)| == 2
  {
    PaddedValue(if d.year < 0 then -d.year else d.year, 4);
    assert Pow10(2) == 100 && Pow10(4) == 10000;
    PaddedWidth(if d.year < 0 then -d.year else d.year, 4);
    PaddedWidth(d.month, 2);
    PaddedWidth(d.day, 2);
    PaddedWidth(d.hour, 2);
  }

  /** A padded field is at least as wide as asked, and exactly that wide when
      the number has no more digits than that. */
  lemma PaddedWidth(n: nat, width: nat)
    requires 1 <= width
    ensures |Padded(n, width)| >= width
    ensures n < Pow10(width) ==> |Padded(n, width)| == width
  {
    PaddedValue(n, width);
    if n < Pow10(width) {
      DigitsLength(n, width);
    }
  }

  /** The file-name stamp of the instant `millis`: its UTC hour, formatted. */
  function DateHourStamp(millis: int): (s: string)
    ensures 0 <= DateHourOf(millis).year < 10000 ==> |s| == 13
  {
    FormatDateHour(DateHourOf(millis))
  }

  /** The value of a string of decimal digits. */
  function DigitsValue(s: string): nat
    requires forall i :: 0 <= i < |s| ==> IsDigit(s[i])
  {
    if s == [] then 0
    else
      assert IsDigit(s[|s| - 1]);
      DigitsValue(s[..|s| - 1]) * 10 + (s[|s| - 1] as int - '0' as int)
  }

  /** Reads back a `yyyy-MM-ddTHH` stamp with a four-digit year. */
  function ParseDateHour(s: string): Option<DateHour>
  {
    if |s| == 13 && s[4] == '-' && s[7] == '-' && s[10] == 'T'
       && (forall i :: 0 <= i < 4 ==> IsDigit(s[i]))
       && IsDigit(s[5]) && IsDigit(s[6]) && IsDigit(s[8]) && IsDigit(s[9])
       && IsDigit(s[11]) && IsDigit(s[12])
    then Some(DateHour(DigitsValue(s[..4]), DigitsValue(s[5..7]), DigitsValue(s[8..10]), DigitsValue(s[11..13])))
    else None
  }

  lemma {:induction false} DigitsValueOfDigits(n: nat)
    ensures DigitsValue(Digits(n)) == n
  {
    if n >= 10 {
      var s := Digits(n);
      assert s[..|s| - 1] == Digits(n / 10);
      DigitsValueOfDigits(n / 10);
    }
  }

  /** A leading zero does not change the value of a digit string. */
  lemma {:induction false} DigitsValueOfZero(s: string)
    requires forall i :: 0 <= i < |s| ==> IsDigit(s[i])
    ensures DigitsValue(['0'] + s) == DigitsValue(s)
    decreases |s|
  {
    if s != [] {
      assert (['0'] + s)[..|s|] == ['0'] + s[..|s| - 1];
      DigitsValueOfZero(s[..|s| - 1]);
    }
  }

  /** A padded field is all digits, as long as the width or the number, whichever is longer,
      and reads back as the number. */
  lemma {:induction false} PaddedValue(n: nat, width: nat)
    ensures forall i :: 0 <= i < |Padded(n, width)| ==> IsDigit(Padded(n, width)[i])
    ensures |Padded(n, width)| == if width <= |Digits(n)| then |Digits(n)| else width
    ensures DigitsValue(Padded(n, width)) == n
    decreases width
  {
    if width <= |Digits(n)| {
      DigitsValueOfDigits(n);
    } else {
      PaddedValue(n, width - 1);
      DigitsValueOfZero(Padded(n, width - 1));
    }
  }

  function Pow10(k: nat): nat
  {
    if k == 0 then 1 else 10 * Pow10(k - 1)
  }

  lemma {:induction false} DigitsLength(n: nat, k: nat)
    requires 1 <= k && n < Pow10(k)
    ensures |Digits(n)| <= k
  {
    if n >= 10 {
      DigitsLength(n / 10, k - 1);
    }
  }

  /** A value below 10^width, padded to `width`, is exactly `width` digits that read back as the value. */
  lemma PaddedExact(n: nat, width: nat)
    requires 1 <= width && n < Pow10(width)
    ensures forall i :: 0 <= i < |Padded(n, width)| ==> IsDigit(Padded(n, width)[i])
    ensures |Padded(n, width)| == width
    ensures DigitsValue(Padded(n, width)) == n
  {
    DigitsLength(n, width);
    PaddedValue(n, width);
  }

  /** Reading back the stamp of a valid date and hour with a four-digit year gives that date and hour. */
  lemma ParseFormat(d: DateHour)
    requires ValidDateHour(d) && 0 <= d.year < 10000
    ensures ParseDateHour(FormatDateHour(d)) == Some(d)
  {
    assert Pow10(2) == 100 && Pow10(4) == 10000;
    PaddedExact(d.year, 4);
    PaddedExact(d.month, 2);
    PaddedExact(d.day, 2);
    PaddedExact(d.hour, 2);
    var y, mo, da, h := Padded(d.year, 4), Padded(d.month, 2), Padded(d.day, 2), Padded(d.hour, 2);
    var s := FormatDateHour(d);
    assert s == y + "-" + mo + "-" + da + "T" + h;
    assert s[..4] == y && s[5..7] == mo && s[8..10] == da && s[11..13] == h;
  }

  /** Instants within the same hour get the same stamp. */
  lemma SameHourSameStamp(m1: int, m2: int)
    requires m1 / MillisPerHour == m2 / MillisPerHour
    ensures DateHourStamp(m1) == DateHourStamp(m2)
  {
  }

  /** Instants in different hours get different stamps (for years 0 to 9999). */
  lemma DifferentHourDifferentStamp(m1: int, m2: int)
    requires m1 / MillisPerHour != m2 / MillisPerHour
    requires 0 <= DateHourOf(m1).year < 10000 && 0 <= DateHourOf(m2).year < 10000
    ensures DateHourStamp(m1) != DateHourStamp(m2)
  {
    HoursOfCivilOfHour(m1 / MillisPerHour);
    HoursOfCivilOfHour(m2 / MillisPerHour);
    ParseFormat(DateHourOf(m1));
    ParseFormat(DateHourOf(m2));
  }

  /** 2013-08-13 15:23:23.999 UTC falls in hour 15 of 2013-08-13. */
  lemma ExampleDateHour()
    ensures DateHourOf(1376407403999) == DateHour(2013, 8, 13, 15)
  {
    var d := DateHour(2013, 8, 13, 15);
    assert 1376407403999 / MillisPerHour == 382335;
    assert YearStart(2013) - YearStart(EpochYear) == 15706;
    assert DaysBeforeMonth(2013, 8) == 212;
    assert HoursOfCivil(d) == 382335;
    CivilOfHoursOfCivil(d);
  }

  lemma ExampleFormat()
    ensures FormatDateHour(DateHour(2013, 8, 13, 15)) == "2013-08-13T15"
  {
    assert Padded(2013, 4) == "2013" by {
      assert Digits(2013) == Digits(201) + ['3'];
      assert Digits(201) == Digits(20) + ['1'];
      assert Digits(20) == Digits(2) + ['0'];
    }
    assert Padded(8, 2) == "08";
    assert Padded(13, 2) == "13" by {
      assert Digits(13) == Digits(1) + ['3'];
    }
    assert Padded(15, 2) == "15" by {
      assert Digits(15) == Digits(1) + ['5'];
    }
  }

  /** 2013-08-13 15:23:23.999 UTC is stamped `2013-08-13T15`. */
  lemma StampExample()
    ensures DateHourStamp(1376407403999) == "2013-08-13T15"
  {
    ExampleDateHour();
    ExampleFormat();
  }

  /** One hour later, 16:23:23.999 UTC falls in hour 16 of the same day. */
  lemma ExampleNextDateHour()
    ensures DateHourOf(1376411003999) == DateHour(2013, 8, 13, 16)
  {
    var d := DateHour(2013, 8, 13, 16);
    assert 1376411003999 / MillisPerHour == 382336;
    assert YearStart(2013) - YearStart(EpochYear) == 15706;
    assert DaysBeforeMonth(2013, 8) == 212;
    assert HoursOfCivil(d) == 382336;
    CivilOfHoursOfCivil(d);
  }

  lemma ExampleNextFormat()
    ensures FormatDateHour(DateHour(2013, 8, 13, 16)) == "2013-08-13T16"
  {
    ExampleFormat();
    assert Padded(16, 2) == "16" by {
      assert Digits(16) == Digits(1) + ['6'];
    }
  }

  /** 16:23:23.999 UTC is stamped `2013-08-13T16`. */
  lemma StampExampleNextHour()
    ensures DateHourStamp(1376411003999) == "2013-08-13T16"
  {
    ExampleNextDateHour();
    ExampleNextFormat();
  }
}
