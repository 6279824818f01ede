/** Stored dates against the civil calendar: the Gregorian leap-year rule carried back to the year 1. */
module Calendar {
  import opened Wrappers
  import opened Bytes
  import opened Schema
  import opened Row

  predicate Leap(y: nat) {
    y % 4 == 0 && (y % 100 != 0 || y % 400 == 0)
  }

  function MonthDays(y: nat, m: nat): nat {
    if m == 2 then (if Leap(y) then 29 else 28)
    else if m == 4 || m == 6 || m == 9 || m == 11 then 30
    else 31
  }

  /** Days of a year before a month. */
  function MonthStart(y: nat, m: nat): nat
    requires 1 <= m <= 12
  {
    if m == 1 then 0 else MonthStart(y, m - 1) + MonthDays(y, m - 1)
  }

  /** Days before a year, from the first day of the year 1 on. */
  function YearStart(y: nat): nat
    requires y >= 1
  {
    if y == 1 then 0 else YearStart(y - 1) + MonthStart(y - 1, 12) + MonthDays(y - 1, 12)
  }

  predicate IsDate(y: nat, m: nat, d: nat) {
    y >= 1 && 1 <= m <= 12 && 1 <= d <= MonthDays(y, m)
  }

  /** The day's number, 0001-01-01 being day 0. */
  function Day(y: nat, m: nat, d: nat): nat
    requires IsDate(y, m, d)
  {
    YearStart(y) + MonthStart(y, m) + d - 1
  }

  lemma MonthStarts(y: nat)
    ensures MonthStart(y, 1) == 0 && MonthStart(y, 12) == 306 + MonthDays(y, 2)
  {
    assert MonthStart(y, 2) == 31;
    assert MonthStart(y, 3) == 31 + MonthDays(y, 2);
    assert MonthStart(y, 4) == 62 + MonthDays(y, 2);
    assert MonthStart(y, 5) == 92 + MonthDays(y, 2);
    assert MonthStart(y, 6) == 123 + MonthDays(y, 2);
    assert MonthStart(y, 7) == 153 + MonthDays(y, 2);
    assert MonthStart(y, 8) == 184 + MonthDays(y, 2);
    assert MonthStart(y, 9) == 215 + MonthDays(y, 2);
    assert MonthStart(y, 10) == 245 + MonthDays(y, 2);
    assert MonthStart(y, 11) == 276 + MonthDays(y, 2);
  }

  lemma YearLength(y: nat)
    ensures MonthStart(y, 12) + MonthDays(y, 12) == if Leap(y) then 366 else 365
  {
    hide MonthStart;
    MonthStarts(y);
  }

  /** The leap years before a year. */
  function Leaps(y: nat): nat
    requires y >= 1
  {
    (y - 1) / 4 - (y - 1) / 100 + (y - 1) / 400
  }

  lemma Quarter(n: nat)
    requires n > 0
    ensures n / 4 == (n - 1) / 4 + (if n % 4 == 0 then 1 else 0)
  {
  }

  lemma Century(n: nat)
    requires n > 0
    ensures n / 100 == (n - 1) / 100 + (if n % 100 == 0 then 1 else 0)
  {
  }

  lemma FourCenturies(n: nat)
    requires n > 0
    ensures n / 400 == (n - 1) / 400 + (if n % 400 == 0 then 1 else 0)
    ensures n % 400 == 0 ==> n % 100 == 0
    ensures n % 100 == 0 ==> n % 4 == 0
  {
    if n % 400 == 0 {
      assert n == 400 * (n / 400);
      assert n == 100 * (4 * (n / 400));
      assert n % 100 == 0;
    }
    if n % 100 == 0 {
      assert n == 4 * (25 * (n / 100));
    }
  }

  lemma OneMoreYear(n: nat)
    requires n > 0
    ensures Leaps(n + 1) == Leaps(n) + (if Leap(n) then 1 else 0)
  {
    Quarter(n);
    Century(n);
    FourCenturies(n);
  }

  lemma {:induction false} YearStartIs(y: nat)
    requires y >= 1
    ensures YearStart(y) == 365 * (y - 1) + Leaps(y)
  {
    hide MonthStart, MonthDays, Leap;
    if y > 1 {
      YearStartIs(y - 1);
      YearLength(y - 1);
      OneMoreYear(y - 1);
    }
  }

  /** The two epochs, by the calendar: 719162 days to 1970-01-01, of them 25569 since 1899-12-30. */
  lemma EpochsAreDays()
    ensures IsDate(1970, 1, 1) && Day(1970, 1, 1) == DATE_TO_EPOCH == 719162
    ensures IsDate(1899, 12, 30) && Day(1970, 1, 1) - Day(1899, 12, 30) == DELPHI_TO_UNIX_DAYS == 25569
  {
    hide YearStart, MonthStart;
    YearStartIs(1970);
    YearStartIs(1899);
    MonthStarts(1970);
    MonthStarts(1899);
  }

  /** A DATE column that stores a day's number shows the days from 1970-01-01 to that day, for every date up to 5 million years. */
  lemma DateIsShown(y: nat, m: nat, d: nat, c: Column, rest: Buffer, ieee: Ieee)
    requires IsDate(y, m, d) && Day(y, m, d) < INT32_LIMIT
    requires c.fieldType.Date? && c.max >= 4 && |rest| == c.max as int - 4
    ensures IsDate(1970, 1, 1)
    ensures DecodeField(c, LeBytes(Day(y, m, d), 4) + rest, ieee) == Ok(Int32Cell(Day(y, m, d) - Day(1970, 1, 1)))
  {
    hide LeBytes, LeValue, YearStart, MonthStart;
    EpochsAreDays();
    LeRoundTrip32(Day(y, m, d));
    assert (LeBytes(Day(y, m, d), 4) + rest)[..4] == LeBytes(Day(y, m, d), 4);
  }

  /** A date-time that stores midnight of a day since 1899-12-30 shows the microseconds from 1970-01-01 to it. */
  lemma MidnightIsShown(y: nat, m: nat, d: nat, round: real -> real)
    requires RoundsNearly(round)
    requires IsDate(y, m, d) && IsDate(1899, 12, 30) && Day(1899, 12, 30) <= Day(y, m, d) < 100_000_000
    ensures IsDate(1970, 1, 1)
    ensures DateTimeMicros((Day(y, m, d) - Day(1899, 12, 30)) as real, round)
         == Some((Day(y, m, d) - Day(1970, 1, 1)) * 86_400_000_000)
  {
    hide RoundsNearly, YearStart, MonthStart, DateTimeMicros;
    EpochsAreDays();
    var days := Day(y, m, d) - Day(1899, 12, 30);
    assert Serial(days, 0) == days as real;
    DateTimeRoundTrip(days, 0, days as real, round);
  }
}
