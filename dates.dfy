/**
 * Local calendar dates as day numbers (day 0 is 1970-01-01), the arithmetic behind
 * `new Date(year, monthIndex, day)`, `setDate` and `getDay`, and local timestamps in
 * milliseconds for `setHours` / `getHours` / `getMinutes`. Time zones and daylight
 * saving are not part of this model: a local day always has 24 hours.
 */
module Dates {

  predicate IsLeapYear(y: int)
  {
    y % 4 == 0 && (y % 100 != 0 || y % 400 == 0)
  }

  function DaysInMonth(y: int, m: int): (r: int)
    requires 1 <= m <= 12
    ensures 28 <= r <= 31
  {
    if m == 2 then (if IsLeapYear(y) then 29 else 28)
    else if m == 4 || m == 6 || m == 9 || m == 11 then 30
    else 31
  }

  /** Days from 0000-03-01 to the March 1st that starts the (March-based) year `y`. */
  function DaysBeforeMarchYear(y: int): int
  {
    365 * y + y / 4 - y / 100 + y / 400
  }

  /** Day number of the proleptic Gregorian date (y, m, d); d may lie outside the month. */
  function DaysFromCivil(y: int, m: int, d: int): int
    requires 1 <= m <= 12
  {
    var y1 := if m <= 2 then y - 1 else y;
    var mp := if m > 2 then m - 3 else m + 9;
    DaysBeforeMarchYear(y1) + (153 * mp + 2) / 5 + d - 1 - 719468
  }

  lemma EpochIsDayZero()
    ensures DaysFromCivil(1970, 1, 1) == 0
  {
  }

  lemma DivStep4(y: int)
    ensures (y + 1) / 4 - y / 4 == if (y + 1) % 4 == 0 then 1 else 0
  {
  }

  lemma DivStep100(y: int)
    ensures (y + 1) / 100 - y / 100 == if (y + 1) % 100 == 0 then 1 else 0
  {
  }

  lemma DivStep400(y: int)
    ensures (y + 1) / 400 - y / 400 == if (y + 1) % 400 == 0 then 1 else 0
  {
  }

  lemma YearStep(y: int)
    ensures DaysBeforeMarchYear(y + 1) - DaysBeforeMarchYear(y) == if IsLeapYear(y + 1) then 366 else 365
  {
    DivStep4(y);
    DivStep100(y);
    DivStep400(y);
    var z := y + 1;
    if z % 100 == 0 {
      assert z % 4 == 0 by { assert z == (z / 100) * 25 * 4; }
    }
    if z % 400 == 0 {
      assert z % 100 == 0 by { assert z == (z / 400) * 4 * 100; }
    }
  }

  /**
   * The day after the last day of a month is the first day of the next month, so
   * consecutive day numbers walk the calendar without gaps or overlaps.
   */
  lemma {:induction false} MonthsAreContiguous(y: int, m: int)
    requires 1 <= m <= 12
    ensures m < 12 ==> DaysFromCivil(y, m, DaysInMonth(y, m) + 1) == DaysFromCivil(y, m + 1, 1)
    ensures m == 12 ==> DaysFromCivil(y, 12, 32) == DaysFromCivil(y + 1, 1, 1)
  {
    if m == 2 {
      YearStep(y - 1);
    }
  }

  /** `new Date(year, monthIndex, day)`: years 0..99 mean 1900..1999; month and day roll over. */
  function JsDate(year: int, monthIndex: int, day: int): int
  {
    var y := if 0 <= year <= 99 then 1900 + year else year;
    DaysFromCivil(y + monthIndex / 12, monthIndex % 12 + 1, 1) + day - 1
  }

  /** For in-range arguments the constructor is the plain calendar date. */
  lemma JsDateInRange(year: int, month: int, day: int)
    requires 100 <= year && 1 <= month <= 12
    ensures JsDate(year, month - 1, day) == DaysFromCivil(year, month, day)
  {
  }

  /** `getDay()`: 0 is Sunday; 1970-01-01 was a Thursday. */
  function Weekday(dayNumber: int): (r: int)
    ensures 0 <= r < 7
  {
    (dayNumber + 4) % 7
  }

  /** Weekdays follow each other in a cycle of seven. */
  lemma WeekdayNext(dayNumber: int)
    ensures Weekday(dayNumber + 1) == (Weekday(dayNumber) + 1) % 7
  {
  }

  /** 2025-01-06, a Monday, as a check of the epoch and the weekday offset. */
  lemma KnownMonday()
    ensures DaysFromCivil(2025, 1, 6) == 20094
    ensures Weekday(DaysFromCivil(2025, 1, 6)) == 1
  {
  }

  const DayNames: seq<string> := ["Sunday", "Monday", "Tuesday", "Wednesday", "Thursday", "Friday", "Saturday"]

  // ------------------------------------------------------------ local timestamps

  const MsPerMinute: int := 60000
  const MsPerHour: int := 3600000
  const MsPerDay: int := 86400000

  /** Start of the local day holding timestamp `t`. */
  function DayStart(t: int): (r: int)
    ensures r <= t < r + MsPerDay
    ensures r % MsPerDay == 0
  {
    (t / MsPerDay) * MsPerDay
  }

  function GetHours(t: int): (r: int)
    ensures 0 <= r < 24
  {
    (t - DayStart(t)) / MsPerHour
  }

  function GetMinutes(t: int): (r: int)
    ensures 0 <= r < 60
  {
    (t % MsPerHour) / MsPerMinute
  }

  /** `setHours(h, m, s, ms)`: same local day, new time of day (which may roll over). */
  function SetHours(t: int, h: int, m: int, s: int, ms: int): int
  {
    DayStart(t) + h * MsPerHour + m * MsPerMinute + s * 1000 + ms
  }

  /** Setting a time of day within range reads back as that time on the same day. */
  lemma SetHoursReadBack(t: int, h: int, m: int)
    requires 0 <= h < 24 && 0 <= m < 60
    ensures DayStart(SetHours(t, h, m, 0, 0)) == DayStart(t)
    ensures GetHours(SetHours(t, h, m, 0, 0)) == h
    ensures GetMinutes(SetHours(t, h, m, 0, 0)) == m
  {
    var d := DayStart(t);
    var u := SetHours(t, h, m, 0, 0);
    var k := t / MsPerDay;
    assert u == k * MsPerDay + (h * MsPerHour + m * MsPerMinute);
    assert 0 <= h * MsPerHour + m * MsPerMinute < MsPerDay;
    assert u / MsPerDay == k;
    assert u % MsPerHour == m * MsPerMinute by {
      assert u == (k * 24 + h) * MsPerHour + m * MsPerMinute;
    }
  }

  /** `setHours(getHours() + 1)` is exactly one hour later, across midnight too. */
  lemma NextHour(t: int)
    ensures SetHours(t, GetHours(t) + 1, GetMinutes(t), (t % MsPerMinute) / 1000, t % 1000) == t + MsPerHour
  {
    var r := t - DayStart(t);
    assert r == GetHours(t) * MsPerHour + r % MsPerHour;
    HourRemainder(t);
    MinuteRemainder(t);
    SecondRemainder(t);
  }

  lemma HourRemainder(t: int)
    ensures t % MsPerHour == (t - DayStart(t)) % MsPerHour
  {
    assert t == (t / MsPerDay) * 24 * MsPerHour + (t - DayStart(t));
  }

  lemma MinuteRemainder(t: int)
    ensures t % MsPerHour == GetMinutes(t) * MsPerMinute + t % MsPerMinute
  {
    assert t % MsPerMinute == (t % MsPerHour) % MsPerMinute by {
      assert t == (t / MsPerHour) * 60 * MsPerMinute + t % MsPerHour;
    }
  }

  lemma SecondRemainder(t: int)
    ensures t % MsPerMinute == ((t % MsPerMinute) / 1000) * 1000 + t % 1000
  {
    assert t == (t / MsPerMinute) * 60 * 1000 + t % MsPerMinute;
  }
}
