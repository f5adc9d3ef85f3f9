/**
 * The UTC calendar as index_article_window_1.0.js uses it through JavaScript's `Date`:
 * `Date.UTC(y, m - 1, d)` with its year, month and day overflow, `getTime()` as days since
 * 1970-01-01 times the milliseconds of a day, `getUTCDay()`, and the Monday of a week.
 */
module Dates {

  /** A date of the proleptic Gregorian calendar, month and day counted from 1. */
  datatype Date = Date(year: int, month: int, day: int)

  const MsPerDay := 86400000

  predicate IsLeap(y: int) {
    y % 4 == 0 && (y % 100 != 0 || y % 400 == 0)
  }

  function YearLength(y: int): nat {
    if IsLeap(y) then 366 else 365
  }

  function DaysInMonth(y: int, m: int): nat
    requires 1 <= m <= 12
  {
    if m == 2 then (if IsLeap(y) then 29 else 28)
    else if m == 4 || m == 6 || m == 9 || m == 11 then 30
    else 31
  }

  predicate ValidDate(d: Date) {
    1 <= d.month <= 12 && 1 <= d.day <= DaysInMonth(d.year, d.month)
  }

  /** Days from 1970-01-01 to the first of January of `y`. */
  function DaysBeforeYear(y: int): int
    decreases if y >= 1970 then y - 1970 else 1970 - y
  {
    if y == 1970 then 0
    else if y > 1970 then DaysBeforeYear(y - 1) + YearLength(y - 1)
    else DaysBeforeYear(y + 1) - YearLength(y)
  }

  /** Days from the first of January to the first of month `m`. */
  function DaysBeforeMonth(y: int, m: int): nat
    requires 1 <= m <= 12
  {
    if m == 1 then 0 else DaysBeforeMonth(y, m - 1) + DaysInMonth(y, m - 1)
  }

  /** Days since 1970-01-01; `getTime()` is this times `MsPerDay`. */
  function DayNumber(d: Date): int
    requires 1 <= d.month <= 12
  {
    DaysBeforeYear(d.year) + DaysBeforeMonth(d.year, d.month) + d.day - 1
  }

  lemma NextYear(y: int)
    ensures DaysBeforeYear(y + 1) == DaysBeforeYear(y) + YearLength(y)
  {
  }

  /** The twelve months fill the year. */
  lemma MonthsFillYear(y: int)
    ensures DaysBeforeMonth(y, 12) + DaysInMonth(y, 12) == YearLength(y)
  {
    var feb := DaysInMonth(y, 2);
    assert DaysBeforeMonth(y, 2) == 31;
    assert DaysBeforeMonth(y, 3) == 31 + feb;
    assert DaysBeforeMonth(y, 4) == 62 + feb;
    assert DaysBeforeMonth(y, 5) == 92 + feb;
    assert DaysBeforeMonth(y, 6) == 123 + feb;
    assert DaysBeforeMonth(y, 7) == 153 + feb;
    assert DaysBeforeMonth(y, 8) == 184 + feb;
    assert DaysBeforeMonth(y, 9) == 215 + feb;
    assert DaysBeforeMonth(y, 10) == 245 + feb;
    assert DaysBeforeMonth(y, 11) == 276 + feb;
    assert DaysBeforeMonth(y, 12) == 306 + feb;
  }

  /** Day `d` of a month, counted on past the month's end, as `Date.UTC` normalises it. */
  function CarryDays(y: int, m: int, d: int): (r: Date)
    requires 1 <= m <= 12 && d >= 1
    ensures ValidDate(r)
    decreases d
  {
    if d <= DaysInMonth(y, m) then Date(y, m, d)
    else if m == 12 then CarryDays(y + 1, 1, d - 31)
    else CarryDays(y, m + 1, d - DaysInMonth(y, m))
  }

  /** Carrying days over month ends keeps the day number `MakeDay` computes. */
  lemma {:induction false} CarryDaysNumber(y: int, m: int, d: int)
    requires 1 <= m <= 12 && d >= 1
    ensures DayNumber(CarryDays(y, m, d)) == DayNumber(Date(y, m, 1)) + d - 1
    decreases d
  {
    if d > DaysInMonth(y, m) {
      if m == 12 {
        CarryDaysNumber(y + 1, 1, d - 31);
        NextYear(y);
        MonthsFillYear(y);
      } else {
        CarryDaysNumber(y, m + 1, d - DaysInMonth(y, m));
      }
    }
  }

  /** A valid date carries nothing. */
  lemma CarryValid(d: Date)
    requires ValidDate(d)
    ensures CarryDays(d.year, d.month, d.day) == d
  {
  }

  /**
   * `Date.UTC(y, m - 1, d)` for positive `y`, `m` and `d`: a two-digit year is a year of the
   * 1900s, months past December run into the following years, days past the month's end into
   * the following months.
   */
  function Utc(y: nat, m: nat, d: nat): (r: Date)
    requires m >= 1 && d >= 1
    ensures ValidDate(r)
  {
    var yr := if y <= 99 then 1900 + y else y;
    CarryDays(yr + (m - 1) / 12, (m - 1) % 12 + 1, d)
  }

  /** `Date.UTC` keeps a valid date of year 100 or later as it is. */
  lemma UtcOfValid(d: Date)
    requires ValidDate(d) && d.year >= 100
    ensures Utc(d.year, d.month, d.day) == d
  {
    assert (d.month - 1) / 12 == 0 && (d.month - 1) % 12 + 1 == d.month;
    CarryValid(d);
  }

  /** The 30th of February 2025 carries into March, and year 25 is 1925. */
  lemma UtcExamples()
    ensures Utc(2025, 2, 30) == Date(2025, 3, 2)
    ensures Utc(25, 1, 1) == Date(1925, 1, 1)
    ensures Utc(2024, 14, 1) == Date(2025, 2, 1)
  {
    assert !IsLeap(2025);
  }

  /** Every date `Date.UTC` makes from positive fields lies in year 100 or later. */
  lemma UtcYear(y: nat, m: nat, d: nat)
    requires m >= 1 && d >= 1
    ensures Utc(y, m, d).year >= 100
  {
    var yr := if y <= 99 then 1900 + y else y;
    CarryYear(yr + (m - 1) / 12, (m - 1) % 12 + 1, d);
  }

  lemma {:induction false} CarryYear(y: int, m: int, d: int)
    requires 1 <= m <= 12 && d >= 1
    ensures CarryDays(y, m, d).year >= y
    decreases d
  {
    if d > DaysInMonth(y, m) {
      if m == 12 {
        CarryYear(y + 1, 1, d - 31);
      } else {
        CarryYear(y, m + 1, d - DaysInMonth(y, m));
      }
    }
  }

  // ---------------------------------------------------------------------------------------------
  // Order

  predicate Before(a: Date, b: Date) {
    a.year < b.year || (a.year == b.year && (a.month < b.month || (a.month == b.month && a.day < b.day)))
  }

  lemma {:induction false} DaysBeforeMonthGrows(y: int, m: int, n: int)
    requires 1 <= m <= n <= 12
    ensures DaysBeforeMonth(y, m) + (if m < n then DaysInMonth(y, m) else 0) <= DaysBeforeMonth(y, n)
    decreases n - m
  {
    if m < n - 1 {
      DaysBeforeMonthGrows(y, m, n - 1);
    }
  }

  lemma {:induction false} DaysBeforeYearGrows(a: int, b: int)
    requires a < b
    ensures DaysBeforeYear(a) + YearLength(a) <= DaysBeforeYear(b)
    decreases b - a
  {
    NextYear(a);
    if a + 1 < b {
      DaysBeforeYearGrows(a + 1, b);
    }
  }

  /** A valid date's day number falls inside its year. */
  lemma WithinYear(d: Date)
    requires ValidDate(d)
    ensures DaysBeforeYear(d.year) <= DayNumber(d) < DaysBeforeYear(d.year) + YearLength(d.year)
  {
    DaysBeforeMonthGrows(d.year, d.month, 12);
    MonthsFillYear(d.year);
  }

  /** Day numbers, and so timestamps, order valid dates as the calendar does. */
  lemma DayNumberOrder(a: Date, b: Date)
    requires ValidDate(a) && ValidDate(b) && Before(a, b)
    ensures DayNumber(a) < DayNumber(b)
  {
    if a.year < b.year {
      WithinYear(a);
      WithinYear(b);
      DaysBeforeYearGrows(a.year, b.year);
    } else if a.month < b.month {
      DaysBeforeMonthGrows(a.year, a.month, b.month);
    }
  }

  /** Different valid dates have different timestamps. */
  lemma DayNumberInjective(a: Date, b: Date)
    requires ValidDate(a) && ValidDate(b) && DayNumber(a) == DayNumber(b)
    ensures a == b
  {
    if Before(a, b) {
      DayNumberOrder(a, b);
    } else if Before(b, a) {
      DayNumberOrder(b, a);
    }
  }

  // ---------------------------------------------------------------------------------------------
  // Weekdays

  /** `getUTCDay()`: 0 for Sunday to 6 for Saturday; 1970-01-01 was a Thursday. */
  function UtcDay(n: int): int {
    (n + 4) % 7
  }

  /** `(getUTCDay() + 6) % 7`: Monday 0, ..., Sunday 6. */
  function MondayFirst(n: int): (w: int)
    ensures 0 <= w < 7
  {
    (UtcDay(n) + 6) % 7
  }

  /** Monday is day 0 and Sunday day 6 of the week `mondayOfToday` counts. */
  lemma MondayFirstOrder(n: int)
    ensures MondayFirst(n) == 0 <==> UtcDay(n) == 1
    ensures MondayFirst(n) == 6 <==> UtcDay(n) == 0
    ensures MondayFirst(n + 1) == (MondayFirst(n) + 1) % 7
  {
  }

  /** The day number of the Monday on or before day `n`. */
  function MondayOf(n: int): int {
    n - MondayFirst(n)
  }

  /** The Monday of a week is a Monday at most six days back, and the same for every day of that week. */
  lemma MondayOfSpec(n: int)
    ensures UtcDay(MondayOf(n)) == 1
    ensures n - 6 <= MondayOf(n) <= n
    ensures MondayOf(MondayOf(n)) == MondayOf(n)
  {
    assert (MondayOf(n) + 4) % 7 == 1 by {
      assert MondayOf(n) + 4 == (n + 4) - (((n + 4) % 7 + 6) % 7);
    }
  }

  /** The days from a Monday to the next Sunday share that Monday. */
  lemma SameWeek(n: int, k: int)
    requires 0 <= k < 7 - MondayFirst(n)
    ensures MondayOf(n + k) == MondayOf(n)
  {
    var q, r := (n + 4) / 7, (n + 4) % 7;
    assert n + 4 == 7 * q + r;
    var w := (r + 6) % 7;
    assert MondayFirst(n) == w;
    assert 0 <= w + k < 7;
    if r == 0 {
      assert w == 6 && k == 0;
    } else {
      assert w == r - 1;
      assert (n + k + 4) == 7 * q + (r + k);
      if r + k == 7 {
        assert UtcDay(n + k) == 0;
      } else {
        assert UtcDay(n + k) == r + k;
      }
      assert MondayFirst(n + k) == w + k;
    }
  }

  /**
   * `mondayOfToday().getTime()`: today's local calendar fields (`getFullYear()`,
   * `getMonth() + 1`, `getDate()`) read as a UTC date, moved back to its Monday.
   */
  function MondayOfToday(today: Date): int
    requires ValidDate(today) && today.year >= 0
  {
    MondayOf(DayNumber(Utc(today.year, today.month, today.day))) * MsPerDay
  }

  /** The timestamp is midnight of a Monday at most six days before today. */
  lemma MondayOfTodaySpec(today: Date)
    requires ValidDate(today) && today.year >= 100
    ensures var mon := MondayOfToday(today);
      && mon % MsPerDay == 0
      && UtcDay(mon / MsPerDay) == 1
      && DayNumber(today) - 6 <= mon / MsPerDay <= DayNumber(today)
  {
    UtcOfValid(today);
    MondayOfSpec(DayNumber(today));
  }

  /** 1970-01-01 was a Thursday; its week's Monday was 1969-12-29. */
  lemma EpochWeek()
    ensures UtcDay(DayNumber(Date(1970, 1, 1))) == 4
    ensures MondayOfToday(Date(1970, 1, 1)) == DayNumber(Date(1969, 12, 29)) * MsPerDay
  {
    var epoch := Date(1970, 1, 1);
    UtcOfValid(epoch);
    assert DayNumber(epoch) == 0;
    assert MondayOf(0) == -3;
    NextYear(1969);
    MonthsFillYear(1969);
    assert DayNumber(Date(1969, 12, 29)) == -3;
  }
}
