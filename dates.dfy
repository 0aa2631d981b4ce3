/** A small model of the Gregorian calendar and of .NET's DateTime as the
    controllers use it: a calendar date plus the time of day in ticks
    (one tick is 100 nanoseconds, as in .NET). */
module Dates {

  import opened Wrappers

  datatype Date = Date(year: int, month: int, day: int)

  /** `date` is the calendar day, `ticks` the time elapsed since its midnight. */
  datatype DateTime = DateTime(date: Date, ticks: int)

  const TicksPerSecond: int := 10_000_000
  const TicksPerDay: int := 86_400 * TicksPerSecond

  predicate IsLeapYear(y: int) {
    y % 4 == 0 && (y % 100 != 0 || y % 400 == 0)
  }

  function DaysInMonth(y: int, m: int): (n: int)
    requires 1 <= m <= 12
    ensures 28 <= n <= 31
    ensures m == 2 ==> (n == 29 <==> IsLeapYear(y)) && (n == 28 <==> !IsLeapYear(y))
    ensures m in {4, 6, 9, 11} ==> n == 30
    ensures m in {1, 3, 5, 7, 8, 10, 12} ==> n == 31
  {
    if m == 2 then (if IsLeapYear(y) then 29 else 28)
    else if m == 4 || m == 6 || m == 9 || m == 11 then 30
    else 31
  }

  predicate ValidDate(d: Date) {
    d.year >= 1 && 1 <= d.month <= 12 && 1 <= d.day <= DaysInMonth(d.year, d.month)
  }

  predicate ValidDateTime(t: DateTime) {
    ValidDate(t.date) && 0 <= t.ticks < TicksPerDay
  }

  /** `new DateTime(y, m, d)`: midnight of the date, or None where .NET throws. */
  function MakeDate(y: int, m: int, d: int): (r: Option<DateTime>)
    ensures r.Some? <==> y >= 1 && 1 <= m <= 12 && 1 <= d <= DaysInMonth(y, m)
    ensures r.Some? ==> ValidDateTime(r.value) && r.value.ticks == 0
                        && r.value.date == Date(y, m, d)
  {
    if y >= 1 && 1 <= m <= 12 && 1 <= d <= DaysInMonth(y, m) then Some(DateTime(Date(y, m, d), 0))
    else None
  }

  // ---------------------------------------------------------------------
  // Ordering

  /** Days in calendar order: the month index, then the day (at most 31, so below 32). */
  function DayKey(d: Date): int {
    MonthIndex(d.year, d.month) * 32 + d.day
  }

  /** The instant as a single number of ticks: day key, then time of day. */
  function Instant(t: DateTime): int {
    DayKey(t.date) * 864_000_000_000 + t.ticks
  }

  predicate DateLt(a: Date, b: Date) {
    DayKey(a) < DayKey(b)
  }

  predicate DateLe(a: Date, b: Date) {
    DateLt(a, b) || a == b
  }

  /** `a <= b` on DateTime values. */
  predicate Le(a: DateTime, b: DateTime) {
    Instant(a) <= Instant(b)
  }

  predicate Lt(a: DateTime, b: DateTime) {
    Le(a, b) && a != b
  }

  /** On valid values, the order is the chronological one: by year, then month, then
      day, then time of day. */
  lemma {:induction false} LeIsChronological(a: DateTime, b: DateTime)
    requires ValidDateTime(a) && ValidDateTime(b)
    ensures DateLt(a.date, b.date) <==>
              a.date.year < b.date.year
              || (a.date.year == b.date.year && a.date.month < b.date.month)
              || (a.date.year == b.date.year && a.date.month == b.date.month && a.date.day < b.date.day)
    ensures Le(a, b) <==> DateLt(a.date, b.date) || (a.date == b.date && a.ticks <= b.ticks)
  {
    assert TicksPerDay == 864_000_000_000;
  }

  lemma {:induction false} LeTotal(a: DateTime, b: DateTime)
    ensures Le(a, b) || Le(b, a)
  {
  }

  lemma {:induction false} LeTransitive(a: DateTime, b: DateTime, c: DateTime)
    requires Le(a, b) && Le(b, c)
    ensures Le(a, c)
  {
  }

  lemma {:induction false} LeAntisymmetric(a: DateTime, b: DateTime)
    requires ValidDateTime(a) && ValidDateTime(b)
    requires Le(a, b) && Le(b, a)
    ensures a == b
  {
    LeIsChronological(a, b);
    LeIsChronological(b, a);
  }

  // ---------------------------------------------------------------------
  // Months

  /** Months counted from January of year 0; consecutive months differ by one. */
  function MonthIndex(y: int, m: int): int {
    y * 12 + (m - 1)
  }

  function MonthOf(t: DateTime): int {
    MonthIndex(t.date.year, t.date.month)
  }

  /** Midnight of the first day of month `m` of year `y`. */
  function FirstOfMonth(y: int, m: int): (r: DateTime)
    requires y >= 1 && 1 <= m <= 12
    ensures ValidDateTime(r) && r.date.day == 1 && r.ticks == 0
    ensures MonthOf(r) == MonthIndex(y, m)
  {
    DateTime(Date(y, m, 1), 0)
  }

  /** .NET `AddMonths(1)`: the same day and time in the next month, with the day clamped
      to that month's last day. */
  function AddOneMonth(t: DateTime): (r: DateTime)
    requires ValidDateTime(t)
    ensures ValidDateTime(r)
    ensures MonthOf(r) == MonthOf(t) + 1
    ensures r.ticks == t.ticks
    ensures r.date.day == Min(t.date.day, DaysInMonth(r.date.year, r.date.month))
  {
    var y := if t.date.month == 12 then t.date.year + 1 else t.date.year;
    var m := if t.date.month == 12 then 1 else t.date.month + 1;
    DateTime(Date(y, m, Min(t.date.day, DaysInMonth(y, m))), t.ticks)
  }

  function Min(a: int, b: int): int {
    if a <= b then a else b
  }

  /** A later month index means a later instant. */
  lemma {:induction false} MonthOrder(a: DateTime, b: DateTime)
    requires ValidDateTime(a) && ValidDateTime(b)
    ensures MonthOf(a) < MonthOf(b) ==> Lt(a, b) && !Le(b, a)
    ensures Le(a, b) ==> MonthOf(a) <= MonthOf(b)
  {
  }

  // ---------------------------------------------------------------------
  // Days

  /** Days of the year before month `m`: the cumulative tables `DaysToMonth365` and
      `DaysToMonth366` of .NET. */
  function DaysBeforeMonth(y: int, m: int): int
    requires 1 <= m <= 12
  {
    var common := [0, 31, 59, 90, 120, 151, 181, 212, 243, 273, 304, 334][m - 1];
    if m > 2 && IsLeapYear(y) then common + 1 else common
  }

  function DaysInYear(y: int): int {
    if IsLeapYear(y) then 366 else 365
  }

  /** Days from 1 January of year 1 to 1 January of year `y`, as .NET counts them. */
  function DaysBeforeYear(y: int): int
    requires y >= 1
  {
    var p := y - 1;
    p * 365 + p / 4 - p / 100 + p / 400
  }

  /** The day's number, 1 January of year 1 being day 0. */
  function DayNumber(d: Date): int
    requires ValidDate(d)
  {
    DaysBeforeYear(d.year) + DaysBeforeMonth(d.year, d.month) + d.day - 1
  }

  /** `DateTime.Ticks`: the ticks since midnight of 1 January of year 1. */
  function Ticks(t: DateTime): int
    requires ValidDateTime(t)
  {
    DayNumber(t.date) * TicksPerDay + t.ticks
  }

  /** A month's days take the count to the next month's first day. */
  lemma MonthDays(y: int, m: int)
    requires 1 <= m < 12
    ensures DaysBeforeMonth(y, m + 1) == DaysBeforeMonth(y, m) + DaysInMonth(y, m)
  {
  }

  /** December's days close the year. */
  lemma YearDays(y: int)
    ensures DaysBeforeMonth(y, 12) + DaysInMonth(y, 12) == DaysInYear(y)
  {
  }

  /** A year's days take the count to the next year's first day. */
  lemma YearStep(y: int)
    requires y >= 1
    ensures DaysBeforeYear(y + 1) == DaysBeforeYear(y) + DaysInYear(y)
  {
    var p := y - 1;
    assert (p + 1) / 4 == p / 4 + (if y % 4 == 0 then 1 else 0);
    assert (p + 1) / 100 == p / 100 + (if y % 100 == 0 then 1 else 0);
    assert (p + 1) / 400 == p / 400 + (if y % 400 == 0 then 1 else 0);
  }

  /** The months before `b` hold the months before `a` and all of month `a`. */
  lemma {:induction false} MonthsGrow(y: int, a: int, b: int)
    requires 1 <= a < b <= 12
    ensures DaysBeforeMonth(y, a) + DaysInMonth(y, a) <= DaysBeforeMonth(y, b)
    decreases b - a
  {
    MonthDays(y, a);
    if a + 1 < b {
      MonthsGrow(y, a + 1, b);
    }
  }

  /** The years before `b` hold the years before `a` and all of year `a`. */
  lemma {:induction false} YearsGrow(a: int, b: int)
    requires 1 <= a < b
    ensures DaysBeforeYear(a) + DaysInYear(a) <= DaysBeforeYear(b)
    decreases b - a
  {
    YearStep(a);
    if a + 1 < b {
      YearsGrow(a + 1, b);
      YearStep(a + 1);
    }
  }

  /** A day's number lies within its year. */
  lemma DayWithinYear(d: Date)
    requires ValidDate(d)
    ensures DaysBeforeYear(d.year) <= DayNumber(d) < DaysBeforeYear(d.year) + DaysInYear(d.year)
  {
    YearDays(d.year);
    if d.month < 12 {
      MonthsGrow(d.year, d.month, 12);
    }
  }

  /** Day numbers follow the calendar order of valid dates. */
  lemma DayNumberOrder(a: Date, b: Date)
    requires ValidDate(a) && ValidDate(b) && DateLt(a, b)
    ensures DayNumber(a) < DayNumber(b)
  {
    LeIsChronological(DateTime(a, 0), DateTime(b, 0));
    if a.year < b.year {
      DayWithinYear(a);
      DayWithinYear(b);
      YearsGrow(a.year, b.year);
    } else if a.month < b.month {
      MonthsGrow(a.year, a.month, b.month);
    }
  }

  /** On valid values, `Le` is the order of the tick counts. */
  lemma TicksOrder(a: DateTime, b: DateTime)
    requires ValidDateTime(a) && ValidDateTime(b)
    ensures Le(a, b) <==> Ticks(a) <= Ticks(b)
  {
    LeIsChronological(a, b);
    if DateLt(a.date, b.date) {
      DayNumberOrder(a.date, b.date);
      assert DayNumber(a.date) * TicksPerDay + TicksPerDay <= DayNumber(b.date) * TicksPerDay;
    } else if a.date != b.date {
      assert DateLt(b.date, a.date);
      DayNumberOrder(b.date, a.date);
      assert DayNumber(b.date) * TicksPerDay + TicksPerDay <= DayNumber(a.date) * TicksPerDay;
    }
  }

  /** The day after has the next number. */
  lemma NextDayNumber(d: Date)
    requires ValidDate(d)
    ensures DayNumber(NextDay(d)) == DayNumber(d) + 1
  {
    if d.day == DaysInMonth(d.year, d.month) {
      if d.month < 12 {
        MonthDays(d.year, d.month);
      } else {
        YearDays(d.year);
        YearStep(d.year);
      }
    }
  }

  /** The calendar day after `d`. */
  function NextDay(d: Date): (r: Date)
    requires ValidDate(d)
    ensures ValidDate(r) && DateLt(d, r)
    ensures forall x :: ValidDate(x) && DateLt(d, x) ==> DateLe(r, x)
  {
    if d.day < DaysInMonth(d.year, d.month) then Date(d.year, d.month, d.day + 1)
    else if d.month < 12 then Date(d.year, d.month + 1, 1)
    else Date(d.year + 1, 1, 1)
  }

  /** The same time of day on the next day is one day's ticks later. */
  lemma NextDayTicks(d: Date, k: int)
    requires ValidDate(d) && 0 <= k < TicksPerDay
    ensures ValidDateTime(DateTime(NextDay(d), k))
    ensures Ticks(DateTime(NextDay(d), k)) == Ticks(DateTime(d, k)) + TicksPerDay
  {
    NextDayNumber(d);
    DayLater(DayNumber(d), DayNumber(NextDay(d)), k);
  }

  /** The tick count of the next day's number, for the same time of day. */
  lemma DayLater(n: int, m: int, k: int)
    requires m == n + 1
    ensures m * TicksPerDay + k == n * TicksPerDay + k + TicksPerDay
  {
  }

  /** `t.AddDays(1).AddSeconds(-1)`: one day later, less one second. */
  function DayLaterLessOneSecond(t: DateTime): (r: DateTime)
    requires ValidDateTime(t)
    ensures ValidDateTime(r)
    ensures Ticks(r) == Ticks(t) + TicksPerDay - TicksPerSecond
  {
    if t.ticks >= TicksPerSecond then
      NextDayTicks(t.date, t.ticks - TicksPerSecond);
      DateTime(NextDay(t.date), t.ticks - TicksPerSecond)
    else DateTime(t.date, t.ticks + TicksPerDay - TicksPerSecond)
  }

  /** For any end, an instant is within `DayLaterLessOneSecond(t)` exactly when its tick
      count is at most that of `t` plus one day less one second. */
  lemma DayLaterLessOneSecondBound(t: DateTime, x: DateTime)
    requires ValidDateTime(t) && ValidDateTime(x)
    ensures Le(x, DayLaterLessOneSecond(t)) <==> Ticks(x) <= Ticks(t) + TicksPerDay - TicksPerSecond
  {
    TicksOrder(x, DayLaterLessOneSecond(t));
  }

  /** For a date given without a time of day, the bound is 23:59:59 of that same day:
      every instant of the day up to that second is included, and nothing later. */
  lemma {:induction false} DayLaterLessOneSecondOfMidnight(t: DateTime, x: DateTime)
    requires ValidDateTime(t) && t.ticks == 0 && ValidDateTime(x)
    ensures Le(x, DayLaterLessOneSecond(t)) <==>
              DateLt(x.date, t.date) || (x.date == t.date && x.ticks <= TicksPerDay - TicksPerSecond)
  {
    var bound := DayLaterLessOneSecond(t);
    assert bound == DateTime(t.date, TicksPerDay - TicksPerSecond);
    LeIsChronological(x, bound);
  }
}
