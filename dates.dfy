/**
 * Calendar dates as (year, month, day) triples, the Gregorian calendar,
 * a day ordinal used for day differences, and the way JavaScript's
 * `new Date(year, monthIndex, day)` normalises a month number.
 */
module Dates {

  /** A local wall-clock date without time of day or time zone. */
  datatype Date = Date(year: nat, month: nat, day: nat)

  predicate IsLeapYear(y: nat) {
    y % 4 == 0 && (y % 100 != 0 || y % 400 == 0)
  }

  /** Number of days of month `m` (1..12) of year `y`. */
  function DaysInMonth(y: nat, m: nat): (n: nat)
    requires 1 <= m <= 12
    ensures 28 <= n <= 31
    ensures n == 29 <==> m == 2 && IsLeapYear(y)
    ensures n == 28 <==> m == 2 && !IsLeapYear(y)
    ensures n == 30 <==> m in {4, 6, 9, 11}
  {
    if m == 2 then (if IsLeapYear(y) then 29 else 28)
    else if m in {4, 6, 9, 11} then 30
    else 31
  }

  /** A date that names a real calendar day (every JavaScript `Date` does). */
  predicate ValidDate(d: Date) {
    1 <= d.month <= 12 && 1 <= d.day <= DaysInMonth(d.year, d.month)
  }

  function DaysInYear(y: nat): nat {
    if IsLeapYear(y) then 366 else 365
  }

  /** Days from 1 January of year 0 to 1 January of year `y`. */
  function DaysBeforeYear(y: nat): nat {
    if y == 0 then 0 else DaysBeforeYear(y - 1) + DaysInYear(y - 1)
  }

  /** Days from 1 January to the first day of month `m` of year `y`. */
  function DaysBeforeMonth(y: nat, m: nat): nat
    requires 1 <= m <= 13
  {
    if m == 1 then 0 else DaysBeforeMonth(y, m - 1) + DaysInMonth(y, m - 1)
  }

  /** The twelve months together make up the year. */
  lemma MonthsFillYear(y: nat)
    ensures DaysBeforeMonth(y, 13) == DaysInYear(y)
  {
    assert DaysBeforeMonth(y, 1) == 0;
    assert DaysBeforeMonth(y, 2) == 31;
    assert DaysBeforeMonth(y, 3) == 31 + DaysInMonth(y, 2);
    assert DaysBeforeMonth(y, 4) == DaysBeforeMonth(y, 3) + 31;
    assert DaysBeforeMonth(y, 5) == DaysBeforeMonth(y, 3) + 61;
    assert DaysBeforeMonth(y, 6) == DaysBeforeMonth(y, 3) + 92;
    assert DaysBeforeMonth(y, 7) == DaysBeforeMonth(y, 3) + 122;
    assert DaysBeforeMonth(y, 8) == DaysBeforeMonth(y, 3) + 153;
    assert DaysBeforeMonth(y, 9) == DaysBeforeMonth(y, 3) + 184;
    assert DaysBeforeMonth(y, 10) == DaysBeforeMonth(y, 3) + 214;
    assert DaysBeforeMonth(y, 11) == DaysBeforeMonth(y, 3) + 245;
    assert DaysBeforeMonth(y, 12) == DaysBeforeMonth(y, 3) + 275;
  }

  /** Number of days from 1 January of year 0 to `d`. */
  function DayOrdinal(d: Date): int
    requires ValidDate(d)
  {
    DaysBeforeYear(d.year) + DaysBeforeMonth(d.year, d.month) + d.day - 1
  }

  /**
   * Whole calendar days from `from` to `to`; what `dayjs(to).diff(dayjs(from), 'day')`
   * gives for two local midnights.
   */
  function DayDiff(to: Date, from: Date): int
    requires ValidDate(to) && ValidDate(from)
  {
    DayOrdinal(to) - DayOrdinal(from)
  }

  /** The calendar day after `d`. */
  function NextDay(d: Date): (e: Date)
    requires ValidDate(d)
    ensures ValidDate(e)
  {
    if d.day < DaysInMonth(d.year, d.month) then Date(d.year, d.month, d.day + 1)
    else if d.month < 12 then Date(d.year, d.month + 1, 1)
    else Date(d.year + 1, 1, 1)
  }

  /** Before-or-equal in calendar order. */
  predicate DateLe(a: Date, b: Date) {
    a.year < b.year
    || (a.year == b.year && a.month < b.month)
    || (a.year == b.year && a.month == b.month && a.day <= b.day)
  }

  lemma {:induction false} DaysBeforeYearMono(y1: nat, y2: nat)
    requires y1 <= y2
    ensures DaysBeforeYear(y1) + (if y1 < y2 then DaysInYear(y1) else 0) <= DaysBeforeYear(y2)
    decreases y2
  {
    if y1 < y2 {
      if y1 < y2 - 1 {
        DaysBeforeYearMono(y1, y2 - 1);
      }
    }
  }

  lemma {:induction false} DaysBeforeMonthMono(y: nat, m1: nat, m2: nat)
    requires 1 <= m1 <= m2 <= 13
    ensures m1 < m2 ==> DaysBeforeMonth(y, m1) + DaysInMonth(y, m1) <= DaysBeforeMonth(y, m2)
    decreases m2
  {
    if m1 < m2 - 1 {
      DaysBeforeMonthMono(y, m1, m2 - 1);
    }
  }

  /** The ordinal of a valid date lies within its year's range of ordinals. */
  lemma DayOrdinalInYear(d: Date)
    requires ValidDate(d)
    ensures DaysBeforeYear(d.year) <= DayOrdinal(d) < DaysBeforeYear(d.year) + DaysInYear(d.year)
  {
    DaysBeforeMonthMono(d.year, d.month, 13);
    MonthsFillYear(d.year);
  }

  /** The day ordinal is strictly increasing in calendar order. */
  lemma {:induction false} DayOrdinalStrictlyIncreasing(a: Date, b: Date)
    requires ValidDate(a) && ValidDate(b)
    requires DateLe(a, b) && a != b
    ensures DayOrdinal(a) < DayOrdinal(b)
  {
    DayOrdinalInYear(a);
    DayOrdinalInYear(b);
    if a.year < b.year {
      DaysBeforeYearMono(a.year, b.year);
    } else if a.month < b.month {
      DaysBeforeMonthMono(a.year, a.month, b.month);
    }
  }

  /** Distinct valid dates have distinct ordinals, so a day difference of 0 means the same date. */
  lemma DayOrdinalInjective(a: Date, b: Date)
    requires ValidDate(a) && ValidDate(b)
    ensures DayOrdinal(a) == DayOrdinal(b) <==> a == b
  {
    if a != b {
      if DateLe(a, b) {
        DayOrdinalStrictlyIncreasing(a, b);
      } else {
        DayOrdinalStrictlyIncreasing(b, a);
      }
    }
  }

  /** The day after `d` is exactly one ordinal later. */
  lemma NextDayOrdinal(d: Date)
    requires ValidDate(d)
    ensures DayOrdinal(NextDay(d)) == DayOrdinal(d) + 1
  {
    if d.day == DaysInMonth(d.year, d.month) && d.month == 12 {
      MonthsFillYear(d.year);
    }
  }

  /** A day difference of exactly one means "the next calendar day", and only that. */
  lemma {:induction false} ConsecutiveIffNextDay(last: Date, today: Date)
    requires ValidDate(last) && ValidDate(today)
    ensures DayDiff(today, last) == 1 <==> today == NextDay(last)
  {
    NextDayOrdinal(last);
    DayOrdinalInjective(today, NextDay(last));
  }

  /**
   * The year JavaScript's `new Date(year, ...)` uses: two-digit years 0..99 mean 1900..1999.
   */
  function JsYear(year: nat): (y: nat)
    ensures y >= 100
    ensures year >= 100 ==> y == year
  {
    if year <= 99 then 1900 + year else year
  }

  /**
   * The (year, month) that `new Date(year, month - 1, day)` lands in for a 1-based
   * `month` that may lie outside 1..12: the month index rolls over into
   * neighbouring years.
   */
  function JsYearMonth(year: nat, month: int): (ym: (nat, nat))
    ensures 1 <= ym.1 <= 12
    ensures 1 <= month <= 12 ==> ym == (JsYear(year), month)
  {
    var y := JsYear(year) + (month - 1) / 12;
    (if y < 0 then 0 else y, (month - 1) % 12 + 1)
  }
}
