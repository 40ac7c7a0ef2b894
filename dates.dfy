/** Proleptic Gregorian calendar arithmetic as Python's `datetime` and pandas'
    `.dt` accessors compute it: day ordinals (0001-01-01 is day 1), minute
    timestamps, day of year and the ISO 8601 week number. */
module Dates {

  predicate IsLeap(y: int) {
    y % 4 == 0 && (y % 100 != 0 || y % 400 == 0)
  }

  function DaysInMonth(y: int, m: int): int
    requires 1 <= m <= 12
  {
    if m == 2 then (if IsLeap(y) then 29 else 28)
    else if m == 4 || m == 6 || m == 9 || m == 11 then 30
    else 31
  }

  predicate ValidDate(y: int, m: int, d: int) {
    1 <= y <= 9999 && 1 <= m <= 12 && 1 <= d <= DaysInMonth(y, m)
  }

  /** A calendar date, Python's `datetime.date`. */
  datatype Date = Date(year: int, month: int, day: int)

  predicate Valid(d: Date) {
    ValidDate(d.year, d.month, d.day)
  }

  function DaysBeforeMonth(y: int, m: int): int
    requires 1 <= m <= 12
  {
    [0, 31, 59, 90, 120, 151, 181, 212, 243, 273, 304, 334][m - 1] + (if m > 2 && IsLeap(y) then 1 else 0)
  }

  /** Days in the years before year y (Dafny's division by a positive constant floors, as Python's does). */
  function DaysBeforeYear(y: int): int {
    var p := y - 1;
    p * 365 + p / 4 - p / 100 + p / 400
  }

  /** Python's `date.toordinal()`. */
  function Ordinal(y: int, m: int, d: int): int
    requires ValidDate(y, m, d)
  {
    DaysBeforeYear(y) + DaysBeforeMonth(y, m) + d
  }

  /** pandas' `.dt.dayofyear`. */
  function DayOfYear(y: int, m: int, d: int): (r: int)
    requires ValidDate(y, m, d)
    ensures 1 <= r <= 366
  {
    DaysBeforeMonth(y, m) + d
  }

  /** Minutes since 0001-01-01T00:00 of the given date and time of day. */
  function MinuteStamp(y: int, m: int, d: int, hour: int, minute: int): int
    requires ValidDate(y, m, d)
  {
    (Ordinal(y, m, d) - 1) * 1440 + hour * 60 + minute
  }

  /** Day of the week of an ordinal, Monday being 0 (Python's `weekday()`). */
  function Weekday(ordinal: int): int {
    (ordinal + 6) % 7
  }

  /** Ordinal of the Monday that starts ISO week 1 of year y (Python's `_isoweek1monday`). */
  function IsoWeek1Monday(y: int): int {
    var firstDay := DaysBeforeYear(y) + 1;
    var firstWeekday := Weekday(firstDay);
    var monday := firstDay - firstWeekday;
    if firstWeekday > 3 then monday + 7 else monday
  }

  /** The ISO 8601 week number of a date (ISO 8601:2004 section 4.1.4), computed as
      Python's `date.isocalendar()` does. */
  function IsoWeek(y: int, m: int, d: int): (w: int)
    requires ValidDate(y, m, d)
    ensures 1 <= w <= 53
  {
    var today := Ordinal(y, m, d);
    var w1 := IsoWeek1Monday(y);
    IsoWeekInRange(y, m, d);
    if today < w1 then (today - IsoWeek1Monday(y - 1)) / 7 + 1
    else if (today - w1) / 7 >= 52 && today >= IsoWeek1Monday(y + 1) then 1
    else (today - w1) / 7 + 1
  }

  lemma YearLength(y: int)
    ensures DaysBeforeYear(y + 1) - DaysBeforeYear(y) == if IsLeap(y) then 366 else 365
  {
    QuotientStep4(y);
    QuotientStep100(y);
    QuotientStep400(y);
    LeapDivisors(y);
  }

  lemma QuotientStep4(y: int)
    ensures y / 4 == (y - 1) / 4 + (if y % 4 == 0 then 1 else 0)
  {
  }

  lemma QuotientStep100(y: int)
    ensures y / 100 == (y - 1) / 100 + (if y % 100 == 0 then 1 else 0)
  {
  }

  lemma QuotientStep400(y: int)
    ensures y / 400 == (y - 1) / 400 + (if y % 400 == 0 then 1 else 0)
  {
  }

  lemma LeapDivisors(y: int)
    ensures y % 400 == 0 ==> y % 100 == 0
    ensures y % 100 == 0 ==> y % 4 == 0
  {
  }

  /** Week 1 starts on a Monday at most three days away from 1 January. */
  lemma IsoWeek1MondayNearNewYear(y: int)
    ensures DaysBeforeYear(y) + 1 - 3 <= IsoWeek1Monday(y) <= DaysBeforeYear(y) + 1 + 3
    ensures Weekday(IsoWeek1Monday(y)) == 0
  {
    MondayNear(DaysBeforeYear(y) + 1);
  }

  /** The Monday IsoWeek1Monday picks for a first day: the one of its own week when
      that day is Monday to Thursday, the next one otherwise. */
  lemma MondayNear(firstDay: int)
    ensures var wd := Weekday(firstDay);
            var monday := if wd > 3 then firstDay - wd + 7 else firstDay - wd;
            firstDay - 3 <= monday <= firstDay + 3 && Weekday(monday) == 0
  {
    var wd := Weekday(firstDay);
    var q := (firstDay + 6) / 7;
    assert firstDay + 6 == 7 * q + wd;
    assert firstDay - wd + 6 == 7 * q;
    assert firstDay - wd + 7 + 6 == 7 * (q + 1);
  }

  /** Consecutive ISO years are 52 or 53 weeks long. */
  lemma IsoYearLength(y: int)
    ensures IsoWeek1Monday(y + 1) - IsoWeek1Monday(y) == 364 || IsoWeek1Monday(y + 1) - IsoWeek1Monday(y) == 371
  {
    YearLength(y);
    IsoWeek1MondayNearNewYear(y);
    IsoWeek1MondayNearNewYear(y + 1);
    var a, b := IsoWeek1Monday(y), IsoWeek1Monday(y + 1);
    var ka, kb := (a + 6) / 7, (b + 6) / 7;
    assert a + 6 == 7 * ka && b + 6 == 7 * kb;
    assert 359 <= b - a <= 372;
    assert b - a == 7 * (kb - ka);
    assert kb - ka == 52 || kb - ka == 53;
  }

  lemma DaysBeforeMonthBound(y: int, m: int, d: int)
    requires ValidDate(y, m, d)
    ensures 1 <= DaysBeforeMonth(y, m) + d <= if IsLeap(y) then 366 else 365
  {
  }

  lemma IsoWeekInRange(y: int, m: int, d: int)
    requires ValidDate(y, m, d)
    ensures var today := Ordinal(y, m, d);
            var w1 := IsoWeek1Monday(y);
            (today < w1 ==> 0 <= (today - IsoWeek1Monday(y - 1)) / 7 <= 52) &&
            (today >= w1 ==> 0 <= (today - w1) / 7 <= 52)
  {
    var today := Ordinal(y, m, d);
    DaysBeforeMonthBound(y, m, d);
    YearLength(y);
    IsoWeek1MondayNearNewYear(y);
    IsoYearLength(y - 1);
    IsoWeek1MondayNearNewYear(y - 1);
    var w1 := IsoWeek1Monday(y);
    if today < w1 {
      var w0 := IsoWeek1Monday(y - 1);
      assert w0 <= today < w0 + 371;
    } else {
      assert today - w1 <= 368;
    }
  }

  lemma {:induction false} DaysBeforeYearMonotone(a: int, b: int)
    requires a < b
    ensures DaysBeforeYear(a + 1) <= DaysBeforeYear(b)
    decreases b - a
  {
    if a + 1 < b {
      DaysBeforeYearMonotone(a + 1, b);
      YearLength(a + 1);
    }
  }

  lemma DaysBeforeMonthStep(y: int, m: int)
    requires 1 <= m < 12
    ensures DaysBeforeMonth(y, m + 1) == DaysBeforeMonth(y, m) + DaysInMonth(y, m)
  {
  }

  lemma {:induction false} DaysBeforeMonthMonotone(y: int, m1: int, m2: int)
    requires 1 <= m1 < m2 <= 12
    ensures DaysBeforeMonth(y, m1) + DaysInMonth(y, m1) <= DaysBeforeMonth(y, m2)
    decreases m2 - m1
  {
    DaysBeforeMonthStep(y, m1);
    if m1 + 1 < m2 {
      DaysBeforeMonthMonotone(y, m1 + 1, m2);
    }
  }

  /** A day ordinal names at most one valid date. */
  lemma OrdinalInjective(y1: int, m1: int, d1: int, y2: int, m2: int, d2: int)
    requires ValidDate(y1, m1, d1) && ValidDate(y2, m2, d2)
    requires Ordinal(y1, m1, d1) == Ordinal(y2, m2, d2)
    ensures y1 == y2 && m1 == m2 && d1 == d2
  {
    DaysBeforeMonthBound(y1, m1, d1);
    DaysBeforeMonthBound(y2, m2, d2);
    YearLength(y1);
    YearLength(y2);
    if y1 < y2 {
      DaysBeforeYearMonotone(y1, y2);
      assert false;
    } else if y2 < y1 {
      DaysBeforeYearMonotone(y2, y1);
      assert false;
    }
    if m1 < m2 {
      DaysBeforeMonthMonotone(y1, m1, m2);
    } else if m2 < m1 {
      DaysBeforeMonthMonotone(y1, m2, m1);
    }
  }
}
