/** The proleptic Gregorian calendar behind `sys_days` and `year_month_day`: a civil date and the
    number of days since 1970-01-01 determine each other. */
module CivilCalendar {

  datatype Date = Date(year: int, month: int, day: int)

  predicate Leap(y: int) {
    y % 4 == 0 && (y % 100 != 0 || y % 400 == 0)
  }

  function MonthLength(y: int, m: int): int {
    if m == 2 then (if Leap(y) then 29 else 28)
    else if m == 4 || m == 6 || m == 9 || m == 11 then 30
    else 31
  }

  /** `year_month_day::ok()`. */
  predicate Ok(d: Date) {
    1 <= d.month <= 12 && 1 <= d.day <= MonthLength(d.year, d.month)
  }

  function YearLength(y: int): int {
    if Leap(y) then 366 else 365
  }

  /** Day number of January 1 of a year. */
  function YearStart(y: int): int
    decreases if y < 1970 then 1970 - y else y - 1970
  {
    if y == 1970 then 0
    else if y > 1970 then YearStart(y - 1) + YearLength(y - 1)
    else YearStart(y + 1) - YearLength(y)
  }

  function DaysBeforeMonth(y: int, m: int): int
    decreases m
  {
    if m <= 1 then 0 else DaysBeforeMonth(y, m - 1) + MonthLength(y, m - 1)
  }

  /** `sys_days{year_month_day}`. */
  function DayNumber(d: Date): int {
    YearStart(d.year) + DaysBeforeMonth(d.year, d.month) + d.day - 1
  }

  function MonthIndex(d: Date): int {
    12 * d.year + d.month - 1
  }

  /** `year_month` plus months: the given day of the month with the given index, whole years carried.
      The date need not be `Ok`. */
  function DateInMonth(index: int, day: int): (d: Date)
    ensures 1 <= d.month <= 12 && MonthIndex(d) == index && d.day == day
    decreases if index < 0 then 12 - index else index
  {
    if index < 0 then var d := DateInMonth(index + 12, day); d.(year := d.year - 1)
    else if index < 12 then Date(0, index + 1, day)
    else var d := DateInMonth(index - 12, day); d.(year := d.year + 1)
  }

  /** ISO weekday, Monday 1 to Sunday 7; day 0 was a Thursday. */
  function IsoWeekday(day: int): int {
    (day + 3) % 7 + 1
  }

  function MondayOf(day: int): int {
    day - (IsoWeekday(day) - 1)
  }

  function NextDate(d: Date): Date {
    if d.day < MonthLength(d.year, d.month) then Date(d.year, d.month, d.day + 1)
    else if d.month < 12 then Date(d.year, d.month + 1, 1)
    else Date(d.year + 1, 1, 1)
  }

  function PreviousDate(d: Date): Date {
    if d.day > 1 then Date(d.year, d.month, d.day - 1)
    else if d.month > 1 then Date(d.year, d.month - 1, MonthLength(d.year, d.month - 1))
    else Date(d.year - 1, 12, 31)
  }

  lemma DecemberStart(y: int)
    ensures DaysBeforeMonth(y, 12) == if Leap(y) then 335 else 334
  {
    assert DaysBeforeMonth(y, 3) == 31 + MonthLength(y, 2);
    assert DaysBeforeMonth(y, 5) == DaysBeforeMonth(y, 3) + 61;
    assert DaysBeforeMonth(y, 7) == DaysBeforeMonth(y, 5) + 61;
    assert DaysBeforeMonth(y, 9) == DaysBeforeMonth(y, 7) + 62;
    assert DaysBeforeMonth(y, 11) == DaysBeforeMonth(y, 9) + 61;
  }

  lemma NextYearStart(y: int)
    ensures YearStart(y + 1) == YearStart(y) + YearLength(y)
  {
  }

  lemma NextDateIsNextDay(d: Date)
    requires Ok(d)
    ensures Ok(NextDate(d)) && DayNumber(NextDate(d)) == DayNumber(d) + 1
  {
    NextYearStart(d.year);
    DecemberStart(d.year);
  }

  lemma PreviousDateIsPreviousDay(d: Date)
    requires Ok(d)
    ensures Ok(PreviousDate(d)) && DayNumber(PreviousDate(d)) == DayNumber(d) - 1
  {
    if d.day == 1 && d.month == 1 {
      NextYearStart(d.year - 1);
      DecemberStart(d.year - 1);
    } else if d.day == 1 {
      assert DaysBeforeMonth(d.year, d.month) == DaysBeforeMonth(d.year, d.month - 1) + MonthLength(d.year, d.month - 1);
    }
  }

  /** `year_month_day{sys_days}`, by stepping from 1970-01-01. */
  function CivilOf(day: int): (d: Date)
    ensures Ok(d) && DayNumber(d) == day
    decreases if day < 0 then -day else day
  {
    if day == 0 then
      Date(1970, 1, 1)
    else if day > 0 then
      var p := CivilOf(day - 1);
      NextDateIsNextDay(p);
      NextDate(p)
    else
      var n := CivilOf(day + 1);
      PreviousDateIsPreviousDay(n);
      PreviousDate(n)
  }

  lemma {:induction false} MonthStartsMonotone(y: int, m1: int, m2: int)
    requires 1 <= m1 < m2
    ensures DaysBeforeMonth(y, m1) + MonthLength(y, m1) <= DaysBeforeMonth(y, m2)
    decreases m2
  {
    if m1 < m2 - 1 {
      MonthStartsMonotone(y, m1, m2 - 1);
    }
  }

  lemma {:induction false} YearStartsMonotone(y1: int, y2: int)
    requires y1 <= y2
    ensures YearStart(y1) + 365 * (y2 - y1) <= YearStart(y2)
    decreases y2 - y1
  {
    if y1 < y2 {
      NextYearStart(y2 - 1);
      YearStartsMonotone(y1, y2 - 1);
    }
  }

  lemma DayWithinYear(d: Date)
    requires Ok(d)
    ensures YearStart(d.year) <= DayNumber(d) < YearStart(d.year + 1)
  {
    NextYearStart(d.year);
    DecemberStart(d.year);
    if d.month > 1 { MonthStartsMonotone(d.year, 1, d.month); }
    if d.month < 12 { MonthStartsMonotone(d.year, d.month, 12); }
  }

  /** A month later is later, whatever the days of the month. */
  lemma LaterMonthIsLater(a: Date, b: Date)
    requires Ok(a) && Ok(b) && MonthIndex(a) < MonthIndex(b)
    ensures DayNumber(a) < DayNumber(b)
  {
    if a.year < b.year {
      DayWithinYear(a);
      DayWithinYear(b);
      YearStartsMonotone(a.year + 1, b.year);
    } else {
      MonthStartsMonotone(a.year, a.month, b.month);
    }
  }

  /** `CivilOf` and `DayNumber` are inverse on valid dates. */
  lemma CivilRoundTrip(d: Date)
    requires Ok(d)
    ensures CivilOf(DayNumber(d)) == d
  {
    var c := CivilOf(DayNumber(d));
    if MonthIndex(c) < MonthIndex(d) {
      LaterMonthIsLater(c, d);
    } else if MonthIndex(d) < MonthIndex(c) {
      LaterMonthIsLater(d, c);
    } else {
      assert c.year == d.year && c.month == d.month;
    }
  }

  // ----- the day number in closed form -----

  /** Leap days before January 1 of a year, from the year 1 on. */
  function LeapDays(y: int): int {
    (y - 1) / 4 - (y - 1) / 100 + (y - 1) / 400
  }

  lemma OneMoreLeapDay(y: int)
    ensures LeapDays(y + 1) == LeapDays(y) + if Leap(y) then 1 else 0
  {
    EveryFourth(y);
    EveryHundredth(y);
    if y % 100 == 0 {
      CenturiesAreFourths(y);
    }
    EveryFourHundredth(y);
  }

  lemma EveryFourth(y: int)
    ensures y / 4 - (y - 1) / 4 == if y % 4 == 0 then 1 else 0
  {
  }

  lemma Century(y: int, q: int)
    requires 100 * q <= y < 100 * q + 100
    ensures y / 100 == q && y % 100 == y - 100 * q
  {
  }

  lemma FourCenturies(y: int, q: int)
    requires 400 * q <= y < 400 * q + 400
    ensures y / 400 == q && y % 400 == y - 400 * q
  {
  }

  lemma CenturiesAreFourths(y: int)
    requires y % 100 == 0
    ensures y % 4 == 0
  {
    assert y == 4 * (25 * (y / 100));
  }

  lemma EveryHundredth(y: int)
    ensures y / 100 - (y - 1) / 100 == if y % 100 == 0 then 1 else 0
  {
    var q, r := y / 100, y % 100;
    assert y == 100 * q + r;
    Century(y - 1, if r == 0 then q - 1 else q);
  }

  lemma EveryFourHundredth(y: int)
    ensures y / 400 - (y - 1) / 400 == if y % 400 == 0 then 1 else 0
    ensures y % 400 == 0 ==> y % 100 == 0
  {
    var q := y / 400;
    if y % 400 == 0 {
      FourCenturies(y - 1, q - 1);
      Century(y, 4 * q);
    } else {
      FourCenturies(y - 1, q);
    }
  }

  lemma {:induction false} YearStartIs(y: int)
    ensures YearStart(y) == 365 * (y - 1970) + LeapDays(y) - 477
    decreases if y < 1970 then 1970 - y else y - 1970
  {
    if y > 1970 {
      YearStartIs(y - 1);
      OneMoreLeapDay(y - 1);
    } else if y < 1970 {
      YearStartIs(y + 1);
      OneMoreLeapDay(y);
    }
  }

  lemma MonthStartIs(y: int, m: int)
    requires 3 <= m <= 12
    ensures DaysBeforeMonth(y, m) == (153 * (m - 3) + 2) / 5 + if Leap(y) then 60 else 59
  {
    assert DaysBeforeMonth(y, 3) == 31 + MonthLength(y, 2);
    assert DaysBeforeMonth(y, 4) == DaysBeforeMonth(y, 3) + 31;
    assert DaysBeforeMonth(y, 6) == DaysBeforeMonth(y, 4) + 61;
    assert DaysBeforeMonth(y, 8) == DaysBeforeMonth(y, 6) + 61;
    assert DaysBeforeMonth(y, 10) == DaysBeforeMonth(y, 8) + 61;
    assert DaysBeforeMonth(y, 12) == DaysBeforeMonth(y, 10) + 61;
  }

  /** A year of 365 days and its leap days, every fourth year but three centuries in four, and months of 31 and 30 days as
      they alternate from March on. */
  lemma DayNumberIs(d: Date)
    requires 1 <= d.month <= 12
    ensures DayNumber(d)
         == 365 * (d.year - 1970) + LeapDays(d.year) - 477 + d.day - 1
            + if d.month == 1 then 0 else if d.month == 2 then 31
              else (153 * (d.month - 3) + 2) / 5 + if LeapDays(d.year + 1) > LeapDays(d.year) then 60 else 59
  {
    YearStartIs(d.year);
    OneMoreLeapDay(d.year);
    if d.month >= 3 {
      MonthStartIs(d.year, d.month);
    }
  }

  /** 1 January 1970 was a Thursday, the weekdays go round, and a week starts with the Monday on or before a day. */
  lemma WeekdaysGoRound(day: int)
    ensures IsoWeekday(0) == 4 && 1 <= IsoWeekday(day) <= 7
    ensures IsoWeekday(day + 1) == if IsoWeekday(day) == 7 then 1 else IsoWeekday(day) + 1
    ensures IsoWeekday(MondayOf(day)) == 1 && MondayOf(day) <= day < MondayOf(day) + 7
  {
  }
}
