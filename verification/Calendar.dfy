/** The proleptic Gregorian calendar in UTC, as far as retention labels need it:
    years, months and ISO 8601 weeks of a day number.
    Day 0 is 0000-01-01, a Saturday. */
module Calendar {

  predicate IsLeap(y: int) {
    y % 4 == 0 && (y % 100 != 0 || y % 400 == 0)
  }

  function YearLength(y: int): int {
    if IsLeap(y) then 366 else 365
  }

  /** Number of days between 0000-01-01 and the first day of year y (negative for y < 0). */
  function DaysBeforeYear(y: int): int
    decreases if y < 0 then -y else y
  {
    if y == 0 then 0
    else if y > 0 then DaysBeforeYear(y - 1) + YearLength(y - 1)
    else DaysBeforeYear(y + 1) - YearLength(y)
  }

  lemma YearStep(y: int)
    ensures DaysBeforeYear(y + 1) == DaysBeforeYear(y) + YearLength(y)
  {
  }

  /** The same by counting leap years. */
  lemma {:induction false} DaysBeforeYearClosed(y: int)
    ensures DaysBeforeYear(y) == 365 * y + (y + 3) / 4 - (y + 99) / 100 + (y + 399) / 400
    decreases if y < 0 then -y else y
  {
    if y > 0 {
      DaysBeforeYearClosed(y - 1);
      LeapCount(y - 1);
    } else if y < 0 {
      DaysBeforeYearClosed(y + 1);
      LeapCount(y);
    }
  }

  lemma LeapCount(y: int)
    ensures (y + 4) / 4 - (y + 100) / 100 + (y + 400) / 400 ==
            (y + 3) / 4 - (y + 99) / 100 + (y + 399) / 400 + if IsLeap(y) then 1 else 0
  {
    MultiplesOf4(y);
    MultiplesOf100(y);
    MultiplesOf400(y);
    CenturiesDivide(y);
    FourthCenturiesDivide(y);
  }

  lemma CenturiesDivide(y: int)
    ensures y % 100 == 0 ==> y % 4 == 0
  {
    if y % 100 == 0 {
      var q := y / 100;
      assert y == 4 * (25 * q);
    }
  }

  lemma FourthCenturiesDivide(y: int)
    ensures y % 400 == 0 ==> y % 100 == 0
  {
    if y % 400 == 0 {
      var q := y / 400;
      assert y == 100 * (4 * q);
    }
  }

  lemma MultiplesOf4(y: int)
    ensures (y + 4) / 4 == (y + 3) / 4 + if y % 4 == 0 then 1 else 0
  {
    var q, r := y / 4, y % 4;
    assert (y + 4) / 4 == q + 1 && (y + 3) / 4 == if r == 0 then q else q + 1;
  }

  lemma MultiplesOf100(y: int)
    ensures (y + 100) / 100 == (y + 99) / 100 + if y % 100 == 0 then 1 else 0
  {
    var q, r := y / 100, y % 100;
    assert (y + 100) / 100 == q + 1 && (y + 99) / 100 == if r == 0 then q else q + 1;
  }

  lemma MultiplesOf400(y: int)
    ensures (y + 400) / 400 == (y + 399) / 400 + if y % 400 == 0 then 1 else 0
  {
    var q, r := y / 400, y % 400;
    assert (y + 400) / 400 == q + 1 && (y + 399) / 400 == if r == 0 then q else q + 1;
  }

  lemma {:induction false} YearsBeforeZero(y: int)
    requires y <= 0
    ensures DaysBeforeYear(y) <= y
    decreases -y
  {
    if y < 0 {
      YearsBeforeZero(y + 1);
    }
  }

  lemma {:induction false} YearsIncrease(a: int, b: int)
    requires a < b
    ensures DaysBeforeYear(a) + 365 <= DaysBeforeYear(b)
    decreases b - a
  {
    YearStep(b - 1);
    if a < b - 1 {
      YearsIncrease(a, b - 1);
    }
  }

  /** The year that contains day d, found by walking forward from year y. */
  function YearFrom(y: int, d: int): (year: int)
    requires DaysBeforeYear(y) <= d
    ensures DaysBeforeYear(year) <= d < DaysBeforeYear(year + 1)
    decreases d - DaysBeforeYear(y)
  {
    YearStep(y);
    if d < DaysBeforeYear(y + 1) then y else YearFrom(y + 1, d)
  }

  function YearOf(d: int): (year: int)
    ensures DaysBeforeYear(year) <= d < DaysBeforeYear(year + 1)
  {
    if d >= 0 then YearFrom(0, d)
    else
      YearsBeforeZero(d);
      YearFrom(d, d)
  }

  /** A day lies in exactly one year. */
  lemma YearUnique(d: int, y: int)
    requires DaysBeforeYear(y) <= d < DaysBeforeYear(y + 1)
    ensures YearOf(d) == y
  {
    var z := YearOf(d);
    if z < y {
      if z + 1 < y { YearsIncrease(z + 1, y); }
    } else if y < z {
      if y + 1 < z { YearsIncrease(y + 1, z); }
    }
  }

  lemma YearMonotone(a: int, b: int)
    requires a <= b
    ensures YearOf(a) <= YearOf(b)
  {
    if YearOf(b) < YearOf(a) && YearOf(b) + 1 < YearOf(a) {
      YearsIncrease(YearOf(b) + 1, YearOf(a));
    }
  }

  /** Day of the year, counted from 0. */
  function YearDay(d: int): (n: int)
    ensures 0 <= n < YearLength(YearOf(d))
  {
    YearStep(YearOf(d));
    d - DaysBeforeYear(YearOf(d))
  }

  /** Days of a year before its m-th month; month 13 stands for the end of the year. */
  function DaysBeforeMonth(leap: bool, m: int): int
    requires 1 <= m <= 13
  {
    [0, 31, 59, 90, 120, 151, 181, 212, 243, 273, 304, 334, 365][m - 1] + if leap && m > 2 then 1 else 0
  }

  function MonthLength(y: int, m: int): int
    requires 1 <= m <= 12
  {
    DaysBeforeMonth(IsLeap(y), m + 1) - DaysBeforeMonth(IsLeap(y), m)
  }

  /** Thirty days have April, June, September and November, February 28 or in a leap year 29, and all the
      others 31. */
  lemma MonthLengths(y: int, m: int)
    requires 1 <= m <= 12
    ensures MonthLength(y, m) == if m == 2 then (if IsLeap(y) then 29 else 28) else if m in {4, 6, 9, 11} then 30 else 31
  {
  }

  function MonthFrom(leap: bool, yday: int, m: int): (month: int)
    requires 1 <= m <= 12
    requires DaysBeforeMonth(leap, m) <= yday < DaysBeforeMonth(leap, 13)
    ensures m <= month <= 12
    ensures DaysBeforeMonth(leap, month) <= yday < DaysBeforeMonth(leap, month + 1)
    decreases 12 - m
  {
    if yday < DaysBeforeMonth(leap, m + 1) then m else MonthFrom(leap, yday, m + 1)
  }

  /** Month of the year, 1 to 12. */
  function MonthOf(d: int): (m: int)
    ensures 1 <= m <= 12
    ensures DaysBeforeMonth(IsLeap(YearOf(d)), m) <= YearDay(d) < DaysBeforeMonth(IsLeap(YearOf(d)), m + 1)
  {
    MonthFrom(IsLeap(YearOf(d)), YearDay(d), 1)
  }

  /** Day of the month, from 1. */
  function DayOfMonth(d: int): (n: int)
    ensures 1 <= n <= MonthLength(YearOf(d), MonthOf(d)) <= 31
  {
    YearDay(d) - DaysBeforeMonth(IsLeap(YearOf(d)), MonthOf(d)) + 1
  }

  predicate ValidDate(y: int, m: int, dom: int) {
    1 <= m <= 12 && 1 <= dom <= MonthLength(y, m)
  }

  function DayNumber(y: int, m: int, dom: int): int
    requires ValidDate(y, m, dom)
  {
    DaysBeforeYear(y) + DaysBeforeMonth(IsLeap(y), m) + dom - 1
  }

  /** Every day has exactly one (year, month, day) date. */
  lemma DateOfDay(d: int)
    ensures ValidDate(YearOf(d), MonthOf(d), DayOfMonth(d))
    ensures DayNumber(YearOf(d), MonthOf(d), DayOfMonth(d)) == d
  {
  }

  lemma {:induction false} MonthsIncrease(leap: bool, a: int, b: int)
    requires 1 <= a <= b <= 13
    ensures DaysBeforeMonth(leap, a) <= DaysBeforeMonth(leap, b)
    decreases b - a
  {
    if a < b {
      MonthsIncrease(leap, a, b - 1);
    }
  }

  lemma DayOfDate(y: int, m: int, dom: int)
    requires ValidDate(y, m, dom)
    ensures YearOf(DayNumber(y, m, dom)) == y
    ensures MonthOf(DayNumber(y, m, dom)) == m
    ensures DayOfMonth(DayNumber(y, m, dom)) == dom
  {
    var d, leap := DayNumber(y, m, dom), IsLeap(y);
    YearStep(y);
    MonthsIncrease(leap, 1, m);
    MonthsIncrease(leap, m + 1, 13);
    YearUnique(d, y);
    var found := MonthOf(d);
    if found < m {
      MonthsIncrease(leap, found + 1, m);
    } else if m < found {
      MonthsIncrease(leap, m + 1, found);
    }
  }

  /** Months counted without a break from 0000-01. */
  function MonthIndex(d: int): int {
    12 * YearOf(d) + MonthOf(d) - 1
  }

  lemma MonthIndexMonotone(a: int, b: int)
    requires a <= b
    ensures MonthIndex(a) <= MonthIndex(b)
  {
    hide DaysBeforeYear, DaysBeforeMonth, YearOf, MonthOf, IsLeap;
    YearMonotone(a, b);
    if YearOf(a) == YearOf(b) && MonthOf(b) < MonthOf(a) {
      MonthsIncrease(IsLeap(YearOf(a)), MonthOf(b) + 1, MonthOf(a));
    }
  }

  /** Day of the week with Sunday = 0. */
  function Weekday(d: int): (w: int)
    ensures 0 <= w < 7
  {
    (d + 6) % 7
  }

  /** Monday-to-Sunday weeks counted without a break. */
  function WeekIndex(d: int): int {
    (d + 5) / 7
  }

  /** The ISO 8601 year and week of a day: those of the Thursday of its week. */
  function IsoWeek(d: int): (r: (int, int))
    ensures 1 <= r.1 <= 53
  {
    var shift := 4 - Weekday(d);
    var thursday := d + if shift == 4 then -3 else shift;
    (YearOf(thursday), YearDay(thursday) / 7 + 1)
  }

  /** WeekIndex really numbers Monday-to-Sunday weeks: two days have the same index exactly when
      no Monday separates them. */
  lemma WeekIndexMeaning(a: int, b: int)
    requires a <= b
    ensures WeekIndex(a) <= WeekIndex(b)
    ensures WeekIndex(a) == WeekIndex(b) <==> forall d | a < d <= b :: Weekday(d) != 1
  {
    if WeekIndex(a) != WeekIndex(b) {
      var monday := 7 * WeekIndex(b) - 5;
      assert a < monday <= b && Weekday(monday) == 1;
    } else {
      forall d | a < d <= b
        ensures Weekday(d) != 1
      {
        assert d + 5 - 7 * WeekIndex(a) in {1, 2, 3, 4, 5, 6};
      }
    }
  }

  function ThursdayOf(week: int): int {
    7 * week - 2
  }

  /** Moving d to the Thursday of its week, written as the shift the code computes. */
  lemma ThursdayShift(d: int)
    ensures ThursdayOf(WeekIndex(d)) == d + if Weekday(d) == 0 then -3 else 4 - Weekday(d)
  {
    var q, r := (d + 5) / 7, (d + 5) % 7;
    assert d == 7 * q + r - 5;
    assert (d + 6) % 7 == (r + 1) % 7;
  }

  lemma IsoWeekOfThursday(d: int)
    ensures Weekday(ThursdayOf(WeekIndex(d))) == 4
    ensures WeekIndex(ThursdayOf(WeekIndex(d))) == WeekIndex(d)
    ensures IsoWeek(d) == (YearOf(ThursdayOf(WeekIndex(d))), YearDay(ThursdayOf(WeekIndex(d))) / 7 + 1)
  {
    ThursdayShift(d);
  }

  /** Week 1 of an ISO year is the week of 4 January, and the others are counted from there. */
  lemma IsoWeekNumber(d: int)
    ensures var (y, w) := IsoWeek(d); WeekIndex(d) == WeekIndex(DayNumber(y, 1, 4)) + w - 1
  {
    hide DaysBeforeYear, YearOf, IsLeap;
    IsoWeekOfThursday(d);
    var thursday := ThursdayOf(WeekIndex(d));
    var k := YearDay(thursday);
    assert DayNumber(YearOf(thursday), 1, 4) == thursday - k + 3;
    CountedWeeks(WeekIndex(d), k);
  }

  lemma CountedWeeks(week: int, k: int)
    ensures (7 * week - 2 - k + 3 + 5) / 7 == week - k / 7
  {
    var q, r := k / 7, k % 7;
    assert 7 * week - 2 - k + 3 + 5 == 7 * (week - q) + (6 - r);
  }

  /** 1 January 2000 was a Saturday, day 730485 of the count. */
  lemma MillenniumDay()
    ensures DayNumber(2000, 1, 1) == 730485 && Weekday(DayNumber(2000, 1, 1)) == 6
  {
    DaysBeforeYearClosed(2000);
  }

  /** Two days carry the same ISO year and week exactly when they lie in the same Monday-to-Sunday week. */
  lemma IsoWeekSound(a: int, b: int)
    ensures IsoWeek(a) == IsoWeek(b) <==> WeekIndex(a) == WeekIndex(b)
  {
    IsoWeekOfThursday(a);
    IsoWeekOfThursday(b);
    if IsoWeek(a) == IsoWeek(b) {
      var s, t := ThursdayOf(WeekIndex(a)), ThursdayOf(WeekIndex(b));
      var y := YearOf(s);
      assert YearDay(s) - YearDay(t) == s - t == 7 * (WeekIndex(a) - WeekIndex(b));
      assert -7 < YearDay(s) - YearDay(t) < 7;
    }
  }
}
