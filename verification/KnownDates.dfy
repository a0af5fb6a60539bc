/** The layouts of ids and labels, for every date and on some days of the calendar. */
module KnownDates {
  import opened Calendar
  import opened Labels
  import opened Strings
  import opened Timestamp

  /** The instant of a date and a time of day, and some nanoseconds into its second. */
  function At(y: int, month: int, dom: int, h: int, min: int, s: int, ns: int): (t: Instant)
    requires 0 <= y < 10000 && ValidDate(y, month, dom)
    requires 0 <= h < 24 && 0 <= min < 60 && 0 <= s < 60 && 0 <= ns < 1_000_000_000
  {
    DayInRange(y, month, dom);
    (86_400 * DayNumber(y, month, dom) + 3600 * h + 60 * min + s) * 1_000_000_000 + ns
  }

  lemma DayAndSecondOf(y: int, month: int, dom: int, h: int, min: int, s: int, ns: int)
    requires 0 <= y < 10000 && ValidDate(y, month, dom)
    requires 0 <= h < 24 && 0 <= min < 60 && 0 <= s < 60 && 0 <= ns < 1_000_000_000
    ensures var t := At(y, month, dom, h, min, s, ns);
            && DayOfInstant(t) == DayNumber(y, month, dom)
            && SecondOf(t) % 86_400 == 3600 * h + 60 * min + s
  {
    hide DayNumber;
  }

  /** The id of an instant is its date and its time of day in UTC, to the second. */
  lemma IdOfDate(y: int, month: int, dom: int, h: int, min: int, s: int, ns: int)
    requires 0 <= y < 10000 && ValidDate(y, month, dom)
    requires 0 <= h < 24 && 0 <= min < 60 && 0 <= s < 60 && 0 <= ns < 1_000_000_000
    ensures Id(At(y, month, dom, h, min, s, ns)) ==
            Four(y) + Two(month) + Two(dom) + "T" + Two(h) + Two(min) + Two(s) + "Z"
  {
    hide Four, Two, DayNumber, ValidDate, At, SecondOf;
    DayAndSecondOf(y, month, dom, h, min, s, ns);
    DayOfDate(y, month, dom);
    ClockFields(h, min, s);
  }

  /** The day and month labels are the date, and the week label is the ISO week. */
  lemma LabelsOfDate(y: int, month: int, dom: int, h: int, min: int, s: int, ns: int)
    requires 0 <= y < 10000 && ValidDate(y, month, dom)
    requires 0 <= h < 24 && 0 <= min < 60 && 0 <= s < 60 && 0 <= ns < 1_000_000_000
    ensures var t := At(y, month, dom, h, min, s, ns);
            && MonthLabel(t) == Four(y) + "-" + Two(month)
            && DayLabel(t) == Four(y) + "-" + Two(month) + "-" + Two(dom)
            && WeekLabel(t) == WeekText(IsoWeek(DayNumber(y, month, dom)))
  {
    hide Four, Two, DayNumber, ValidDate, At, SecondOf, WeekText, IsoWeek;
    DayAndSecondOf(y, month, dom, h, min, s, ns);
    DayOfDate(y, month, dom);
  }

  lemma MayDayNumber()
    ensures IsLeap(2024) && ValidDate(2024, 5, 1) && DayNumber(2024, 5, 1) == 739_372
  {
    hide DaysBeforeYear;
    DaysBeforeYearClosed(2024);
  }

  /** The ISO week by the date of its Thursday. */
  lemma IsoWeekByThursday(d: int, y: int, month: int, dom: int)
    requires ValidDate(y, month, dom) && DayNumber(y, month, dom) == ThursdayOf(WeekIndex(d))
    ensures IsoWeek(d) == (y, (DaysBeforeMonth(IsLeap(y), month) + dom - 1) / 7 + 1)
  {
    hide DaysBeforeYear, YearOf;
    DayOfDate(y, month, dom);
    IsoWeekOfThursday(d);
  }

  lemma WeekOfMayDay()
    ensures IsoWeek(739_372) == (2024, 18)
  {
    hide IsoWeek, DaysBeforeYear;
    DaysBeforeYearClosed(2024);
    IsoWeekByThursday(739_372, 2024, 5, 2);
  }

  /** An ISO year ends with its last week: the Monday after Christmas 2024 is in 2025. */
  lemma IsoYearBeginsEarly()
    ensures ValidDate(2024, 12, 30) && IsoWeek(DayNumber(2024, 12, 30)) == (2025, 1)
  {
    hide IsoWeek, DaysBeforeYear;
    DaysBeforeYearClosed(2024);
    DaysBeforeYearClosed(2025);
    IsoWeekByThursday(DayNumber(2024, 12, 30), 2025, 1, 2);
  }

  /** And the first Sunday of 2027 is still in 2026. */
  lemma IsoYearEndsLate()
    ensures ValidDate(2027, 1, 3) && IsoWeek(DayNumber(2027, 1, 3)) == (2026, 53)
  {
    hide IsoWeek, DaysBeforeYear;
    DaysBeforeYearClosed(2026);
    DaysBeforeYearClosed(2027);
    IsoWeekByThursday(DayNumber(2027, 1, 3), 2026, 12, 31);
  }

  /** 1 May 2024, a Wednesday in the week that began on 29 April. */
  lemma MayDay(ns: int)
    requires 0 <= ns < 1_000_000_000
    ensures IsLeap(2024) && ValidDate(2024, 5, 1)
    ensures var t := At(2024, 5, 1, 12, 34, 56, ns);
            && t == 63_881_786_096_000_000_000 + ns
            && Id(t) == "20240501T123456Z"
            && MonthLabel(t) == "2024-05" && DayLabel(t) == "2024-05-01" && WeekLabel(t) == "2024-W18"
  {
    hide Id, MonthLabel, DayLabel, WeekLabel, IsoWeek, DayNumber, DaysBeforeYear;
    WeekOfMayDay();
    MayDayNumber();
    IdOfDate(2024, 5, 1, 12, 34, 56, ns);
    LabelsOfDate(2024, 5, 1, 12, 34, 56, ns);
    assert Four(2024) == "2024" && Two(5) == "05" && Two(1) == "01";
    assert Two(12) == "12" && Two(34) == "34" && Two(56) == "56" && WeekText((2024, 18)) == "2024-W18";
  }}
