/** The text labels by which retention tells days, weeks and months apart. */
module Labels {
  import opened Calendar
  import opened Strings
  import opened Timestamp
  import opened RetentionSpec

  /** Layout 2006-01. */
  function MonthLabel(t: Instant): (s: string)
    ensures |s| == 7
  {
    var d := DayOfInstant(t);
    YearsInRange(d);
    Four(YearOf(d)) + "-" + Two(MonthOf(d))
  }

  /** Layout 2006-01-02. */
  function DayLabel(t: Instant): (s: string)
    ensures |s| == 10
  {
    MonthLabel(t) + "-" + Two(DayOfMonth(DayOfInstant(t)))
  }

  function WeekText(w: (int, int)): (s: string)
    requires 0 <= w.1 < 100
    ensures |s| >= 4
  {
    Decimal(w.0) + "-W" + Two(w.1)
  }

  function WeekLabel(t: Instant): (s: string)
    ensures |s| >= 4
  {
    WeekText(IsoWeek(DayOfInstant(t)))
  }

  function Label(kind: Kind, t: Instant): (s: string)
    requires kind != Last
    ensures s != []
  {
    match kind
    case Daily => DayLabel(t)
    case Weekly => WeekLabel(t)
    case Monthly => MonthLabel(t)
  }

  lemma MonthTextInjective(y: int, m: int, y': int, m': int)
    requires 0 <= y < 10000 && 1 <= m <= 12 && 0 <= y' < 10000 && 1 <= m' <= 12
    ensures Four(y) + "-" + Two(m) == Four(y') + "-" + Two(m') <==> 12 * y + m - 1 == 12 * y' + m' - 1
  {
    hide Four, Two, Value;
    var s, s' := Four(y) + "-" + Two(m), Four(y') + "-" + Two(m');
    assert s[..4] == Four(y) && s'[..4] == Four(y') && s[5..] == Two(m) && s'[5..] == Two(m');
    FourValue(y);
    FourValue(y');
    TwoValue(m);
    TwoValue(m');
  }

  lemma MonthLabelFaithful(a: Instant, b: Instant)
    ensures MonthLabel(a) == MonthLabel(b) <==> MonthIndex(DayOfInstant(a)) == MonthIndex(DayOfInstant(b))
  {
    var d, e := DayOfInstant(a), DayOfInstant(b);
    hide DayOfInstant;
    YearsInRange(d);
    YearsInRange(e);
    MonthTextInjective(YearOf(d), MonthOf(d), YearOf(e), MonthOf(e));
  }

  lemma SameMonth(d: int, e: int)
    requires MonthIndex(d) == MonthIndex(e)
    ensures YearOf(d) == YearOf(e) && MonthOf(d) == MonthOf(e)
  {
  }

  lemma DayLabelFaithful(a: Instant, b: Instant)
    ensures DayLabel(a) == DayLabel(b) <==> DayOfInstant(a) == DayOfInstant(b)
  {
    var d, e := DayOfInstant(a), DayOfInstant(b);
    if DayLabel(a) == DayLabel(b) {
      hide MonthLabel, DayOfInstant;
      var s, s' := DayLabel(a), DayLabel(b);
      assert s[..7] == MonthLabel(a) && s'[..7] == MonthLabel(b);
      MonthLabelFaithful(a, b);
      SameMonth(d, e);
      assert s[8..] == Two(DayOfMonth(d)) && s'[8..] == Two(DayOfMonth(e));
      TwoValue(DayOfMonth(d));
      TwoValue(DayOfMonth(e));
      DateOfDay(d);
      DateOfDay(e);
    }
  }

  lemma WeekTextInjective(v: (int, int), w: (int, int))
    requires 0 <= v.1 < 100 && 0 <= w.1 < 100
    ensures WeekText(v) == WeekText(w) <==> v == w
  {
    var s, s' := WeekText(v), WeekText(w);
    if s == s' {
      assert s[|s| - 2..] == Two(v.1) && s'[|s'| - 2..] == Two(w.1);
      assert s[..|s| - 4] == Decimal(v.0) && s'[..|s'| - 4] == Decimal(w.0);
      TwoValue(v.1);
      TwoValue(w.1);
      DecimalInjective(v.0, w.0);
    }
  }

  lemma WeekLabelFaithful(a: Instant, b: Instant)
    ensures WeekLabel(a) == WeekLabel(b) <==> WeekIndex(DayOfInstant(a)) == WeekIndex(DayOfInstant(b))
  {
    hide WeekText, WeekIndex, DayOfInstant;
    WeekTextInjective(IsoWeek(DayOfInstant(a)), IsoWeek(DayOfInstant(b)));
    IsoWeekSound(DayOfInstant(a), DayOfInstant(b));
  }

  /** Two instants carry the same label exactly when they lie in the same period. */
  lemma LabelFaithful(kind: Kind, a: Instant, b: Instant)
    requires kind != Last
    ensures Label(kind, a) == Label(kind, b) <==> Period(kind, a) == Period(kind, b)
  {
    hide DayLabel, WeekLabel, MonthLabel;
    match kind
    case Daily => DayLabelFaithful(a, b);
    case Weekly => WeekLabelFaithful(a, b);
    case Monthly => MonthLabelFaithful(a, b);
  }

  /** Labels form contiguous runs in time order, so comparing with the last label seen is enough. */
  lemma LabelContiguous(kind: Kind, a: Instant, b: Instant, c: Instant)
    requires kind != Last
    requires a <= b <= c && Label(kind, a) == Label(kind, c)
    ensures Label(kind, b) == Label(kind, a)
  {
    hide Label, Period;
    LabelFaithful(kind, a, c);
    LabelFaithful(kind, a, b);
    PeriodMonotone(kind, a, b);
    PeriodMonotone(kind, b, c);
  }
}
