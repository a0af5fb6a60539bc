/** Instants, durations and the backup id, which is the UTC second of the backup
    written with the layout 20060102T150405Z. */
module Timestamp {
  import opened Calendar
  import opened Strings
  import opened Wrappers

  const NS_PER_SECOND := 1_000_000_000
  const SECONDS_PER_DAY := 86_400
  const MAX_DAYS := 3_652_425
  const MAX_SECONDS := MAX_DAYS * SECONDS_PER_DAY

  /** A stored UTC time, in nanoseconds since 0000-01-01. A manifest with a year outside
      0000 to 9999 cannot be encoded, so no stored time lies outside this range. */
  type Instant = t: int | 0 <= t < MAX_SECONDS * NS_PER_SECOND

  /** A UTC second of the years 0000 to 9999. */
  type Second = s: int | 0 <= s < MAX_SECONDS

  /** Durations are signed 64-bit nanosecond counts; a difference beyond them saturates. */
  const MAX_DURATION := 0x7fff_ffff_ffff_ffff
  type Duration = d: int | -MAX_DURATION - 1 <= d <= MAX_DURATION

  function Sub(a: int, b: int): Duration {
    if a - b > MAX_DURATION then MAX_DURATION
    else if a - b < -MAX_DURATION - 1 then -MAX_DURATION - 1
    else a - b
  }

  /** t lies at most d before now; the largest duration stands for any longer one. */
  predicate Within(now: int, t: int, d: Duration) {
    now - t <= d || d == MAX_DURATION
  }

  /** t lies at least d before now; the smallest duration stands for any smaller one. */
  predicate Past(now: int, t: int, d: Duration) {
    now - t >= d || d == -MAX_DURATION - 1
  }

  /** The time from t to now as a duration: the difference, or the nearest duration when it does not fit. */
  predicate Elapsed(d: Duration, now: int, t: int) {
    || d == now - t
    || (d == MAX_DURATION && now - t > MAX_DURATION)
    || (d == -MAX_DURATION - 1 && now - t < -MAX_DURATION - 1)
  }

  /** What subtracting times means in plain integers. */
  lemma SubMeaning(now: int, t: int, d: Duration)
    ensures Elapsed(Sub(now, t), now, t)
    ensures -9_223_372_036_854_775_808 <= now - t <= 9_223_372_036_854_775_807 ==> Sub(now, t) == now - t
    ensures Sub(now, t) <= d <==> Within(now, t, d)
    ensures Sub(now, t) >= d <==> Past(now, t, d)
  {
  }

  function SecondOf(t: Instant): Second {
    t / NS_PER_SECOND
  }

  /** Seconds follow the order of instants. */
  lemma SecondsOrder(a: Instant, b: Instant)
    ensures SecondOf(a) < SecondOf(b) ==> a < b
    ensures a <= b ==> SecondOf(a) <= SecondOf(b)
  {
  }

  function DayOfInstant(t: Instant): (d: int)
    ensures 0 <= d < MAX_DAYS
  {
    SecondOf(t) / SECONDS_PER_DAY
  }

  lemma YearsInRange(d: int)
    requires 0 <= d < MAX_DAYS
    ensures 0 <= YearOf(d) < 10000
  {
    DaysBeforeYearClosed(10000);
    if YearOf(d) >= 10000 && YearOf(d) != 10000 {
      YearsIncrease(10000, YearOf(d));
    }
    if YearOf(d) < 0 && YearOf(d) + 1 != 0 {
      YearsIncrease(YearOf(d) + 1, 0);
    }
  }

  lemma DayInRange(y: int, m: int, dom: int)
    requires 0 <= y < 10000 && ValidDate(y, m, dom)
    ensures 0 <= DayNumber(y, m, dom) < MAX_DAYS
  {
    DaysBeforeYearClosed(10000);
    YearStep(y);
    MonthsIncrease(IsLeap(y), 1, m);
    MonthsIncrease(IsLeap(y), m + 1, 13);
    if 0 < y { YearsIncrease(0, y); }
    if y + 1 < 10000 { YearsIncrease(y + 1, 10000); }
  }

  // ---- The date part: YYYYMMDD ----

  function Ymd(y: int, m: int, dom: int): (s: string)
    requires 0 <= y < 10000 && 0 <= m < 100 && 0 <= dom < 100
    ensures |s| == 8
  {
    Four(y) + Two(m) + Two(dom)
  }

  function DateText(d: int): (s: string)
    requires 0 <= d < MAX_DAYS
    ensures |s| == 8
  {
    YearsInRange(d);
    Ymd(YearOf(d), MonthOf(d), DayOfMonth(d))
  }

  function ParseDate(s: string): (r: Option<int>)
    requires |s| == 8
    ensures r.Some? ==> 0 <= r.value < MAX_DAYS
  {
    var a, b, c := s[..4], s[4..6], s[6..];
    if AllDigits(a) && AllDigits(b) && AllDigits(c) && ValidDate(Value(a), Value(b), Value(c)) then
      FourOfValue(a);
      DayInRange(Value(a), Value(b), Value(c));
      Some(DayNumber(Value(a), Value(b), Value(c)))
    else None
  }

  lemma YmdParts(y: int, m: int, dom: int)
    requires 0 <= y < 10000 && 0 <= m < 100 && 0 <= dom < 100
    ensures var s := Ymd(y, m, dom);
            && AllDigits(s[..4]) && AllDigits(s[4..6]) && AllDigits(s[6..])
            && Value(s[..4]) == y && Value(s[4..6]) == m && Value(s[6..]) == dom
  {
    var s := Ymd(y, m, dom);
    assert s[..4] == Four(y) && s[4..6] == Two(m) && s[6..] == Two(dom);
    FourValue(y);
    TwoValue(m);
    TwoValue(dom);
  }

  lemma YmdOfParts(s: string)
    requires |s| == 8 && AllDigits(s[..4]) && AllDigits(s[4..6]) && AllDigits(s[6..])
    ensures 0 <= Value(s[..4]) < 10000 && 0 <= Value(s[4..6]) < 100 && 0 <= Value(s[6..]) < 100
    ensures Ymd(Value(s[..4]), Value(s[4..6]), Value(s[6..])) == s
  {
    FourOfValue(s[..4]);
    TwoOfValue(s[4..6]);
    TwoOfValue(s[6..]);
    assert s == s[..4] + s[4..6] + s[6..];
  }

  lemma ParseOfDate(d: int)
    requires 0 <= d < MAX_DAYS
    ensures ParseDate(DateText(d)) == Some(d)
  {
    YearsInRange(d);
    DateOfDay(d);
    YmdParts(YearOf(d), MonthOf(d), DayOfMonth(d));
  }

  lemma DateOfParse(s: string)
    requires |s| == 8 && ParseDate(s).Some?
    ensures DateText(ParseDate(s).value) == s
  {
    DayOfDate(Value(s[..4]), Value(s[4..6]), Value(s[6..]));
    YmdOfParts(s);
  }

  lemma YmdOrder(y: int, m: int, d: int, y': int, m': int, d': int)
    requires 0 <= y < 10000 && 0 <= m < 100 && 0 <= d < 100
    requires 0 <= y' < 10000 && 0 <= m' < 100 && 0 <= d' < 100
    ensures Less(Ymd(y, m, d), Ymd(y', m', d')) <==>
            y < y' || (y == y' && (m < m' || (m == m' && d < d')))
  {
    assert Ymd(y, m, d) == Four(y) + (Two(m) + Two(d));
    assert Ymd(y', m', d') == Four(y') + (Two(m') + Two(d'));
    LessByParts(Four(y), Two(m) + Two(d), Four(y'), Two(m') + Two(d'));
    LessByParts(Two(m), Two(d), Two(m'), Two(d'));
    FourOrder(y, y');
    TwoOrder(m, m');
    TwoOrder(d, d');
    FourValue(y);
    FourValue(y');
    TwoValue(m);
    TwoValue(m');
  }

  lemma EarlierDateIsLess(a: int, b: int)
    requires 0 <= a < b < MAX_DAYS
    ensures Less(DateText(a), DateText(b))
  {
    YearsInRange(a);
    YearsInRange(b);
    YearMonotone(a, b);
    MonthIndexMonotone(a, b);
    DateOfDay(a);
    DateOfDay(b);
    YmdOrder(YearOf(a), MonthOf(a), DayOfMonth(a), YearOf(b), MonthOf(b), DayOfMonth(b));
  }

  // ---- The clock part: hhmmss ----

  function Hms(h: int, m: int, s: int): (t: string)
    requires 0 <= h < 100 && 0 <= m < 100 && 0 <= s < 100
    ensures |t| == 6
  {
    Two(h) + Two(m) + Two(s)
  }

  function ClockText(r: int): (t: string)
    requires 0 <= r < SECONDS_PER_DAY
    ensures |t| == 6
  {
    Hms(r / 3600, r / 60 % 60, r % 60)
  }

  function ParseClock(t: string): (r: Option<int>)
    requires |t| == 6
    ensures r.Some? ==> 0 <= r.value < SECONDS_PER_DAY
  {
    var a, b, c := t[..2], t[2..4], t[4..];
    if AllDigits(a) && AllDigits(b) && AllDigits(c) && Value(a) < 24 && Value(b) < 60 && Value(c) < 60 then
      Some(Value(a) * 3600 + Value(b) * 60 + Value(c))
    else None
  }

  lemma ClockFields(h: int, m: int, s: int)
    requires 0 <= h < 24 && 0 <= m < 60 && 0 <= s < 60
    ensures var r := h * 3600 + m * 60 + s; r / 3600 == h && r / 60 % 60 == m && r % 60 == s
  {
    assert (h * 3600 + m * 60 + s) / 60 == h * 60 + m;
  }

  lemma ParseOfClock(r: int)
    requires 0 <= r < SECONDS_PER_DAY
    ensures ParseClock(ClockText(r)) == Some(r)
  {
    hide Two, Value;
    var t := ClockText(r);
    assert t[..2] == Two(r / 3600) && t[2..4] == Two(r / 60 % 60) && t[4..] == Two(r % 60);
    ClockParts(r);
    TwoValue(r / 3600);
    TwoValue(r / 60 % 60);
    TwoValue(r % 60);
  }

  lemma ClockParts(r: int)
    requires 0 <= r < SECONDS_PER_DAY
    ensures 0 <= r / 3600 < 24 && r == r / 3600 * 3600 + r / 60 % 60 * 60 + r % 60
  {
    assert r / 60 / 60 == r / 3600;
  }

  lemma ClockOfParse(t: string)
    requires |t| == 6 && ParseClock(t).Some?
    ensures ClockText(ParseClock(t).value) == t
  {
    TwoOfValue(t[..2]);
    TwoOfValue(t[2..4]);
    TwoOfValue(t[4..]);
    ClockFields(Value(t[..2]), Value(t[2..4]), Value(t[4..]));
    assert t == t[..2] + t[2..4] + t[4..];
  }

  lemma EarlierClockIsLess(a: int, b: int)
    requires 0 <= a < b < SECONDS_PER_DAY
    ensures Less(ClockText(a), ClockText(b))
  {
    ClockOrder(a, b);
    HmsOrder(a / 3600, a / 60 % 60, a % 60, b / 3600, b / 60 % 60, b % 60);
  }

  lemma ClockOrder(a: int, b: int)
    requires 0 <= a < b
    ensures a / 3600 < b / 3600 || (a / 3600 == b / 3600 &&
            (a / 60 % 60 < b / 60 % 60 || (a / 60 % 60 == b / 60 % 60 && a % 60 < b % 60)))
  {
    assert a / 60 / 60 == a / 3600 && b / 60 / 60 == b / 3600;
  }

  lemma HmsOrder(h: int, m: int, s: int, h': int, m': int, s': int)
    requires 0 <= h < 100 && 0 <= m < 100 && 0 <= s < 100
    requires 0 <= h' < 100 && 0 <= m' < 100 && 0 <= s' < 100
    ensures Less(Hms(h, m, s), Hms(h', m', s')) <==>
            h < h' || (h == h' && (m < m' || (m == m' && s < s')))
  {
    assert Hms(h, m, s) == Two(h) + (Two(m) + Two(s));
    assert Hms(h', m', s') == Two(h') + (Two(m') + Two(s'));
    LessByParts(Two(h), Two(m) + Two(s), Two(h'), Two(m') + Two(s'));
    LessByParts(Two(m), Two(s), Two(m'), Two(s'));
    TwoOrder(h, h');
    TwoOrder(m, m');
    TwoOrder(s, s');
    TwoValue(h);
    TwoValue(h');
    TwoValue(m);
    TwoValue(m');
  }

  // ---- The whole id ----

  function IdText(d: int, r: int): (id: string)
    requires 0 <= d < MAX_DAYS && 0 <= r < SECONDS_PER_DAY
    ensures |id| == 16
  {
    DateText(d) + "T" + ClockText(r) + "Z"
  }

  /** The id text of a second. */
  function IdOfSecond(s: Second): (id: string)
    ensures |id| == 16
  {
    IdText(s / SECONDS_PER_DAY, s % SECONDS_PER_DAY)
  }

  /** The id of a backup taken at t. */
  function Id(t: Instant): (id: string)
    ensures |id| == 16
  {
    IdOfSecond(SecondOf(t))
  }

  /** Reading an id back: the second it names, or nothing for text of any other shape. */
  function Parse(s: string): (r: Option<Second>)
    ensures r.Some? ==> |s| == 16
  {
    if |s| == 16 && s[8] == 'T' && s[15] == 'Z' && ParseDate(s[..8]).Some? && ParseClock(s[9..15]).Some? then
      Some(ParseDate(s[..8]).value * SECONDS_PER_DAY + ParseClock(s[9..15]).value)
    else None
  }

  /** Parsing the id of an instant gives the instant truncated to its second. */
  lemma ParseOfId(t: Instant)
    ensures Parse(Id(t)) == Some(SecondOf(t))
  {
    ParseOfText(SecondOf(t) / SECONDS_PER_DAY, SecondOf(t) % SECONDS_PER_DAY);
  }

  lemma ParseOfText(d: int, r: int)
    requires 0 <= d < MAX_DAYS && 0 <= r < SECONDS_PER_DAY
    ensures Parse(IdText(d, r)) == Some(d * SECONDS_PER_DAY + r)
  {
    hide DateText, ClockText, ParseDate, ParseClock;
    var s := IdText(d, r);
    ParseOfDate(d);
    ParseOfClock(r);
    assert s[..8] == DateText(d) && s[9..15] == ClockText(r);
  }

  /** Conversely, every text the parser accepts is the id of the second it is read as. */
  lemma IdOfParse(s: string)
    requires Parse(s).Some?
    ensures IdOfSecond(Parse(s).value) == s
  {
    hide DateText, ClockText, ParseDate, ParseClock;
    DayAndClock(ParseDate(s[..8]).value, ParseClock(s[9..15]).value);
    TextOfParse(s);
  }

  lemma TextOfParse(s: string)
    requires Parse(s).Some?
    ensures IdText(ParseDate(s[..8]).value, ParseClock(s[9..15]).value) == s
  {
    DateOfParse(s[..8]);
    ClockOfParse(s[9..15]);
    assert s == s[..8] + [s[8]] + s[9..15] + [s[15]];
  }

  lemma DayAndClock(d: int, r: int)
    requires 0 <= r < SECONDS_PER_DAY
    ensures (d * SECONDS_PER_DAY + r) / SECONDS_PER_DAY == d
    ensures (d * SECONDS_PER_DAY + r) % SECONDS_PER_DAY == r
  {
  }

  /** Ids are equal only within one second. */
  lemma IdInjective(a: Instant, b: Instant)
    ensures Id(a) == Id(b) <==> SecondOf(a) == SecondOf(b)
  {
    ParseOfId(a);
    ParseOfId(b);
  }

  /** Byte order of ids is time order. */
  lemma IdOrder(a: Instant, b: Instant)
    ensures Less(Id(a), Id(b)) <==> SecondOf(a) < SecondOf(b)
  {
    LessIrreflexive(Id(a));
    if SecondOf(a) < SecondOf(b) {
      EarlierSecondIsLess(SecondOf(a), SecondOf(b));
    } else if SecondOf(b) < SecondOf(a) {
      EarlierSecondIsLess(SecondOf(b), SecondOf(a));
      if Less(Id(a), Id(b)) {
        LessTransitive(Id(a), Id(b), Id(a));
      }
    }
  }

  lemma EarlierSecondIsLess(a: Second, b: Second)
    requires a < b
    ensures Less(IdOfSecond(a), IdOfSecond(b))
  {
    EarlierTextIsLess(a / SECONDS_PER_DAY, a % SECONDS_PER_DAY, b / SECONDS_PER_DAY, b % SECONDS_PER_DAY);
  }

  lemma EarlierTextIsLess(d: int, r: int, d': int, r': int)
    requires 0 <= d < MAX_DAYS && 0 <= r < SECONDS_PER_DAY
    requires 0 <= d' < MAX_DAYS && 0 <= r' < SECONDS_PER_DAY
    requires d < d' || (d == d' && r < r')
    ensures Less(IdText(d, r), IdText(d', r'))
  {
    IdParts(d, r, d', r');
    if d < d' {
      EarlierDateIsLess(d, d');
    } else {
      EarlierClockIsLess(r, r');
    }
  }

  lemma IdParts(d: int, r: int, d': int, r': int)
    requires 0 <= d < MAX_DAYS && 0 <= r < SECONDS_PER_DAY
    requires 0 <= d' < MAX_DAYS && 0 <= r' < SECONDS_PER_DAY
    ensures Less(IdText(d, r), IdText(d', r')) <==>
            Less(DateText(d), DateText(d')) ||
            (DateText(d) == DateText(d') && (Less(ClockText(r), ClockText(r'))))
  {
    var (u, v, u', v') := (DateText(d) + "T", ClockText(r) + "Z", DateText(d') + "T", ClockText(r') + "Z");
    assert IdText(d, r) == u + v && IdText(d', r') == u' + v';
    LessByParts(u, v, u', v');
    LessByParts(DateText(d), "T", DateText(d'), "T");
    LessByParts(ClockText(r), "Z", ClockText(r'), "Z");
    LessIrreflexive("T");
    LessIrreflexive("Z");
    assert u[..8] == DateText(d) && u'[..8] == DateText(d');
  }
}
