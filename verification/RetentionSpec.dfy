/** What a retention policy keeps, stated on sets of backups without any order of processing. */
module RetentionSpec {
  import opened Calendar
  import opened Timestamp
  import opened Manifests

  datatype Policy = Policy(keepLast: int, keepDaily: int, keepWeekly: int, keepMonthly: int) {
    predicate IsZero() {
      keepLast == 0 && keepDaily == 0 && keepWeekly == 0 && keepMonthly == 0
    }

    function Slots(kind: Kind): int {
      match kind
      case Last => keepLast
      case Daily => keepDaily
      case Weekly => keepWeekly
      case Monthly => keepMonthly
    }
  }

  /** The four families of slots. A Last slot is a period one instant long. */
  datatype Kind = Last | Daily | Weekly | Monthly

  /** The period of a kind that contains t: the instant itself, the UTC day, the Monday-to-Sunday
      week or the calendar month, each numbered without a break. */
  function Period(kind: Kind, t: Instant): int {
    match kind
    case Last => t
    case Daily => DayOfInstant(t)
    case Weekly => WeekIndex(DayOfInstant(t))
    case Monthly => MonthIndex(DayOfInstant(t))
  }

  /** Periods are intervals of time. */
  lemma PeriodMonotone(kind: Kind, a: Instant, b: Instant)
    requires a <= b
    ensures Period(kind, a) <= Period(kind, b)
  {
    if kind == Monthly {
      MonthIndexMonotone(DayOfInstant(a), DayOfInstant(b));
    }
  }

  type Backups = set<Manifest>

  ghost predicate Distinct(s: Backups) {
    forall a, b :: a in s && b in s && a.createdAt == b.createdAt ==> a == b
  }

  ghost function VerifiedOf(s: Backups): (v: Backups)
    ensures v <= s
  {
    set m | m in s && m.Verified()
  }

  ghost predicate IsNewest(s: Backups, m: Manifest) {
    m in s && forall x :: x in s ==> x.createdAt <= m.createdAt
  }

  ghost function Periods(s: Backups, kind: Kind): set<int> {
    set m | m in VerifiedOf(s) :: Period(kind, m.createdAt)
  }

  ghost function Above(a: set<int>, q: int): (b: set<int>)
    ensures b <= a
  {
    set x | x in a && x > q
  }

  /** m is the newest verified backup of its period. */
  ghost predicate Represents(s: Backups, kind: Kind, m: Manifest) {
    && m in VerifiedOf(s)
    && forall x :: x in VerifiedOf(s) && Period(kind, x.createdAt) == Period(kind, m.createdAt) ==> x.createdAt <= m.createdAt
  }

  /** m takes a slot: it represents a period that has fewer than n distinct newer verified periods. */
  ghost predicate TakesSlot(s: Backups, kind: Kind, n: int, m: Manifest) {
    Represents(s, kind, m) && |Above(Periods(s, kind), Period(kind, m.createdAt))| < n
  }

  ghost predicate Keeps(s: Backups, p: Policy, m: Manifest) {
    || IsNewest(s, m)
    || IsNewest(VerifiedOf(s), m)
    || exists kind :: TakesSlot(s, kind, p.Slots(kind), m)
  }

  /** The backups a policy keeps: all of them when the policy is empty or nothing is verified. */
  ghost function Retained(s: Backups, p: Policy): (k: Backups)
    ensures k <= s
  {
    if p.IsZero() || VerifiedOf(s) == {} then s else set m | m in s && Keeps(s, p, m)
  }

  // ---- The same in plain terms ----

  /** m is the newest verified backup of its period, and fewer than n later periods hold a verified backup. */
  ghost predicate InSlot(s: Backups, m: Manifest, n: int, period: Instant -> int) {
    && m in s && m.Verified()
    && (forall x :: x in s && x.Verified() && period(x.createdAt) == period(m.createdAt) ==> x.createdAt <= m.createdAt)
    && |set x | x in s && x.Verified() && period(x.createdAt) > period(m.createdAt) :: period(x.createdAt)| < n
  }

  lemma InSlotMeaning(s: Backups, kind: Kind, n: int, m: Manifest, period: Instant -> int)
    requires forall t :: period(t) == Period(kind, t)
    ensures TakesSlot(s, kind, n, m) <==> InSlot(s, m, n, period)
  {
    hide Period;
    var q := period(m.createdAt);
    assert Above(Periods(s, kind), q) ==
      set x | x in s && x.Verified() && period(x.createdAt) > q :: period(x.createdAt);
  }

  function PlainMoment(t: Instant): int {
    t
  }

  function PlainDay(t: Instant): int {
    t / 86_400_000_000_000
  }

  function PlainWeek(t: Instant): int {
    (PlainDay(t) + 5) / 7
  }

  function PlainMonth(t: Instant): int {
    12 * YearOf(PlainDay(t)) + MonthOf(PlainDay(t)) - 1
  }

  lemma PlainDayMeaning(t: Instant)
    ensures PlainDay(t) == DayOfInstant(t)
  {
  }

  /** What is kept, counted in nanoseconds, days of 24 hours, weeks from Monday on (day 2 was one) and
      months of the calendar. */
  lemma RetainedPlainly(s: Backups, p: Policy, m: Manifest)
    requires !(p.keepLast == p.keepDaily == p.keepWeekly == p.keepMonthly == 0)
    requires exists x :: x in s && x.Verified()
    ensures m in Retained(s, p) <==>
              || (m in s && forall x :: x in s ==> x.createdAt <= m.createdAt)
              || (m in s && m.Verified() && forall x :: x in s && x.Verified() ==> x.createdAt <= m.createdAt)
              || InSlot(s, m, p.keepLast, PlainMoment)
              || InSlot(s, m, p.keepDaily, PlainDay)
              || InSlot(s, m, p.keepWeekly, PlainWeek)
              || InSlot(s, m, p.keepMonthly, PlainMonth)
  {
    forall t: Instant
      ensures PlainMoment(t) == Period(Last, t) && PlainDay(t) == Period(Daily, t)
      ensures PlainWeek(t) == Period(Weekly, t) && PlainMonth(t) == Period(Monthly, t)
    {
      PlainDayMeaning(t);
    }
    hide Period, PlainMoment, PlainDay, PlainWeek, PlainMonth, InSlot, TakesSlot;
    InSlotMeaning(s, Last, p.keepLast, m, PlainMoment);
    InSlotMeaning(s, Daily, p.keepDaily, m, PlainDay);
    InSlotMeaning(s, Weekly, p.keepWeekly, m, PlainWeek);
    InSlotMeaning(s, Monthly, p.keepMonthly, m, PlainMonth);
    SlotsOfKinds(s, p, m);
    OnlyStoredTakeSlots(s, p, m);
    var x :| x in s && x.Verified();
    assert x in VerifiedOf(s);
  }

  lemma SlotsOfKinds(s: Backups, p: Policy, m: Manifest)
    ensures (exists kind :: TakesSlot(s, kind, p.Slots(kind), m)) <==>
            || TakesSlot(s, Last, p.keepLast, m) || TakesSlot(s, Daily, p.keepDaily, m)
            || TakesSlot(s, Weekly, p.keepWeekly, m) || TakesSlot(s, Monthly, p.keepMonthly, m)
  {
    hide TakesSlot;
    assert p.Slots(Last) == p.keepLast && p.Slots(Daily) == p.keepDaily
        && p.Slots(Weekly) == p.keepWeekly && p.Slots(Monthly) == p.keepMonthly;
    forall kind | TakesSlot(s, kind, p.Slots(kind), m)
      ensures TakesSlot(s, Last, p.keepLast, m) || TakesSlot(s, Daily, p.keepDaily, m)
           || TakesSlot(s, Weekly, p.keepWeekly, m) || TakesSlot(s, Monthly, p.keepMonthly, m)
    {
      match kind
      case Last =>
      case Daily =>
      case Weekly =>
      case Monthly =>
    }
  }

  lemma OnlyStoredTakeSlots(s: Backups, p: Policy, m: Manifest)
    ensures forall kind, n :: TakesSlot(s, kind, n, m) ==> m in s
  {
  }

  /** The policy without slots keeps everything, and so does any policy as long as nothing is verified. */
  lemma KeepsEverythingWhen(s: Backups, p: Policy)
    requires p.keepLast == p.keepDaily == p.keepWeekly == p.keepMonthly == 0 || forall x :: x in s ==> !x.Verified()
    ensures Retained(s, p) == s
  {
    assert VerifiedOf(s) == {} || p.IsZero();
  }

  // ---- Finite sets ----

  lemma {:induction false} NewestExists(s: Backups) returns (m: Manifest)
    requires s != {}
    ensures IsNewest(s, m)
  {
    m :| m in s;
    if s != {m} {
      var n := NewestExists(s - {m});
      m := if m.createdAt < n.createdAt then n else m;
    }
  }

  lemma RepresentativeExists(s: Backups, kind: Kind, q: int) returns (m: Manifest)
    requires q in Periods(s, kind)
    ensures Represents(s, kind, m) && Period(kind, m.createdAt) == q
  {
    hide Period;
    var group := set x | x in VerifiedOf(s) && Period(kind, x.createdAt) == q;
    var w :| w in VerifiedOf(s) && Period(kind, w.createdAt) == q;
    assert w in group;
    m := NewestExists(group);
  }

  lemma {:induction false} SubsetSize<T>(a: set<T>, b: set<T>)
    requires a <= b
    ensures |a| <= |b|
  {
    if a != {} {
      var x :| x in a;
      SubsetSize(a - {x}, b - {x});
    }
  }

  lemma Pick<T>(a: set<T>) returns (x: T)
    requires a != {}
    ensures x in a
  {
    x :| x in a;
  }

  lemma {:induction false} MinExists(a: set<int>) returns (m: int)
    requires a != {}
    ensures m in a && forall x :: x in a ==> m <= x
  {
    var first := Pick(a);
    m := first;
    var rest := a - {first};
    assert forall x :: x in a ==> x == first || x in rest;
    if rest != {} {
      var n := MinExists(rest);
      m := if n < first then n else first;
    }
  }

  /** The elements of a with fewer than n greater ones. */
  ghost function Top(a: set<int>, n: int): (t: set<int>)
    ensures t <= a
  {
    set x | x in a && |Above(a, x)| < n
  }

  /** There are n of them, or all of a if a is smaller. */
  lemma {:induction false} TopSize(a: set<int>, n: nat)
    ensures |Top(a, n)| == if n <= |a| then n else |a|
    decreases |a|
  {
    if a != {} {
      var m := MinExists(a);
      var rest := a - {m};
      TopSize(rest, n);
      assert Above(a, m) == rest;
      forall x | x in rest
        ensures Above(a, x) == Above(rest, x)
      {
      }
      assert Top(a, n) == Top(rest, n) + if |rest| < n then {m} else {};
    }
  }

  // ---- Discarded backups do not matter ----

  /** Periods that hold a slot are not lost when only discarded backups disappear. */
  lemma SlotPeriodsSurvive(s: Backups, t: Backups, kind: Kind, n: int, q: int)
    requires t <= s
    requires forall m :: TakesSlot(s, kind, n, m) ==> m in t
    requires q in Periods(s, kind) && |Above(Periods(s, kind), q)| < n
    ensures q in Periods(t, kind)
  {
    hide Period;
    var m := RepresentativeExists(s, kind, q);
    assert TakesSlot(s, kind, n, m);
    assert m in VerifiedOf(t);
  }

  /** A period that is among the first n of what is left was among the first n before. */
  lemma RankSurvives(s: Backups, t: Backups, kind: Kind, n: int, q: int)
    requires t <= s
    requires forall m :: TakesSlot(s, kind, n, m) ==> m in t
    requires |Above(Periods(t, kind), q)| < n
    ensures |Above(Periods(s, kind), q)| < n
  {
    hide Period;
    var before := Above(Periods(s, kind), q);
    if |before| >= n {
      TopSize(before, n);
      forall x | x in Top(before, n)
        ensures x in Above(Periods(t, kind), q)
      {
        assert Above(before, x) == Above(Periods(s, kind), x);
        SlotPeriodsSurvive(s, t, kind, n, x);
      }
      SubsetSize(Top(before, n), Above(Periods(t, kind), q));
    }
  }

  lemma PeriodsShrink(s: Backups, t: Backups, kind: Kind, q: int)
    requires t <= s
    ensures Periods(t, kind) <= Periods(s, kind)
    ensures |Above(Periods(t, kind), q)| <= |Above(Periods(s, kind), q)|
  {
    hide Period;
    assert VerifiedOf(t) <= VerifiedOf(s);
    SubsetSize(Above(Periods(t, kind), q), Above(Periods(s, kind), q));
  }

  /** A backup that keeps its slot in a larger collection keeps it in a smaller one. */
  lemma SlotInherited(s: Backups, t: Backups, kind: Kind, n: int, m: Manifest)
    requires m in t && t <= s
    requires TakesSlot(s, kind, n, m)
    ensures TakesSlot(t, kind, n, m)
  {
    hide Period;
    assert VerifiedOf(t) <= VerifiedOf(s);
    PeriodsShrink(s, t, kind, Period(kind, m.createdAt));
  }

  /** When only discarded backups are missing, no new backup gains a slot. */
  lemma NoSlotGained(s: Backups, t: Backups, kind: Kind, n: int, m: Manifest)
    requires t <= s && Distinct(s)
    requires forall x :: TakesSlot(s, kind, n, x) ==> x in t
    requires TakesSlot(t, kind, n, m)
    ensures TakesSlot(s, kind, n, m)
  {
    hide Period;
    var q := Period(kind, m.createdAt);
    RankSurvives(s, t, kind, n, q);
    assert m in VerifiedOf(s) && q in Periods(s, kind);
    var r := RepresentativeExists(s, kind, q);
    assert TakesSlot(s, kind, n, r);
    assert r in VerifiedOf(t);
    assert r.createdAt == m.createdAt;
  }

  /** Heredity: what is kept from a collection is kept from every part of it that contains it. */
  lemma KeptInherited(s: Backups, t: Backups, p: Policy)
    requires t <= s
    ensures Retained(s, p) * t <= Retained(t, p)
  {
    hide Period;
    if !p.IsZero() && VerifiedOf(t) != {} {
      forall m | m in Retained(s, p) && m in t
        ensures m in Retained(t, p)
      {
        assert VerifiedOf(t) <= VerifiedOf(s);
        if kind :| TakesSlot(s, kind, p.Slots(kind), m) {
          SlotInherited(s, t, kind, p.Slots(kind), m);
        }
      }
    }
  }

  /** Discarded backups are irrelevant: with only some of them missing, the same backups are kept. */
  lemma DiscardedIrrelevant(s: Backups, t: Backups, p: Policy)
    requires Distinct(s)
    requires Retained(s, p) <= t <= s
    ensures Retained(t, p) == Retained(s, p)
  {
    hide Period;
    KeptInherited(s, t, p);
    NewestSurvive(s, t, p);
    if !p.IsZero() && VerifiedOf(s) != {} {
      forall m | m in Retained(t, p)
        ensures m in Retained(s, p)
      {
        assert Keeps(t, p, m);
        if kind :| TakesSlot(t, kind, p.Slots(kind), m) {
          forall x | TakesSlot(s, kind, p.Slots(kind), x)
            ensures x in t
          {
            assert Keeps(s, p, x);
          }
          NoSlotGained(s, t, kind, p.Slots(kind), m);
        }
      }
    }
  }

  /** The newest and the newest verified backup are always kept, and stay what they are. */
  lemma NewestSurvive(s: Backups, t: Backups, p: Policy)
    requires Distinct(s)
    requires Retained(s, p) <= t <= s
    ensures VerifiedOf(s) == {} <==> VerifiedOf(t) == {}
    ensures forall m :: IsNewest(s, m) <==> IsNewest(t, m)
    ensures forall m :: IsNewest(VerifiedOf(s), m) <==> IsNewest(VerifiedOf(t), m)
  {
    hide Period;
    if s != {} {
      var m := NewestExists(s);
      assert m in Retained(s, p);
    }
    assert VerifiedOf(t) <= VerifiedOf(s);
    if VerifiedOf(s) != {} {
      var m := NewestExists(VerifiedOf(s));
      assert m in Retained(s, p) && m in VerifiedOf(t);
    }
  }

  // ---- Another record of the newest backup ----

  /** Slots depend on the verified backups alone. */
  lemma SlotsOfVerified(s: Backups, t: Backups, kind: Kind, n: int, m: Manifest)
    requires VerifiedOf(s) == VerifiedOf(t)
    ensures TakesSlot(s, kind, n, m) <==> TakesSlot(t, kind, n, m)
  {
    hide Period;
    assert Periods(s, kind) == Periods(t, kind);
  }

  /** Whatever becomes of the newest backup while it is not verified, what was discarded beside it stays
      discarded. */
  lemma NewestReplaced(s: Backups, n: Manifest, n': Manifest, m: Manifest, p: Policy)
    requires Distinct(s) && IsNewest(s, n) && !n.Verified() && n'.createdAt == n.createdAt
    requires m in s && m !in Retained(s, p)
    ensures m != n && m !in Retained(s - {n} + {n'}, p)
  {
    hide Period, TakesSlot;
    var t := s - {n} + {n'};
    assert VerifiedOf(s) <= VerifiedOf(t) && VerifiedOf(s - {n}) == VerifiedOf(s);
    if kind :| TakesSlot(t, kind, p.Slots(kind), m) && m != n {
      SlotInherited(t, s - {n}, kind, p.Slots(kind), m);
      SlotsOfVerified(s, s - {n}, kind, p.Slots(kind), m);
    }
  }

  // ---- Pruning as backups arrive ----

  /** Pruning first and adding backups later loses nothing: the same backups are kept. */
  lemma PathIndependent(s: Backups, more: Backups, t: Backups, p: Policy)
    requires Distinct(s + more)
    requires Retained(s, p) <= t <= s
    ensures Retained(t + more, p) == Retained(s + more, p)
  {
    KeptInherited(s + more, s, p);
    DiscardedIrrelevant(s + more, t + more, p);
  }

  /** One cycle as seen in the store: backups may arrive, then a possibly partial prune removes some
      of those the policy discards. */
  datatype Round = Round(arrived: Backups, left: Backups)

  ghost predicate ValidRound(before: Backups, r: Round, p: Policy) {
    Retained(before + r.arrived, p) <= r.left <= before + r.arrived
  }

  ghost function HistoryOf(start: Backups, rounds: seq<Round>): Backups {
    if rounds == [] then start else HistoryOf(start, rounds[..|rounds| - 1]) + rounds[|rounds| - 1].arrived
  }

  ghost function LeftAfter(start: Backups, rounds: seq<Round>): Backups {
    if rounds == [] then start else rounds[|rounds| - 1].left
  }

  ghost predicate ValidRounds(start: Backups, rounds: seq<Round>, p: Policy) {
    forall i :: 0 <= i < |rounds| ==> ValidRound(LeftAfter(start, rounds[..i]), rounds[i], p)
  }

  /** Online pruning equals offline pruning: after any sequence of rounds, complete or partial, what
      the policy keeps of the store is what it would keep of every backup ever taken, and nothing of
      that has been lost. */
  lemma {:induction false} OnlineEqualsOffline(start: Backups, rounds: seq<Round>, p: Policy)
    requires Distinct(HistoryOf(start, rounds))
    requires ValidRounds(start, rounds, p)
    ensures LeftAfter(start, rounds) <= HistoryOf(start, rounds)
    ensures Retained(LeftAfter(start, rounds), p) == Retained(HistoryOf(start, rounds), p)
    ensures Retained(HistoryOf(start, rounds), p) <= LeftAfter(start, rounds)
  {
    if rounds != [] {
      var n := |rounds| - 1;
      var prefix, r := rounds[..n], rounds[n];
      assert forall i :: 0 <= i < n ==> prefix[..i] == rounds[..i];
      OnlineEqualsOffline(start, prefix, p);
      var h, t := HistoryOf(start, prefix), LeftAfter(start, prefix);
      PathIndependent(h, r.arrived, t, p);
      DiscardedIrrelevant(t + r.arrived, r.left, p);
    }
  }

  // ---- Policies ----

  ghost predicate AtMost(p: Policy, p': Policy) {
    forall kind: Kind :: p.Slots(kind) <= p'.Slots(kind)
  }

  /** A larger policy keeps more, unless it is empty while the smaller one is not. */
  lemma PolicyMonotone(s: Backups, p: Policy, p': Policy)
    requires AtMost(p, p')
    requires !p.IsZero()
    ensures Retained(s, p) <= Retained(s, p')
  {
    hide Period;
    if !p'.IsZero() && VerifiedOf(s) != {} {
      forall m | m in Retained(s, p)
        ensures m in Retained(s, p')
      {
        if kind :| TakesSlot(s, kind, p.Slots(kind), m) {
          assert TakesSlot(s, kind, p'.Slots(kind), m);
        }
      }
    }
  }

  ghost function SlotTakers(s: Backups, kind: Kind, n: int): (t: Backups)
    ensures t <= s
  {
    set m | m in s && TakesSlot(s, kind, n, m)
  }

  function NonNegative(n: int): nat {
    if n < 0 then 0 else n
  }

  /** No family of slots keeps more backups than it has slots. */
  lemma SlotTakersBounded(s: Backups, kind: Kind, n: int)
    requires Distinct(s)
    ensures |SlotTakers(s, kind, n)| <= NonNegative(n)
  {
    hide Period;
    var takers, top := SlotTakers(s, kind, n), Top(Periods(s, kind), NonNegative(n));
    TopSize(Periods(s, kind), NonNegative(n));
    InjectiveSize(takers, top, kind);
  }

  lemma {:induction false} InjectiveSize(a: Backups, b: set<int>, kind: Kind)
    requires forall m :: m in a ==> Period(kind, m.createdAt) in b
    requires forall m, n :: m in a && n in a && Period(kind, m.createdAt) == Period(kind, n.createdAt) ==> m == n
    ensures |a| <= |b|
  {
    hide Period;
    if a != {} {
      var m :| m in a;
      InjectiveSize(a - {m}, b - {Period(kind, m.createdAt)}, kind);
    }
  }

  lemma UnionSize(a: Backups, b: Backups)
    ensures |a + b| <= |a| + |b|
  {
    assert a + b == a + (b - a);
    SubsetSize(b - a, b);
  }

  ghost function AllSlotTakers(s: Backups, p: Policy): Backups {
    SlotTakers(s, Last, p.keepLast) + SlotTakers(s, Daily, p.keepDaily)
      + SlotTakers(s, Weekly, p.keepWeekly) + SlotTakers(s, Monthly, p.keepMonthly)
  }

  function TotalSlots(p: Policy): nat {
    NonNegative(p.keepLast) + NonNegative(p.keepDaily) + NonNegative(p.keepWeekly) + NonNegative(p.keepMonthly)
  }

  lemma AllSlotTakersBounded(s: Backups, p: Policy)
    requires Distinct(s)
    ensures |AllSlotTakers(s, p)| <= TotalSlots(p)
  {
    hide SlotTakers;
    SlotTakersBounded(s, Last, p.keepLast);
    SlotTakersBounded(s, Daily, p.keepDaily);
    SlotTakersBounded(s, Weekly, p.keepWeekly);
    SlotTakersBounded(s, Monthly, p.keepMonthly);
    var (a, b, c, d) := (SlotTakers(s, Last, p.keepLast), SlotTakers(s, Daily, p.keepDaily),
                         SlotTakers(s, Weekly, p.keepWeekly), SlotTakers(s, Monthly, p.keepMonthly));
    UnionSize(a, b);
    UnionSize(a + b, c);
    UnionSize(a + b + c, d);
  }

  /** With something verified, a policy keeps at most its slots and the two safety nets; when it has
      a slot at all, the newest verified backup takes one, so only the newest backup comes on top. */
  lemma KeptBounded(s: Backups, p: Policy)
    requires Distinct(s) && !p.IsZero() && VerifiedOf(s) != {}
    ensures |Retained(s, p)| <= TotalSlots(p) + if TotalSlots(p) > 0 then 1 else 2
  {
    hide Period;
    hide TakesSlot;
    var newest := NewestExists(s);
    var proven := NewestExists(VerifiedOf(s));
    var takers := AllSlotTakers(s, p);
    AllSlotTakersBounded(s, p);
    KeptCovered(s, p, newest, proven);
    if TotalSlots(p) > 0 {
      var kind :| p.Slots(kind) > 0;
      NewestVerifiedTakesSlot(s, kind, p.Slots(kind), proven);
      assert takers + {newest, proven} == takers + {newest};
    }
    SubsetSize(Retained(s, p), takers + {newest, proven});
    UnionSize(takers, {newest, proven});
    UnionSize(takers, {newest});
  }

  lemma KeptCovered(s: Backups, p: Policy, newest: Manifest, proven: Manifest)
    requires Distinct(s) && !p.IsZero()
    requires IsNewest(s, newest) && IsNewest(VerifiedOf(s), proven)
    ensures Retained(s, p) <= AllSlotTakers(s, p) + {newest, proven}
  {
    hide Period, TakesSlot;
    forall m | m in Retained(s, p)
      ensures m in AllSlotTakers(s, p) + {newest, proven}
    {
      if kind :| TakesSlot(s, kind, p.Slots(kind), m) {
        assert m in SlotTakers(s, kind, p.Slots(kind));
      }
    }
  }

  lemma NewestVerifiedTakesSlot(s: Backups, kind: Kind, n: int, m: Manifest)
    requires IsNewest(VerifiedOf(s), m) && n > 0
    ensures TakesSlot(s, kind, n, m)
  {
    hide Period;
    forall x | x in VerifiedOf(s)
      ensures Period(kind, x.createdAt) <= Period(kind, m.createdAt)
    {
      PeriodMonotone(kind, x.createdAt, m.createdAt);
    }
    assert Above(Periods(s, kind), Period(kind, m.createdAt)) == {};
  }
}
