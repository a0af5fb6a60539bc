/** The prune plan: one greedy pass over the backups, newest first. */
module Retention {
  import opened Labels
  import opened Manifests
  import opened RetentionSpec
  import opened Strings
  import opened Timestamp

  datatype Decision = Decision(manifest: Manifest, keep: bool, reason: string)

  datatype Plan = Plan(decisions: seq<Decision>, warnings: seq<string>)

  // ---- Reading a plan ----

  function Decided(ds: seq<Decision>): (ms: seq<Manifest>)
    ensures |ms| == |ds| && forall i :: 0 <= i < |ds| ==> ms[i] == ds[i].manifest
  {
    seq(|ds|, i requires 0 <= i < |ds| => ds[i].manifest)
  }

  /** The manifests of the decisions with the given verdict, in order. */
  function Selected(ds: seq<Decision>, keep: bool): seq<Manifest> {
    if ds == [] then []
    else Selected(ds[..|ds| - 1], keep) +
         if ds[|ds| - 1].keep == keep then [ds[|ds| - 1].manifest] else []
  }

  function SizeOf(ms: seq<Manifest>): nat {
    if ms == [] then 0 else SizeOf(ms[..|ms| - 1]) + ms[|ms| - 1].encryptedSize
  }

  lemma SizeOfLast(ms: seq<Manifest>, m: Manifest)
    ensures SizeOf(ms + [m]) == SizeOf(ms) + m.encryptedSize
  {
    assert (ms + [m])[..|ms|] == ms;
  }

  /** Sizes add up, one backup counting what it takes up. */
  lemma {:induction false} SizeOfParts(a: seq<Manifest>, b: seq<Manifest>)
    ensures SizeOf(a + b) == SizeOf(a) + SizeOf(b)
    ensures |b| == 1 ==> SizeOf(b) == b[0].encryptedSize
  {
    if b == [] {
      assert a + b == a;
    } else {
      var n := |b| - 1;
      SizeOfParts(a, b[..n]);
      SizeOfLast(a + b[..n], b[n]);
      assert a + b == a + b[..n] + [b[n]];
    }
  }

  method Remove(plan: Plan) returns (out: seq<Manifest>)
    ensures out == Selected(plan.decisions, false)
  {
    out := [];
    for i := 0 to |plan.decisions|
      invariant out == Selected(plan.decisions[..i], false)
    {
      assert plan.decisions[..i + 1][..i] == plan.decisions[..i];
      var d := plan.decisions[i];
      if !d.keep {
        out := out + [d.manifest];
      }
    }
    assert plan.decisions[..|plan.decisions|] == plan.decisions;
  }

  method Kept(plan: Plan) returns (out: seq<Manifest>)
    ensures out == Selected(plan.decisions, true)
  {
    out := [];
    for i := 0 to |plan.decisions|
      invariant out == Selected(plan.decisions[..i], true)
    {
      assert plan.decisions[..i + 1][..i] == plan.decisions[..i];
      var d := plan.decisions[i];
      if d.keep {
        out := out + [d.manifest];
      }
    }
    assert plan.decisions[..|plan.decisions|] == plan.decisions;
  }

  method PlanBytes(plan: Plan) returns (n: nat)
    ensures n == SizeOf(Selected(plan.decisions, false))
  {
    var removed := Remove(plan);
    n := 0;
    for i := 0 to |removed|
      invariant n == SizeOf(removed[..i])
    {
      assert removed[..i + 1][..i] == removed[..i];
      n := n + removed[i].encryptedSize;
    }
    assert removed[..|removed|] == removed;
  }

  /** Kept and removed backups together are exactly the decided ones, with multiplicity. */
  lemma {:induction false} SelectionPartitions(ds: seq<Decision>)
    ensures multiset(Selected(ds, true)) + multiset(Selected(ds, false)) == multiset(Decided(ds))
  {
    if ds != [] {
      var n := |ds| - 1;
      SelectionPartitions(ds[..n]);
      assert Decided(ds) == Decided(ds[..n]) + [ds[n].manifest];
    }
  }

  lemma {:induction false} SelectionMembers(ds: seq<Decision>, keep: bool, m: Manifest)
    ensures m in Selected(ds, keep) <==> exists i :: 0 <= i < |ds| && ds[i].manifest == m && ds[i].keep == keep
  {
    if ds != [] {
      var n := |ds| - 1;
      SelectionMembers(ds[..n], keep, m);
      if i :| 0 <= i < n && ds[i].manifest == m && ds[i].keep == keep {
        assert ds[..n][i] == ds[i];
      }
    }
  }

  // ---- Sorting ----

  predicate NewestFirst(s: seq<Manifest>) {
    forall i, j :: 0 <= i < j < |s| ==> s[i].createdAt >= s[j].createdAt
  }

  /** sort.Slice is not stable: any order of equal times may come out. */
  method SortNewestFirst(ms: seq<Manifest>) returns (sorted: seq<Manifest>)
    ensures multiset(sorted) == multiset(ms)
    ensures NewestFirst(sorted)
  {
    hide NewestFirst;
    sorted := EmptyOrder();
    for k := 0 to |ms|
      invariant multiset(sorted) == multiset(ms[..k])
      invariant NewestFirst(sorted)
    {
      var at := 0;
      while at < |sorted| && sorted[at].createdAt > ms[k].createdAt
        invariant 0 <= at <= |sorted|
        invariant forall i :: 0 <= i < at ==> sorted[i].createdAt >= ms[k].createdAt
      {
        at := at + 1;
      }
      InsertedInOrder(sorted, at, ms[k]);
      InsertedOnce(sorted, at, ms[k]);
      PrefixGrows(ms, k);
      sorted := sorted[..at] + [ms[k]] + sorted[at..];
    }
    assert ms[..|ms|] == ms;
  }

  lemma PrefixGrows<T>(s: seq<T>, k: nat)
    requires k < |s|
    ensures multiset(s[..k + 1]) == multiset(s[..k]) + multiset{s[k]}
  {
    assert s[..k + 1] == s[..k] + [s[k]];
  }

  function EmptyOrder(): (s: seq<Manifest>)
    ensures s == [] && NewestFirst(s)
  {
    []
  }

  lemma InsertedOnce(s: seq<Manifest>, at: nat, m: Manifest)
    requires at <= |s|
    ensures multiset(s[..at] + [m] + s[at..]) == multiset(s) + multiset{m}
  {
    assert s == s[..at] + s[at..];
  }

  lemma InsertedInOrder(s: seq<Manifest>, at: nat, m: Manifest)
    requires at <= |s| && NewestFirst(s)
    requires forall i :: 0 <= i < at ==> s[i].createdAt >= m.createdAt
    requires at < |s| ==> m.createdAt >= s[at].createdAt
    ensures NewestFirst(s[..at] + [m] + s[at..])
  {
    var r := s[..at] + [m] + s[at..];
    forall i, j | 0 <= i < j < |r|
      ensures r[i].createdAt >= r[j].createdAt
    {
      assert j > at ==> r[j] == s[j - 1];
      assert i > at ==> r[i] == s[i - 1];
      assert i < at ==> r[i] == s[i];
    }
  }

  // ---- What the greedy pass keeps, position by position ----

  ghost predicate AnyVerified(s: seq<Manifest>) {
    exists i :: 0 <= i < |s| && s[i].Verified()
  }

  ghost predicate FirstVerified(s: seq<Manifest>, i: int) {
    0 <= i < |s| && s[i].Verified() && forall j :: 0 <= j < i ==> !s[j].Verified()
  }

  function VerifiedBefore(s: seq<Manifest>, k: int): nat
    requires 0 <= k <= |s|
  {
    if k == 0 then 0 else VerifiedBefore(s, k - 1) + if s[k - 1].Verified() then 1 else 0
  }

  ghost function PeriodsBefore(s: seq<Manifest>, kind: Kind, k: int): set<int>
    requires 0 <= k <= |s|
  {
    set j | 0 <= j < k && s[j].Verified() :: Period(kind, s[j].createdAt)
  }

  /** Position i is the first verified one of its period, after fewer than n distinct periods. */
  ghost predicate Opens(s: seq<Manifest>, kind: Kind, n: int, i: int)
    requires 0 <= i < |s|
  {
    s[i].Verified() && Period(kind, s[i].createdAt) !in PeriodsBefore(s, kind, i) && |PeriodsBefore(s, kind, i)| < n
  }

  ghost predicate SlotAt(s: seq<Manifest>, p: Policy, i: int)
    requires 0 <= i < |s|
  {
    && s[i].Verified()
    && (VerifiedBefore(s, i) < p.keepLast || Opens(s, Daily, p.keepDaily, i)
        || Opens(s, Weekly, p.keepWeekly, i) || Opens(s, Monthly, p.keepMonthly, i))
  }

  ghost predicate KeepsAt(s: seq<Manifest>, p: Policy, i: int) {
    0 <= i < |s| && (i == 0 || FirstVerified(s, i) || SlotAt(s, p, i))
  }

  /** Positions are kept by id: a backup shares the fate of any other with the same id. */
  ghost predicate KeepsId(s: seq<Manifest>, p: Policy, id: string) {
    exists j :: KeepsAt(s, p, j) && s[j].id == id
  }

  ghost predicate KeepsEverything(s: seq<Manifest>, p: Policy) {
    p.IsZero() || !AnyVerified(s)
  }

  // ---- Reasons ----

  const NO_POLICY := "no retention policy configured"
  const NOTHING_VERIFIED := "kept: nothing is verified, pruning is unsafe"
  const EMPTY_POLICY := "retention policy is empty: keeping everything"
  const REFUSING := "refusing to prune: no verified backup exists, so coverage is already broken"
  const SAFETY_NET := "most recent verified backup (safety net, never pruned)"
  const MOST_RECENT := "most recent backup (may be mid-verification)"
  const OUTSIDE := "outside retention policy"
  const UNPROVEN := "unverified: never proven restorable, so not coverage"

  type Reasons = map<string, string>

  function LastReason(p: Policy): string {
    "one of the last " + Decimal(p.keepLast) + " verified backups"
  }

  function DailyReason(t: Instant): string {
    "daily slot " + DayLabel(t)
  }

  function WeeklyReason(t: Instant): string {
    "weekly slot " + WeekLabel(t)
  }

  function MonthlyReason(t: Instant): string {
    "monthly slot " + MonthLabel(t)
  }

  /** The first reason noted for an id stands. */
  function Note(reasons: Reasons, m: Manifest, reason: string): Reasons {
    if m.id in reasons then reasons else reasons[m.id := reason]
  }

  ghost function SlotReason(s: seq<Manifest>, p: Policy, i: int): string
    requires 0 <= i < |s|
  {
    if VerifiedBefore(s, i) < p.keepLast then LastReason(p)
    else if Opens(s, Daily, p.keepDaily, i) then DailyReason(s[i].createdAt)
    else if Opens(s, Weekly, p.keepWeekly, i) then WeeklyReason(s[i].createdAt)
    else MonthlyReason(s[i].createdAt)
  }

  /** The reason of a kept position when all ids differ. */
  ghost function ReasonAt(s: seq<Manifest>, p: Policy, i: int): string
    requires 0 <= i < |s|
  {
    if FirstVerified(s, i) then SAFETY_NET else if i == 0 then MOST_RECENT else SlotReason(s, p, i)
  }

  /** The reasons noted by the guards and the first k positions. */
  ghost function ReasonsUpTo(s: seq<Manifest>, p: Policy, nv: int, k: int): Reasons
    requires 0 <= k <= |s| && 0 <= nv < |s|
  {
    if k == 0 then Note(Note(map[], s[nv], SAFETY_NET), s[0], MOST_RECENT)
    else
      var before := ReasonsUpTo(s, p, nv, k - 1);
      if SlotAt(s, p, k - 1) then Note(before, s[k - 1], SlotReason(s, p, k - 1)) else before
  }

  lemma {:induction false} ReasonsCover(s: seq<Manifest>, p: Policy, nv: int, k: int, id: string)
    requires 0 <= k <= |s| && 0 <= nv < |s|
    ensures id in ReasonsUpTo(s, p, nv, k) <==>
            id == s[nv].id || id == s[0].id || exists j :: 0 <= j < k && SlotAt(s, p, j) && s[j].id == id
  {
    hide SlotAt, SlotReason;
    if k > 0 {
      ReasonsCover(s, p, nv, k - 1, id);
    }
  }

  ghost predicate DistinctIds(s: seq<Manifest>) {
    forall i, j :: 0 <= i < j < |s| ==> s[i].id != s[j].id
  }

  lemma {:induction false} ReasonsExact(s: seq<Manifest>, p: Policy, nv: int, k: int, i: int)
    requires 0 <= i < k <= |s| && FirstVerified(s, nv) && DistinctIds(s)
    requires KeepsAt(s, p, i)
    ensures s[i].id in ReasonsUpTo(s, p, nv, k) && ReasonsUpTo(s, p, nv, k)[s[i].id] == ReasonAt(s, p, i)
  {
    hide SlotAt, SlotReason;
    if i < k - 1 {
      ReasonsExact(s, p, nv, k - 1, i);
    } else {
      ReasonsCover(s, p, nv, i, s[i].id);
      GuardReasonsStand(s, p, nv, i);
      assert ReasonsUpTo(s, p, nv, k) ==
        if SlotAt(s, p, i) then Note(ReasonsUpTo(s, p, nv, i), s[i], SlotReason(s, p, i)) else ReasonsUpTo(s, p, nv, i);
    }
  }

  lemma {:induction false} GuardReasonsStand(s: seq<Manifest>, p: Policy, nv: int, k: int)
    requires 0 <= k <= |s| && 0 <= nv < |s| && DistinctIds(s)
    ensures var r := ReasonsUpTo(s, p, nv, k);
            && s[nv].id in r && r[s[nv].id] == SAFETY_NET
            && s[0].id in r && (nv != 0 ==> r[s[0].id] == MOST_RECENT)
  {
    hide SlotAt, SlotReason;
    if k > 0 {
      GuardReasonsStand(s, p, nv, k - 1);
    }
  }

  // ---- One family of slots in the greedy pass ----

  /** The label of the last verified position before k. */
  ghost function LastLabel(s: seq<Manifest>, kind: Kind, k: int): string
    requires 0 <= k <= |s| && kind != Last
  {
    if k == 0 then "" else if s[k - 1].Verified() then Label(kind, s[k - 1].createdAt) else LastLabel(s, kind, k - 1)
  }

  /** What the pass knows about a family after k positions: the slots filled, and the label seen
      last as long as slots remain. */
  ghost predicate SlotState(s: seq<Manifest>, kind: Kind, limit: int, k: int, last: string, n: int)
    requires 0 <= k <= |s| && kind != Last
  {
    var seen := |PeriodsBefore(s, kind, k)|;
    && n == (if seen < limit then seen else NonNegative(limit))
    && (seen < limit ==> last == LastLabel(s, kind, k))
  }

  lemma {:induction false} LastLabelSource(s: seq<Manifest>, kind: Kind, k: int) returns (j: int)
    requires 0 <= k <= |s| && kind != Last
    ensures -1 <= j < k
    ensures forall i :: j < i < k ==> !s[i].Verified()
    ensures if j == -1 then LastLabel(s, kind, k) == "" else s[j].Verified() && LastLabel(s, kind, k) == Label(kind, s[j].createdAt)
  {
    hide Label;
    if k == 0 {
      j := -1;
    } else if s[k - 1].Verified() {
      j := k - 1;
    } else {
      j := LastLabelSource(s, kind, k - 1);
    }
  }

  /** Comparing with the last label alone tells whether the period was seen at all. */
  lemma LastLabelDecides(s: seq<Manifest>, kind: Kind, k: int)
    requires 0 <= k < |s| && kind != Last && NewestFirst(s)
    ensures Label(kind, s[k].createdAt) == LastLabel(s, kind, k)
            <==> Period(kind, s[k].createdAt) in PeriodsBefore(s, kind, k)
  {
    hide Label, Period, LastLabel, PeriodsBefore, NewestFirst;
    var j := LastLabelSource(s, kind, k);
    if j >= 0 {
      LabelFaithful(kind, s[j].createdAt, s[k].createdAt);
      SeenAt(s, kind, k, j);
    }
    if Period(kind, s[k].createdAt) in PeriodsBefore(s, kind, k) {
      var i := SeenWhere(s, kind, k);
      SeenLast(s, kind, k, i, j);
    }
  }

  lemma SeenAt(s: seq<Manifest>, kind: Kind, k: int, j: int)
    requires 0 <= j < k <= |s| && s[j].Verified()
    ensures Period(kind, s[j].createdAt) in PeriodsBefore(s, kind, k)
  {
    hide Period;
  }

  lemma SeenWhere(s: seq<Manifest>, kind: Kind, k: int) returns (i: int)
    requires 0 <= k < |s| && Period(kind, s[k].createdAt) in PeriodsBefore(s, kind, k)
    ensures 0 <= i < k && s[i].Verified() && Period(kind, s[i].createdAt) == Period(kind, s[k].createdAt)
  {
    hide Period;
    i :| 0 <= i < k && s[i].Verified() && Period(kind, s[i].createdAt) == Period(kind, s[k].createdAt);
  }

  /** Where the period of k was seen before, the last verified position before k lies in it. */
  lemma SeenLast(s: seq<Manifest>, kind: Kind, k: int, i: int, j: int)
    requires 0 <= i < k < |s| && kind != Last && NewestFirst(s) && -1 <= j < k
    requires s[i].Verified() && Period(kind, s[i].createdAt) == Period(kind, s[k].createdAt)
    requires forall x :: j < x < k ==> !s[x].Verified()
    ensures j >= 0 && Label(kind, s[j].createdAt) == Label(kind, s[k].createdAt)
  {
    hide Label, Period;
    assert i <= j;
    LabelFaithful(kind, s[i].createdAt, s[k].createdAt);
    LabelContiguous(kind, s[k].createdAt, s[j].createdAt, s[i].createdAt);
  }

  /** One step of the pass: a slot is taken exactly by a position that opens a period. */
  lemma SlotStep(s: seq<Manifest>, kind: Kind, limit: int, k: int, last: string, n: int)
    requires 0 <= k < |s| && kind != Last && NewestFirst(s)
    requires SlotState(s, kind, limit, k, last, n)
    ensures var text := Label(kind, s[k].createdAt);
            var take := s[k].Verified() && text != last && n < limit;
            && (take <==> Opens(s, kind, limit, k))
            && SlotState(s, kind, limit, k + 1, if take then text else last, if take then n + 1 else n)
  {
    hide Label, Period;
    LastLabelDecides(s, kind, k);
    PeriodsGrow(s, kind, k);
  }

  lemma PeriodsGrow(s: seq<Manifest>, kind: Kind, k: int)
    requires 0 <= k < |s|
    ensures var before, after := PeriodsBefore(s, kind, k), PeriodsBefore(s, kind, k + 1);
            var opening := s[k].Verified() && Period(kind, s[k].createdAt) !in before;
            |after| == |before| + if opening then 1 else 0
  {
    hide Period, PeriodsBefore;
    PeriodsNext(s, kind, k);
    var before, q := PeriodsBefore(s, kind, k), Period(kind, s[k].createdAt);
    assert before + {} == before;
    if q in before {
      assert before + {q} == before;
    }
  }

  lemma PeriodsNext(s: seq<Manifest>, kind: Kind, k: int)
    requires 0 <= k < |s|
    ensures PeriodsBefore(s, kind, k + 1) ==
            PeriodsBefore(s, kind, k) + if s[k].Verified() then {Period(kind, s[k].createdAt)} else {}
  {
    hide Period;
    var before, after := PeriodsBefore(s, kind, k), PeriodsBefore(s, kind, k + 1);
    assert before <= after;
    assert forall q :: q in after ==> q in before || (s[k].Verified() && q == Period(kind, s[k].createdAt));
  }

  lemma SlotStart(s: seq<Manifest>, kind: Kind, limit: int)
    requires kind != Last
    ensures SlotState(s, kind, limit, 0, "", 0)
  {
    assert PeriodsBefore(s, kind, 0) == {};
  }

  /** Noting the families one after the other is noting the first that applies. */
  lemma NoteStep(s: seq<Manifest>, p: Policy, k: int, r0: Reasons)
    requires 0 <= k < |s| && s[k].Verified()
    ensures var m, t := s[k], s[k].createdAt;
            var r1 := if VerifiedBefore(s, k) < p.keepLast then Note(r0, m, LastReason(p)) else r0;
            var r2 := if Opens(s, Daily, p.keepDaily, k) then Note(r1, m, DailyReason(t)) else r1;
            var r3 := if Opens(s, Weekly, p.keepWeekly, k) then Note(r2, m, WeeklyReason(t)) else r2;
            var r4 := if Opens(s, Monthly, p.keepMonthly, k) then Note(r3, m, MonthlyReason(t)) else r3;
            r4 == if SlotAt(s, p, k) then Note(r0, m, SlotReason(s, p, k)) else r0
  {
    hide Opens, LastReason, DailyReason, WeeklyReason, MonthlyReason;
  }

  // ---- The plan ----

  method KeepAll(sorted: seq<Manifest>, reason: string) returns (decisions: seq<Decision>)
    ensures Decided(decisions) == sorted
    ensures forall i :: 0 <= i < |decisions| ==> decisions[i].keep && decisions[i].reason == reason
  {
    decisions := [];
    for i := 0 to |sorted|
      invariant Decided(decisions) == sorted[..i]
      invariant forall j :: 0 <= j < i ==> decisions[j].keep && decisions[j].reason == reason
    {
      decisions := decisions + [Decision(sorted[i], true, reason)];
    }
  }

  method FindVerified(sorted: seq<Manifest>) returns (nv: int)
    ensures -1 <= nv < |sorted|
    ensures if nv == -1 then !AnyVerified(sorted) else FirstVerified(sorted, nv)
  {
    for i := 0 to |sorted|
      invariant forall j :: 0 <= j < i ==> !sorted[j].Verified()
    {
      if sorted[i].Verified() {
        return i;
      }
    }
    return -1;
  }

  /** The policy slots: what the pass notes for every position, the guards included. */
  method FillSlots(sorted: seq<Manifest>, p: Policy, nv: nat) returns (reasons: Reasons)
    requires nv < |sorted| && NewestFirst(sorted)
    ensures reasons == ReasonsUpTo(sorted, p, nv, |sorted|)
  {
    hide Period, DayLabel, WeekLabel, MonthLabel, SlotReason, Note, SlotState, Opens;
    reasons := Note(map[], sorted[nv], SAFETY_NET);
    reasons := Note(reasons, sorted[0], MOST_RECENT);
    var lastDay, lastWeek, lastMonth := "", "", "";
    var nLast, nDaily, nWeekly, nMonthly := 0, 0, 0, 0;
    SlotStart(sorted, Daily, p.keepDaily);
    SlotStart(sorted, Weekly, p.keepWeekly);
    SlotStart(sorted, Monthly, p.keepMonthly);
    for k := 0 to |sorted|
      invariant nLast == if VerifiedBefore(sorted, k) < p.keepLast then VerifiedBefore(sorted, k) else NonNegative(p.keepLast)
      invariant SlotState(sorted, Daily, p.keepDaily, k, lastDay, nDaily)
      invariant SlotState(sorted, Weekly, p.keepWeekly, k, lastWeek, nWeekly)
      invariant SlotState(sorted, Monthly, p.keepMonthly, k, lastMonth, nMonthly)
      invariant reasons == ReasonsUpTo(sorted, p, nv, k)
    {
      SlotStep(sorted, Daily, p.keepDaily, k, lastDay, nDaily);
      SlotStep(sorted, Weekly, p.keepWeekly, k, lastWeek, nWeekly);
      SlotStep(sorted, Monthly, p.keepMonthly, k, lastMonth, nMonthly);
      var m := sorted[k];
      if !m.Verified() {
        continue;
      }
      var t := m.createdAt;
      NoteStep(sorted, p, k, reasons);
      if nLast < p.keepLast {
        nLast := nLast + 1;
        reasons := Note(reasons, m, LastReason(p));
      }
      var day := DayLabel(t);
      if day != lastDay && nDaily < p.keepDaily {
        lastDay, nDaily := day, nDaily + 1;
        reasons := Note(reasons, m, DailyReason(t));
      }
      var week := WeekLabel(t);
      if week != lastWeek && nWeekly < p.keepWeekly {
        lastWeek, nWeekly := week, nWeekly + 1;
        reasons := Note(reasons, m, WeeklyReason(t));
      }
      var month := MonthLabel(t);
      if month != lastMonth && nMonthly < p.keepMonthly {
        lastMonth, nMonthly := month, nMonthly + 1;
        reasons := Note(reasons, m, MonthlyReason(t));
      }
    }
  }

  method BuildPlan(ms: seq<Manifest>, p: Policy) returns (plan: Plan)
    ensures PlanFor(plan, ms, p)
  {
    hide NewestFirst, Note, ReasonsUpTo, SlotAt, ReasonAt;
    var sorted := SortNewestFirst(ms);
    assert |sorted| == |ms| by { assert |multiset(sorted)| == |multiset(ms)|; }
    if |sorted| == 0 {
      return Plan([], []);
    }
    if p.IsZero() {
      var all := KeepAll(sorted, NO_POLICY);
      return Plan(all, [EMPTY_POLICY]);
    }
    var nv := FindVerified(sorted);
    if nv == -1 {
      var all := KeepAll(sorted, NOTHING_VERIFIED);
      return Plan(all, [REFUSING]);
    }
    var reasons := FillSlots(sorted, p, nv);
    var decisions := Decide(sorted, reasons);
    ReasonsAnswer(sorted, p, nv, decisions, reasons);
    plan := Plan(decisions, []);
  }

  /** What the plan is for any list of backups, equal times and repeated ids included. */
  ghost predicate PlanFor(plan: Plan, ms: seq<Manifest>, p: Policy) {
    var s := Decided(plan.decisions);
    && multiset(s) == multiset(ms)
    && NewestFirst(s)
    && (forall i :: 0 <= i < |s| ==> (plan.decisions[i].keep <==> KeepsEverything(s, p) || KeepsId(s, p, s[i].id)))
    && ReasonsGiven(plan.decisions, p)
    && plan.warnings == (if s == [] then [] else if p.IsZero() then [EMPTY_POLICY] else if !AnyVerified(s) then [REFUSING] else [])
  }

  method Decide(sorted: seq<Manifest>, reasons: Reasons) returns (decisions: seq<Decision>)
    ensures Decided(decisions) == sorted
    ensures forall i :: 0 <= i < |sorted| ==> decisions[i] == DecisionFor(sorted[i], reasons)
  {
    decisions := [];
    for i := 0 to |sorted|
      invariant |decisions| == i
      invariant forall j :: 0 <= j < i ==> decisions[j] == DecisionFor(sorted[j], reasons)
    {
      var m := sorted[i];
      if m.id in reasons {
        decisions := decisions + [Decision(m, true, reasons[m.id])];
      } else {
        var reason := OUTSIDE;
        if !m.Verified() {
          reason := UNPROVEN;
        }
        decisions := decisions + [Decision(m, false, reason)];
      }
    }
    assert Decided(decisions) == sorted;
  }

  function DecisionFor(m: Manifest, reasons: Reasons): (d: Decision)
    ensures d.manifest == m
  {
    if m.id in reasons then Decision(m, true, reasons[m.id])
    else Decision(m, false, if m.Verified() then OUTSIDE else UNPROVEN)
  }

  /** Which reason each decision carries, when all ids differ. */
  ghost predicate ReasonsGiven(ds: seq<Decision>, p: Policy) {
    var s := Decided(ds);
    DistinctIds(s) ==>
      forall i :: 0 <= i < |s| ==>
        ds[i].reason == (if p.IsZero() then NO_POLICY
                         else if !AnyVerified(s) then NOTHING_VERIFIED
                         else if ds[i].keep then ReasonAt(s, p, i)
                         else if s[i].Verified() then OUTSIDE
                         else UNPROVEN)
  }

  lemma ReasonsAnswer(s: seq<Manifest>, p: Policy, nv: nat, ds: seq<Decision>, reasons: Reasons)
    requires FirstVerified(s, nv) && !p.IsZero() && |ds| == |s|
    requires reasons == ReasonsUpTo(s, p, nv, |s|)
    requires Decided(ds) == s
    requires forall i :: 0 <= i < |s| ==> ds[i] == DecisionFor(s[i], reasons)
    ensures forall i :: 0 <= i < |s| ==> (ds[i].keep <==> KeepsId(s, p, s[i].id))
    ensures ReasonsGiven(ds, p)
  {
    hide SlotAt, ReasonsUpTo, ReasonAt, Decided;
    assert AnyVerified(s);
    forall i | 0 <= i < |s|
      ensures ds[i].keep <==> KeepsId(s, p, s[i].id)
      ensures DistinctIds(s) && ds[i].keep ==> ds[i].reason == ReasonAt(s, p, i)
    {
      ReasonsCover(s, p, nv, |s|, s[i].id);
      GuardsAreKept(s, p, nv, s[i].id);
      if DistinctIds(s) && ds[i].keep {
        ReasonsExact(s, p, nv, |s|, i);
      }
    }
  }

  lemma GuardsAreKept(s: seq<Manifest>, p: Policy, nv: nat, id: string)
    requires FirstVerified(s, nv)
    ensures KeepsId(s, p, id) <==>
            id == s[nv].id || id == s[0].id || exists j :: 0 <= j < |s| && SlotAt(s, p, j) && s[j].id == id
  {
    hide SlotAt;
    assert KeepsAt(s, p, nv) && KeepsAt(s, p, 0);
    if j :| KeepsAt(s, p, j) && s[j].id == id && FirstVerified(s, j) {
      assert j == nv;
    }
  }

  // ---- The greedy pass refines the set specification ----

  ghost function SetOf(ms: seq<Manifest>): Backups {
    set m | m in ms
  }

  /** No two backups of the list share a creation time or an id. */
  ghost predicate AllDistinct(ms: seq<Manifest>) {
    forall i, j :: 0 <= i < j < |ms| ==> ms[i].createdAt != ms[j].createdAt && ms[i].id != ms[j].id
  }

  ghost predicate StrictlyNewestFirst(s: seq<Manifest>) {
    forall i, j :: 0 <= i < j < |s| ==> s[i].createdAt > s[j].createdAt
  }

  lemma LastSlotAgrees(s: seq<Manifest>, n: int, i: int)
    requires 0 <= i < |s| && StrictlyNewestFirst(s) && s[i].Verified()
    ensures VerifiedBefore(s, i) < n <==> TakesSlot(SetOf(s), Last, n, s[i])
  {
    TimesBefore(s, i);
    PeriodsAgree(s, Last, i);
  }

  /** Distinct times before i are as many as verified positions before i. */
  lemma {:induction false} TimesBefore(s: seq<Manifest>, i: int)
    requires 0 <= i <= |s| && StrictlyNewestFirst(s)
    ensures |PeriodsBefore(s, Last, i)| == VerifiedBefore(s, i)
  {
    if i == 0 {
      assert PeriodsBefore(s, Last, 0) == {};
    } else {
      TimesBefore(s, i - 1);
      PeriodsGrow(s, Last, i - 1);
    }
  }

  /** For a position that represents its period, the distinct periods met earlier in the pass are the
      newer verified periods of the set. */
  lemma PeriodsAgree(s: seq<Manifest>, kind: Kind, i: int)
    requires 0 <= i < |s| && StrictlyNewestFirst(s) && s[i].Verified()
    ensures Period(kind, s[i].createdAt) !in PeriodsBefore(s, kind, i) <==> Represents(SetOf(s), kind, s[i])
    ensures Represents(SetOf(s), kind, s[i]) ==>
              PeriodsBefore(s, kind, i) == Above(Periods(SetOf(s), kind), Period(kind, s[i].createdAt))
  {
    hide Period;
    var q := Period(kind, s[i].createdAt);
    assert s[i] in VerifiedOf(SetOf(s));
    forall j | 0 <= j < |s|
      ensures j < i ==> Period(kind, s[j].createdAt) >= q
      ensures i <= j ==> Period(kind, s[j].createdAt) <= q
      ensures s[j].Verified() ==> s[j] in VerifiedOf(SetOf(s))
    {
      if j < i {
        PeriodMonotone(kind, s[i].createdAt, s[j].createdAt);
      } else if i < j {
        PeriodMonotone(kind, s[j].createdAt, s[i].createdAt);
      }
    }
  }

  lemma OpensAgrees(s: seq<Manifest>, kind: Kind, n: int, i: int)
    requires 0 <= i < |s| && StrictlyNewestFirst(s)
    ensures Opens(s, kind, n, i) <==> TakesSlot(SetOf(s), kind, n, s[i])
  {
    hide Period, PeriodsBefore;
    if s[i].Verified() {
      PeriodsAgree(s, kind, i);
    }
  }

  lemma SlotAgrees(s: seq<Manifest>, p: Policy, i: int)
    requires 0 <= i < |s| && StrictlyNewestFirst(s)
    ensures SlotAt(s, p, i) <==> exists kind :: TakesSlot(SetOf(s), kind, p.Slots(kind), s[i])
  {
    hide Opens, TakesSlot;
    OpensAgrees(s, Daily, p.keepDaily, i);
    OpensAgrees(s, Weekly, p.keepWeekly, i);
    OpensAgrees(s, Monthly, p.keepMonthly, i);
    if s[i].Verified() {
      LastSlotAgrees(s, p.keepLast, i);
    } else {
      OnlyVerifiedTakeSlots(s, p, i);
    }
    SlotsOfKinds(SetOf(s), p, s[i]);
  }

  lemma OnlyVerifiedTakeSlots(s: seq<Manifest>, p: Policy, i: int)
    requires 0 <= i < |s| && !s[i].Verified()
    ensures forall kind, n :: !TakesSlot(SetOf(s), kind, n, s[i])
  {
  }

  lemma {:induction false} CountAtMostOne(ms: seq<Manifest>, m: Manifest)
    requires AllDistinct(ms)
    ensures multiset(ms)[m] <= 1
  {
    if ms != [] {
      var n := |ms| - 1;
      CountAtMostOne(ms[..n], m);
      assert ms == ms[..n] + [ms[n]];
      assert m == ms[n] ==> m !in ms[..n];
    }
  }

  lemma RepeatCounts(s: seq<Manifest>, i: int, j: int)
    requires 0 <= i < j < |s| && s[i] == s[j]
    ensures multiset(s)[s[i]] >= 2
  {
    assert s == s[..j] + s[j..];
    assert s[i] in s[..j] && s[j] in s[j..];
  }

  /** Distinctness does not depend on the order. */
  lemma PermutationDistinct(s: seq<Manifest>, ms: seq<Manifest>)
    requires multiset(s) == multiset(ms) && AllDistinct(ms)
    ensures AllDistinct(s)
    ensures SetOf(s) == SetOf(ms)
  {
    forall m ensures m in s <==> m in ms {
      assert m in s <==> m in multiset(s);
      assert m in ms <==> m in multiset(ms);
    }
    forall i, j | 0 <= i < j < |s|
      ensures s[i].createdAt != s[j].createdAt && s[i].id != s[j].id
    {
      assert s[i] in ms && s[j] in ms;
      if s[i] == s[j] {
        RepeatCounts(s, i, j);
        CountAtMostOne(ms, s[i]);
      }
    }
  }

  /** With distinct backups the pass keeps exactly what the set specification keeps, whatever order
      the sort produced. */
  lemma PassRefinesSpec(s: seq<Manifest>, ms: seq<Manifest>, p: Policy, i: int)
    requires multiset(s) == multiset(ms) && AllDistinct(ms) && NewestFirst(s)
    requires 0 <= i < |s|
    ensures KeepsEverything(s, p) || KeepsId(s, p, s[i].id) <==> s[i] in Retained(SetOf(ms), p)
  {
    hide SlotAt, TakesSlot, Period;
    PermutationDistinct(s, ms);
    assert KeepsId(s, p, s[i].id) <==> KeepsAt(s, p, i);
    SlotAgrees(s, p, i);
    AnyVerifiedAgrees(s);
    GuardsAgree(s, i);
  }

  lemma AnyVerifiedAgrees(s: seq<Manifest>)
    ensures AnyVerified(s) <==> VerifiedOf(SetOf(s)) != {}
  {
    forall i | 0 <= i < |s| && s[i].Verified()
      ensures s[i] in VerifiedOf(SetOf(s))
    {
    }
  }

  lemma GuardsAgree(s: seq<Manifest>, i: int)
    requires 0 <= i < |s| && StrictlyNewestFirst(s)
    ensures i == 0 <==> IsNewest(SetOf(s), s[i])
    ensures FirstVerified(s, i) <==> IsNewest(VerifiedOf(SetOf(s)), s[i])
  {
    forall j | 0 <= j < |s|
      ensures s[j] in SetOf(s)
      ensures s[j].Verified() ==> s[j] in VerifiedOf(SetOf(s))
    {
    }
    if i > 0 {
      assert s[0] in SetOf(s) && s[0].createdAt > s[i].createdAt;
    }
  }

  /** The plan's two halves, as sets, under the conditions of PassRefinesSpec. */
  lemma {:induction false} PlanRefinesSpec(ds: seq<Decision>, ms: seq<Manifest>, p: Policy)
    requires multiset(Decided(ds)) == multiset(ms) && NewestFirst(Decided(ds)) && AllDistinct(ms)
    requires forall i :: 0 <= i < |ds| ==>
      (ds[i].keep <==> KeepsEverything(Decided(ds), p) || KeepsId(Decided(ds), p, Decided(ds)[i].id))
    ensures SetOf(Selected(ds, true)) == Retained(SetOf(ms), p)
    ensures SetOf(Selected(ds, false)) == SetOf(ms) - Retained(SetOf(ms), p)
  {
    hide KeepsEverything, KeepsId;
    var s := Decided(ds);
    PermutationDistinct(s, ms);
    forall i | 0 <= i < |s|
      ensures ds[i].keep <==> s[i] in Retained(SetOf(ms), p)
    {
      PassRefinesSpec(s, ms, p, i);
    }
    forall m, keep: bool
      ensures m in Selected(ds, keep) <==> m in SetOf(ms) && (keep <==> m in Retained(SetOf(ms), p))
    {
      SelectionMembers(ds, keep, m);
      if m in SetOf(ms) {
        assert m in SetOf(s);
        var i :| 0 <= i < |s| && s[i] == m;
        assert ds[i].manifest == m;
      }
    }
  }

  /** Builds the prune plan. */
  method Compute(ms: seq<Manifest>, p: Policy) returns (plan: Plan)
    ensures PlanFor(plan, ms, p)
    ensures AllDistinct(ms) ==>
              && SetOf(Selected(plan.decisions, true)) == Retained(SetOf(ms), p)
              && SetOf(Selected(plan.decisions, false)) == SetOf(ms) - Retained(SetOf(ms), p)
  {
    plan := BuildPlan(ms, p);
    if AllDistinct(ms) {
      hide KeepsId, KeepsEverything, NewestFirst, AllDistinct, Decided, ReasonsGiven;
      PlanRefinesSpec(plan.decisions, ms, p);
    }
  }
}
