/** Retention under concurrency: with one policy, pruners that work from stale snapshots never remove
    anything the policy keeps of all backups ever recorded. */
module ProtocolLedger {
  import opened Artifact
  import opened Manifests
  import opened Protocol
  import opened ProtocolRuns
  import opened ProtocolSafety
  import opened ProtocolSteps
  import opened Prune
  import opened Retention
  import opened RetentionSpec
  import opened Runner
  import opened Storage
  import opened Strings
  import opened Timestamp

  // ---- The ledger ----

  /** The latest records: those of the store, and of the backups that are gone the ones noted before. */
  ghost function Updated(all: Backups, stored: Backups): Backups {
    stored + set x | x in all && forall m :: m in stored ==> m.id != x.id
  }

  /** The latest record of every backup that was in the store up to state i. */
  ghost function EverRecorded(states: seq<State>, i: nat): Backups
    requires i < |states|
  {
    if i == 0 then Catalog(states[0].objects) else Updated(EverRecorded(states, i - 1), Catalog(states[i].objects))
  }

  ghost predicate UniqueIds(all: Backups) {
    forall x, y :: x in all && y in all && x.id == y.id ==> x == y
  }

  /** A manifest a pruner has read is still the latest record, unless it is the unverified newest backup of
      its listing, which may have been verified since. */
  ghost predicate GotLedger(all: Backups, m: Manifest, top: int) {
    || m in all
    || (!m.Verified() && SecondOf(m.createdAt) == top && exists x :: x in all && x.id == m.id && x.createdAt == m.createdAt)
  }

  /** What a pruner is about to remove is recorded, and the policy discards it. */
  ghost predicate PrunerLedger(all: Backups, r: Pruner, p: Policy) {
    match r
    case Reading(_, got, top) => forall m :: m in got ==> GotLedger(all, m, top)
    case Deleting(todo, _) => forall m :: m in todo ==> m in all && m !in Retained(all, p)
  }

  ghost predicate LedgerInv(s: State, all: Backups, p: Policy) {
    && Retained(all, p) <= Catalog(s.objects) <= all
    && (forall x :: x in all ==> x.id == Id(x.createdAt) && SecondOf(x.createdAt) <= s.newest)
    && UniqueIds(all)
    && (InFlight(s.writer).Some? ==> forall x :: x in all ==> SecondOf(x.createdAt) < s.newest)
    && forall i :: i in s.pruners ==> PrunerLedger(all, s.pruners[i], p)
  }

  lemma LedgerDistinct(all: Backups)
    requires UniqueIds(all) && forall x :: x in all ==> x.id == Id(x.createdAt)
    ensures Distinct(all)
  {
    hide Id;
  }

  // ---- Steps that record nothing ----

  /** Losing discarded backups and gaining nothing leaves the ledger as it is. */
  lemma LedgerStays(s: State, t: State, all: Backups, p: Policy)
    requires LedgerInv(s, all, p)
    requires Retained(all, p) <= Catalog(t.objects) <= Catalog(s.objects) && s.newest <= t.newest
    requires InFlight(t.writer).Some? ==> (InFlight(s.writer).Some? || s.newest < t.newest)
    requires forall i :: i in t.pruners ==> (i in s.pruners && t.pruners[i] == s.pruners[i]) || PrunerLedger(all, t.pruners[i], p)
    ensures Updated(all, Catalog(t.objects)) == all && LedgerInv(t, all, p)
  {
    hide Catalog, Retained, SecondOf, Id, PrunerLedger;
  }

  lemma QuietLedger(cfg: Config, s: State, a: Action, all: Backups, p: Policy)
    requires Inv(cfg, s) && Step(cfg, s, a) && LedgerInv(s, all, p)
    requires Next(cfg, s, a).objects == s.objects
    requires !a.GetBackup? && !a.MakePlan? && !a.DeleteManifest? && !a.DeleteArtifact?
    ensures var t := Next(cfg, s, a); Updated(all, Catalog(t.objects)) == all && LedgerInv(t, all, p)
  {
    hide Inv, LedgerInv, Updated, Timely, SecondOf, Materializes, WellPlaced, Restorable, KeysUnder, Sweepable;
    KeptStored(s, all, p);
    LedgerStays(s, Next(cfg, s, a), all, p);
  }

  lemma KeptStored(s: State, all: Backups, p: Policy)
    requires LedgerInv(s, all, p)
    ensures Retained(all, p) <= Catalog(s.objects) <= all
  {
    hide Catalog, Retained;
  }

  lemma ArtifactLedger(cfg: Config, s: State, a: Action, all: Backups, p: Policy)
    requires Inv(cfg, s) && Step(cfg, s, a) && LedgerInv(s, all, p) && a.PutArtifact?
    ensures var t := Next(cfg, s, a); Updated(all, Catalog(t.objects)) == all && LedgerInv(t, all, p)
  {
    hide LedgerInv, Updated, SecondOf, Materializes, WellPlaced, Restorable, Catalog, PrunerInv, SweeperInv, Sound, ProvenInv;
    KeptStored(s, all, p);
    if a.reached {
      ArtifactStored(cfg, s, s.writer.m, s.writer.artifact);
    }
    LedgerStays(s, Next(cfg, s, a), all, p);
  }

  // ---- Steps of the pruners ----

  lemma ReadLedger(cfg: Config, s: State, a: Action, all: Backups, p: Policy)
    requires Inv(cfg, s) && Step(cfg, s, a) && LedgerInv(s, all, p) && a.GetBackup?
    ensures var t := Next(cfg, s, a); Updated(all, Catalog(t.objects)) == all && LedgerInv(t, all, p)
  {
    hide Inv, Updated, Timely, SecondOf, Retained, GotLedger;
    var (r, t) := (s.pruners[a.i], Next(cfg, s, a));
    var k := r.keys[|r.got|];
    assert s.objects[k].m in Catalog(s.objects);
    assert GotLedger(all, s.objects[k].m, r.top) by { Recent(all, s.objects[k].m, r.top); }
    assert PrunerLedger(all, r, p);
    LedgerStays(s, t, all, p);
  }

  lemma Recent(all: Backups, m: Manifest, top: int)
    requires m in all
    ensures GotLedger(all, m, top)
  {
  }

  lemma PlanLedger(cfg: Config, s: State, a: Action, all: Backups, p: Policy)
    requires Inv(cfg, s) && Step(cfg, s, a) && LedgerInv(s, all, p) && a.MakePlan? && a.p == p
    ensures var t := Next(cfg, s, a); Updated(all, Catalog(t.objects)) == all && LedgerInv(t, all, p)
  {
    hide StoreInv, ProvenInv, WriterInv, SweeperInv, Updated, Timely, PlanFor, Retained, Catalog, GotLedger;
    var (r, t) := (s.pruners[a.i], Next(cfg, s, a));
    assert PrunerInv(s, r) && PrunerLedger(all, r, p);
    forall m | m in Selected(a.plan.decisions, false)
      ensures m in all && m !in Retained(all, p)
    {
      DiscardedFromAll(s, r, all, p, a.plan, m);
    }
    LedgerStays(s, t, all, p);
  }

  /** What a plan discards of a stale snapshot, the policy discards of everything ever recorded. */
  lemma DiscardedFromAll(s: State, r: Pruner, all: Backups, p: Policy, plan: Plan, m: Manifest)
    requires r.Reading? && PrunerInv(s, r) && |r.got| == |r.keys| && PrunerLedger(all, r, p)
    requires UniqueIds(all) && forall x :: x in all ==> x.id == Id(x.createdAt)
    requires PlanFor(plan, r.got, p) && m in Selected(plan.decisions, false)
    ensures m in all && m !in Retained(all, p)
  {
    hide PrunerInv, PlanFor, Retained, Selected, SecondOf, Id, AllDistinct;
    GotDistinct(s, r);
    DiscardedOfSnapshot(r.got, p, plan, m);
    SnapshotDistinct(r.got);
    if forall g :: g in r.got ==> g in all {
      KeptInherited(all, SetOf(r.got), p);
    } else {
      var n :| n in r.got && n !in all;
      assert GotLedger(all, n, r.top);
      var x :| x in all && x.id == n.id && x.createdAt == n.createdAt;
      StaleIsNewest(s, r, all, n);
      NewestReplaced(SetOf(r.got), n, x, m, p);
      KeptInherited(all, SetOf(r.got) - {n} + {x}, p);
    }
  }

  lemma SnapshotDistinct(got: seq<Manifest>)
    requires AllDistinct(got)
    ensures Distinct(SetOf(got))
  {
  }

  /** Only the newest backup of a snapshot can be stale, and it was read unverified. */
  lemma StaleIsNewest(s: State, r: Pruner, all: Backups, n: Manifest)
    requires r.Reading? && PrunerInv(s, r) && (forall g :: g in r.got ==> GotLedger(all, g, r.top))
    requires n in r.got && n !in all
    ensures IsNewest(SetOf(r.got), n) && !n.Verified()
    ensures forall g :: g in r.got && g != n ==> g in all
  {
    hide PrunerInv, SecondOf, Id, WellPlaced;
    GotPlaced(s, r, n);
    assert GotLedger(all, n, r.top);
    forall g | g in r.got
      ensures g.createdAt <= n.createdAt && (g != n ==> g in all)
    {
      GotPlaced(s, r, g);
      SecondsOrder(g.createdAt, n.createdAt);
      IdInjective(g.createdAt, n.createdAt);
      SameGot(s, r, g, n);
    }
  }

  lemma SameGot(s: State, r: Pruner, g: Manifest, n: Manifest)
    requires r.Reading? && PrunerInv(s, r) && g in r.got && n in r.got
    ensures g.id == n.id ==> g == n
  {
    hide PrunerInv;
    GotDistinct(s, r);
    var i :| 0 <= i < |r.got| && r.got[i] == g;
    var j :| 0 <= j < |r.got| && r.got[j] == n;
  }

  lemma DeleteManifestLedger(cfg: Config, s: State, a: Action, all: Backups, p: Policy)
    requires Inv(cfg, s) && Step(cfg, s, a) && LedgerInv(s, all, p) && a.DeleteManifest?
    ensures var t := Next(cfg, s, a); Updated(all, Catalog(t.objects)) == all && LedgerInv(t, all, p)
  {
    hide LedgerInv, StoreInv, ProvenInv, WriterInv, SweeperInv, PrunerLedger, Updated, Timely, Retained, Catalog, Removable, ManifestKey, Expendable;
    var (r, t) := (s.pruners[a.i], Next(cfg, s, a));
    assert PrunerInv(s, r) && Removable(s, r.todo[0]);
    TodoLedger(s, all, p, a.i);
    KeptStored(s, all, p);
    if a.reached {
      RemovableExpendable(cfg, s, r.todo[0]);
      DiscardedDeleted(cfg, s, t, all, p, r.todo[0], ManifestKey(r.todo[0].id));
    }
    LedgerStays(s, t, all, p);
  }

  lemma DeleteArtifactLedger(cfg: Config, s: State, a: Action, all: Backups, p: Policy)
    requires Inv(cfg, s) && Step(cfg, s, a) && LedgerInv(s, all, p) && a.DeleteArtifact?
    ensures var t := Next(cfg, s, a); Updated(all, Catalog(t.objects)) == all && LedgerInv(t, all, p)
  {
    hide LedgerInv, StoreInv, ProvenInv, WriterInv, SweeperInv, PrunerLedger, Updated, Timely, Retained, Catalog, Removable, ManifestKey, Expendable;
    var (r, t) := (s.pruners[a.i], Next(cfg, s, a));
    assert PrunerInv(s, r) && Removable(s, r.todo[0]);
    TodoLedger(s, all, p, a.i);
    KeptStored(s, all, p);
    if a.reached {
      RemovableExpendable(cfg, s, r.todo[0]);
      DiscardedDeleted(cfg, s, t, all, p, r.todo[0], r.todo[0].artifactKey);
    }
    LedgerStays(s, t, all, p);
  }

  lemma TodoLedger(s: State, all: Backups, p: Policy, i: nat)
    requires LedgerInv(s, all, p) && i in s.pruners && s.pruners[i].Deleting? && s.pruners[i].todo != []
    ensures var todo := s.pruners[i].todo;
            && todo[0] in all && todo[0] !in Retained(all, p)
            && PrunerLedger(all, Deleting(todo, true), p) && PrunerLedger(all, Deleting(todo[1..], false), p)
  {
    hide Retained, Catalog, UniqueIds;
    assert PrunerLedger(all, s.pruners[i], p);
  }

  /** Deleting an object of a discarded backup deletes no manifest the policy keeps. */
  lemma DiscardedDeleted(cfg: Config, s: State, t: State, all: Backups, p: Policy, m: Manifest, k: string)
    requires StoreInv(cfg, s) && Expendable(s, k) && t.objects == s.objects - {k}
    requires LedgerInv(s, all, p) && m in all && m !in Retained(all, p)
    requires Removable(s, m) && k in {ManifestKey(m.id), m.artifactKey}
    ensures Retained(all, p) <= Catalog(t.objects) <= Catalog(s.objects)
  {
    hide StoreInv, Expendable, Catalog, Retained, ManifestKey, ArtifactKey, Id, SecondOf, PrunerLedger;
    StoreAfterDeletion(cfg, s, t, k);
    forall x: Manifest
      ensures ManifestKey(x.id) == ManifestKey(m.id) <==> x.id == m.id
      ensures ManifestKey(x.id) != ArtifactKey(m.id)
    {
      KeysDistinct(x.id, m.id);
    }
  }

  lemma SweepLedger(cfg: Config, s: State, a: Action, all: Backups, p: Policy)
    requires Inv(cfg, s) && Step(cfg, s, a) && LedgerInv(s, all, p) && a.SweepArtifact?
    ensures var t := Next(cfg, s, a); Updated(all, Catalog(t.objects)) == all && LedgerInv(t, all, p)
  {
    hide StoreInv, ProvenInv, WriterInv, PrunerInv, LedgerInv, Updated, Timely, Retained, Catalog, Expendable, HasPrefix, ManifestKey, Sweepable, Spared;
    var (w, t) := (s.sweepers[a.i], Next(cfg, s, a));
    assert SweeperInv(cfg, s, w);
    KeptStored(s, all, p);
    if a.reached {
      SweepableExpendable(cfg, s, w, w.todo[0]);
      StoreAfterDeletion(cfg, s, t, w.todo[0]);
      forall m: Manifest
        ensures ManifestKey(m.id) != w.todo[0]
      {
        KeysCarryIds(m.id);
      }
    }
    LedgerStays(s, t, all, p);
  }

  // ---- Steps that record ----

  lemma UpdatedByNew(all: Backups, stored: Backups, m: Manifest)
    requires stored <= all && UniqueIds(all) && forall x :: x in all ==> x.id != m.id
    ensures Updated(all, stored + {m}) == all + {m}
  {
  }

  lemma UpdatedByRecord(all: Backups, stored: Backups, n: Manifest, n': Manifest)
    requires stored <= all && UniqueIds(all) && n in stored && n'.id == n.id
    ensures Updated(all, stored - {n} + {n'}) == all - {n} + {n'}
  {
    assert n' in stored - {n} + {n'};
  }

  /** A new backup adds to the ledger and makes no plan wrong. */
  lemma LedgerGrows(s: State, t: State, all: Backups, p: Policy, m: Manifest)
    requires LedgerInv(s, all, p) && InFlight(s.writer).Some? && InFlight(t.writer).None?
    requires m.id == Id(m.createdAt) && SecondOf(m.createdAt) == s.newest == t.newest
    requires Catalog(t.objects) == Catalog(s.objects) + {m} && t.pruners == s.pruners
    ensures LedgerInv(t, Updated(all, Catalog(t.objects)), p)
  {
    hide Catalog, Retained, SecondOf, Id, PrunerLedger, Updated;
    forall x | x in all
      ensures x.id != m.id
    {
      IdInjective(x.createdAt, m.createdAt);
    }
    UpdatedByNew(all, Catalog(s.objects), m);
    KeptInherited(all + {m}, all, p);
    forall i | i in s.pruners
      ensures PrunerLedger(all + {m}, s.pruners[i], p)
    {
      PlansOutliveNew(all, s.pruners[i], p, m);
    }
  }

  lemma PlansOutliveNew(all: Backups, r: Pruner, p: Policy, m: Manifest)
    requires PrunerLedger(all, r, p)
    ensures PrunerLedger(all + {m}, r, p)
  {
    hide Retained, SecondOf;
    KeptInherited(all + {m}, all, p);
  }

  /** A verification record replaces the newest entry of the ledger and makes no plan wrong. */
  lemma LedgerReplaces(s: State, t: State, all: Backups, p: Policy, n: Manifest, n': Manifest)
    requires LedgerInv(s, all, p) && n in Catalog(s.objects) && !n.Verified() && SecondOf(n.createdAt) == s.newest == t.newest
    requires n' == n.(verification := n'.verification)
    requires Catalog(t.objects) == Catalog(s.objects) - {n} + {n'} && t.pruners == s.pruners && t.writer.Idle?
    requires forall i :: i in s.pruners ==> PrunerInv(s, s.pruners[i])
    ensures LedgerInv(t, Updated(all, Catalog(t.objects)), p)
  {
    hide Catalog, Retained, SecondOf, Id, PrunerLedger, PrunerInv, Updated;
    LedgerDistinct(all);
    UpdatedByRecord(all, Catalog(s.objects), n, n');
    OwnIsNewest(all, n, s.newest);
    forall m | m in Retained(all - {n} + {n'}, p)
      ensures m in Catalog(t.objects)
    {
      if m != n' && m !in Retained(all, p) {
        NewestReplaced(all, n, n', m, p);
      }
    }
    forall i | i in s.pruners
      ensures PrunerLedger(all - {n} + {n'}, s.pruners[i], p)
    {
      PlansOutliveRecord(s, all, s.pruners[i], p, n, n');
    }
  }

  lemma OwnIsNewest(all: Backups, n: Manifest, newest: int)
    requires n in all && SecondOf(n.createdAt) == newest && UniqueIds(all)
    requires forall x :: x in all ==> x.id == Id(x.createdAt) && SecondOf(x.createdAt) <= newest
    ensures IsNewest(all, n)
  {
    hide SecondOf, Id;
    forall x | x in all
      ensures x.createdAt <= n.createdAt
    {
      IdInjective(x.createdAt, n.createdAt);
      SecondsOrder(x.createdAt, n.createdAt);
    }
  }

  lemma PlansOutliveRecord(s: State, all: Backups, r: Pruner, p: Policy, n: Manifest, n': Manifest)
    requires PrunerLedger(all, r, p) && PrunerInv(s, r)
    requires Distinct(all) && IsNewest(all, n) && !n.Verified() && SecondOf(n.createdAt) == s.newest
    requires n' == n.(verification := n'.verification)
    ensures PrunerLedger(all - {n} + {n'}, r, p)
  {
    hide Retained, SecondOf, PrunerInv, Id;
    match r
    case Reading(_, got, top) =>
      forall m | m in got
        ensures GotLedger(all - {n} + {n'}, m, top)
      {
        GotPlaced(s, r, m);
        assert GotLedger(all, m, top);
        assert n' in all - {n} + {n'};
      }
    case Deleting(todo, _) =>
      forall m | m in todo
        ensures m in all - {n} + {n'} && m !in Retained(all - {n} + {n'}, p)
      {
        NewestReplaced(all, n, n', m, p);
      }
  }

  lemma PutManifestLedger(cfg: Config, s: State, a: Action, all: Backups, p: Policy)
    requires Inv(cfg, s) && Step(cfg, s, a) && LedgerInv(s, all, p) && a.PutManifest? && a.reached
    ensures var t := Next(cfg, s, a); LedgerInv(t, Updated(all, Catalog(t.objects)), p)
  {
    hide LedgerInv, Updated, SecondOf, Id, Materializes, Restorable, Catalog, PrunerInv, SweeperInv, Sound, ProvenInv;
    ManifestStored(cfg, s, s.writer.m);
    LedgerGrows(s, Next(cfg, s, a), all, p, s.writer.m);
  }

  lemma SaveRecordLedger(cfg: Config, s: State, a: Action, all: Backups, p: Policy)
    requires Inv(cfg, s) && Step(cfg, s, a) && LedgerInv(s, all, p) && a.SaveRecord? && a.reached
    ensures var t := Next(cfg, s, a); LedgerInv(t, Updated(all, Catalog(t.objects)), p)
  {
    hide LedgerInv, Updated, SecondOf, Id, Restorable, Catalog, PrunerInv, SweeperInv, Sound, ProvenInv, WellPlaced;
    var n := s.writer.m;
    var n' := n.(verification := a.v);
    RecordSaved(cfg, s, n, n');
    LedgerReplaces(s, Next(cfg, s, a), all, p, n, n');
  }

  // ---- Every step, every run ----

  /** A plan is made under the one policy. */
  predicate Under(a: Action, p: Policy) {
    a.MakePlan? ==> a.p == p
  }

  lemma StepKeepsLedger(cfg: Config, s: State, a: Action, all: Backups, p: Policy)
    requires Inv(cfg, s) && Step(cfg, s, a) && LedgerInv(s, all, p) && Under(a, p)
    ensures var t := Next(cfg, s, a); LedgerInv(t, Updated(all, Catalog(t.objects)), p)
  {
    hide Inv, LedgerInv, Updated, Step;
    match a
    case PutArtifact(_, _) => ArtifactLedger(cfg, s, a, all, p);
    case PutManifest(_, reached) =>
      if reached { PutManifestLedger(cfg, s, a, all, p); } else { QuietLedger(cfg, s, a, all, p); }
    case SaveRecord(_, reached) =>
      if reached { SaveRecordLedger(cfg, s, a, all, p); } else { QuietLedger(cfg, s, a, all, p); }
    case GetBackup(_) => ReadLedger(cfg, s, a, all, p);
    case MakePlan(_, _, _) => PlanLedger(cfg, s, a, all, p);
    case DeleteManifest(_, _, _) => DeleteManifestLedger(cfg, s, a, all, p);
    case DeleteArtifact(_, _) => DeleteArtifactLedger(cfg, s, a, all, p);
    case SweepArtifact(_, _) => SweepLedger(cfg, s, a, all, p);
    case _ => QuietLedger(cfg, s, a, all, p);
  }

  lemma {:induction false} RunLedger(cfg: Config, states: seq<State>, actions: seq<Action>, i: nat, p: Policy)
    requires IsRun(cfg, states, actions) && i < |states| && forall j :: 0 <= j < |actions| ==> Under(actions[j], p)
    ensures LedgerInv(states[i], EverRecorded(states, i), p)
  {
    hide Init, Inv, Step, Next, LedgerInv, Under, Updated;
    if i == 0 {
      StartLedger(cfg, states[0], p);
    } else {
      RunLedger(cfg, states, actions, i - 1, p);
      RunInv(cfg, states, actions, i - 1);
      StepKeepsLedger(cfg, states[i - 1], actions[i - 1], EverRecorded(states, i - 1), p);
    }
  }

  lemma StartLedger(cfg: Config, s: State, p: Policy)
    requires Init(cfg, s)
    ensures LedgerInv(s, Catalog(s.objects), p)
  {
    hide Catalog, Retained, Sound, SecondOf, Id, WellPlaced;
    Stored(cfg, s);
    StoredUnique(cfg, s);
  }

  lemma StoredUnique(cfg: Config, s: State)
    requires StoreInv(cfg, s)
    ensures UniqueIds(Catalog(s.objects))
  {
    hide Catalog, WellPlaced;
    CatalogDistinct(s.objects);
  }

  /** Online pruning equals offline pruning under every interleaving: with one policy for all pruners, the
      store holds in every state everything the policy keeps of all backups ever recorded, and keeping by
      the policy now would keep exactly that. */
  lemma NothingKeptIsLost(cfg: Config, states: seq<State>, actions: seq<Action>, i: nat, p: Policy)
    requires IsRun(cfg, states, actions) && i < |states| && forall j :: 0 <= j < |actions| ==> Under(actions[j], p)
    ensures var all, stored := EverRecorded(states, i), Catalog(states[i].objects);
            Retained(all, p) == Retained(stored, p) <= stored <= all
  {
    hide IsRun, Retained, Catalog, SecondOf, Id, PrunerLedger, UniqueIds, EverRecorded, Under;
    RunLedger(cfg, states, actions, i, p);
    LedgerDistinct(EverRecorded(states, i));
    DiscardedIrrelevant(EverRecorded(states, i), Catalog(states[i].objects), p);
  }

  /** The ledger holds the latest record of each backup and forgets none. */
  lemma {:induction false} LedgerComplete(states: seq<State>, j: nat, i: nat, m: Manifest)
    requires j <= i < |states| && m in Catalog(states[j].objects)
    ensures exists x :: x in EverRecorded(states, i) && x.id == m.id
  {
    hide Catalog;
    if j == i {
      assert m in EverRecorded(states, i);
    } else {
      LedgerComplete(states, j, i - 1, m);
      var x :| x in EverRecorded(states, i - 1) && x.id == m.id;
      if forall y :: y in Catalog(states[i].objects) ==> y.id != x.id {
        assert x in EverRecorded(states, i);
      } else {
        var y :| y in Catalog(states[i].objects) && y.id == x.id;
        assert y in EverRecorded(states, i);
      }
    }
  }
}
