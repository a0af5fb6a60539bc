/** The operations of the sequential modules, run without interruption, are steps of the protocol: from the
    same store they lead to the same store, and leave their actor where the operation ends. */
module ProtocolLinks {
  import opened Artifact
  import Backup
  import Bytes
  import opened Framing
  import opened Manifests
  import opened Protocol
  import opened ProtocolPaths
  import opened Prune
  import opened Retention
  import RetentionSpec
  import opened Runner
  import opened Storage
  import opened Strings
  import TempFiles
  import opened Timestamp
  import opened Verify
  import opened Wrappers

  // ---- The writer ----

  function BackupActions(m: Manifest, artifact: seq<Bytes.byte>, steps: nat, ok: bool): seq<Action> {
    [Begin(m, artifact), PutArtifact(steps > 0, steps > 0)] + if steps > 0 then [PutManifest(ok, steps == 2)] else []
  }

  /** Whatever Backup.Run may leave in the store, the protocol's writer leaves by the same writes, with the
      manifest at hand if the backup succeeded. */
  lemma BackupIsSteps(cfg: Config, s: State, nonces: nat -> Nonce, m: Manifest, dump: seq<Bytes.byte>,
                      artifact: seq<Bytes.byte>, steps: nat, ok: bool)
    requires cfg.suite.Lawful() && |cfg.key| == KEY_SIZE
    requires s.writer.Idle? && SecondOf(s.clock) > s.newest
    requires artifact == Encoding(cfg.suite, cfg.key, nonces, dump) && Backup.Describes(cfg.suite, m, s.clock, dump, artifact)
    requires steps <= 2 && (ok ==> steps == 2)
    ensures Leads(cfg, s, BackupActions(m, artifact, steps, ok),
                  s.(objects := Backup.AfterSteps(s.objects, m, artifact, steps),
                     newest := SecondOf(s.clock),
                     writer := if ok then Recorded(m) else Idle))
  {
    hide Materializes, Encoding, Id, Suite.Lawful, Leads, SecondOf, WellPlaced;
    DescribedPlaced(cfg.suite, m, s.clock, dump, artifact);
    Backup.BackupMaterializes(cfg.suite, cfg.key, nonces, m, s.clock, dump, artifact);
    var t := s.(objects := Backup.AfterSteps(s.objects, m, artifact, steps), newest := SecondOf(s.clock),
                writer := if ok then Recorded(m) else Idle);
    var a := BackupActions(m, artifact, steps, ok);
    var s1 := Next(cfg, s, a[0]);
    var s2 := Next(cfg, s1, a[1]);
    if steps > 0 {
      LeadsEnd(cfg, s2, a[2], t);
    } else {
      LeadsNowhere(cfg, t);
    }
    assert a == [a[0]] + a[1..] && a[1..] == [a[1]] + a[2..];
    LeadsStep(cfg, s1, a[1], a[2..], t);
    LeadsStep(cfg, s, a[0], a[1..], t);
  }

  function VerifyActions(saved: Option<Manifest>): seq<Action> {
    match saved
    case None => [Crash]
    case Some(m) => [LoadBack, FetchBack(m.verification.checksumOk), SaveRecord(m.verification, true)]
  }

  /** Whatever record Verify.Run saves on the writer's backup, the protocol saves, and it notes a proof exactly
      when the record says verified; a verification that saves nothing is a crash. */
  lemma VerifyIsSteps(cfg: Config, s: State, sb: Sandbox, disk: TempFiles.Disk, now: Instant, m: Manifest, saved: Option<Manifest>)
    requires s.writer == Recorded(m) && ManifestKey(m.id) in s.objects && s.objects[ManifestKey(m.id)] == Record(m)
    requires saved.Some? ==> Reproved(cfg.suite, cfg.key, s.objects, sb, disk, now, m, saved.value)
    ensures Leads(cfg, s, VerifyActions(saved),
                  s.(objects := AfterSave(s.objects, saved),
                     proven := s.proven + (if saved.Some? && saved.value.Verified() then {saved.value} else {}),
                     writer := Idle))
  {
    hide Restorable, Leads, Records;
    var t := s.(objects := AfterSave(s.objects, saved), writer := Idle,
                proven := s.proven + (if saved.Some? && saved.value.Verified() then {saved.value} else {}));
    assert s.proven + {} == s.proven;
    var a := VerifyActions(saved);
    if saved.None? {
      LeadsEnd(cfg, s, a[0], t);
    } else {
      var s1 := Next(cfg, s, a[0]);
      var s2 := Next(cfg, s1, a[1]);
      assert [a[0]] + [a[1], a[2]] == a && [a[1]] + [a[2]] == [a[1], a[2]];
      LeadsEnd(cfg, s2, a[2], t);
      LeadsStep(cfg, s1, a[1], [a[2]], t);
      LeadsStep(cfg, s, a[0], [a[1], a[2]], t);
    }
  }

  // ---- Pruners ----

  /** The state in which a pruner has read the first n of some manifests. */
  ghost function HavingRead(s: State, i: nat, keys: seq<string>, ms: seq<Manifest>, n: nat): State
    requires n <= |ms|
  {
    s.(pruners := s.pruners[i := Reading(keys, ms[..n], s.newest)])
  }

  /** Whatever Artifact.LoadAll reads, the protocol's pruner reads by a listing and one read for each key. */
  lemma LoadIsSteps(cfg: Config, s: State, i: nat, keys: seq<string>, ms: seq<Manifest>) returns (actions: seq<Action>)
    requires i !in s.pruners && Listed(s.objects, keys, ms)
    ensures Leads(cfg, s, actions, HavingRead(s, i, keys, ms, |ms|)) && |actions| == 1 + |keys|
  {
    hide HasPrefix, Ascending;
    var gets := ReadsAreSteps(cfg, s, i, keys, ms, 0);
    actions := [ListBackups(i, keys)] + gets;
    assert HavingRead(s, i, keys, ms, 0) == Next(cfg, s, ListBackups(i, keys)) by {
      assert ms[..0] == [];
    }
    assert actions[1..] == gets;
  }

  lemma {:induction false} ReadsAreSteps(cfg: Config, s: State, i: nat, keys: seq<string>, ms: seq<Manifest>, n: nat)
    returns (actions: seq<Action>)
    requires Listed(s.objects, keys, ms) && n <= |ms|
    ensures Leads(cfg, HavingRead(s, i, keys, ms, n), actions, HavingRead(s, i, keys, ms, |ms|)) && |actions| == |ms| - n
    decreases |ms| - n
  {
    hide HasPrefix, Ascending;
    if n == |ms| {
      actions := [];
    } else {
      var rest := ReadsAreSteps(cfg, s, i, keys, ms, n + 1);
      actions := [GetBackup(i)] + rest;
      ReadIsStep(cfg, s, i, keys, ms, n);
      assert actions[1..] == rest;
    }
  }

  lemma ReadIsStep(cfg: Config, s: State, i: nat, keys: seq<string>, ms: seq<Manifest>, n: nat)
    requires Listed(s.objects, keys, ms) && n < |ms|
    ensures Enabled(cfg, HavingRead(s, i, keys, ms, n), GetBackup(i))
    ensures Next(cfg, HavingRead(s, i, keys, ms, n), GetBackup(i)) == HavingRead(s, i, keys, ms, n + 1)
  {
    hide HasPrefix, Ascending;
    assert ms[..n + 1] == ms[..n] + [ms[n]];
    var t := HavingRead(s, i, keys, ms, n);
    assert t.pruners[i := Reading(keys, ms[..n + 1], s.newest)] == s.pruners[i := Reading(keys, ms[..n + 1], s.newest)];
  }

  function DeletionActions(i: nat, m: Manifest, o: Outcome): seq<Action> {
    if o.failure == Some(ManifestFailed(m.id)) then [DeleteManifest(i, false, ManifestKey(m.id) in o.taken)]
    else [DeleteManifest(i, true, true), DeleteArtifact(i, m.artifactKey in o.taken)]
  }

  /** A pruner at work: some keys gone, and some backups still to delete. */
  ghost function Working(s: State, i: nat, gone: set<string>, todo: seq<Manifest>): State {
    s.(objects := s.objects - gone, pruners := s.pruners[i := Deleting(todo, false)])
  }

  /** Whatever Prune.DeleteBackup takes from the store, the protocol's pruner takes by the same deletions. */
  lemma DeletionIsSteps(cfg: Config, s: State, i: nat, todo: seq<Manifest>, o: Outcome)
    requires i in s.pruners && todo != [] && s.pruners[i] == Deleting(todo, false) && Possible(todo[0], o)
    ensures Leads(cfg, s, DeletionActions(i, todo[0], o), Working(s, i, o.taken, todo[1..]))
  {
    hide ManifestKey, Leads;
    var (m, a, t) := (todo[0], DeletionActions(i, todo[0], o), Working(s, i, o.taken, todo[1..]));
    var s1 := Next(cfg, s, a[0]);
    TakenInTurn(s.objects, m, o);
    if |a| == 1 {
      LeadsEnd(cfg, s, a[0], t);
    } else {
      assert s1.pruners[i := Deleting(todo[1..], false)] == t.pruners;
      LeadsEnd(cfg, s1, a[1], t);
      LeadsStep(cfg, s, a[0], [a[1]], t);
      assert [a[0]] + [a[1]] == a;
    }
  }

  lemma TakenInTurn(objects: Objects, m: Manifest, o: Outcome)
    requires Possible(m, o)
    ensures o.failure == Some(ManifestFailed(m.id)) ==>
              objects - o.taken == if ManifestKey(m.id) in o.taken then objects - {ManifestKey(m.id)} else objects
    ensures o.failure != Some(ManifestFailed(m.id)) ==>
              objects - o.taken == if m.artifactKey in o.taken then objects - {ManifestKey(m.id)} - {m.artifactKey}
                                   else objects - {ManifestKey(m.id)}
  {
    hide ManifestKey;
  }

  /** Whatever Prune.Apply takes from the store, the protocol's pruner takes one deletion after the other, until
      nothing of the plan is left to do. */
  lemma {:induction false} DeletionsAreSteps(cfg: Config, s: State, i: nat, todo: seq<Manifest>, outcomes: seq<Outcome>)
    returns (actions: seq<Action>)
    requires i in s.pruners && s.pruners[i] == Deleting(todo, false) && Outcomes(todo, outcomes)
    ensures Leads(cfg, s, actions, Working(s, i, Taken(outcomes), []))
    decreases |todo|
  {
    hide Possible, Leads, Taken;
    if todo == [] {
      actions := [];
      NothingTaken(s.objects, outcomes);
      assert s.pruners[i := Deleting([], false)] == s.pruners;
      LeadsNowhere(cfg, s);
    } else {
      var (o, first) := (outcomes[0], DeletionActions(i, todo[0], outcomes[0]));
      var s1 := Working(s, i, o.taken, todo[1..]);
      DeletionIsSteps(cfg, s, i, todo, o);
      var rest := DeletionsAreSteps(cfg, s1, i, todo[1..], outcomes[1..]);
      FirstTaken(s.objects, outcomes);
      assert s1.pruners[i := Deleting([], false)] == s.pruners[i := Deleting([], false)];
      LeadsOn(cfg, s, first, s1, rest, Working(s, i, Taken(outcomes), []));
      actions := first + rest;
    }
  }

  lemma NothingTaken(objects: Objects, outcomes: seq<Outcome>)
    requires outcomes == []
    ensures objects - Taken(outcomes) == objects
  {
  }

  lemma FirstTaken(objects: Objects, outcomes: seq<Outcome>)
    requires outcomes != []
    ensures objects - Taken(outcomes) == objects - outcomes[0].taken - Taken(outcomes[1..])
  {
    TakenParts(outcomes[0], outcomes[1..]);
    assert outcomes == [outcomes[0]] + outcomes[1..];
  }

  lemma {:induction false} TakenParts(o: Outcome, outcomes: seq<Outcome>)
    ensures Taken([o] + outcomes) == o.taken + Taken(outcomes)
  {
    var all := [o] + outcomes;
    if outcomes == [] {
      assert all[..0] == [] && Taken([]) == {};
    } else {
      var n := |outcomes| - 1;
      TakenParts(o, outcomes[..n]);
      assert all[..n + 1] == [o] + outcomes[..n];
    }
  }

  /** A plan carried out is steps of the protocol: from the moment a pruner has read all its keys, making the
      plan and deleting, however each deletion turns out, ends in the store Prune.Apply leaves, with nothing
      left to do. */
  lemma PlanIsSteps(cfg: Config, s: State, i: nat, p: RetentionSpec.Policy, plan: Plan, outcomes: seq<Outcome>)
    returns (actions: seq<Action>)
    requires i in s.pruners && s.pruners[i].Reading? && |s.pruners[i].got| == |s.pruners[i].keys|
    requires PlanFor(plan, s.pruners[i].got, p) && Outcomes(Selected(plan.decisions, false), outcomes)
    ensures Leads(cfg, s, actions, Working(s, i, Taken(outcomes), []))
  {
    hide PlanFor, Selected, Outcomes, Taken, Leads;
    var todo := Selected(plan.decisions, false);
    var s1 := Next(cfg, s, MakePlan(i, p, plan));
    var rest := DeletionsAreSteps(cfg, s1, i, todo, outcomes);
    assert s1.pruners[i := Deleting([], false)] == s.pruners[i := Deleting([], false)];
    LeadsStep(cfg, s, MakePlan(i, p, plan), rest, Working(s, i, Taken(outcomes), []));
    actions := [MakePlan(i, p, plan)] + rest;
  }

  /** A whole prune run without interruption: the listing, the reads, the plan and the deletions. */
  lemma PruneIsSteps(cfg: Config, s: State, i: nat, keys: seq<string>, ms: seq<Manifest>, p: RetentionSpec.Policy, plan: Plan,
                     outcomes: seq<Outcome>)
    returns (actions: seq<Action>)
    requires i !in s.pruners && Listed(s.objects, keys, ms)
    requires PlanFor(plan, ms, p) && Outcomes(Selected(plan.decisions, false), outcomes)
    ensures Leads(cfg, s, actions, Working(s, i, Taken(outcomes), []))
  {
    hide PlanFor, Selected, Outcomes, Taken, Leads, Ascending, HasPrefix;
    var loads := LoadIsSteps(cfg, s, i, keys, ms);
    assert ms[..|ms|] == ms;
    var s1 := HavingRead(s, i, keys, ms, |ms|);
    var rest := PlanIsSteps(cfg, s1, i, p, plan, outcomes);
    assert s1.pruners[i := Deleting([], false)] == s.pruners[i := Deleting([], false)];
    LeadsOn(cfg, s, loads, s1, rest, Working(s, i, Taken(outcomes), []));
    actions := loads + rest;
  }

  // ---- Sweepers ----

  /** The ids Prune.LiveIds collects from a listing are those the protocol's sweeper notes. */
  lemma LiveIdsAreNoted(objects: Objects, keys: seq<string>, live: set<string>)
    requires forall k :: k in keys <==> k in objects && HasPrefix(k, MANIFEST_DIR)
    requires forall id :: id in live <==> exists k :: k in keys && IdInManifestKey(k) == id
    ensures live == LiveIdsOf(objects)
  {
    hide HasPrefix, IdInManifestKey;
  }

  /** Whatever Prune.SweepKey does about a key, the protocol's sweeper does in one step. */
  lemma SweepIsStep(cfg: Config, s: State, i: nat, o: Swipe, taken: set<string>)
    requires i in s.sweepers && s.sweepers[i].Sweeping? && s.sweepers[i].todo != []
    requires var w := s.sweepers[i];
             && taken <= {w.todo[0]} && (o.Passed? ==> taken == {})
             && (o.Passed? <==> !Sweepable(w.todo[0], w.live, cfg.minAge, w.now))
    ensures var a := if o.Passed? then SkipArtifact(i) else SweepArtifact(i, taken != {});
            var w := s.sweepers[i];
            && Enabled(cfg, s, a)
            && Next(cfg, s, a) == At(s, i, taken, w.now, w.live, w.todo[1..])
  {
    hide Sweepable;
    assert s.objects - {} == s.objects;
    if taken != {} {
      assert taken == {s.sweepers[i].todo[0]};
    }
  }

  /** A sweeper at work: some keys gone, and some still to look at. */
  ghost function At(s: State, i: nat, gone: set<string>, now: Instant, live: set<string>, todo: seq<string>): State {
    s.(objects := s.objects - gone, sweepers := s.sweepers[i := Sweeping(now, live, todo)])
  }

  /** Whatever Prune.DeleteOrphans takes from the store, the protocol's sweeper takes key by key. */
  lemma {:induction false} SweepsAreSteps(cfg: Config, s: State, i: nat, now: Instant, live: set<string>, todo: seq<string>,
                                          gone: set<string>)
    returns (actions: seq<Action>)
    requires i in s.sweepers && s.sweepers[i] == Sweeping(now, live, todo)
    requires gone <= Doomed(todo, live, cfg.minAge, now)
    ensures Leads(cfg, s, actions, At(s, i, gone, now, live, []))
    decreases |todo|
  {
    hide Sweepable, Leads;
    if todo == [] {
      actions := [];
      assert s.objects - gone == s.objects;
      assert s.sweepers[i := Sweeping(now, live, [])] == s.sweepers;
      LeadsNowhere(cfg, s);
    } else {
      var k := todo[0];
      var taken := gone * {k};
      var o := if Sweepable(k, live, cfg.minAge, now) then Reclaimed(0) else Passed;
      var a := if o.Passed? then SkipArtifact(i) else SweepArtifact(i, taken != {});
      SweepIsStep(cfg, s, i, o, taken);
      var s1 := At(s, i, taken, now, live, todo[1..]);
      var rest := SweepsAreSteps(cfg, s1, i, now, live, todo[1..], gone - {k});
      assert s.objects - taken - (gone - {k}) == s.objects - gone;
      assert s1.sweepers[i := Sweeping(now, live, [])] == s.sweepers[i := Sweeping(now, live, [])];
      LeadsStep(cfg, s, a, rest, At(s, i, gone, now, live, []));
      actions := [a] + rest;
    }
  }

  /** A whole sweep run without interruption: both listings, and every key in turn. Whatever
      Prune.SweepOrphans takes from the store, the protocol's sweeper takes, until nothing is left to do. */
  lemma SweepAllIsSteps(cfg: Config, s: State, i: nat, keys: seq<string>, gone: set<string>) returns (actions: seq<Action>)
    requires cfg.sweeping && i !in s.sweepers && KeysUnder(s.objects, ARTIFACT_DIR, keys)
    requires gone <= Orphans(s.objects, cfg.minAge, s.clock)
    ensures Leads(cfg, s, actions, At(s, i, gone, s.clock, LiveIdsOf(s.objects), []))
  {
    hide Sweepable, OldEnough, IdInArtifactKey, IdInManifestKey, HasPrefix, Ascending, Leads, LiveIdsOf, Doomed, Orphans;
    var (now, live) := (s.clock, LiveIdsOf(s.objects));
    var s1 := Next(cfg, s, StartSweep(i));
    var s2 := Next(cfg, s1, ListLive(i));
    var s3 := Next(cfg, s2, ListArtifacts(i, keys));
    var t := At(s, i, gone, now, live, []);
    OrphansDoomed(s.objects, keys, cfg.minAge, now);
    var rest := SweepsAreSteps(cfg, s3, i, now, live, keys, gone);
    assert s3.sweepers[i := Sweeping(now, live, [])] == t.sweepers;
    LeadsStep(cfg, s2, ListArtifacts(i, keys), rest, t);
    LeadsStep(cfg, s1, ListLive(i), [ListArtifacts(i, keys)] + rest, t);
    LeadsStep(cfg, s, StartSweep(i), [ListLive(i)] + ([ListArtifacts(i, keys)] + rest), t);
    actions := [StartSweep(i)] + ([ListLive(i)] + ([ListArtifacts(i, keys)] + rest));
  }

  /** The orphans of a resting store are the listed keys its live ids doom. */
  lemma OrphansDoomed(objects: Objects, keys: seq<string>, minAge: Duration, now: Instant)
    requires KeysUnder(objects, ARTIFACT_DIR, keys)
    ensures Orphans(objects, minAge, now) == Doomed(keys, LiveIdsOf(objects), minAge, now)
  {
    hide OldEnough, IdInArtifactKey, IdInManifestKey, HasPrefix, Ascending;
    forall k
      ensures Claimed(objects, IdInArtifactKey(k)) <==> IdInArtifactKey(k) in LiveIdsOf(objects)
    {
    }
  }

  // ---- Interruptions ----

  /** Whatever state the run is in, each actor can stop where it is, and time can pass, with no other effect. */
  lemma AnyoneMayStop(cfg: Config, s: State, i: nat, t: Instant)
    ensures Leads(cfg, s, [Crash], s.(writer := Idle))
    ensures i in s.pruners ==> Leads(cfg, s, [StopPruner(i)], s.(pruners := s.pruners - {i}))
    ensures i in s.sweepers ==> Leads(cfg, s, [StopSweep(i)], s.(sweepers := s.sweepers - {i}))
    ensures t >= s.clock ==> Leads(cfg, s, [Tick(t)], s.(clock := t))
  {
    hide Leads;
    LeadsEnd(cfg, s, Crash, s.(writer := Idle));
    if i in s.pruners {
      LeadsEnd(cfg, s, StopPruner(i), s.(pruners := s.pruners - {i}));
    }
    if i in s.sweepers {
      LeadsEnd(cfg, s, StopSweep(i), s.(sweepers := s.sweepers - {i}));
    }
    if t >= s.clock {
      LeadsEnd(cfg, s, Tick(t), s.(clock := t));
    }
  }

  /** The actor of a step is where it was. */
  ghost predicate SameActor(s: State, t: State, a: Action) {
    match a
    case Tick(_) => t.clock <= s.clock
    case Begin(_, _) => t.writer == s.writer && t.clock == s.clock && t.newest == s.newest
    case PutArtifact(_, _) => t.writer == s.writer
    case PutManifest(_, _) => t.writer == s.writer
    case LoadBack => t.writer == s.writer
    case FetchBack(_) => t.writer == s.writer
    case SaveRecord(_, _) => t.writer == s.writer
    case Crash => t.writer == s.writer
    case ListBackups(i, _) => SamePruner(s, t, i)
    case GetBackup(i) => SamePruner(s, t, i)
    case MakePlan(i, _, _) => SamePruner(s, t, i)
    case DeleteManifest(i, _, _) => SamePruner(s, t, i)
    case DeleteArtifact(i, _) => SamePruner(s, t, i)
    case StopPruner(i) => SamePruner(s, t, i)
    case StartSweep(i) => SameSweeper(s, t, i)
    case ListLive(i) => SameSweeper(s, t, i)
    case ListArtifacts(i, _) => SameSweeper(s, t, i)
    case SkipArtifact(i) => SameSweeper(s, t, i)
    case SweepArtifact(i, _) => SameSweeper(s, t, i)
    case StopSweep(i) => SameSweeper(s, t, i)
  }

  ghost predicate SamePruner(s: State, t: State, i: nat) {
    if i in s.pruners then i in t.pruners && t.pruners[i] == s.pruners[i] else i !in t.pruners
  }

  ghost predicate SameSweeper(s: State, t: State, i: nat) {
    if i in s.sweepers then i in t.sweepers && t.sweepers[i] == s.sweepers[i] else i !in t.sweepers
  }

  /** Nothing the others do holds an actor up: a step that was possible stays possible, except that what is
      read must be there, a listing shows what is there then, and an artifact read in full must still be. */
  lemma OthersNeverBlock(cfg: Config, s: State, t: State, a: Action)
    requires Enabled(cfg, s, a) && SameActor(s, t, a)
    ensures match a
            case ListBackups(i, _) => forall keys :: KeysUnder(t.objects, MANIFEST_DIR, keys) ==> Enabled(cfg, t, ListBackups(i, keys))
            case ListArtifacts(i, _) => forall keys :: KeysUnder(t.objects, ARTIFACT_DIR, keys) ==> Enabled(cfg, t, ListArtifacts(i, keys))
            case GetBackup(i) =>
              var k := s.pruners[i].keys[|s.pruners[i].got|];
              k in t.objects && t.objects[k].Record? ==> Enabled(cfg, t, a)
            case LoadBack =>
              var k := ManifestKey(s.writer.m.id);
              k in t.objects && t.objects[k].Record? ==> Enabled(cfg, t, a)
            case FetchBack(good) =>
              Enabled(cfg, t, FetchBack(false)) && (Restorable(cfg.suite, cfg.key, s.writer.m, t.objects) ==> Enabled(cfg, t, a))
            case _ => Enabled(cfg, t, a)
  {
    hide KeysUnder, Restorable, PlanFor, Coherent, Materializes, Sweepable, WellPlaced, ManifestKey;
  }
}
