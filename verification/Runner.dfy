/** One full cycle: backup, verify, check coverage, prune. */
module Runner {
  import opened Artifact
  import Backup
  import opened Bytes
  import Check
  import opened Crypto
  import opened Framing
  import opened Manifests
  import opened Prune
  import opened Retention
  import opened RetentionSpec
  import opened Storage
  import Strings
  import opened TempFiles
  import opened Timestamp
  import opened Verify
  import opened Wrappers

  // ---- Observables ----

  datatype Status = Unknown | Succeeded | FailedStatus

  datatype Health = Starting | Ok200 | Unhealthy503

  /** The in-memory state behind /healthz and /metrics. */
  class Tracker {
    var lastBackupStatus: Status
    var lastBackupSize: nat
    var lastVerifyStatus: Status
    var lastTableCount: int
    var checked: bool
    var lastCheckHealthy: bool
    var lastVerifiedBackup: Option<Instant>

    constructor ()
      ensures Healthz() == Starting
    {
      lastBackupStatus, lastBackupSize := Unknown, 0;
      lastVerifyStatus, lastTableCount := Unknown, 0;
      checked, lastCheckHealthy, lastVerifiedBackup := false, false, None;
    }

    /** The answer of /healthz. */
    function Healthz(): Health
      reads this
    {
      if !checked then Starting else if lastCheckHealthy then Ok200 else Unhealthy503
    }

    /** Backup and verify results never move the coverage answer. */
    method RecordBackup(success: bool, size: nat)
      modifies this`lastBackupStatus, this`lastBackupSize
      ensures lastBackupStatus == (if success then Succeeded else FailedStatus) && lastBackupSize == size
    {
      lastBackupSize := size;
      if success {
        lastBackupStatus := Succeeded;
      } else {
        lastBackupStatus := FailedStatus;
      }
    }

    method RecordVerify(success: bool, tableCount: int)
      modifies this`lastVerifyStatus, this`lastTableCount
      ensures lastVerifyStatus == (if success then Succeeded else FailedStatus) && lastTableCount == tableCount
    {
      lastTableCount := tableCount;
      if success {
        lastVerifyStatus := Succeeded;
      } else {
        lastVerifyStatus := FailedStatus;
      }
    }

    method RecordCheck(healthy: bool, lastVerified: Option<Instant>)
      modifies this`checked, this`lastCheckHealthy, this`lastVerifiedBackup
      ensures Healthz() == (if healthy then Ok200 else Unhealthy503) && lastVerifiedBackup == lastVerified
    {
      checked := true;
      lastCheckHealthy := healthy;
      lastVerifiedBackup := lastVerified;
    }
  }

  datatype Level = LevelError | LevelWarn

  datatype Title = BackupFailedTitle | VerifyFailedTitle | PruneFailedTitle | UnhealthyTitle | DegradedTitle

  datatype Event = Event(level: Level, title: Title)

  /** Where alerts go; delivery failures are only logged. */
  class Alerter {
    var sent: seq<Event>

    constructor ()
      ensures sent == []
    {
      sent := [];
    }

    method Alert(e: Event)
      modifies this
      ensures sent == old(sent) + [e]
    {
      sent := sent + [e];
    }
  }

  // ---- The store between cycles ----

  /** Laid out, every manifest with its artifact and a settled record, and every verified backup
      restorable from the artifact. */
  ghost predicate Sound(objects: Objects, suite: Suite, key: Key) {
    && LaidOut(objects) && HasArtifacts(objects)
    && (forall m :: m in Catalog(objects) ==> Settled(m.verification))
    && forall m :: m in VerifiedOf(Catalog(objects)) ==> Restorable(suite, key, m, objects)
  }

  /** No backup was taken within the second of now. */
  ghost predicate FreshSecond(objects: Objects, now: Instant) {
    ManifestKey(Id(now)) !in objects && ArtifactKey(Id(now)) !in objects
  }

  datatype CycleResult = Done(warned: bool) | BackupFailed | VerifyFailed | CheckFailed | Uncovered

  datatype Deps = Deps(
    suite: Suite,
    key: Key,
    entropy: Entropy,
    source: Backup.Source,
    sandbox: Sandbox,
    maxAge: Duration,
    policy: Policy)

  /** A fresh backup in any stage keeps the store sound and leaves the older backups as they are. */
  lemma BackupSound(objects: Objects, d: Deps, now: Instant, m: Manifest, dump: seq<byte>, artifact: seq<byte>, steps: nat)
    requires Sound(objects, d.suite, d.key) && FreshSecond(objects, now) && steps <= 2
    requires steps > 0 ==> Backup.Describes(d.suite, m, now, dump, artifact)
    ensures var after := Backup.AfterSteps(objects, m, artifact, steps);
            && Sound(after, d.suite, d.key)
            && Catalog(after) == Catalog(objects) + if steps == 2 then {m} else {}
  {
    hide Restorable, WellPlaced, Settled;
    if steps > 0 {
      DescribedPlaced(d.suite, m, now, dump, artifact);
      Backup.StepsKeepLayout(objects, m, artifact, steps);
      var after := Backup.AfterSteps(objects, m, artifact, steps);
      forall x | x in Catalog(objects)
        ensures x.id != m.id && Restorable(d.suite, d.key, x, after) == Restorable(d.suite, d.key, x, objects)
      {
        OthersUntouched(objects, x, m, artifact, steps);
        SameArtifactRestores(d.suite, d.key, x, objects, after);
      }
      assert Catalog(after) == Catalog(objects) + if steps == 2 then {m} else {};
    }
  }

  lemma DescribedPlaced(suite: Suite, m: Manifest, now: Instant, dump: seq<byte>, artifact: seq<byte>)
    requires Backup.Describes(suite, m, now, dump, artifact)
    ensures WellPlaced(ManifestKey(m.id), m) && Settled(m.verification) && !m.Verified()
    ensures m.id == Id(now) && m.createdAt == now && m.artifactKey == ArtifactKey(m.id)
  {
  }

  lemma OthersUntouched(objects: Objects, x: Manifest, m: Manifest, artifact: seq<byte>, steps: nat)
    requires LaidOut(objects) && HasArtifacts(objects) && x in Catalog(objects) && steps <= 2
    requires m.artifactKey == ArtifactKey(m.id) && ManifestKey(m.id) !in objects && ArtifactKey(m.id) !in objects
    ensures x.id != m.id
    ensures x.artifactKey in objects && Backup.AfterSteps(objects, m, artifact, steps)[x.artifactKey] == objects[x.artifactKey]
  {
    Placed(objects, x);
    KeysDistinct(x.id, m.id);
    KeysDistinct(m.id, x.id);
  }

  /** Saving an honest verification record keeps the store sound and replaces just that manifest. */
  lemma VerifySound(objects: Objects, d: Deps, disk: Disk, now: Instant, m0: Manifest, m: Manifest)
    requires Sound(objects, d.suite, d.key) && m0 in Catalog(objects)
    requires Reproved(d.suite, d.key, objects, d.sandbox, disk, now, m0, m)
    ensures var after := AfterSave(objects, Some(m));
            && Sound(after, d.suite, d.key)
            && Catalog(after) == Catalog(objects) - {m0} + {m}
  {
    hide Restorable;
    CatalogDistinct(objects);
    assert WellPlaced(ManifestKey(m.id), m) by { Placed(objects, m0); }
    CatalogAfterRecord(objects, m);
    var after := AfterSave(objects, Some(m));
    forall x | x in Catalog(objects)
      ensures x.artifactKey in after && after[x.artifactKey] == objects[x.artifactKey]
    {
      Placed(objects, x);
      KeysDistinct(m.id, x.id);
    }
    forall x: Manifest | x.artifactKey in objects && after[x.artifactKey] == objects[x.artifactKey]
      ensures Restorable(d.suite, d.key, x, after) == Restorable(d.suite, d.key, x, objects)
    {
      SameArtifactRestores(d.suite, d.key, x, objects, after);
    }
    assert m.artifactKey == m0.artifactKey;
    RecordIrrelevant(d.suite, d.key, m0, m, objects);
  }

  lemma SameArtifactRestores(suite: Suite, key: Key, m: Manifest, a: Objects, b: Objects)
    requires m.artifactKey in a && m.artifactKey in b && a[m.artifactKey] == b[m.artifactKey]
    ensures Restorable(suite, key, m, a) == Restorable(suite, key, m, b)
  {
  }

  lemma RecordIrrelevant(suite: Suite, key: Key, a: Manifest, b: Manifest, objects: Objects)
    requires b == a.(verification := b.verification)
    ensures Restorable(suite, key, a, objects) == Restorable(suite, key, b, objects)
  {
  }

  /** A prune keeps the store sound: no kept backup loses an object. */
  lemma PruneSound(objects: Objects, suite: Suite, key: Key, gone: set<string>)
    requires Sound(objects, suite, key)
    requires HasArtifacts(objects - gone) && Catalog(objects - gone) <= Catalog(objects) && LaidOut(objects - gone)
    ensures Sound(objects - gone, suite, key)
  {
    hide Restorable;
    forall m | m in VerifiedOf(Catalog(objects - gone))
      ensures Restorable(suite, key, m, objects - gone)
    {
      SameArtifactRestores(suite, key, m, objects, objects - gone);
    }
  }

  /** The last stage: apply the retention policy; every failed deletion is only reported, with one alert, and
      without failed deletions the store is pruned fully or, when it could not be read, not at all. */
  method PruneStore(store: Store, d: Deps, alerter: Alerter) returns (ghost gone: set<string>, failures: seq<Failure>)
    requires Sound(store.objects, d.suite, d.key)
    modifies store, alerter
    ensures Pruned(old(store.objects), store.objects, gone, d.policy)
    ensures Sound(store.objects, d.suite, d.key)
    ensures alerter.sent == old(alerter.sent) + if failures == [] then [] else [Event(LevelWarn, PruneFailedTitle)]
    ensures failures == [] ==> gone == {} || PrunedFully(old(store.objects), store.objects, d.policy)
    ensures d.policy.IsZero() ==> gone == {}
    ensures store.reliable ==> failures == []
    ensures store.reliable && NoStrays(old(store.objects)) ==>
              PrunedFully(old(store.objects), store.objects, d.policy) && alerter.sent == old(alerter.sent)
  {
    hide Sound, Restorable, Retained, LaidOut, Catalog, PlanFor, AllDistinct, Listed, Outcomes, Taken, Failed, NoStrays, PrunedFully, Selected;
    gone, failures := {}, [];
    assert store.objects - gone == store.objects;
    KeptWithin(Catalog(store.objects), d.policy);
    if d.policy.IsZero() {
      NothingDiscarded(store.objects, d.policy);
      return;
    }
    SoundLayout(store.objects, d.suite, d.key);
    var ms, keys := LoadAll(store);
    if ms.None? {
      return;
    }
    var plan := Compute(ms.value, d.policy);
    var removed := Remove(plan);
    if |removed| == 0 {
      EmptySelection(removed, Catalog(store.objects), Retained(Catalog(store.objects), d.policy));
      NothingDiscarded(store.objects, d.policy);
      return;
    }
    ghost var before := store.objects;
    var freed;
    ghost var outcomes;
    freed, failures, outcomes := Apply(store, plan);
    gone := Taken(outcomes);
    OutcomesGone(removed, outcomes);
    PruneOutcome(before, plan, ms.value, d.policy, gone);
    PruneSound(before, d.suite, d.key, gone);
    if |failures| == 0 {
      AllDiscarded(before, gone, d.policy);
    }
    if |failures| > 0 {
      alerter.Alert(Event(LevelWarn, PruneFailedTitle));
    }
  }

  /** Some keys are gone and nothing else has changed; no backup the policy keeps is among them. */
  ghost predicate Pruned(before: Objects, after: Objects, gone: set<string>, p: Policy) {
    && after == before - gone
    && Retained(Catalog(before), p) <= Catalog(after) <= Catalog(before)
  }

  /** Exactly the backups the policy keeps are left, and of the others not even the artifacts. */
  ghost predicate PrunedFully(before: Objects, after: Objects, p: Policy) {
    && Catalog(after) == Retained(Catalog(before), p)
    && forall m :: m in Catalog(before) && m !in Catalog(after) ==> m.artifactKey !in after
  }

  lemma EmptySelection(removed: seq<Manifest>, s: Backups, k: Backups)
    requires |removed| == 0 && SetOf(removed) == s - k && k <= s
    ensures k == s
  {
    assert s == k + (s - k);
  }

  lemma NothingDiscarded(objects: Objects, p: Policy)
    requires p.IsZero() || Retained(Catalog(objects), p) == Catalog(objects)
    ensures PrunedFully(objects, objects, p)
  {
    hide Catalog;
  }

  lemma AllDiscarded(objects: Objects, gone: set<string>, p: Policy)
    requires Catalog(objects - gone) == Retained(Catalog(objects), p)
    requires forall m :: m in Catalog(objects) && m !in Retained(Catalog(objects), p) ==> m.artifactKey !in objects - gone
    ensures PrunedFully(objects, objects - gone, p)
  {
  }

  lemma KeptWithin(s: Backups, p: Policy)
    ensures Retained(s, p) <= s
  {
  }

  lemma SoundLayout(objects: Objects, suite: Suite, key: Key)
    requires Sound(objects, suite, key)
    ensures LaidOut(objects) && HasArtifacts(objects) && Distinct(Catalog(objects))
  {
    hide Restorable;
    CatalogDistinct(objects);
  }

  lemma OutcomesGone(removed: seq<Manifest>, outcomes: seq<Outcome>)
    requires Outcomes(removed, outcomes)
    ensures Taken(outcomes) <= KeysOf(removed) && (WellKeyed(removed) ==> ManifestsFirst(Taken(outcomes), removed))
    ensures Failed(outcomes) == [] ==> KeysOf(removed) <= Taken(outcomes)
  {
    assert removed[..|removed|] == removed;
    OutcomesProgress(removed, |removed|, outcomes);
  }

  /** Nothing that was there is gone or has changed. */
  ghost predicate Extends(before: Objects, after: Objects) {
    forall k :: k in before ==> k in after && after[k] == before[k]
  }

  /** What backup and verification do to the store: nothing but, at most, one new backup. */
  ghost predicate Arrived(before: Objects, after: Objects, d: Deps, now: Instant, arrived: Backups) {
    && Sound(after, d.suite, d.key)
    && Extends(before, after)
    && (NoStrays(before) ==> NoStrays(after))
    && Catalog(after) == Catalog(before) + arrived
    && (forall m :: m in arrived ==> TakenOf(m, d, now))
    && |arrived| <= 1
  }

  /** A backup of this instant, for the dump of this source. */
  predicate TakenOf(m: Manifest, d: Deps, now: Instant) {
    m.createdAt == now && d.source.dump.Some? && m.plaintextSha256 == d.suite.sha256(d.source.dump.value)
  }

  /** No command fails and the local disk suffices. */
  ghost predicate Ready(d: Deps, disk: Disk) {
    && d.source.Works() && |d.key| == KEY_SIZE && d.entropy.AlwaysWorks() && d.suite.Lawful()
    && d.sandbox.installed && d.sandbox.adminDsn != "" && disk.canCreate && disk.canClose
    && disk.Room(|d.source.dump.value|) && d.sandbox.AcceptsAll(disk, |d.source.dump.value|)
  }

  /** Nothing fails at all, and only manifests lie under manifests/. */
  ghost predicate Undisturbed(store: Store, d: Deps, disk: Disk)
    reads store
  {
    store.reliable && NoStrays(store.objects) && Ready(d, disk)
  }

  method BackupAndVerify(store: Store, d: Deps, dir: TempDir, tracker: Tracker, alerter: Alerter, now: Instant)
    returns (r: CycleResult, ghost arrived: Backups)
    requires Sound(store.objects, d.suite, d.key) && FreshSecond(store.objects, now) && dir.Valid()
    modifies store, dir`files, dir`next, alerter
    modifies tracker`lastBackupStatus, tracker`lastBackupSize, tracker`lastVerifyStatus, tracker`lastTableCount
    ensures dir.Valid() && dir.files == old(dir.files)
    ensures Arrived(old(store.objects), store.objects, d, now, arrived)
    ensures r in {Done(false), BackupFailed, VerifyFailed}
    ensures ProofArrived(r, arrived)
    ensures alerter.sent == old(alerter.sent) + (if r == BackupFailed then [Event(LevelError, BackupFailedTitle)]
                                                 else if r == VerifyFailed then [Event(LevelError, VerifyFailedTitle)] else [])
    ensures tracker.lastBackupStatus == if r == BackupFailed then FailedStatus else Succeeded
    ensures r != BackupFailed ==> tracker.lastVerifyStatus == if r == VerifyFailed then FailedStatus else Succeeded
    ensures r != BackupFailed ==> exists m :: m in arrived && tracker.lastBackupSize == m.encryptedSize
    ensures r == Done(false) ==> exists m :: m in arrived && tracker.lastTableCount == m.verification.tableCount
    ensures old(Undisturbed(store, d, dir.disk)) ==> r == Done(false)
  {
    hide *;
    ghost var start, calm := store.objects, Undisturbed(store, d, dir.disk);
    CalmMeaning(store, d, dir.disk);
    var backup, m, artifact, steps := Backup.Run(store, d.suite, d.key, d.entropy, d.source, now);
    BackupArrived(start, d, now, m, artifact, steps);
    if backup.None? {
      tracker.RecordBackup(false, 0);
      alerter.Alert(Event(LevelError, BackupFailedTitle));
      arrived := if steps == 2 then {m} else {};
      ProofStands(BackupFailed, m, arrived);
      return BackupFailed, arrived;
    }
    tracker.RecordBackup(true, backup.value.encryptedSize);
    FreshTestable(start, d, now, m, artifact, dir.disk);
    ghost var proof;
    r, proof := VerifyFresh(store, d, dir, tracker, alerter, now, backup.value, start);
    arrived := {proof};
    ProofStands(r, proof, arrived);
  }

  lemma ProofStands(stage: CycleResult, m: Manifest, arrived: Backups)
    requires stage == Done(false) ==> arrived == {m} && m.verification.verified
    ensures ProofArrived(stage, arrived)
  {
  }

  /** The second half: verifying the backup just taken. */
  method VerifyFresh(store: Store, d: Deps, dir: TempDir, tracker: Tracker, alerter: Alerter, now: Instant,
                     m: Manifest, ghost start: Objects)
    returns (r: CycleResult, ghost proof: Manifest)
    requires Arrived(start, store.objects, d, now, {m}) && m in Catalog(store.objects) && m !in Catalog(start) && dir.Valid()
    requires ManifestKey(m.id) in store.objects && store.objects[ManifestKey(m.id)] == Record(m)
    modifies store, dir`files, dir`next, alerter, tracker`lastVerifyStatus, tracker`lastTableCount
    ensures dir.Valid() && dir.files == old(dir.files)
    ensures Arrived(start, store.objects, d, now, {proof}) && proof.encryptedSize == m.encryptedSize
    ensures r in {Done(false), VerifyFailed}
    ensures r == Done(false) ==> proof.verification.verified && tracker.lastTableCount == proof.verification.tableCount
    ensures alerter.sent == old(alerter.sent) + if r == VerifyFailed then [Event(LevelError, VerifyFailedTitle)] else []
    ensures tracker.lastVerifyStatus == if r == VerifyFailed then FailedStatus else Succeeded
    ensures store.reliable && Testable(d.suite, d.key, m.id, old(store.objects), dir.disk, d.sandbox) ==>
              (d.sandbox.AcceptsAll(dir.disk, DumpSize(d.suite, d.key, m.id, old(store.objects))) ==> r == Done(false))
  {
    hide *;
    ghost var middle := store.objects;
    proof := m;
    var verdict, saved := Verify.Run(store, d.suite, d.key, m.id, now, dir, d.sandbox);
    Saved(middle, saved);
    if saved.Some? {
      RecordArrived(start, middle, d, dir.disk, now, m, saved.value);
      proof := saved.value;
    }
    if !verdict.Proven? {
      tracker.RecordVerify(false, 0);
      alerter.Alert(Event(LevelError, VerifyFailedTitle));
      return VerifyFailed, proof;
    }
    tracker.RecordVerify(true, verdict.m.verification.tableCount);
    r := Done(false);
  }

  lemma Saved(objects: Objects, saved: Option<Manifest>)
    ensures saved.None? ==> AfterSave(objects, saved) == objects
  {
  }

  lemma CalmMeaning(store: Store, d: Deps, disk: Disk)
    ensures Undisturbed(store, d, disk) ==>
              && store.reliable && NoStrays(store.objects) && d.source.Works() && |d.key| == KEY_SIZE && d.entropy.AlwaysWorks()
              && Ready(d, disk)
  {
  }

  /** When nothing fails, a fresh backup is ready to be tested, and the sandbox accepts it. */
  lemma FreshTestable(objects: Objects, d: Deps, now: Instant, m: Manifest, artifact: seq<byte>, disk: Disk)
    requires d.source.dump.Some? && |d.key| == KEY_SIZE
    requires artifact == Encoding(d.suite, d.key, d.entropy.nonces, d.source.dump.value)
    requires Backup.Describes(d.suite, m, now, d.source.dump.value, artifact)
    ensures var after := Backup.AfterSteps(objects, m, artifact, 2);
            Ready(d, disk) ==>
              && Testable(d.suite, d.key, m.id, after, disk, d.sandbox)
              && d.sandbox.AcceptsAll(disk, DumpSize(d.suite, d.key, m.id, after))
  {
    hide Encoding, Suite.Lawful, Decode, ManifestKey, ArtifactKey, Id, Sandbox.AcceptsAll;
    if Ready(d, disk) {
      Backup.BackupMaterializes(d.suite, d.key, d.entropy.nonces, m, now, d.source.dump.value, artifact);
      KeysDistinct(m.id, m.id);
    }
  }

  /** What a backup stores under manifests/ is a manifest. */
  lemma BackupStrays(objects: Objects, m: Manifest, artifact: seq<byte>, steps: nat)
    requires NoStrays(objects) && m.artifactKey == ArtifactKey(m.id)
    ensures NoStrays(Backup.AfterSteps(objects, m, artifact, steps))
  {
    hide Strings.HasPrefix, ManifestKey, ArtifactKey;
    KeysCarryIds(m.id);
  }

  lemma BackupArrived(objects: Objects, d: Deps, now: Instant, m: Manifest, artifact: seq<byte>, steps: nat)
    requires Sound(objects, d.suite, d.key) && FreshSecond(objects, now) && steps <= 2
    requires steps > 0 ==> d.source.dump.Some? && Backup.Describes(d.suite, m, now, d.source.dump.value, artifact)
    ensures Arrived(objects, Backup.AfterSteps(objects, m, artifact, steps), d, now, if steps == 2 then {m} else {})
    ensures steps == 2 ==>
              var after := Backup.AfterSteps(objects, m, artifact, steps);
              && m in Catalog(after) && m !in Catalog(objects)
              && ManifestKey(m.id) in after && after[ManifestKey(m.id)] == Record(m)
  {
    hide Restorable, Sound, LaidOut, HasArtifacts, WellPlaced, Settled, Catalog, Extends, NoStrays, ManifestKey, ArtifactKey, Id;
    var dump := if d.source.dump.Some? then d.source.dump.value else [];
    BackupSound(objects, d, now, m, dump, artifact, steps);
    BackupExtends(objects, m, artifact, 0);
    if steps > 0 {
      DescribedPlaced(d.suite, m, now, dump, artifact);
      BackupExtends(objects, m, artifact, steps);
      if NoStrays(objects) {
        BackupStrays(objects, m, artifact, steps);
      }
    }
    if steps == 2 {
      SoundLayout(objects, d.suite, d.key);
      CatalogLookup(objects, m);
    }
  }

  /** A backup under fresh keys only adds objects. */
  lemma BackupExtends(objects: Objects, m: Manifest, artifact: seq<byte>, steps: nat)
    requires steps > 0 ==> ManifestKey(m.id) !in objects && m.artifactKey !in objects
    ensures Extends(objects, Backup.AfterSteps(objects, m, artifact, steps))
  {
    hide ManifestKey;
  }

  /** The record saved by the verification stands in for the fresh one. */
  lemma RecordArrived(start: Objects, middle: Objects, d: Deps, disk: Disk, now: Instant, m: Manifest, saved: Manifest)
    requires Arrived(start, middle, d, now, {m}) && m in Catalog(middle) && m !in Catalog(start)
    requires ManifestKey(m.id) in middle && middle[ManifestKey(m.id)] == Record(m)
    requires exists m0 :: ManifestKey(m.id) in middle && middle[ManifestKey(m.id)] == Record(m0)
                          && Reproved(d.suite, d.key, middle, d.sandbox, disk, now, m0, saved)
    ensures Arrived(start, AfterSave(middle, Some(saved)), d, now, {saved})
    ensures saved.encryptedSize == m.encryptedSize
  {
    hide Restorable, Sound, LaidOut, HasArtifacts, Records, RecordsLoss, Coherent, Catalog, ManifestKey, NoStrays, Extends;
    VerifySound(middle, d, disk, now, m, saved);
    if NoStrays(middle) {
      RecordStrays(middle, saved);
    }
    RecordExtends(start, middle, m, saved);
    assert Catalog(start) - {m} == Catalog(start);
    assert Catalog(start) + {m} - {m} + {saved} == Catalog(start) + {saved};
  }

  /** The record of the fresh backup replaces nothing that was there before it. */
  lemma RecordExtends(start: Objects, middle: Objects, m: Manifest, saved: Manifest)
    requires Extends(start, middle) && m !in Catalog(start) && saved.id == m.id
    requires ManifestKey(m.id) in middle && middle[ManifestKey(m.id)] == Record(m)
    ensures Extends(start, AfterSave(middle, Some(saved)))
  {
    hide ManifestKey;
    assert forall k :: k in start && start[k].Record? ==> start[k].m in Catalog(start);
  }

  lemma RecordStrays(objects: Objects, m: Manifest)
    requires NoStrays(objects)
    ensures NoStrays(AfterSave(objects, Some(m)))
  {
    hide Strings.HasPrefix, ManifestKey;
  }

  /** What one cycle does to the backups in the store: at most one arrives, and of all there are then a
      prune takes some that the policy discards. */
  ghost predicate CycleRound(before: Objects, after: Objects, p: Policy, now: Instant, arrived: Backups) {
    && ValidRound(Catalog(before), Round(arrived, Catalog(after)), p)
    && (forall m :: m in arrived ==> m.createdAt == now)
    && |arrived| <= 1
  }

  /** The recorded health and time agree with a check of the given backups. */
  ghost predicate HealthRecorded(health: Health, lastVerified: Option<Instant>, s: Backups, maxAge: Duration, now: Instant) {
    && health == (if Check.Covered(s, maxAge, now) then Ok200 else Unhealthy503)
    && if lastVerified.Some? then exists m :: IsNewest(VerifiedOf(s), m) && m.createdAt == lastVerified.value
       else VerifiedOf(s) == {}
  }

  /** The coverage check of a cycle, recorded for /healthz when the store could be read. */
  method CheckAndRecord(store: Store, d: Deps, tracker: Tracker, now: Instant) returns (rep: Option<Check.Report>)
    requires LaidOut(store.objects)
    modifies tracker`checked, tracker`lastCheckHealthy, tracker`lastVerifiedBackup
    ensures rep.None? ==> tracker.Healthz() == old(tracker.Healthz())
    ensures rep.Some? ==>
              && Check.Answers(rep.value, Catalog(store.objects), d.maxAge, now)
              && HealthRecorded(tracker.Healthz(), tracker.lastVerifiedBackup, Catalog(store.objects), d.maxAge, now)
              && tracker.Healthz() == (if rep.value.healthy then Ok200 else Unhealthy503)
    ensures store.reliable && NoStrays(store.objects) ==> rep.Some?
  {
    hide LaidOut, Catalog;
    rep := Check.Run(store, d.maxAge, now);
    if rep.Some? {
      var lastVerified := if rep.value.lastVerified.Some? then Some(rep.value.lastVerified.value.createdAt) else None;
      tracker.RecordCheck(rep.value.healthy, lastVerified);
    }
  }

  lemma HealthSurvivesPrune(rep: Check.Report, health: Health, lastVerified: Option<Instant>, s: Backups, t: Backups, d: Deps, now: Instant)
    requires Distinct(s) && Retained(s, d.policy) <= t <= s
    requires Check.Answers(rep, s, d.maxAge, now) && HealthRecorded(health, lastVerified, s, d.maxAge, now)
    ensures HealthRecorded(health, lastVerified, t, d.maxAge, now)
  {
    hide Retained;
    Check.PruneInvisible(s, t, d.policy, rep, d.maxAge, now);
    NewestSurvive(s, t, d.policy);
  }

  lemma HealthMeaning(health: Health, lastVerified: Option<Instant>, s: Backups, maxAge: Duration, now: Instant)
    requires HealthRecorded(health, lastVerified, s, maxAge, now)
    ensures Check.Covered(s, maxAge, now) <==> health == Ok200
  {
  }

  /** What a cycle leaves behind: its result, the backups that arrived, whether the check could read the
      store, and the health and time recorded for /healthz. */
  datatype Trace = Trace(result: CycleResult, arrived: Backups, checked: bool, health: Health, proof: Option<Instant>)

  ghost predicate CycleOutcome(before: Objects, after: Objects, d: Deps, now: Instant, oldHealth: Health, t: Trace) {
    && Sound(after, d.suite, d.key)
    && CycleRound(before, after, d.policy, now, t.arrived)
    // A cycle that returns an error has deleted and changed nothing, and the new backup is all that came.
    && (!t.result.Done? ==> Extends(before, after) && Catalog(after) == Catalog(before) + t.arrived)
    // Past the first half, the backup of this cycle is there and proven.
    && (t.result !in {BackupFailed, VerifyFailed} ==> exists m :: t.arrived == {m} && m.Verified())
    && (t.result == CheckFailed ==> !t.checked)
    // A cycle that returns no error leaves coverage behind, after pruning, and /healthz says so.
    && (t.result.Done? ==> t.checked && t.health == Ok200 && Check.Covered(Catalog(after), d.maxAge, now))
    && (t.result == Uncovered ==> t.checked && t.health == Unhealthy503)
    // What is recorded for /healthz answers for the store as the cycle leaves it.
    && (if t.checked then HealthRecorded(t.health, t.proof, Catalog(after), d.maxAge, now) else t.health == oldHealth)
    // A proven backup means health, and a warning exactly when the newest backup is from the future and unproven.
    && (d.maxAge >= 0 ==> t.result != Uncovered)
    && (t.result.Done? ==> (t.result == Done(true) <==> FutureUnproven(before, now)))
  }

  /** The newest backup in the store claims a time after now and is not verified. */
  ghost predicate FutureUnproven(objects: Objects, now: Instant) {
    exists x :: IsNewest(Catalog(objects), x) && x.createdAt > now && !x.Verified()
  }

  /** What a cycle in which nothing fails comes to: success, and exactly the backups the policy keeps of
      the old ones and the new one. */
  ghost predicate CalmOutcome(before: Objects, after: Objects, d: Deps, now: Instant, t: Trace) {
    d.maxAge >= 0 ==>
      && t.result.Done? && |t.arrived| == 1
      && Catalog(after) == Retained(Catalog(before) + t.arrived, d.policy)
      && forall m :: m in Catalog(before) && m !in Catalog(after) ==> m.artifactKey !in after
  }

  /** A store at which a cycle in which nothing fails succeeds with a warning: it holds one backup, never
      verified and dated after now. */
  lemma CalmButDegraded(d: Deps, now: Instant, x: Manifest, artifact: seq<byte>)
    requires WellPlaced(ManifestKey(x.id), x) && x.verification == UNVERIFIED && SecondOf(x.createdAt) > SecondOf(now)
    ensures var s := Holding(x, artifact);
            && Sound(s, d.suite, d.key) && NoStrays(s) && FreshSecond(s, now) && FutureUnproven(s, now)
            && forall after, health, t :: d.maxAge >= 0 && CycleOutcome(s, after, d, now, health, t) && CalmOutcome(s, after, d, now, t) ==>
                 t.result == Done(true)
  {
    hide Id, ManifestKey, ArtifactKey, Strings.HasPrefix, Restorable, CycleRound, HealthRecorded, Retained, SecondOf;
    KeysCarryIds(x.id);
    KeysDistinct(x.id, x.id);
    KeysDistinct(x.id, Id(now));
    KeysDistinct(Id(now), x.id);
    IdInjective(x.createdAt, now);
    SecondsOrder(now, x.createdAt);
    var s := Holding(x, artifact);
    assert s[ManifestKey(x.id)].m in Catalog(s);
    assert IsNewest(Catalog(s), x);
  }

  /** The alerts after the check: one if it finds no coverage, and at the end of a good cycle one if a
      deletion failed and one for warnings. */
  ghost predicate Announced(before: seq<Event>, after: seq<Event>, r: CycleResult, unhealthy: bool, failed: bool) {
    if unhealthy then after == before + [Event(LevelError, UnhealthyTitle)] && !failed
    else
      && (failed ==> r.Done?)
      && after == before + (if failed then [Event(LevelWarn, PruneFailedTitle)] else [])
                        + if r == Done(true) then [Event(LevelWarn, DegradedTitle)] else []
  }

  /** Without a failed deletion the backups left are all of them or exactly those the policy keeps. */
  ghost predicate WholeOrNothing(before: Objects, after: Objects, p: Policy, arrived: Backups, failed: bool) {
    !failed ==> Catalog(after) == Catalog(before) + arrived || Catalog(after) == Retained(Catalog(before) + arrived, p)
  }

  /** The alert of a failed first half. */
  function StageAlert(r: CycleResult): seq<Event> {
    if r == BackupFailed then [Event(LevelError, BackupFailedTitle)]
    else if r == VerifyFailed then [Event(LevelError, VerifyFailedTitle)]
    else []
  }

  /** One cycle. */
  method Cycle(store: Store, d: Deps, dir: TempDir, tracker: Tracker, alerter: Alerter, now: Instant)
    returns (r: CycleResult, ghost arrived: Backups, ghost checked: bool, ghost failed: bool)
    requires Sound(store.objects, d.suite, d.key) && FreshSecond(store.objects, now) && dir.Valid()
    modifies store, dir`files, dir`next, tracker, alerter
    ensures dir.Valid() && dir.files == old(dir.files)
    ensures CycleOutcome(old(store.objects), store.objects, d, now, old(tracker.Healthz()),
                         Trace(r, arrived, checked, tracker.Healthz(), tracker.lastVerifiedBackup))
    ensures forall m :: m in arrived ==> TakenOf(m, d, now)
    ensures Announced(old(alerter.sent) + StageAlert(r), alerter.sent, r, checked && tracker.Healthz() == Unhealthy503, failed)
    ensures WholeOrNothing(old(store.objects), store.objects, d.policy, arrived, failed)
    ensures old(Undisturbed(store, d, dir.disk)) ==>
              !failed && CalmOutcome(old(store.objects), store.objects, d, now,
                          Trace(r, arrived, checked, tracker.Healthz(), tracker.lastVerifiedBackup))
  {
    hide Undisturbed, Ready, Arrived, ProofArrived, CycleOutcome, CalmOutcome, Announced, Sound, FreshSecond, TakenOf, NoStrays, Catalog;
    ghost var start, health0 := store.objects, tracker.Healthz();
    CalmMeaning(store, d, dir.disk);
    var stage;
    stage, arrived := BackupAndVerify(store, d, dir, tracker, alerter, now);
    ArrivedMeaning(start, store.objects, d, now, arrived);
    r, checked, failed := CheckAndPrune(store, d, tracker, alerter, now, stage, start, health0, arrived);
  }

  lemma ArrivedMeaning(before: Objects, after: Objects, d: Deps, now: Instant, arrived: Backups)
    requires Arrived(before, after, d, now, arrived)
    ensures NoStrays(before) ==> NoStrays(after)
    ensures forall m :: m in arrived ==> TakenOf(m, d, now)
  {
  }

  /** The second half of a cycle: the coverage check runs whatever became of the backup, pruning only
      when everything went well. */
  method CheckAndPrune(store: Store, d: Deps, tracker: Tracker, alerter: Alerter, now: Instant, stage: CycleResult,
                       ghost start: Objects, ghost health0: Health, ghost arrived: Backups)
    returns (r: CycleResult, ghost checked: bool, ghost failed: bool)
    requires Arrived(start, store.objects, d, now, arrived) && health0 == tracker.Healthz()
    requires stage in {Done(false), BackupFailed, VerifyFailed} && ProofArrived(stage, arrived)
    modifies store, alerter, tracker`checked, tracker`lastCheckHealthy, tracker`lastVerifiedBackup
    ensures stage != Done(false) ==> r == stage
    ensures stage == Done(false) ==> r !in {BackupFailed, VerifyFailed}
    ensures CycleOutcome(start, store.objects, d, now, health0,
                         Trace(r, arrived, checked, tracker.Healthz(), tracker.lastVerifiedBackup))
    ensures Announced(old(alerter.sent), alerter.sent, r, checked && tracker.Healthz() == Unhealthy503, failed)
    ensures WholeOrNothing(start, store.objects, d.policy, arrived, failed)
    ensures store.reliable && NoStrays(old(store.objects)) && stage == Done(false) ==>
              !failed && CalmOutcome(start, store.objects, d, now,
                          Trace(r, arrived, checked, tracker.Healthz(), tracker.lastVerifiedBackup))
  {
    hide *;
    ghost var middle := store.objects;
    NothingPruned(start, middle, d, now, arrived);
    SoundLayout(middle, d.suite, d.key);
    var rep := CheckAndRecord(store, d, tracker, now);
    if rep.None? {
      UncheckedOutcome(start, middle, d, now, health0, stage, arrived, tracker.lastVerifiedBackup);
      r, checked, failed := if stage == Done(false) then CheckFailed else stage, false, false;
      Silence(alerter.sent, r);
      NothingGone(start, middle, d, now, arrived);
    } else {
      checked := true;
      r, failed := Conclude(store, d, alerter, now, stage, rep.value, start, health0, arrived, tracker.Healthz(), tracker.lastVerifiedBackup);
    }
  }

  /** What follows a check that could read the store. */
  method Conclude(store: Store, d: Deps, alerter: Alerter, now: Instant, stage: CycleResult, rep: Check.Report,
                  ghost start: Objects, ghost health0: Health, ghost arrived: Backups,
                  ghost health: Health, ghost proof: Option<Instant>)
    returns (r: CycleResult, ghost failed: bool)
    requires Arrived(start, store.objects, d, now, arrived)
    requires stage in {Done(false), BackupFailed, VerifyFailed} && ProofArrived(stage, arrived)
    requires Distinct(Catalog(store.objects)) && Check.Answers(rep, Catalog(store.objects), d.maxAge, now)
    requires HealthRecorded(health, proof, Catalog(store.objects), d.maxAge, now)
    requires health == if rep.healthy then Ok200 else Unhealthy503
    modifies store, alerter
    ensures stage != Done(false) ==> r == stage
    ensures stage == Done(false) ==> r !in {BackupFailed, VerifyFailed}
    ensures CycleOutcome(start, store.objects, d, now, health0, Trace(r, arrived, true, health, proof))
    ensures Announced(old(alerter.sent), alerter.sent, r, health == Unhealthy503, failed)
    ensures WholeOrNothing(start, store.objects, d.policy, arrived, failed)
    ensures store.reliable && NoStrays(old(store.objects)) && stage == Done(false) ==>
              !failed && CalmOutcome(start, store.objects, d, now, Trace(r, arrived, true, health, proof))
  {
    hide *;
    failed := false;
    NothingGone(start, store.objects, d, now, arrived);
    if !rep.healthy {
      StoppedOutcome(start, store.objects, d, now, health0, stage, arrived, rep, health, proof);
      r := if stage == Done(false) then Uncovered else stage;
      Alarm(alerter.sent, r);
      alerter.Alert(Event(LevelError, UnhealthyTitle));
    } else if stage != Done(false) {
      StoppedOutcome(start, store.objects, d, now, health0, stage, arrived, rep, health, proof);
      r := stage;
      Silence(alerter.sent, r);
    } else {
      r, failed := PruneAndWarn(store, d, alerter, now, rep, start, health0, arrived, proof);
    }
  }

  lemma Silence(sent: seq<Event>, r: CycleResult)
    requires !r.Done?
    ensures Announced(sent, sent, r, false, false)
  {
  }

  lemma Alarm(sent: seq<Event>, r: CycleResult)
    ensures Announced(sent, sent + [Event(LevelError, UnhealthyTitle)], r, true, false)
  {
  }

  lemma NothingGone(before: Objects, after: Objects, d: Deps, now: Instant, arrived: Backups)
    requires Arrived(before, after, d, now, arrived)
    ensures WholeOrNothing(before, after, d.policy, arrived, false)
  {
  }

  /** The end of a cycle in which everything went well. */
  method PruneAndWarn(store: Store, d: Deps, alerter: Alerter, now: Instant, rep: Check.Report,
                      ghost start: Objects, ghost health0: Health, ghost arrived: Backups, ghost proof: Option<Instant>)
    returns (r: CycleResult, ghost failed: bool)
    requires Arrived(start, store.objects, d, now, arrived) && ProofArrived(Done(false), arrived)
    requires Distinct(Catalog(store.objects)) && Check.Answers(rep, Catalog(store.objects), d.maxAge, now)
    requires HealthRecorded(Ok200, proof, Catalog(store.objects), d.maxAge, now)
    requires rep.healthy
    modifies store, alerter
    ensures r == Done(|rep.warnings| > 0)
    ensures CycleOutcome(start, store.objects, d, now, health0, Trace(r, arrived, true, Ok200, proof))
    ensures Announced(old(alerter.sent), alerter.sent, r, false, failed)
    ensures WholeOrNothing(start, store.objects, d.policy, arrived, failed)
    ensures store.reliable && NoStrays(old(store.objects)) ==>
              !failed && CalmOutcome(start, store.objects, d, now, Trace(r, arrived, true, Ok200, proof))
  {
    hide *;
    ghost var sent := alerter.sent;
    r := Done(|rep.warnings| > 0);
    failed := PruneStage(store, d, alerter, now, rep, start, health0, arrived, proof, r);
    WarnIfDegraded(alerter, |rep.warnings| > 0, sent, failed);
  }

  method PruneStage(store: Store, d: Deps, alerter: Alerter, now: Instant, ghost rep: Check.Report, ghost start: Objects,
                    ghost health0: Health, ghost arrived: Backups, ghost proof: Option<Instant>, ghost r: CycleResult)
    returns (ghost failed: bool)
    requires Arrived(start, store.objects, d, now, arrived) && ProofArrived(Done(false), arrived)
    requires Distinct(Catalog(store.objects)) && Check.Answers(rep, Catalog(store.objects), d.maxAge, now)
    requires HealthRecorded(Ok200, proof, Catalog(store.objects), d.maxAge, now)
    requires rep.healthy && r == Done(|rep.warnings| > 0)
    modifies store, alerter
    ensures CycleOutcome(start, store.objects, d, now, health0, Trace(r, arrived, true, Ok200, proof))
    ensures alerter.sent == old(alerter.sent) + if failed then [Event(LevelWarn, PruneFailedTitle)] else []
    ensures WholeOrNothing(start, store.objects, d.policy, arrived, failed)
    ensures store.reliable && NoStrays(old(store.objects)) ==>
              !failed && CalmOutcome(start, store.objects, d, now, Trace(r, arrived, true, Ok200, proof))
  {
    hide *;
    ghost var middle := store.objects;
    NothingPruned(start, middle, d, now, arrived);
    ghost var gone;
    var failures;
    gone, failures := PruneStore(store, d, alerter);
    failed := failures != [];
    AllOrDiscarded(start, middle, store.objects, gone, d, now, arrived, failed);
    PrunedOutcome(start, middle, store.objects, gone, d, now, health0, arrived, rep, Ok200, proof);
    CalmPruned(start, middle, store.objects, d, now, arrived, rep, Ok200, proof);
  }

  lemma AllOrDiscarded(start: Objects, middle: Objects, after: Objects, gone: set<string>, d: Deps, now: Instant,
                       arrived: Backups, failed: bool)
    requires Arrived(start, middle, d, now, arrived) && Pruned(middle, after, gone, d.policy)
    requires !failed ==> gone == {} || PrunedFully(middle, after, d.policy)
    ensures WholeOrNothing(start, after, d.policy, arrived, failed)
  {
    hide Sound, Retained, Catalog;
    assert middle - {} == middle;
  }

  method WarnIfDegraded(alerter: Alerter, degraded: bool, ghost before: seq<Event>, ghost failed: bool)
    requires alerter.sent == before + if failed then [Event(LevelWarn, PruneFailedTitle)] else []
    modifies alerter
    ensures Announced(before, alerter.sent, Done(degraded), false, failed)
  {
    assert alerter.sent + [] == alerter.sent;
    if degraded {
      alerter.Alert(Event(LevelWarn, DegradedTitle));
    }
  }

  ghost predicate ProofArrived(stage: CycleResult, arrived: Backups) {
    stage == Done(false) ==> exists m :: arrived == {m} && m.Verified()
  }

  lemma UncheckedOutcome(start: Objects, middle: Objects, d: Deps, now: Instant, health0: Health, stage: CycleResult,
                         arrived: Backups, proof: Option<Instant>)
    requires Arrived(start, middle, d, now, arrived) && stage in {Done(false), BackupFailed, VerifyFailed}
    requires ProofArrived(stage, arrived)
    ensures var r := if stage == Done(false) then CheckFailed else stage;
            CycleOutcome(start, middle, d, now, health0, Trace(r, arrived, false, health0, proof))
  {
    NothingPruned(start, middle, d, now, arrived);
  }

  lemma StoppedOutcome(start: Objects, middle: Objects, d: Deps, now: Instant, health0: Health, stage: CycleResult,
                       arrived: Backups, rep: Check.Report, health: Health, proof: Option<Instant>)
    requires Arrived(start, middle, d, now, arrived) && stage in {Done(false), BackupFailed, VerifyFailed}
    requires ProofArrived(stage, arrived) && Distinct(Catalog(middle))
    requires Check.Answers(rep, Catalog(middle), d.maxAge, now) && HealthRecorded(health, proof, Catalog(middle), d.maxAge, now)
    requires health == (if rep.healthy then Ok200 else Unhealthy503)
    requires rep.healthy ==> stage != Done(false)
    ensures var r := if stage == Done(false) then Uncovered else stage;
            && CycleOutcome(start, middle, d, now, health0, Trace(r, arrived, true, health, proof))
            && (stage == Done(false) ==> CalmOutcome(start, middle, d, now, Trace(r, arrived, true, health, proof)))
  {
    hide Sound, Check.Answers, Check.Covered, Distinct, HealthRecorded, Retained;
    NothingPruned(start, middle, d, now, arrived);
    if stage == Done(false) {
      FreshProof(start, middle, d, now, arrived, rep);
    }
  }

  lemma PrunedOutcome(start: Objects, middle: Objects, after: Objects, gone: set<string>, d: Deps, now: Instant, health0: Health,
                      arrived: Backups, rep: Check.Report, health: Health, proof: Option<Instant>)
    requires Arrived(start, middle, d, now, arrived) && ProofArrived(Done(false), arrived)
    requires Distinct(Catalog(middle)) && Sound(after, d.suite, d.key) && Pruned(middle, after, gone, d.policy)
    requires Check.Answers(rep, Catalog(middle), d.maxAge, now) && HealthRecorded(health, proof, Catalog(middle), d.maxAge, now)
    requires rep.healthy && health == Ok200
    ensures CycleOutcome(start, after, d, now, health0, Trace(Done(|rep.warnings| > 0), arrived, true, health, proof))
  {
    hide Sound, Check.Answers, Check.Covered, Distinct, HealthRecorded, Retained;
    ThenPruned(start, middle, after, d, now, arrived);
    FreshProof(start, middle, d, now, arrived, rep);
    HealthSurvivesPrune(rep, health, proof, Catalog(middle), Catalog(after), d, now);
    HealthMeaning(health, proof, Catalog(after), d.maxAge, now);
  }

  lemma CalmPruned(start: Objects, middle: Objects, after: Objects, d: Deps, now: Instant, arrived: Backups, rep: Check.Report,
                   health: Health, proof: Option<Instant>)
    requires Arrived(start, middle, d, now, arrived) && ProofArrived(Done(false), arrived)
    requires Distinct(Catalog(middle)) && Check.Answers(rep, Catalog(middle), d.maxAge, now)
    ensures PrunedFully(middle, after, d.policy) ==>
              CalmOutcome(start, after, d, now, Trace(Done(|rep.warnings| > 0), arrived, true, health, proof))
  {
    hide Sound, Check.Answers, Distinct, Retained;
    FreshProof(start, middle, d, now, arrived, rep);
  }

  lemma NothingPruned(before: Objects, after: Objects, d: Deps, now: Instant, arrived: Backups)
    requires Arrived(before, after, d, now, arrived)
    ensures CycleRound(before, after, d.policy, now, arrived)
    ensures Sound(after, d.suite, d.key) && Extends(before, after)
  {
  }

  lemma ThenPruned(before: Objects, middle: Objects, after: Objects, d: Deps, now: Instant, arrived: Backups)
    requires Arrived(before, middle, d, now, arrived)
    requires Retained(Catalog(middle), d.policy) <= Catalog(after) <= Catalog(middle)
    ensures CycleRound(before, after, d.policy, now, arrived)
  {
  }

  /** After a proven backup the check is healthy, and it warns exactly when the newest backup is from the
      future and unproven. */
  lemma FreshProof(start: Objects, middle: Objects, d: Deps, now: Instant, arrived: Backups, rep: Check.Report)
    requires Arrived(start, middle, d, now, arrived) && (exists m :: arrived == {m} && m.Verified())
    requires Distinct(Catalog(middle)) && Check.Answers(rep, Catalog(middle), d.maxAge, now)
    ensures rep.warnings != [] <==> FutureUnproven(start, now)
    ensures d.maxAge >= 0 ==> rep.healthy
  {
    hide Catalog, Sound, Extends, NoStrays;
    var m :| arrived == {m} && m.Verified();
    assert m in VerifiedOf(Catalog(middle)) && rep.latest.Some?;
    var latest := rep.latest.value;
    if latest != m {
      assert IsNewest(Catalog(start), latest) && latest.createdAt != m.createdAt;
    }
    if x :| IsNewest(Catalog(start), x) && x.createdAt > now && !x.Verified() {
      assert IsNewest(Catalog(middle), x) && x.createdAt == latest.createdAt;
    }
  }

  // ---- Over every run of cycles ----

  /** A run: the store before each cycle and after the last one, and the backups each cycle added. The
      clock may be set back, and backups may be from the future, as long as no instant comes twice. */
  ghost predicate CyclesRun(stores: seq<Objects>, nows: seq<Instant>, arrivals: seq<Backups>, p: Policy) {
    && |stores| == |nows| + 1 && |arrivals| == |nows|
    && LaidOut(stores[0])
    && (forall i :: 0 <= i < |nows| ==> CycleRound(stores[i], stores[i + 1], p, nows[i], arrivals[i]))
    && (forall i, j :: 0 <= i < j < |nows| ==> nows[i] != nows[j])
    && (forall m, i :: m in Catalog(stores[0]) && 0 <= i < |nows| ==> m.createdAt != nows[i])
  }

  ghost function Rounds(stores: seq<Objects>, arrivals: seq<Backups>): (r: seq<Round>)
    requires |stores| == |arrivals| + 1
    ensures |r| == |arrivals|
  {
    seq(|arrivals|, i requires 0 <= i < |arrivals| => Round(arrivals[i], Catalog(stores[i + 1])))
  }

  /** Every backup a run has ever known. */
  ghost function EverTaken(stores: seq<Objects>, arrivals: seq<Backups>): Backups
    requires |stores| == |arrivals| + 1
  {
    HistoryOf(Catalog(stores[0]), Rounds(stores, arrivals))
  }

  lemma {:induction false} RunHistoryDistinct(stores: seq<Objects>, nows: seq<Instant>, arrivals: seq<Backups>, p: Policy)
    requires CyclesRun(stores, nows, arrivals, p)
    ensures Distinct(EverTaken(stores, arrivals))
    ensures forall m :: m in EverTaken(stores, arrivals) ==> m in Catalog(stores[0]) || exists i :: 0 <= i < |nows| && m.createdAt == nows[i]
  {
    hide LaidOut, Catalog, ValidRound, Distinct;
    if nows == [] {
      CatalogDistinct(stores[0]);
    } else {
      var n := |nows| - 1;
      RunHistoryDistinct(stores[..n + 1], nows[..n], arrivals[..n], p);
      EverTakenNext(stores, arrivals);
      assert CycleRound(stores[n], stores[n + 1], p, nows[n], arrivals[n]);
      DistinctGrows(EverTaken(stores[..n + 1], arrivals[..n]), arrivals[n], nows[n]);
    }
  }

  lemma EverTakenNext(stores: seq<Objects>, arrivals: seq<Backups>)
    requires |stores| == |arrivals| + 1 && arrivals != []
    ensures var n := |arrivals| - 1; EverTaken(stores, arrivals) == EverTaken(stores[..n + 1], arrivals[..n]) + arrivals[n]
  {
    hide Catalog;
    var n := |arrivals| - 1;
    assert Rounds(stores, arrivals)[..n] == Rounds(stores[..n + 1], arrivals[..n]);
  }

  lemma DistinctGrows(s: Backups, more: Backups, now: Instant)
    requires Distinct(s) && |more| <= 1
    requires (forall m :: m in s ==> m.createdAt != now) && forall m :: m in more ==> m.createdAt == now
    ensures Distinct(s + more)
  {
    forall a, b | a in more && b in more
      ensures a == b
    {
      SingletonSize(more, a, b);
    }
  }

  lemma SingletonSize(s: Backups, a: Manifest, b: Manifest)
    requires |s| <= 1 && a in s && b in s
    ensures a == b
  {
    assert |s - {a}| == |s| - 1;
    assert b != a ==> b in s - {a};
  }

  lemma RunRoundValid(stores: seq<Objects>, nows: seq<Instant>, arrivals: seq<Backups>, p: Policy, i: nat)
    requires CyclesRun(stores, nows, arrivals, p) && i < |nows|
    ensures var rounds := Rounds(stores, arrivals); ValidRound(LeftAfter(Catalog(stores[0]), rounds[..i]), rounds[i], p)
  {
    hide LaidOut, Catalog, ValidRound;
    assert LeftAfter(Catalog(stores[0]), Rounds(stores, arrivals)[..i]) == Catalog(stores[i]);
    assert CycleRound(stores[i], stores[i + 1], p, nows[i], arrivals[i]);
  }

  /** Over any run of cycles with one policy, whatever fails in them: no backup the policy would keep of
      all ever taken has been lost, the policy keeps the same of the store as of the whole history, and a
      complete prune would leave exactly that. */
  lemma RunEqualsOffline(stores: seq<Objects>, nows: seq<Instant>, arrivals: seq<Backups>, p: Policy)
    requires CyclesRun(stores, nows, arrivals, p)
    ensures var all, left := EverTaken(stores, arrivals), Catalog(stores[|nows|]);
            Retained(all, p) == Retained(left, p) <= left <= all
  {
    hide LaidOut, Catalog, Retained, HistoryOf, ValidRound, CycleRound, Distinct;
    RunHistoryDistinct(stores, nows, arrivals, p);
    var rounds := Rounds(stores, arrivals);
    forall i | 0 <= i < |rounds|
      ensures ValidRound(LeftAfter(Catalog(stores[0]), rounds[..i]), rounds[i], p)
    {
      RunRoundValid(stores, nows, arrivals, p, i);
    }
    OnlineEqualsOffline(Catalog(stores[0]), rounds, p);
  }
}
