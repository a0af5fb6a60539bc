/** The store under concurrency: one writer that backs up and verifies, any number of pruners and
    sweepers, all interleaved between any two store operations, each free to fail or to stop. */
module Protocol {
  import opened Artifact
  import opened Bytes
  import opened Framing
  import opened Manifests
  import opened Prune
  import opened Retention
  import opened RetentionSpec
  import opened Storage
  import opened Strings
  import opened Timestamp
  import opened Verify
  import opened Wrappers

  /** The parameters of a run. Without sweeping there are no sweepers and no assumption about time. */
  datatype Config = Config(suite: Suite, key: Key, minAge: Duration, sweeping: bool)

  /** The writer: idle, before its artifact, before its manifest, and through the stages of verifying
      its own backup. */
  datatype Writer =
    | Idle
    | Dumped(m: Manifest, artifact: seq<byte>)
    | Uploaded(m: Manifest, artifact: seq<byte>)
    | Recorded(m: Manifest)
    | Loaded(m: Manifest)
    | Fetched(m: Manifest, good: bool)

  /** A pruner: reading the manifests of a listing, or working off a plan. gone tells that the manifest
      of the first backup to remove was reported deleted; top is the newest id at the listing. */
  datatype Pruner =
    | Reading(keys: seq<string>, got: seq<Manifest>, top: int)
    | Deleting(todo: seq<Manifest>, gone: bool)

  /** A sweeper: it takes the time first, then lists manifests, then artifacts. */
  datatype Sweeper =
    | Timed(now: Instant)
    | Listing(now: Instant, live: set<string>)
    | Sweeping(now: Instant, live: set<string>, todo: seq<string>)

  /** newest is the greatest second ever used as an id; proven are the manifests ever stamped verified. */
  datatype State = State(
    objects: Objects,
    clock: Instant,
    newest: int,
    proven: Backups,
    writer: Writer,
    pruners: map<nat, Pruner>,
    sweepers: map<nat, Sweeper>)

  /** One store operation, or one step in between. ok is what the caller is told, reached what happened. */
  datatype Action =
    | Tick(t: Instant)
    | Begin(m: Manifest, artifact: seq<byte>)
    | PutArtifact(ok: bool, reached: bool)
    | PutManifest(ok: bool, reached: bool)
    | LoadBack
    | FetchBack(good: bool)
    | SaveRecord(v: Verification, reached: bool)
    | Crash
    | ListBackups(i: nat, keys: seq<string>)
    | GetBackup(i: nat)
    | MakePlan(i: nat, p: Policy, plan: Plan)
    | DeleteManifest(i: nat, ok: bool, reached: bool)
    | DeleteArtifact(i: nat, reached: bool)
    | StopPruner(i: nat)
    | StartSweep(i: nat)
    | ListLive(i: nat)
    | ListArtifacts(i: nat, keys: seq<string>)
    | SkipArtifact(i: nat)
    | SweepArtifact(i: nat, reached: bool)
    | StopSweep(i: nat)

  /** The backup whose artifact may be in the store while its manifest is still to come. */
  function InFlight(w: Writer): Option<Manifest> {
    if w.Dumped? || w.Uploaded? then Some(w.m) else None
  }

  ghost function LiveIdsOf(objects: Objects): set<string> {
    set k | k in objects && HasPrefix(k, MANIFEST_DIR) :: IdInManifestKey(k)
  }

  ghost predicate KeysUnder(objects: Objects, prefix: string, keys: seq<string>) {
    Ascending(keys) && forall k :: k in keys <==> k in objects && HasPrefix(k, prefix)
  }

  /** The age an id gives a backup created at t. */
  predicate Young(now: int, t: Instant, minAge: Duration) {
    !Past(now, SecondOf(t) * NS_PER_SECOND, minAge)
  }

  /** A backup in flight is always younger than the sweep's minimum age, counted from its id. */
  ghost predicate Timely(cfg: Config, s: State) {
    cfg.sweeping && InFlight(s.writer).Some? ==> Young(s.clock, InFlight(s.writer).value.createdAt, cfg.minAge)
  }

  ghost predicate Enabled(cfg: Config, s: State, a: Action) {
    match a
    case Tick(t) => t >= s.clock
    case Begin(m, artifact) =>
      && s.writer.Idle? && m.createdAt == s.clock && SecondOf(s.clock) > s.newest
      && WellPlaced(ManifestKey(m.id), m) && m.verification == UNVERIFIED
      && Materializes(cfg.suite, cfg.key, m, artifact)
    case PutArtifact(ok, reached) => s.writer.Dumped? && (ok ==> reached)
    case PutManifest(ok, reached) => s.writer.Uploaded? && (ok ==> reached)
    case LoadBack =>
      s.writer.Recorded? && ManifestKey(s.writer.m.id) in s.objects && s.objects[ManifestKey(s.writer.m.id)].Record?
    case FetchBack(good) => s.writer.Loaded? && (good ==> Restorable(cfg.suite, cfg.key, s.writer.m, s.objects))
    case SaveRecord(v, reached) => s.writer.Fetched? && Coherent(v) && (v.checksumOk ==> s.writer.good)
    case Crash => true
    case ListBackups(i, keys) => i !in s.pruners && KeysUnder(s.objects, MANIFEST_DIR, keys)
    case GetBackup(i) =>
      && i in s.pruners && s.pruners[i].Reading? && |s.pruners[i].got| < |s.pruners[i].keys|
      && var k := s.pruners[i].keys[|s.pruners[i].got|]; k in s.objects && s.objects[k].Record?
    case MakePlan(i, p, plan) =>
      && i in s.pruners && s.pruners[i].Reading? && |s.pruners[i].got| == |s.pruners[i].keys|
      && PlanFor(plan, s.pruners[i].got, p)
    case DeleteManifest(i, ok, reached) =>
      i in s.pruners && s.pruners[i].Deleting? && s.pruners[i].todo != [] && !s.pruners[i].gone && (ok ==> reached)
    case DeleteArtifact(i, reached) =>
      i in s.pruners && s.pruners[i].Deleting? && s.pruners[i].todo != [] && s.pruners[i].gone
    case StopPruner(i) => i in s.pruners
    case StartSweep(i) => cfg.sweeping && i !in s.sweepers
    case ListLive(i) => i in s.sweepers && s.sweepers[i].Timed?
    case ListArtifacts(i, keys) => i in s.sweepers && s.sweepers[i].Listing? && KeysUnder(s.objects, ARTIFACT_DIR, keys)
    case SkipArtifact(i) => i in s.sweepers && s.sweepers[i].Sweeping? && s.sweepers[i].todo != []
    case SweepArtifact(i, reached) =>
      && i in s.sweepers && s.sweepers[i].Sweeping? && s.sweepers[i].todo != []
      && Sweepable(s.sweepers[i].todo[0], s.sweepers[i].live, cfg.minAge, s.sweepers[i].now)
    case StopSweep(i) => i in s.sweepers
  }

  ghost function Next(cfg: Config, s: State, a: Action): State
    requires Enabled(cfg, s, a)
  {
    match a
    case Tick(t) => s.(clock := t)
    case Begin(m, artifact) => s.(writer := Dumped(m, artifact), newest := SecondOf(s.clock))
    case PutArtifact(ok, reached) =>
      var w := s.writer;
      s.(objects := if reached then s.objects[w.m.artifactKey := Blob(w.artifact)] else s.objects,
         writer := if ok then Uploaded(w.m, w.artifact) else Idle)
    case PutManifest(ok, reached) =>
      var w := s.writer;
      s.(objects := if reached then s.objects[ManifestKey(w.m.id) := Record(w.m)] else s.objects,
         writer := if ok then Recorded(w.m) else Idle)
    case LoadBack => s.(writer := Loaded(s.objects[ManifestKey(s.writer.m.id)].m))
    case FetchBack(good) => s.(writer := Fetched(s.writer.m, good))
    case SaveRecord(v, reached) =>
      var m := s.writer.m.(verification := v);
      s.(objects := if reached then s.objects[ManifestKey(m.id) := Record(m)] else s.objects,
         proven := if reached && v.verified then s.proven + {m} else s.proven,
         writer := Idle)
    case Crash => s.(writer := Idle)
    case ListBackups(i, keys) => s.(pruners := s.pruners[i := Reading(keys, [], s.newest)])
    case GetBackup(i) =>
      var r := s.pruners[i];
      s.(pruners := s.pruners[i := Reading(r.keys, r.got + [s.objects[r.keys[|r.got|]].m], r.top)])
    case MakePlan(i, p, plan) => s.(pruners := s.pruners[i := Deleting(Selected(plan.decisions, false), false)])
    case DeleteManifest(i, ok, reached) =>
      var r := s.pruners[i];
      s.(objects := if reached then s.objects - {ManifestKey(r.todo[0].id)} else s.objects,
         pruners := s.pruners[i := if ok then Deleting(r.todo, true) else Deleting(r.todo[1..], false)])
    case DeleteArtifact(i, reached) =>
      var r := s.pruners[i];
      s.(objects := if reached then s.objects - {r.todo[0].artifactKey} else s.objects,
         pruners := s.pruners[i := Deleting(r.todo[1..], false)])
    case StopPruner(i) => s.(pruners := s.pruners - {i})
    case StartSweep(i) => s.(sweepers := s.sweepers[i := Timed(s.clock)])
    case ListLive(i) => s.(sweepers := s.sweepers[i := Listing(s.sweepers[i].now, LiveIdsOf(s.objects))])
    case ListArtifacts(i, keys) => s.(sweepers := s.sweepers[i := Sweeping(s.sweepers[i].now, s.sweepers[i].live, keys)])
    case SkipArtifact(i) => s.(sweepers := s.sweepers[i := s.sweepers[i].(todo := s.sweepers[i].todo[1..])])
    case SweepArtifact(i, reached) =>
      s.(objects := if reached then s.objects - {s.sweepers[i].todo[0]} else s.objects,
         sweepers := s.sweepers[i := s.sweepers[i].(todo := s.sweepers[i].todo[1..])])
    case StopSweep(i) => s.(sweepers := s.sweepers - {i})
  }

  /** A step that respects the timing assumption. */
  ghost predicate Step(cfg: Config, s: State, a: Action) {
    Enabled(cfg, s, a) && Timely(cfg, Next(cfg, s, a))
  }
}
