/** Safety of the store under concurrency. */
module ProtocolSafety {
  import opened Artifact
  import opened Manifests
  import opened Protocol
  import opened Prune
  import opened RetentionSpec
  import opened Runner
  import opened Storage
  import opened Strings
  import opened Timestamp

  // ---- The invariant ----

  ghost predicate StoreInv(cfg: Config, s: State) {
    && Sound(s.objects, cfg.suite, cfg.key) && NoStrays(s.objects)
    && forall m :: m in Catalog(s.objects) ==> SecondOf(m.createdAt) <= s.newest
  }

  /** The newest backup ever proven is still advertised, and no proof has been overwritten. */
  ghost predicate ProvenInv(s: State) {
    && VerifiedOf(Catalog(s.objects)) <= s.proven
    && (forall p :: p in s.proven ==> p.Verified() && p.id == Id(p.createdAt) && SecondOf(p.createdAt) <= s.newest)
    && (forall p, q :: p in s.proven && q in s.proven && p.id == q.id ==> p == q)
    && (forall p, m :: p in s.proven && m in Catalog(s.objects) && p.id == m.id ==> p == m)
    && (forall p :: IsNewest(s.proven, p) ==> p in Catalog(s.objects))
  }

  /** The writer's backup has the newest id, and nothing is proven about it yet. */
  ghost predicate OwnBackup(s: State, m: Manifest) {
    && WellPlaced(ManifestKey(m.id), m)
    && SecondOf(m.createdAt) == s.newest
    && m.verification == UNVERIFIED
    && forall p :: p in s.proven ==> SecondOf(p.createdAt) < s.newest
  }

  ghost predicate WriterInv(cfg: Config, s: State) {
    match s.writer
    case Idle => true
    case Dumped(m, artifact) =>
      && OwnBackup(s, m) && Materializes(cfg.suite, cfg.key, m, artifact)
      && forall x :: x in Catalog(s.objects) ==> SecondOf(x.createdAt) < s.newest
    case Uploaded(m, artifact) =>
      && OwnBackup(s, m) && Materializes(cfg.suite, cfg.key, m, artifact)
      && (forall x :: x in Catalog(s.objects) ==> SecondOf(x.createdAt) < s.newest)
      && m.artifactKey in s.objects && s.objects[m.artifactKey] == Blob(artifact)
    case Recorded(m) => OwnBackup(s, m) && m in Catalog(s.objects)
    case Loaded(m) => OwnBackup(s, m) && m in Catalog(s.objects)
    case Fetched(m, good) =>
      OwnBackup(s, m) && m in Catalog(s.objects) && (good ==> Restorable(cfg.suite, cfg.key, m, s.objects))
  }

  /** Whatever is stored under the key was created by second top. */
  ghost predicate KeyBy(k: string, top: int) {
    forall m :: WellPlaced(k, m) ==> SecondOf(m.createdAt) <= top
  }

  /** A manifest a pruner has read: if it is verified it is proven, and if it has been proven since, it
      is the newest of the pruner's listing. */
  ghost predicate GotInv(proven: Backups, k: string, m: Manifest, top: int) {
    && WellPlaced(k, m)
    && (m.Verified() ==> m in proven)
    && (!m.Verified() && (exists p :: p in proven && p.id == m.id) ==> SecondOf(m.createdAt) == top)
  }

  /** A backup a pruner will remove: the writer is done with it, and it is not the newest proven one. */
  ghost predicate Removable(s: State, m: Manifest) {
    && WellPlaced(ManifestKey(m.id), m)
    && SecondOf(m.createdAt) < s.newest
    && forall p :: IsNewest(s.proven, p) ==> p.id != m.id
  }

  ghost predicate PrunerInv(s: State, r: Pruner) {
    match r
    case Reading(keys, got, top) =>
      && top <= s.newest && |got| <= |keys| && Ascending(keys)
      && (forall k :: k in keys ==> KeyBy(k, top))
      && (forall j :: 0 <= j < |got| ==> GotInv(s.proven, keys[j], got[j], top))
    case Deleting(todo, gone) =>
      && (forall m :: m in todo ==> Removable(s, m))
      && (gone ==> todo != [] && ManifestKey(todo[0].id) !in s.objects)
  }

  /** The creation times of all backups that have a manifest or may still get one. */
  ghost function Claims(s: State): set<Instant> {
    (set m | m in Catalog(s.objects) :: m.createdAt)
      + if InFlight(s.writer).Some? then {InFlight(s.writer).value.createdAt} else {}
  }

  /** Everything a sweeper must not touch is on its list or too young for it. */
  ghost predicate Spared(cfg: Config, s: State, now: Instant, live: set<string>) {
    forall t :: t in Claims(s) ==> Id(t) in live || Young(now, t, cfg.minAge)
  }

  ghost predicate SweeperInv(cfg: Config, s: State, w: Sweeper) {
    && cfg.sweeping && w.now <= s.clock
    && (!w.Timed? ==> Spared(cfg, s, w.now, w.live))
    && (w.Sweeping? ==> forall k :: k in w.todo ==> HasPrefix(k, ARTIFACT_DIR))
  }

  ghost predicate Inv(cfg: Config, s: State) {
    && StoreInv(cfg, s) && ProvenInv(s) && WriterInv(cfg, s) && Timely(cfg, s)
    && (forall i :: i in s.pruners ==> PrunerInv(s, s.pruners[i]))
    && (forall i :: i in s.sweepers ==> SweeperInv(cfg, s, s.sweepers[i]))
  }

  /** A sound store nobody works on; what is verified in it counts as proven. */
  ghost predicate Init(cfg: Config, s: State) {
    && StoreInv(cfg, s)
    && s.proven == VerifiedOf(Catalog(s.objects))
    && s.writer == Idle && s.pruners == map[] && s.sweepers == map[]
  }

  lemma InitInv(cfg: Config, s: State)
    requires Init(cfg, s)
    ensures Inv(cfg, s)
  {
    hide Restorable;
    CatalogDistinct(s.objects);
    forall m | m in Catalog(s.objects)
      ensures m.id == Id(m.createdAt)
    {
      Placed(s.objects, m);
    }
  }

  // ---- What any step may do to the others ----

  /** The view other actors have of a step: time and ids only grow, manifests appear only under the
      newest id, proofs are added only for the newest id, and no new claim is old enough to be swept. */
  ghost predicate Evolves(cfg: Config, s: State, t: State) {
    && s.newest <= t.newest && s.clock <= t.clock
    && (forall m :: m in Catalog(t.objects) && ManifestKey(m.id) !in s.objects ==> SecondOf(m.createdAt) == t.newest)
    && (forall k :: k in t.objects && k !in s.objects && HasPrefix(k, MANIFEST_DIR) ==> t.objects[k].Record?)
    && (forall c :: c in Claims(t) ==> c in Claims(s) || (cfg.sweeping ==> Young(t.clock, c, cfg.minAge)))
    && s.proven <= t.proven
    && (forall p :: p in t.proven && p !in s.proven ==> SecondOf(p.createdAt) == t.newest)
  }

  lemma PrunerFrame(cfg: Config, s: State, t: State, r: Pruner)
    requires Evolves(cfg, s, t) && PrunerInv(s, r) && LaidOut(t.objects)
    requires forall p :: p in t.proven ==> p.id == Id(p.createdAt)
    ensures PrunerInv(t, r)
  {
    hide WellPlaced, SecondOf, Id, Claims, HasPrefix;
    match r
    case Reading(keys, got, top) =>
      forall j | 0 <= j < |got|
        ensures GotInv(t.proven, keys[j], got[j], top)
      {
        assert KeyBy(keys[j], top);
        if p :| p in t.proven && p.id == got[j].id && p !in s.proven {
          SameId(got[j], p, keys[j]);
        }
      }
    case Deleting(todo, gone) =>
      forall m | m in todo
        ensures Removable(t, m)
      {
        RemovableFrame(cfg, s, t, m);
      }
      if gone {
        StaysGone(cfg, s, t, todo[0]);
      }
  }

  lemma SameId(m: Manifest, p: Manifest, k: string)
    requires WellPlaced(k, m) && p.id == Id(p.createdAt) && p.id == m.id
    ensures SecondOf(p.createdAt) == SecondOf(m.createdAt)
  {
    IdInjective(p.createdAt, m.createdAt);
  }

  lemma RemovableFrame(cfg: Config, s: State, t: State, m: Manifest)
    requires Evolves(cfg, s, t) && Removable(s, m)
    requires forall p :: p in t.proven ==> p.id == Id(p.createdAt)
    ensures Removable(t, m)
  {
    hide WellPlaced, SecondOf, Id, Claims, HasPrefix, Catalog;
    if q :| q in t.proven && q !in s.proven {
      forall p | p in t.proven
        ensures p.id == m.id ==> SecondOf(p.createdAt) == SecondOf(m.createdAt)
        ensures q.createdAt <= p.createdAt ==> SecondOf(q.createdAt) <= SecondOf(p.createdAt)
      {
        if p.id == m.id {
          SameId(m, p, ManifestKey(m.id));
        }
        SecondsOrder(q.createdAt, p.createdAt);
      }
    } else {
      assert t.proven == s.proven;
    }
  }

  /** A manifest on its way out does not come back. */
  lemma StaysGone(cfg: Config, s: State, t: State, m: Manifest)
    requires Evolves(cfg, s, t) && Removable(s, m) && LaidOut(t.objects)
    ensures ManifestKey(m.id) in t.objects ==> ManifestKey(m.id) in s.objects
  {
    hide SecondOf, Id, Claims, HasPrefix;
    KeysCarryIds(m.id);
    if ManifestKey(m.id) in t.objects && t.objects[ManifestKey(m.id)].Record? {
      var x := t.objects[ManifestKey(m.id)].m;
      KeysDistinct(x.id, m.id);
      assert x in Catalog(t.objects);
      SameId(x, m, ManifestKey(m.id));
    }
  }

  lemma SweeperFrame(cfg: Config, s: State, t: State, w: Sweeper)
    requires Evolves(cfg, s, t) && SweeperInv(cfg, s, w)
    ensures SweeperInv(cfg, t, w)
  {
    hide Id, SecondOf, Claims, HasPrefix, Catalog;
    if !w.Timed? {
      forall c | c in Claims(t)
        ensures Id(c) in w.live || Young(w.now, c, cfg.minAge)
      {
        if c !in Claims(s) {
          YoungEarlier(w.now, t.clock, c, cfg.minAge);
        }
      }
    }
  }

  lemma YoungEarlier(a: int, b: int, t: Instant, minAge: Duration)
    requires a <= b && Young(b, t, minAge)
    ensures Young(a, t, minAge)
  {
  }

  /** A step that keeps the shared invariants and evolves the state keeps everyone's invariant, except
      that the acting pruner or sweeper has to answer for itself. */
  lemma OthersKeep(cfg: Config, s: State, t: State)
    requires Inv(cfg, s) && Evolves(cfg, s, t)
    requires StoreInv(cfg, t) && ProvenInv(t) && WriterInv(cfg, t) && Timely(cfg, t)
    requires forall i :: i in t.pruners ==> (i in s.pruners && t.pruners[i] == s.pruners[i]) || PrunerInv(t, t.pruners[i])
    requires forall i :: i in t.sweepers ==> (i in s.sweepers && t.sweepers[i] == s.sweepers[i]) || SweeperInv(cfg, t, t.sweepers[i])
    ensures Inv(cfg, t)
  {
    hide Evolves, PrunerInv, SweeperInv, WriterInv, Timely, Restorable, LaidOut, NoStrays, Claims, Catalog;
    forall i | i in t.pruners
      ensures PrunerInv(t, t.pruners[i])
    {
      if i in s.pruners && t.pruners[i] == s.pruners[i] {
        PrunerFrame(cfg, s, t, s.pruners[i]);
      }
    }
    forall i | i in t.sweepers
      ensures SweeperInv(cfg, t, t.sweepers[i])
    {
      if i in s.sweepers && t.sweepers[i] == s.sweepers[i] {
        SweeperFrame(cfg, s, t, s.sweepers[i]);
      }
    }
  }
}
