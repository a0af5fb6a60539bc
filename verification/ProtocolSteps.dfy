/** Every step of the protocol keeps the invariant. */
module ProtocolSteps {
  import opened Artifact
  import Bytes
  import opened Manifests
  import opened Protocol
  import opened ProtocolSafety
  import opened Prune
  import opened Retention
  import opened RetentionSpec
  import opened Runner
  import opened Storage
  import opened Strings
  import opened Timestamp
  import opened Verify
  import opened Wrappers

  /** Where the objects of an advertised backup are. */
  lemma Stored(cfg: Config, s: State)
    requires StoreInv(cfg, s)
    ensures forall m :: m in Catalog(s.objects) ==>
              && WellPlaced(ManifestKey(m.id), m) && m.id == Id(m.createdAt) && m.artifactKey == ArtifactKey(m.id)
              && ManifestKey(m.id) in s.objects && s.objects[ManifestKey(m.id)] == Record(m)
              && m.artifactKey in s.objects
  {
    hide Restorable, Settled, Id, ManifestKey, ArtifactKey;
  }

  // ---- Steps that leave the store alone ----

  ghost predicate StoreUntouched(s: State, t: State) {
    && t.objects == s.objects && t.newest == s.newest && t.proven == s.proven && s.clock <= t.clock
    && InFlight(t.writer) in {None, InFlight(s.writer)}
  }

  lemma QuietStep(cfg: Config, s: State, t: State)
    requires Inv(cfg, s) && StoreUntouched(s, t)
    ensures StoreInv(cfg, t) && ProvenInv(t) && Evolves(cfg, s, t)
    ensures t.writer == s.writer ==> WriterInv(cfg, t)
  {
    hide Sound, Catalog, Restorable, Materializes, WellPlaced, SecondOf, HasPrefix, Evolves, PrunerInv, SweeperInv, Timely;
    QuietEvolves(cfg, s, t);
  }

  lemma QuietEvolves(cfg: Config, s: State, t: State)
    requires StoreInv(cfg, s) && StoreUntouched(s, t)
    ensures Evolves(cfg, s, t)
  {
    hide Sound, NoStrays, Catalog, WellPlaced, SecondOf, HasPrefix, Id, ManifestKey, ArtifactKey, Young;
    Stored(cfg, s);
  }

  lemma ClockAndStops(cfg: Config, s: State, a: Action)
    requires Inv(cfg, s) && Step(cfg, s, a)
    requires a.Tick? || a.Crash? || a.StopPruner? || a.StopSweep? || a.StartSweep? || a.SkipArtifact?
    ensures Inv(cfg, Next(cfg, s, a)) && Evolves(cfg, s, Next(cfg, s, a))
  {
    hide Spared, Sound, ProvenInv, OwnBackup, PrunerInv, Restorable, Evolves;
    var t := Next(cfg, s, a);
    QuietStep(cfg, s, t);
    if a.SkipArtifact? {
      SweepsOn(cfg, s, t, s.sweepers[a.i]);
    }
    OthersKeep(cfg, s, t);
  }

  /** A sweeper that has dealt with one artifact still spares what it must. */
  lemma SweepsOn(cfg: Config, s: State, t: State, w: Sweeper)
    requires SweeperInv(cfg, s, w) && Evolves(cfg, s, t) && w.Sweeping? && w.todo != []
    ensures SweeperInv(cfg, t, w.(todo := w.todo[1..]))
  {
    hide Spared, Evolves;
    SweeperFrame(cfg, s, t, w);
  }

  lemma BeginKeeps(cfg: Config, s: State, a: Action)
    requires Inv(cfg, s) && Step(cfg, s, a) && a.Begin?
    ensures Inv(cfg, Next(cfg, s, a)) && Evolves(cfg, s, Next(cfg, s, a))
  {
    hide Sound, Restorable, Materializes, WellPlaced, SecondOf, PrunerInv, SweeperInv, HasPrefix, Young;
    var t := Next(cfg, s, a);
    Stored(cfg, s);
    OthersKeep(cfg, s, t);
  }

  lemma ReadsBackKeep(cfg: Config, s: State, a: Action)
    requires Inv(cfg, s) && Step(cfg, s, a) && (a.LoadBack? || a.FetchBack?)
    ensures Inv(cfg, Next(cfg, s, a)) && Evolves(cfg, s, Next(cfg, s, a))
  {
    hide Sound, ProvenInv, OwnBackup, PrunerInv, SweeperInv, Restorable, Evolves, Catalog, WellPlaced;
    var t := Next(cfg, s, a);
    Stored(cfg, s);
    QuietStep(cfg, s, t);
    assert OwnBackup(s, s.writer.m);
    SameOwner(s, t, s.writer.m);
    OthersKeep(cfg, s, t);
  }

  lemma SameOwner(s: State, t: State, m: Manifest)
    requires t.newest == s.newest && t.proven == s.proven && OwnBackup(s, m)
    ensures OwnBackup(t, m)
  {
  }

  // ---- Steps of the writer on the store ----

  lemma PutArtifactKeeps(cfg: Config, s: State, a: Action)
    requires Inv(cfg, s) && Step(cfg, s, a) && a.PutArtifact?
    ensures Inv(cfg, Next(cfg, s, a)) && Evolves(cfg, s, Next(cfg, s, a))
  {
    hide Restorable, Materializes, PrunerInv, SweeperInv, Catalog, Sound, NoStrays, ProvenInv, OwnBackup, Evolves;
    var t, m := Next(cfg, s, a), s.writer.m;
    if !a.reached {
      QuietStep(cfg, s, t);
      SameOwner(s, t, m);
    } else {
      ArtifactReached(cfg, s, t, m, s.writer.artifact);
    }
    OthersKeep(cfg, s, t);
  }

  lemma ArtifactReached(cfg: Config, s: State, t: State, m: Manifest, artifact: seq<Bytes.byte>)
    requires StoreInv(cfg, s) && ProvenInv(s) && OwnBackup(s, m)
    requires forall x :: x in Catalog(s.objects) ==> SecondOf(x.createdAt) < s.newest
    requires t.objects == s.objects[m.artifactKey := Blob(artifact)]
    requires t.newest == s.newest && t.clock == s.clock && t.proven == s.proven
    requires InFlight(t.writer) in {None, InFlight(s.writer)}
    ensures StoreInv(cfg, t) && ProvenInv(t) && OwnBackup(t, m) && Evolves(cfg, s, t)
    ensures Catalog(t.objects) == Catalog(s.objects)
  {
    hide Restorable, Sound, NoStrays, Catalog, SecondOf, HasPrefix, Young, WellPlaced;
    Stored(cfg, s);
    ArtifactStored(cfg, s, m, artifact);
  }

  /** The artifact of a new backup touches no other backup. */
  lemma ArtifactStored(cfg: Config, s: State, m: Manifest, artifact: seq<Bytes.byte>)
    requires StoreInv(cfg, s) && WellPlaced(ManifestKey(m.id), m)
    requires forall x :: x in Catalog(s.objects) ==> SecondOf(x.createdAt) < SecondOf(m.createdAt)
    ensures var after := s.objects[m.artifactKey := Blob(artifact)];
            && Sound(after, cfg.suite, cfg.key) && NoStrays(after)
            && Catalog(after) == Catalog(s.objects)
            && !HasPrefix(m.artifactKey, MANIFEST_DIR)
  {
    hide Restorable, Materializes, SecondOf, HasPrefix, Catalog, Settled, Id;
    var after := s.objects[m.artifactKey := Blob(artifact)];
    KeysCarryIds(m.id);
    CatalogAfterArtifact(s.objects, m.id, artifact);
    Stored(cfg, s);
    forall x | x in Catalog(s.objects)
      ensures x.artifactKey != m.artifactKey
      ensures Restorable(cfg.suite, cfg.key, x, after) == Restorable(cfg.suite, cfg.key, x, s.objects)
    {
      KeysDistinct(x.id, m.id);
      IdInjective(x.createdAt, m.createdAt);
      SameArtifactRestores(cfg.suite, cfg.key, x, s.objects, after);
    }
  }

  lemma PutManifestKeeps(cfg: Config, s: State, a: Action)
    requires Inv(cfg, s) && Step(cfg, s, a) && a.PutManifest?
    ensures Inv(cfg, Next(cfg, s, a)) && Evolves(cfg, s, Next(cfg, s, a))
  {
    hide Restorable, Materializes, PrunerInv, SweeperInv, Catalog, Sound, NoStrays, ProvenInv, OwnBackup, Evolves;
    var t, m := Next(cfg, s, a), s.writer.m;
    if !a.reached {
      QuietStep(cfg, s, t);
      SameOwner(s, t, m);
    } else {
      ManifestReached(cfg, s, t, m);
    }
    OthersKeep(cfg, s, t);
  }

  lemma ManifestReached(cfg: Config, s: State, t: State, m: Manifest)
    requires StoreInv(cfg, s) && ProvenInv(s) && OwnBackup(s, m) && InFlight(s.writer) == Some(m)
    requires forall x :: x in Catalog(s.objects) ==> SecondOf(x.createdAt) < s.newest
    requires m.artifactKey in s.objects
    requires t.objects == s.objects[ManifestKey(m.id) := Record(m)]
    requires t.newest == s.newest && t.clock == s.clock && t.proven == s.proven && InFlight(t.writer).None?
    ensures StoreInv(cfg, t) && ProvenInv(t) && OwnBackup(t, m) && Evolves(cfg, s, t) && m in Catalog(t.objects)
  {
    hide Restorable, Sound, NoStrays, Catalog, SecondOf, HasPrefix, Young, WellPlaced, ManifestKey, ArtifactKey;
    Stored(cfg, s);
    ManifestStored(cfg, s, m);
    ManifestProven(cfg, s, t, m);
  }

  /** Recording a new backup adds it and nothing else. */
  lemma ManifestStored(cfg: Config, s: State, m: Manifest)
    requires StoreInv(cfg, s) && WellPlaced(ManifestKey(m.id), m) && m.verification == UNVERIFIED
    requires forall x :: x in Catalog(s.objects) ==> SecondOf(x.createdAt) < SecondOf(m.createdAt)
    requires m.artifactKey in s.objects
    ensures var after := s.objects[ManifestKey(m.id) := Record(m)];
            && Sound(after, cfg.suite, cfg.key) && NoStrays(after)
            && Catalog(after) == Catalog(s.objects) + {m}
  {
    hide Restorable, Materializes, SecondOf, HasPrefix, Catalog, Id, ManifestKey, ArtifactKey;
    var after := s.objects[ManifestKey(m.id) := Record(m)];
    CatalogAfterRecord(s.objects, m);
    Stored(cfg, s);
    forall x | x in Catalog(s.objects)
      ensures x.id != m.id
      ensures Restorable(cfg.suite, cfg.key, x, after) == Restorable(cfg.suite, cfg.key, x, s.objects)
    {
      KeysDistinct(m.id, x.id);
      IdInjective(x.createdAt, m.createdAt);
      SameArtifactRestores(cfg.suite, cfg.key, x, s.objects, after);
    }
  }

  /** A new unverified backup changes nothing about what is proven. */
  lemma ManifestProven(cfg: Config, s: State, t: State, m: Manifest)
    requires ProvenInv(s) && OwnBackup(s, m)
    requires Catalog(t.objects) == Catalog(s.objects) + {m} && t.proven == s.proven && t.newest == s.newest
    ensures ProvenInv(t)
  {
    hide Catalog, SecondOf, Id, ManifestKey;
    forall p | p in s.proven
      ensures p.id != m.id
    {
      if p.id == m.id {
        SameId(m, p, ManifestKey(m.id));
      }
    }
  }

  lemma SaveRecordKeeps(cfg: Config, s: State, a: Action)
    requires Inv(cfg, s) && Step(cfg, s, a) && a.SaveRecord?
    ensures Inv(cfg, Next(cfg, s, a)) && Evolves(cfg, s, Next(cfg, s, a))
  {
    hide PrunerInv, SweeperInv, Sound, ProvenInv, OwnBackup, Restorable, Evolves, Claims, Catalog, NoStrays;
    var t, m := Next(cfg, s, a), s.writer.m;
    if !a.reached {
      QuietStep(cfg, s, t);
    } else {
      SaveReached(cfg, s, t, m, m.(verification := a.v));
    }
    OthersKeep(cfg, s, t);
  }

  lemma SaveReached(cfg: Config, s: State, t: State, m: Manifest, m': Manifest)
    requires StoreInv(cfg, s) && ProvenInv(s) && OwnBackup(s, m) && m in Catalog(s.objects)
    requires m' == m.(verification := m'.verification) && Coherent(m'.verification)
    requires m'.Verified() ==> Restorable(cfg.suite, cfg.key, m, s.objects)
    requires t == s.(objects := s.objects[ManifestKey(m.id) := Record(m')],
                     proven := if m'.Verified() then s.proven + {m'} else s.proven,
                     writer := Idle)
    ensures StoreInv(cfg, t) && ProvenInv(t) && Evolves(cfg, s, t)
  {
    hide Restorable, NoStrays, ProvenInv, Catalog, SecondOf, ManifestKey, HasPrefix, Coherent, Evolves, Settled;
    CatalogDistinct(s.objects);
    RecordSaved(cfg, s, m, m');
    RecordProven(cfg, s, t, m, m');
    SaveEvolves(cfg, s, t, m, m');
  }

  lemma SaveEvolves(cfg: Config, s: State, t: State, m: Manifest, m': Manifest)
    requires StoreInv(cfg, s) && m in Catalog(s.objects) && SecondOf(m.createdAt) == s.newest
    requires m' == m.(verification := m'.verification)
    requires Catalog(t.objects) == Catalog(s.objects) - {m} + {m'}
    requires t.objects == s.objects[ManifestKey(m.id) := Record(m')] && t.writer.Idle?
    requires t.proven in {s.proven, s.proven + {m'}} && t.newest == s.newest && t.clock == s.clock
    ensures Evolves(cfg, s, t)
  {
    hide Restorable, Sound, NoStrays, Catalog, SecondOf, ManifestKey, HasPrefix, Young, WellPlaced;
    Stored(cfg, s);
    assert m'.createdAt == m.createdAt && m'.id == m.id;
  }

  /** Saving the record of a verification replaces the backup's manifest and nothing else. */
  lemma RecordSaved(cfg: Config, s: State, m: Manifest, m': Manifest)
    requires StoreInv(cfg, s) && m in Catalog(s.objects)
    requires m' == m.(verification := m'.verification) && Coherent(m'.verification)
    requires m'.Verified() ==> Restorable(cfg.suite, cfg.key, m, s.objects)
    ensures var after := s.objects[ManifestKey(m.id) := Record(m')];
            && Sound(after, cfg.suite, cfg.key) && NoStrays(after)
            && Catalog(after) == Catalog(s.objects) - {m} + {m'}
  {
    hide Restorable, SecondOf, HasPrefix, Catalog, Id, ManifestKey, ArtifactKey;
    var after := s.objects[ManifestKey(m.id) := Record(m')];
    Stored(cfg, s);
    CatalogAfterRecord(s.objects, m');
    CatalogDistinct(s.objects);
    forall x | x in Catalog(s.objects)
      ensures x.artifactKey in after && after[x.artifactKey] == s.objects[x.artifactKey]
    {
      KeysDistinct(m.id, x.id);
    }
    forall x: Manifest | x.artifactKey in s.objects && after[x.artifactKey] == s.objects[x.artifactKey]
      ensures Restorable(cfg.suite, cfg.key, x, after) == Restorable(cfg.suite, cfg.key, x, s.objects)
    {
      SameArtifactRestores(cfg.suite, cfg.key, x, s.objects, after);
    }
    RecordIrrelevant(cfg.suite, cfg.key, m, m', s.objects);
  }

  /** The record of the newest backup becomes the newest proof, or changes no proof. */
  lemma RecordProven(cfg: Config, s: State, t: State, m: Manifest, m': Manifest)
    requires ProvenInv(s) && OwnBackup(s, m) && m' == m.(verification := m'.verification)
    requires forall x :: x in Catalog(s.objects) && x.id == m.id ==> x == m
    requires Catalog(t.objects) == Catalog(s.objects) - {m} + {m'} && t.newest == s.newest
    requires t.proven == s.proven + if m'.Verified() then {m'} else {}
    ensures ProvenInv(t)
  {
    hide Catalog, SecondOf, Id, ManifestKey;
    forall p | p in s.proven
      ensures p.id != m.id && p.createdAt < m.createdAt
    {
      SecondsOrder(p.createdAt, m.createdAt);
      if p.id == m.id {
        SameId(m, p, ManifestKey(m.id));
      }
    }
  }

  // ---- Deletions ----

  /** A key that may go: no advertised artifact, not the newest proof, nothing the writer works on. */
  ghost predicate Expendable(s: State, k: string) {
    && (forall m :: m in Catalog(s.objects) ==> m.artifactKey != k)
    && (forall p :: IsNewest(s.proven, p) ==> ManifestKey(p.id) != k)
    && (!s.writer.Idle? ==> ManifestKey(s.writer.m.id) != k && s.writer.m.artifactKey != k)
  }

  lemma DeletionKeeps(cfg: Config, s: State, t: State, k: string)
    requires Inv(cfg, s) && Expendable(s, k)
    requires t.objects == s.objects - {k} && t.newest == s.newest && t.proven == s.proven
    requires t.clock == s.clock && t.writer == s.writer
    ensures StoreInv(cfg, t) && ProvenInv(t) && WriterInv(cfg, t) && Evolves(cfg, s, t)
  {
    hide Restorable, Sound, WriterInv, Catalog, Settled, Materializes, WellPlaced, SecondOf, ManifestKey, HasPrefix;
    hide PrunerInv, SweeperInv, Evolves;
    StoreAfterDeletion(cfg, s, t, k);
    WriterAfterDeletion(cfg, s, t, k);
    DeletionEvolves(cfg, s, t, k);
  }

  lemma StoreAfterDeletion(cfg: Config, s: State, t: State, k: string)
    requires StoreInv(cfg, s) && Expendable(s, k) && t.objects == s.objects - {k}
    ensures Sound(t.objects, cfg.suite, cfg.key) && NoStrays(t.objects)
    ensures forall m :: m in Catalog(t.objects) <==> m in Catalog(s.objects) && ManifestKey(m.id) != k
  {
    hide Restorable, Catalog, Settled, WellPlaced, SecondOf, ManifestKey, HasPrefix;
    CatalogAfterRemoval(s.objects, {k});
    PruneSound(s.objects, cfg.suite, cfg.key, {k});
  }

  lemma WriterAfterDeletion(cfg: Config, s: State, t: State, k: string)
    requires WriterInv(cfg, s) && Expendable(s, k)
    requires t.objects == s.objects - {k} && t.newest == s.newest && t.proven == s.proven && t.writer == s.writer
    requires forall m :: m in Catalog(t.objects) <==> m in Catalog(s.objects) && ManifestKey(m.id) != k
    ensures WriterInv(cfg, t)
  {
    hide Catalog, Materializes, WellPlaced, SecondOf, ManifestKey, Restorable;
    if !s.writer.Idle? {
      SameOwner(s, t, s.writer.m);
      if s.writer.Fetched? && s.writer.good {
        RestorableStays(cfg, s.writer.m, s.objects, k);
      }
    }
  }

  lemma RestorableStays(cfg: Config, m: Manifest, objects: Objects, k: string)
    requires Restorable(cfg.suite, cfg.key, m, objects) && m.artifactKey != k
    ensures Restorable(cfg.suite, cfg.key, m, objects - {k})
  {
    SameArtifactRestores(cfg.suite, cfg.key, m, objects, objects - {k});
  }

  lemma DeletionEvolves(cfg: Config, s: State, t: State, k: string)
    requires StoreInv(cfg, s)
    requires t.objects == s.objects - {k} && t.newest == s.newest && t.proven == s.proven
    requires t.clock == s.clock && t.writer == s.writer
    requires forall m :: m in Catalog(t.objects) <==> m in Catalog(s.objects) && ManifestKey(m.id) != k
    ensures Evolves(cfg, s, t)
  {
    hide Restorable, Sound, NoStrays, Catalog, SecondOf, ManifestKey, HasPrefix, Young, WellPlaced;
    Stored(cfg, s);
  }

  /** The manifest and, once the manifest is gone, the artifact of a backup a pruner removes. */
  lemma RemovableExpendable(cfg: Config, s: State, m: Manifest)
    requires StoreInv(cfg, s) && ProvenInv(s) && WriterInv(cfg, s) && Removable(s, m)
    ensures Expendable(s, ManifestKey(m.id))
    ensures ManifestKey(m.id) !in s.objects ==> Expendable(s, m.artifactKey)
  {
    hide Restorable, Catalog, Settled, Materializes, SecondOf, Id, ManifestKey, ArtifactKey, Sound;
    Stored(cfg, s);
    forall x: Manifest
      ensures ManifestKey(x.id) == ManifestKey(m.id) <==> x.id == m.id
      ensures ArtifactKey(x.id) == ArtifactKey(m.id) <==> x.id == m.id
      ensures ManifestKey(x.id) != ArtifactKey(m.id) && ManifestKey(m.id) != ArtifactKey(x.id)
    {
      KeysDistinct(x.id, m.id);
      KeysDistinct(m.id, x.id);
    }
    if !s.writer.Idle? {
      var w := s.writer.m;
      IdInjective(w.createdAt, m.createdAt);
      assert OwnBackup(s, w);
    }
  }

  lemma DeleteManifestKeeps(cfg: Config, s: State, a: Action)
    requires Inv(cfg, s) && Step(cfg, s, a) && a.DeleteManifest?
    ensures Inv(cfg, Next(cfg, s, a)) && Evolves(cfg, s, Next(cfg, s, a))
  {
    hide Restorable, StoreInv, ProvenInv, WriterInv, SweeperInv, Evolves, Removable, Timely, ManifestKey, Expendable;
    var t, r := Next(cfg, s, a), s.pruners[a.i];
    var m := r.todo[0];
    assert PrunerInv(s, r) && Removable(s, m);
    RemovableExpendable(cfg, s, m);
    if a.reached {
      DeletionKeeps(cfg, s, t, ManifestKey(m.id));
    } else {
      QuietStep(cfg, s, t);
    }
    WorksOn(cfg, s, t, r);
    OthersKeep(cfg, s, t);
  }

  /** What is left of a pruner's work stays removable. */
  lemma WorksOn(cfg: Config, s: State, t: State, r: Pruner)
    requires Inv(cfg, s) && StoreInv(cfg, t) && ProvenInv(t) && Evolves(cfg, s, t)
    requires PrunerInv(s, r) && r.Deleting? && r.todo != []
    ensures PrunerInv(t, Deleting(r.todo[1..], false))
    ensures ManifestKey(r.todo[0].id) !in t.objects ==> PrunerInv(t, Deleting(r.todo, true))
  {
    hide Evolves, Restorable, Removable, Timely, WriterInv;
    PrunerFrame(cfg, s, t, r);
  }

  lemma PrunerStays(cfg: Config, s: State, t: State, r: Pruner)
    requires Evolves(cfg, s, t) && PrunerInv(s, r) && StoreInv(cfg, t) && ProvenInv(t)
    ensures PrunerInv(t, r)
  {
    hide Evolves, PrunerInv, Restorable, LaidOut;
    PrunerFrame(cfg, s, t, r);
  }

  lemma DeleteArtifactKeeps(cfg: Config, s: State, a: Action)
    requires Inv(cfg, s) && Step(cfg, s, a) && a.DeleteArtifact?
    ensures Inv(cfg, Next(cfg, s, a)) && Evolves(cfg, s, Next(cfg, s, a))
  {
    hide Restorable, StoreInv, ProvenInv, WriterInv, SweeperInv, Evolves, Removable, Timely, ManifestKey, Expendable;
    var t, r := Next(cfg, s, a), s.pruners[a.i];
    var m := r.todo[0];
    assert PrunerInv(s, r) && Removable(s, m);
    RemovableExpendable(cfg, s, m);
    if a.reached {
      DeletionKeeps(cfg, s, t, m.artifactKey);
    } else {
      QuietStep(cfg, s, t);
    }
    WorksOn(cfg, s, t, r);
    OthersKeep(cfg, s, t);
  }

  // ---- Steps of a pruner on its own state ----

  lemma ListBackupsKeeps(cfg: Config, s: State, a: Action)
    requires Inv(cfg, s) && Step(cfg, s, a) && a.ListBackups?
    ensures Inv(cfg, Next(cfg, s, a)) && Evolves(cfg, s, Next(cfg, s, a))
  {
    hide Restorable, ProvenInv, WriterInv, SweeperInv, Evolves, Timely, Sound, Catalog, HasPrefix, KeyBy;
    var t := Next(cfg, s, a);
    QuietStep(cfg, s, t);
    forall k | k in a.keys
      ensures KeyBy(k, s.newest)
    {
      KeysAreOld(cfg, s, k);
    }
    OthersKeep(cfg, s, t);
  }

  /** Every manifest key in the store belongs to a second already used. */
  lemma KeysAreOld(cfg: Config, s: State, k: string)
    requires StoreInv(cfg, s) && k in s.objects && s.objects[k].Record?
    ensures KeyBy(k, s.newest)
  {
    hide Restorable, SecondOf, Id, Settled, HasPrefix;
    var x := s.objects[k].m;
    assert x in Catalog(s.objects);
    forall m | WellPlaced(k, m)
      ensures SecondOf(m.createdAt) <= s.newest
    {
      KeysDistinct(m.id, x.id);
      IdInjective(m.createdAt, x.createdAt);
    }
  }

  lemma GetBackupKeeps(cfg: Config, s: State, a: Action)
    requires Inv(cfg, s) && Step(cfg, s, a) && a.GetBackup?
    ensures Inv(cfg, Next(cfg, s, a)) && Evolves(cfg, s, Next(cfg, s, a))
  {
    hide Restorable, StoreInv, ProvenInv, WriterInv, SweeperInv, Evolves, Timely, KeyBy, GotInv;
    var t, r := Next(cfg, s, a), s.pruners[a.i];
    QuietStep(cfg, s, t);
    PrunerStays(cfg, s, t, r);
    var k := r.keys[|r.got|];
    GotFromStore(cfg, s, k, r.top);
    ReadsOn(t, r, s.objects[k].m);
    OthersKeep(cfg, s, t);
  }

  lemma ReadsOn(t: State, r: Pruner, m: Manifest)
    requires r.Reading? && PrunerInv(t, r) && |r.got| < |r.keys| && GotInv(t.proven, r.keys[|r.got|], m, r.top)
    ensures PrunerInv(t, Reading(r.keys, r.got + [m], r.top))
  {
    hide GotInv, KeyBy;
  }

  /** A manifest read now is in the proofs exactly as it is in the store. */
  lemma GotFromStore(cfg: Config, s: State, k: string, top: int)
    requires StoreInv(cfg, s) && ProvenInv(s) && k in s.objects && s.objects[k].Record?
    ensures GotInv(s.proven, k, s.objects[k].m, top)
  {
    hide Restorable, SecondOf, Id, Settled, HasPrefix, ManifestKey, ArtifactKey;
    assert s.objects[k].m in Catalog(s.objects);
  }

  lemma MakePlanKeeps(cfg: Config, s: State, a: Action)
    requires Inv(cfg, s) && Step(cfg, s, a) && a.MakePlan?
    ensures Inv(cfg, Next(cfg, s, a)) && Evolves(cfg, s, Next(cfg, s, a))
  {
    hide Restorable, StoreInv, ProvenInv, WriterInv, SweeperInv, Evolves, Timely, PrunerInv, PlanFor;
    var t, r := Next(cfg, s, a), s.pruners[a.i];
    QuietStep(cfg, s, t);
    PrunerStays(cfg, s, t, r);
    PlanMade(t, r, a.p, a.plan);
    OthersKeep(cfg, s, t);
  }

  lemma PlanMade(s: State, r: Pruner, p: Policy, plan: Plan)
    requires ProvenInv(s) && r.Reading? && PrunerInv(s, r) && |r.got| == |r.keys|
    requires PlanFor(plan, r.got, p)
    ensures PrunerInv(s, Deleting(Selected(plan.decisions, false), false))
  {
    hide ProvenInv, Removable, PlanFor, Selected, GotInv, KeyBy;
    forall m | m in Selected(plan.decisions, false)
      ensures Removable(s, m)
    {
      DiscardedRemovable(s, r, p, plan, m);
    }
  }

  /** The guards of the plan at work: whatever was discarded of a snapshot, taken while the store went
      on changing, is neither the writer's backup nor the newest proof. */
  lemma DiscardedRemovable(s: State, r: Pruner, p: Policy, plan: Plan, m: Manifest)
    requires ProvenInv(s) && r.Reading? && PrunerInv(s, r) && |r.got| == |r.keys|
    requires PlanFor(plan, r.got, p) && m in Selected(plan.decisions, false)
    ensures Removable(s, m)
  {
    hide PrunerInv, ProvenInv, Removable, PlanFor, Selected, TakesSlot, AllDistinct;
    GotDistinct(s, r);
    DiscardedOfSnapshot(r.got, p, plan, m);
    TwoGuardsSuffice(s, r, m);
  }

  lemma DiscardedOfSnapshot(got: seq<Manifest>, p: Policy, plan: Plan, m: Manifest)
    requires AllDistinct(got) && PlanFor(plan, got, p) && m in Selected(plan.decisions, false)
    ensures m in SetOf(got) && m !in Retained(SetOf(got), p)
  {
    hide KeepsEverything, KeepsId, ReasonsGiven, NewestFirst, Selected, Retained;
    PlanRefinesSpec(plan.decisions, got, p);
    assert m in SetOf(Selected(plan.decisions, false));
  }

  /** Of the three guards two suffice for that: sparing the newest and the newest verified backup of the
      snapshot, whatever else is removed. */
  lemma TwoGuardsSuffice(s: State, r: Pruner, m: Manifest)
    requires ProvenInv(s) && r.Reading? && PrunerInv(s, r) && m in r.got
    requires !IsNewest(SetOf(r.got), m) && !IsNewest(VerifiedOf(SetOf(r.got)), m)
    ensures Removable(s, m)
  {
    hide PrunerInv, WellPlaced, SecondOf, ProvenInv, ManifestKey, Catalog, IsNewest;
    GotDistinct(s, r);
    var n, v := SparedAbove(r.got, m);
    GotPlaced(s, r, m);
    GotPlaced(s, r, n);
    if v.Some? {
      GotPlaced(s, r, v.value);
    }
    NotNewestProof(s, r, m, n, v);
  }

  /** A backup that is neither has a newer one in its snapshot and, if it is verified, a newer verified one. */
  lemma SparedAbove(got: seq<Manifest>, m: Manifest) returns (n: Manifest, v: Option<Manifest>)
    requires AllDistinct(got) && m in got && !IsNewest(SetOf(got), m) && !IsNewest(VerifiedOf(SetOf(got)), m)
    ensures n in got && n.createdAt > m.createdAt
    ensures m.Verified() ==> v.Some?
    ensures v.Some? ==> v.value in got && v.value.Verified() && v.value.createdAt > m.createdAt
  {
    var all := SetOf(got);
    n := NewestExists(all);
    v := None;
    if m.Verified() {
      assert m in VerifiedOf(all);
      var w := NewestExists(VerifiedOf(all));
      v := Some(w);
    }
  }

  lemma GotDistinct(s: State, r: Pruner)
    requires r.Reading? && PrunerInv(s, r)
    ensures AllDistinct(r.got)
  {
    hide KeyBy, Less, Id, ManifestKey;
    forall i, j | 0 <= i < j < |r.got|
      ensures r.got[i].createdAt != r.got[j].createdAt && r.got[i].id != r.got[j].id
    {
      assert GotInv(s.proven, r.keys[i], r.got[i], r.top) && GotInv(s.proven, r.keys[j], r.got[j], r.top);
      LessIrreflexive(r.keys[i]);
    }
  }

  lemma GotPlaced(s: State, r: Pruner, m: Manifest)
    requires r.Reading? && PrunerInv(s, r) && m in r.got
    ensures WellPlaced(ManifestKey(m.id), m) && m.id == Id(m.createdAt)
    ensures SecondOf(m.createdAt) <= r.top <= s.newest
    ensures m.Verified() ==> m in s.proven
    ensures !m.Verified() && (exists p :: p in s.proven && p.id == m.id) ==> SecondOf(m.createdAt) == r.top
  {
    hide SecondOf, Id;
    var j :| 0 <= j < |r.got| && r.got[j] == m;
    assert KeyBy(r.keys[j], r.top) && GotInv(s.proven, r.keys[j], m, r.top);
  }

  lemma NotNewestProof(s: State, r: Pruner, m: Manifest, n: Manifest, v: Option<Manifest>)
    requires ProvenInv(s) && r.Reading? && WellPlaced(ManifestKey(m.id), m)
    requires m.id == Id(m.createdAt) && n.id == Id(n.createdAt) && m.id != n.id && m.createdAt < n.createdAt
    requires SecondOf(n.createdAt) <= r.top <= s.newest
    requires m.Verified() ==> m in s.proven && v.Some? && v.value in s.proven && v.value.createdAt > m.createdAt
    requires !m.Verified() && (exists p :: p in s.proven && p.id == m.id) ==> SecondOf(m.createdAt) == r.top
    ensures Removable(s, m)
  {
    hide SecondOf, Id, ManifestKey, WellPlaced, Catalog;
    SecondsOrder(m.createdAt, n.createdAt);
    IdInjective(m.createdAt, n.createdAt);
  }

  // ---- Steps of a sweeper ----

  lemma ListLiveKeeps(cfg: Config, s: State, a: Action)
    requires Inv(cfg, s) && Step(cfg, s, a) && a.ListLive?
    ensures Inv(cfg, Next(cfg, s, a)) && Evolves(cfg, s, Next(cfg, s, a))
  {
    hide Restorable, StoreInv, ProvenInv, WriterInv, PrunerInv, Evolves, Timely, Spared, LiveIdsOf;
    var t := Next(cfg, s, a);
    QuietStep(cfg, s, t);
    assert SweeperInv(cfg, s, s.sweepers[a.i]);
    AllSpared(cfg, s, s.sweepers[a.i].now);
    SparedStays(cfg, s, t, s.sweepers[a.i].now, LiveIdsOf(s.objects));
    OthersKeep(cfg, s, t);
  }

  /** A listing of manifests together with the timing assumption covers every claim. */
  lemma AllSpared(cfg: Config, s: State, now: Instant)
    requires StoreInv(cfg, s) && Timely(cfg, s) && cfg.sweeping && now <= s.clock
    ensures Spared(cfg, s, now, LiveIdsOf(s.objects))
  {
    hide Restorable, Sound, Id, ManifestKey, ArtifactKey, HasPrefix, IdInManifestKey, Young, Catalog, WellPlaced;
    Stored(cfg, s);
    forall m | m in Catalog(s.objects)
      ensures Id(m.createdAt) in LiveIdsOf(s.objects)
    {
      KeysCarryIds(m.id);
    }
    if InFlight(s.writer).Some? {
      YoungEarlier(now, s.clock, InFlight(s.writer).value.createdAt, cfg.minAge);
    }
  }

  lemma SparedStays(cfg: Config, s: State, t: State, now: Instant, live: set<string>)
    requires Spared(cfg, s, now, live) && StoreUntouched(s, t)
    ensures Spared(cfg, t, now, live)
  {
    hide Id, Young, Catalog;
  }

  lemma ListArtifactsKeeps(cfg: Config, s: State, a: Action)
    requires Inv(cfg, s) && Step(cfg, s, a) && a.ListArtifacts?
    ensures Inv(cfg, Next(cfg, s, a)) && Evolves(cfg, s, Next(cfg, s, a))
  {
    hide Restorable, StoreInv, ProvenInv, WriterInv, PrunerInv, Evolves, Timely, Spared, HasPrefix, Ascending;
    var t, w := Next(cfg, s, a), s.sweepers[a.i];
    QuietStep(cfg, s, t);
    assert SweeperInv(cfg, s, w);
    SparedStays(cfg, s, t, w.now, w.live);
    OthersKeep(cfg, s, t);
  }

  /** An artifact old enough to be swept and on no list belongs to no backup with a claim. */
  lemma SweepableExpendable(cfg: Config, s: State, w: Sweeper, k: string)
    requires StoreInv(cfg, s) && ProvenInv(s) && WriterInv(cfg, s) && SweeperInv(cfg, s, w)
    requires w.Sweeping? && k in w.todo && Sweepable(k, w.live, cfg.minAge, w.now)
    ensures Expendable(s, k)
  {
    hide Restorable, Sound, Id, ManifestKey, ArtifactKey, HasPrefix, IdInArtifactKey, Catalog, Materializes, Parse, SecondOf;
    Stored(cfg, s);
    forall m: Manifest
      ensures ManifestKey(m.id) != k
      ensures m.id == Id(m.createdAt) && m.createdAt in Claims(s) ==> ArtifactKey(m.id) != k
    {
      KeysCarryIds(m.id);
      ParseOfId(m.createdAt);
    }
    if !s.writer.Idle? {
      assert OwnBackup(s, s.writer.m);
      assert s.writer.m.createdAt in Claims(s);
    }
  }

  lemma SweepArtifactKeeps(cfg: Config, s: State, a: Action)
    requires Inv(cfg, s) && Step(cfg, s, a) && a.SweepArtifact?
    ensures Inv(cfg, Next(cfg, s, a)) && Evolves(cfg, s, Next(cfg, s, a))
  {
    hide Restorable, StoreInv, ProvenInv, WriterInv, PrunerInv, Evolves, Timely, Spared, HasPrefix, Sweepable, Expendable;
    var t, w := Next(cfg, s, a), s.sweepers[a.i];
    var k := w.todo[0];
    assert SweeperInv(cfg, s, w);
    SweepableExpendable(cfg, s, w, k);
    if a.reached {
      DeletionKeeps(cfg, s, t, k);
    } else {
      QuietStep(cfg, s, t);
    }
    SweepsOn(cfg, s, t, w);
    OthersKeep(cfg, s, t);
  }

  // ---- Every step ----

  lemma StepKeepsInv(cfg: Config, s: State, a: Action)
    requires Inv(cfg, s) && Step(cfg, s, a)
    ensures Inv(cfg, Next(cfg, s, a)) && Evolves(cfg, s, Next(cfg, s, a))
  {
    hide *;
    match a
    case Tick(_) => ClockAndStops(cfg, s, a);
    case Begin(_, _) => BeginKeeps(cfg, s, a);
    case PutArtifact(_, _) => PutArtifactKeeps(cfg, s, a);
    case PutManifest(_, _) => PutManifestKeeps(cfg, s, a);
    case LoadBack => ReadsBackKeep(cfg, s, a);
    case FetchBack(_) => ReadsBackKeep(cfg, s, a);
    case SaveRecord(_, _) => SaveRecordKeeps(cfg, s, a);
    case Crash => ClockAndStops(cfg, s, a);
    case ListBackups(_, _) => ListBackupsKeeps(cfg, s, a);
    case GetBackup(_) => GetBackupKeeps(cfg, s, a);
    case MakePlan(_, _, _) => MakePlanKeeps(cfg, s, a);
    case DeleteManifest(_, _, _) => DeleteManifestKeeps(cfg, s, a);
    case DeleteArtifact(_, _) => DeleteArtifactKeeps(cfg, s, a);
    case StopPruner(_) => ClockAndStops(cfg, s, a);
    case StartSweep(_) => ClockAndStops(cfg, s, a);
    case ListLive(_) => ListLiveKeeps(cfg, s, a);
    case ListArtifacts(_, _) => ListArtifactsKeeps(cfg, s, a);
    case SkipArtifact(_) => ClockAndStops(cfg, s, a);
    case SweepArtifact(_, _) => SweepArtifactKeeps(cfg, s, a);
    case StopSweep(_) => ClockAndStops(cfg, s, a);
  }
}
