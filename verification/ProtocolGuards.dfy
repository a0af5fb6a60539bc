/** Which guards of the plan the safety of the newest proof needs: without the second or without the third
    there is a run that loses it. */
module ProtocolGuards {
  import opened Artifact
  import Bytes
  import opened Manifests
  import opened Protocol
  import opened ProtocolLinks
  import opened ProtocolPaths
  import opened ProtocolSafety
  import opened Retention
  import opened RetentionSpec
  import opened Storage
  import opened Strings
  import opened Timestamp
  import opened Verify

  /** A plan without its second guard: the newest backup and the slots. */
  ghost predicate KeepsButProven(s: Backups, p: Policy, m: Manifest) {
    IsNewest(s, m) || exists kind :: TakesSlot(s, kind, p.Slots(kind), m)
  }

  /** A plan without its third guard: the newest verified backup and the slots. */
  ghost predicate KeepsButNewest(s: Backups, p: Policy, m: Manifest) {
    IsNewest(VerifiedOf(s), m) || exists kind :: TakesSlot(s, kind, p.Slots(kind), m)
  }

  // ---- Two backups, the first of them proven ----

  /** A proven backup v with artifact a, and a later fresh one m with artifact b. */
  predicate Pair(cfg: Config, v: Manifest, a: seq<Bytes.byte>, m: Manifest, b: seq<Bytes.byte>) {
    && WellPlaced(ManifestKey(v.id), v) && Coherent(v.verification) && v.Verified() && Materializes(cfg.suite, cfg.key, v, a)
    && WellPlaced(ManifestKey(m.id), m) && m.verification == UNVERIFIED && Materializes(cfg.suite, cfg.key, m, b)
    && SecondOf(v.createdAt) < SecondOf(m.createdAt)
  }

  /** The store with the first backup, when the second begins. */
  ghost function OneProven(v: Manifest, a: seq<Bytes.byte>, m: Manifest): State {
    State(Holding(v, a), m.createdAt, SecondOf(v.createdAt), {v}, Idle, map[], map[])
  }

  function Both(v: Manifest, a: seq<Bytes.byte>, m: Manifest, b: seq<Bytes.byte>): Objects {
    Holding(v, a)[m.artifactKey := Blob(b)][ManifestKey(m.id) := Record(m)]
  }

  /** The second backup is recorded, and not verified yet. */
  ghost function TwoTaken(v: Manifest, a: seq<Bytes.byte>, m: Manifest, b: seq<Bytes.byte>): State {
    State(Both(v, a, m, b), m.createdAt, SecondOf(m.createdAt), {v}, Recorded(m), map[], map[])
  }

  function KeysOfBoth(v: Manifest, m: Manifest): seq<string> {
    [ManifestKey(v.id), ManifestKey(m.id)]
  }

  /** A pruner has read both. */
  ghost function BothRead(v: Manifest, a: seq<Bytes.byte>, m: Manifest, b: seq<Bytes.byte>): State {
    HavingRead(TwoTaken(v, a, m, b), 0, KeysOfBoth(v, m), [v, m], 2)
  }

  /** The second backup is verified meanwhile. */
  ghost function BothProven(v: Manifest, a: seq<Bytes.byte>, m: Manifest, b: seq<Bytes.byte>, record: Verification): State {
    var m' := m.(verification := record);
    BothRead(v, a, m, b).(objects := Both(v, a, m, b)[ManifestKey(m.id) := Record(m')], proven := {v, m'}, writer := Idle)
  }

  lemma PairKeys(cfg: Config, v: Manifest, a: seq<Bytes.byte>, m: Manifest, b: seq<Bytes.byte>)
    requires Pair(cfg, v, a, m, b)
    ensures v.id != m.id && ManifestKey(v.id) != ManifestKey(m.id)
    ensures m.artifactKey !in Holding(v, a) && ManifestKey(m.id) !in Holding(v, a) && v.artifactKey != ManifestKey(v.id)
    ensures v.createdAt < m.createdAt
  {
    hide Id, SecondOf, ManifestKey, ArtifactKey, Materializes;
    IdInjective(v.createdAt, m.createdAt);
    SecondsOrder(v.createdAt, m.createdAt);
    KeysDistinct(v.id, m.id);
    KeysDistinct(m.id, v.id);
    KeysDistinct(v.id, v.id);
    KeysDistinct(m.id, m.id);
  }

  lemma OneProvenIsInit(cfg: Config, v: Manifest, a: seq<Bytes.byte>, m: Manifest, b: seq<Bytes.byte>)
    requires Pair(cfg, v, a, m, b)
    ensures Init(cfg, OneProven(v, a, m))
  {
    hide Id, SecondOf, ManifestKey, ArtifactKey, Materializes, HasPrefix;
    PairKeys(cfg, v, a, m, b);
    KeysCarryIds(v.id);
    var objects := Holding(v, a);
    assert objects[ManifestKey(v.id)].m in Catalog(objects);
  }

  lemma StepLeads(cfg: Config, s: State, a: Action)
    requires Enabled(cfg, s, a)
    ensures Leads(cfg, s, [a], Next(cfg, s, a))
  {
    hide Enabled, Next;
    assert [a][1..] == [];
  }

  lemma SecondBackup(cfg: Config, v: Manifest, a: seq<Bytes.byte>, m: Manifest, b: seq<Bytes.byte>) returns (actions: seq<Action>)
    requires Pair(cfg, v, a, m, b)
    ensures Leads(cfg, OneProven(v, a, m), actions, TwoTaken(v, a, m, b))
  {
    hide Leads, Materializes, WellPlaced, SecondOf, Coherent;
    var s0 := OneProven(v, a, m);
    var s1 := Next(cfg, s0, Begin(m, b));
    var s2 := Next(cfg, s1, PutArtifact(true, true));
    StepLeads(cfg, s0, Begin(m, b));
    StepLeads(cfg, s1, PutArtifact(true, true));
    StepLeads(cfg, s2, PutManifest(true, true));
    LeadsOn(cfg, s0, [Begin(m, b)], s1, [PutArtifact(true, true)], s2);
    actions := [Begin(m, b)] + [PutArtifact(true, true)];
    LeadsOn(cfg, s0, actions, s2, [PutManifest(true, true)], TwoTaken(v, a, m, b));
    actions := actions + [PutManifest(true, true)];
  }

  lemma BothListed(cfg: Config, v: Manifest, a: seq<Bytes.byte>, m: Manifest, b: seq<Bytes.byte>)
    requires Pair(cfg, v, a, m, b)
    ensures Listed(Both(v, a, m, b), KeysOfBoth(v, m), [v, m])
  {
    hide Id, SecondOf, ManifestKey, ArtifactKey, Materializes, HasPrefix, Less;
    PairKeys(cfg, v, a, m, b);
    KeysCarryIds(v.id);
    KeysCarryIds(m.id);
    IdOrder(v.createdAt, m.createdAt);
    ManifestKeyOrder(v.id, m.id);
  }

  lemma BothReadReached(cfg: Config, v: Manifest, a: seq<Bytes.byte>, m: Manifest, b: seq<Bytes.byte>) returns (actions: seq<Action>)
    requires Pair(cfg, v, a, m, b)
    ensures Leads(cfg, OneProven(v, a, m), actions, BothRead(v, a, m, b))
  {
    hide Leads, Pair, Listed;
    var backup := SecondBackup(cfg, v, a, m, b);
    BothListed(cfg, v, a, m, b);
    var loads := LoadIsSteps(cfg, TwoTaken(v, a, m, b), 0, KeysOfBoth(v, m), [v, m]);
    LeadsOn(cfg, OneProven(v, a, m), backup, TwoTaken(v, a, m, b), loads, BothRead(v, a, m, b));
    actions := backup + loads;
  }

  lemma BothProvenReached(cfg: Config, v: Manifest, a: seq<Bytes.byte>, m: Manifest, b: seq<Bytes.byte>, record: Verification)
    returns (actions: seq<Action>)
    requires Pair(cfg, v, a, m, b) && Coherent(record) && record.verified
    ensures Leads(cfg, OneProven(v, a, m), actions, BothProven(v, a, m, b, record))
  {
    hide Leads, Materializes, WellPlaced, SecondOf, ArtifactKey, ManifestKey;
    actions := BothReadReached(cfg, v, a, m, b);
    var s0 := BothRead(v, a, m, b);
    var s1 := Next(cfg, s0, LoadBack);
    assert Restorable(cfg.suite, cfg.key, m, s0.objects) by { FreshRestorable(cfg, v, a, m, b); }
    var s2 := Next(cfg, s1, FetchBack(true));
    StepLeads(cfg, s0, LoadBack);
    StepLeads(cfg, s1, FetchBack(true));
    StepLeads(cfg, s2, SaveRecord(record, true));
    LeadsOn(cfg, OneProven(v, a, m), actions, s0, [LoadBack], s1);
    actions := actions + [LoadBack];
    LeadsOn(cfg, OneProven(v, a, m), actions, s1, [FetchBack(true)], s2);
    actions := actions + [FetchBack(true)];
    assert {v} + {m.(verification := record)} == {v, m.(verification := record)};
    assert Next(cfg, s2, SaveRecord(record, true)) == BothProven(v, a, m, b, record);
    LeadsOn(cfg, OneProven(v, a, m), actions, s2, [SaveRecord(record, true)], BothProven(v, a, m, b, record));
    actions := actions + [SaveRecord(record, true)];
  }

  lemma FreshRestorable(cfg: Config, v: Manifest, a: seq<Bytes.byte>, m: Manifest, b: seq<Bytes.byte>)
    requires Pair(cfg, v, a, m, b)
    ensures Restorable(cfg.suite, cfg.key, m, Both(v, a, m, b))
  {
    hide Materializes, Id, SecondOf, ManifestKey, ArtifactKey;
    KeysDistinct(m.id, m.id);
  }

  // ---- The losses ----

  /** A pruner that removes one backup, whatever its plan should have kept. */
  ghost function Removing(s: State, m: Manifest): State {
    s.(pruners := map[0 := Deleting([m], false)])
  }

  /** Without the second guard the newest proof can be lost: a proven backup, a newer one that was never
      verified, and a policy without slots. */
  lemma SecondGuardNeeded(cfg: Config, v: Manifest, a: seq<Bytes.byte>, m: Manifest, b: seq<Bytes.byte>, p: Policy)
    returns (actions: seq<Action>)
    requires Pair(cfg, v, a, m, b) && !p.IsZero() && forall kind: Kind :: p.Slots(kind) <= 0
    ensures Init(cfg, OneProven(v, a, m)) && Leads(cfg, OneProven(v, a, m), actions, BothRead(v, a, m, b))
    ensures v in SetOf([v, m]) && !KeepsButProven(SetOf([v, m]), p, v)
    ensures var s := Removing(BothRead(v, a, m, b), v);
            && Enabled(cfg, s, DeleteManifest(0, true, true))
            && var t := Next(cfg, s, DeleteManifest(0, true, true));
            IsNewest(t.proven, v) && v !in Catalog(t.objects)
  {
    hide Leads, Init, TakesSlot, WellPlaced, Materializes, SecondOf, ManifestKey, Catalog;
    OneProvenIsInit(cfg, v, a, m, b);
    actions := BothReadReached(cfg, v, a, m, b);
    PairKeys(cfg, v, a, m, b);
    NoSlots(SetOf([v, m]), p, v);
    assert m in SetOf([v, m]);
    Unadvertised(Both(v, a, m, b) - {ManifestKey(v.id)}, v);
  }

  lemma NoSlots(s: Backups, p: Policy, m: Manifest)
    requires forall kind: Kind :: p.Slots(kind) <= 0
    ensures !exists kind :: TakesSlot(s, kind, p.Slots(kind), m)
  {
  }

  /** A manifest that is not under its own key of a laid-out store is not advertised. */
  lemma Unadvertised(objects: Objects, m: Manifest)
    requires ManifestKey(m.id) !in objects && forall k :: k in objects && objects[k].Record? ==> k == ManifestKey(objects[k].m.id)
    ensures m !in Catalog(objects)
  {
  }

  /** Without the third guard the newest proof can be lost under any policy: a backup that a pruner has read
      unverified is verified before the plan, made from that reading, is carried out. */
  lemma ThirdGuardNeeded(cfg: Config, v: Manifest, a: seq<Bytes.byte>, m: Manifest, b: seq<Bytes.byte>, record: Verification, p: Policy)
    returns (actions: seq<Action>)
    requires Pair(cfg, v, a, m, b) && Coherent(record) && record.verified
    ensures Init(cfg, OneProven(v, a, m)) && Leads(cfg, OneProven(v, a, m), actions, BothProven(v, a, m, b, record))
    ensures m in SetOf([v, m]) && !KeepsButNewest(SetOf([v, m]), p, m)
    ensures var s := Removing(BothProven(v, a, m, b, record), m);
            && Enabled(cfg, s, DeleteManifest(0, true, true))
            && var t := Next(cfg, s, DeleteManifest(0, true, true));
            IsNewest(t.proven, m.(verification := record)) && m.(verification := record) !in Catalog(t.objects)
  {
    hide Leads, Init, TakesSlot, WellPlaced, Materializes, SecondOf, ManifestKey, Catalog;
    OneProvenIsInit(cfg, v, a, m, b);
    actions := BothProvenReached(cfg, v, a, m, b, record);
    PairKeys(cfg, v, a, m, b);
    UnverifiedTakesNoSlot(SetOf([v, m]), p, m);
    Unadvertised(BothProven(v, a, m, b, record).objects - {ManifestKey(m.id)}, m.(verification := record));
  }

  lemma UnverifiedTakesNoSlot(s: Backups, p: Policy, m: Manifest)
    requires !m.Verified()
    ensures !exists kind :: TakesSlot(s, kind, p.Slots(kind), m)
  {
    hide Period;
  }
}
