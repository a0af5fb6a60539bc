/** What happens when the timing assumption on sweeps does not hold. */
module ProtocolTiming {
  import opened Artifact
  import Bytes
  import opened Manifests
  import opened Protocol
  import opened ProtocolPaths
  import opened ProtocolSafety
  import opened Prune
  import opened Storage
  import opened Strings
  import opened Timestamp

  /** An empty store at the moment a backup begins. */
  function EmptyStart(m: Manifest): State {
    State(map[], m.createdAt, SecondOf(m.createdAt) - 1, {}, Idle, map[], map[])
  }

  /** Steps from there to a backup between its two writes, with a sweeper starting at a later time. */
  function Prelude(m: Manifest, artifact: seq<Bytes.byte>, late: Instant): seq<Action> {
    [Begin(m, artifact), PutArtifact(true, true), Tick(late), StartSweep(0)]
  }

  /** The backup is half done, and the sweeper has the time but no listing yet. */
  ghost function MidBackup(m: Manifest, artifact: seq<Bytes.byte>, late: Instant): State {
    State(map[m.artifactKey := Blob(artifact)], late, SecondOf(m.createdAt), {}, Uploaded(m, artifact), map[],
          map[0 := Timed(late)])
  }

  /** The sweep and the second write. */
  function Postlude(m: Manifest): seq<Action> {
    [ListLive(0), ListArtifacts(0, [m.artifactKey]), SweepArtifact(0, true), PutManifest(true, true)]
  }

  lemma EmptyStartIsInit(cfg: Config, m: Manifest)
    ensures Init(cfg, EmptyStart(m))
  {
  }

  lemma PreludeLeads(cfg: Config, m: Manifest, artifact: seq<Bytes.byte>, late: Instant)
    requires cfg.sweeping && WellPlaced(ManifestKey(m.id), m) && m.verification == UNVERIFIED
    requires Materializes(cfg.suite, cfg.key, m, artifact) && late >= m.createdAt
    ensures Leads(cfg, EmptyStart(m), Prelude(m, artifact, late), MidBackup(m, artifact, late))
  {
    hide Materializes, WellPlaced, SecondOf, Leads;
    var (s0, a) := (EmptyStart(m), Prelude(m, artifact, late));
    var s1 := Next(cfg, s0, a[0]);
    var s2 := Next(cfg, s1, a[1]);
    var s3 := Next(cfg, s2, a[2]);
    LeadsByFour(cfg, s0, s1, s2, s3, MidBackup(m, artifact, late), a);
  }

  /** A sweep that lists while a backup is between its two writes can take the artifact exactly when the
      backup is no longer young. */
  lemma LateSweepEnabled(cfg: Config, m: Manifest, artifact: seq<Bytes.byte>, late: Instant)
    requires WellPlaced(ManifestKey(m.id), m)
    ensures var s := MidBackup(m, artifact, late);
            && Enabled(cfg, s, ListLive(0))
            && var s1 := Next(cfg, s, ListLive(0));
            && Enabled(cfg, s1, ListArtifacts(0, [m.artifactKey]))
            && var s2 := Next(cfg, s1, ListArtifacts(0, [m.artifactKey]));
            Enabled(cfg, s2, SweepArtifact(0, true)) <==> !Young(late, m.createdAt, cfg.minAge)
  {
    hide Id, Parse, SecondOf, ArtifactKey, ManifestKey, HasPrefix, IdInArtifactKey, IdInManifestKey, Less, Materializes, Restorable;
    KeysCarryIds(m.id);
    ParseOfId(m.createdAt);
    assert LiveIdsOf(MidBackup(m, artifact, late).objects) == {};
  }

  /** What is left when the sweep took the artifact and the manifest followed. */
  ghost function Orphaned(m: Manifest, late: Instant): State {
    State(map[ManifestKey(m.id) := Record(m)], late, SecondOf(m.createdAt), {}, Recorded(m), map[],
          map[0 := Sweeping(late, {}, [])])
  }

  /** The timing assumption cannot be dropped: from an empty store, a backup and a sweep between its two
      writes go through to a manifest without an artifact exactly when the backup is no longer young. */
  lemma LateSweepLoses(cfg: Config, m: Manifest, artifact: seq<Bytes.byte>, late: Instant)
    requires cfg.sweeping && WellPlaced(ManifestKey(m.id), m) && m.verification == UNVERIFIED
    requires Materializes(cfg.suite, cfg.key, m, artifact) && late >= m.createdAt
    ensures Init(cfg, EmptyStart(m))
    ensures Leads(cfg, EmptyStart(m), Prelude(m, artifact, late) + Postlude(m), Orphaned(m, late))
            <==> !Young(late, m.createdAt, cfg.minAge)
    ensures m in Catalog(Orphaned(m, late).objects) && !HasArtifacts(Orphaned(m, late).objects)
  {
    hide Materializes, Young, Leads, Init, SecondOf, ManifestKey, HasPrefix, Id;
    EmptyStartIsInit(cfg, m);
    PreludeLeads(cfg, m, artifact, late);
    var (start, middle, end) := (EmptyStart(m), MidBackup(m, artifact, late), Orphaned(m, late));
    if !Young(late, m.createdAt, cfg.minAge) {
      PostludeLeads(cfg, m, artifact, late);
      LeadsOn(cfg, start, Prelude(m, artifact, late), middle, Postlude(m), end);
    }
    if Leads(cfg, start, Prelude(m, artifact, late) + Postlude(m), end) {
      LeadsRest(cfg, start, Prelude(m, artifact, late), middle, Postlude(m), end);
      PostludeNeedsAge(cfg, m, artifact, late, end);
    }
    KeysDistinct(m.id, m.id);
    var last := Orphaned(m, late).objects;
    assert last[ManifestKey(m.id)].m in Catalog(last);
  }

  lemma PostludeLeads(cfg: Config, m: Manifest, artifact: seq<Bytes.byte>, late: Instant)
    requires WellPlaced(ManifestKey(m.id), m) && !Young(late, m.createdAt, cfg.minAge)
    ensures Leads(cfg, MidBackup(m, artifact, late), Postlude(m), Orphaned(m, late))
  {
    hide Young, Sweepable, WellPlaced, SecondOf, ManifestKey, HasPrefix, Leads, KeysUnder;
    LateSweepEnabled(cfg, m, artifact, late);
    var (s0, a) := (MidBackup(m, artifact, late), Postlude(m));
    assert LiveIdsOf(s0.objects) == {} by { OnlyArtifact(m, artifact); }
    assert s0.objects - {m.artifactKey} == map[];
    var s1 := Next(cfg, s0, a[0]);
    var s2 := Next(cfg, s1, a[1]);
    var s3 := Next(cfg, s2, a[2]);
    assert [m.artifactKey][1..] == [];
    assert s3.sweepers == map[0 := Sweeping(late, {}, [])] && s3.objects == map[];
    LeadsByFour(cfg, s0, s1, s2, s3, Orphaned(m, late), a);
  }

  lemma PostludeNeedsAge(cfg: Config, m: Manifest, artifact: seq<Bytes.byte>, late: Instant, u: State)
    requires WellPlaced(ManifestKey(m.id), m) && Leads(cfg, MidBackup(m, artifact, late), Postlude(m), u)
    ensures !Young(late, m.createdAt, cfg.minAge)
  {
    hide Enabled, Next, Young, WellPlaced;
    LateSweepEnabled(cfg, m, artifact, late);
    var a := Postlude(m);
    assert a[1..][1..] == a[2..];
    assert Leads(cfg, Next(cfg, MidBackup(m, artifact, late), a[0]), a[1..], u);
  }

  lemma OnlyArtifact(m: Manifest, artifact: seq<Bytes.byte>)
    requires WellPlaced(ManifestKey(m.id), m)
    ensures LiveIdsOf(map[m.artifactKey := Blob(artifact)]) == {}
  {
    hide Id, ArtifactKey, HasPrefix;
    KeysCarryIds(m.id);
  }
}
