/** A coverage check beside the daemon: it lists the manifests and reads them one by one, as a pruner does
    before it plans, while the store goes on changing. */
module ProtocolChecks {
  import opened Artifact
  import Check
  import opened Manifests
  import opened Protocol
  import opened ProtocolRuns
  import opened ProtocolSafety
  import opened ProtocolSteps
  import opened Retention
  import opened RetentionSpec
  import opened Storage
  import opened Strings
  import opened Timestamp

  /** What a reading finds covered is covered now, however old the reading and however incomplete. */
  lemma CoverageReadHolds(cfg: Config, s: State, r: Pruner, maxAge: Duration, now: Instant)
    requires Inv(cfg, s) && r.Reading? && PrunerInv(s, r)
    requires Check.Covered(SetOf(r.got), maxAge, now)
    ensures Check.Covered(Catalog(s.objects), maxAge, now)
  {
    hide StoreInv, WriterInv, PrunerInv, SweeperInv, Timely, Catalog, SecondOf, WellPlaced;
    var m :| m in VerifiedOf(SetOf(r.got)) && Within(now, m.createdAt, maxAge);
    GotPlaced(s, r, m);
    var p := NewestExists(s.proven);
    assert p in VerifiedOf(Catalog(s.objects));
  }

  /** One reader is at the same reading in all states after j up to e. */
  ghost predicate StillReading(states: seq<State>, j: nat, e: nat, i: nat, keys: seq<string>)
    requires e < |states|
  {
    forall n :: j < n <= e ==> i in states[n].pruners && states[n].pruners[i].Reading? && states[n].pruners[i].keys == keys
  }

  /** A reading that gets through has met the newest proof of its listing, as it was. */
  lemma ReadingMeetsProof(cfg: Config, states: seq<State>, actions: seq<Action>, j: nat, e: nat, i: nat, keys: seq<string>, p: Manifest)
    requires IsRun(cfg, states, actions) && j < e < |states| && actions[j] == ListBackups(i, keys)
    requires StillReading(states, j, e, i, keys) && |states[e].pruners[i].got| == |keys|
    requires IsNewest(EverVerified(states, j), p)
    ensures p in states[e].pruners[i].got && p.Verified()
  {
    hide Init, Inv, Enabled, Timely, Next, IsNewest, Catalog, EverVerified;
    ProvenIsHistory(cfg, states, actions, j);
    RunInv(cfg, states, actions, j);
    var x := ProofListed(cfg, states[j], actions[j], p);
    ReadingKeepsProof(cfg, states, actions, j, e, i, keys, p, x);
  }

  lemma ProofListed(cfg: Config, s: State, a: Action, p: Manifest) returns (x: nat)
    requires Inv(cfg, s) && Enabled(cfg, s, a) && a.ListBackups? && IsNewest(s.proven, p)
    ensures x < |a.keys| && a.keys[x] == ManifestKey(p.id) && p in s.proven && p.Verified()
  {
    hide WriterInv, PrunerInv, SweeperInv, Timely, Catalog, HasPrefix, ManifestKey, SecondOf, WellPlaced, Id, Ascending;
    Stored(cfg, s);
    KeysCarryIds(p.id);
    assert ManifestKey(p.id) in a.keys;
    x :| 0 <= x < |a.keys| && a.keys[x] == ManifestKey(p.id);
  }

  lemma {:induction false} ReadingKeepsProof(cfg: Config, states: seq<State>, actions: seq<Action>, j: nat, e: nat, i: nat,
                                             keys: seq<string>, p: Manifest, x: nat)
    requires IsRun(cfg, states, actions) && j < e < |states| && actions[j] == ListBackups(i, keys)
    requires StillReading(states, j, e, i, keys)
    requires p in states[j].proven && x < |keys| && keys[x] == ManifestKey(p.id)
    ensures p in states[e].proven
    ensures x < |states[e].pruners[i].got| ==> states[e].pruners[i].got[x] == p
  {
    hide Init, Inv, Step, Catalog, Next, Evolves;
    if e == j + 1 {
      RunEvolves(cfg, states, actions, j);
      ProofsStay(cfg, states[j], states[e]);
      ListingStarts(cfg, states[j], actions[j]);
    } else {
      ReadingKeepsProof(cfg, states, actions, j, e - 1, i, keys, p, x);
      RunEvolves(cfg, states, actions, e - 1);
      ProofsStay(cfg, states[e - 1], states[e]);
      RunInv(cfg, states, actions, e - 1);
      ReadingGoesOn(cfg, states[e - 1], actions[e - 1], i, p, x);
    }
  }

  lemma ProofsStay(cfg: Config, s: State, t: State)
    requires Evolves(cfg, s, t)
    ensures s.proven <= t.proven
  {
  }

  lemma ListingStarts(cfg: Config, s: State, a: Action)
    requires Step(cfg, s, a) && a.ListBackups?
    ensures Next(cfg, s, a).pruners[a.i] == Reading(a.keys, [], s.newest)
  {
  }

  /** Whatever step is taken, a reader's next manifest is that of the store. */
  lemma ReadingGoesOn(cfg: Config, s: State, a: Action, i: nat, p: Manifest, x: nat)
    requires Inv(cfg, s) && Step(cfg, s, a) && p in s.proven
    requires i in s.pruners && s.pruners[i].Reading? && x < |s.pruners[i].keys| && s.pruners[i].keys[x] == ManifestKey(p.id)
    requires x < |s.pruners[i].got| ==> s.pruners[i].got[x] == p
    requires i in Next(cfg, s, a).pruners && Next(cfg, s, a).pruners[i].Reading?
    ensures var r := Next(cfg, s, a).pruners[i]; x < |r.got| ==> r.got[x] == p
  {
    hide Inv, Timely, Catalog, ManifestKey, SecondOf, KeysUnder, PlanFor, Materializes, Restorable, WellPlaced;
    if a.GetBackup? && a.i == i {
      ProofUnchanged(cfg, s, p);
    }
  }

  /** While a proof's manifest key is there, it holds the proof as it was. */
  lemma ProofUnchanged(cfg: Config, s: State, p: Manifest)
    requires Inv(cfg, s) && p in s.proven
    ensures ManifestKey(p.id) in s.objects && s.objects[ManifestKey(p.id)].Record? ==> s.objects[ManifestKey(p.id)] == Record(p)
  {
    hide WriterInv, PrunerInv, SweeperInv, Timely, SecondOf, Id, ArtifactKey;
    var k := ManifestKey(p.id);
    if k in s.objects && s.objects[k].Record? {
      var m := s.objects[k].m;
      assert m in Catalog(s.objects);
      KeysDistinct(m.id, p.id);
    }
  }
}
