/** What holds in every state of every interleaved run. */
module ProtocolRuns {
  import opened Artifact
  import Bytes
  import opened Manifests
  import opened Protocol
  import opened ProtocolPaths
  import opened ProtocolSafety
  import opened ProtocolSteps
  import opened Prune
  import opened RetentionSpec
  import opened Runner
  import opened Storage
  import opened Timestamp

  /** A run of the protocol: the states it goes through and the steps between them. */
  ghost predicate IsRun(cfg: Config, states: seq<State>, actions: seq<Action>) {
    && |states| == |actions| + 1
    && Init(cfg, states[0])
    && forall i :: 0 <= i < |actions| ==> Step(cfg, states[i], actions[i]) && states[i + 1] == Next(cfg, states[i], actions[i])
  }

  /** Enabled steps from a first state on are a run as long as no backup in flight grows old, and without
      sweeping they always are. */
  lemma PathIsRun(cfg: Config, s: State, actions: seq<Action>, t: State) returns (states: seq<State>)
    requires Init(cfg, s) && Leads(cfg, s, actions, t)
    ensures |states| == |actions| + 1 && states[0] == s && states[|actions|] == t
    ensures (forall i :: 0 < i < |states| ==> Timely(cfg, states[i])) ==> IsRun(cfg, states, actions)
    ensures !cfg.sweeping ==> IsRun(cfg, states, actions)
  {
    hide Init, Leads, Next, Enabled;
    states := PathStates(cfg, s, actions, t);
    if forall i :: 0 < i < |states| ==> Timely(cfg, states[i]) {
      forall i | 0 <= i < |actions|
        ensures Step(cfg, states[i], actions[i])
      {
        assert Timely(cfg, states[i + 1]);
      }
    }
  }

  lemma {:induction false} PathStates(cfg: Config, s: State, actions: seq<Action>, t: State) returns (states: seq<State>)
    requires Leads(cfg, s, actions, t)
    ensures |states| == |actions| + 1 && states[0] == s && states[|actions|] == t
    ensures forall i :: 0 <= i < |actions| ==> Enabled(cfg, states[i], actions[i]) && states[i + 1] == Next(cfg, states[i], actions[i])
    decreases |actions|
  {
    hide Next, Enabled;
    states := [s];
    if actions != [] {
      var rest := PathStates(cfg, Next(cfg, s, actions[0]), actions[1..], t);
      states := [s] + rest;
      assert forall i :: 0 < i < |actions| ==> actions[i] == actions[1..][i - 1];
    }
  }

  lemma {:induction false} RunInv(cfg: Config, states: seq<State>, actions: seq<Action>, i: nat)
    requires IsRun(cfg, states, actions) && i < |states|
    ensures Inv(cfg, states[i])
  {
    hide Inv, Init, Step, Next;
    if i == 0 {
      InitInv(cfg, states[0]);
    } else {
      RunInv(cfg, states, actions, i - 1);
      StepKeepsInv(cfg, states[i - 1], actions[i - 1]);
    }
  }

  lemma RunEvolves(cfg: Config, states: seq<State>, actions: seq<Action>, i: nat)
    requires IsRun(cfg, states, actions) && i < |actions|
    ensures Evolves(cfg, states[i], states[i + 1])
  {
    hide Inv, Init, Step, Next, Evolves;
    RunInv(cfg, states, actions, i);
    StepKeepsInv(cfg, states[i], actions[i]);
  }

  // ---- Nothing is lost ----

  /** In every reachable state every manifest has its artifact, every record is settled, and every
      verified backup can be restored. */
  lemma EveryStateSound(cfg: Config, states: seq<State>, actions: seq<Action>, i: nat)
    requires IsRun(cfg, states, actions) && i < |states|
    ensures Sound(states[i].objects, cfg.suite, cfg.key)
  {
    hide Sound, Init, Step, Next;
    RunInv(cfg, states, actions, i);
  }

  /** Every backup that was ever advertised as verified, up to state i. */
  ghost function EverVerified(states: seq<State>, i: nat): Backups
    requires i < |states|
  {
    VerifiedOf(Catalog(states[i].objects)) + if i == 0 then {} else EverVerified(states, i - 1)
  }

  /** The proofs the protocol keeps track of are exactly those. */
  lemma {:induction false} ProvenIsHistory(cfg: Config, states: seq<State>, actions: seq<Action>, i: nat)
    requires IsRun(cfg, states, actions) && i < |states|
    ensures EverVerified(states, i) == states[i].proven
  {
    hide Inv, Step, Next, Evolves;
    RunInv(cfg, states, actions, i);
    if i > 0 {
      ProvenIsHistory(cfg, states, actions, i - 1);
      RunInv(cfg, states, actions, i - 1);
      ProofsAreStored(cfg, states[i - 1], actions[i - 1]);
    }
    StoredAreProven(cfg, states[i]);
  }

  lemma StoredAreProven(cfg: Config, s: State)
    requires Inv(cfg, s)
    ensures VerifiedOf(Catalog(s.objects)) <= s.proven
  {
    hide StoreInv, WriterInv;
  }

  lemma ProofsAreStored(cfg: Config, s: State, a: Action)
    requires Inv(cfg, s) && Step(cfg, s, a)
    ensures var t := Next(cfg, s, a); s.proven <= t.proven <= s.proven + VerifiedOf(Catalog(t.objects))
  {
    hide StoreInv, ProvenInv, OwnBackup, PrunerInv, SweeperInv, Timely, Restorable;
    var t := Next(cfg, s, a);
    if a.SaveRecord? && a.reached {
      var key := ManifestKey(s.writer.m.id);
      assert key in t.objects && t.objects[key].m in Catalog(t.objects);
    }
  }

  /** The newest backup ever verified is in the store in every reachable state, whatever the pruners,
      sweepers and crashes did, and what its artifact restores to is the dump it was taken of. */
  lemma NewestProofSurvives(cfg: Config, states: seq<State>, actions: seq<Action>, i: nat, p: Manifest)
    requires IsRun(cfg, states, actions) && i < |states|
    requires IsNewest(EverVerified(states, i), p)
    ensures p in Catalog(states[i].objects) && Restorable(cfg.suite, cfg.key, p, states[i].objects)
    ensures forall dump :: cfg.suite.CollisionFree() && p.plaintextSha256 == cfg.suite.sha256(dump) ==>
              PlaintextOf(cfg.suite, cfg.key, p, states[i].objects) == dump
  {
    hide Init, Step, Next, Restorable, EverVerified, WriterInv, LaidOut;
    ProvenIsHistory(cfg, states, actions, i);
    RunInv(cfg, states, actions, i);
    assert p in VerifiedOf(Catalog(states[i].objects));
    forall dump | cfg.suite.CollisionFree() && p.plaintextSha256 == cfg.suite.sha256(dump)
      ensures PlaintextOf(cfg.suite, cfg.key, p, states[i].objects) == dump
    {
      RestoresExactly(cfg, p, states[i].objects, dump);
    }
  }

  lemma RestoresExactly(cfg: Config, p: Manifest, objects: Objects, dump: seq<Bytes.byte>)
    requires Restorable(cfg.suite, cfg.key, p, objects)
    requires cfg.suite.CollisionFree() && p.plaintextSha256 == cfg.suite.sha256(dump)
    ensures PlaintextOf(cfg.suite, cfg.key, p, objects) == dump
  {
    MaterializedExactly(cfg.suite, cfg.key, p, RawBytes(objects[p.artifactKey]), dump);
  }

  /** Coverage never moves back: once a verified backup is advertised, there is at every later time a
      verified, restorable backup at least as new. */
  lemma CoverageNeverRegresses(cfg: Config, states: seq<State>, actions: seq<Action>, j: nat, i: nat, m: Manifest) returns (p: Manifest)
    requires IsRun(cfg, states, actions) && j <= i < |states|
    requires m in VerifiedOf(Catalog(states[j].objects))
    ensures p in VerifiedOf(Catalog(states[i].objects)) && p.createdAt >= m.createdAt
    ensures Restorable(cfg.suite, cfg.key, p, states[i].objects)
  {
    hide IsRun, Restorable, Catalog;
    HistoryGrows(states, j, i);
    p := NewestExists(EverVerified(states, i));
    NewestProofSurvives(cfg, states, actions, i, p);
    HistoryVerified(states, i);
  }

  lemma {:induction false} HistoryGrows(states: seq<State>, j: nat, i: nat)
    requires j <= i < |states|
    ensures VerifiedOf(Catalog(states[j].objects)) <= EverVerified(states, i)
  {
    hide Catalog;
    if j < i {
      HistoryGrows(states, j, i - 1);
    }
  }

  lemma {:induction false} HistoryVerified(states: seq<State>, i: nat)
    requires i < |states|
    ensures forall p :: p in EverVerified(states, i) ==> p.Verified()
  {
    hide Catalog;
    if i > 0 {
      HistoryVerified(states, i - 1);
    }
  }

  // ---- Sweeping ----

  /** No backup has a claim to the artifact key, and none will: its id is too old. */
  ghost predicate Dead(cfg: Config, s: State, k: string) {
    && (forall c :: c in Claims(s) ==> ArtifactKey(Id(c)) != k)
    && OldEnough(IdInArtifactKey(k), cfg.minAge, s.clock)
  }

  lemma DeadStays(cfg: Config, s: State, t: State, k: string)
    requires cfg.sweeping && Evolves(cfg, s, t) && Dead(cfg, s, k)
    ensures Dead(cfg, t, k)
  {
    hide Claims, Id, ArtifactKey, IdInArtifactKey, Parse, SecondOf, Catalog;
    forall c | c in Claims(t)
      ensures ArtifactKey(Id(c)) != k
    {
      if ArtifactKey(Id(c)) == k {
        KeysCarryIds(Id(c));
        ParseOfId(c);
      }
    }
  }

  lemma {:induction false} DeadForever(cfg: Config, states: seq<State>, actions: seq<Action>, i: nat, j: nat, k: string)
    requires IsRun(cfg, states, actions) && cfg.sweeping && i <= j < |states| && Dead(cfg, states[i], k)
    ensures Dead(cfg, states[j], k)
  {
    hide Init, Step, Next, Dead, Evolves;
    if i < j {
      DeadForever(cfg, states, actions, i, j - 1, k);
      RunEvolves(cfg, states, actions, j - 1);
      DeadStays(cfg, states[j - 1], states[j], k);
    }
  }

  /** The key a sweeper is about to delete is dead. */
  lemma SweptIsDead(cfg: Config, s: State, a: Action)
    requires Inv(cfg, s) && Enabled(cfg, s, a) && a.SweepArtifact?
    ensures Dead(cfg, s, s.sweepers[a.i].todo[0])
  {
    hide StoreInv, ProvenInv, WriterInv, PrunerInv, Timely, Claims, Id, ArtifactKey, IdInArtifactKey, Parse, SecondOf;
    var w := s.sweepers[a.i];
    var k := w.todo[0];
    assert SweeperInv(cfg, s, w);
    forall c | c in Claims(s)
      ensures ArtifactKey(Id(c)) != k
    {
      KeysCarryIds(Id(c));
      ParseOfId(c);
    }
  }

  /** No sweep deletes an artifact that has a manifest or ever gets one. */
  lemma SweptNeverNeeded(cfg: Config, states: seq<State>, actions: seq<Action>, i: nat, j: nat, m: Manifest)
    requires IsRun(cfg, states, actions) && i < |actions| && i <= j < |states|
    requires actions[i].SweepArtifact? && m in Catalog(states[j].objects)
    ensures m.artifactKey != states[i].sweepers[actions[i].i].todo[0]
  {
    hide Init, Next, StoreInv, ProvenInv, WriterInv, PrunerInv, Timely, Dead, Catalog;
    RunInv(cfg, states, actions, i);
    RunInv(cfg, states, actions, j);
    assert cfg.sweeping by { assert SweeperInv(cfg, states[i], states[i].sweepers[actions[i].i]); }
    SweptIsDead(cfg, states[i], actions[i]);
    DeadForever(cfg, states, actions, i, j, states[i].sweepers[actions[i].i].todo[0]);
    ClaimedNotDead(cfg, states[j], m, states[i].sweepers[actions[i].i].todo[0]);
  }

  lemma ClaimedNotDead(cfg: Config, s: State, m: Manifest, k: string)
    requires StoreInv(cfg, s) && m in Catalog(s.objects) && Dead(cfg, s, k)
    ensures m.artifactKey != k
  {
    hide Sound, Catalog, OldEnough, Id, ArtifactKey;
    Stored(cfg, s);
    assert m.createdAt in Claims(s);
  }

  /** The timing assumption in the operator's terms: a backup that is through within the minimum age,
      less one second, of its creation is never old enough to be swept. */
  lemma PromptIsYoung(t: Instant, now: int, minAge: Duration)
    requires t <= now && now - t <= minAge - NS_PER_SECOND
    ensures Young(now, t, minAge)
  {
  }

  /** So the assumption holds in every state in which nothing is between its two writes, or what is began
      no longer ago than that. */
  lemma PromptIsTimely(cfg: Config, s: State)
    requires s.writer.Dumped? || s.writer.Uploaded? ==> 0 <= s.clock - s.writer.m.createdAt <= cfg.minAge - NS_PER_SECOND
    ensures Timely(cfg, s)
  {
    hide Young;
    if s.writer.Dumped? || s.writer.Uploaded? {
      PromptIsYoung(s.writer.m.createdAt, s.clock, cfg.minAge);
    }
  }
}
