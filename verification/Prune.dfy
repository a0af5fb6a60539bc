/** Carrying out a prune plan, and reclaiming artifacts that lost their manifests. */
module Prune {
  import opened Manifests
  import opened Retention
  import opened RetentionSpec
  import opened Storage
  import opened Strings
  import opened Timestamp
  import opened Wrappers

  datatype Failure = ManifestFailed(id: string) | ArtifactFailed(id: string)

  ghost predicate Concerns(f: Failure, ms: seq<Manifest>) {
    exists m :: m in ms && f in {ManifestFailed(m.id), ArtifactFailed(m.id)}
  }

  /** The keys of the objects that make up some backups. */
  ghost function KeysOf(ms: seq<Manifest>): set<string> {
    (set m | m in ms :: ManifestKey(m.id)) + (set m | m in ms :: m.artifactKey)
  }

  /** The manifest of every backup that lost its artifact is gone too. */
  ghost predicate ManifestsFirst(gone: set<string>, ms: seq<Manifest>) {
    forall m :: m in ms && m.artifactKey in gone ==> ManifestKey(m.id) in gone
  }

  ghost predicate WellKeyed(ms: seq<Manifest>) {
    forall m :: m in ms ==> m.artifactKey == ArtifactKey(m.id)
  }

  /** What deleting one backup comes to: the failure reported, and the keys gone. */
  datatype Outcome = Outcome(failure: Option<Failure>, taken: set<string>)

  /** Manifest first: the artifact goes only behind the manifest, nothing is missing without a failure, and a
      failure names the backup and the object. */
  ghost predicate Possible(m: Manifest, o: Outcome) {
    && o.taken <= {ManifestKey(m.id), m.artifactKey}
    && (m.artifactKey in o.taken ==> ManifestKey(m.id) in o.taken)
    && (o.failure.None? ==> o.taken == {ManifestKey(m.id), m.artifactKey})
    && (o.failure.Some? ==> o.failure.value in {ManifestFailed(m.id), ArtifactFailed(m.id)})
    && (o.failure == Some(ManifestFailed(m.id)) ==> o.taken <= {ManifestKey(m.id)})
    && (o.failure == Some(ArtifactFailed(m.id)) ==> ManifestKey(m.id) in o.taken)
  }

  /** One outcome for each of the backups, in their order. */
  ghost predicate Outcomes(removed: seq<Manifest>, outcomes: seq<Outcome>) {
    |outcomes| == |removed| && forall i :: 0 <= i < |removed| ==> Possible(removed[i], outcomes[i])
  }

  /** All the keys gone. */
  ghost function Taken(outcomes: seq<Outcome>): set<string> {
    if outcomes == [] then {} else Taken(outcomes[..|outcomes| - 1]) + outcomes[|outcomes| - 1].taken
  }

  /** The failures, in the order of the backups they belong to. */
  ghost function Failed(outcomes: seq<Outcome>): seq<Failure> {
    if outcomes == [] then []
    else
      var last := outcomes[|outcomes| - 1].failure;
      Failed(outcomes[..|outcomes| - 1]) + if last.Some? then [last.value] else []
  }

  /** The backups deleted without failure. */
  ghost function Cleared(removed: seq<Manifest>, outcomes: seq<Outcome>): seq<Manifest>
    requires |outcomes| == |removed|
  {
    if outcomes == [] then []
    else
      var n := |outcomes| - 1;
      Cleared(removed[..n], outcomes[..n]) + if outcomes[n].failure.None? then [removed[n]] else []
  }

  /** Where the deletions stand after the first i backups: the keys gone, the backups of which nothing
      is left, the number of failures and the bytes freed. */
  ghost predicate Progress(removed: seq<Manifest>, i: nat, gone: set<string>, cleared: seq<Manifest>, failed: nat, freed: nat) {
    && i <= |removed|
    && gone <= KeysOf(removed)
    && (WellKeyed(removed) ==> ManifestsFirst(gone, removed))
    && |cleared| + failed == i
    && (forall m :: m in cleared ==> m in removed && ManifestKey(m.id) in gone && m.artifactKey in gone)
    && freed == SizeOf(cleared)
    && (failed == 0 ==> cleared == removed[..i])
  }

  /** What is reported after the first i backups. */
  ghost predicate Reports(removed: seq<Manifest>, i: nat, outcomes: seq<Outcome>, failures: seq<Failure>, freed: nat) {
    && i <= |removed| && Outcomes(removed[..i], outcomes)
    && failures == Failed(outcomes)
    && freed == SizeOf(Cleared(removed[..i], outcomes))
  }

  /** Deletes the manifest of every removed backup and then, if that worked, its artifact. What is gone, the
      failures and the bytes freed are the sum of one possible outcome for each. */
  method Apply(store: Store, plan: Plan)
    returns (freed: nat, failures: seq<Failure>, ghost outcomes: seq<Outcome>)
    modifies store
    ensures Outcomes(Selected(plan.decisions, false), outcomes)
    ensures store.objects == old(store.objects) - Taken(outcomes)
    ensures failures == Failed(outcomes)
    ensures freed == SizeOf(Cleared(Selected(plan.decisions, false), outcomes))
    ensures store.reliable ==> failures == []
  {
    var removed := Remove(plan);
    freed, failures, outcomes := 0, [], [];
    for i := 0 to |removed|
      invariant Reports(removed, i, outcomes, failures, freed)
      invariant store.objects == old(store.objects) - Taken(outcomes)
      invariant store.reliable ==> failures == []
    {
      hide Possible, Selected, Taken, Reports;
      var m := removed[i];
      var failure, taken := DeleteBackup(store, m);
      NextOutcome(removed, i, outcomes, failures, freed, Outcome(failure, taken));
      outcomes := outcomes + [Outcome(failure, taken)];
      if failure.Some? {
        failures := failures + [failure.value];
        continue;
      }
      freed := freed + m.encryptedSize;
    }
    assert removed[..|removed|] == removed;
  }

  /** What one more outcome adds. */
  lemma NextOutcome(removed: seq<Manifest>, i: nat, outcomes: seq<Outcome>, failures: seq<Failure>, freed: nat, o: Outcome)
    requires i < |removed| && Reports(removed, i, outcomes, failures, freed) && Possible(removed[i], o)
    ensures Taken(outcomes + [o]) == Taken(outcomes) + o.taken
    ensures if o.failure.Some? then Reports(removed, i + 1, outcomes + [o], failures + [o.failure.value], freed)
            else Reports(removed, i + 1, outcomes + [o], failures, freed + removed[i].encryptedSize)
  {
    hide Possible;
    assert (outcomes + [o])[..i] == outcomes && removed[..i + 1][..i] == removed[..i];
    var cleared := Cleared(removed[..i], outcomes);
    assert Cleared(removed[..i + 1], outcomes + [o]) == cleared + if o.failure.None? then [removed[i]] else [];
    assert cleared + [] == cleared && failures + [] == failures;
    SizeOfLast(cleared, removed[i]);
  }

  /** What outcomes come to: the keys gone belong to the backups, no artifact goes before its manifest, every
      backup is cleared or failed, and without failures all of them are cleared. */
  lemma {:induction false} OutcomesProgress(removed: seq<Manifest>, i: nat, outcomes: seq<Outcome>)
    requires i <= |removed| && Outcomes(removed[..i], outcomes)
    ensures var cleared := Cleared(removed[..i], outcomes);
            Progress(removed, i, Taken(outcomes), cleared, |Failed(outcomes)|, SizeOf(cleared))
  {
    hide Possible, KeysOf, SizeOf;
    if i > 0 {
      var (before, o) := (outcomes[..i - 1], outcomes[i - 1]);
      assert removed[..i][..i - 1] == removed[..i - 1];
      assert Possible(removed[..i][i - 1], o);
      OutcomesProgress(removed, i - 1, before);
      var cleared := Cleared(removed[..i - 1], before);
      SizeOfLast(cleared, removed[i - 1]);
      ProgressStep(removed, i - 1, Taken(before), cleared, |Failed(before)|, SizeOf(cleared), o);
    }
  }

  /** Every failure names a removed backup. */
  lemma {:induction false} FailuresConcern(removed: seq<Manifest>, outcomes: seq<Outcome>)
    requires Outcomes(removed, outcomes)
    ensures forall f :: f in Failed(outcomes) ==> Concerns(f, removed)
  {
    hide ManifestKey;
    if removed != [] {
      var n := |removed| - 1;
      FailuresConcern(removed[..n], outcomes[..n]);
      assert Possible(removed[n], outcomes[n]);
    }
  }

  lemma ProgressStep(removed: seq<Manifest>, i: nat, gone: set<string>, cleared: seq<Manifest>, failed: nat, freed: nat, o: Outcome)
    requires i < |removed| && Progress(removed, i, gone, cleared, failed, freed) && Possible(removed[i], o)
    ensures if o.failure.Some? then Progress(removed, i + 1, gone + o.taken, cleared, failed + 1, freed)
            else Progress(removed, i + 1, gone + o.taken, cleared + [removed[i]], failed, freed + removed[i].encryptedSize)
  {
    hide ManifestKey, WellKeyed, ManifestsFirst, KeysOf;
    DeletionStep(removed, removed[i], gone, o.taken);
  }

  /** One backup: its manifest first, and its artifact only if the manifest is reported deleted. */
  method DeleteBackup(store: Store, m: Manifest) returns (failure: Option<Failure>, ghost taken: set<string>)
    modifies store
    ensures store.objects == old(store.objects) - taken
    ensures Possible(m, Outcome(failure, taken))
    ensures store.reliable ==> failure.None?
  {
    taken := {};
    ghost var before := store.objects;
    var ok := store.Delete(ManifestKey(m.id));
    if store.objects != before || ok {
      taken := {ManifestKey(m.id)};
    }
    if !ok {
      return Some(ManifestFailed(m.id)), taken;
    }
    before := store.objects;
    ok := store.Delete(m.artifactKey);
    if store.objects != before || ok {
      taken := taken + {m.artifactKey};
    }
    failure := if ok then None else Some(ArtifactFailed(m.id));
  }

  /** Deleting one backup in that order keeps the order overall. */
  lemma DeletionStep(ms: seq<Manifest>, m: Manifest, gone: set<string>, taken: set<string>)
    requires m in ms
    requires taken <= {ManifestKey(m.id), m.artifactKey}
    requires m.artifactKey in taken ==> ManifestKey(m.id) in taken
    ensures taken <= KeysOf(ms)
    ensures WellKeyed(ms) && ManifestsFirst(gone, ms) ==> ManifestsFirst(gone + taken, ms)
  {
    forall x | x in ms
      ensures ManifestKey(m.id) != ArtifactKey(x.id)
      ensures ArtifactKey(m.id) == ArtifactKey(x.id) ==> m.id == x.id
    {
      KeysDistinct(m.id, x.id);
    }
  }

  /** Pruning a laid-out store with its own plan: every advertised backup keeps its artifact, only
      discarded backups go, and a prune without failures leaves exactly the kept ones. */
  lemma PruneOutcome(objects: Objects, plan: Plan, ms: seq<Manifest>, p: Policy, gone: set<string>)
    requires LaidOut(objects) && SetOf(ms) == Catalog(objects)
    requires SetOf(Selected(plan.decisions, false)) == SetOf(ms) - Retained(SetOf(ms), p)
    requires gone <= KeysOf(Selected(plan.decisions, false))
    requires WellKeyed(Selected(plan.decisions, false)) ==> ManifestsFirst(gone, Selected(plan.decisions, false))
    ensures LaidOut(objects - gone)
    ensures Retained(Catalog(objects), p) <= Catalog(objects - gone) <= Catalog(objects)
    ensures HasArtifacts(objects) ==> HasArtifacts(objects - gone)
    ensures KeysOf(Selected(plan.decisions, false)) <= gone ==>
              && Catalog(objects - gone) == Retained(Catalog(objects), p)
              && forall m :: m in Catalog(objects) && m !in Retained(Catalog(objects), p) ==> m.artifactKey !in objects - gone
  {
    hide Retained, Selected, WellPlaced;
    var removed := Selected(plan.decisions, false);
    CatalogAfterRemoval(objects, gone);
    CatalogDistinct(objects);
    forall m | m in Catalog(objects)
      ensures m.artifactKey == ArtifactKey(m.id)
      ensures ManifestKey(m.id) in gone || m.artifactKey in gone ==> m in removed
    {
      Placed(objects, m);
      RemovedKeyOwner(objects, removed, m);
    }
    assert WellKeyed(removed) by {
      forall m | m in removed
        ensures m.artifactKey == ArtifactKey(m.id)
      {
        assert m in SetOf(removed);
      }
    }
    forall m | m in removed
      ensures m in Catalog(objects) && m !in Retained(Catalog(objects), p)
    {
      assert m in SetOf(removed);
    }
    forall m | m in Catalog(objects) && m !in Retained(Catalog(objects), p)
      ensures ManifestKey(m.id) in KeysOf(removed) && m.artifactKey in KeysOf(removed)
    {
      assert m in SetOf(removed);
    }
  }

  lemma Placed(objects: Objects, m: Manifest)
    requires LaidOut(objects) && m in Catalog(objects)
    ensures WellPlaced(ManifestKey(m.id), m)
    ensures ManifestKey(m.id) in objects && objects[ManifestKey(m.id)] == Record(m)
    ensures m.artifactKey == ArtifactKey(m.id)
  {
  }

  lemma RemovedKeyOwner(objects: Objects, removed: seq<Manifest>, m: Manifest)
    requires LaidOut(objects) && m in Catalog(objects)
    requires forall x :: x in SetOf(removed) ==> x in Catalog(objects)
    ensures ManifestKey(m.id) in KeysOf(removed) || m.artifactKey in KeysOf(removed) ==> m in removed
  {
    hide WellPlaced;
    CatalogDistinct(objects);
    Placed(objects, m);
    forall x | x in removed
      ensures ManifestKey(x.id) in {ManifestKey(m.id), m.artifactKey} || x.artifactKey in {ManifestKey(m.id), m.artifactKey} ==> x == m
    {
      assert x in SetOf(removed);
      Placed(objects, x);
      KeysDistinct(x.id, m.id);
      KeysDistinct(m.id, x.id);
    }
  }

  // ---- Sweeping orphans ----

  /** Whether some key under manifests/ carries the id. */
  ghost predicate Claimed(objects: Objects, id: string) {
    exists k :: k in objects && HasPrefix(k, MANIFEST_DIR) && IdInManifestKey(k) == id
  }

  /** An artifact no manifest claims, whose id dates it at least minAge before now. */
  ghost predicate Orphan(objects: Objects, k: string, minAge: Duration, now: Instant) {
    && k in objects && HasPrefix(k, ARTIFACT_DIR)
    && !Claimed(objects, IdInArtifactKey(k))
    && OldEnough(IdInArtifactKey(k), minAge, now)
  }

  predicate OldEnough(id: string, minAge: Duration, now: Instant) {
    Parse(id).Some? && Past(now, Parse(id).value * NS_PER_SECOND, minAge)
  }

  ghost function Orphans(objects: Objects, minAge: Duration, now: Instant): set<string> {
    set k | k in objects && Orphan(objects, k, minAge, now)
  }

  datatype SweepResult = ListingFailed | Swept(removed: nat, freed: nat, failures: seq<string>)

  method LiveIds(manifestKeys: seq<string>) returns (live: set<string>)
    ensures forall id :: id in live <==> exists k :: k in manifestKeys && IdInManifestKey(k) == id
  {
    live := {};
    for i := 0 to |manifestKeys|
      invariant forall id :: id in live <==> exists j :: 0 <= j < i && IdInManifestKey(manifestKeys[j]) == id
    {
      live := live + {IdInManifestKey(manifestKeys[i])};
    }
  }

  predicate Sweepable(k: string, live: set<string>, minAge: Duration, now: Instant) {
    IdInArtifactKey(k) !in live && OldEnough(IdInArtifactKey(k), minAge, now)
  }

  ghost function Doomed(keys: seq<string>, live: set<string>, minAge: Duration, now: Instant): set<string> {
    set k | k in keys && Sweepable(k, live, minAge, now)
  }

  lemma DoomedMeaning(keys: seq<string>, live: set<string>, minAge: Duration, now: Instant, k: string)
    requires k in keys
    ensures k in Doomed(keys, live, minAge, now) <==> Sweepable(k, live, minAge, now)
  {
  }

  /** What the listed keys among some take up. */
  ghost function SizeOfKeys(objects: Objects, keys: seq<string>, some: set<string>): nat {
    if keys == [] then 0
    else
      var k := keys[|keys| - 1];
      SizeOfKeys(objects, keys[..|keys| - 1], some) + if k in some && k in objects then SizeAt(objects, k) else 0
  }

  lemma SizeOfNext(objects: Objects, keys: seq<string>, some: set<string>, i: nat)
    requires i < |keys|
    ensures SizeOfKeys(objects, keys[..i + 1], some) ==
            SizeOfKeys(objects, keys[..i], some) + if keys[i] in some && keys[i] in objects then SizeAt(objects, keys[i]) else 0
  {
    assert keys[..i + 1][..i] == keys[..i];
  }

  /** Sizes add up, a key among some counting the bytes that lie under it. */
  lemma {:induction false} SizeOfKeysParts(objects: Objects, a: seq<string>, b: seq<string>, some: set<string>)
    ensures SizeOfKeys(objects, a + b, some) == SizeOfKeys(objects, a, some) + SizeOfKeys(objects, b, some)
    ensures |b| == 1 && b[0] in objects && objects[b[0]].Blob? ==>
              SizeOfKeys(objects, b, some) == if b[0] in some then |objects[b[0]].bytes| else 0
  {
    if b == [] {
      assert a + b == a;
    } else {
      var n := |b| - 1;
      assert (a + b)[..|a| + n] == a + b[..n];
      SizeOfKeysParts(objects, a, b[..n], some);
    }
  }

  /** What the sweep does about one key: nothing, reclaim it, or fail to. */
  datatype Swipe = Passed | Reclaimed(size: nat) | NotDeleted

  /** One artifact: passed over if it is on the list, cannot be dated or is too young. */
  method SweepKey(store: Store, k: string, live: set<string>, minAge: Duration, now: Instant)
    returns (o: Swipe, ghost taken: set<string>)
    requires k in store.objects
    modifies store
    ensures store.objects == old(store.objects) - taken && taken <= {k}
    ensures o.Passed? <==> !Sweepable(k, live, minAge, now)
    ensures o.Passed? ==> taken == {}
    ensures o.Reclaimed? ==> taken == {k} && o.size <= SizeAt(old(store.objects), k)
    ensures store.reliable ==> !o.NotDeleted? && (o.Reclaimed? ==> o.size == SizeAt(old(store.objects), k))
  {
    hide Parse, IdInArtifactKey, SizeAt;
    taken := {};
    var id := IdInArtifactKey(k);
    if id in live {
      return Passed, taken;
    }
    var created := Parse(id);
    if created.None? {
      return Passed, taken;
    }
    SubMeaning(now, created.value * NS_PER_SECOND, minAge);
    if Sub(now, created.value * NS_PER_SECOND) < minAge {
      return Passed, taken;
    }
    var size := store.Stat(k);
    ghost var before := store.objects;
    var ok := store.Delete(k);
    if store.objects != before || ok {
      taken := {k};
    }
    o := if ok then Reclaimed(size) else NotDeleted;
  }

  /** Where a sweep stands after the first i keys. */
  ghost predicate SweepProgress(objects: Objects, keys: seq<string>, doomed: set<string>, i: nat, exact: bool,
                                removed: nat, freed: nat, failures: seq<string>, gone: set<string>) {
    && i <= |keys|
    && var due := DoomedAmong(keys[..i], doomed);
    && gone <= due
    && removed + |failures| == |due|
    && (failures == [] ==> gone == due)
    && (forall k :: k in failures ==> k in due)
    && freed <= SizeOfKeys(objects, keys[..i], doomed)
    && (exact ==> failures == [] && freed == SizeOfKeys(objects, keys[..i], doomed))
  }

  ghost function DoomedAmong(keys: seq<string>, doomed: set<string>): set<string> {
    set k | k in keys && k in doomed
  }

  lemma DoomedNext(keys: seq<string>, doomed: set<string>, i: nat)
    requires i < |keys| && Ascending(keys)
    ensures keys[i] !in DoomedAmong(keys[..i], doomed)
    ensures DoomedAmong(keys[..i + 1], doomed) ==
            DoomedAmong(keys[..i], doomed) + if keys[i] in doomed then {keys[i]} else {}
  {
    AscendingDistinct(keys, i);
    assert keys[..i + 1] == keys[..i] + [keys[i]];
  }

  lemma SweepStart(objects: Objects, keys: seq<string>, doomed: set<string>, exact: bool)
    ensures SweepProgress(objects, keys, doomed, 0, exact, 0, 0, [], {})
  {
    assert DoomedAmong(keys[..0], doomed) == {};
  }

  lemma SweepStep(objects: Objects, keys: seq<string>, doomed: set<string>, i: nat, exact: bool,
                  removed: nat, freed: nat, failures: seq<string>, gone: set<string>, o: Swipe, taken: set<string>)
    requires i < |keys| && Ascending(keys) && keys[i] in objects
    requires SweepProgress(objects, keys, doomed, i, exact, removed, freed, failures, gone)
    requires taken <= {keys[i]} && (o.Passed? <==> keys[i] !in doomed) && (o.Passed? ==> taken == {})
    requires o.Reclaimed? ==> taken == {keys[i]} && o.size <= SizeAt(objects, keys[i])
    requires exact ==> !o.NotDeleted? && (o.Reclaimed? ==> o.size == SizeAt(objects, keys[i]))
    ensures SweepProgress(objects, keys, doomed, i + 1, exact,
                          if o.Reclaimed? then removed + 1 else removed,
                          if o.Reclaimed? then freed + o.size else freed,
                          if o.NotDeleted? then failures + [keys[i]] else failures,
                          gone + taken)
  {
    hide Ascending, SizeAt, SizeOfKeys, DoomedAmong;
    DoomedNext(keys, doomed, i);
    SizeOfNext(objects, keys, doomed, i);
  }

  lemma SweepEnd(objects: Objects, keys: seq<string>, live: set<string>, minAge: Duration, now: Instant, exact: bool,
                 removed: nat, freed: nat, failures: seq<string>, gone: set<string>)
    requires SweepProgress(objects, keys, Doomed(keys, live, minAge, now), |keys|, exact, removed, freed, failures, gone)
    ensures var doomed := Doomed(keys, live, minAge, now);
            && gone <= doomed
            && removed + |failures| == |doomed|
            && (failures == [] ==> gone == doomed)
            && (forall k :: k in failures ==> k in doomed)
            && freed <= SizeOfKeys(objects, keys, doomed)
            && (exact ==> failures == [] && freed == SizeOfKeys(objects, keys, doomed))
  {
    hide Sweepable, SizeOfKeys;
    assert keys[..|keys|] == keys;
    assert DoomedAmong(keys, Doomed(keys, live, minAge, now)) == Doomed(keys, live, minAge, now);
  }

  method DeleteOrphans(store: Store, keys: seq<string>, live: set<string>, minAge: Duration, now: Instant)
    returns (removed: nat, freed: nat, failures: seq<string>, ghost gone: set<string>)
    requires Ascending(keys) && forall k :: k in keys ==> k in store.objects
    modifies store
    ensures store.objects == old(store.objects) - gone
    ensures gone <= Doomed(keys, live, minAge, now)
    ensures removed + |failures| == |Doomed(keys, live, minAge, now)|
    ensures failures == [] ==> gone == Doomed(keys, live, minAge, now)
    ensures forall k :: k in failures ==> k in Doomed(keys, live, minAge, now)
    ensures freed <= SizeOfKeys(old(store.objects), keys, Doomed(keys, live, minAge, now))
    ensures store.reliable ==> failures == [] && freed == SizeOfKeys(old(store.objects), keys, Doomed(keys, live, minAge, now))
  {
    hide Sweepable, Ascending, Doomed, SweepProgress, RawBytes, SizeOfKeys;
    ghost var before, doomed := store.objects, Doomed(keys, live, minAge, now);
    removed, freed, failures, gone := 0, 0, [], {};
    SweepStart(before, keys, doomed, store.reliable);
    for i := 0 to |keys|
      invariant store.objects == before - gone
      invariant forall j :: i <= j < |keys| ==> keys[j] in store.objects
      invariant SweepProgress(before, keys, doomed, i, store.reliable, removed, freed, failures, gone)
    {
      DoomedMeaning(keys, live, minAge, now, keys[i]);
      LaterKeys(keys, i);
      var o, taken := SweepKey(store, keys[i], live, minAge, now);
      SweepStep(before, keys, doomed, i, store.reliable, removed, freed, failures, gone, o, taken);
      gone := gone + taken;
      match o {
        case Passed =>
        case Reclaimed(size) =>
          removed := removed + 1;
          freed := freed + size;
        case NotDeleted =>
          failures := failures + [keys[i]];
      }
    }
    SweepEnd(before, keys, live, minAge, now, store.reliable, removed, freed, failures, gone);
  }

  lemma LaterKeys(keys: seq<string>, i: nat)
    requires i < |keys| && Ascending(keys)
    ensures forall j :: i < j < |keys| ==> keys[j] != keys[i]
  {
    LessIrreflexive(keys[i]);
  }

  /** The bytes reported freed are at most those of the orphans, and exactly those when nothing fails. */
  ghost predicate Accounts(freed: nat, exact: bool, objects: Objects, orphans: set<string>) {
    exists keys ::
      && Ascending(keys) && (forall k :: k in keys <==> k in objects && HasPrefix(k, ARTIFACT_DIR))
      && freed <= SizeOfKeys(objects, keys, orphans)
      && (exact ==> freed == SizeOfKeys(objects, keys, orphans))
  }

  /** Deletes orphaned artifacts; gone are the keys deleted. */
  method SweepOrphans(store: Store, minAge: Duration, now: Instant) returns (r: SweepResult, ghost gone: set<string>)
    modifies store
    ensures store.objects == old(store.objects) - gone
    ensures gone <= Orphans(old(store.objects), minAge, now)
    ensures r.ListingFailed? ==> gone == {}
    ensures r.Swept? ==> r.removed + |r.failures| == |Orphans(old(store.objects), minAge, now)|
    ensures r.Swept? && r.failures == [] ==> gone == Orphans(old(store.objects), minAge, now)
    ensures r.Swept? ==> forall k :: k in r.failures ==> k in Orphans(old(store.objects), minAge, now)
    ensures store.reliable ==> r.Swept? && r.failures == []
    ensures r.Swept? ==> Accounts(r.freed, store.reliable, old(store.objects), Orphans(old(store.objects), minAge, now))
  {
    hide OldEnough, IdInArtifactKey, IdInManifestKey, HasPrefix, Ascending, SizeOfKeys;
    gone := {};
    var manifestKeys := store.List(MANIFEST_DIR);
    if manifestKeys.None? {
      return ListingFailed, gone;
    }
    var live := LiveIds(manifestKeys.value);
    var artifactKeys := store.List(ARTIFACT_DIR);
    if artifactKeys.None? {
      return ListingFailed, gone;
    }
    assert Doomed(artifactKeys.value, live, minAge, now) == Orphans(store.objects, minAge, now);
    var removed, freed, failures;
    removed, freed, failures, gone := DeleteOrphans(store, artifactKeys.value, live, minAge, now);
    r := Swept(removed, freed, failures);
  }

  lemma AscendingDistinct(keys: seq<string>, i: nat)
    requires i < |keys| && Ascending(keys)
    ensures keys[i] !in keys[..i]
  {
    LessIrreflexive(keys[i]);
  }

  /** In a laid-out store a sweep takes nothing that a manifest advertises. */
  lemma SweepHarmless(objects: Objects, gone: set<string>, minAge: Duration, now: Instant)
    requires LaidOut(objects) && gone <= Orphans(objects, minAge, now)
    ensures LaidOut(objects - gone) && Catalog(objects - gone) == Catalog(objects)
    ensures HasArtifacts(objects) ==> HasArtifacts(objects - gone)
  {
    hide WellPlaced, OldEnough;
    CatalogAfterRemoval(objects, gone);
    forall m | m in Catalog(objects)
      ensures ManifestKey(m.id) !in gone && m.artifactKey !in gone
    {
      Placed(objects, m);
      KeysCarryIds(m.id);
      assert Claimed(objects, m.id);
    }
  }
}
