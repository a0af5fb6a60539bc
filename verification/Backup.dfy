/** Taking a backup: dump, hash, encrypt into the store, and the manifest last. */
module Backup {
  import opened Artifact
  import opened Bytes
  import opened Crypto
  import opened Framing
  import opened Manifests
  import opened Storage
  import opened Streams
  import opened Timestamp
  import opened Wrappers

  /** The source side: configuration, and how each external step turns out. */
  datatype Source = Source(
    installed: bool,
    rowSecurity: bool,
    uncovered: Option<seq<string>>,
    versioned: bool,
    tempFile: bool,
    dump: Option<seq<byte>>,
    hashed: bool,
    reopened: bool,
    readBreaks: bool)
  {
    /** With row security on, a table the role cannot fully read stops the backup. */
    predicate Covered() {
      rowSecurity ==> uncovered == Some([])
    }

    /** Nothing on the source side is in the way of a backup. */
    predicate Works() {
      installed && Covered() && versioned && tempFile && dump.Some? && hashed && reopened && !readBreaks
    }
  }

  /** The store after the first steps of a backup: none, the artifact, the artifact and the manifest. */
  function AfterSteps(objects: Objects, m: Manifest, artifact: seq<byte>, steps: nat): Objects {
    if steps == 0 then objects
    else if steps == 1 then objects[m.artifactKey := Blob(artifact)]
    else objects[m.artifactKey := Blob(artifact)][ManifestKey(m.id) := Record(m)]
  }

  /** A manifest as a backup of dump at now writes it, for the artifact it has written. */
  ghost predicate Describes(suite: Suite, m: Manifest, now: Instant, dump: seq<byte>, artifact: seq<byte>) {
    && m.id == Id(now) && m.createdAt == now && m.artifactKey == ArtifactKey(m.id)
    && m.plaintextSize == |dump| && m.encryptedSize == |artifact|
    && m.plaintextSha256 == suite.sha256(dump)
    && m.verification == UNVERIFIED
  }

  /** Performs one backup. steps counts the writes that reached the store. */
  method Run(store: Store, suite: Suite, key: Key, entropy: Entropy, source: Source, now: Instant)
    returns (r: Option<Manifest>, ghost m: Manifest, ghost artifact: seq<byte>, ghost steps: nat)
    modifies store
    ensures steps <= 2 && store.objects == AfterSteps(old(store.objects), m, artifact, steps)
    ensures r.Some? ==> steps == 2 && r.value == m
    ensures steps > 0 ==>
              && source.Covered() && source.dump.Some? && |key| == KEY_SIZE
              && artifact == Encoding(suite, key, entropy.nonces, source.dump.value)
              && Describes(suite, m, now, source.dump.value, artifact)
    ensures store.reliable && source.Works() && |key| == KEY_SIZE && entropy.AlwaysWorks() ==> r.Some?
  {
    m := Manifest("", 0, "", 0, 0, "", UNVERIFIED);
    artifact, steps := [], 0;
    if !source.installed {
      return None, m, artifact, 0;
    }
    if source.rowSecurity {
      if source.uncovered.None? {
        return None, m, artifact, 0;
      }
      if |source.uncovered.value| > 0 {
        return None, m, artifact, 0;
      }
    }
    var id := Id(now);
    var artifactKey := ArtifactKey(id);
    if !source.versioned || !source.tempFile || source.dump.None? || !source.hashed || !source.reopened {
      return None, m, artifact, 0;
    }
    var dump := source.dump.value;
    var sum := suite.sha256(dump);
    var bytes, size, piped := EncryptedCopy(suite, key, entropy, dump, source.readBreaks);
    if !piped {
      return None, m, artifact, 0;
    }
    artifact := bytes;
    var written := Manifest(id, now, artifactKey, |dump|, size, sum, UNVERIFIED);
    m := written;
    ghost var before := store.objects;
    var ok := store.Put(artifactKey, Blob(bytes));
    steps := if store.objects == before[artifactKey := Blob(bytes)] then 1 else 0;
    if !ok {
      return None, m, artifact, steps;
    }
    before := store.objects;
    ok := store.Put(ManifestKey(id), Record(written));
    steps := if store.objects == before[ManifestKey(id) := Record(written)] then 2 else 1;
    r := if ok then Some(written) else None;
  }

  /** Encryption on one end of a pipe, a counting reader on the other: what the store receives, and the
      count that becomes the manifest's encrypted size. */
  method EncryptedCopy(suite: Suite, key: Key, entropy: Entropy, dump: seq<byte>, breaks: bool)
    returns (bytes: seq<byte>, size: nat, ok: bool)
    ensures size == |bytes|
    ensures ok ==> |key| == KEY_SIZE && bytes == Encoding(suite, key, entropy.nonces, dump)
    ensures |key| == KEY_SIZE && entropy.AlwaysWorks() && !breaks ==> ok
  {
    var lulls: nat := *;
    var input := new Reader(dump, breaks, lulls);
    var pipe := new Writer(None);
    var sealed := Encrypt(suite, pipe, input, key, entropy);
    assert input.data[0..] == dump;
    lulls := *;
    var output := new Reader(pipe.reached, !sealed, lulls);
    var counter := new CountingReader(output);
    bytes, ok := Drain(counter);
    size := counter.n;
  }

  /** Every prefix of the steps of a backup leaves a laid-out store in which every manifest has its
      artifact. */
  lemma StepsKeepLayout(objects: Objects, m: Manifest, artifact: seq<byte>, steps: nat)
    requires LaidOut(objects) && HasArtifacts(objects)
    requires WellPlaced(ManifestKey(m.id), m)
    ensures LaidOut(AfterSteps(objects, m, artifact, steps)) && HasArtifacts(AfterSteps(objects, m, artifact, steps))
    ensures steps < 2 ==> Catalog(AfterSteps(objects, m, artifact, steps)) == Catalog(objects)
    ensures steps >= 2 ==> forall x :: x in Catalog(AfterSteps(objects, m, artifact, steps)) <==>
              x == m || (x in Catalog(objects) && x.id != m.id)
  {
    assert m.artifactKey == ArtifactKey(m.id);
    hide WellPlaced;
    var stored := objects[ArtifactKey(m.id) := Blob(artifact)];
    CatalogAfterArtifact(objects, m.id, artifact);
    CatalogAfterRecord(stored, m);
  }

  /** The manifest of an unaltered backup materializes to the dump, and its sizes are those of the
      framing. */
  lemma BackupMaterializes(suite: Suite, key: Key, nonces: nat -> Framing.Nonce, m: Manifest, now: Instant, dump: seq<byte>, artifact: seq<byte>)
    requires suite.Lawful() && |key| == KEY_SIZE
    requires artifact == Encoding(suite, key, nonces, dump) && Describes(suite, m, now, dump, artifact)
    ensures Materializes(suite, key, m, artifact) && Decode(suite, key, artifact).out == dump
    ensures m.encryptedSize == 8 + m.plaintextSize + 32 * FrameCount(m.plaintextSize)
  {
    UnalteredMaterializes(suite, key, nonces, m, dump);
    EncodingLength(suite, key, nonces, dump);
  }
}
