/** From a stored backup back to its dump, and manifests in and out of the store. */
module Artifact {
  import opened Bytes
  import opened Crypto
  import opened Framing
  import opened Manifests
  import opened Retention
  import opened Storage
  import opened Streams
  import opened Strings
  import opened TempFiles
  import opened Timestamp
  import opened Wrappers

  /** The step at which materializing failed. */
  datatype Stage = StageFetch | StageDecrypt | StageChecksum | StageWrite

  /** Some bytes decode completely to a plaintext with the hash the manifest records. */
  predicate Materializes(suite: Suite, key: Key, m: Manifest, bytes: seq<byte>) {
    && |key| == KEY_SIZE
    && Decode(suite, key, bytes).verdict == Complete
    && suite.sha256(Decode(suite, key, bytes).out) == m.plaintextSha256
  }

  /** The stored artifact of a manifest materializes. */
  predicate Restorable(suite: Suite, key: Key, m: Manifest, objects: Objects) {
    m.artifactKey in objects && Materializes(suite, key, m, RawBytes(objects[m.artifactKey]))
  }

  function PlaintextOf(suite: Suite, key: Key, m: Manifest, objects: Objects): seq<byte>
    requires m.artifactKey in objects
  {
    Decode(suite, key, RawBytes(objects[m.artifactKey])).out
  }

  /** The stage at which materializing fails, given the room for the plaintext, when no fault strikes the
      store. */
  ghost function Loss(suite: Suite, key: Key, m: Manifest, objects: Objects, room: Option<nat>): (loss: Option<Stage>)
    ensures loss.None? <==> Restorable(suite, key, m, objects) && FitsIn(room, |PlaintextOf(suite, key, m, objects)|)
    ensures loss == Some(StageFetch) <==> m.artifactKey !in objects
    ensures loss == Some(StageChecksum) <==>
              && m.artifactKey in objects && |key| == KEY_SIZE
              && Decode(suite, key, RawBytes(objects[m.artifactKey])).verdict == Complete
              && FitsIn(room, |PlaintextOf(suite, key, m, objects)|)
              && suite.sha256(PlaintextOf(suite, key, m, objects)) != m.plaintextSha256
    ensures loss != Some(StageWrite)
  {
    if m.artifactKey !in objects then Some(StageFetch)
    else
      var d := Decode(suite, key, RawBytes(objects[m.artifactKey]));
      if |key| != KEY_SIZE || d.verdict != Complete || !FitsIn(room, |d.out|) then Some(StageDecrypt)
      else if suite.sha256(d.out) != m.plaintextSha256 then Some(StageChecksum)
      else None
  }

  /** Opens a stored object for reading; unless the store is reliable, the connection may break at any
      byte. */
  method Open(store: Store, bytes: seq<byte>) returns (src: Reader)
    ensures fresh(src) && src.Valid() && src.pos == 0
    ensures exists k :: 0 <= k <= |bytes| && src.data == bytes[..k]
    ensures !src.broken ==> src.data == bytes
    ensures store.reliable ==> !src.broken
  {
    var breaks := store.Fault();
    var k :| 0 <= k <= |bytes|;
    var lulls: nat := *;
    if breaks {
      src := new Reader(bytes[..k], true, lulls);
    } else {
      assert bytes == bytes[..|bytes|];
      src := new Reader(bytes, false, lulls);
    }
  }

  /** Streams an artifact through decryption into dst and a running hash, and compares the hash. */
  method Materialize(store: Store, suite: Suite, m: Manifest, key: Key, dst: Writer) returns (failure: Option<Stage>)
    requires dst.Valid()
    modifies dst
    ensures dst.Valid()
    ensures failure.None? ==> Restorable(suite, key, m, store.objects) &&
                              dst.reached == old(dst.reached) + PlaintextOf(suite, key, m, store.objects)
    ensures failure == Loss(suite, key, m, store.objects, old(dst.Left())) ||
            (!store.reliable && failure in {Some(StageFetch), Some(StageDecrypt)})
    ensures m.artifactKey !in store.objects ==> failure == Some(StageFetch)
  {
    var obj := store.Get(m.artifactKey);
    if obj.None? {
      return Some(StageFetch);
    }
    var bytes := RawBytes(obj.value);
    var src := Open(store, bytes);
    ghost var k :| 0 <= k <= |bytes| && src.data == bytes[..k];
    assert src.Rest() == bytes[..k];
    var mark := |dst.acked|;
    var ok := Decrypt(suite, dst, src, key);
    if !ok {
      return Some(StageDecrypt);
    }
    DecodeStable(suite, key, bytes, k);
    ghost var out := Decode(suite, key, bytes).out;
    assert dst.reached == old(dst.reached) + out by {
      WholeWrite(dst.limit, old(dst.reached), out);
    }
    assert dst.acked[mark..] == out;
    var got := suite.sha256(dst.acked[mark..]);
    if got != m.plaintextSha256 {
      return Some(StageChecksum);
    }
    failure := None;
  }

  /** Whatever lies under the artifact key: if it materializes, it is the dump the manifest was
      written for. */
  lemma MaterializedExactly(suite: Suite, key: Key, m: Manifest, bytes: seq<byte>, dump: seq<byte>)
    requires suite.CollisionFree()
    requires m.plaintextSha256 == suite.sha256(dump)
    requires Materializes(suite, key, m, bytes)
    ensures Decode(suite, key, bytes).out == dump
  {
  }

  /** An unaltered artifact materializes, to exactly the dump. */
  lemma UnalteredMaterializes(suite: Suite, key: Key, nonces: nat -> Nonce, m: Manifest, dump: seq<byte>)
    requires suite.Lawful() && |key| == KEY_SIZE
    requires m.plaintextSha256 == suite.sha256(dump)
    ensures Materializes(suite, key, m, Encoding(suite, key, nonces, dump))
    ensures Decode(suite, key, Encoding(suite, key, nonces, dump)).out == dump
  {
    DecodeOfEncoding(suite, key, nonces, dump, []);
    assert Encoding(suite, key, nonces, dump) + [] == Encoding(suite, key, nonces, dump);
  }

  /** A truncated artifact never materializes. */
  lemma TruncatedNeverMaterializes(suite: Suite, key: Key, nonces: nat -> Nonce, m: Manifest, dump: seq<byte>, k: nat)
    requires suite.Lawful() && k < |Encoding(suite, key, nonces, dump)|
    ensures !Materializes(suite, key, m, Encoding(suite, key, nonces, dump)[..k])
  {
    TruncationDetected(suite, key, nonces, dump, k);
  }

  /** Materializes into a new temporary file, which is left behind only on success.
      Only failing to create or to close the file is reported as a write failure: a file that runs full
      while it is written surfaces from the decryption. */
  method MaterializeTemp(store: Store, suite: Suite, m: Manifest, key: Key, dir: TempDir)
    returns (path: nat, failure: Option<Stage>)
    requires dir.Valid()
    modifies dir`files, dir`next
    ensures dir.Valid()
    ensures failure.None? ==>
              && Restorable(suite, key, m, store.objects)
              && path !in old(dir.files)
              && dir.files == old(dir.files)[path := PlaintextOf(suite, key, m, store.objects)]
              && dir.disk.Room(|PlaintextOf(suite, key, m, store.objects)|)
    ensures failure.Some? ==> dir.files == old(dir.files)
    ensures !dir.disk.canCreate ==> failure == Some(StageWrite)
    ensures dir.disk.canCreate ==>
              var loss := Loss(suite, key, m, store.objects, dir.disk.capacity);
              || failure == (if loss.None? && !dir.disk.canClose then Some(StageWrite) else loss)
              || (!store.reliable && failure in {Some(StageFetch), Some(StageDecrypt)})
    ensures m.artifactKey !in store.objects && dir.disk.canCreate ==> failure == Some(StageFetch)
  {
    path := dir.next;
    if !dir.disk.canCreate {
      return path, Some(StageWrite);
    }
    dir.next := path + 1;
    dir.files := dir.files[path := []];
    var tmp := new Writer(dir.disk.capacity);
    failure := Materialize(store, suite, m, key, tmp);
    assert failure.None? ==> tmp.reached == [] + PlaintextOf(suite, key, m, store.objects) == PlaintextOf(suite, key, m, store.objects);
    dir.files := dir.files[path := tmp.reached];
    if failure.Some? {
      dir.files := dir.files - {path};
      return;
    }
    if !dir.disk.canClose {
      dir.files := dir.files - {path};
      return path, Some(StageWrite);
    }
  }

  // ---- Manifests ----

  method Load(store: Store, id: string) returns (r: Option<Manifest>)
    ensures r.Some? ==> ManifestKey(id) in store.objects && store.objects[ManifestKey(id)] == Record(r.value)
    ensures store.reliable && ManifestKey(id) in store.objects && store.objects[ManifestKey(id)].Record? ==> r.Some?
  {
    var obj := store.Get(ManifestKey(id));
    r := if obj.Some? && obj.value.Record? then Some(obj.value.m) else None;
  }

  method Save(store: Store, m: Manifest) returns (ok: bool)
    modifies store
    ensures store.objects == old(store.objects) || store.objects == old(store.objects)[ManifestKey(m.id) := Record(m)]
    ensures ok ==> store.objects == old(store.objects)[ManifestKey(m.id) := Record(m)]
    ensures store.reliable ==> ok
  {
    ok := store.Put(ManifestKey(m.id), Record(m));
  }

  /** The manifests found under the listed keys, in key order. */
  ghost predicate Listed(objects: Objects, keys: seq<string>, ms: seq<Manifest>) {
    && Ascending(keys)
    && (forall k :: k in keys <==> k in objects && HasPrefix(k, MANIFEST_DIR))
    && |ms| == |keys|
    && forall i :: 0 <= i < |ms| ==> keys[i] in objects && objects[keys[i]] == Record(ms[i])
  }

  /** Reads every manifest: one listing, then one read per key. Any object under manifests/ that does
      not decode makes it fail. */
  method LoadAll(store: Store) returns (r: Option<seq<Manifest>>, ghost keys: seq<string>)
    ensures r.Some? ==> Listed(store.objects, keys, r.value)
    ensures r.Some? && LaidOut(store.objects) ==>
              SetOf(r.value) == Catalog(store.objects) && AllDistinct(r.value) && Chronological(r.value)
    ensures store.reliable && NoStrays(store.objects) ==> r.Some?
  {
    keys := [];
    var listing := store.List(MANIFEST_DIR);
    if listing.None? {
      return None, [];
    }
    keys := listing.value;
    var ms := [];
    for i := 0 to |listing.value|
      invariant |ms| == i
      invariant forall j :: 0 <= j < i ==> keys[j] in store.objects && store.objects[keys[j]] == Record(ms[j])
    {
      var obj := store.Get(listing.value[i]);
      if obj.None? || obj.value.Blob? {
        return None, keys;
      }
      ms := ms + [obj.value.m];
    }
    r := Some(ms);
    if LaidOut(store.objects) {
      ListedCatalog(store.objects, keys, ms);
    }
  }

  ghost predicate Chronological(ms: seq<Manifest>) {
    forall i, j :: 0 <= i < j < |ms| ==> ms[i].createdAt < ms[j].createdAt
  }

  lemma ManifestKeyOrder(a: string, b: string)
    requires |a| == |b|
    ensures Less(ManifestKey(a), ManifestKey(b)) <==> Less(a, b)
  {
    LessByParts(MANIFEST_DIR, a + MANIFEST_EXT, MANIFEST_DIR, b + MANIFEST_EXT);
    LessByParts(a, MANIFEST_EXT, b, MANIFEST_EXT);
    LessIrreflexive(MANIFEST_DIR);
    LessIrreflexive(MANIFEST_EXT);
    assert ManifestKey(a) == MANIFEST_DIR + (a + MANIFEST_EXT) && ManifestKey(b) == MANIFEST_DIR + (b + MANIFEST_EXT);
  }

  /** In a laid-out store the listing is the catalog, and key order is the order of creation. */
  lemma ListedCatalog(objects: Objects, keys: seq<string>, ms: seq<Manifest>)
    requires LaidOut(objects) && Listed(objects, keys, ms)
    ensures SetOf(ms) == Catalog(objects) && AllDistinct(ms) && Chronological(ms)
  {
    hide Id, Less, HasPrefix;
    forall m | m in Catalog(objects)
      ensures m in ms
    {
      CatalogLookup(objects, m);
      KeysCarryIds(m.id);
      var i :| 0 <= i < |keys| && keys[i] == ManifestKey(m.id);
      assert ms[i] == m;
    }
    forall i, j | 0 <= i < j < |ms|
      ensures ms[i].createdAt < ms[j].createdAt && ms[i].id != ms[j].id
    {
      assert WellPlaced(keys[i], ms[i]) && WellPlaced(keys[j], ms[j]);
      ManifestKeyOrder(ms[i].id, ms[j].id);
      IdOrder(ms[i].createdAt, ms[j].createdAt);
      SecondsOrder(ms[i].createdAt, ms[j].createdAt);
      LessIrreflexive(ms[i].id);
    }
  }
}
