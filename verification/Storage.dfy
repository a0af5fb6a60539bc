/** The object store: a map from keys to objects, each operation atomic and free to fail. */
module Storage {
  import opened Bytes
  import opened Manifests
  import opened RetentionSpec
  import opened Strings
  import opened Timestamp
  import opened Wrappers

  /** A stored object: an encoded manifest, taken as the value it decodes to, or other bytes. */
  datatype Object = Record(m: Manifest) | Blob(bytes: seq<byte>)

  type Objects = map<string, Object>

  /** The bytes of an object; an encoded manifest starts with a brace and is no artifact. */
  function RawBytes(obj: Object): seq<byte> {
    match obj
    case Blob(bytes) => bytes
    case Record(_) => [123]
  }

  // ---- Layout ----

  /** Every manifest lies under its own id, the id is the second of its creation, and it names its
      own artifact. Files that are not manifests may lie anywhere. */
  ghost predicate LaidOut(objects: Objects) {
    forall k :: k in objects && objects[k].Record? ==> WellPlaced(k, objects[k].m)
  }

  predicate WellPlaced(key: string, m: Manifest) {
    key == ManifestKey(m.id) && m.id == Id(m.createdAt) && m.artifactKey == ArtifactKey(m.id)
  }

  /** The backups a store advertises. */
  ghost function Catalog(objects: Objects): Backups {
    set k | k in objects && objects[k].Record? :: objects[k].m
  }

  ghost predicate HasArtifacts(objects: Objects) {
    forall m :: m in Catalog(objects) ==> m.artifactKey in objects
  }

  /** Only manifests lie under manifests/. */
  ghost predicate NoStrays(objects: Objects) {
    forall k :: k in objects && HasPrefix(k, MANIFEST_DIR) ==> objects[k].Record?
  }

  lemma CatalogLookup(objects: Objects, m: Manifest)
    requires LaidOut(objects)
    ensures m in Catalog(objects) <==> ManifestKey(m.id) in objects && objects[ManifestKey(m.id)] == Record(m)
  {
  }

  /** In a laid-out store no two backups share an id or a creation time. */
  lemma CatalogDistinct(objects: Objects)
    requires LaidOut(objects)
    ensures Distinct(Catalog(objects))
    ensures forall a, b :: a in Catalog(objects) && b in Catalog(objects) && a.id == b.id ==> a == b
  {
    hide Id;
    forall a | a in Catalog(objects)
      ensures a.id == Id(a.createdAt)
      ensures ManifestKey(a.id) in objects && objects[ManifestKey(a.id)] == Record(a)
    {
      CatalogLookup(objects, a);
    }
  }

  /** Removing keys removes from the catalog exactly the backups whose manifest keys go. */
  lemma CatalogAfterRemoval(objects: Objects, gone: set<string>)
    requires LaidOut(objects)
    ensures LaidOut(objects - gone)
    ensures forall m :: m in Catalog(objects - gone) <==> m in Catalog(objects) && ManifestKey(m.id) !in gone
  {
    hide WellPlaced;
    forall m
      ensures m in Catalog(objects - gone) <==> m in Catalog(objects) && ManifestKey(m.id) !in gone
    {
      CatalogLookup(objects, m);
      CatalogLookup(objects - gone, m);
    }
  }

  /** Storing a well-placed manifest replaces any backup with its id. */
  lemma CatalogAfterRecord(objects: Objects, m: Manifest)
    requires LaidOut(objects) && WellPlaced(ManifestKey(m.id), m)
    ensures var after := objects[ManifestKey(m.id) := Record(m)];
            && LaidOut(after)
            && forall x :: x in Catalog(after) <==> x == m || (x in Catalog(objects) && x.id != m.id)
  {
    var after := objects[ManifestKey(m.id) := Record(m)];
    forall x
      ensures x in Catalog(after) <==> x == m || (x in Catalog(objects) && x.id != m.id)
    {
      KeysDistinct(x.id, m.id);
      CatalogLookup(objects, x);
      CatalogLookup(after, x);
    }
  }

  /** Storing bytes under an artifact key leaves the catalog alone. */
  lemma CatalogAfterArtifact(objects: Objects, id: string, bytes: seq<byte>)
    requires LaidOut(objects)
    ensures LaidOut(objects[ArtifactKey(id) := Blob(bytes)])
    ensures Catalog(objects[ArtifactKey(id) := Blob(bytes)]) == Catalog(objects)
  {
    var after := objects[ArtifactKey(id) := Blob(bytes)];
    forall x
      ensures x in Catalog(after) <==> x in Catalog(objects)
    {
      KeysDistinct(x.id, id);
      CatalogLookup(objects, x);
      CatalogLookup(after, x);
    }
  }

  // ---- Sorted keys ----

  predicate Ascending(keys: seq<string>) {
    forall i, j :: 0 <= i < j < |keys| ==> Less(keys[i], keys[j])
  }

  function Insert(k: string, keys: seq<string>): seq<string> {
    if keys == [] || Less(k, keys[0]) then [k] + keys else [keys[0]] + Insert(k, keys[1..])
  }

  lemma {:induction false} InsertSorted(k: string, keys: seq<string>)
    requires Ascending(keys) && k !in keys
    ensures Ascending(Insert(k, keys))
    ensures forall x :: x in Insert(k, keys) <==> x == k || x in keys
  {
    if keys != [] {
      if Less(k, keys[0]) {
        forall j | 0 <= j < |keys|
          ensures Less(k, keys[j])
        {
          if j > 0 { LessTransitive(k, keys[0], keys[j]); }
        }
      } else {
        InsertSorted(k, keys[1..]);
        LessTotal(k, keys[0]);
        var rest := Insert(k, keys[1..]);
        forall j | 0 <= j < |rest|
          ensures Less(keys[0], rest[j])
        {
          assert rest[j] in rest;
        }
        assert keys == [keys[0]] + keys[1..];
      }
    }
  }

  // ---- The backend ----

  /** The objects and the operations on them. A reliable store carries out every operation; any other
      may fail at any of them, and a failed write may still have taken effect. */
  class Store {
    const reliable: bool
    var objects: Objects

    constructor (objects: Objects, reliable: bool)
      ensures this.objects == objects && this.reliable == reliable
    {
      this.objects, this.reliable := objects, reliable;
    }

    /** Whether a fault strikes now. */
    method Fault() returns (b: bool)
      ensures reliable ==> !b
    {
      var struck: bool := *;
      b := struck && !reliable;
    }

    /** Stores an object. */
    method Put(key: string, obj: Object) returns (ok: bool)
      modifies this
      ensures objects == old(objects) || objects == old(objects)[key := obj]
      ensures ok ==> objects == old(objects)[key := obj]
      ensures reliable ==> ok
    {
      var lost := Fault();
      if lost {
        return false;
      }
      objects := objects[key := obj];
      var unreported := Fault();
      ok := !unreported;
    }

    /** Reads an object. A missing key fails. */
    method Get(key: string) returns (r: Option<Object>)
      ensures r.Some? ==> key in objects && r.value == objects[key]
      ensures reliable && key in objects ==> r.Some?
    {
      var fault := Fault();
      r := if key in objects && !fault then Some(objects[key]) else None;
    }

    /** The keys with a prefix, in byte order. */
    method List(prefix: string) returns (r: Option<seq<string>>)
      ensures r.Some? ==> Ascending(r.value) && forall k :: k in r.value <==> k in objects && HasPrefix(k, prefix)
      ensures reliable ==> r.Some?
    {
      var walk := objects.Keys;
      var keys: seq<string> := [];
      while walk != {}
        invariant walk <= objects.Keys
        invariant Ascending(keys)
        invariant forall k :: k in keys <==> k in objects && k !in walk && HasPrefix(k, prefix)
        decreases walk
      {
        var k :| k in walk;
        walk := walk - {k};
        if HasPrefix(k, prefix) {
          InsertSorted(k, keys);
          keys := Insert(k, keys);
        }
      }
      var fault := Fault();
      r := if fault then None else Some(keys);
    }

    /** Removes a key; removing a missing key succeeds. */
    method Delete(key: string) returns (ok: bool)
      modifies this
      ensures objects == old(objects) || objects == old(objects) - {key}
      ensures ok ==> objects == old(objects) - {key}
      ensures reliable ==> ok
    {
      var lost := Fault();
      if lost {
        return false;
      }
      objects := objects - {key};
      var unreported := Fault();
      ok := !unreported;
    }

    /** The size of an object, or 0 when it cannot be told. */
    method Stat(key: string) returns (size: nat)
      ensures size == 0 || (key in objects && size == SizeAt(objects, key))
      ensures reliable && key in objects ==> size == SizeAt(objects, key)
      ensures key in objects && objects[key].Blob? && (reliable || size != 0) ==> size == |objects[key].bytes|
    {
      var fault := Fault();
      size := if key in objects && !fault then SizeAt(objects, key) else 0;
    }
  }

  function SizeAt(objects: Objects, key: string): nat
    requires key in objects
  {
    |RawBytes(objects[key])|
  }
}
