/** Proving a stored backup: materialize it, list it, restore it into a scratch database, and record
    the result on its manifest. */
module Verify {
  import opened Artifact
  import opened Bytes
  import opened Framing
  import opened Manifests
  import opened Pgtools
  import opened Storage
  import opened TempFiles
  import opened Timestamp
  import opened Wrappers

  /** The verification sandbox: configuration, and how each external command turns out. */
  datatype Sandbox = Sandbox(
    installed: bool,
    adminDsn: string,
    listable: bool,
    created: bool,
    dsnDerived: bool,
    pgRestore: PgRestore,
    tableCount: Option<int>,
    query: string,
    queryOk: bool)
  {
    /** Whether every external command after the checksum succeeds, given the right list file. */
    ghost predicate Obliges() {
      listable && created && dsnDerived && Willing(pgRestore) && tableCount.Some? && (query != "" ==> queryOk)
    }

    /** Whether everything after the checksum succeeds, with held bytes of dump on the disk. */
    ghost predicate AcceptsAll(disk: Disk, held: nat) {
      Obliges() && !ListFails(pgRestore, disk, held)
    }

    /** What a record says about the first step that fails. */
    ghost function FirstFailure(disk: Disk, held: nat): (reason: string)
      ensures reason == "" <==> AcceptsAll(disk, held)
    {
      var restore := RestoreFailure(pgRestore, disk, held);
      if !listable then "pg_restore --list: "
      else if !created then "create scratch db: "
      else if !dsnDerived then "derive target dsn: "
      else if restore != "" then "restore into scratch db: " + restore
      else if tableCount.None? then "count tables: "
      else if query != "" && !queryOk then "verify query: "
      else ""
    }
  }

  datatype Abort = ToolsMissing | NoAdminDsn | NotLoaded | LocalWrite | NotSaved

  /** Verified, found wanting with a recorded reason, or given up without a verdict. */
  datatype VerifyResult = Proven(m: Manifest) | Disproven(m: Manifest) | Aborted(why: Abort)

  function StageText(s: Stage): (t: string)
    ensures t != ""
  {
    match s
    case StageFetch => "fetch: "
    case StageDecrypt => "decrypt: "
    case StageChecksum => "checksum: "
    case StageWrite => "write: "
  }

  /** The verification record as a proof: each flag presupposes the one before, and a record is
      verified exactly when it carries no error. */
  predicate Coherent(v: Verification) {
    && (v.listable ==> v.checksumOk)
    && (v.restored ==> v.listable)
    && (v.verified ==> v.restored && v.verifiedAt.Some?)
    && (v.verified <==> v.error == "")
  }

  /** Every record in a store: fresh from the backup, or written by a verification. */
  predicate Settled(v: Verification) {
    v == UNVERIFIED || Coherent(v)
  }

  /** A verified record claims every step and no error. */
  lemma SettledMeaning(v: Verification)
    requires Settled(v)
    ensures v.verified ==> v.checksumOk && v.listable && v.restored && v.error == ""
    ensures v.restored ==> v.listable && v.checksumOk
  {
  }

  /** A record made after the checksum, with held bytes of dump on the disk: how far the sandbox came, and
      no further. */
  ghost predicate Records(v: Verification, sb: Sandbox, disk: Disk, held: nat, now: Instant) {
    && v.checksumOk
    && (v.listable <==> sb.listable)
    && (v.restored <==> sb.listable && sb.created && sb.dsnDerived && RestoreFailure(sb.pgRestore, disk, held) == "")
    && v.tableCount == (if v.restored && sb.tableCount.Some? then sb.tableCount.value else 0)
    && (v.verified <==> sb.AcceptsAll(disk, held))
    && v.verifiedAt == (if v.verified then Some(now) else None)
    && v.error == sb.FirstFailure(disk, held)
  }

  /** A record of an artifact that did not materialize. */
  predicate RecordsLoss(v: Verification) {
    v == UNVERIFIED.(error := v.error) && v.error in {StageText(StageFetch), StageText(StageDecrypt), StageText(StageChecksum)}
  }

  /** m is m0 with a new record that tells the truth about the store and the sandbox. */
  ghost predicate Reproved(suite: Suite, key: Key, objects: Objects, sb: Sandbox, disk: Disk, now: Instant, m0: Manifest, m: Manifest) {
    var v := m.verification;
    && m == m0.(verification := v)
    && Coherent(v)
    && if v.checksumOk then
         && Restorable(suite, key, m0, objects)
         && Records(v, sb, disk, |PlaintextOf(suite, key, m0, objects)|, now)
       else RecordsLoss(v)
  }

  /** The store after at most one manifest was saved. */
  function AfterSave(objects: Objects, saved: Option<Manifest>): Objects {
    if saved.Some? then objects[ManifestKey(saved.value.id) := Record(saved.value)] else objects
  }

  /** The store advertises the backup, and its artifact is intact. */
  ghost predicate Intact(suite: Suite, key: Key, id: string, objects: Objects) {
    && ManifestKey(id) in objects && objects[ManifestKey(id)].Record?
    && Restorable(suite, key, objects[ManifestKey(id)].m, objects)
  }

  /** The bytes the dump of a stored backup takes. */
  ghost function DumpSize(suite: Suite, key: Key, id: string, objects: Objects): nat
    requires Intact(suite, key, id, objects)
  {
    |PlaintextOf(suite, key, objects[ManifestKey(id)].m, objects)|
  }

  /** How the verification of an intact backup with a dump of the given size ends when the store is reliable
      and the tools are there. Of everything that can go wrong with local files, only failing to create the
      file of the dump, or to close it when it is whole, spares the record. */
  ghost predicate IntactVerdict(r: VerifyResult, saved: Option<Manifest>, disk: Disk, size: nat, sb: Sandbox) {
    var whole := disk.canCreate && disk.Room(size) && disk.canClose;
    && (r == Aborted(LocalWrite) <==> !disk.canCreate || (disk.Room(size) && !disk.canClose))
    && (r == Aborted(LocalWrite) ==> saved.None?)
    && (disk.canCreate && !disk.Room(size) ==>
          r.Disproven? && saved == Some(r.m) && r.m.verification == UNVERIFIED.(error := StageText(StageDecrypt)))
    && (whole && !sb.AcceptsAll(disk, size) ==>
          r.Disproven? && saved == Some(r.m) && r.m.verification.error == sb.FirstFailure(disk, size))
    && (sb.Obliges() ==>
          (r.Disproven? <==> disk.canCreate && (!disk.Room(size) || (disk.canClose && ListFails(sb.pgRestore, disk, size)))))
    && (r.Proven? <==> whole && sb.Obliges() && !ListFails(sb.pgRestore, disk, size))
  }

  /** A record lies under the backup's key. */
  predicate HasRecord(id: string, objects: Objects) {
    ManifestKey(id) in objects && objects[ManifestKey(id)].Record?
  }

  /** How the verification of a recorded backup ends when the store is reliable and the tools are there, as far
      as its artifact decides: what is lost is recorded, with the stage at which it is lost. */
  ghost predicate LossVerdict(r: VerifyResult, saved: Option<Manifest>, disk: Disk, m0: Manifest, loss: Option<Stage>) {
    && r != Aborted(NotLoaded)
    && (r == Aborted(LocalWrite) <==> !disk.canCreate || (loss.None? && !disk.canClose))
    && (disk.canCreate && loss.Some? ==>
          && r == Disproven(m0.(verification := UNVERIFIED.(error := StageText(loss.value))))
          && saved == Some(r.m))
  }

  /** The backup's plaintext does not fit on the local disk. */
  ghost predicate FillsDisk(suite: Suite, key: Key, id: string, objects: Objects, disk: Disk) {
    && ManifestKey(id) in objects && objects[ManifestKey(id)].Record?
    && var m := objects[ManifestKey(id)].m;
       m.artifactKey in objects && !disk.Room(|PlaintextOf(suite, key, m, objects)|)
  }

  /** A store that holds one backup and its artifact. */
  function Holding(m: Manifest, artifact: seq<byte>): Objects {
    map[ManifestKey(m.id) := Record(m), m.artifactKey := Blob(artifact)]
  }

  /** A backup whose artifact is the unaltered encoding of its dump is intact, verified before or not. */
  lemma HoldingIntact(suite: Suite, key: Key, nonces: nat -> Nonce, m: Manifest, dump: seq<byte>)
    requires suite.Lawful() && |key| == KEY_SIZE
    requires m.plaintextSha256 == suite.sha256(dump) && m.artifactKey == ArtifactKey(m.id)
    ensures var objects := Holding(m, Encoding(suite, key, nonces, dump));
            Intact(suite, key, m.id, objects) && DumpSize(suite, key, m.id, objects) == |dump|
  {
    hide Encoding, Decode, Suite.Lawful, ManifestKey, ArtifactKey;
    UnalteredMaterializes(suite, key, nonces, m, dump);
    KeysDistinct(m.id, m.id);
  }

  /** An intact backup that a full disk disproves: any backup, on a disk that is smaller than its dump. */
  lemma FullDiskDisproves(suite: Suite, key: Key, nonces: nat -> Nonce, m: Manifest, dump: seq<byte>, capacity: nat,
                          canClose: bool, sb: Sandbox, r: VerifyResult, saved: Option<Manifest>)
    requires suite.Lawful() && |key| == KEY_SIZE && capacity < |dump|
    requires m.plaintextSha256 == suite.sha256(dump) && m.artifactKey == ArtifactKey(m.id)
    ensures var (objects, disk) := (Holding(m, Encoding(suite, key, nonces, dump)), Disk(true, canClose, true, true, Some(capacity)));
            && Intact(suite, key, m.id, objects) && FillsDisk(suite, key, m.id, objects, disk)
            && (IntactVerdict(r, saved, disk, DumpSize(suite, key, m.id, objects), sb) ==>
                  r.Disproven? && saved == Some(r.m) && r.m.verification == UNVERIFIED.(error := "decrypt: "))
  {
    hide Encoding, Decode, Suite.Lawful, ManifestKey, Restorable;
    HoldingIntact(suite, key, nonces, m, dump);
  }

  /** An intact backup that willing commands disprove although its dump fits: the disk has room for the dump
      but not for the restore list beside it. */
  lemma FullListDisproves(suite: Suite, key: Key, nonces: nat -> Nonce, m: Manifest, dump: seq<byte>,
                          sb: Sandbox, r: VerifyResult, saved: Option<Manifest>)
    requires suite.Lawful() && |key| == KEY_SIZE
    requires m.plaintextSha256 == suite.sha256(dump) && m.artifactKey == ArtifactKey(m.id)
    requires sb.Obliges() && ListFile(sb.pgRestore) != []
    ensures var (objects, disk) := (Holding(m, Encoding(suite, key, nonces, dump)), Disk(true, true, true, true, Some(|dump|)));
            && Intact(suite, key, m.id, objects) && !FillsDisk(suite, key, m.id, objects, disk)
            && (IntactVerdict(r, saved, disk, DumpSize(suite, key, m.id, objects), sb) ==>
                  && r.Disproven? && saved == Some(r.m)
                  && r.m.verification.error == "restore into scratch db: " + "write toc list file: ")
  {
    hide Encoding, Decode, Suite.Lawful, ManifestKey, Restorable, ListFile;
    HoldingIntact(suite, key, nonces, m, dump);
  }

  /** Everything a verification needs before it comes to the sandbox. */
  ghost predicate Testable(suite: Suite, key: Key, id: string, objects: Objects, disk: Disk, sb: Sandbox) {
    && sb.installed && sb.adminDsn != "" && disk.canCreate && disk.canClose
    && Intact(suite, key, id, objects) && disk.Room(DumpSize(suite, key, id, objects))
  }

  /** Runs the verification of one backup. saved is the manifest that reached the store, if any.
      A local disk that runs full while the artifact is decrypted counts against the backup, however
      intact it is, and so does every failure of the restore list's own file; only failing to create the
      file of the dump, or to close it, spares the record. */
  method Run(store: Store, suite: Suite, key: Key, id: string, now: Instant, dir: TempDir, sb: Sandbox)
    returns (r: VerifyResult, ghost saved: Option<Manifest>)
    requires dir.Valid()
    modifies store, dir`files, dir`next
    ensures dir.Valid() && dir.files == old(dir.files)
    ensures store.objects == AfterSave(old(store.objects), saved)
    ensures saved.Some? ==>
              exists m0 :: ManifestKey(id) in old(store.objects) && old(store.objects)[ManifestKey(id)] == Record(m0) &&
                           Reproved(suite, key, old(store.objects), sb, dir.disk, now, m0, saved.value)
    ensures r.Proven? ==> saved == Some(r.m) && r.m.verification.verified
    ensures r.Disproven? ==> !r.m.verification.verified && saved in {None, Some(r.m)}
    ensures r.Aborted? ==> saved.None? || (r.why == NotSaved && saved.value.verification.verified)
    ensures r == Aborted(LocalWrite) ==> !dir.disk.canCreate || !dir.disk.canClose
    ensures dir.disk.canCreate && FillsDisk(suite, key, id, old(store.objects), dir.disk) ==>
              r.Disproven? || (r.Aborted? && r.why in {ToolsMissing, NoAdminDsn, NotLoaded})
    ensures r == Aborted(ToolsMissing) <==> !sb.installed
    ensures r == Aborted(NoAdminDsn) <==> sb.installed && sb.adminDsn == ""
    ensures store.reliable ==> !(r.Disproven? && saved.None?) && r != Aborted(NotSaved)
    ensures sb.installed && sb.adminDsn != "" && !HasRecord(id, old(store.objects)) ==> r == Aborted(NotLoaded)
    ensures saved.Some? && saved.value.verification.error == StageText(StageChecksum) && !saved.value.verification.checksumOk ==>
              && HasRecord(id, old(store.objects))
              && Loss(suite, key, old(store.objects)[ManifestKey(id)].m, old(store.objects), dir.disk.capacity) == Some(StageChecksum)
    ensures store.reliable && sb.installed && sb.adminDsn != "" && HasRecord(id, old(store.objects)) ==>
              var m0 := old(store.objects)[ManifestKey(id)].m;
              LossVerdict(r, saved, dir.disk, m0, Loss(suite, key, m0, old(store.objects), dir.disk.capacity))
    ensures store.reliable && sb.installed && sb.adminDsn != "" && Intact(suite, key, id, old(store.objects)) ==>
              IntactVerdict(r, saved, dir.disk, DumpSize(suite, key, id, old(store.objects)), sb)
    ensures store.reliable && Testable(suite, key, id, old(store.objects), dir.disk, sb) ==>
              (r.Proven? <==> sb.AcceptsAll(dir.disk, DumpSize(suite, key, id, old(store.objects))))
  {
    hide Decode, RawBytes, ManifestKey, Records, Sandbox.FirstFailure, Willing, ListFails;
    saved := None;
    if !sb.installed {
      return Aborted(ToolsMissing), None;
    }
    if sb.adminDsn == "" {
      return Aborted(NoAdminDsn), None;
    }
    var loaded := Load(store, id);
    if loaded.None? {
      return Aborted(NotLoaded), None;
    }
    ghost var m0 := loaded.value;
    var m := loaded.value;
    m := m.(verification := UNVERIFIED);
    var path, failure := MaterializeTemp(store, suite, m, key, dir);
    assert m0.artifactKey == m.artifactKey && m0.plaintextSha256 == m.plaintextSha256;
    if failure.Some? {
      if failure.value == StageWrite {
        return Aborted(LocalWrite), None;
      }
      r, saved := Fail(store, m, StageText(failure.value));
      return;
    }
    m := m.(verification := m.verification.(checksumOk := true));
    var held := |dir.files[path]|;
    assert held == |PlaintextOf(suite, key, m0, old(store.objects))|;
    r, m, saved := Prove(store, m, sb, dir, held, now);
    RecordsMeaning(saved, sb, dir.disk, held, now);
    assert saved.Some? ==> Reproved(suite, key, old(store.objects), sb, dir.disk, now, m0, saved.value);
    dir.files := dir.files - {path};
  }

  lemma RecordsMeaning(saved: Option<Manifest>, sb: Sandbox, disk: Disk, held: nat, now: Instant)
    ensures saved.Some? && Records(saved.value.verification, sb, disk, held, now) ==> saved.value.verification.checksumOk
  {
  }

  /** Records a failure; a failure to store the record is ignored. */
  method Fail(store: Store, m: Manifest, reason: string) returns (r: VerifyResult, ghost saved: Option<Manifest>)
    requires reason != ""
    modifies store
    ensures r == Disproven(m.(verification := m.verification.(error := reason, verified := false)))
    ensures saved in {None, Some(r.m)} && store.objects == AfterSave(old(store.objects), saved)
    ensures store.reliable ==> saved.Some?
  {
    var failed := m.(verification := m.verification.(error := reason, verified := false));
    ghost var before := store.objects;
    var ignored := Save(store, failed);
    saved := if store.objects == before[ManifestKey(failed.id) := Record(failed)] then Some(failed) else None;
    r := Disproven(failed);
  }

  /** The steps after the checksum: list, restore, count, query, and the verdict. */
  method Prove(store: Store, materialized: Manifest, sb: Sandbox, dir: TempDir, held: nat, now: Instant)
    returns (r: VerifyResult, m: Manifest, ghost saved: Option<Manifest>)
    requires materialized.verification == UNVERIFIED.(checksumOk := true)
    requires dir.Valid() && dir.disk.Room(held)
    modifies store, dir`files, dir`next
    ensures dir.Valid() && dir.files == old(dir.files)
    ensures store.objects == AfterSave(old(store.objects), saved)
    ensures r.Proven? ==> saved == Some(r.m) && r.m.verification.verified
    ensures r.Disproven? ==> !r.m.verification.verified && saved in {None, Some(r.m)}
    ensures r.Aborted? ==> r.why == NotSaved && (saved.Some? ==> saved.value.verification.verified)
    ensures saved.Some? ==>
              var v := saved.value.verification;
              saved.value == materialized.(verification := v) && Coherent(v) && Records(v, sb, dir.disk, held, now)
    ensures r.Disproven? ==> r.m.verification.error == sb.FirstFailure(dir.disk, held)
    ensures store.reliable ==> saved.Some? && !r.Aborted? && (r.Proven? <==> sb.AcceptsAll(dir.disk, held))
  {
    hide Willing, ListFails;
    m, saved := materialized, None;
    if !sb.listable {
      r, saved := Fail(store, m, "pg_restore --list: ");
      return;
    }
    m := m.(verification := m.verification.(listable := true));
    if !sb.created {
      r, saved := Fail(store, m, "create scratch db: ");
      return;
    }
    if !sb.dsnDerived {
      r, saved := Fail(store, m, "derive target dsn: ");
      return;
    }
    var reason := Restore(dir, sb.pgRestore, held);
    if reason != "" {
      r, saved := Fail(store, m, "restore into scratch db: " + reason);
      return;
    }
    m := m.(verification := m.verification.(restored := true));
    if sb.tableCount.None? {
      r, saved := Fail(store, m, "count tables: ");
      return;
    }
    m := m.(verification := m.verification.(tableCount := sb.tableCount.value));
    if sb.query != "" && !sb.queryOk {
      r, saved := Fail(store, m, "verify query: ");
      return;
    }
    m := m.(verification := m.verification.(verified := true, verifiedAt := Some(now)));
    ghost var before := store.objects;
    var ok := Save(store, m);
    saved := if store.objects == before[ManifestKey(m.id) := Record(m)] then Some(m) else None;
    r := if ok then Proven(m) else Aborted(NotSaved);
  }
}
