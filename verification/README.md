# Backwyn's backup store, verified

Backwyn takes encrypted PostgreSQL backups, proves each one by restoring it, and claims that what it
once proved survives its own retention, crashes and races. This project models the parts of Backwyn
that support the claim and proves it.

* **Time and names.** `Calendar`, `Timestamp`, `Labels` and `Manifests`: the Gregorian calendar and ISO
  weeks, the id of a backup (its UTC second), the labels retention compares, and the keys of the store;
  `KnownDates` gives their layouts for every date, and what they are on some days of the calendar.
* **Retention.** `RetentionSpec` says on sets, without an order of processing, what a policy keeps, and
  proves that discarding and adding commute. `Retention` is the greedy pass with its counters and
  labels; it is proved to compute that set.
* **The store.** `Storage` is the backend: a map from keys to objects whose operations are atomic and may
  fail, with or without effect. `Prune` deletes manifests before artifacts and sweeps orphans.
* **The artifact.** `Streams`, `Framing` and `Crypto`: readers that split their reads, the chunked format
  and the two streaming loops over an abstract AEAD (sections 7.1 and 7.2 of NIST SP 800-38D).
  `Artifact` compares the hash on the way out.
* **The cycle.** `TempFiles`, `Backup`, `Verify`, `Check` and `Runner`: the stages, what each may do to the store in
  any failure, and what a whole cycle and any run of cycles leaves behind.
* **The protocol.** `Protocol` puts a writer, pruners and sweepers next to each other, one store
  operation at a time. `ProtocolSafety` states the invariant, `ProtocolSteps` proves that every step
  keeps it, `ProtocolRuns` draws the conclusions for every run, `ProtocolLedger` proves that pruning under
  one policy loses nothing the policy keeps of all backups ever recorded, `ProtocolChecks` is about a
  check that runs beside the daemon, `ProtocolLinks` proves that whatever the methods of the other modules
  do to a store, the protocol's steps do (`ProtocolPaths` is about sequences of steps), `ProtocolTiming`
  shows that the assumption on time is needed, and `ProtocolGuards` which guards of a plan are needed.
* **The PostgreSQL tools.** `Pgtools`: the filter on restore lists, the restore that uses it, and SQL quoting.

A store may be declared reliable, and then none of its operations fails. The contracts say what holds
whatever fails, and beyond that what holds when nothing does.

Everything a program step reads from outside its own state is a parameter or arbitrary: the outcome of
each external command, nonces, read sizes, what the local disk allows, and which store operation fails.

## Where the documentation and the code differ

The model follows the code.

* `internal/verify/verify.go:42` says that a write error is a local issue and not a bad backup. The code
  spares the record only when the local file of the dump cannot be created, or cannot be closed when it is
  whole. A disk that runs full while the artifact is decrypted surfaces as a decryption failure, and a
  restore list that cannot be created, written or closed as a restore failure; then an intact backup is
  recorded as failed. `Verify.Run` states exactly when each happens, and `Verify.FullDiskDisproves` and
  `Verify.FullListDisproves` give such backups.
* `docs/operations.md:45-47` says that an alert of level warning tells of a newest backup that failed
  verification. A cycle whose verification fails returns before that branch. The coverage warning is sent
  exactly when the cycle succeeds while the newest stored backup claims a time after the clock and is not
  verified (`Runner.Cycle`; `Runner.CalmButDegraded` gives such a store), and a failed prune sends an alert
  of the same level.
* A sweep can take the artifact of a backup that is still being written, once that backup is older than
  the minimum age; `ProtocolTiming.LateSweepLoses` gives the run from an empty store, and the safety
  theorems on sweeping assume that backups end in time.

## Assumptions

* Two backups are at least a second apart. `Runner.Cycle` asks that neither key of the current second is
  taken, and the protocol's writer begins only in a later second than any before. Ids have a granularity
  of one second, and a second backup in the same second would overwrite the first.
* The protocol has one writer, which verifies only its own backup, as a cycle does. It starts from a store
  in which nothing is in progress, and only manifests lie under `manifests/`.
* Theorems that mention sweeps assume that a backup in flight is younger than the minimum age, counted
  from the second of its id (`ProtocolRuns.PromptIsYoung` says this for a duration). Without sweeping
  (`cfg.sweeping` false) nothing is assumed about time.
* `ProtocolLedger.NothingKeptIsLost` assumes that all pruners use one policy; the other theorems about the
  protocol allow a different policy for every plan.
* All actors of the protocol share one clock, and it never goes back (`Protocol.Enabled`, the case `Tick`).
* A source reader reports the end of its input or an error of its own, never the error that stands for an
  incomplete read, which `internal/crypto/crypto.go:67` takes for the end of the input.
* The hash is taken as injective where a result says so (`Suite.CollisionFree`), and opening undoes
  sealing (`Suite.Lawful`).

## Model

| member | source | states |
|---|---|---|
| ProtocolRuns.NewestProofSurvives | internal/retention/retention.go:122-124 | In every state of every interleaving of one backup-then-verify writer with any number of pruners and sweepers, each stopping or failing between any two store operations, the newest backup ever advertised as verified still has its manifest and a restorable artifact, which decrypts to the dump its hash was taken of |
| ProtocolRuns.CoverageNeverRegresses | docs/architecture.md:59-62 | Once a verified backup is advertised, every later state of the run holds a verified, restorable backup at least as new |
| ProtocolRuns.EveryStateSound | internal/retention/retention.go:173-184 | In every reachable state every manifest has its artifact, every record is settled and every verified backup can be restored: the order artifact, manifest when writing and manifest, artifact when deleting is enough |
| ProtocolRuns.ProvenIsHistory | internal/verify/verify.go:89-93 | What the protocol tracks as proven is exactly the set of backups that were advertised as verified in some state so far |
| ProtocolChecks.CoverageReadHolds | internal/check/check.go:38-60 | A check beside the daemon that finds coverage in what it has read, however stale, is right about the store of that moment |
| ProtocolChecks.ReadingMeetsProof | internal/artifact/artifact.go:105-124 | A reading of all manifests that gets through has met the newest proof of the moment of its listing |
| ProtocolLedger.NothingKeptIsLost | internal/runner/runner.go:118-142 | Online pruning equals offline pruning under every interleaving: with one policy for all pruners, in every state the policy keeps of the store exactly what it keeps of the latest records of all backups ever stored, and none of those is lost |
| ProtocolLedger.LedgerComplete | internal/artifact/artifact.go:127-133 | Every backup that was stored in some earlier state has its latest record among those |
| ProtocolLedger.DiscardedFromAll | internal/retention/retention.go:101-163 | What a plan discards of a stale snapshot, the policy discards of everything ever recorded |
| ProtocolLedger.StaleIsNewest | internal/artifact/artifact.go:105-124 | Only the newest backup of a snapshot can be stale, and it was read unverified |
| ProtocolRuns.SweptNeverNeeded | internal/retention/retention.go:194-231 | With every backup young when it ends, no sweep deletes an artifact that has a manifest or is given one in any later state |
| ProtocolRuns.DeadForever | internal/retention/retention.go:217-223 | An artifact key no backup has a claim to and whose id is old enough stays without claim in every later state |
| ProtocolRuns.PromptIsYoung | internal/retention/retention.go:221 | A backup that is through within the minimum age, less one second, of its creation is never old enough to be swept |
| ProtocolRuns.PromptIsTimely | internal/retention/retention.go:221 | The timing assumption holds in every state in which no backup is between its two writes, or the one that is began no longer ago than the minimum age, less one second |
| ProtocolTiming.LateSweepLoses | internal/retention/retention.go:194-231 | The timing assumption is needed: from an empty store, a backup with a whole sweep between its two writes runs through to a manifest without an artifact exactly when the backup is no longer young by then |
| ProtocolTiming.LateSweepEnabled | internal/retention/retention.go:194-231 | A sweep that lists while a backup is between its two writes can delete the artifact exactly when the backup is no longer young |
| ProtocolLinks.BackupIsSteps | internal/backup/backup.go:81-111 | From any store, every result of a backup, complete or stopped after any write, is what the writer's steps lead to: the same store, and the manifest at hand exactly on success |
| ProtocolLinks.VerifyIsSteps | internal/verify/verify.go:25-93 | Every record a verification saves is saved by the writer's steps, and noted as a proof exactly when it says verified; a verification that saves nothing leaves store and proofs alone |
| ProtocolLinks.DeletionIsSteps | internal/retention/retention.go:175-182 | Every outcome of deleting one backup is what the pruner's steps lead to, and they go on to the next backup |
| ProtocolLinks.DeletionsAreSteps | internal/retention/retention.go:175-182 | The same for a whole list of backups with one outcome each, until nothing is left to do |
| ProtocolLinks.PlanIsSteps | internal/retention/retention.go:173-191 | Once a pruner has read all its keys, every plan for what it has read, with every outcome of every deletion in order, is what its steps lead to: the store of before without the keys that applying the plan takes, and nothing left to do |
| ProtocolLinks.PruneIsSteps | internal/runner/runner.go:118-142 | A whole prune, from listing to the last deletion, is what the pruner's steps lead to |
| ProtocolLinks.LoadIsSteps | internal/artifact/artifact.go:105-124 | Whatever loading all manifests reads is read by the pruner's steps: one listing and one read for each key |
| ProtocolLinks.LiveIdsAreNoted | internal/retention/retention.go:195-203 | The live ids of a sweep are those the protocol's sweeper notes |
| ProtocolLinks.SweepIsStep | internal/retention/retention.go:212-231 | Every outcome for one key of a sweep is one step of the sweeper, which goes on to the next key |
| ProtocolLinks.SweepAllIsSteps | internal/retention/retention.go:194-238 | A whole sweep of a store at rest, whichever of the orphans it takes, is what the sweeper's steps lead to, until no key is left |
| ProtocolLinks.AnyoneMayStop | internal/runner/runner.go:36-82 | Every actor can stop in every state, and time can pass, without any other effect |
| ProtocolLinks.OthersNeverBlock | internal/retention/retention.go:173-231 | What the others do never takes away the next step of an actor, except that what it reads must be there |
| ProtocolRuns.PathIsRun | internal/runner/runner.go:36-82 | Every sequence of possible steps from a first state is a run as long as no backup in flight grows old, and without sweeping always |
| ProtocolSteps.StepKeepsInv | docs/architecture.md:42-62 | Every step of every actor keeps the invariant, and other actors see only growing time, ids and proofs |
| ProtocolSteps.DiscardedRemovable | internal/retention/retention.go:101-124 | Whatever a plan discards of a snapshot read while the store went on changing has been left by the writer and is not the newest proof |
| ProtocolSteps.TwoGuardsSuffice | internal/retention/retention.go:122-124 | For that it is enough to spare the newest and the newest verified backup of the snapshot, whatever else is removed |
| ProtocolSteps.SparedAbove | internal/retention/retention.go:122-124 | A backup that is neither has a newer backup in the same snapshot and, if it is verified, a newer verified one |
| ProtocolGuards.SecondGuardNeeded | internal/retention/retention.go:122-123 | Without the guard of the newest verified backup there is a run, from a store with one proven backup, that ends with the newest proof deleted, under any non-empty policy without slots |
| ProtocolGuards.ThirdGuardNeeded | internal/retention/retention.go:122-124 | Without the guard of the newest backup there is such a run under any policy: the backup is read unverified and verified before the plan is carried out |
| ProtocolSteps.GotFromStore | internal/artifact/artifact.go:105-124 | A manifest read between two steps of others is in the proofs exactly as it is in the store |
| ProtocolSteps.RemovableExpendable | internal/retention/retention.go:175-182 | Deleting the manifest of a removable backup, and then its artifact, takes nothing another actor relies on |
| ProtocolSteps.SweepableExpendable | internal/retention/retention.go:212-226 | An artifact on no list and old enough belongs to no advertised backup and to none in flight |
| ProtocolSteps.PutManifestKeeps | internal/backup/backup.go:87-111 | Writing the manifest last, failed or not, keeps the invariant |
| ProtocolSteps.SaveRecordKeeps | internal/verify/verify.go:33-38 | Saving a verification record, failed or not, keeps the invariant |
| ProtocolSteps.MakePlanKeeps | internal/runner/runner.go:118-133 | A plan made from a stale snapshot under any policy keeps the invariant |
| RetentionSpec.OnlineEqualsOffline | internal/runner/runner.go:65-70 | Over any sequence of rounds in which backups arrive and a complete or partial prune follows, the policy keeps of the store exactly what it keeps of every backup ever taken, and none of those is lost |
| RetentionSpec.DiscardedIrrelevant | internal/retention/retention.go:78-165 | With any of the discarded backups missing, exactly the same backups are kept; so a prune is idempotent and can be retried |
| RetentionSpec.KeptInherited | internal/retention/retention.go:78-165 | What is kept of a collection is kept of every part of it that contains it |
| RetentionSpec.PathIndependent | internal/retention/retention.go:78-165 | Pruning before or after more backups arrive keeps the same backups |
| RetentionSpec.NewestSurvive | internal/retention/retention.go:101-124 | The newest and the newest verified backup are always kept and remain what they are |
| RetentionSpec.NewestReplaced | internal/retention/retention.go:101-163 | What was discarded beside an unverified newest backup stays discarded whatever record that backup gets |
| RetentionSpec.PolicyMonotone | internal/retention/retention.go:20-30 | A policy that is larger in every field keeps at least as much, provided the smaller one is not empty |
| RetentionSpec.KeptBounded | internal/retention/retention.go:115-151 | A non-empty policy with something verified keeps at most its slots, counted without negative fields, and one more, or two when it has no slot |
| RetentionSpec.SlotTakersBounded | internal/retention/retention.go:131-151 | No family of slots keeps more backups than it has slots |
| RetentionSpec.TopSize | internal/retention/retention.go:131-151 | Exactly n of a set of periods have fewer than n later ones, or all when there are fewer |
| RetentionSpec.PeriodMonotone | internal/retention/retention.go:133-150 | Instants, days, weeks and months are intervals of time |
| RetentionSpec.RetainedPlainly | internal/retention/retention.go:115-151 | The kept set in plain numbers: the newest backup, the newest verified one, and for each field of the policy the newest verified backup of each of the last so many instants, 24-hour days, Monday weeks or calendar months that hold one |
| RetentionSpec.KeepsEverythingWhen | internal/retention/retention.go:95-113 | A policy whose four fields are zero keeps everything, and so does every policy while nothing is verified |
| Retention.Compute | internal/retention/retention.go:78-165 | The plan is a permutation of the input, newest first, keeping exactly the ids the guards or a slot keep, with the stated reasons and warnings; for distinct backups the kept and removed halves are those of the set specification |
| Retention.PassRefinesSpec | internal/retention/retention.go:115-163 | The greedy pass keeps a backup exactly when the declarative set does, whatever order the unstable sort gives equal times |
| Retention.PlanRefinesSpec | internal/retention/retention.go:47-66 | The two halves of a plan are the kept set and its complement |
| Retention.LastLabelDecides | internal/retention/retention.go:133-150 | Comparing a label with the label last seen tells whether its period was seen at all |
| Retention.SlotStep | internal/retention/retention.go:137-150 | One turn of the loop takes a slot exactly for a backup that opens a period while fewer than the limit were opened |
| Retention.FillSlots | internal/retention/retention.go:115-151 | The loop over counters and last labels notes for every position the reason of the first guard or family that applies |
| Retention.ReasonsExact | internal/retention/retention.go:115-151 | With distinct ids every kept backup carries its own first reason |
| Retention.SelectionPartitions | internal/retention/retention.go:47-66 | Kept and removed backups together are the decided ones, with multiplicity |
| Retention.Remove | internal/retention/retention.go:47-55 | The manifests decided against, in order |
| Retention.Kept | internal/retention/retention.go:58-66 | The manifests decided for, in order |
| Retention.PlanBytes | internal/retention/retention.go:69-75 | The encrypted sizes of the removed backups added up |
| Retention.SizeOfParts | internal/retention/retention.go:69-75 | The size of a list of backups is the sum over its parts, each backup counting its encrypted size |
| Retention.SortNewestFirst | internal/retention/retention.go:79-83 | A permutation of the input in descending time, in any order among equal times |
| Retention.FindVerified | internal/retention/retention.go:101-113 | The first verified backup of the sorted list, or none |
| Calendar.IsoWeekSound | internal/retention/retention.go:167-170 | Two days have the same ISO year and week exactly when they lie in the same Monday-to-Sunday week (clause 2.2.10 of ISO 8601:2004) |
| Calendar.WeekIndexMeaning | internal/retention/retention.go:167-170 | Two days lie in the same numbered week exactly when no Monday begins after the first and up to the second |
| Calendar.DateOfDay | internal/retention/retention.go:137 | Every day has a year, month and day of month, and they give the day back |
| Calendar.DayOfDate | internal/retention/retention.go:137 | Every date is the date of exactly the day it numbers |
| Calendar.MonthLengths | internal/retention/retention.go:137 | April, June, September and November have 30 days, February 28 or in a leap year 29, all the others 31 |
| Calendar.IsoWeekNumber | internal/retention/retention.go:167-170 | Week 1 of an ISO year is the week of 4 January, and the others are counted from there |
| Calendar.MillenniumDay | internal/retention/retention.go:167-170 | 1 January 2000 was day 730485 of the count and a Saturday |
| Calendar.DaysBeforeYearClosed | internal/retention/retention.go:137 | Adding up the lengths of the years agrees with counting leap years by the Gregorian rule |
| Calendar.MonthIndexMonotone | internal/retention/retention.go:147 | Months follow each other without a break in time |
| Labels.LabelFaithful | internal/retention/retention.go:137-147 | Two instants have the same day, week or month label exactly when they lie in the same period |
| Labels.LabelContiguous | internal/retention/retention.go:137-147 | Equal labels enclose only equal labels in time |
| KnownDates.LabelsOfDate | internal/retention/retention.go:137-170 | For every date and time the labels are that date, its month and its ISO week |
| KnownDates.IdOfDate | internal/backup/backup.go:49 | For every date and time the id is that date and time to the second in the layout of the code |
| KnownDates.MayDay | internal/backup/backup.go:49 | 2024-05-01T12:34:56Z, given in nanoseconds: its id and its three labels, character by character |
| KnownDates.IsoYearBeginsEarly | internal/retention/retention.go:167-170 | The Monday after Christmas 2024 lies in week 1 of 2025 |
| KnownDates.IsoYearEndsLate | internal/retention/retention.go:167-170 | The first Sunday of 2027 lies in week 53 of 2026 |
| Timestamp.SubMeaning | internal/check/check.go:56 | The difference of two times is exact whenever it fits 64 bits and otherwise the nearest duration, and comparing it with a limit is comparing the plain difference, but for the two extreme limits |
| Timestamp.ParseOfId | internal/backup/backup.go:49 | Parsing the id of an instant gives the instant truncated to its second |
| Timestamp.IdOfParse | internal/retention/retention.go:217-220 | Every text the parser accepts is the id of the second it is read as |
| Timestamp.IdInjective | internal/backup/backup.go:49 | Two backups share an id exactly when they were taken within one second |
| Timestamp.IdOrder | internal/storage/storage.go:93 | Byte order of ids is order of time, so a sorted listing is chronological |
| Manifests.KeysCarryIds | internal/retention/retention.go:199-212 | A manifest or artifact key gives back its id, and neither kind of key has the other's prefix |
| Manifests.KeyLayout | internal/manifest/manifest.go:43-45 | The text of both keys: the directory, the id and the extension |
| Manifests.KeysDistinct | internal/manifest/manifest.go:43-45 | Distinct ids have distinct keys, and no key is both a manifest's and an artifact's |
| Storage.Store.Put | internal/storage/storage.go:43-63 | Stores an object; a failed call may or may not have taken effect, and a reliable store never fails |
| Storage.Store.Get | internal/storage/storage.go:66-68 | Reads an object; a missing key fails, and nothing else does in a reliable store |
| Storage.Store.List | internal/storage/storage.go:71-95 | Exactly the keys with the prefix, in strictly ascending byte order |
| Storage.Store.Delete | internal/storage/storage.go:98-103 | Removes a key; a missing key is no error; a failed call may or may not have taken effect |
| Storage.Store.Stat | internal/storage/storage.go:106-112 | The number of bytes of an object; a missing key or a fault reads as 0 |
| Storage.CatalogDistinct | internal/backup/backup.go:49 | In a laid-out store no two backups share an id or a creation time |
| Storage.CatalogAfterRemoval | internal/storage/storage.go:98-103 | Removing keys takes from the catalog exactly the backups whose manifest keys go |
| Storage.CatalogAfterRecord | internal/artifact/artifact.go:127-133 | Saving a manifest replaces exactly the backup with its id |
| Storage.CatalogAfterArtifact | internal/backup/backup.go:83 | Storing an artifact leaves the catalog alone |
| Strings.LessMeaning | internal/storage/storage.go:93 | The order of the listing: a string comes first when it is a proper prefix or smaller at the first difference |
| Strings.TrimMeaning | internal/retention/retention.go:201 | Trimming takes off a prefix or suffix that is there, and nothing else |
| Strings.PrefixMeaning | internal/storage/storage.go:71-95 | Having a prefix or a suffix means being it with something after or before it |
| Prune.Apply | internal/retention/retention.go:173-191 | For any pattern of failing deletes, one possible outcome for each removed backup in the order of the plan: the keys gone are theirs, the failures are exactly those reported, in order, and the bytes freed are the sizes of the backups without failure |
| Prune.DeleteBackup | internal/retention/retention.go:175-183 | The artifact is touched only if the manifest was reported deleted; which failure is reported names the backup and says how far it came |
| Prune.OutcomesProgress | internal/retention/retention.go:173-191 | What such outcomes come to: no artifact goes before its manifest, each backup is cleared or failed, and without failure all are cleared |
| Prune.FailuresConcern | internal/retention/retention.go:176-181 | Every failure names a removed backup |
| Prune.PruneOutcome | internal/retention/retention.go:173-191 | Any part of a prune leaves a laid-out store with every manifest's artifact, between the kept backups and all; a prune without failure leaves exactly the kept ones and no artifact of the others |
| Prune.SweepOrphans | internal/retention/retention.go:194-238 | Only artifacts no manifest key claims and whose id is old enough go; removed and failed add up to their number; freed is at most their size; and when nothing fails all of them go and freed is exactly their size |
| Prune.DeleteOrphans | internal/retention/retention.go:210-232 | The loop over artifact keys accounts for exactly the unclaimed, datable, old ones |
| Prune.SweepKey | internal/retention/retention.go:212-231 | One key is passed over exactly when it is claimed, cannot be dated or is too young; otherwise it is deleted and its size told, or reported as failed |
| Prune.LiveIds | internal/retention/retention.go:199-203 | The ids carried by the listed manifest keys |
| Prune.SizeOfKeysParts | internal/retention/retention.go:225-231 | The size of listed orphans is the sum over the list, each counting the bytes under its key |
| Prune.SweepHarmless | internal/retention/retention.go:194-231 | A sweep of a store at rest changes neither the catalog nor any artifact a manifest names |
| Streams.ReadFull | internal/crypto/crypto.go:47 | Reads until the buffer is full or the source ends, however the reads are split, and tells a clean end from a cut one |
| Streams.CountingReader.Read | internal/backup/backup.go:138-142 | Passes a read through and adds its length |
| Streams.Drain | internal/backup/backup.go:81-83 | The bytes of the pipe up to its end, with their number in the counter |
| Framing.DecodeOfEncoding | internal/crypto/crypto.go:84-124 | Decoding undoes encoding, for every plaintext and nonce sequence, whatever bytes follow the terminator |
| Framing.EncodingLength | internal/backup/backup.go:102 | The stream of n bytes is 8 + n + 32 * ceil(n / 65536) bytes long |
| Framing.OneByteEncoding | internal/crypto/crypto.go:36-80 | The stream of one byte of plaintext, byte for byte: BWY1, 00 00 00 11, the nonce, the ciphertext, 00 00 00 00 |
| Framing.FrameShape | internal/crypto/crypto.go:54-57 | The length of every frame is nonzero and fits 32 bits, so the header truncates nothing and never reads as the terminator |
| Framing.CompleteMeaning | internal/crypto/crypto.go:84-124 | Decoding completes exactly on the magic, frames that all open, a zero length and anything behind it, whoever made the bytes, and yields exactly the plaintext of the frames |
| Framing.PieceDecodes | internal/crypto/crypto.go:98-121 | A frame that opens yields its plaintext and decoding goes on; one that does not open yields nothing and decoding is refused |
| Framing.FrameDecodes | internal/crypto/crypto.go:98-121 | A frame decodes to its chunk, and decoding goes on behind it |
| Framing.CutFrameDecodes | internal/crypto/crypto.go:98-116 | A frame cut at any byte yields nothing and an error |
| Framing.TruncationDetected | internal/crypto/crypto.go:73-78 | Every strict prefix of a stream is refused; what was written by then is the plaintext up to a chunk boundary, and all of it when only the terminator is cut |
| Framing.DecodeStable | internal/crypto/crypto.go:103-106 | Bytes behind the terminator change nothing |
| Bytes.HeaderRoundTrip | internal/crypto/crypto.go:55-57 | The big-endian length header reads back as the length |
| Bytes.HeaderOfUint32 | internal/crypto/crypto.go:103 | Every four bytes are the header of the number they are read as |
| Bytes.HeaderOrder | internal/crypto/crypto.go:55-57 | The most significant byte comes first: headers compare byte by byte as the lengths do |
| Bytes.Utf8ReadBack | internal/pgtools/pgtools.go:216 | Decoding the bytes of a text gives back its code points |
| Crypto.Encrypt | internal/crypto/crypto.go:36-80 | Succeeds exactly when the key has 32 bytes, the source does not break, every nonce is delivered and the destination takes the whole encoding; success writes exactly that, and every failure leaves a strict prefix of it |
| Crypto.EncryptChunk | internal/crypto/crypto.go:46-72 | One turn of the loop writes the next chunk as one frame |
| Crypto.WriteFrame | internal/crypto/crypto.go:54-65 | Length, nonce and ciphertext, or a strict prefix of them |
| Crypto.Decrypt | internal/crypto/crypto.go:84-124 | Succeeds exactly when the bytes decode completely and the destination takes them; what reaches the destination is always what the decoder yields |
| Crypto.ReadHead | internal/crypto/crypto.go:97-116 | Reads one frame head, or says where the stream was cut |
| Crypto.RoundTrip | internal/crypto/crypto.go:36-124 | Decrypting what was encrypted gives back the source, however readers split their reads, and the size in between is the formula |
| Artifact.Loss | internal/artifact/artifact.go:51-68 | What is lost of a stored backup, and at which stage: fetch exactly without an artifact, checksum exactly when a complete plaintext that fits has another hash, nothing exactly when the plaintext fits and has the recorded hash, and otherwise decrypt |
| Artifact.Materialize | internal/artifact/artifact.go:51-68 | With a reliable store the stage reported is exactly where the artifact is lost; a fault can only turn it into fetch or decrypt; success means the stored bytes decode to a plaintext with the recorded hash and the destination received exactly it |
| Artifact.MaterializeTemp | internal/artifact/artifact.go:71-92 | A file is left behind exactly on success and holds the plaintext; a file that cannot be created reports a write failure, one that cannot be closed reports it when nothing else is wrong, and otherwise the stage is that of the artifact |
| Artifact.MaterializedExactly | internal/artifact/artifact.go:63-67 | Whatever lies under the artifact key: if it materializes, it is the dump the manifest was written for |
| Artifact.UnalteredMaterializes | internal/artifact/artifact.go:51-68 | An unaltered artifact materializes to exactly the dump |
| Artifact.TruncatedNeverMaterializes | internal/artifact/artifact.go:51-68 | A truncated artifact never materializes |
| Artifact.Load | internal/artifact/artifact.go:95-102 | The manifest stored under the id, or a failure |
| Artifact.Save | internal/artifact/artifact.go:127-133 | Stores the manifest under its own key |
| Artifact.LoadAll | internal/artifact/artifact.go:105-124 | All manifests in key order or nothing; of a laid-out store exactly its catalog in order of creation; a reliable store with only manifests there never fails |
| Artifact.ListedCatalog | internal/artifact/artifact.go:105-124 | In a laid-out store listing and reading gives the catalog, distinct and chronological |
| Verify.Run | internal/verify/verify.go:17-95 | At most one manifest is saved, and it is the loaded one with a record that says exactly how far the proof came and why it stopped. Without a record under the key nothing is recorded and the manifest counts as not loaded, in a reliable store exactly then. In a reliable store whatever is lost of a recorded backup is recorded as the error of its stage, fetch, decrypt or checksum, and only a local file that cannot be created, or cannot be closed when nothing is lost, spares the record. For an intact backup: a file of the dump that cannot be created, or cannot be closed when whole, is exactly what spares the record; commands that all oblige disprove it exactly when the dump does not fit on the disk or the file of the restore list cannot be created, does not fit beside the dump or cannot be closed. Temporary files are gone |
| Verify.FullDiskDisproves | internal/verify/verify.go:40-47 | An unaltered backup on a disk smaller than its dump: intact, and recorded as failing to decrypt |
| Verify.FullListDisproves | internal/pgtools/pgtools.go:205-226 | An unaltered backup, obliging commands and a disk with room for the dump and none for the restore list: intact, and recorded as failing to restore |
| Verify.Prove | internal/verify/verify.go:49-94 | List, restore, count and query set exactly the flags of the steps that succeeded, the error names the first that failed, the writing of the restore list told apart from the commands, and the record is verified exactly when none did |
| Verify.Fail | internal/verify/verify.go:33-38 | A failure is recorded with its reason; failing to store it is ignored |
| Verify.SettledMeaning | internal/manifest/manifest.go:32-40 | A verified record claims checksum, listing and restore and no error; a restored one listing and checksum |
| Backup.Run | internal/backup/backup.go:28-116 | The store is that of before, or has the artifact, or the artifact and the manifest; a write happened only for a covered source and describes its dump; when nothing fails the backup succeeds |
| Backup.EncryptedCopy | internal/backup/backup.go:71-83 | The store receives the encoding of the dump, and the count is its length |
| Backup.StepsKeepLayout | internal/backup/backup.go:87-111 | Every prefix of the writes leaves each manifest with its artifact |
| Backup.BackupMaterializes | internal/backup/backup.go:81-103 | The recorded hash and sizes are those of the dump and of the framing |
| Check.Run | internal/check/check.go:38-84 | The report answers for the manifests in the store, and a readable store always gives one |
| Check.Evaluate | internal/check/check.go:44-83 | Newest, newest verified, age, health, reasons and warnings as functions of the set of backups |
| Check.NewestDecides | internal/check/check.go:54-60 | Coverage holds exactly when the newest verified backup is young enough |
| Check.PruneInvisible | internal/check/check.go:38-84 | Every report on a store answers for it after any part of a prune |
| Check.ReportUnique | internal/check/check.go:38-84 | The backups determine the report |
| Check.FreshProofIsHealthy | internal/check/check.go:53-82 | A proven backup of this instant means healthy without reasons or warnings, when none is from the future |
| Runner.Cycle | internal/runner/runner.go:36-82 | A cycle that fails deletes and changes nothing that was there, and the catalog gains just what arrived; past the first half, the backup of this cycle has arrived and is verified; success leaves coverage within the maximum age after pruning, and what is recorded for /healthz answers for that store; failing the check means that it could not read the store, and with a nonnegative maximum age coverage is not what fails; success carries a warning exactly when the newest stored backup is from the future and unverified; at most one backup arrives, of this instant and this dump, and only discarded ones go; each alert has its cause, and without a failed deletion, which is what the alert of the prune reports, the backups left are all of them or exactly those kept; a cycle in which nothing fails succeeds and leaves exactly what the policy keeps of the old backups and the new one |
| Runner.CalmButDegraded | internal/runner/runner.go:72-78 | At a store with one unverified backup dated after now, a cycle in which nothing fails succeeds with a warning |
| Runner.CheckAndPrune | internal/runner/runner.go:41-81 | The check runs whatever became of the backup; pruning only when everything went well |
| Runner.Conclude | internal/runner/runner.go:56-81 | What follows a check that could read the store: an alarm, the error of the first half, or the prune |
| Runner.PruneAndWarn | internal/runner/runner.go:70-81 | The end of a successful cycle, with the warning decided by the report from before the prune |
| Runner.CheckAndRecord | internal/runner/runner.go:41-54 | A readable store is recorded for /healthz with the time of its newest proof |
| Runner.BackupAndVerify | internal/runner/runner.go:85-115 | At most one backup arrives, and it is verified whenever both stages succeed, which they do when nothing fails; alerts and tracker tell which stage failed and what the backup measured |
| Runner.VerifyFresh | internal/runner/runner.go:100-114 | Verifying the fresh backup changes nothing but its record, and succeeds when nothing fails |
| Runner.PruneStore | internal/runner/runner.go:118-142 | Whatever fails, the store stays sound and keeps everything the policy keeps; an alert is sent exactly when a deletion fails, and otherwise the store is pruned fully or not at all; an empty policy deletes nothing; when nothing fails exactly the kept backups are left and no artifact of the others |
| Runner.BackupSound | internal/backup/backup.go:87-111 | A backup stopped after any write keeps the store sound and the older backups as they are |
| Runner.VerifySound | internal/verify/verify.go:33-94 | Saving a truthful record keeps the store sound and replaces just that manifest |
| Runner.PruneSound | internal/retention/retention.go:173-191 | A prune keeps every verified backup that is left restorable |
| Runner.RunEqualsOffline | internal/runner/runner.go:65-70 | Over any run of cycles at distinct instants, whatever fails in them and however the clock is set, the policy keeps of the store what it keeps of the whole history, and nothing of that is lost |
| Runner.RunHistoryDistinct | internal/runner/runner.go:36-39 | All backups of a run are distinct in time, as long as no instant comes twice |
| Runner.FreshProof | internal/runner/runner.go:72-78 | After a proven backup the check is healthy, and it warns exactly when the newest stored backup is from the future and unverified |
| Runner.HealthSurvivesPrune | internal/runner/status.go:62-68 | What was recorded for /healthz before the prune answers for the store after it |
| Runner.Tracker.RecordCheck | internal/runner/status.go:62-92 | After a check /healthz answers with its result |
| Runner.Tracker.RecordBackup | internal/runner/status.go:35-46 | A backup result leaves /healthz alone |
| Runner.Tracker.RecordVerify | internal/runner/status.go:49-59 | A verification result leaves /healthz alone |
| Runner.Tracker.constructor | internal/runner/status.go:30-32 | Before the first check /healthz says it is starting |
| Pgtools.FilterSandboxTOC | internal/pgtools/pgtools.go:194-202 | Comments out exactly the list entries of the declared language; all other lines, their number and their order stay |
| Pgtools.SkipMeaning | internal/pgtools/pgtools.go:190 | Matching from left to right decides exactly the language of the expression |
| Pgtools.SandboxTOC | internal/pgtools/pgtools.go:205-226 | The list file holds exactly the filtered listing, or there is none and the reason names the step that failed |
| Pgtools.WriteNew | internal/pgtools/pgtools.go:210-219 | A new file holds the text exactly when it fits beside what is held |
| Pgtools.Restore | internal/pgtools/pgtools.go:164-186 | The archive is restored with the filtered listing as its list, the reason names the first step that failed, and the list file is gone |
| Pgtools.FilterIdempotent | internal/pgtools/pgtools.go:194-202 | Filtering twice is filtering once |
| Pgtools.FilterReversible | internal/pgtools/pgtools.go:194-202 | Taking the comments off again gives back the text exactly when it did not itself contain a commented entry of that kind |
| Pgtools.SplitOfJoin | internal/pgtools/pgtools.go:195-201 | Splitting undoes joining for lines without newlines |
| Pgtools.JoinOfSplit | internal/pgtools/pgtools.go:195-201 | Joining undoes splitting for every text |
| Pgtools.DoubledParts | internal/pgtools/pgtools.go:271-278 | Doubling goes character by character: the quote becomes two, any other character stays |
| Pgtools.QuoteReadBack | internal/pgtools/pgtools.go:271-278 | A scanner for doubled quotes reads a text as a string and a rest exactly when it is the quoted string followed by the rest |
| Pgtools.IdentReadBack | internal/pgtools/pgtools.go:142-150 | A quoted database name is read back as exactly that name |
| Pgtools.ListReadBack | internal/pgtools/pgtools.go:81-86 | The list of literals is read back as exactly the names |
| Pgtools.Scope | internal/pgtools/pgtools.go:79-86 | The schema condition is empty without schemas and is otherwise read back as the cleaned names |
| Pgtools.CleanIdents | internal/pgtools/pgtools.go:281-289 | The trimmed names that are not blank, in order |
| Pgtools.CleanedParts | internal/pgtools/pgtools.go:281-289 | Cleaning goes name by name: one of white space alone is dropped, any other is trimmed |
| Pgtools.TrimSpaceSplit | internal/pgtools/pgtools.go:284 | Trimming takes off only white space and leaves none at either end |

## Left out

- Storage.Store.Put: does not model the partly written temporary file of a local store, which a listing can see, nor the pipe a caller writes from.
- Storage.Store.Stat: does not give the size of an encoded manifest, because manifests are values here.
- Artifact.MaterializeTemp: does not model that removing the temporary file may itself fail.
- Check.Evaluate: does not state the text of reasons and warnings, nor the rounding of durations in it.
- Runner.Tracker.RecordBackup: does not model times and durations shown by the metrics endpoint.
- Timestamp.IdOfParse: does not cover a fraction of a second, which Go's parser accepts after the seconds of the layout.
- ProtocolRuns.NewestProofSurvives: does not cover a manual verification of an older backup, which can store a manifest again after it was pruned or demote a verified backup.
- Backup.Run: does not model the fields of a manifest that nothing decides on (schema version, source label, format, version of pg_dump).
- Retention.Compute: has no `now`, which the code takes and does not use.
- Prune.Apply: counts the bytes of a plan once per run; applying a plan again counts them again, because deleting a missing key succeeds.
- Sizes are unbounded naturals, where the code has 64-bit integers.
- Years outside 0000 to 9999 do not occur, because such a time cannot be written into a manifest.
- AES, GCM and SHA-256 themselves, the generation of nonces and the encoding of manifests as JSON: library code, taken as functions or values.
- The S3 backend, goroutines and locks, HTTP serving, metrics, logging and the delivery of alerts.
- pg_dump, pg_restore and psql: each succeeds or fails arbitrarily; the query for row security policies is represented by its answer.
- The command line, configuration, the restore command and comparing connection strings: single decisions that would add only easy members.
