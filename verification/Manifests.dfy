/** The metadata record of a backup and the store keys derived from its id. */
module Manifests {
  import opened Strings
  import opened Timestamp
  import opened Wrappers

  datatype Verification = Verification(
    verified: bool,
    verifiedAt: Option<Instant>,
    checksumOk: bool,
    listable: bool,
    restored: bool,
    tableCount: int,
    error: string)

  const UNVERIFIED := Verification(false, None, false, false, false, 0, "")

  datatype Manifest = Manifest(
    id: string,
    createdAt: Instant,
    artifactKey: string,
    plaintextSize: nat,
    encryptedSize: nat,
    plaintextSha256: string,
    verification: Verification)
  {
    predicate Verified() {
      verification.verified
    }
  }

  const MANIFEST_DIR := "manifests/"
  const MANIFEST_EXT := ".manifest.json"
  const ARTIFACT_DIR := "artifacts/"
  const ARTIFACT_EXT := ".dump.enc"

  function ManifestKey(id: string): string {
    MANIFEST_DIR + id + MANIFEST_EXT
  }

  function ArtifactKey(id: string): string {
    ARTIFACT_DIR + id + ARTIFACT_EXT
  }

  /** What the sweep takes for the id of a manifest key or an artifact key. */
  function IdInManifestKey(key: string): string {
    TrimSuffix(TrimPrefix(key, MANIFEST_DIR), MANIFEST_EXT)
  }

  function IdInArtifactKey(key: string): string {
    TrimSuffix(TrimPrefix(key, ARTIFACT_DIR), ARTIFACT_EXT)
  }

  lemma KeysCarryIds(id: string)
    ensures IdInManifestKey(ManifestKey(id)) == id && HasPrefix(ManifestKey(id), MANIFEST_DIR)
    ensures IdInArtifactKey(ArtifactKey(id)) == id && HasPrefix(ArtifactKey(id), ARTIFACT_DIR)
    ensures !HasPrefix(ManifestKey(id), ARTIFACT_DIR) && !HasPrefix(ArtifactKey(id), MANIFEST_DIR)
  {
    TrimEnclosed(MANIFEST_DIR, id, MANIFEST_EXT);
    TrimEnclosed(ARTIFACT_DIR, id, ARTIFACT_EXT);
    assert ManifestKey(id)[0] == 'm' && ArtifactKey(id)[0] == 'a';
    assert MANIFEST_DIR[0] == 'm' && ARTIFACT_DIR[0] == 'a';
  }

  /** The layout of the keys. */
  lemma KeyLayout(id: string)
    ensures var k := ManifestKey(id);
            |k| == 24 + |id| && k[..10] == "manifests/" && k[10..10 + |id|] == id && k[10 + |id|..] == ".manifest.json"
    ensures var k := ArtifactKey(id);
            |k| == 19 + |id| && k[..10] == "artifacts/" && k[10..10 + |id|] == id && k[10 + |id|..] == ".dump.enc"
  {
  }

  /** Distinct ids have distinct keys, and no key is both a manifest's and an artifact's. */
  lemma KeysDistinct(a: string, b: string)
    ensures ManifestKey(a) == ManifestKey(b) <==> a == b
    ensures ArtifactKey(a) == ArtifactKey(b) <==> a == b
    ensures ManifestKey(a) != ArtifactKey(b)
  {
    KeysCarryIds(a);
    KeysCarryIds(b);
  }
}
