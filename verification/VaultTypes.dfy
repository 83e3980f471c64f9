/** The vault's records, requests and limits, and the composite keys that name them. */
module VaultTypes {
  import opened Contracts
  import opened Decimal
  import opened Composite

  type uint32 = x: int | 0 <= x < 0x1_0000_0000
  type uint64 = x: int | 0 <= x <= MAX_UINT64

  const MAX_ARTIFACT_BYTES := 0x100_0000_0000
  const MAX_FRAME_BYTES := 16 * 1024 * 1024
  const MAX_FRAME_COUNT := 1_048_576
  const FRAME_HEADER_BYTES := 8 + 8 + 4 + 12 + 48 + 12
  const MAX_OBJECT_BYTES := MAX_FRAME_BYTES + FRAME_HEADER_BYTES + 16

  datatype VaultError =
    | Invalid | NotFound | Conflict | StaleGeneration | Incomplete
    | Corrupt | Quarantined | Tombstoned
    | Unavailable  // an I/O failure of the store, the metadata, the keys or the random source

  datatype Status = StatusStaged | StatusPublished | StatusTombstoned | StatusPurged | StatusQuarantined

  datatype Manifest = Manifest(
    artifact: Identifier, tenant: Identifier, digest: Digest,
    generation: uint64, keyEpoch: uint64, length: uint64, frameCount: uint32)

  datatype FrameRecord = FrameRecord(index: uint32, offset: uint64, length: uint32, objectDigest: Digest)

  datatype GenerationRecord = GenerationRecord(
    manifest: Manifest, locator: string, frames: seq<FrameRecord>, status: Status, fence: uint64)

  datatype StageRequest = StageRequest(manifest: Manifest, expectedGeneration: uint64)

  datatype PublishRequest = PublishRequest(manifest: Manifest, expectedGeneration: uint64)

  datatype TombstoneRequest = TombstoneRequest(
    artifact: Identifier, tenant: Identifier, expectedGeneration: uint64, reasonCode: string)

  datatype Receipt = Receipt(operationId: Identifier, status: string, reasonCode: string, watermark: uint64)

  datatype PurgeRequest = PurgeRequest(
    artifact: Identifier, tenant: Identifier, tombstoneReceipt: Receipt, keyEpoch: uint64)

  datatype ReadRequest = ReadRequest(
    artifact: Identifier, tenant: Identifier, generation: uint64, offset: uint64, length: uint64)

  /** What the composite keys stand for. Only the identifiers' values take part. */
  datatype ArtifactId = ArtifactId(tenant: string, artifact: string)

  datatype GenerationId = GenerationId(owner: ArtifactId, generation: uint64)

  function ArtifactOf(m: Manifest): ArtifactId {
    ArtifactId(m.tenant.value, m.artifact.value)
  }

  function GenerationOf(m: Manifest): GenerationId {
    GenerationId(ArtifactOf(m), m.generation)
  }

  function ArtifactKey(a: ArtifactId): string {
    Encode([a.tenant, a.artifact])
  }

  function GenerationKey(g: GenerationId): string {
    Encode([g.owner.tenant, g.owner.artifact, Format(g.generation)])
  }

  /** The string whose hash names the object of one frame. */
  function ObjectPreimage(g: GenerationId, locator: string, frame: uint32): string {
    Encode([g.owner.tenant, g.owner.artifact, Format(g.generation), locator, Format(frame)])
  }

  function FrameAad(g: GenerationId, locator: string, frame: uint32): string {
    Encode(["tenant", g.owner.tenant, "kind", "artifact-frame", "locator", locator,
            "artifact", g.owner.artifact, "generation", Format(g.generation), "frame", Format(frame)])
  }

  lemma ArtifactKeyInjective(a: ArtifactId, b: ArtifactId)
    requires ArtifactKey(a) == ArtifactKey(b)
    ensures a == b
  {
    var p, q := [a.tenant, a.artifact], [b.tenant, b.artifact];
    UniqueDecoding(p, q);
    assert p[0] == q[0] && p[1] == q[1];
  }

  lemma GenerationKeyInjective(a: GenerationId, b: GenerationId)
    requires GenerationKey(a) == GenerationKey(b)
    ensures a == b
  {
    var p := [a.owner.tenant, a.owner.artifact, Format(a.generation)];
    var q := [b.owner.tenant, b.owner.artifact, Format(b.generation)];
    UniqueDecoding(p, q);
    assert p[0] == q[0] && p[1] == q[1] && p[2] == q[2];
    FormatInjective(a.generation, b.generation);
  }

  /** No two frames of any generation of any tenant share an object name. */
  lemma ObjectPreimageInjective(a: GenerationId, l: string, i: uint32, b: GenerationId, k: string, j: uint32)
    requires ObjectPreimage(a, l, i) == ObjectPreimage(b, k, j)
    ensures a == b && l == k && i == j
  {
    var p := [a.owner.tenant, a.owner.artifact, Format(a.generation), l, Format(i)];
    var q := [b.owner.tenant, b.owner.artifact, Format(b.generation), k, Format(j)];
    UniqueDecoding(p, q);
    assert p[0] == q[0] && p[1] == q[1] && p[2] == q[2] && p[3] == q[3] && p[4] == q[4];
    FormatInjective(a.generation, b.generation);
    FormatInjective(i, j);
  }

  lemma FrameAadInjective(a: GenerationId, l: string, i: uint32, b: GenerationId, k: string, j: uint32)
    requires FrameAad(a, l, i) == FrameAad(b, k, j)
    ensures a == b && l == k && i == j
  {
    var p := ["tenant", a.owner.tenant, "kind", "artifact-frame", "locator", l,
              "artifact", a.owner.artifact, "generation", Format(a.generation), "frame", Format(i)];
    var q := ["tenant", b.owner.tenant, "kind", "artifact-frame", "locator", k,
              "artifact", b.owner.artifact, "generation", Format(b.generation), "frame", Format(j)];
    UniqueDecoding(p, q);
    assert p[1] == q[1] && p[5] == q[5] && p[7] == q[7] && p[9] == q[9] && p[11] == q[11];
    FormatInjective(a.generation, b.generation);
    FormatInjective(i, j);
  }
}
