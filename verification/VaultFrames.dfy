/** Frame arithmetic, and what it means for a record to be the sealed form of some content. */
module VaultFrames {
  import opened Wrappers
  import opened Arithmetic
  import opened Contracts
  import opened Decimal
  import opened VaultTypes
  import opened FrameCrypto

  /** The vault's fixed collaborators and limits. `root` is the key history, `name` the hash that
      turns an object preimage into an object key, `sha` the content hash in hex. */
  datatype Config = Config(
    aead: Aead,
    sha: Bytes -> string,
    name: string -> string,
    root: (Identifier, uint64) -> Option<Bytes>,
    frameSize: uint32,
    maxRead: uint64)

  ghost predicate LawfulConfig(c: Config) {
    Lawful(c.aead) && (forall b :: |c.sha(b)| == 64) && 0 < c.frameSize <= MAX_FRAME_BYTES
  }

  predicate ValidId(id: Identifier, namespace: string) {
    id.namespace == namespace && id.value != "" && |id.value| <= 512
  }

  /** The ceiling division as the code performs it, in uint64 arithmetic. */
  function ExpectedFrames(length: uint64, frameSize: uint32): int
    requires frameSize > 0
  {
    ((length + frameSize - 1) % (MAX_UINT64 + 1)) / frameSize
  }

  predicate ValidManifest(m: Manifest, frameSize: uint32)
    requires frameSize > 0
  {
    && ValidId(m.tenant, "tenant") && ValidId(m.artifact, "artifact")
    && m.generation != 0 && m.keyEpoch != 0 && 0 < m.length <= MAX_ARTIFACT_BYTES
    && m.digest.algorithm == "sha256" && |m.digest.hex| == 64
    && 0 < ExpectedFrames(m.length, frameSize) <= MAX_FRAME_COUNT
    && m.frameCount == ExpectedFrames(m.length, frameSize)
  }

  predicate ValidStage(r: StageRequest, frameSize: uint32)
    requires frameSize > 0
  {
    r.expectedGeneration != MAX_UINT64 && r.manifest.generation == r.expectedGeneration + 1
    && ValidManifest(r.manifest, frameSize)
  }

  predicate ValidRead(r: ReadRequest, maxRead: uint64) {
    && ValidId(r.tenant, "tenant") && ValidId(r.artifact, "artifact") && r.generation != 0
    && 0 < r.length <= maxRead && r.offset <= MAX_UINT64 - r.length
  }

  /** What a request must be: both identifiers in their namespaces, with 1 to 512 characters; a read of 1 to `maxRead`
      bytes that ends within 64 bits; a stage of the generation after the expected one, of 1 byte to a tebibyte under a
      SHA-256 digest, in as many frames as its length takes. */
  lemma ChecksExactly(r: ReadRequest, maxRead: uint64, s: StageRequest, frameSize: uint32)
    requires 0 < frameSize <= MAX_FRAME_BYTES
    ensures ValidRead(r, maxRead) <==>
            && r.tenant.namespace == "tenant" && 1 <= |r.tenant.value| <= 512
            && r.artifact.namespace == "artifact" && 1 <= |r.artifact.value| <= 512
            && r.generation >= 1 && 1 <= r.length <= maxRead && r.offset + r.length <= 0xFFFF_FFFF_FFFF_FFFF
    ensures ValidStage(s, frameSize) <==>
            && s.manifest.tenant.namespace == "tenant" && 1 <= |s.manifest.tenant.value| <= 512
            && s.manifest.artifact.namespace == "artifact" && 1 <= |s.manifest.artifact.value| <= 512
            && s.manifest.generation == s.expectedGeneration + 1 && s.manifest.keyEpoch >= 1
            && 1 <= s.manifest.length <= 0x100_0000_0000
            && s.manifest.digest.algorithm == "sha256" && |s.manifest.digest.hex| == 64
            && s.manifest.frameCount <= 1_048_576
            && (s.manifest.frameCount - 1) * frameSize < s.manifest.length <= s.manifest.frameCount * frameSize
  {
    if 1 <= s.manifest.length <= 0x100_0000_0000 {
      Ceiling(s.manifest.length, frameSize, s.manifest.frameCount);
    }
  }

  lemma Ceiling(length: uint64, size: uint32, n: uint32)
    requires 0 < size <= MAX_FRAME_BYTES && 1 <= length <= 0x100_0000_0000
    ensures n == ExpectedFrames(length, size) <==> (n - 1) * size < length <= n * size
  {
    var q := (length + size - 1) / size;
    assert ExpectedFrames(length, size) == q;
    assert q * size <= length + size - 1 < q * size + size;
    assert (q - 1) * size == q * size - size;
    if n < q {
      TimesMonotone(n, q - 1, size);
    } else if n > q {
      TimesMonotone(q, n - 1, size);
    }
  }

  function Min(a: int, b: int): int { if a < b then a else b }

  function Max(a: int, b: int): int { if a > b then a else b }

  /** Where frame i starts, and one past where the last frame ends. */
  function FrameStart(length: int, size: int, i: int): int {
    Min(i * size, length)
  }

  /** The frames of a valid manifest are non-empty, adjoin without a gap and end at the length;
      nothing overflows on the way. */
  lemma FramesPartition(length: uint64, size: uint32, i: int)
    requires 0 < size <= MAX_FRAME_BYTES && 0 < length <= MAX_ARTIFACT_BYTES
    requires 0 <= i < ExpectedFrames(length, size)
    ensures ExpectedFrames(length, size) == (length + size - 1) / size
    ensures FrameStart(length, size, i) == i * size < length
    ensures FrameStart(length, size, i + 1) == i * size + Min(size, length - i * size)
    ensures FrameStart(length, size, ExpectedFrames(length, size)) == length
  {
    var n := (length + size - 1) / size;
    assert length + size - 1 <= MAX_UINT64;
    assert n == ExpectedFrames(length, size);
    CeilingBounds(length, size, n);
    assert i * size <= (n - 1) * size by { TimesMonotone(i, n - 1, size); }
    assert (i + 1) * size == i * size + size;
  }

  lemma CeilingBounds(length: int, size: int, n: int)
    requires size > 0 && length > 0 && n == (length + size - 1) / size
    ensures n >= 1 && (n - 1) * size < length <= n * size
  {
    assert n * size + (length + size - 1) % size == length + size - 1;
  }

  function ObjectKey(c: Config, m: Manifest, locator: string, index: uint32): string {
    c.name(ObjectPreimage(GenerationOf(m), locator, index))
  }

  /** The digest comparison of a stored envelope. */
  predicate DigestMatches(c: Config, expected: Digest, data: Bytes) {
    expected.algorithm == "sha256" && |expected.hex| == 64 && c.sha(data) == expected.hex
  }

  /** One frame read from a given store content. */
  function FrameFrom(c: Config, objects: map<string, Bytes>, root: Bytes, r: GenerationRecord, f: FrameRecord)
    : Result<Bytes, VaultError>
  {
    var key := ObjectKey(c, r.manifest, r.locator, f.index);
    if key !in objects then Err(Incomplete)
    else if |objects[key]| == 0 || |objects[key]| > MAX_OBJECT_BYTES then Err(Corrupt)
    else if !DigestMatches(c, f.objectDigest, objects[key]) then Err(Corrupt)
    else DecryptFrame(c.aead, root, r.manifest, r.locator, f, objects[key])
  }

  function Slice(b: Bytes, from: int, to: int): Bytes {
    if 0 <= from <= to <= |b| then b[from..to] else []
  }

  /** The first n frames of the record read from the store as stretches of these bytes. */
  ghost predicate ReadsAs(c: Config, objects: map<string, Bytes>, root: Bytes, r: GenerationRecord, n: nat, bytes: Bytes)
    requires n <= |r.frames|
  {
    forall i :: 0 <= i < n ==> FrameReads(c, objects, root, r, r.frames[i], bytes)
  }

  ghost predicate FrameReads(c: Config, objects: map<string, Bytes>, root: Bytes, r: GenerationRecord, f: FrameRecord, bytes: Bytes) {
    f.offset + f.length <= |bytes| && FrameFrom(c, objects, root, r, f) == Ok(bytes[f.offset..f.offset + f.length])
  }

  lemma ReadsOn(c: Config, objects: map<string, Bytes>, root: Bytes, r: GenerationRecord, n: nat, bytes: Bytes, more: Bytes)
    requires n < |r.frames| && ReadsAs(c, objects, root, r, n, bytes)
    requires r.frames[n].offset == |bytes| && r.frames[n].length == |more| && FrameFrom(c, objects, root, r, r.frames[n]) == Ok(more)
    ensures ReadsAs(c, objects, root, r, n + 1, bytes + more)
  {
    hide FrameFrom;
    forall i | 0 <= i < n + 1 ensures FrameReads(c, objects, root, r, r.frames[i], bytes + more) {
      var f := r.frames[i];
      if i < n {
        assert FrameReads(c, objects, root, r, f, bytes);
        assert (bytes + more)[f.offset..f.offset + f.length] == bytes[f.offset..f.offset + f.length];
      } else {
        assert (bytes + more)[|bytes|..|bytes| + |more|] == more;
      }
    }
  }

  /** Whatever the store holds, the frames read from it as content of the manifest's length and digest. */
  ghost predicate Intact(c: Config, objects: map<string, Bytes>, r: GenerationRecord) {
    exists root, bytes ::
      && c.root(r.manifest.tenant, r.manifest.keyEpoch) == Some(root) && ReadsAs(c, objects, root, r, |r.frames|, bytes)
      && |bytes| == r.manifest.length && c.sha(bytes) == r.manifest.digest.hex
  }

  /** Frame i of the record is the sealed form of its stretch of the content. */
  ghost predicate SealedFrame(c: Config, r: GenerationRecord, plain: Bytes, sealed: seq<Bytes>, root: Bytes, i: int)
    requires 0 <= i < |r.frames| && i < |sealed|
  {
    var f := r.frames[i];
    && f.index == i
    && f.offset == FrameStart(|plain|, c.frameSize, i)
    && f.offset + f.length == FrameStart(|plain|, c.frameSize, i + 1)
    && 0 < f.length
    && f.objectDigest == Digest("sha256", c.sha(sealed[i]))
    && 0 < |sealed[i]| <= MAX_OBJECT_BYTES
    && DecryptFrame(c.aead, root, r.manifest, r.locator, f, sealed[i]) == Ok(Slice(plain, f.offset, f.offset + f.length))
  }

  /** A complete record together with the content and envelopes it was made from. */
  ghost predicate Sealed(c: Config, r: GenerationRecord, plain: Bytes, sealed: seq<Bytes>)
    requires c.frameSize > 0
  {
    && ValidManifest(r.manifest, c.frameSize)
    && |plain| == r.manifest.length && |r.frames| == |sealed| == r.manifest.frameCount
    && c.sha(plain) == r.manifest.digest.hex
    && c.root(r.manifest.tenant, r.manifest.keyEpoch).Some?
    && forall i :: 0 <= i < |r.frames| ==>
         SealedFrame(c, r, plain, sealed, c.root(r.manifest.tenant, r.manifest.keyEpoch).value, i)
  }

  /** What the store holds under the name of frame i is its envelope, unless it has another hash. */
  ghost predicate FrameUnforged(c: Config, objects: map<string, Bytes>, r: GenerationRecord, sealed: seq<Bytes>, i: int)
    requires 0 <= i < |sealed|
  {
    i < 0x1_0000_0000 ==>
      var key := ObjectKey(c, r.manifest, r.locator, i);
      key in objects && c.sha(objects[key]) == c.sha(sealed[i]) ==> objects[key] == sealed[i]
  }

  /** Nothing in the store collides with the envelope it stands in for. */
  ghost predicate Unforgeable(c: Config, objects: map<string, Bytes>, r: GenerationRecord, sealed: seq<Bytes>) {
    forall i :: 0 <= i < |sealed| ==> FrameUnforged(c, objects, r, sealed, i)
  }

  /** An intact store holds no collision: what it holds is the envelopes. */
  lemma StoredIsUnforgeable(c: Config, objects: map<string, Bytes>, r: GenerationRecord, sealed: seq<Bytes>)
    requires Stored(c, objects, r, sealed)
    ensures Unforgeable(c, objects, r, sealed)
  {
    hide ObjectKey;
    forall i | 0 <= i < |sealed| ensures FrameUnforged(c, objects, r, sealed, i) {
      assert StoredFrame(c, objects, r, sealed, i);
    }
  }

  ghost predicate StoredFrame(c: Config, objects: map<string, Bytes>, r: GenerationRecord, sealed: seq<Bytes>, i: int)
    requires 0 <= i < |sealed|
  {
    && i < 0x1_0000_0000
    && ObjectKey(c, r.manifest, r.locator, i) in objects
    && objects[ObjectKey(c, r.manifest, r.locator, i)] == sealed[i]
  }

  /** Every envelope is in the store under its key. */
  ghost predicate Stored(c: Config, objects: map<string, Bytes>, r: GenerationRecord, sealed: seq<Bytes>) {
    forall i :: 0 <= i < |sealed| ==> StoredFrame(c, objects, r, sealed, i)
  }

  /** Whatever the store holds, a frame that reads at all reads as its stretch of the content. */
  lemma FrameReadsBack(c: Config, objects: map<string, Bytes>, r: GenerationRecord, plain: Bytes, sealed: seq<Bytes>, i: int)
    requires LawfulConfig(c) && Sealed(c, r, plain, sealed) && 0 <= i < |r.frames|
    ensures var f := r.frames[i];
            var read := FrameFrom(c, objects, c.root(r.manifest.tenant, r.manifest.keyEpoch).value, r, f);
            && (read.Ok? ==> |read.value| == f.length)
            && (read.Ok? && Unforgeable(c, objects, r, sealed) ==>
                  read.value == Slice(plain, f.offset, f.offset + f.length) && StoredFrame(c, objects, r, sealed, i))
            && (Stored(c, objects, r, sealed) ==> read == Ok(Slice(plain, f.offset, f.offset + f.length)))
  {
    var root := c.root(r.manifest.tenant, r.manifest.keyEpoch).value;
    assert SealedFrame(c, r, plain, sealed, root, i);
    assert Stored(c, objects, r, sealed) ==> StoredFrame(c, objects, r, sealed, i);
    var f := r.frames[i];
    var key := ObjectKey(c, r.manifest, r.locator, f.index);
    assert Unforgeable(c, objects, r, sealed) ==> FrameUnforged(c, objects, r, sealed, i);
    if key in objects && DigestMatches(c, f.objectDigest, objects[key]) {
      assert c.sha(objects[key]) == c.sha(sealed[i]);
    }
  }

  lemma LayoutIsOrdered(c: Config, r: GenerationRecord, plain: Bytes, sealed: seq<Bytes>, i: int)
    requires LawfulConfig(c) && Sealed(c, r, plain, sealed) && 0 <= i < |r.frames|
    ensures var f := r.frames[i];
            && f.index == i
            && 0 <= f.offset < f.offset + f.length <= |plain| <= MAX_ARTIFACT_BYTES
            && f.offset == FrameStart(|plain|, c.frameSize, i)
            && f.offset + f.length == FrameStart(|plain|, c.frameSize, i + 1)
    ensures FrameStart(|plain|, c.frameSize, |r.frames|) == |plain|
  {
    assert SealedFrame(c, r, plain, sealed, c.root(r.manifest.tenant, r.manifest.keyEpoch).value, i);
    FramesPartition(r.manifest.length, c.frameSize, i);
  }
}
