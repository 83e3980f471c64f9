/** The vault: staging, publication, range reads, tombstones and purges over the object store and
    the metadata repository. */
module Vault {
  import opened Wrappers
  import opened Contracts
  import opened Decimal
  import Composite
  import KeyedMaps
  import opened VaultTypes
  import opened FrameCrypto
  import opened VaultFrames
  import opened ObjectStore
  import opened Repository
  import Model = RepositoryModel
  import Trace = RepositoryTrace
  import Outcomes = RepositoryOutcomes

  /** A byte stream: what it delivers, and whether it then ends cleanly. */
  datatype Reader = Reader(data: Bytes, clean: bool)

  /** What the key ring answers for the current epoch of a tenant. */
  datatype Material = Material(epoch: uint64, legacy: bool, rootKey: Bytes)

  /** A failed stage, and whether rolling it back also failed. */
  datatype StageError = StageError(cause: VaultError, cleanupFailed: bool)

  datatype Hydrated = Hydrated(bytes: Bytes, nextOffset: uint64, frameDigests: seq<Digest>)

  function OperationValue(g: GenerationId): string {
    Composite.Encode([g.owner.artifact, Format(g.generation)])
  }

  function ReceiptFor(r: GenerationRecord, status: string, reason: string): Receipt {
    Receipt(Identifier("artifact-operation", OperationValue(GenerationOf(r.manifest))), status, reason, r.manifest.generation)
  }

  /** The receipt of an operation on a generation: it names the generation and carries its number as watermark. */
  ghost predicate IsReceipt(r: Receipt, g: GenerationId, status: string, reason: string) {
    r == Receipt(Identifier("artifact-operation", OperationValue(g)), status, reason, g.generation)
  }

  ghost function WithStatus(m: Model.Repo, g: GenerationId, s: Status): Model.Repo
    requires g in m.records
  {
    m.(records := m.records[g := m.records[g].(status := s)])
  }

  /** After is before plus newly created keys. */
  ghost predicate Grown(before: map<string, Bytes>, after: map<string, Bytes>, created: seq<string>) {
    && (forall k :: k in before ==> k in after && after[k] == before[k])
    && (forall k :: k in after ==> k in before || k in created)
    && (forall k :: k in created ==> k in after && k !in before)
  }

  /** After is before with some of the named keys removed. */
  ghost predicate Trimmed(before: map<string, Bytes>, after: map<string, Bytes>, keys: set<string>) {
    && (forall k :: k in after ==> k in before && after[k] == before[k])
    && (forall k :: k in before && k !in keys ==> k in after)
  }

  /** Taking away what was created leaves what was there, and nothing else once all of it is gone. */
  lemma Undone(objects: map<string, Bytes>, grown: map<string, Bytes>, trimmed: map<string, Bytes>, created: seq<string>)
    requires Grown(objects, grown, created) && Trimmed(grown, trimmed, set k | k in created)
    ensures forall k :: k in objects ==> k in trimmed && trimmed[k] == objects[k]
    ensures (forall k :: k in created ==> k !in trimmed) ==> trimmed == objects
  {
  }

  lemma NothingGrown(objects: map<string, Bytes>)
    ensures Grown(objects, objects, [])
  {
  }

  ghost predicate RecordOk(c: Config, g: GenerationId, r: GenerationRecord,
                           plain: map<GenerationId, Bytes>, sealed: map<GenerationId, seq<Bytes>>)
    requires c.frameSize > 0
  {
    && GenerationOf(r.manifest) == g
    && ValidManifest(r.manifest, c.frameSize)
    && (r.frames == [] || (g in plain && g in sealed && Sealed(c, r, plain[g], sealed[g])))
    && (r.status == StatusPublished || r.status == StatusTombstoned || r.status == StatusPurged ==> r.frames != [])
  }

  ghost predicate RecordsOk(c: Config, records: map<GenerationId, GenerationRecord>,
                            plain: map<GenerationId, Bytes>, sealed: map<GenerationId, seq<Bytes>>)
    requires c.frameSize > 0
  {
    forall g :: g in records ==> RecordOk(c, g, records[g], plain, sealed)
  }

  lemma SealedIgnoresStatus(c: Config, r: GenerationRecord, s: Status, plain: Bytes, sealed: seq<Bytes>)
    requires c.frameSize > 0 && Sealed(c, r, plain, sealed)
    ensures Sealed(c, r.(status := s), plain, sealed)
  {
    var r' := r.(status := s);
    var root := c.root(r.manifest.tenant, r.manifest.keyEpoch).value;
    forall i | 0 <= i < |r'.frames| ensures SealedFrame(c, r', plain, sealed, root, i) {
      assert SealedFrame(c, r, plain, sealed, root, i);
    }
  }

  lemma StatusChangeOk(c: Config, g: GenerationId, r: GenerationRecord, s: Status,
                       plain: map<GenerationId, Bytes>, sealed: map<GenerationId, seq<Bytes>>)
    requires c.frameSize > 0 && RecordOk(c, g, r, plain, sealed) && (r.frames != [] || s == StatusQuarantined)
    ensures RecordOk(c, g, r.(status := s), plain, sealed)
  {
    if r.frames != [] {
      SealedIgnoresStatus(c, r, s, plain[g], sealed[g]);
    }
  }

  /** The frames written so far: each seals its stretch of the content and is in the store. */
  ghost predicate Written(c: Config, record: GenerationRecord, content: Bytes, root: Bytes,
                          frames: seq<FrameRecord>, sealed: seq<Bytes>, objects: map<string, Bytes>)
    requires |frames| <= 0xffff_ffff
  {
    |sealed| == |frames| &&
    forall i :: 0 <= i < |frames| ==>
      && SealedFrame(c, record.(frames := frames), content, sealed, root, i)
      && ObjectKey(c, record.manifest, record.locator, i) in objects
      && objects[ObjectKey(c, record.manifest, record.locator, i)] == sealed[i]
  }

  lemma WriteOne(c: Config, record: GenerationRecord, content: Bytes, root: Bytes, frames: seq<FrameRecord>,
                 sealed: seq<Bytes>, before: map<string, Bytes>, after: map<string, Bytes>, f: FrameRecord, e: Bytes)
    requires |frames| < 0xffff_ffff && Written(c, record, content, root, frames, sealed, before)
    requires forall k :: k in before ==> k in after && after[k] == before[k]
    requires f.index == |frames|
    requires ObjectKey(c, record.manifest, record.locator, f.index) in after
    requires after[ObjectKey(c, record.manifest, record.locator, f.index)] == e
    requires SealedFrame(c, record.(frames := frames + [f]), content, sealed + [e], root, |frames|)
    ensures Written(c, record, content, root, frames + [f], sealed + [e], after)
  {
    hide SealedFrame, ObjectKey;
    forall i | 0 <= i < |frames| ensures SealedFrame(c, record.(frames := frames + [f]), content, sealed + [e], root, i) {
      SealedAmongMore(c, record, content, root, frames, sealed, f, e, i);
    }
  }

  lemma SealedAmongMore(c: Config, record: GenerationRecord, content: Bytes, root: Bytes, frames: seq<FrameRecord>,
                        sealed: seq<Bytes>, f: FrameRecord, e: Bytes, i: int)
    requires 0 <= i < |frames| == |sealed| && SealedFrame(c, record.(frames := frames), content, sealed, root, i)
    ensures SealedFrame(c, record.(frames := frames + [f]), content, sealed + [e], root, i)
  {
    hide DecryptFrame, FrameStart;
    assert (frames + [f])[i] == frames[i] && (sealed + [e])[i] == sealed[i];
  }

  lemma NothingWritten(c: Config, record: GenerationRecord, content: Bytes, root: Bytes, objects: map<string, Bytes>)
    ensures Written(c, record, content, root, [], [], objects)
  {
  }

  /** One more frame of the loop: the piece just put is the next frame of the content. */
  lemma NextFrame(c: Config, record: GenerationRecord, content: Bytes, root: Bytes, frames: seq<FrameRecord>,
                  sealed: seq<Bytes>, f: FrameRecord, e: Bytes)
    requires LawfulConfig(c) && ValidManifest(record.manifest, c.frameSize) && |content| == record.manifest.length
    requires |frames| == |sealed| == f.index < record.manifest.frameCount
    requires f.offset == FrameStart(|content|, c.frameSize, f.index)
    requires f.length == Min(c.frameSize, |content| - f.offset)
    requires f.objectDigest == Digest("sha256", c.sha(e)) && 0 < |e| <= MAX_OBJECT_BYTES
    requires DecryptFrame(c.aead, root, record.manifest, record.locator, f, e)
             == Ok(Slice(content, f.offset, f.offset + f.length))
    ensures SealedFrame(c, record.(frames := frames + [f]), content, sealed + [e], root, |frames|)
  {
    FramesPartition(|content|, c.frameSize, f.index);
  }

  /** How the frame loop moves through the content. */
  lemma FrameSteps(c: Config, m: Manifest, i: uint32)
    requires LawfulConfig(c) && ValidManifest(m, c.frameSize) && i < m.frameCount
    ensures FrameStart(m.length, c.frameSize, 0) == 0 && FrameStart(m.length, c.frameSize, m.frameCount) == m.length
    ensures 0 <= FrameStart(m.length, c.frameSize, i) < FrameStart(m.length, c.frameSize, i + 1) <= m.length
    ensures FrameStart(m.length, c.frameSize, i + 1) ==
            FrameStart(m.length, c.frameSize, i) + Min(c.frameSize, m.length - FrameStart(m.length, c.frameSize, i))
  {
    hide Lawful;
    FramesPartition(m.length, c.frameSize, i);
    FramesPartition(m.length, c.frameSize, 0);
  }

  lemma GrowOne(start: map<string, Bytes>, before: map<string, Bytes>, after: map<string, Bytes>,
                created: seq<string>, key: string, e: Bytes, isNew: bool)
    requires Grown(start, before, created)
    requires if isNew then key !in before && after == before[key := e] else after == before
    ensures Grown(start, after, if isNew then created + [key] else created)
    ensures forall k :: k in before ==> k in after && after[k] == before[k]
  {
  }

  /** The frames of a reservation have different names. */
  ghost predicate DistinctFrames(c: Config, m: Manifest, locator: string) {
    forall i: uint32, j: uint32 :: i < j < m.frameCount ==> ObjectKey(c, m, locator, i) != ObjectKey(c, m, locator, j)
  }

  /** No object carries the name of a frame of this reservation, from a given frame on. */
  ghost predicate Unused(c: Config, m: Manifest, locator: string, objects: map<string, Bytes>, from: int) {
    forall i: uint32 :: from <= i < m.frameCount ==> ObjectKey(c, m, locator, i) !in objects
  }

  lemma UnusedNext(c: Config, m: Manifest, locator: string, objects: map<string, Bytes>, index: uint32)
    requires Unused(c, m, locator, objects, index) && index < m.frameCount
    ensures ObjectKey(c, m, locator, index) !in objects
  {
  }

  lemma UseOne(c: Config, m: Manifest, locator: string, before: map<string, Bytes>, after: map<string, Bytes>,
               index: uint32, e: Bytes)
    requires DistinctFrames(c, m, locator) && Unused(c, m, locator, before, index) && index < m.frameCount
    requires after == before || after == before[ObjectKey(c, m, locator, index) := e]
    ensures Unused(c, m, locator, after, index + 1)
  {
    hide ObjectKey;
    forall i: uint32 | index + 1 <= i < m.frameCount ensures ObjectKey(c, m, locator, i) !in after {
      assert ObjectKey(c, m, locator, index) != ObjectKey(c, m, locator, i);
    }
  }

  /** Nothing that was there before has changed or gone. */
  ghost predicate Preserved(start: Model.Repo, now: Model.Repo, objects: map<string, Bytes>, objects': map<string, Bytes>,
                            plain: map<GenerationId, Bytes>, plain': map<GenerationId, Bytes>,
                            sealed: map<GenerationId, seq<Bytes>>, sealed': map<GenerationId, seq<Bytes>>)
  {
    && now.current == start.current
    && (forall k :: k in objects ==> k in objects' && objects'[k] == objects[k])
    && (forall g :: g in start.records ==> g in now.records && now.records[g] == start.records[g])
    && (forall g :: g in plain && g in start.records ==> g in plain' && plain'[g] == plain[g])
    && (forall g :: g in sealed && g in start.records ==> g in sealed' && sealed'[g] == sealed[g])
  }

  /** A new complete record for g, staged from content, with its envelopes in the store. */
  ghost predicate NewlyStaged(c: Config, g: GenerationId, m: Manifest, content: Bytes, start: Model.Repo, now: Model.Repo,
                              objects: map<string, Bytes>, plain: map<GenerationId, Bytes>, sealed: map<GenerationId, seq<Bytes>>)
  {
    && g !in start.records && g in now.records
    && now.records == start.records[g := now.records[g]]
    && now.records[g].status == StatusStaged && now.records[g].manifest == m && now.records[g].frames != []
    && g in plain && g in sealed && plain[g] == content
    && Stored(c, objects, now.records[g], sealed[g])
  }

  lemma WrittenIsSealed(c: Config, record: GenerationRecord, content: Bytes, frames: seq<FrameRecord>,
                        sealed: seq<Bytes>, objects: map<string, Bytes>)
    requires LawfulConfig(c) && ValidManifest(record.manifest, c.frameSize) && |content| == record.manifest.length
    requires |frames| == record.manifest.frameCount && c.sha(content) == record.manifest.digest.hex
    requires c.root(record.manifest.tenant, record.manifest.keyEpoch).Some?
    requires Written(c, record, content, c.root(record.manifest.tenant, record.manifest.keyEpoch).value, frames, sealed, objects)
    ensures Sealed(c, record.(frames := frames), content, sealed)
    ensures Stored(c, objects, record.(frames := frames), sealed)
  {
  }

  lemma AddRecordOk(c: Config, records: map<GenerationId, GenerationRecord>, g: GenerationId, r: GenerationRecord,
                    plain: map<GenerationId, Bytes>, sealed: map<GenerationId, seq<Bytes>>, content: Bytes, envelopes: seq<Bytes>)
    requires c.frameSize > 0 && RecordsOk(c, records, plain, sealed) && g !in records
    requires RecordOk(c, g, r, plain[g := content], sealed[g := envelopes])
    ensures RecordsOk(c, records[g := r], plain[g := content], sealed[g := envelopes])
  {
    var records' := records[g := r];
    forall h | h in records' ensures RecordOk(c, h, records'[h], plain[g := content], sealed[g := envelopes]) {
      if h != g {
        assert RecordOk(c, h, records[h], plain, sealed);
      }
    }
  }

  /** After a rollback, at most the empty reservation is left over. */
  lemma RolledBackOk(c: Config, start: Model.Repo, now: Model.Repo, record: GenerationRecord,
                     objects: map<string, Bytes>, objects': map<string, Bytes>,
                     plain: map<GenerationId, Bytes>, sealed: map<GenerationId, seq<Bytes>>)
    requires c.frameSize > 0 && RecordsOk(c, start.records, plain, sealed) && now.current == start.current
    requires record.frames == [] && record.status == StatusStaged && ValidManifest(record.manifest, c.frameSize)
    requires GenerationOf(record.manifest) !in start.records
    requires now.records == start.records || now.records == start.records[GenerationOf(record.manifest) := record]
    requires forall k :: k in objects ==> k in objects' && objects'[k] == objects[k]
    ensures RecordsOk(c, now.records, plain, sealed)
    ensures Preserved(start, now, objects, objects', plain, plain, sealed, sealed)
  {
    forall h | h in now.records ensures RecordOk(c, h, now.records[h], plain, sealed) {
      if h in start.records {
        assert RecordOk(c, h, start.records[h], plain, sealed);
      }
    }
  }

  /** What a completed stage leaves behind. */
  lemma CommittedOk(c: Config, start: Model.Repo, now: Model.Repo, filled: GenerationRecord,
                    objects: map<string, Bytes>, objects': map<string, Bytes>,
                    plain: map<GenerationId, Bytes>, sealed: map<GenerationId, seq<Bytes>>, content: Bytes, envelopes: seq<Bytes>)
    requires c.frameSize > 0 && RecordsOk(c, start.records, plain, sealed) && now.current == start.current
    requires Sealed(c, filled, content, envelopes) && Stored(c, objects', filled, envelopes) && filled.status == StatusStaged
    requires GenerationOf(filled.manifest) !in start.records
    requires now.records == start.records[GenerationOf(filled.manifest) := filled]
    requires forall k :: k in objects ==> k in objects' && objects'[k] == objects[k]
    ensures var g := GenerationOf(filled.manifest);
            var plain', sealed' := plain[g := content], sealed[g := envelopes];
            && RecordsOk(c, now.records, plain', sealed')
            && Preserved(start, now, objects, objects', plain, plain', sealed, sealed')
            && NewlyStaged(c, g, filled.manifest, content, start, now, objects', plain', sealed')
  {
    var g := GenerationOf(filled.manifest);
    AddRecordOk(c, start.records, g, filled, plain, sealed, content, envelopes);
  }

  /** How much of [offset, end) the first k frames cover. */
  function Covered(length: int, size: int, offset: int, end: int, k: int): (c: int)
    ensures offset <= end ==> offset <= c <= end
  {
    Max(offset, Min(end, FrameStart(length, size, k)))
  }

  lemma CoverStep(length: int, size: int, offset: int, end: int, k: int)
    requires 0 <= offset < end && FrameStart(length, size, k) < FrameStart(length, size, k + 1)
    ensures var from, to := FrameStart(length, size, k), FrameStart(length, size, k + 1);
            if to <= offset || from >= end then
              Covered(length, size, offset, end, k + 1) == Covered(length, size, offset, end, k)
            else
              && Covered(length, size, offset, end, k) == Max(offset, from)
              && Covered(length, size, offset, end, k + 1) == Min(end, to)
  {
  }

  lemma CoverEnds(length: int, size: int, offset: int, end: int, n: int)
    requires 0 <= offset < end <= length && FrameStart(length, size, n) == length
    ensures Covered(length, size, offset, end, 0) == offset && Covered(length, size, offset, end, n) == end
  {
  }

  lemma StartIsZero(length: int, size: int)
    requires length >= 0
    ensures FrameStart(length, size, 0) == 0
  {
  }

  lemma SubSlice(b: Bytes, from: int, to: int, lo: int, hi: int)
    requires 0 <= from <= to <= |b| && 0 <= lo <= hi <= to - from
    ensures b[from..to][lo..hi] == b[from + lo..from + hi]
  {
    forall i | 0 <= i < hi - lo ensures b[from..to][lo..hi][i] == b[from + lo..from + hi][i] {
    }
  }

  lemma Adjoin(b: Bytes, i: int, j: int, k: int)
    requires 0 <= i <= j <= k <= |b|
    ensures b[i..j] + b[j..k] == b[i..k]
  {
  }

  predicate Overlaps(f: FrameRecord, offset: int, end: int) {
    !(f.offset + f.length <= offset || f.offset >= end)
  }

  /** The object digests of the frames that meet the range, in order. */
  function DigestsIn(frames: seq<FrameRecord>, offset: int, end: int): seq<Digest> {
    if frames == [] then []
    else
      var last := frames[|frames| - 1];
      DigestsIn(frames[..|frames| - 1], offset, end) + (if Overlaps(last, offset, end) then [last.objectDigest] else [])
  }

  lemma DigestsInNext(frames: seq<FrameRecord>, offset: int, end: int, k: int)
    requires 0 <= k < |frames|
    ensures DigestsIn(frames[..k + 1], offset, end)
            == DigestsIn(frames[..k], offset, end) + (if Overlaps(frames[k], offset, end) then [frames[k].objectDigest] else [])
  {
    assert frames[..k + 1][..k] == frames[..k];
  }

  /** Why a status denies reads, if it does. */
  function Denial(s: Status): Option<VaultError> {
    match s
    case StatusPublished => None
    case StatusStaged => Some(Incomplete)
    case StatusTombstoned => Some(VaultError.Tombstoned)
    case StatusPurged => Some(VaultError.Tombstoned)
    case StatusQuarantined => Some(VaultError.Quarantined)
  }

  lemma SealedFacts(c: Config, r: GenerationRecord, plain: Bytes, sealed: seq<Bytes>)
    requires c.frameSize > 0 && Sealed(c, r, plain, sealed)
    ensures |plain| == r.manifest.length && Model.Complete(r) && |sealed| == |r.frames| > 0
    ensures c.sha(plain) == r.manifest.digest.hex
    ensures c.root(r.manifest.tenant, r.manifest.keyEpoch).Some?
  {
  }

  lemma StoredIgnoresStatus(c: Config, objects: map<string, Bytes>, r: GenerationRecord, s: Status, sealed: seq<Bytes>)
    requires Stored(c, objects, r, sealed)
    ensures Stored(c, objects, r.(status := s), sealed)
  {
    forall i | 0 <= i < |sealed| ensures StoredFrame(c, objects, r.(status := s), sealed, i) {
      assert StoredFrame(c, objects, r, sealed, i);
    }
  }

  function FrameKey(c: Config, r: GenerationRecord, j: int): string
    requires 0 <= j < |r.frames|
  {
    ObjectKey(c, r.manifest, r.locator, r.frames[j].index)
  }

  /** The names of a record's objects. */
  ghost function FrameKeys(c: Config, r: GenerationRecord): set<string> {
    set j | 0 <= j < |r.frames| :: FrameKey(c, r, j)
  }

  /** Two frame names of these records agree only if what they were made from does. */
  ghost predicate NamesApart(c: Config, r: GenerationRecord, s: GenerationRecord) {
    forall i: uint32, j: uint32 ::
      ObjectKey(c, r.manifest, r.locator, i) == ObjectKey(c, s.manifest, s.locator, j) ==>
        ObjectPreimage(GenerationOf(r.manifest), r.locator, i) == ObjectPreimage(GenerationOf(s.manifest), s.locator, j)
  }

  lemma KeysDiffer(c: Config, r: GenerationRecord, s: GenerationRecord, i: uint32, j: uint32)
    requires NamesApart(c, r, s)
    requires GenerationOf(r.manifest) != GenerationOf(s.manifest) || r.locator != s.locator
    ensures ObjectKey(c, r.manifest, r.locator, i) != ObjectKey(c, s.manifest, s.locator, j)
  {
    if ObjectKey(c, r.manifest, r.locator, i) == ObjectKey(c, s.manifest, s.locator, j) {
      ObjectPreimageInjective(GenerationOf(r.manifest), r.locator, i, GenerationOf(s.manifest), s.locator, j);
    }
  }

  /** Different generations, or different reservations of one generation, share no object. */
  lemma FrameKeysDisjoint(c: Config, r: GenerationRecord, s: GenerationRecord)
    requires NamesApart(c, r, s)
    requires GenerationOf(r.manifest) != GenerationOf(s.manifest) || r.locator != s.locator
    ensures FrameKeys(c, r) !! FrameKeys(c, s)
  {
    hide ObjectKey, NamesApart;
    forall i, j | 0 <= i < |r.frames| && 0 <= j < |s.frames| ensures FrameKey(c, r, i) != FrameKey(c, s, j) {
      KeysDiffer(c, r, s, r.frames[i].index, s.frames[j].index);
    }
  }

  /** Deleting objects of one generation leaves the others as they were stored. */
  lemma OthersStayStored(c: Config, r: GenerationRecord, s: GenerationRecord, sealed: seq<Bytes>,
                         objects: map<string, Bytes>, objects': map<string, Bytes>)
    requires NamesApart(c, r, s) && GenerationOf(r.manifest) != GenerationOf(s.manifest)
    requires Trimmed(objects, objects', FrameKeys(c, r)) && Stored(c, objects, s, sealed)
    ensures Stored(c, objects', s, sealed)
  {
    hide ObjectKey, NamesApart;
    forall i | 0 <= i < |sealed| ensures StoredFrame(c, objects', s, sealed, i) {
      assert StoredFrame(c, objects, s, sealed, i);
      var key := ObjectKey(c, s.manifest, s.locator, i);
      forall j | 0 <= j < |r.frames| ensures FrameKey(c, r, j) != key {
        KeysDiffer(c, r, s, r.frames[j].index, i);
      }
      assert key !in FrameKeys(c, r);
    }
  }

  lemma TrimmedToNothing(c: Config, r: GenerationRecord, before: map<string, Bytes>, after: map<string, Bytes>)
    requires Trimmed(before, after, FrameKeys(c, r))
    requires forall j :: 0 <= j < |r.frames| ==> FrameKey(c, r, j) !in after
    ensures after == before - FrameKeys(c, r)
  {
  }

  /** Retrying after a partial deletion ends in the state a single complete deletion reaches. */
  lemma PurgeConverges(objects: map<string, Bytes>, partial: map<string, Bytes>, keys: set<string>)
    requires Trimmed(objects, partial, keys)
    ensures partial - keys == objects - keys
  {
    assert (partial - keys).Keys == (objects - keys).Keys;
  }

  /** What a purge of g may have done. */
  ghost predicate PurgeEffect(c: Config, g: GenerationId, ok: bool, before: Model.Repo, after: Model.Repo,
                              objects: map<string, Bytes>, objects': map<string, Bytes>)
  {
    if ok then
      && g in before.records
      && (if before.records[g].status == StatusPurged then after == before && objects' == objects
          else && before.records[g].status == StatusTombstoned
               && after == before.(records := before.records[g := before.records[g].(status := StatusPurged)])
               && objects' == objects - FrameKeys(c, before.records[g]))
    else
      && after == before
      && (objects' == objects ||
          (g in before.records && before.records[g].status == StatusTombstoned
           && Trimmed(objects, objects', FrameKeys(c, before.records[g]))))
  }

  lemma TrimmedTwice(a: map<string, Bytes>, b: map<string, Bytes>, c: map<string, Bytes>, keys: set<string>)
    requires Trimmed(a, b, keys) && Trimmed(b, c, keys)
    ensures Trimmed(a, c, keys)
  {
  }

  lemma NothingTrimmed(a: map<string, Bytes>, keys: set<string>)
    ensures Trimmed(a, a, keys) && Trimmed(a, a - keys, keys)
  {
  }

  /** A purge that comes after failed ones has, with them, the effect of one purge. */
  lemma PurgeAfterFailure(c: Config, g: GenerationId, ok: bool, before: Model.Repo, after: Model.Repo,
                          objects: map<string, Bytes>, partial: map<string, Bytes>, objects': map<string, Bytes>)
    requires PurgeEffect(c, g, false, before, before, objects, partial)
    requires PurgeEffect(c, g, ok, before, after, partial, objects')
    ensures PurgeEffect(c, g, ok, before, after, objects, objects')
  {
    hide FrameKeys, Trimmed;
    if partial != objects {
      var keys := FrameKeys(c, before.records[g]);
      PurgeConverges(objects, partial, keys);
      if Trimmed(partial, objects', keys) {
        TrimmedTwice(objects, partial, objects', keys);
      }
    }
  }

  /** A purge spares the objects of every other generation. */
  lemma PurgeSparesOthers(c: Config, g: GenerationId, ok: bool, before: Model.Repo, after: Model.Repo,
                          objects: map<string, Bytes>, objects': map<string, Bytes>, h: GenerationId, sealed: seq<Bytes>)
    requires PurgeEffect(c, g, ok, before, after, objects, objects')
    requires g in before.records && GenerationOf(before.records[g].manifest) == g
    requires h in before.records && GenerationOf(before.records[h].manifest) == h && h != g
    requires NamesApart(c, before.records[g], before.records[h]) && Stored(c, objects, before.records[h], sealed)
    ensures Stored(c, objects', before.records[h], sealed)
  {
    hide FrameKeys, Trimmed, NamesApart, Stored;
    var keys := FrameKeys(c, before.records[g]);
    NothingTrimmed(objects, keys);
    if objects' != objects {
      OthersStayStored(c, before.records[g], before.records[h], sealed, objects, objects');
    }
  }

  lemma NoPurge(c: Config, g: GenerationId, model: Model.Repo, objects: map<string, Bytes>)
    ensures PurgeEffect(c, g, false, model, model, objects, objects)
  {
  }

  lemma PurgeKeeps(c: Config, g: GenerationId, before: Model.Repo, after: Model.Repo,
                   objects: map<string, Bytes>, objects': map<string, Bytes>)
    ensures PurgeEffect(c, g, false, before, after, objects, objects') ==> after == before
  {
  }

  lemma PrefixOfPrefix<T>(a: seq<T>, b: seq<T>, c: seq<T>)
    requires a <= b <= c
    ensures a <= c
  {
  }

  lemma PurgeOk(c: Config, g: GenerationId, r: GenerationRecord, plain: map<GenerationId, Bytes>, sealed: map<GenerationId, seq<Bytes>>)
    requires c.frameSize > 0 && RecordOk(c, g, r, plain, sealed) && r.status == StatusTombstoned
    ensures GenerationOf(r.manifest) == g && RecordOk(c, g, r.(status := StatusPurged), plain, sealed)
  {
    StatusChangeOk(c, g, r, StatusPurged, plain, sealed);
  }

  lemma OwnKey(c: Config, g: GenerationId, r: GenerationRecord, plain: map<GenerationId, Bytes>, sealed: map<GenerationId, seq<Bytes>>)
    requires c.frameSize > 0 && RecordOk(c, g, r, plain, sealed)
    ensures GenerationOf(r.manifest) == g
  {
  }

  /** The generation is purged, its objects are gone, and nothing else has changed. */
  ghost predicate Purged(c: Config, g: GenerationId, keyEpoch: uint64, before: Model.Repo, after: Model.Repo,
                         objects: map<string, Bytes>, objects': map<string, Bytes>)
  {
    && g in before.records && before.records[g].manifest.keyEpoch == keyEpoch
    && after == before.(records := before.records[g := before.records[g].(status := StatusPurged)])
    && objects' == objects - FrameKeys(c, before.records[g])
  }

  lemma TombstoneIgnoredByKeys(c: Config, r: GenerationRecord, s: Status)
    ensures FrameKeys(c, r.(status := s)) == FrameKeys(c, r)
  {
    var t := r.(status := s);
    forall j | 0 <= j < |r.frames| ensures FrameKey(c, t, j) == FrameKey(c, r, j) {
    }
  }

  /** A tombstone and a complete purge of a generation that was not purged before are one purge. */
  lemma PurgedAfterTombstone(c: Config, g: GenerationId, keyEpoch: uint64, before: Model.Repo, between: Model.Repo,
                             after: Model.Repo, objects: map<string, Bytes>, objects': map<string, Bytes>)
    requires g in before.records && between == WithStatus(before, g, StatusTombstoned)
    requires between.records[g].manifest.keyEpoch == keyEpoch && PurgeEffect(c, g, true, between, after, objects, objects')
    ensures Purged(c, g, keyEpoch, before, after, objects, objects')
  {
    hide FrameKeys;
    TombstoneIgnoredByKeys(c, before.records[g], StatusTombstoned);
    assert after.records == before.records[g := before.records[g].(status := StatusPurged)];
  }

  /** An operation identifier names a generation of an artifact, in decimal. */
  ghost predicate Names(value: string, artifact: string, generation: uint64) {
    generation > 0 && exists digits: string :: NamesAs(value, artifact, generation, digits)
  }

  ghost predicate NamesAs(value: string, artifact: string, generation: uint64, digits: string) {
    value == Composite.Encode([artifact, digits]) && ParseUint(digits) == Some(generation)
  }

  /** The identifier a receipt carries names its generation. */
  lemma OperationNames(g: GenerationId)
    requires g.generation > 0
    ensures Names(OperationValue(g), g.owner.artifact, g.generation)
  {
    ParseUintOfFormat(g.generation);
    assert NamesAs(OperationValue(g), g.owner.artifact, g.generation, Format(g.generation));
  }

  /** Which generation an operation identifier names for an artifact: the one it names, if it names any. */
  method ResolveOperation(value: GoString, artifact: string) returns (generation: Option<uint64>)
    ensures generation.Some? ==> Names(value, artifact, generation.value)
    ensures forall k: uint64 :: Names(value, artifact, k) ==> generation == Some(k)
  {
    var parts := Composite.DecodeComposite(value, 2);
    forall k: uint64, digits: string | NamesAs(value, artifact, k, digits)
      ensures parts.Ok? && parts.value == [artifact, digits]
    {
      assert |[artifact, digits]| == 2;
      assert parts.Ok?;
      Composite.UniqueDecoding(parts.value, [artifact, digits]);
    }
    if parts.Err? || parts.value[0] != artifact {
      return None;
    }
    assert parts.value == [artifact, parts.value[1]];
    var parsed := ParseUint(parts.value[1]);
    if parsed.None? || parsed.value == 0 {
      return None;
    }
    assert NamesAs(value, artifact, parsed.value, parts.value[1]);
    return Some(parsed.value);
  }

  class Vault {
    const config: Config
    const store: ObjectStore
    const repo: Repository
    /** Whether the key ring and the random source always answer. */
    const reliable: bool
    /** The content and the envelopes behind every complete record. */
    ghost var plain: map<GenerationId, Bytes>
    ghost var sealed: map<GenerationId, seq<Bytes>>

    ghost predicate Valid()
      reads this, store, repo
    {
      && LawfulConfig(config) && repo.Valid() && RecordsOk(config, repo.model.records, plain, sealed)
      && Trace.Follows(repo.trace, repo.model)
    }

    ghost predicate Faultless()
      reads this, store, repo
    {
      reliable && store.reliable && repo.reliable
    }

    constructor (config: Config, store: ObjectStore, repo: Repository, reliable: bool)
      requires LawfulConfig(config) && repo.Valid() && repo.model == Model.EMPTY && repo.trace == []
      ensures Valid() && this.config == config && this.store == store && this.repo == repo && this.reliable == reliable
    {
      this.config, this.store, this.repo, this.reliable := config, store, repo, reliable;
      plain, sealed := map[], map[];
      Trace.NothingFollows();
    }

    // ----- staging -----------------------------------------------------------------------------

    lemma EnvelopeFits(record: GenerationRecord, index: uint32, root: Bytes, plaintext: Bytes, random: FrameRandom)
      requires LawfulConfig(config) && 0 < |plaintext| <= config.frameSize && WellSized(random) && |root| == ROOT_KEY_BYTES
      ensures var e := EncryptFrame(config.aead, root, record.manifest, record.locator, index, plaintext, random);
              e.Ok? && 0 < |e.value| <= MAX_OBJECT_BYTES
    {
      DecryptOfEncrypt(config.aead, root, record.manifest, record.locator, index, plaintext, random,
                       record.manifest, record.locator, FrameRecord(0, 0, 0, record.manifest.digest));
    }

    /** Encrypts one frame and puts it in the store. */
    method PutFrame(record: GenerationRecord, index: uint32, root: Bytes, plaintext: Bytes)
      returns (r: Result<bool, VaultError>, envelope: Bytes)
      requires LawfulConfig(config) && 0 < |plaintext| <= config.frameSize
      modifies store
      ensures var key := ObjectKey(config, record.manifest, record.locator, index);
              && (r.Err? ==> store.objects == old(store.objects))
              && (r.Ok? && r.value ==> key !in old(store.objects) && store.objects == old(store.objects)[key := envelope])
              && (r.Ok? && !r.value ==> store.objects == old(store.objects) && key in store.objects && store.objects[key] == envelope)
              && (reliable && store.reliable && |root| == ROOT_KEY_BYTES && key !in old(store.objects) ==> r.Ok?)
      ensures r.Ok? ==> 0 < |envelope| <= MAX_OBJECT_BYTES && |root| == ROOT_KEY_BYTES
      ensures r.Ok? ==> forall f: FrameRecord :: f.index == index && f.length == |plaintext| ==>
                          DecryptFrame(config.aead, root, record.manifest, record.locator, f, envelope) == Ok(plaintext)
    {
      envelope := [];
      if !reliable { if * { return Err(Unavailable), []; } }
      assert WellSized(FrameRandom(seq(32, _ => 0), seq(12, _ => 0), seq(12, _ => 0)));
      var random: FrameRandom :| WellSized(random);
      var encrypted := EncryptFrame(config.aead, root, record.manifest, record.locator, index, plaintext, random);
      if encrypted.Err? {
        return Err(encrypted.error), [];
      }
      envelope := encrypted.value;
      EnvelopeFits(record, index, root, plaintext, random);
      forall f: FrameRecord
        ensures f.index == index && f.length == |plaintext| ==>
                  DecryptFrame(config.aead, root, record.manifest, record.locator, f, envelope) == Ok(plaintext)
      {
        DecryptOfEncrypt(config.aead, root, record.manifest, record.locator, index, plaintext, random,
                         record.manifest, record.locator, f);
      }
      r := store.PutIfAbsent(ObjectKey(config, record.manifest, record.locator, index), envelope);
    }

    /** One turn of the frame loop: reads, encrypts and stores frame `index`. */
    method StageFrame(record: GenerationRecord, root: Bytes, data: Bytes, index: uint32, offset: uint64, ghost content: Bytes)
      returns (r: Result<FrameRecord, VaultError>, isNew: bool, envelope: Bytes)
      requires LawfulConfig(config) && ValidManifest(record.manifest, config.frameSize)
      requires |content| == record.manifest.length && (|data| >= |content| ==> content == data[..|content|])
      requires index < record.manifest.frameCount
      requires offset == FrameStart(|content|, config.frameSize, index)
      modifies store
      ensures var key := ObjectKey(config, record.manifest, record.locator, index);
              if r.Ok? && isNew then key !in old(store.objects) && store.objects == old(store.objects)[key := envelope]
              else store.objects == old(store.objects) && (r.Ok? ==> key in store.objects && store.objects[key] == envelope)
      ensures r.Ok? ==>
                && r.value.index == index && r.value.offset == offset
                && r.value.length == Min(config.frameSize, |content| - offset)
                && offset + r.value.length <= |data|
                && r.value.objectDigest == Digest("sha256", config.sha(envelope)) && 0 < |envelope| <= MAX_OBJECT_BYTES
                && (|data| >= |content| ==>
                      DecryptFrame(config.aead, root, record.manifest, record.locator, r.value, envelope)
                      == Ok(Slice(content, offset, offset + r.value.length)))
      ensures r.Ok? ==> |root| == ROOT_KEY_BYTES
      ensures (reliable && store.reliable && |root| == ROOT_KEY_BYTES
               && ObjectKey(config, record.manifest, record.locator, index) !in old(store.objects)) ==>
                (|data| >= |content| ==> r.Ok?) && (r.Err? ==> r.error == Incomplete)
    {
      FramesPartition(|content|, config.frameSize, index);
      var length := Min(config.frameSize, record.manifest.length - offset);
      if offset + length > |data| {
        return Err(Incomplete), false, [];
      }
      var plaintext := data[offset..offset + length];
      var put;
      put, envelope := PutFrame(record, index, root, plaintext);
      if put.Err? {
        return Err(put.error), false, envelope;
      }
      if |data| >= |content| {
        assert plaintext == Slice(content, offset, offset + length);
      }
      return Ok(FrameRecord(index, offset, length, Digest("sha256", config.sha(envelope)))), put.value, envelope;
    }

    /** The frame loop of a stage. `content` is what the stream should deliver. */
    method StageFrames(record: GenerationRecord, root: Bytes, data: Bytes, ghost content: Bytes)
      returns (r: Result<seq<FrameRecord>, VaultError>, created: seq<string>, ghost envelopes: seq<Bytes>)
      requires LawfulConfig(config) && ValidManifest(record.manifest, config.frameSize)
      requires |content| == record.manifest.length && (|data| >= |content| ==> content == data[..|content|])
      modifies store
      ensures Grown(old(store.objects), store.objects, created)
      ensures r.Ok? ==> |data| >= |content| && |r.value| == record.manifest.frameCount
                        && Written(config, record, content, root, r.value, envelopes, store.objects)
      ensures (reliable && store.reliable && |root| == ROOT_KEY_BYTES
               && DistinctFrames(config, record.manifest, record.locator)
               && Unused(config, record.manifest, record.locator, old(store.objects), 0)) ==>
                if |data| >= |content| then r.Ok? else r == Err(Incomplete)
    {
      hide DistinctFrames, Lawful, ObjectKey, Written, Unused, Grown, SealedFrame, DecryptFrame, FrameStart,
           ValidManifest, Min;
      FrameCountPositive(record.manifest);
      FrameSteps(config, record.manifest, 0);
      NothingGrown(store.objects);
      NothingWritten(config, record, content, root, store.objects);
      ghost var ideal := reliable && store.reliable && |root| == ROOT_KEY_BYTES
                         && DistinctFrames(config, record.manifest, record.locator) && Unused(config, record.manifest, record.locator, store.objects, 0);
      created, envelopes := [], [];
      var frames: seq<FrameRecord> := [];
      var remaining := record.manifest.length;
      for index: uint32 := 0 to record.manifest.frameCount
        invariant |frames| == |envelopes| == index
        invariant remaining == |content| - FrameStart(|content|, config.frameSize, index)
        invariant |content| - remaining <= |data|
        invariant Grown(old(store.objects), store.objects, created)
        invariant |data| >= |content| ==> Written(config, record, content, root, frames, envelopes, store.objects)
        invariant ideal ==> Unused(config, record.manifest, record.locator, store.objects, index)
      {
        FrameSteps(config, record.manifest, index);
        ghost var before := store.objects;
        if ideal {
          UnusedNext(config, record.manifest, record.locator, before, index);
        }
        var staged, isNew, envelope := StageFrame(record, root, data, index, record.manifest.length - remaining, content);
        if staged.Err? {
          return Err(staged.error), created, envelopes;
        }
        var key := ObjectKey(config, record.manifest, record.locator, index);
        GrowOne(old(store.objects), before, store.objects, created, key, envelope, isNew);
        if ideal {
          UseOne(config, record.manifest, record.locator, before, store.objects, index, envelope);
        }
        if |data| >= |content| {
          NextFrame(config, record, content, root, frames, envelopes, staged.value, envelope);
          WriteOne(config, record, content, root, frames, envelopes, before, store.objects, staged.value, envelope);
        }
        created := if isNew then created + [key] else created;
        frames, envelopes := frames + [staged.value], envelopes + [envelope];
        remaining := remaining - staged.value.length;
      }
      return Ok(frames), created, envelopes;
    }

    /** Deletes the objects a failed stage created. */
    method Cleanup(created: seq<string>) returns (failed: bool)
      modifies store
      ensures Trimmed(old(store.objects), store.objects, set k | k in created)
      ensures !failed ==> forall k :: k in created ==> k !in store.objects
      ensures store.reliable ==> !failed
    {
      failed := false;
      for i := 0 to |created|
        invariant Trimmed(old(store.objects), store.objects, set k | k in created)
        invariant !failed ==> forall j :: 0 <= j < i ==> created[j] !in store.objects
        invariant store.reliable ==> !failed
      {
        var ok := store.Delete(created[i]);
        failed := failed || !ok;
      }
    }

    /** Rolls a failed stage back: deletes what it created, then gives the reservation up. */
    method Abort(record: GenerationRecord, created: seq<string>, cause: VaultError,
                 ghost objects: map<string, Bytes>, ghost start: Model.Repo)
      returns (error: StageError)
      requires repo.Valid() && Grown(objects, store.objects, created)
      requires GenerationOf(record.manifest) !in start.records && record.status == StatusStaged
      requires repo.model.records == start.records[GenerationOf(record.manifest) := record.(frames := [])]
      requires Trace.Follows(repo.trace, repo.model) && Trace.Reserved(repo.trace, record)
      modifies store, repo
      ensures repo.Valid() && error.cause == cause
      ensures Trace.Follows(repo.trace, repo.model) && old(repo.trace) <= repo.trace
      ensures repo.model.current == old(repo.model).current
      ensures repo.model.records == start.records || repo.model.records == old(repo.model).records
      ensures Trimmed(old(store.objects), store.objects, set k | k in created)
      ensures forall k :: k in objects ==> k in store.objects && store.objects[k] == objects[k]
      ensures !error.cleanupFailed ==> store.objects == objects && repo.model.records == start.records
      ensures store.reliable && repo.reliable ==> !error.cleanupFailed
      ensures error.cause == cause
    {
      hide KeyedMaps.Represents, Trace.Follows, Trace.Reserved, Grown, Trimmed;
      var undeleted := Cleanup(created);
      Undone(objects, old(store.objects), store.objects, created);
      var aborted := repo.AbortStage(record);
      Trace.TraceGrows(old(repo.trace), old(repo.model), Model.OpAbort(record), repo.trace, repo.model);
      assert aborted.Ok? ==> repo.model.records == start.records;
      return StageError(cause, undeleted || aborted.Err?);
    }

    /** The manifest is what the stream delivers. */
    ghost predicate Delivered(m: Manifest, reader: Reader) {
      |reader.data| == m.length && reader.clean && config.sha(reader.data) == m.digest.hex
    }

    /** What must hold for a stage to get as far as its content when nothing fails. */
    ghost predicate Stageable(request: StageRequest, current: Option<Material>, locator: string)
      reads this, store, repo
      requires config.frameSize > 0
    {
      var m := request.manifest;
      && ValidStage(request, config.frameSize)
      && current.Some? && !current.value.legacy && current.value.epoch == m.keyEpoch
      && |current.value.rootKey| == ROOT_KEY_BYTES
      && Model.Current(repo.model, ArtifactOf(m)) == request.expectedGeneration && GenerationOf(m) !in repo.model.records
      && DistinctFrames(config, m, locator) && Unused(config, m, locator, store.objects, 0)
    }

    /** The request passes its checks and names a generation that is already there, complete, with this manifest,
        whatever its status. */
    ghost predicate Duplicate(request: StageRequest, current: Option<Material>)
      reads this, store, repo
      requires config.frameSize > 0
    {
      var m := request.manifest;
      && ValidStage(request, config.frameSize)
      && current.Some? && !current.value.legacy && current.value.epoch == m.keyEpoch
      && Model.Current(repo.model, ArtifactOf(m)) == request.expectedGeneration && GenerationOf(m) in repo.model.records
      && repo.model.records[GenerationOf(m)].manifest == m && Model.Complete(repo.model.records[GenerationOf(m)])
    }

    /** Why a stage is turned away before anything is reserved, if it is. */
    ghost function Turned(request: StageRequest, current: Option<Material>): Option<VaultError>
      reads this, store, repo
      requires config.frameSize > 0
    {
      var m, g := request.manifest, GenerationOf(request.manifest);
      if !ValidStage(request, config.frameSize) then Some(Invalid)
      else if current.None? || current.value.legacy || current.value.epoch != m.keyEpoch then Some(VaultError.Quarantined)
      else if Model.Current(repo.model, g.owner) != request.expectedGeneration then Some(StaleGeneration)
      else if g in repo.model.records && (repo.model.records[g].manifest != m || |repo.model.records[g].frames| != m.frameCount)
      then Some(Conflict)
      else None
    }

    /** Records the frames of a stage whose objects are all in place. */
    method Commit(filled: GenerationRecord, created: seq<string>, ghost content: Bytes, ghost envelopes: seq<Bytes>,
                  ghost objects: map<string, Bytes>, ghost start: Model.Repo)
      returns (r: Result<Receipt, StageError>)
      requires LawfulConfig(config) && repo.Valid() && RecordsOk(config, start.records, plain, sealed)
      requires Sealed(config, filled, content, envelopes) && Stored(config, store.objects, filled, envelopes)
      requires ValidManifest(filled.manifest, config.frameSize) && Model.Complete(filled)
      requires filled.status == StatusStaged && GenerationOf(filled.manifest) !in start.records
      requires repo.model.current == start.current
      requires repo.model.records == start.records[GenerationOf(filled.manifest) := filled.(frames := [])]
      requires Grown(objects, store.objects, created)
      requires Trace.Follows(repo.trace, repo.model) && Trace.Reserved(repo.trace, filled)
      modifies this, store, repo
      ensures Valid() && old(repo.trace) <= repo.trace
      ensures Preserved(start, repo.model, objects, store.objects, old(plain), plain, old(sealed), sealed)
      ensures r.Err? && !r.error.cleanupFailed ==> store.objects == objects && repo.model.records == start.records
      ensures store.reliable && repo.reliable && r.Err? ==> !r.error.cleanupFailed
      ensures r.Ok? ==> IsReceipt(r.value, GenerationOf(filled.manifest), "staged", "OURO-ARTIFACT-STAGED")
                        && NewlyStaged(config, GenerationOf(filled.manifest), filled.manifest, content, start, repo.model,
                                       store.objects, plain, sealed)
      ensures repo.reliable ==> r.Ok?
    {
      hide KeyedMaps.Represents, Sealed, RecordsOk, Stored, Trace.Follows, Trace.Reserved;
      var completed := repo.CompleteStage(filled);
      Trace.TraceGrows(old(repo.trace), old(repo.model), Model.OpComplete(filled), repo.trace, repo.model);
      if completed.Err? {
        var error := Abort(filled, created, completed.error, objects, start);
        RolledBackOk(config, start, repo.model, filled.(frames := []), objects, store.objects, plain, sealed);
        return Err(error);
      }
      CommittedOk(config, start, repo.model, filled, objects, store.objects, plain, sealed, content, envelopes);
      var g := GenerationOf(filled.manifest);
      plain, sealed := plain[g := content], sealed[g := envelopes];
      return Ok(ReceiptFor(filled, "staged", "OURO-ARTIFACT-STAGED"));
    }

    /** The part of a stage that follows a fresh reservation. */
    method StageReserved(manifest: Manifest, reader: Reader, root: Bytes, record: GenerationRecord, ghost start: Model.Repo)
      returns (r: Result<Receipt, StageError>)
      requires LawfulConfig(config) && repo.Valid() && RecordsOk(config, start.records, plain, sealed)
      requires ValidManifest(manifest, config.frameSize) && record.manifest == manifest
      requires config.root(manifest.tenant, manifest.keyEpoch) == Some(root)
      requires record.status == StatusStaged && record.frames == [] && GenerationOf(manifest) !in start.records
      requires repo.model.current == start.current && repo.model.records == start.records[GenerationOf(manifest) := record]
      requires Trace.Follows(repo.trace, repo.model) && Trace.Reserved(repo.trace, record)
      modifies this, store, repo
      ensures Valid() && old(repo.trace) <= repo.trace
      ensures Preserved(start, repo.model, old(store.objects), store.objects, old(plain), plain, old(sealed), sealed)
      ensures r.Err? && !r.error.cleanupFailed ==> store.objects == old(store.objects) && repo.model.records == start.records
      ensures store.reliable && repo.reliable && r.Err? ==> !r.error.cleanupFailed
      ensures r.Ok? ==> IsReceipt(r.value, GenerationOf(manifest), "staged", "OURO-ARTIFACT-STAGED") && reader.clean
                        && NewlyStaged(config, GenerationOf(manifest), manifest, reader.data, start, repo.model, store.objects, plain, sealed)
      ensures (Faultless() && |root| == ROOT_KEY_BYTES
               && DistinctFrames(config, manifest, record.locator) && Unused(config, manifest, record.locator, old(store.objects), 0)) ==>
                if |reader.data| != manifest.length || !reader.clean then r == Err(StageError(Incomplete, false))
                else if config.sha(reader.data) != manifest.digest.hex then r == Err(StageError(Corrupt, false))
                else r.Ok?
    {
      hide KeyedMaps.Represents, Sealed, RecordsOk, Stored, Written, Unused, DistinctFrames, NewlyStaged, Preserved,
           Trace.Follows, Trace.Reserved;
      ghost var objects := store.objects;
      ghost var content := if |reader.data| >= manifest.length then reader.data[..manifest.length]
                           else seq(manifest.length, _ => 0);
      var frames, created, envelopes := StageFrames(record, root, reader.data, content);
      var failure: Option<VaultError> := None;
      if frames.Err? {
        failure := Some(frames.error);
      } else if |reader.data| > manifest.length || !reader.clean {
        failure := Some(Incomplete);
      } else if manifest.digest.algorithm != "sha256" || config.sha(reader.data) != manifest.digest.hex {
        failure := Some(Corrupt);
      }
      if failure.Some? {
        var error := Abort(record, created, failure.value, objects, start);
        RolledBackOk(config, start, repo.model, record, objects, store.objects, plain, sealed);
        return Err(error);
      }
      assert content == reader.data;
      WrittenIsSealed(config, record, content, frames.value, envelopes, store.objects);
      Trace.ReservedWithFrames(repo.trace, record, frames.value);
      r := Commit(record.(frames := frames.value), created, content, envelopes, objects, start);
    }

    /** Staging is all or nothing: it ends with a complete record whose envelopes are all stored, or,
        unless the rollback itself reports a failure, with records and objects as they were. `locator` is what the
        random source yields. */
    method StageContent(request: StageRequest, reader: Reader, current: Option<Material>, locator: string)
      returns (r: Result<Receipt, StageError>)
      requires Valid()
      requires current.Some? ==> config.root(request.manifest.tenant, current.value.epoch) == Some(current.value.rootKey)
      modifies this, store, repo
      ensures Valid() && old(repo.trace) <= repo.trace
      ensures Preserved(old(repo.model), repo.model, old(store.objects), store.objects, old(plain), plain, old(sealed), sealed)
      ensures r.Err? && !r.error.cleanupFailed ==>
                store.objects == old(store.objects) && repo.model.records == old(repo.model).records
      ensures store.reliable && repo.reliable && r.Err? ==> !r.error.cleanupFailed
      ensures reliable && repo.reliable && old(Turned(request, current)).Some? ==>
                r == Err(StageError(old(Turned(request, current)).value, false))
      ensures r.Ok? && r.value.reasonCode == "OURO-ARTIFACT-DUPLICATE" ==>
                && IsReceipt(r.value, GenerationOf(request.manifest), "staged", "OURO-ARTIFACT-DUPLICATE")
                && store.objects == old(store.objects) && repo.model == old(repo.model)
                && GenerationOf(request.manifest) in repo.model.records
                && repo.model.records[GenerationOf(request.manifest)].manifest == request.manifest
                && Model.Complete(repo.model.records[GenerationOf(request.manifest)])
      ensures reliable && repo.reliable && old(Duplicate(request, current)) ==>
                r.Ok? && r.value.reasonCode == "OURO-ARTIFACT-DUPLICATE"
      ensures r.Ok? && r.value.reasonCode != "OURO-ARTIFACT-DUPLICATE" ==>
                && reader.clean && IsReceipt(r.value, GenerationOf(request.manifest), "staged", "OURO-ARTIFACT-STAGED")
                && NewlyStaged(config, GenerationOf(request.manifest), request.manifest, reader.data,
                               old(repo.model), repo.model, store.objects, plain, sealed)
      ensures Faultless() && old(Stageable(request, current, locator)) ==>
                if Delivered(request.manifest, reader) then r.Ok? && r.value.reasonCode == "OURO-ARTIFACT-STAGED"
                else r == Err(StageError(if |reader.data| != request.manifest.length || !reader.clean then Incomplete else Corrupt, false))
    {
      hide KeyedMaps.Represents, Trace.Follows, Trace.Reserved, Sealed, Stored, DistinctFrames, Unused, ExpectedFrames, ValidId, Lawful,
           RecordsOk, NewlyStaged;
      if !ValidStage(request, config.frameSize) {
        return Err(StageError(Invalid, false));
      }
      if current.None? || current.value.legacy || current.value.epoch != request.manifest.keyEpoch {
        return Err(StageError(VaultError.Quarantined, false));
      }
      if !reliable { if * { return Err(StageError(Unavailable, false)); } }
      var begun := repo.BeginStage(request, locator);
      Trace.TraceGrows(old(repo.trace), old(repo.model), Model.OpBegin(request, locator), repo.trace, repo.model);
      if begun.Err? {
        return Err(StageError(begun.error, false));
      }
      var record := begun.value.record;
      if begun.value.duplicate {
        return Ok(ReceiptFor(record, "staged", "OURO-ARTIFACT-DUPLICATE"));
      }
      r := StageReserved(request.manifest, reader, current.value.rootKey, record, old(repo.model));
    }

    // ----- reading -----------------------------------------------------------------------------

    method ReadFrame(root: Bytes, record: GenerationRecord, frame: FrameRecord) returns (r: Result<Bytes, VaultError>)
      ensures r == FrameFrom(config, store.objects, root, record, frame) || (!store.reliable && r == Err(Unavailable))
    {
      var envelope := store.Read(ObjectKey(config, record.manifest, record.locator, frame.index));
      if envelope.Err? {
        return Err(envelope.error);
      }
      if !DigestMatches(config, frame.objectDigest, envelope.value) {
        return Err(Corrupt);
      }
      return DecryptFrame(config.aead, root, record.manifest, record.locator, frame, envelope.value);
    }

    /** One frame's contribution to a range read: the part of it inside the range. */
    method ReadPiece(record: GenerationRecord, root: Bytes, k: nat, offset: uint64, end: uint64,
                     ghost content: Bytes, ghost envelopes: seq<Bytes>)
      returns (r: Result<Bytes, VaultError>)
      requires LawfulConfig(config) && Sealed(config, record, content, envelopes) && k < |record.frames|
      requires config.root(record.manifest.tenant, record.manifest.keyEpoch) == Some(root)
      requires offset < end <= |content| && Overlaps(record.frames[k], offset, end)
      ensures var f := record.frames[k];
              var lo, hi := Max(offset, f.offset), Min(end, f.offset + f.length);
              && 0 <= lo <= hi <= |content|
              && (r.Ok? ==> |r.value| == hi - lo)
              && (r.Ok? && Unforgeable(config, store.objects, record, envelopes) ==> r.value == content[lo..hi])
      ensures store.reliable && Stored(config, store.objects, record, envelopes) ==> r.Ok?
    {
      hide Sealed, SealedFrame, Unforgeable, Stored, Lawful, FrameFrom;
      var frame := record.frames[k];
      LayoutIsOrdered(config, record, content, envelopes, k);
      FrameReadsBack(config, store.objects, record, content, envelopes, k);
      var frameEnd: uint64 := frame.offset + frame.length;
      var startInFrame := Max(offset, frame.offset) - frame.offset;
      var endInFrame := Min(end, frameEnd) - frame.offset;
      var plaintext := ReadFrame(root, record, frame);
      if plaintext.Err? {
        return Err(plaintext.error);
      }
      SubSlice(content, frame.offset, frameEnd, startInFrame, endInFrame);
      return Ok(plaintext.value[startInFrame..endInFrame]);
    }

    /** The frame loop of a range read. Whatever the store holds, it returns the requested stretch or an
        error, never a short or a foreign one. */
    method HydrateFrames(record: GenerationRecord, root: Bytes, offset: uint64, end: uint64,
                         ghost content: Bytes, ghost envelopes: seq<Bytes>)
      returns (r: Result<Bytes, VaultError>, digests: seq<Digest>)
      requires LawfulConfig(config) && Sealed(config, record, content, envelopes)
      requires config.root(record.manifest.tenant, record.manifest.keyEpoch) == Some(root)
      requires offset < end <= |content|
      ensures r.Ok? ==> |r.value| == end - offset && digests == DigestsIn(record.frames, offset, end)
      ensures r.Ok? && Unforgeable(config, store.objects, record, envelopes) ==> r.value == content[offset..end]
      ensures store.reliable && Stored(config, store.objects, record, envelopes) ==> r.Ok?
    {
      hide Sealed, SealedFrame, Unforgeable, Stored, Lawful, FrameStart, Covered;
      var bytes: Bytes := [];
      digests := [];
      ghost var size := config.frameSize;
      LayoutEnd(record, content, envelopes);
      CoverEnds(|content|, size, offset, end, |record.frames|);
      for k := 0 to |record.frames|
        invariant |bytes| == Covered(|content|, size, offset, end, k) - offset
        invariant Unforgeable(config, store.objects, record, envelopes) ==> bytes == content[offset..Covered(|content|, size, offset, end, k)]
        invariant digests == DigestsIn(record.frames[..k], offset, end)
      {
        LayoutIsOrdered(config, record, content, envelopes, k);
        CoverStep(|content|, size, offset, end, k);
        DigestsInNext(record.frames, offset, end, k);
        var frame := record.frames[k];
        var frameEnd: uint64 := frame.offset + frame.length;
        if frameEnd <= offset || frame.offset >= end {
          continue;
        }
        var piece := ReadPiece(record, root, k, offset, end, content, envelopes);
        if piece.Err? {
          return Err(piece.error), [];
        }
        Adjoin(content, offset, Max(offset, frame.offset), Min(end, frameEnd));
        bytes := bytes + piece.value;
        digests := digests + [frame.objectDigest];
      }
      assert record.frames[..|record.frames|] == record.frames;
      return Ok(bytes), digests;
    }

    lemma LayoutEnd(record: GenerationRecord, content: Bytes, envelopes: seq<Bytes>)
      requires LawfulConfig(config) && Sealed(config, record, content, envelopes)
      ensures FrameStart(|content|, config.frameSize, |record.frames|) == |content|
    {
      LayoutIsOrdered(config, record, content, envelopes, 0);
    }

    /** Records a failed read: the generation is denied from here on. */
    method Deny(g: GenerationId)
      requires Valid() && g in repo.model.records
      modifies repo
      ensures Valid() && old(repo.trace) <= repo.trace
      ensures repo.model == old(repo.model) || repo.model == Model.Quarantine(old(repo.model), g).0
      ensures repo.reliable ==> repo.model == Model.Quarantine(old(repo.model), g).0
    {
      hide KeyedMaps.Represents, Sealed, Trace.Follows;
      StatusChangeOk(config, g, repo.model.records[g], StatusQuarantined, plain, sealed);
      var _ := repo.Quarantine(g);
      Trace.TraceGrows(old(repo.trace), old(repo.model), Model.OpQuarantine(g), repo.trace, repo.model);
    }

    /** The root key of the record's epoch; a key that cannot be read quarantines the generation. */
    method ResolveForRead(record: GenerationRecord) returns (root: Option<Bytes>)
      requires Valid() && GenerationOf(record.manifest) in repo.model.records
      modifies repo
      ensures Valid() && old(repo.trace) <= repo.trace
      ensures root.Some? ==> repo.model == old(repo.model) && config.root(record.manifest.tenant, record.manifest.keyEpoch) == root
      ensures root.None? ==>
                && (repo.model == old(repo.model) || repo.model == Model.Quarantine(old(repo.model), GenerationOf(record.manifest)).0)
                && (repo.reliable ==> repo.model == Model.Quarantine(old(repo.model), GenerationOf(record.manifest)).0)
      ensures reliable && config.root(record.manifest.tenant, record.manifest.keyEpoch).Some? ==> root.Some?
    {
      hide KeyedMaps.Represents, Sealed, RecordsOk, Trace.Follows;
      root := config.root(record.manifest.tenant, record.manifest.keyEpoch);
      if !reliable { if * { root := None; } }
      if root.None? {
        Deny(GenerationOf(record.manifest));
      }
    }

    /** A range read of a published generation. For every store content it returns exactly the staged
        bytes or fails; a failure past the lifecycle and bounds checks quarantines the generation. */
    method HydrateRange(request: ReadRequest) returns (r: Result<Hydrated, VaultError>)
      requires Valid()
      modifies repo
      ensures Valid() && old(repo.trace) <= repo.trace
      ensures var g := GenerationId(ArtifactId(request.tenant.value, request.artifact.value), request.generation);
              var records := old(repo.model).records;
              && (repo.model == old(repo.model) || repo.model == Model.Quarantine(old(repo.model), g).0)
              && (r.Ok? ==> 0 < request.length <= config.maxRead && request.generation > 0)
              && (r.Ok? ==>
                    && repo.model == old(repo.model) && g in records && records[g].status == StatusPublished
                    && g in plain && g in sealed
                    && request.offset + request.length <= |plain[g]|
                    && r.value.nextOffset == request.offset + request.length
                    && |r.value.bytes| == request.length
                    && r.value.frameDigests == DigestsIn(records[g].frames, request.offset, request.offset + request.length)
                    && (Unforgeable(config, store.objects, records[g], sealed[g]) ==>
                          r.value.bytes == plain[g][request.offset..request.offset + request.length]))
              && (g in records && records[g].status != StatusPublished ==> r.Err? && repo.model == old(repo.model))
              && (ValidRead(request, config.maxRead) && repo.reliable ==> Denied(records, g, r))
              && (Readable(records, request) && repo.reliable && r.Err? ==>
                    g in repo.model.records && repo.model.records[g].status == StatusQuarantined)
              && (Readable(records, request) && Faultless() && Stored(config, store.objects, records[g], sealed[g]) ==> r.Ok?)
    {
      hide KeyedMaps.Represents, Sealed, Unforgeable, Stored, Lawful, ValidManifest, Trace.Follows;
      if !ValidRead(request, config.maxRead) {
        return Err(Invalid);
      }
      var g := GenerationId(ArtifactId(request.tenant.value, request.artifact.value), request.generation);
      var got := repo.Get(g);
      if got.Err? {
        return Err(got.error);
      }
      var record := got.value;
      var denied := Denial(record.status);
      if denied.Some? {
        return Err(denied.value);
      }
      if request.offset > record.manifest.length || request.length > record.manifest.length - request.offset {
        return Err(Invalid);
      }
      assert RecordOk(config, g, record, plain, sealed);
      SealedFacts(config, record, plain[g], sealed[g]);
      var root := ResolveForRead(record);
      if root.None? {
        return Err(VaultError.Quarantined);
      }
      var end: uint64 := request.offset + request.length;
      var bytes, digests := HydrateFrames(record, root.value, request.offset, end, plain[g], sealed[g]);
      if bytes.Err? {
        Deny(g);
        return Err(bytes.error);
      }
      if |bytes.value| != request.length {
        assert false;  // the frames of a sealed record cover every range within its length
      }
      return Ok(Hydrated(bytes.value, end, digests));
    }

    /** A generation that is missing, or not published, is denied, and the caller is told which. */
    ghost predicate Denied(records: map<GenerationId, GenerationRecord>, g: GenerationId, r: Result<Hydrated, VaultError>) {
      && (g !in records ==> r == Err(NotFound))
      && (g in records && records[g].status == StatusStaged ==> r == Err(Incomplete))
      && (g in records && records[g].status == StatusTombstoned ==> r == Err(VaultError.Tombstoned))
      && (g in records && records[g].status == StatusPurged ==> r == Err(VaultError.Tombstoned))
      && (g in records && records[g].status == StatusQuarantined ==> r == Err(VaultError.Quarantined))
    }

    /** The request passes every check made before a frame is touched. */
    ghost predicate Readable(records: map<GenerationId, GenerationRecord>, request: ReadRequest)
      reads this
    {
      var g := GenerationId(ArtifactId(request.tenant.value, request.artifact.value), request.generation);
      && ValidRead(request, config.maxRead) && g in records && g in sealed && records[g].status == StatusPublished
      && request.offset + request.length <= records[g].manifest.length
    }

    // ----- publication -------------------------------------------------------------------------

    /** The frame loop of a full verification; `hashed` is everything it fed to the content hash. */
    method VerifyFrames(record: GenerationRecord, root: Bytes, ghost content: Bytes, ghost envelopes: seq<Bytes>)
      returns (r: Result<Bytes, VaultError>)
      requires LawfulConfig(config) && Sealed(config, record, content, envelopes)
      requires config.root(record.manifest.tenant, record.manifest.keyEpoch) == Some(root)
      ensures r.Ok? ==> |r.value| == |content| && ReadsAs(config, store.objects, root, record, |record.frames|, r.value)
      ensures r.Ok? && Unforgeable(config, store.objects, record, envelopes) ==> r.value == content && Stored(config, store.objects, record, envelopes)
      ensures store.reliable && Stored(config, store.objects, record, envelopes) ==> r == Ok(content)
    {
      hide Sealed, SealedFrame, Unforgeable, Lawful, FrameFrom, FrameStart, StoredFrame, FrameReads;
      SealedFacts(config, record, content, envelopes);
      LayoutEnd(record, content, envelopes);
      StartIsZero(|content|, config.frameSize);
      var hashed: Bytes := [];
      var expectedOffset: uint64 := 0;
      for index := 0 to |record.frames|
        invariant expectedOffset == |hashed| == FrameStart(|content|, config.frameSize, index) <= |content|
        invariant ReadsAs(config, store.objects, root, record, index, hashed)
        invariant Unforgeable(config, store.objects, record, envelopes) ==>
                    hashed == content[..expectedOffset] && forall i :: 0 <= i < index ==> StoredFrame(config, store.objects, record, envelopes, i)
        invariant store.reliable && Stored(config, store.objects, record, envelopes) ==> hashed == content[..expectedOffset]
      {
        var frame := record.frames[index];
        LayoutIsOrdered(config, record, content, envelopes, index);
        FrameReadsBack(config, store.objects, record, content, envelopes, index);
        if frame.index != index || frame.offset != expectedOffset || frame.length == 0 {
          assert false;  // a sealed record's frames adjoin in order
        }
        var plaintext := ReadFrame(root, record, frame);
        if plaintext.Err? {
          return Err(plaintext.error);
        }
        Adjoin(content, 0, expectedOffset, expectedOffset + frame.length);
        ReadsOn(config, store.objects, root, record, index, hashed, plaintext.value);
        hashed := hashed + plaintext.value;
        expectedOffset := expectedOffset + frame.length;
      }
      assert content[..|content|] == content;
      return Ok(hashed);
    }

    /** Reads every frame of a generation back and compares the content hash. Success means that what the store holds
        reads as content of the right hash and, for hashes without second preimages, that it still holds every envelope as
        it was sealed. */
    method VerifyGeneration(record: GenerationRecord) returns (r: Result<(), VaultError>)
      requires Valid()
      requires GenerationOf(record.manifest) in repo.model.records && repo.model.records[GenerationOf(record.manifest)] == record
      modifies repo
      ensures Valid() && old(repo.trace) <= repo.trace
      ensures var g := GenerationOf(record.manifest);
              && (repo.model == old(repo.model) || repo.model == Model.Quarantine(old(repo.model), g).0)
              && (r.Ok? ==> Intact(config, store.objects, record))
              && (r.Ok? ==> repo.model == old(repo.model) && Model.Complete(record) && record.frames != [] && g in plain && g in sealed
                            && (Unforgeable(config, store.objects, record, sealed[g]) ==> Stored(config, store.objects, record, sealed[g])))
              && (r.Err? && record.frames != [] && repo.reliable ==> repo.model == Model.Quarantine(old(repo.model), g).0)
              && (Faultless() && record.frames != [] && g in sealed && Stored(config, store.objects, record, sealed[g]) ==> r.Ok?)
    {
      hide KeyedMaps.Represents, Sealed, SealedFrame, Unforgeable, Lawful, Stored, ValidManifest, Trace.Follows, ReadsAs;
      var g := GenerationOf(record.manifest);
      assert RecordOk(config, g, record, plain, sealed);
      if record.frames == [] {
        FrameCountPositive(record.manifest);
      } else {
        SealedFacts(config, record, plain[g], sealed[g]);
      }
      if |record.frames| != record.manifest.frameCount {
        return Err(Incomplete);
      }
      var root := ResolveForRead(record);
      if root.None? {
        return Err(VaultError.Quarantined);
      }
      var hashed := VerifyFrames(record, root.value, plain[g], sealed[g]);
      if hashed.Err? {
        Deny(g);
        return Err(hashed.error);
      }
      if |hashed.value| != record.manifest.length || config.sha(hashed.value) != record.manifest.digest.hex {
        Deny(g);
        return Err(Corrupt);
      }
      return Ok(());
    }

    lemma FrameCountPositive(m: Manifest)
      requires config.frameSize > 0 && ValidManifest(m, config.frameSize)
      ensures m.frameCount > 0
    {
    }

    /** The record of the manifest is next in line, or it is the current published one. */
    ghost predicate Publishable(model: Model.Repo, request: PublishRequest) {
      var g := GenerationOf(request.manifest);
      && request.expectedGeneration < MAX_UINT64 && request.manifest.generation == request.expectedGeneration + 1
      && g in model.records && model.records[g].manifest == request.manifest
      && (if model.records[g].status == StatusPublished then Model.Current(model, g.owner) == request.manifest.generation
          else model.records[g].status == StatusStaged && model.records[g].frames != []
               && Model.Current(model, g.owner) == request.expectedGeneration)
    }

    /** Publishes a complete record after reading all of it back. Asking again changes nothing. */
    method Publish(request: PublishRequest) returns (r: Result<Receipt, VaultError>)
      requires Valid()
      modifies repo
      ensures Valid() && old(repo.trace) <= repo.trace
      ensures var g := GenerationOf(request.manifest);
              var records := old(repo.model).records;
              && (r.Err? ==>
                    repo.model == old(repo.model) ||
                    (g in records && (records[g].status == StatusStaged || records[g].status == StatusPublished)
                     && repo.model == Model.Quarantine(old(repo.model), g).0))
              && (r.Ok? ==>
                    && Publishable(old(repo.model), request)
                    && repo.model == WithStatus(old(repo.model), g, StatusPublished).(
                                       current := old(repo.model).current[g.owner := g.generation])
                    && IsReceipt(r.value, g, "published", "OURO-ARTIFACT-PUBLISHED")
                    && g in sealed && Intact(config, store.objects, records[g])
                    && (Unforgeable(config, store.objects, records[g], sealed[g]) ==> Stored(config, store.objects, records[g], sealed[g])))
              && ((Faultless() && ValidManifest(request.manifest, config.frameSize) && Publishable(old(repo.model), request)
                   && g in sealed && Stored(config, store.objects, records[g], sealed[g])) ==> r.Ok?)
    {
      hide KeyedMaps.Represents, Sealed, SealedFrame, Unforgeable, Lawful, Stored, ValidId, ExpectedFrames,
           Trace.Follows, Intact;
      if !ValidManifest(request.manifest, config.frameSize)
         || request.manifest.generation != Model.Increment(request.expectedGeneration) {
        return Err(Invalid);
      }
      var g := GenerationOf(request.manifest);
      var got := repo.Get(g);
      if got.Err? {
        return Err(got.error);
      }
      var record := got.value;
      if record.manifest != request.manifest {
        return Err(Conflict);
      }
      if record.status != StatusStaged && record.status != StatusPublished {
        return Err(Incomplete);
      }
      var verified := VerifyGeneration(record);
      if verified.Err? {
        return Err(verified.error);
      }
      StatusChangeOk(config, g, record, StatusPublished, plain, sealed);
      ghost var trace, model := repo.trace, repo.model;
      Outcomes.PublishExactly(model, request);
      var published := repo.Publish(request);
      Trace.TraceGrows(trace, model, Model.OpPublish(request), repo.trace, repo.model);
      if published.Err? {
        return Err(published.error);
      }
      return Ok(ReceiptFor(published.value, "published", "OURO-ARTIFACT-PUBLISHED"));
    }

    /** Staged content, once published, reads back exactly, for every content, frame size and range. */
    method StagePublishHydrate(stage: StageRequest, reader: Reader, current: Option<Material>, locator: string,
                               offset: uint64, length: uint64)
      returns (r: Result<Hydrated, VaultError>)
      requires Valid() && Faultless() && Stageable(stage, current, locator) && Delivered(stage.manifest, reader)
      requires current.Some? ==> config.root(stage.manifest.tenant, current.value.epoch) == Some(current.value.rootKey)
      requires 0 < length <= config.maxRead && offset + length <= |reader.data|
      modifies this, store, repo
      ensures Valid() && r.Ok? && old(repo.trace) <= repo.trace
      ensures r.value.nextOffset == offset + length && |r.value.bytes| == length
      ensures r.value.bytes == reader.data[offset..offset + length]
    {
      hide KeyedMaps.Represents, Sealed, SealedFrame, Unforgeable, Lawful, Stored, ExpectedFrames, RecordsOk, Unused, DistinctFrames,
           Trace.Follows, Intact, Denied, IsReceipt, Turned, OperationValue;
      var g := GenerationOf(stage.manifest);
      var _ := StageContent(stage, reader, current, locator);
      var record := repo.model.records[g];
      var _ := Publish(PublishRequest(stage.manifest, stage.expectedGeneration));
      StoredIgnoresStatus(config, store.objects, record, StatusPublished, sealed[g]);
      StoredIsUnforgeable(config, store.objects, record.(status := StatusPublished), sealed[g]);
      r := HydrateRange(ReadRequest(stage.manifest.artifact, stage.manifest.tenant, stage.manifest.generation, offset, length));
    }

    // ----- tombstones and purges ---------------------------------------------------------------

    /** The request is well-formed and names the current generation, which is published or tombstoned already. */
    predicate Tombstonable(model: Model.Repo, request: TombstoneRequest) {
      var g := GenerationId(ArtifactId(request.tenant.value, request.artifact.value), request.expectedGeneration);
      && ValidId(request.tenant, "tenant") && ValidId(request.artifact, "artifact") && request.expectedGeneration > 0
      && request.reasonCode != "" && Model.Current(model, g.owner) == request.expectedGeneration && g in model.records
      && (model.records[g].status == StatusPublished || model.records[g].status == StatusTombstoned)
    }

    /** Tombstones the current generation. Asking again changes nothing and gives the receipt again. */
    method Tombstone(request: TombstoneRequest) returns (r: Result<Receipt, VaultError>)
      requires Valid()
      modifies repo
      ensures Valid() && old(repo.trace) <= repo.trace
      ensures var g := GenerationId(ArtifactId(request.tenant.value, request.artifact.value), request.expectedGeneration);
              && (r.Err? ==> repo.model == old(repo.model))
              && (r.Ok? ==> Tombstonable(old(repo.model), request))
              && (r.Ok? ==>
                    && repo.model == WithStatus(old(repo.model), g, StatusTombstoned)
                    && IsReceipt(r.value, g, "tombstoned", "OURO-ARTIFACT-TOMBSTONED"))
              && (repo.reliable && Tombstonable(old(repo.model), request) ==> r.Ok?)
    {
      hide KeyedMaps.Represents, Sealed, Trace.Follows;
      Outcomes.TombstoneExactly(repo.model, request);
      if !ValidId(request.tenant, "tenant") || !ValidId(request.artifact, "artifact")
         || request.expectedGeneration == 0 || request.reasonCode == "" {
        return Err(Invalid);
      }
      var g := GenerationId(ArtifactId(request.tenant.value, request.artifact.value), request.expectedGeneration);
      if g in repo.model.records && repo.model.records[g].frames != [] {
        StatusChangeOk(config, g, repo.model.records[g], StatusTombstoned, plain, sealed);
      }
      var record := repo.Tombstone(request);
      Trace.TraceGrows(old(repo.trace), old(repo.model), Model.OpTombstone(request), repo.trace, repo.model);
      if record.Err? {
        return Err(record.error);
      }
      return Ok(ReceiptFor(record.value, "tombstoned", "OURO-ARTIFACT-TOMBSTONED"));
    }

    /** Deletes the objects of a record one by one. */
    method DeleteFrames(record: GenerationRecord) returns (ok: bool)
      modifies store
      ensures Trimmed(old(store.objects), store.objects, FrameKeys(config, record))
      ensures ok ==> store.objects == old(store.objects) - FrameKeys(config, record)
      ensures store.reliable ==> ok
    {
      var keys := FrameKeys(config, record);
      for i := 0 to |record.frames|
        invariant Trimmed(old(store.objects), store.objects, keys)
        invariant forall j :: 0 <= j < i ==> FrameKey(config, record, j) !in store.objects
      {
        assert FrameKey(config, record, i) in keys;
        ok := store.Delete(FrameKey(config, record, i));
        if !ok {
          return false;
        }
      }
      TrimmedToNothing(config, record, old(store.objects), store.objects);
      return true;
    }

    /** The generation is tombstoned or purged, under this key epoch. */
    ghost predicate Purgeable(model: Model.Repo, g: GenerationId, keyEpoch: uint64) {
      && g in model.records && model.records[g].manifest.keyEpoch == keyEpoch
      && (model.records[g].status == StatusTombstoned || model.records[g].status == StatusPurged)
    }

    /** The request is well-formed and its receipt names the generation. */
    ghost predicate Addressed(request: PurgeRequest, g: GenerationId) {
      && g.owner == ArtifactId(request.tenant.value, request.artifact.value)
      && ValidId(request.tenant, "tenant") && ValidId(request.artifact, "artifact") && request.keyEpoch > 0
      && request.tombstoneReceipt.status == "tombstoned"
      && request.tombstoneReceipt.operationId.namespace == "artifact-operation"
      && Names(request.tombstoneReceipt.operationId.value, request.artifact.value, g.generation)
    }

    /** The part of a purge that follows the receipt checks. */
    method PurgeGeneration(request: PurgeRequest, generation: uint64) returns (r: Result<Receipt, VaultError>)
      requires Valid()
      modifies store, repo
      ensures Valid() && old(repo.trace) <= repo.trace
      ensures var g := GenerationId(ArtifactId(request.tenant.value, request.artifact.value), generation);
              && PurgeEffect(config, g, r.Ok?, old(repo.model), repo.model, old(store.objects), store.objects)
              && (r.Ok? ==> Purgeable(old(repo.model), g, request.keyEpoch) && IsReceipt(r.value, g, "purged", "OURO-ARTIFACT-PURGED"))
              && (store.reliable && repo.reliable && Purgeable(old(repo.model), g, request.keyEpoch) ==> r.Ok?)
    {
      hide KeyedMaps.Represents, Sealed, FrameKeys, Trimmed, Trace.Follows, RecordOk, ValidManifest;
      var got := repo.PreparePurge(request, generation);
      if got.Err? {
        return Err(got.error);
      }
      var record := got.value;
      ghost var g := GenerationId(ArtifactId(request.tenant.value, request.artifact.value), generation);
      OwnKey(config, g, record, plain, sealed);
      if record.status == StatusPurged {
        return Ok(ReceiptFor(record, "purged", "OURO-ARTIFACT-PURGED"));
      }
      PurgeOk(config, g, record, plain, sealed);
      var deleted := DeleteFrames(record);
      if !deleted {
        return Err(Unavailable);
      }
      var completed := repo.CompletePurge(record);
      Trace.TraceGrows(old(repo.trace), old(repo.model), Model.OpCompletePurge(record), repo.trace, repo.model);
      if completed.Err? {
        return Err(completed.error);
      }
      return Ok(ReceiptFor(record, "purged", "OURO-ARTIFACT-PURGED"));
    }

    /** A purge acts on the one generation its receipt names: it deletes exactly that generation's frame
        objects, spares every other generation's, and marks it purged only after every deletion has succeeded. */
    method Purge(request: PurgeRequest) returns (r: Result<Receipt, VaultError>, ghost target: GenerationId)
      requires Valid() && |request.tombstoneReceipt.operationId.value| <= MAX_INT
      modifies store, repo
      ensures Valid() && old(repo.trace) <= repo.trace
      ensures target.owner == ArtifactId(request.tenant.value, request.artifact.value)
      ensures PurgeEffect(config, target, r.Ok?, old(repo.model), repo.model, old(store.objects), store.objects)
      ensures Addressed(request, target) || (r.Err? && store.objects == old(store.objects))
      ensures forall g: GenerationId :: Addressed(request, g) ==>
                && target == g
                && (r.Ok? ==> Purgeable(old(repo.model), g, request.keyEpoch) && IsReceipt(r.value, g, "purged", "OURO-ARTIFACT-PURGED"))
                && (store.reliable && repo.reliable && Purgeable(old(repo.model), g, request.keyEpoch) ==> r.Ok?)
      ensures OthersSpared(target, old(repo.model), old(store.objects), store.objects)
    {
      hide KeyedMaps.Represents, Sealed, Trace.Follows, RecordsOk, PurgeEffect, Names, Lawful, OthersSpared;
      target := GenerationId(ArtifactId(request.tenant.value, request.artifact.value), 0);
      NoPurge(config, target, repo.model, store.objects);
      SpareOthers(target, false, repo.model, repo.model, store.objects, store.objects);
      if !ValidId(request.tenant, "tenant") || !ValidId(request.artifact, "artifact") || request.keyEpoch == 0
         || request.tombstoneReceipt.status != "tombstoned" {
        return Err(Invalid), target;
      }
      if request.tombstoneReceipt.operationId.namespace != "artifact-operation" {
        return Err(Invalid), target;
      }
      var generation := ResolveOperation(request.tombstoneReceipt.operationId.value, request.artifact.value);
      if generation.None? {
        return Err(Invalid), target;
      }
      target := target.(generation := generation.value);
      ghost var model := repo.model;
      assert RecordsOk(config, model.records, plain, sealed);
      r := PurgeGeneration(request, generation.value);
      SpareOthers(target, r.Ok?, model, repo.model, old(store.objects), store.objects);
    }

    /** Every other generation whose objects were all stored still has them. */
    ghost predicate OthersSpared(target: GenerationId, before: Model.Repo, objects: map<string, Bytes>, objects': map<string, Bytes>)
      reads this
    {
      target in before.records ==>
        forall h :: h in before.records && h in sealed && h != target ==> Spared(before, target, h, objects, objects')
    }

    ghost predicate Spared(before: Model.Repo, target: GenerationId, h: GenerationId, objects: map<string, Bytes>,
                           objects': map<string, Bytes>)
      requires target in before.records && h in before.records && h in sealed
      reads this
    {
      NamesApart(config, before.records[target], before.records[h]) && Stored(config, objects, before.records[h], sealed[h]) ==>
        Stored(config, objects', before.records[h], sealed[h])
    }

    lemma SpareOthers(target: GenerationId, ok: bool, before: Model.Repo, after: Model.Repo,
                      objects: map<string, Bytes>, objects': map<string, Bytes>)
      requires config.frameSize > 0 && RecordsOk(config, before.records, plain, sealed)
      requires PurgeEffect(config, target, ok, before, after, objects, objects')
      ensures OthersSpared(target, before, objects, objects')
    {
      hide PurgeEffect, NamesApart, Stored, Sealed, ValidManifest;
      forall h | h in before.records && h in sealed && h != target && target in before.records
        ensures Spared(before, target, h, objects, objects')
      {
        assert RecordOk(config, h, before.records[h], plain, sealed);
        assert RecordOk(config, target, before.records[target], plain, sealed);
        if NamesApart(config, before.records[target], before.records[h]) && Stored(config, objects, before.records[h], sealed[h]) {
          PurgeSparesOthers(config, target, ok, before, after, objects, objects', h, sealed[h]);
        }
      }
    }

    /** Retrying converges: any number of attempts with one receipt, over storage that may fail at any point of
        each, has the effect of a single purge, complete if the last attempt succeeds. */
    method RetryPurge(request: PurgeRequest, attempts: nat) returns (r: Result<Receipt, VaultError>, ghost target: GenerationId)
      requires Valid() && |request.tombstoneReceipt.operationId.value| <= MAX_INT && attempts > 0
      modifies store, repo
      ensures Valid() && old(repo.trace) <= repo.trace
      ensures Addressed(request, target) || (r.Err? && store.objects == old(store.objects))
      ensures PurgeEffect(config, target, r.Ok?, old(repo.model), repo.model, old(store.objects), store.objects)
    {
      hide PurgeEffect, Valid, Addressed, OthersSpared;
      ghost var model, objects, trace := repo.model, store.objects, repo.trace;
      r, target := Purge(request);
      PurgeKeeps(config, target, model, repo.model, objects, store.objects);
      var k := 1;
      while r.Err? && k < attempts
        invariant Valid() && trace <= repo.trace
        invariant PurgeEffect(config, target, r.Ok?, model, repo.model, objects, store.objects)
        invariant r.Err? ==> repo.model == model
        invariant Addressed(request, target) || (r.Err? && store.objects == objects)
        decreases attempts - k
      {
        ghost var partial, past := store.objects, repo.trace;
        ghost var again;
        r, again := Purge(request);
        PrefixOfPrefix(trace, past, repo.trace);
        if again == target {
          PurgeAfterFailure(config, target, r.Ok?, model, repo.model, objects, partial, store.objects);
        }
        target := again;
        if r.Err? {
          PurgeKeeps(config, target, model, repo.model, partial, store.objects);
        }
        k := k + 1;
      }
    }

    /** The receipt of a tombstone, with the key epoch of the generation, purges exactly that generation. */
    method TombstoneThenPurge(request: TombstoneRequest, keyEpoch: uint64) returns (r: Result<Receipt, VaultError>)
      requires Valid() && Faultless() && keyEpoch > 0
      requires |OperationValue(GenerationId(ArtifactId(request.tenant.value, request.artifact.value),
                                            request.expectedGeneration))| <= MAX_INT
      modifies store, repo
      ensures Valid() && old(repo.trace) <= repo.trace
      ensures var g := GenerationId(ArtifactId(request.tenant.value, request.artifact.value), request.expectedGeneration);
              && (r.Ok? ==> Purged(config, g, keyEpoch, old(repo.model), repo.model, old(store.objects), store.objects))
              && (Tombstonable(old(repo.model), request) && old(repo.model).records[g].manifest.keyEpoch == keyEpoch ==> r.Ok?)
    {
      hide KeyedMaps.Represents, Sealed, FrameKeys, Trimmed, RecordsOk, ValidId, OperationValue, Lawful,
           Trace.Follows;
      var tombstone := Tombstone(request);
      if tombstone.Err? {
        return tombstone;
      }
      ghost var g := GenerationId(ArtifactId(request.tenant.value, request.artifact.value), request.expectedGeneration);
      TombstoneIgnoredByKeys(config, old(repo.model).records[g], StatusTombstoned);
      OperationNames(g);
      ghost var target;
      var purge := PurgeRequest(request.artifact, request.tenant, tombstone.value, keyEpoch);
      assert Addressed(purge, g);
      ghost var model, objects := repo.model, store.objects;
      r, target := Purge(purge);
      if r.Ok? {
        PurgedAfterTombstone(config, g, keyEpoch, old(repo.model), model, repo.model, objects, store.objects);
      }
    }

    // ----- any sequence of calls ---------------------------------------------------------------

    /** What callers must supply: the key ring's own answer, and identifiers that are Go strings. */
    ghost predicate Servable(call: Call) {
      match call
      case CallStage(request, _, current, _) =>
        current.Some? ==> config.root(request.manifest.tenant, current.value.epoch) == Some(current.value.rootKey)
      case CallPurge(request) => |request.tombstoneReceipt.operationId.value| <= MAX_INT
      case _ => true
    }

    /** Serves one call of any kind. */
    method Serve(call: Call)
      requires Valid() && Servable(call)
      modifies this, store, repo
      ensures Valid() && old(repo.trace) <= repo.trace
      ensures Lasting(old(repo.model), repo.model) && ContentKept(old(repo.model), old(plain), plain)
    {
      hide Valid, Lasting, ContentKept, Model.Quarantine, Model.Publish, Model.Tombstone, Preserved, PurgeEffect, OthersSpared,
           NewlyStaged;
      SameLasts(repo.model, plain);
      ghost var before := repo.model;
      match call
      case CallStage(request, reader, current, locator) =>
        ghost var content, objects, envelopes := plain, store.objects, sealed;
        var _ := StageContent(request, reader, current, locator);
        PreservedLasts(before, repo.model, objects, store.objects, content, plain, envelopes, sealed);
      case CallPublish(request) =>
        var published := Publish(request);
        if published.Ok? {
          PublishLasts(before, GenerationOf(request.manifest));
        } else {
          QuarantineLasts(before, GenerationOf(request.manifest));
        }
      case CallRead(request) =>
        var _ := HydrateRange(request);
        QuarantineLasts(before, GenerationId(ArtifactId(request.tenant.value, request.artifact.value), request.generation));
      case CallTombstone(request) =>
        var tombstoned := Tombstone(request);
        if tombstoned.Ok? {
          TombstoneLasts(before, GenerationId(ArtifactId(request.tenant.value, request.artifact.value), request.expectedGeneration));
        }
      case CallPurge(request) =>
        ghost var objects := store.objects;
        var purged, target := Purge(request);
        PurgeLasts(config, target, purged.Ok?, before, repo.model, objects, store.objects);
    }

    /** Serves any calls: no generation is lost, none that was tombstoned is anything but tombstoned or purged, and the
        content behind every generation is kept. */
    method ServeAll(calls: seq<Call>)
      requires Valid() && forall i :: 0 <= i < |calls| ==> Servable(calls[i])
      modifies this, store, repo
      ensures Valid() && old(repo.trace) <= repo.trace
      ensures Lasting(old(repo.model), repo.model) && ContentKept(old(repo.model), old(plain), plain)
    {
      hide Valid, Servable, Lasting, ContentKept;
      ghost var start, model, content := repo.trace, repo.model, plain;
      SameLasts(model, content);
      for i := 0 to |calls|
        invariant Valid() && start <= repo.trace
        invariant Lasting(model, repo.model) && ContentKept(model, content, plain)
      {
        ghost var past, between, kept := repo.trace, repo.model, plain;
        Serve(calls[i]);
        PrefixOfPrefix(start, past, repo.trace);
        LastingOn(model, between, repo.model, content, kept, plain);
      }
    }

    /** Through any calls, a tombstoned generation stays purgeable under its key epoch. */
    method PurgeableThroughout(calls: seq<Call>, g: GenerationId, request: PurgeRequest)
      requires Valid() && forall i :: 0 <= i < |calls| ==> Servable(calls[i])
      requires g in repo.model.records && repo.model.records[g].status == StatusTombstoned
      requires g.owner == ArtifactId(request.tenant.value, request.artifact.value)
      requires request.keyEpoch == repo.model.records[g].manifest.keyEpoch
      modifies this, store, repo
      ensures Valid() && Model.PreparePurge(repo.model, request, g.generation).Ok?
    {
      hide Valid, Servable, ContentKept;
      ServeAll(calls);
      assert Lasts(old(repo.model).records[g], repo.model.records[g]);
    }

    /** Whatever calls come after a stage, a read of the generation that succeeds returns the content staged at first. */
    method StagedContentLasts(stage: StageRequest, reader: Reader, current: Option<Material>, locator: string,
                              calls: seq<Call>, read: ReadRequest)
      returns (staged: Result<Receipt, StageError>, r: Result<Hydrated, VaultError>)
      requires Valid() && Servable(CallStage(stage, reader, current, locator))
      requires forall i :: 0 <= i < |calls| ==> Servable(calls[i])
      requires read.tenant.value == stage.manifest.tenant.value && read.artifact.value == stage.manifest.artifact.value
      requires read.generation == stage.manifest.generation
      modifies this, store, repo
      ensures Valid()
      ensures staged.Ok? && staged.value.reasonCode != "OURO-ARTIFACT-DUPLICATE" && r.Ok? ==>
                var g := GenerationOf(stage.manifest);
                && g in repo.model.records && g in sealed && read.offset + read.length <= |reader.data|
                && (Unforgeable(config, store.objects, repo.model.records[g], sealed[g]) ==>
                      r.value.bytes == reader.data[read.offset..read.offset + read.length])
    {
      hide Valid, Lasting, ContentKept, Unforgeable, Stored, Preserved;
      staged := StageContent(stage, reader, current, locator);
      ghost var g := GenerationOf(stage.manifest);
      ghost var model, content := repo.model, plain;
      ServeAll(calls);
      if g in model.records && g in content {
        StillThere(model, repo.model, content, plain, g);
      }
      r := HydrateRange(read);
    }

    /** After a read that passed its checks has failed, whatever calls come in between, no later read of the
        generation succeeds. */
    method ReadAfterFailure(first: ReadRequest, calls: seq<Call>, again: ReadRequest)
      returns (r: Result<Hydrated, VaultError>, r': Result<Hydrated, VaultError>)
      requires Valid() && forall i :: 0 <= i < |calls| ==> Servable(calls[i])
      requires again.tenant.value == first.tenant.value && again.artifact.value == first.artifact.value
      requires again.generation == first.generation
      modifies this, store, repo
      ensures Valid() && old(repo.trace) <= repo.trace
      ensures old(Readable(repo.model.records, first)) && repo.reliable && r.Err? && |repo.trace| <= MAX_UINT64 ==> r'.Err?
    {
      hide Valid, Servable, Trace.Follows, PurgeEffect, RecordsOk, Model.Quarantine, Lasting, ContentKept;
      r := HydrateRange(first);
      ghost var g := GenerationId(ArtifactId(first.tenant.value, first.artifact.value), first.generation);
      ghost var trace, model := repo.trace, repo.model;
      ghost var start := old(repo.trace);
      ValidFollows();
      ServeAll(calls);
      ghost var later, model' := repo.trace, repo.model;
      ValidFollows();
      r' := HydrateRange(again);
      PrefixOfPrefix(start, trace, later);
      PrefixOfPrefix(start, later, repo.trace);
      if |repo.trace| <= MAX_UINT64 && g in model.records && model.records[g].status == StatusQuarantined {
        Trace.QuarantinedFromThenOn(trace, model, later, model', g);
      }
    }

    lemma ValidFollows()
      requires Valid()
      ensures Trace.Follows(repo.trace, repo.model)
    {
      hide Trace.Follows, RecordsOk, KeyedMaps.Represents;
    }
  }

  /** Tombstoned or purged. */
  predicate Retired(r: GenerationRecord) {
    r.status == StatusTombstoned || r.status == StatusPurged
  }

  ghost predicate Lasts(r: GenerationRecord, r': GenerationRecord) {
    r'.manifest == r.manifest && (Retired(r) ==> Retired(r'))
  }

  /** No generation is lost, and none leaves retirement. */
  ghost predicate Lasting(before: Model.Repo, after: Model.Repo) {
    forall g :: g in before.records ==> g in after.records && Lasts(before.records[g], after.records[g])
  }

  ghost predicate ContentKept(before: Model.Repo, plain: map<GenerationId, Bytes>, plain': map<GenerationId, Bytes>) {
    forall g :: g in before.records && g in plain ==> g in plain' && plain'[g] == plain[g]
  }

  lemma SameLasts(m: Model.Repo, plain: map<GenerationId, Bytes>)
    ensures Lasting(m, m) && ContentKept(m, plain, plain)
  {
  }

  lemma LastingOn(a: Model.Repo, b: Model.Repo, c: Model.Repo, p: map<GenerationId, Bytes>, q: map<GenerationId, Bytes>,
                  r: map<GenerationId, Bytes>)
    requires Lasting(a, b) && Lasting(b, c) && ContentKept(a, p, q) && ContentKept(b, q, r)
    ensures Lasting(a, c) && ContentKept(a, p, r)
  {
  }

  lemma StillThere(a: Model.Repo, b: Model.Repo, p: map<GenerationId, Bytes>, q: map<GenerationId, Bytes>, g: GenerationId)
    requires Lasting(a, b) && ContentKept(a, p, q) && g in a.records && g in p
    ensures g in b.records && g in q && q[g] == p[g]
  {
  }

  lemma PreservedLasts(start: Model.Repo, now: Model.Repo, objects: map<string, Bytes>, objects': map<string, Bytes>,
                       plain: map<GenerationId, Bytes>, plain': map<GenerationId, Bytes>,
                       sealed: map<GenerationId, seq<Bytes>>, sealed': map<GenerationId, seq<Bytes>>)
    requires Preserved(start, now, objects, objects', plain, plain', sealed, sealed')
    ensures Lasting(start, now) && ContentKept(start, plain, plain')
  {
  }

  lemma QuarantineLasts(m: Model.Repo, g: GenerationId)
    ensures (g in m.records ==> !Retired(m.records[g])) ==> Lasting(m, Model.Quarantine(m, g).0)
  {
  }

  lemma PublishLasts(m: Model.Repo, g: GenerationId)
    requires g in m.records && !Retired(m.records[g])
    ensures Lasting(m, WithStatus(m, g, StatusPublished).(current := m.current[g.owner := g.generation]))
  {
  }

  lemma TombstoneLasts(m: Model.Repo, g: GenerationId)
    requires g in m.records
    ensures Lasting(m, WithStatus(m, g, StatusTombstoned))
  {
  }

  lemma PurgeLasts(c: Config, g: GenerationId, ok: bool, before: Model.Repo, after: Model.Repo,
                   objects: map<string, Bytes>, objects': map<string, Bytes>)
    requires PurgeEffect(c, g, ok, before, after, objects, objects')
    ensures Lasting(before, after)
  {
    hide FrameKeys, Trimmed;
  }

  /** The calls a vault serves. */
  datatype Call =
    | CallStage(stage: StageRequest, reader: Reader, current: Option<Material>, locator: string)
    | CallPublish(publish: PublishRequest)
    | CallRead(read: ReadRequest)
    | CallTombstone(tombstone: TombstoneRequest)
    | CallPurge(purge: PurgeRequest)
}
