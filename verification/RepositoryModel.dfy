/** The metadata repository as transitions over tuple-keyed maps, and what every run keeps. */
module RepositoryModel {
  import opened Wrappers
  import opened Decimal
  import opened VaultTypes

  datatype Repo = Repo(
    records: map<GenerationId, GenerationRecord>,
    current: map<ArtifactId, uint64>,
    next: uint64)

  const EMPTY := Repo(map[], map[], 0)

  /** A missing pointer reads as generation zero. */
  function Current(s: Repo, a: ArtifactId): uint64 {
    if a in s.current then s.current[a] else 0
  }

  predicate Complete(r: GenerationRecord) {
    |r.frames| == r.manifest.frameCount
  }

  /** A uint64 counter. */
  function Increment(n: uint64): uint64 {
    if n == MAX_UINT64 then 0 else n + 1
  }

  datatype Begun = Begun(record: GenerationRecord, duplicate: bool)

  function BeginStage(s: Repo, request: StageRequest, locator: string): (Repo, Result<Begun, VaultError>) {
    var m := request.manifest;
    var current := Current(s, ArtifactOf(m));
    var g := GenerationOf(m);
    if current != request.expectedGeneration || m.generation != Increment(current) then (s, Err(StaleGeneration))
    else if g in s.records then
      if s.records[g].manifest == m && Complete(s.records[g]) then (s, Ok(Begun(s.records[g], true)))
      else (s, Err(Conflict))
    else
      var fence := Increment(s.next);
      var record := GenerationRecord(m, locator, [], StatusStaged, fence);
      (s.(records := s.records[g := record], next := fence), Ok(Begun(record, false)))
  }

  function CompleteStage(s: Repo, record: GenerationRecord): (Repo, Result<(), VaultError>) {
    var g := GenerationOf(record.manifest);
    if g !in s.records || s.records[g].fence != record.fence || s.records[g].status != StatusStaged then (s, Err(Conflict))
    else if !Complete(record) then (s, Err(Incomplete))
    else (s.(records := s.records[g := s.records[g].(frames := record.frames)]), Ok(()))
  }

  function AbortStage(s: Repo, record: GenerationRecord): (Repo, Result<(), VaultError>) {
    var g := GenerationOf(record.manifest);
    if g !in s.records then (s, Ok(()))
    else if s.records[g].fence != record.fence || |s.records[g].frames| != 0 || s.records[g].status != StatusStaged then (s, Err(Conflict))
    else (s.(records := s.records - {g}), Ok(()))
  }

  function Publish(s: Repo, request: PublishRequest): (Repo, Result<GenerationRecord, VaultError>) {
    var m := request.manifest;
    var a, g := ArtifactOf(m), GenerationOf(m);
    if g in s.records && s.records[g].status == StatusPublished && Current(s, a) == s.records[g].manifest.generation then
      if request.expectedGeneration != s.records[g].manifest.generation - 1 || s.records[g].manifest != m then (s, Err(Conflict))
      else (s, Ok(s.records[g]))
    else if Current(s, a) != request.expectedGeneration || m.generation != Increment(request.expectedGeneration) then (s, Err(StaleGeneration))
    else if g !in s.records || !Complete(s.records[g]) then (s, Err(Incomplete))
    else if s.records[g].manifest != m || s.records[g].status != StatusStaged then (s, Err(Conflict))
    else
      var record := s.records[g].(status := StatusPublished);
      (s.(records := s.records[g := record], current := s.current[a := record.manifest.generation]), Ok(record))
  }

  function Quarantine(s: Repo, g: GenerationId): (Repo, Result<(), VaultError>) {
    if g !in s.records then (s, Err(NotFound))
    else if s.records[g].status == StatusPurged then (s, Err(Conflict))
    else (s.(records := s.records[g := s.records[g].(status := StatusQuarantined)]), Ok(()))
  }

  function Tombstone(s: Repo, request: TombstoneRequest): (Repo, Result<GenerationRecord, VaultError>) {
    var a := ArtifactId(request.tenant.value, request.artifact.value);
    var g := GenerationId(a, request.expectedGeneration);
    if request.expectedGeneration == 0 || Current(s, a) != request.expectedGeneration then (s, Err(StaleGeneration))
    else if g !in s.records then (s, Err(NotFound))
    else if s.records[g].status == StatusTombstoned then (s, Ok(s.records[g]))
    else if s.records[g].status != StatusPublished then (s, Err(Conflict))
    else
      var record := s.records[g].(status := StatusTombstoned);
      (s.(records := s.records[g := record]), Ok(record))
  }

  function PreparePurge(s: Repo, request: PurgeRequest, generation: uint64): Result<GenerationRecord, VaultError> {
    var g := GenerationId(ArtifactId(request.tenant.value, request.artifact.value), generation);
    if g !in s.records || s.records[g].manifest.keyEpoch != request.keyEpoch
       || (s.records[g].status != StatusTombstoned && s.records[g].status != StatusPurged) then Err(VaultError.Tombstoned)
    else Ok(s.records[g])
  }

  function CompletePurge(s: Repo, record: GenerationRecord): (Repo, Result<(), VaultError>) {
    var g := GenerationOf(record.manifest);
    if g !in s.records || s.records[g].fence != record.fence then (s, Err(Conflict))
    else if s.records[g].status == StatusPurged then (s, Ok(()))
    else if s.records[g].status != StatusTombstoned then (s, Err(Conflict))
    else (s.(records := s.records[g := s.records[g].(status := StatusPurged)]), Ok(()))
  }

  // ----- runs ------------------------------------------------------------------------------------

  datatype Op =
    | OpBegin(stage: StageRequest, locator: string)
    | OpComplete(record: GenerationRecord)
    | OpAbort(record: GenerationRecord)
    | OpPublish(publish: PublishRequest)
    | OpQuarantine(target: GenerationId)
    | OpTombstone(tombstone: TombstoneRequest)
    | OpCompletePurge(record: GenerationRecord)

  /** The repository together with the reservations it has handed out, by fence. */
  datatype World = World(repo: Repo, issued: map<uint64, GenerationRecord>)

  const START := World(EMPTY, map[])

  /** A caller passes back the reservation it was given, with frames filled in. */
  predicate Holds(w: World, record: GenerationRecord) {
    record.fence in w.issued && record.(frames := [], status := StatusStaged) == w.issued[record.fence]
  }

  /** The checks the vault makes before it calls the repository. */
  predicate Validated(w: World, op: Op) {
    match op
    case OpBegin(r, _) => r.expectedGeneration != MAX_UINT64 && r.manifest.frameCount > 0
    case OpComplete(r) => Holds(w, r)
    case OpAbort(r) => Holds(w, r)
    case OpPublish(r) => r.manifest.generation != 0
    case OpQuarantine(_) => true
    case OpTombstone(_) => true
    case OpCompletePurge(_) => true
  }

  function Step(w: World, op: Op): World {
    match op
    case OpBegin(r, locator) =>
      var (s, out) := BeginStage(w.repo, r, locator);
      World(s, if out.Ok? && !out.value.duplicate then w.issued[out.value.record.fence := out.value.record] else w.issued)
    case OpComplete(r) => w.(repo := CompleteStage(w.repo, r).0)
    case OpAbort(r) => w.(repo := AbortStage(w.repo, r).0)
    case OpPublish(r) => w.(repo := Publish(w.repo, r).0)
    case OpQuarantine(g) => w.(repo := Quarantine(w.repo, g).0)
    case OpTombstone(r) => w.(repo := Tombstone(w.repo, r).0)
    case OpCompletePurge(r) => w.(repo := CompletePurge(w.repo, r).0)
  }

  function Run(w: World, ops: seq<Op>): World
    decreases ops
  {
    if ops == [] then w else Run(Step(w, ops[0]), ops[1..])
  }

  predicate ValidatedRun(w: World, ops: seq<Op>)
    decreases ops
  {
    ops == [] || (Validated(w, ops[0]) && ValidatedRun(Step(w, ops[0]), ops[1..]))
  }

  /** A record sits under its own key, and where its generation stands relative to the pointer
      says which statuses it may have. */
  ghost predicate Placed(s: Repo, g: GenerationId, r: GenerationRecord) {
    && GenerationOf(r.manifest) == g
    && 1 <= g.generation <= Current(s, g.owner) + 1
    && (g.generation <= Current(s, g.owner) ==> r.status != StatusStaged)
    && (g.generation == Current(s, g.owner) + 1 ==> r.status == StatusStaged || r.status == StatusQuarantined)
  }

  /** Frames are recorded all at once, and before a record can be published. */
  ghost predicate Filled(r: GenerationRecord) {
    && r.manifest.frameCount > 0
    && (r.frames == [] || Complete(r))
    && (r.status == StatusStaged || r.status == StatusQuarantined || Complete(r))
  }

  /** Every generation up to the pointer exists. */
  ghost predicate Gapless(s: Repo) {
    forall a: ArtifactId, k: uint64 :: 1 <= k <= Current(s, a) ==> GenerationId(a, k) in s.records
  }

  /** The reservation a record came from. */
  ghost predicate Traced(w: World, r: GenerationRecord) {
    r.fence in w.issued && r.(frames := [], status := StatusStaged) == w.issued[r.fence]
  }

  ghost predicate FencesKnown(w: World) {
    forall f :: f in w.issued ==> 1 <= f <= w.repo.next && w.issued[f].fence == f && w.issued[f].manifest.frameCount > 0
  }

  ghost predicate Sound(w: World, g: GenerationId, r: GenerationRecord) {
    Placed(w.repo, g, r) && Filled(r) && Traced(w, r)
  }

  ghost predicate Inv(w: World) {
    && (forall g :: g in w.repo.records ==> Sound(w, g, w.repo.records[g]))
    && Gapless(w.repo)
    && FencesKnown(w)
  }

  function Put(w: World, g: GenerationId, r: GenerationRecord): World {
    w.(repo := w.repo.(records := w.repo.records[g := r]))
  }

  lemma PutKeepsInv(w: World, g: GenerationId, r: GenerationRecord)
    requires Inv(w) && g in w.repo.records && Sound(w, g, r)
    ensures Inv(Put(w, g, r))
  {
    var w' := Put(w, g, r);
    forall h | h in w'.repo.records ensures Sound(w', h, w'.repo.records[h]) {
      assert Sound(w, h, w'.repo.records[h]);
    }
    assert w'.repo.records.Keys == w.repo.records.Keys;
    assert Gapless(w'.repo);
  }

  lemma BeginKeepsInv(w: World, r: StageRequest, locator: string)
    requires Inv(w) && w.repo.next < MAX_UINT64 && Validated(w, OpBegin(r, locator))
    ensures Inv(Step(w, OpBegin(r, locator)))
  {
    hide Sound, Gapless, FencesKnown;
    var w' := Step(w, OpBegin(r, locator));
    if w' != w {
      var record := GenerationRecord(r.manifest, locator, [], StatusStaged, w.repo.next + 1);
      ReservationFits(w, r.manifest, record);
      forall h | h in w'.repo.records && h in w.repo.records ensures Sound(w', h, w'.repo.records[h]) {
        StillSound(w, w', record, h, w.repo.records[h]);
      }
    }
  }

  /** The world after handing out a reservation. */
  function Handed(w: World, record: GenerationRecord): World
    requires w.repo.next < MAX_UINT64
  {
    World(w.repo.(records := w.repo.records[GenerationOf(record.manifest) := record], next := w.repo.next + 1),
          w.issued[w.repo.next + 1 := record])
  }

  lemma ReservationFits(w: World, m: Manifest, record: GenerationRecord)
    requires Inv(w) && w.repo.next < MAX_UINT64 && GenerationOf(m) !in w.repo.records
    requires m.generation == Current(w.repo, ArtifactOf(m)) + 1 && m.frameCount > 0
    requires record.manifest == m && record.frames == [] && record.status == StatusStaged && record.fence == w.repo.next + 1
    ensures Sound(Handed(w, record), GenerationOf(m), record)
    ensures Gapless(Handed(w, record).repo) && FencesKnown(Handed(w, record))
  {
    hide Sound, Placed, Filled, Traced;
    assert Sound(Handed(w, record), GenerationOf(m), record) by { NewIsSound(w, m, record); }
    var s := Handed(w, record).repo;
    forall a: ArtifactId, k: uint64 | 1 <= k <= Current(s, a) ensures GenerationId(a, k) in s.records {
      assert Current(s, a) == Current(w.repo, a);
    }
  }

  lemma NewIsSound(w: World, m: Manifest, record: GenerationRecord)
    requires w.repo.next < MAX_UINT64
    requires m.generation == Current(w.repo, ArtifactOf(m)) + 1 && m.frameCount > 0
    requires record.manifest == m && record.frames == [] && record.status == StatusStaged && record.fence == w.repo.next + 1
    ensures Sound(Handed(w, record), GenerationOf(m), record)
  {
  }

  lemma StillSound(w: World, w': World, record: GenerationRecord, h: GenerationId, r: GenerationRecord)
    requires Inv(w) && w.repo.next < MAX_UINT64 && w' == Handed(w, record) && h in w.repo.records && r == w.repo.records[h]
    ensures Sound(w', h, r)
  {
    hide Gapless;
    assert Sound(w, h, r);
    assert r.fence != w.repo.next + 1;
  }

  lemma CompleteKeepsInv(w: World, r: GenerationRecord)
    requires Inv(w) && Holds(w, r)
    ensures Inv(Step(w, OpComplete(r)))
  {
    var w' := Step(w, OpComplete(r));
    if w' != w {
      var g := GenerationOf(r.manifest);
      assert Sound(w, g, w.repo.records[g]);
      PutKeepsInv(w, g, w.repo.records[g].(frames := r.frames));
    }
  }

  lemma AbortKeepsInv(w: World, r: GenerationRecord)
    requires Inv(w) && Holds(w, r)
    ensures Inv(Step(w, OpAbort(r)))
  {
    var w' := Step(w, OpAbort(r));
    if w' != w {
      assert Sound(w, GenerationOf(r.manifest), w.repo.records[GenerationOf(r.manifest)]);
      forall h | h in w'.repo.records ensures Sound(w', h, w'.repo.records[h]) {
        assert Sound(w, h, w.repo.records[h]);
      }
    }
  }

  lemma PublishKeepsInv(w: World, r: PublishRequest)
    requires Inv(w) && r.manifest.generation != 0
    ensures Inv(Step(w, OpPublish(r)))
  {
    hide Sound, Gapless, FencesKnown;
    var w' := Step(w, OpPublish(r));
    if w' != w {
      var g := GenerationOf(r.manifest);
      forall h | h in w'.repo.records ensures Sound(w', h, w'.repo.records[h]) {
        PublishedSound(w, g, h);
      }
      PublishedGapless(w, g);
      assert FencesKnown(w') by { SameFences(w, w'); }
    }
  }

  /** The world after the next generation of an artifact has been published. */
  function Published(w: World, g: GenerationId): World
    requires g in w.repo.records
  {
    w.(repo := w.repo.(records := w.repo.records[g := w.repo.records[g].(status := StatusPublished)],
                       current := w.repo.current[g.owner := g.generation]))
  }

  ghost predicate Publishable(w: World, g: GenerationId) {
    g in w.repo.records && g.generation == Current(w.repo, g.owner) + 1 && Complete(w.repo.records[g])
  }

  lemma PublishedSound(w: World, g: GenerationId, h: GenerationId)
    requires Inv(w) && Publishable(w, g) && h in w.repo.records
    ensures Sound(Published(w, g), h, Published(w, g).repo.records[h])
  {
    hide Gapless, FencesKnown;
    assert Sound(w, h, w.repo.records[h]);
    assert g.owner != h.owner ==> Current(Published(w, g).repo, h.owner) == Current(w.repo, h.owner);
  }

  lemma PublishedGapless(w: World, g: GenerationId)
    requires Inv(w) && Publishable(w, g)
    ensures Gapless(Published(w, g).repo)
  {
    hide Sound, FencesKnown;
    var s := Published(w, g).repo;
    forall a: ArtifactId, k: uint64 | 1 <= k <= Current(s, a) ensures GenerationId(a, k) in s.records {
      assert a != g.owner ==> Current(s, a) == Current(w.repo, a);
      assert k == g.generation && a == g.owner ==> GenerationId(a, k) == g;
    }
  }

  lemma SameFences(w: World, w': World)
    requires FencesKnown(w) && w'.issued == w.issued && w'.repo.next == w.repo.next
    ensures FencesKnown(w')
  {
  }

  lemma StatusOpsKeepInv(w: World, op: Op)
    requires Inv(w) && (op.OpQuarantine? || op.OpTombstone? || op.OpCompletePurge?)
    ensures Inv(Step(w, op))
  {
    var w' := Step(w, op);
    if w' != w {
      var g := if op.OpQuarantine? then op.target
               else if op.OpCompletePurge? then GenerationOf(op.record.manifest)
               else GenerationId(ArtifactId(op.tombstone.tenant.value, op.tombstone.artifact.value), op.tombstone.expectedGeneration);
      assert Sound(w, g, w.repo.records[g]);
      PutKeepsInv(w, g, w'.repo.records[g]);
    }
  }

  lemma CounterGrows(w: World, op: Op)
    requires w.repo.next < MAX_UINT64
    ensures w.repo.next <= Step(w, op).repo.next <= w.repo.next + 1
  {
  }

  lemma StepKeepsInv(w: World, op: Op)
    requires Inv(w) && w.repo.next < MAX_UINT64 && Validated(w, op)
    ensures Inv(Step(w, op))
    ensures w.repo.next <= Step(w, op).repo.next <= w.repo.next + 1
  {
    CounterGrows(w, op);
    if op.OpBegin? {
      BeginKeepsInv(w, op.stage, op.locator);
    } else if op.OpComplete? {
      CompleteKeepsInv(w, op.record);
    } else if op.OpAbort? {
      AbortKeepsInv(w, op.record);
    } else if op.OpPublish? {
      PublishKeepsInv(w, op.publish);
    } else {
      StatusOpsKeepInv(w, op);
    }
  }

  lemma {:induction false} RunKeepsInv(w: World, ops: seq<Op>)
    requires Inv(w) && ValidatedRun(w, ops) && w.repo.next + |ops| <= MAX_UINT64
    ensures Inv(Run(w, ops))
    decreases ops
  {
    if ops != [] {
      StepKeepsInv(w, ops[0]);
      RunKeepsInv(Step(w, ops[0]), ops[1..]);
    }
  }

  /** Where generations stand in every state a run of validated operations can reach. */
  lemma GenerationsAreGapless(ops: seq<Op>, g: GenerationId)
    requires ValidatedRun(START, ops) && |ops| <= MAX_UINT64
    ensures var s := Run(START, ops).repo;
            var current := Current(s, g.owner);
            && (1 <= g.generation <= current ==> g in s.records && s.records[g].status != StatusStaged)
            && (g.generation == current + 1 && g in s.records ==>
                  s.records[g].status == StatusStaged || s.records[g].status == StatusQuarantined)
            && (g.generation == 0 || g.generation > current + 1 ==> g !in s.records)
  {
    RunKeepsInv(START, ops);
  }

  // ----- lifecycle ---------------------------------------------------------------------------------

  /** The statuses reachable from a status. */
  predicate Leads(a: Status, b: Status) {
    a == b || match a
              case StatusStaged => true
              case StatusPublished => b == StatusTombstoned || b == StatusPurged || b == StatusQuarantined
              case StatusTombstoned => b == StatusPurged || b == StatusQuarantined
              case StatusPurged => false
              case StatusQuarantined => false
  }

  /** What one record may turn into. */
  ghost predicate Evolves(r: GenerationRecord, r': GenerationRecord) {
    && Leads(r.status, r'.status)
    && r'.manifest == r.manifest && r'.locator == r.locator && r'.fence == r.fence
    && (r.status != StatusStaged ==> r'.frames == r.frames)
  }

  lemma StepEvolves(w: World, op: Op, g: GenerationId)
    requires g in w.repo.records
    ensures var s' := Step(w, op).repo;
            if g in s'.records then Evolves(w.repo.records[g], s'.records[g])
            else w.repo.records[g].status == StatusStaged && w.repo.records[g].frames == []
  {
    var s' := Step(w, op).repo;
    assert op.OpBegin? ==> g in s'.records && s'.records[g] == w.repo.records[g];
    if g in s'.records && s'.records[g] != w.repo.records[g] {
      assert s'.records[g] == w.repo.records[g].(status := s'.records[g].status, frames := s'.records[g].frames);
    }
  }

  /** Once a generation has left the staged state it is never removed; its manifest, frames, locator
      and fence are fixed and its status only moves forward. */
  lemma {:induction false} SettledIsImmutable(w: World, ops: seq<Op>, g: GenerationId)
    requires Inv(w) && ValidatedRun(w, ops) && w.repo.next + |ops| <= MAX_UINT64
    requires g in w.repo.records && w.repo.records[g].status != StatusStaged
    ensures g in Run(w, ops).repo.records && Evolves(w.repo.records[g], Run(w, ops).repo.records[g])
    decreases ops
  {
    hide Step, Inv, Validated;
    if ops != [] {
      StepKeepsInv(w, ops[0]);
      StepEvolves(w, ops[0], g);
      SettledIsImmutable(Step(w, ops[0]), ops[1..], g);
    }
  }

  lemma {:induction false} RunConcat(w: World, before: seq<Op>, after: seq<Op>)
    requires ValidatedRun(w, before + after)
    ensures ValidatedRun(w, before) && ValidatedRun(Run(w, before), after)
    ensures Run(w, before + after) == Run(Run(w, before), after)
    decreases before
  {
    if before == [] {
      assert before + after == after;
    } else {
      assert (before + after)[1..] == before[1..] + after;
      RunConcat(Step(w, before[0]), before[1..], after);
    }
  }

  lemma StartInv()
    ensures Inv(START) && START.repo.next == 0
  {
  }

  /** A generation that has been published and is no longer published never is again. */
  lemma NeverPublishedAgain(first: seq<Op>, second: seq<Op>, third: seq<Op>, g: GenerationId)
    requires ValidatedRun(START, first + second + third) && |first + second + third| <= MAX_UINT64
    requires var s := Run(START, first).repo; g in s.records && s.records[g].status == StatusPublished
    requires var s := Run(START, first + second).repo; g in s.records ==> s.records[g].status != StatusPublished
    ensures var s := Run(START, first + second + third).repo; g in s.records && s.records[g].status != StatusPublished
  {
    hide Run, ValidatedRun, Inv;
    StartInv();
    RunConcat(START, first + second, third);
    RunConcat(START, first, second);
    RunKeepsInv(START, first);
    FenceBound(START, first);
    SettledIsImmutable(Run(START, first), second, g);
    RunKeepsInv(START, first + second);
    FenceBound(START, first + second);
    SettledIsImmutable(Run(START, first + second), third, g);
  }

  /** Quarantine is terminal: no run brings the generation back or alters what it recorded. */
  lemma QuarantineIsTerminal(w: World, ops: seq<Op>, g: GenerationId)
    requires Inv(w) && ValidatedRun(w, ops) && w.repo.next + |ops| <= MAX_UINT64
    requires g in w.repo.records && w.repo.records[g].status == StatusQuarantined
    ensures g in Run(w, ops).repo.records && Run(w, ops).repo.records[g] == w.repo.records[g]
  {
    SettledIsImmutable(w, ops, g);
  }

  /** A tombstoned generation stays purgeable under its key epoch, except that a quarantine
      arriving before the purge completes closes it for good. */
  lemma PurgeableUnlessQuarantined(w: World, ops: seq<Op>, g: GenerationId, request: PurgeRequest)
    requires Inv(w) && ValidatedRun(w, ops) && w.repo.next + |ops| <= MAX_UINT64
    requires g in w.repo.records && w.repo.records[g].status == StatusTombstoned
    requires ArtifactId(request.tenant.value, request.artifact.value) == g.owner
    requires request.keyEpoch == w.repo.records[g].manifest.keyEpoch
    ensures var s := Run(w, ops).repo;
            && g in s.records
            && (PreparePurge(s, request, g.generation).Ok? <==> s.records[g].status != StatusQuarantined)
            && (forall later :: ValidatedRun(Run(w, ops), later) && s.next + |later| <= MAX_UINT64
                                && s.records[g].status == StatusQuarantined ==>
                  PreparePurge(Run(Run(w, ops), later).repo, request, g.generation) == Err(VaultError.Tombstoned))
  {
    SettledIsImmutable(w, ops, g);
    RunKeepsInv(w, ops);
    var w' := Run(w, ops);
    forall later | ValidatedRun(w', later) && w'.repo.next + |later| <= MAX_UINT64
                   && w'.repo.records[g].status == StatusQuarantined
      ensures PreparePurge(Run(w', later).repo, request, g.generation) == Err(VaultError.Tombstoned)
    {
      SettledIsImmutable(w', later, g);
    }
  }

  lemma {:induction false} FenceBound(w: World, ops: seq<Op>)
    requires Inv(w) && ValidatedRun(w, ops) && w.repo.next + |ops| <= MAX_UINT64
    ensures w.repo.next <= Run(w, ops).repo.next <= w.repo.next + |ops|
    decreases ops
  {
    if ops != [] {
      StepKeepsInv(w, ops[0]);
      FenceBound(Step(w, ops[0]), ops[1..]);
    }
  }

  // ----- fences ------------------------------------------------------------------------------------

  /** Reservations already handed out stay as they are, and new ones get larger fences. */
  lemma {:induction false} FencesAreFresh(w: World, ops: seq<Op>, f: uint64)
    requires Inv(w) && ValidatedRun(w, ops) && w.repo.next + |ops| <= MAX_UINT64
    requires f in Run(w, ops).issued
    ensures f in w.issued || f > w.repo.next
    ensures f in w.issued ==> Run(w, ops).issued[f] == w.issued[f]
    decreases ops
  {
    if ops != [] {
      var w' := Step(w, ops[0]);
      StepKeepsInv(w, ops[0]);
      FencesAreFresh(w', ops[1..], f);
    }
  }

  /** After a reservation has gone, Complete and Abort on it change nothing, whatever
      reservation has taken its place since. */
  lemma StaleReservationIsInert(w: World, ops: seq<Op>, record: GenerationRecord, g: GenerationId)
    requires Inv(w) && ValidatedRun(w, ops) && w.repo.next + |ops| <= MAX_UINT64
    requires Holds(w, record) && g == GenerationOf(record.manifest) && g !in w.repo.records
    ensures var s := Run(w, ops).repo;
            && CompleteStage(s, record) == (s, Err(Conflict))
            && AbortStage(s, record).0 == s
            && (g in s.records ==> AbortStage(s, record).1 == Err(Conflict) && s.records[g].fence > record.fence)
  {
    GoneStaysGone(w, ops, record.fence, g);
  }

  lemma StepKeepsGone(w: World, op: Op, g: GenerationId, fence: uint64)
    requires Inv(w) && w.repo.next < MAX_UINT64 && fence in w.issued
    requires g in w.repo.records ==> w.repo.records[g].fence > fence
    ensures var w' := Step(w, op);
            fence in w'.issued && (g in w'.repo.records ==> w'.repo.records[g].fence > fence)
  {
    hide Gapless, Placed, Filled, Traced;
    if g in w.repo.records {
      StepEvolves(w, op, g);
    }
  }

  lemma {:induction false} GoneStaysGone(w: World, ops: seq<Op>, fence: uint64, g: GenerationId)
    requires Inv(w) && ValidatedRun(w, ops) && w.repo.next + |ops| <= MAX_UINT64
    requires fence in w.issued
    requires g in w.repo.records ==> w.repo.records[g].fence > fence
    ensures var s := Run(w, ops).repo; g in s.records ==> s.records[g].fence > fence
    decreases ops
  {
    if ops != [] {
      StepKeepsInv(w, ops[0]);
      StepKeepsGone(w, ops[0], g, fence);
      GoneStaysGone(Step(w, ops[0]), ops[1..], fence, g);
    }
  }
}
