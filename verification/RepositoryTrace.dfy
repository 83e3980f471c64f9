/** The operations a repository has carried out, as one validated run, and what that says about later states. */
module RepositoryTrace {
  import opened Wrappers
  import opened Decimal
  import opened VaultTypes
  import opened RepositoryModel

  /** The repository after one operation. */
  function Apply(s: Repo, op: Op): Repo {
    match op
    case OpBegin(r, locator) => BeginStage(s, r, locator).0
    case OpComplete(r) => CompleteStage(s, r).0
    case OpAbort(r) => AbortStage(s, r).0
    case OpPublish(r) => Publish(s, r).0
    case OpQuarantine(g) => Quarantine(s, g).0
    case OpTombstone(r) => Tombstone(s, r).0
    case OpCompletePurge(r) => CompletePurge(s, r).0
  }

  /** A validated run from the empty repository leads to s. */
  ghost predicate Follows(trace: seq<Op>, s: Repo) {
    ValidatedRun(START, trace) && Run(START, trace).repo == s
  }

  /** The reservation behind a record was handed out in this run. */
  ghost predicate Reserved(trace: seq<Op>, record: GenerationRecord) {
    Holds(Run(START, trace), record)
  }

  /** What an operation of a record's holder needs to be validated. */
  ghost predicate Admitted(trace: seq<Op>, op: Op) {
    match op
    case OpBegin(r, _) => r.expectedGeneration != MAX_UINT64 && r.manifest.frameCount > 0
    case OpComplete(r) => Reserved(trace, r)
    case OpAbort(r) => Reserved(trace, r)
    case OpPublish(r) => r.manifest.generation != 0
    case _ => true
  }

  lemma {:induction false} RunSnoc(w: World, ops: seq<Op>, op: Op)
    requires ValidatedRun(w, ops) && Validated(Run(w, ops), op)
    ensures ValidatedRun(w, ops + [op]) && Run(w, ops + [op]) == Step(Run(w, ops), op)
    decreases ops
  {
    hide Step, Validated;
    if ops == [] {
      assert ops + [op] == [op] && [op][1..] == [];
    } else {
      assert (ops + [op])[1..] == ops[1..] + [op];
      RunSnoc(Step(w, ops[0]), ops[1..], op);
    }
  }

  /** One more operation, or one that was refused without effect, keeps a run validated. */
  lemma TraceGrows(trace: seq<Op>, s: Repo, op: Op, trace': seq<Op>, s': Repo)
    requires Follows(trace, s) && Admitted(trace, op)
    requires (trace' == trace + [op] && s' == Apply(s, op)) || (trace' == trace && s' == s)
    ensures Follows(trace', s') && trace <= trace'
    ensures !op.OpBegin? ==> forall r: GenerationRecord :: Reserved(trace, r) ==> Reserved(trace', r)
    ensures op.OpBegin? && trace' != trace && BeginStage(s, op.stage, op.locator).1.Ok? ==>
              var begun := BeginStage(s, op.stage, op.locator).1.value;
              !begun.duplicate ==> Reserved(trace', begun.record)
  {
    hide Run, ValidatedRun;
    if trace' != trace {
      RunSnoc(START, trace, op);
    }
  }

  lemma ReservedWithFrames(trace: seq<Op>, record: GenerationRecord, frames: seq<FrameRecord>)
    requires Reserved(trace, record)
    ensures Reserved(trace, record.(frames := frames))
  {
    hide Run;
  }

  lemma NothingFollows()
    ensures Follows([], EMPTY)
  {
  }

  /** When a trace has grown, the operations it grew by are a validated run from the world before. */
  lemma LaterIsARun(trace: seq<Op>, s: Repo, later: seq<Op>, s': Repo)
    requires Follows(trace, s) && Follows(later, s') && trace <= later
    ensures var w, ops := Run(START, trace), later[|trace|..];
            w.repo == s && ValidatedRun(w, ops) && Run(w, ops).repo == s'
  {
    hide Run, ValidatedRun;
    assert later == trace + later[|trace|..];
    RunConcat(START, trace, later[|trace|..]);
  }

  lemma SplitRun(trace: seq<Op>, later: seq<Op>)
    requires ValidatedRun(START, later) && trace <= later && |later| <= MAX_UINT64
    ensures var w, rest := Run(START, trace), later[|trace|..];
            && ValidatedRun(START, trace) && Inv(w) && ValidatedRun(w, rest) && Run(w, rest) == Run(START, later)
            && w.repo.next + |rest| <= MAX_UINT64
  {
    hide Run, ValidatedRun, Inv;
    assert later == trace + later[|trace|..];
    RunConcat(START, trace, later[|trace|..]);
    StartInv();
    FenceBound(START, trace);
    RunKeepsInv(START, trace);
  }

  /** Every state a validated run leads to keeps the repository's invariant. */
  lemma FollowsInv(trace: seq<Op>, s: Repo)
    requires Follows(trace, s) && |trace| <= MAX_UINT64
    ensures Run(START, trace).repo == s && Inv(Run(START, trace))
  {
    hide Run, ValidatedRun, Inv;
    StartInv();
    RunKeepsInv(START, trace);
  }

  /** Whatever operations follow, a quarantined generation stays as it is. */
  lemma QuarantinedFromThenOn(trace: seq<Op>, s: Repo, later: seq<Op>, s': Repo, g: GenerationId)
    requires Follows(trace, s) && Follows(later, s') && trace <= later && |later| <= MAX_UINT64
    requires g in s.records && s.records[g].status == StatusQuarantined
    ensures g in s'.records && s'.records[g] == s.records[g]
  {
    hide Run, ValidatedRun, Inv;
    SplitRun(trace, later);
    QuarantineIsTerminal(Run(START, trace), later[|trace|..], g);
  }

  /** A stage of a complete generation that has been quarantined is answered as a duplicate success: in this
      reachable state the record is quarantined and the repository still hands it out. */
  lemma QuarantinedDuplicateSucceeds(r: StageRequest, locator: string, frames: seq<FrameRecord>, again: string)
    requires r.expectedGeneration == 0 && r.manifest.generation == 1 && 0 < r.manifest.frameCount == |frames|
    ensures var record := GenerationRecord(r.manifest, locator, [], StatusStaged, 1);
            var ops := [OpBegin(r, locator), OpComplete(record.(frames := frames)), OpQuarantine(GenerationOf(r.manifest))];
            var s := Run(START, ops).repo;
            && ValidatedRun(START, ops)
            && BeginStage(s, r, again) ==
               (s, Ok(Begun(GenerationRecord(r.manifest, locator, frames, StatusQuarantined, 1), true)))
  {
    hide Run, ValidatedRun;
    var record := GenerationRecord(r.manifest, locator, [], StatusStaged, 1);
    var filled := record.(frames := frames);
    var g := GenerationOf(r.manifest);
    NoRun();
    RunSnoc(START, [], OpBegin(r, locator));
    assert [] + [OpBegin(r, locator)] == [OpBegin(r, locator)];
    RunSnoc(START, [OpBegin(r, locator)], OpComplete(filled));
    assert [OpBegin(r, locator)] + [OpComplete(filled)] == [OpBegin(r, locator), OpComplete(filled)];
    RunSnoc(START, [OpBegin(r, locator), OpComplete(filled)], OpQuarantine(g));
    assert [OpBegin(r, locator), OpComplete(filled)] + [OpQuarantine(g)] ==
           [OpBegin(r, locator), OpComplete(filled), OpQuarantine(g)];
  }

  /** A quarantine that reaches a tombstoned generation is carried out, and closes its purge. */
  lemma QuarantineClosesPurge(trace: seq<Op>, s: Repo, g: GenerationId, request: PurgeRequest)
    requires Follows(trace, s) && g in s.records && s.records[g].status == StatusTombstoned
    requires ArtifactId(request.tenant.value, request.artifact.value) == g.owner
    requires request.keyEpoch == s.records[g].manifest.keyEpoch
    ensures PreparePurge(s, request, g.generation).Ok?
    ensures Follows(trace + [OpQuarantine(g)], Quarantine(s, g).0)
    ensures PreparePurge(Quarantine(s, g).0, request, g.generation) == Err(VaultError.Tombstoned)
  {
    hide Run, ValidatedRun;
    TraceGrows(trace, s, OpQuarantine(g), trace + [OpQuarantine(g)], Quarantine(s, g).0);
  }

  /** Such a state is reached: for every first generation, begun, completed, published and tombstoned, the purge is
      admitted, and one quarantine later it is not. */
  lemma TombstonedThenQuarantined(r: StageRequest, locator: string, frames: seq<FrameRecord>, p: PublishRequest,
                                  t: TombstoneRequest, request: PurgeRequest)
    requires r.expectedGeneration == 0 && r.manifest.generation == 1 && 0 < r.manifest.frameCount == |frames|
    requires p.manifest == r.manifest && p.expectedGeneration == 0
    requires t.tenant == r.manifest.tenant && t.artifact == r.manifest.artifact && t.expectedGeneration == 1
    requires request.tenant == t.tenant && request.artifact == t.artifact && request.keyEpoch == r.manifest.keyEpoch
    ensures var record := GenerationRecord(r.manifest, locator, [], StatusStaged, 1);
            var ops := [OpBegin(r, locator), OpComplete(record.(frames := frames)), OpPublish(p), OpTombstone(t)];
            var more := ops + [OpQuarantine(GenerationOf(r.manifest))];
            && ValidatedRun(START, ops) && PreparePurge(Run(START, ops).repo, request, 1).Ok?
            && ValidatedRun(START, more) && PreparePurge(Run(START, more).repo, request, 1).Err?
  {
    hide Run, ValidatedRun;
    var record := GenerationRecord(r.manifest, locator, [], StatusStaged, 1);
    var filled := record.(frames := frames);
    var begun, completed := [OpBegin(r, locator)], [OpBegin(r, locator), OpComplete(filled)];
    var published := [OpBegin(r, locator), OpComplete(filled), OpPublish(p)];
    var ops := [OpBegin(r, locator), OpComplete(filled), OpPublish(p), OpTombstone(t)];
    NoRun();
    RunSnoc(START, [], OpBegin(r, locator));
    assert [] + [OpBegin(r, locator)] == begun;
    RunSnoc(START, begun, OpComplete(filled));
    assert begun + [OpComplete(filled)] == completed;
    RunSnoc(START, completed, OpPublish(p));
    assert completed + [OpPublish(p)] == published;
    RunSnoc(START, published, OpTombstone(t));
    assert published + [OpTombstone(t)] == ops;
    RunSnoc(START, ops, OpQuarantine(GenerationOf(r.manifest)));
  }

  lemma NoRun()
    ensures ValidatedRun(START, []) && Run(START, []) == START
  {
  }
}
