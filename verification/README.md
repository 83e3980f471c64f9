# Verified models of the code-memory services

A Dafny model of the parts of the repository whose correctness is hardest to see, with proofs of what they promise.
`dafny verify dfyconfig.toml` checks everything.

| component | modules |
|---|---|
| Artifact vault: framed, encrypted, generation-versioned objects over a compare-and-swap metadata repository | `Decimal`, `Composite`, `VaultTypes`, `FrameCrypto`, `KeyedMaps`, `RepositoryModel`, `RepositoryOutcomes`, `RepositoryTrace`, `Repository`, `VaultFrames`, `ObjectStore`, `Vault` |
| Chunking: token windows, block splitters, greedy packing with bounded carry-over, parents and children | `Tokens`, `Windows`, `ParentChild`, `Blocks`, `Packing`, `Structure` |
| Code index: full and incremental crawls, worker merge, the in-process cache | `CodeFacts`, `CodeIndex`, `Crawl`, `Delta`, `IndexCache` |
| Repository map: personalised PageRank over reals | `RealSums`, `PageRank`, `RepoMap` |
| Tracer: the run state machine of the authority process | `Fields`, `Tracer`, `TracerSteps`, `TracerHistory`, `TracerAnswers` |
| Audit hash chain | `Fields`, `AuditChain` |
| Text truncation on UTF-8 bytes | `TextBound` |
| Shared | `Wrappers`, `Contracts`, `Arithmetic` |

How the code's form carries over: objects that are updated in place are classes (`Repository.Repository`, `ObjectStore.ObjectStore`,
`Vault.Vault`, `CodeIndex.Index`, `CodeIndex.LocalIndex`, `Tracer.TracerPath`), loops are loops with invariants, a slice
written in place is an array (`ParentChild.AssignParents`), and code made of expressions is functions. Map iteration picks
its keys in any order. The cache, whose calls interleave, is a state machine over its steps.

What stands in for what the code calls:

- SHA-256, AEAD sealing, the key ring, lower-casing, symbol and edge extraction, gob decoding and the chat-turn pattern are
  function-valued parameters. Where a result needs a hash not to collide, the hypothesis speaks of the strings at hand: the
  objects the store holds against the envelopes they stand in for (`VaultFrames.Unforgeable`), the names of the frames of two
  records (`Vault.NamesApart`), the names of the frames of one reservation under the locator it was given
  (`Vault.DistinctFrames`, `Vault.Unused`), the links of two audit chains (`AuditChain.NoCollision`), the run materials of a
  history (`TracerHistory.MaterialsApart`), the bodies of one path (`Delta.Faithful`). Nothing assumes an injective hash.
- Storage, metadata and key lookups may fail at any call unless the `reliable` flag of the object is set. Safety clauses
  hold either way; clauses that promise success ask for the flag.
- Random bytes, worker scheduling and map order are arbitrary choices, so every result holds for all of them. The locator a
  stage draws is a parameter of it, so every result holds for each.
- The answers of the workflow compiler, its checks, the publication broker and the outcome admission are a parameter of each
  tracer command.

## What the proofs showed

- **Quarantine can close a purge for good.** The comment on `Quarantine` speaks of staged or published material, but the code
  quarantines tombstoned generations too: `RepositoryTrace.QuarantineClosesPurge` shows it in every reachable state with one, and
  `RepositoryTrace.TombstonedThenQuarantined` gives such a history. `RepositoryModel.PurgeableUnlessQuarantined`: a tombstoned
  generation stays purgeable under its key epoch exactly until a quarantine reaches it; from then on no run makes it purgeable
  again. The vault's own calls, one after the other, never do this: they quarantine only staged and published generations, and
  `Vault.Vault.PurgeableThroughout` proves that a tombstoned generation stays purgeable through any of them. It takes two calls
  that overlap.
- **A rollback is exact unless it reports that it failed.** `Vault.Vault.StageContent` restores records and objects whenever
  the error does not say that the rollback itself failed, and never fails that way over reliable storage.
- **A duplicate stage also succeeds on a quarantined generation**: `RepositoryTrace.QuarantinedDuplicateSucceeds` reaches such a
  state, and `Vault.Vault.StageContent` says that over reliable storage an equal, complete generation is answered as a duplicate
  whatever its status, because that is what the code checks.
- **Receipts with leading zeros resolve**: the code parses the generation of an operation identifier with a decimal parser
  that accepts them; `Vault.ResolveOperation` resolves to a generation exactly when the identifier names it in decimal.
- **Containment of children has an exact bound**: `ParentChild.ContainmentExact` says that every child of every document
  lies inside its parent if and only if the child target exceeds the parent overlap by at most the greatest common divisor of
  the two steps. The shipped policy meets it.
- **The overlap of packed chunks is not a promise**: neighbouring runs share less when the blocks needed exceed half the target
  or leave no room for the next block, and then `Packing.CarriesOver` says exactly where the next one starts
  (`Packing.OverlapIsHonoured`, `Structure.StructureSpans`).
- **A delta crawl can keep a file that a clean crawl drops**: one made unreadable without a change of size or modification time
  (`Delta.UnreadableStays`). `Delta.DeltaAgreesWithClean` proves that the two indexes are equal exactly when there is no such file,
  whichever crawl built the earlier index; `Delta.DeltaAfterFullCrawl` says it of a full crawl followed by an incremental one.
- **A full crawl has fewer names than a delta crawl**: `Crawl.FoldedNames` says exactly when the lower-cased names the delta crawl
  adds make a difference.
- **The cache is exact if and only if identities are not reused**: `IndexCache.ServedIffNoReuse`. Its entries are traceable either
  way (`IndexCache.RunInv`).
- **Rank is conserved if and only if every search hit is an indexed file**: `RepoMap.RepoRank`.
- **A tracer run can move backwards**, so its guarantees are about provenance, not about the order of states. A command takes a
  run back exactly when it ingests the pinned manifest after the run was ready, or plans after it was planned, because neither
  step looks at the state (`TracerHistory.BackwardsExactly`, with a history in `TracerHistory.CompleteRunsGoBack`).
- **A failed step can change its run**: exactly when a question of an unknown kind is asked where questions are taken, which sets
  the variant, ticks the watermark and binds the key, or when an intent, a draft or an outcome under a new key is refused only
  after the key was remembered (`TracerHistory.FailuresChangeExactly`; `TracerHistory.FailureLeaves` gives the run that results).
- **A draft need not follow from the last answer**: `TracerAnswers.StaleDraft` is a history that ingests again, is answered that
  the span is revoked, and still publishes a draft. `TracerAnswers.DraftsFromTheLastAnswer` proves that the last answer was the
  authorised one exactly when the run's variant is, unless a question of an unknown kind has overwritten the variant; then
  nothing the run records can tell (`TracerAnswers.UnknownTellsNothing`).
- **A bound key can still succeed for another step, in one case**: an outcome of a complete run is answered again without a look
  at its key. `TracerHistory.BoundKeyStillReplays` gives a history, and `TracerHistory.KeysAreNeverRebound` proves that this is the
  only case.
- **NUL characters matter**: run identifiers and audit digests join fields with NULs. Fields can be told from their joined text
  exactly when none of them holds a NUL (`Fields.DeterminedIffPlain`), hence principals and keys from the material of their run
  identifier (`TracerHistory.RunMaterialDetermines`). For the audit chain, whose numbers and non-empty fields rule some twins out,
  chains without NULs are determined (`AuditChain.TamperEvident`) and one family with NULs is shown not to be
  (`AuditChain.NulHidesTampering`).
- **The ellipsis is not always there**: the comment on `Ellipsis` promises a mark whenever anything was removed; for limits of
  one to three bytes the code cuts without one, and `TextBound.Ellipsis` states which happens when.

## Model

| member | source | states |
|---|---|---|
| `Composite.EncodeComposite` | services/brain/internal/artifactvault/composite.go:8-16 | the builder loop produces the encoding of the whole part list |
| `Composite.UniqueDecoding` | services/brain/internal/artifactvault/composite.go:8-16 | two part lists of any lengths with equal encodings are equal |
| `Composite.ReadFrontOfEncode` | services/brain/internal/artifactvault/composite.go:21-33 | one turn of the decoding loop on a canonical encoding reads exactly its first part and leaves the encoding of the rest |
| `Composite.DecodeComposite` | services/brain/internal/artifactvault/composite.go:18-38 | decoding succeeds if and only if the string is the canonical encoding of that many parts, and then returns them |
| `Decimal.ParseUintOfFormat` | services/brain/internal/artifactvault/metadata.go:217-219 | parsing a formatted 64-bit number gives it back |
| `Decimal.FormatInjective` | services/brain/internal/artifactvault/metadata.go:217-219 | different numbers have different decimal forms |
| `VaultTypes.ArtifactKeyInjective` | services/brain/internal/artifactvault/metadata.go:200-202 | artifacts with equal map keys are equal |
| `VaultTypes.GenerationKeyInjective` | services/brain/internal/artifactvault/metadata.go:204-206 | generations with equal map keys are equal |
| `VaultTypes.ObjectPreimageInjective` | services/brain/internal/artifactvault/localstore.go:223-232 | equal object-name preimages mean equal tenant, artifact, generation, locator and frame |
| `VaultTypes.FrameAadInjective` | services/brain/internal/artifactvault/crypto.go:101-110 | equal additional data means equal tenant, artifact, generation, locator and frame |
| `FrameCrypto.BigEndianRoundTrip` | services/brain/internal/artifactvault/crypto.go:21-87 | the fixed-width integers of an envelope header read back as written |
| `FrameCrypto.DecryptOfEncrypt` | services/brain/internal/artifactvault/crypto.go:21-87 | a sealed envelope has the right size and opens to the plaintext under its own record and frame, and to an error whenever a bound field differs |
| `FrameCrypto.DecryptIffSameFrame` | services/brain/internal/artifactvault/crypto.go:60-110 | a sealed frame opens if and only if it is read under the tuple it was sealed for |
| `FrameCrypto.EnvelopeLayout` | services/brain/internal/artifactvault/crypto.go:21-58 | the envelope is magic, key epoch, length, wrap nonce, wrapped key, data nonce and content, with both layers sealed under the data of the frame |
| `FrameCrypto.BothLayersAreBound` | services/brain/internal/artifactvault/crypto.go:60-99 | an envelope whose key or whose content was sealed for another frame does not open |
| `KeyedMaps.Update` | services/brain/internal/artifactvault/metadata.go:30-198 | updating a string-keyed map at an injective key is updating the tuple-keyed map it stands for |
| `KeyedMaps.Remove` | services/brain/internal/artifactvault/metadata.go:71-84 | deleting from a string-keyed map is deleting from the tuple-keyed map it stands for |
| `Repository.Repository.BeginStage` | services/brain/internal/artifactvault/metadata.go:30-51 | reserving refines the tuple-keyed transition: same result, same new state under the string keys, or a fault without effect |
| `Repository.Repository.CompleteStage` | services/brain/internal/artifactvault/metadata.go:54-68 | completing a reservation refines the tuple-keyed transition |
| `Repository.Repository.AbortStage` | services/brain/internal/artifactvault/metadata.go:71-84 | aborting a reservation refines the tuple-keyed transition |
| `Repository.Repository.Get` | services/brain/internal/artifactvault/metadata.go:87-95 | a lookup finds exactly the record of that tenant, artifact and generation |
| `Repository.Repository.Publish` | services/brain/internal/artifactvault/metadata.go:98-126 | publication refines the tuple-keyed compare-and-swap |
| `Repository.Repository.Quarantine` | services/brain/internal/artifactvault/metadata.go:129-143 | quarantining refines the tuple-keyed transition |
| `Repository.Repository.Tombstone` | services/brain/internal/artifactvault/metadata.go:146-167 | tombstoning refines the tuple-keyed transition, a repeated tombstone included |
| `Repository.Repository.PreparePurge` | services/brain/internal/artifactvault/metadata.go:170-178 | purge preparation answers as the tuple-keyed model does and changes nothing |
| `Repository.Repository.CompletePurge` | services/brain/internal/artifactvault/metadata.go:181-198 | completing a purge refines the tuple-keyed transition |
| `RepositoryModel.RunKeepsInv` | services/brain/internal/artifactvault/metadata.go:30-198 | every run of validated operations keeps placement, filling, gaplessness and the link from records to reservations |
| `RepositoryModel.GenerationsAreGapless` | services/brain/internal/artifactvault/metadata.go:30-198 | in every reachable state generations up to the pointer exist and are not staged, only the next may be staged or quarantined, and nothing lies beyond |
| `RepositoryModel.SettledIsImmutable` | services/brain/internal/artifactvault/metadata.go:98-198 | a generation that has left the staged state is never removed and its manifest, frames, locator and fence never change |
| `RepositoryModel.NeverPublishedAgain` | services/brain/internal/artifactvault/metadata.go:98-167 | a generation that was published and is no longer is never published again in any run |
| `RepositoryModel.QuarantineIsTerminal` | services/brain/internal/artifactvault/metadata.go:129-143 | a quarantined generation stays quarantined, unaltered, in every later state |
| `RepositoryModel.PurgeableUnlessQuarantined` | services/brain/internal/artifactvault/metadata.go:129-198 | after a tombstone, in every later state, a purge under the key epoch is admitted if and only if the generation has not been quarantined |
| `RepositoryModel.FencesAreFresh` | services/brain/internal/artifactvault/metadata.go:30-51 | reservations keep their fences and later reservations get larger ones |
| `RepositoryModel.StaleReservationIsInert` | services/brain/internal/artifactvault/metadata.go:54-84 | once a reservation has gone, completing or aborting it changes nothing in any later state |
| `RepositoryModel.GoneStaysGone` | services/brain/internal/artifactvault/metadata.go:47-84 | no later record ever carries the fence of a reservation that has gone |
| `RepositoryOutcomes.BeginExactly` | services/brain/internal/artifactvault/metadata.go:30-51 | a reservation is made exactly for the next generation while there is no record of it; an equal complete record is handed out again; stale and conflicting requests are told apart and change nothing |
| `RepositoryOutcomes.CompleteExactly` | services/brain/internal/artifactvault/metadata.go:54-68 | frames are recorded exactly under the fence of a staged reservation and with the full count, and which error says what is missing |
| `RepositoryOutcomes.AbortExactly` | services/brain/internal/artifactvault/metadata.go:71-84 | a reservation is given up exactly while staged and empty under its own fence, and giving up one that is gone succeeds |
| `RepositoryOutcomes.PublishExactly` | services/brain/internal/artifactvault/metadata.go:98-126 | success if and only if a complete staged record of the manifest is next in line, which becomes current, or it is the current published one, which stays as it is |
| `RepositoryOutcomes.QuarantineExactly` | services/brain/internal/artifactvault/metadata.go:129-143 | everything there is but the purged can be quarantined, with nothing else changed |
| `RepositoryOutcomes.TombstoneExactly` | services/brain/internal/artifactvault/metadata.go:146-167 | success if and only if the generation is current and published or tombstoned; on a tombstoned one nothing changes and the record is returned again |
| `RepositoryOutcomes.PreparePurgeExactly` | services/brain/internal/artifactvault/metadata.go:170-178 | a purge is admitted if and only if the generation is tombstoned or purged, under its key epoch |
| `RepositoryOutcomes.CompletePurgeExactly` | services/brain/internal/artifactvault/metadata.go:181-198 | a purge is completed if and only if the generation is tombstoned or purged, under its fence |
| `RepositoryOutcomes.AskingAgain` | services/brain/internal/artifactvault/metadata.go:98-198 | repeating a publication, a tombstone or the end of a purge gives the same answer and changes nothing |
| `RepositoryOutcomes.ReservationLifecycle` | services/brain/internal/artifactvault/metadata.go:30-84 | a reservation keeps others out until its frames are recorded, is handed out as a duplicate afterwards, and given up before leaves room for one with a new fence |
| `RepositoryTrace.TraceGrows` | services/brain/internal/artifactvault/metadata.go:30-198 | carrying out an admitted operation, or having it refused without effect, keeps the state one that a validated run leads to |
| `RepositoryTrace.LaterIsARun` | services/brain/internal/artifactvault/metadata.go:30-198 | the operations a vault call adds to the trace are a validated run from the world before the call to the one after |
| `RepositoryTrace.FollowsInv` | services/brain/internal/artifactvault/metadata.go:30-198 | every state a vault has led its repository to keeps the invariant of runs |
| `RepositoryTrace.QuarantinedFromThenOn` | services/brain/internal/artifactvault/metadata.go:129-143 | whatever operations follow, a quarantined generation stays as it is |
| `RepositoryTrace.QuarantinedDuplicateSucceeds` | services/brain/internal/artifactvault/metadata.go:30-51 | for every first generation: begun, completed and quarantined, it is still handed out as a duplicate success |
| `RepositoryTrace.QuarantineClosesPurge` | services/brain/internal/artifactvault/metadata.go:128-178 | in every reachable state a tombstoned generation can be purged under its key epoch and can also be quarantined, and then it can no longer be purged |
| `RepositoryTrace.TombstonedThenQuarantined` | services/brain/internal/artifactvault/metadata.go:30-178 | for every first generation: begun, completed, published and tombstoned, its purge is admitted; quarantined after that, it is refused |
| `VaultFrames.FramesPartition` | services/brain/internal/artifactvault/vault.go:374-386 | the ceiling division in 64-bit arithmetic yields frames that are non-empty, adjoin, end at the length and never overflow |
| `VaultFrames.ChecksExactly` | services/brain/internal/artifactvault/vault.go:367-405 | which reads and stages pass the request checks: namespaces, identifier lengths, ranges, digest form, generation and frame count as the ceiling of length over frame size |
| `VaultFrames.FrameReadsBack` | services/brain/internal/artifactvault/vault.go:338-348 | for any store content without a collision, a frame that reads at all reads as its stretch of the staged content, and from an intact store it does read |
| `VaultFrames.StoredIsUnforgeable` | services/brain/internal/artifactvault/crypto.go:117-126 | a store that holds the envelopes holds no collision with them |
| `ObjectStore.ObjectStore.PutIfAbsent` | services/brain/internal/artifactvault/localstore.go:71-132 | a put creates the object, or leaves an equal one alone, or conflicts with a different one, and never overwrites |
| `ObjectStore.ObjectStore.Read` | services/brain/internal/artifactvault/localstore.go:134-158 | a read returns exactly what is stored under the key, or fails |
| `ObjectStore.ObjectStore.Delete` | services/brain/internal/artifactvault/localstore.go:160-183 | a successful delete leaves exactly the other objects, an absent one counting as deleted, and a failed one removes at most that object |
| `Vault.Vault.StageFrames` | services/brain/internal/artifactvault/vault.go:92-119 | the frame loop writes sealed frames that partition the content, creating only their objects |
| `Vault.Vault.Abort` | services/brain/internal/artifactvault/vault.go:70-90 | rolling back removes exactly what the stage created and the reservation, or reports that it could not |
| `Vault.Vault.StageContent` | services/brain/internal/artifactvault/vault.go:56-133 | all or nothing: a complete staged record with every envelope stored, or records and objects exactly as before unless the rollback failed; when nothing fails and no object name of this reservation is taken or taken twice, it goes through exactly if the stream delivers the manifest, and otherwise says whether content is incomplete or corrupt; an equal complete generation is a duplicate whatever its status; each early refusal has its cause; only validated operations reach the repository |
| `Vault.Vault.ReadFrame` | services/brain/internal/artifactvault/vault.go:338-348 | a frame read returns the frame decrypted from what the store holds under its key, after the digest check |
| `Vault.Vault.HydrateFrames` | services/brain/internal/artifactvault/vault.go:195-220 | for any store content without a collision, in particular an intact one, the loop returns exactly the requested stretch, with the digests of the frames it met, or fails; the length check after it cannot fail |
| `Vault.Vault.ResolveForRead` | services/brain/internal/artifactvault/vault.go:350-357 | the root key of the epoch, or a quarantined generation |
| `Vault.Vault.HydrateRange` | services/brain/internal/artifactvault/vault.go:178-223 | success returns exactly the staged slice and the next offset, within the read limit, for any store content without a collision; any failure past the checks quarantines; only published generations are read, and the error says why another is not; an intact store reads |
| `Vault.Vault.ReadAfterFailure` | services/brain/internal/artifactvault/vault.go:200-216 | after a read that passed its checks has failed, no later read of the generation succeeds, whatever stages, publications, reads, tombstones and purges come in between |
| `Vault.Vault.StagedContentLasts` | services/brain/internal/artifactvault/vault.go:56-223 | whatever calls follow a stage, a read of that generation that succeeds returns the content staged at first, for any store content without a collision |
| `Vault.Vault.ServeAll` | services/brain/internal/artifactvault/vault.go:56-299 | through any calls of every kind no generation is lost or loses its manifest, none leaves tombstoned or purged for anything else, and the content behind each is kept |
| `Vault.Vault.VerifyGeneration` | services/brain/internal/artifactvault/vault.go:307-336 | success means that what the store holds reads as content of the manifest's length and digest and, without a collision, that it still holds every envelope as sealed; failure quarantines; an intact store verifies |
| `Vault.Vault.Publish` | services/brain/internal/artifactvault/vault.go:152-174 | publishes exactly a complete, verified record of the same manifest that is next in line, answers again for the current published one, and otherwise at most quarantines it, and that only if it was staged or published |
| `Vault.Vault.StagePublishHydrate` | services/brain/internal/artifactvault/vault.go:56-223 | for every content, frame size, range and locator under which no object name is taken or taken twice: staging, publishing and reading returns exactly that slice when nothing fails |
| `Vault.Vault.Tombstone` | services/brain/internal/artifactvault/vault.go:254-264 | over a reliable repository succeeds if and only if the request is well-formed and names the current generation while it is published or tombstoned already; leaves it tombstoned and nothing else changed, with a receipt that names it |
| `Vault.ResolveOperation` | services/brain/internal/artifactvault/vault.go:268-299 | an identifier resolves to a generation if and only if it is the canonical pair of the artifact and a decimal form of it |
| `Vault.OperationNames` | services/brain/internal/artifactvault/vault.go:417-422 | the identifier a receipt carries names its generation |
| `Vault.FrameKeysDisjoint` | services/brain/internal/artifactvault/localstore.go:223-232 | different generations, or different reservations of one, share no object |
| `Vault.Vault.Purge` | services/brain/internal/artifactvault/vault.go:268-299 | acts on the one generation the receipt names, removes exactly its objects, spares every other generation's, marks it purged only after all are gone, and over reliable storage succeeds if and only if the generation is tombstoned or purged under that key epoch |
| `Vault.Vault.RetryPurge` | services/brain/internal/artifactvault/vault.go:268-299 | any number of attempts with one receipt, each failing at any point, has the effect of a single purge, complete if the last succeeds |
| `Vault.PurgeAfterFailure` | services/brain/internal/artifactvault/vault.go:280-299 | a purge that follows a failed one has, with it, the effect of one purge |
| `Vault.PurgeSparesOthers` | services/brain/internal/artifactvault/vault.go:280-299 | a generation whose objects were all stored still has them after a purge of another |
| `Vault.Vault.TombstoneThenPurge` | services/brain/internal/artifactvault/vault.go:254-299 | the receipt of a tombstone with the matching key epoch purges exactly that generation, and nothing else changes |
| `Vault.Vault.PurgeableThroughout` | services/brain/internal/artifactvault/vault.go:152-299 | through any calls a tombstoned generation stays purgeable under its key epoch |
| `Tokens.Tokenize` | services/brain/internal/chunking/tokens.go:24-43 | the loop yields the tokens of the text |
| `Tokens.TokenizedAreTheRuns` | services/brain/internal/chunking/tokens.go:24-43 | the tokens are exactly the maximal runs of non-space characters, in order and apart |
| `Tokens.TokensOfSubstring` | services/brain/internal/chunking/tokens.go:24-48 | tokens of a stretch that cuts no token are those of the text, shifted |
| `Windows.FixedSpans` | services/brain/internal/chunking/chunk.go:177-207 | windows start at multiples of the step, hold the target number of tokens save the last, and number exactly what covers the source |
| `Windows.ClampIsNearest` | services/brain/internal/chunking/chunk.go:177-190 | an overlap that fits is kept, and one that does not becomes the nearest that leaves a step of at least one |
| `Windows.WindowsCover` | services/brain/internal/chunking/chunk.go:177-207 | every token lies in some window |
| `Windows.WindowsShare` | services/brain/internal/chunking/chunk.go:177-207 | consecutive windows share exactly the overlap |
| `Windows.LastWindowEnds` | services/brain/internal/chunking/chunk.go:177-207 | the last window ends at the last token |
| `Windows.ReceiptsFor` | services/brain/internal/chunking/chunk.go:109-147 | the receipt loop yields the receipts of the spans that hold tokens, numbered in order |
| `Windows.OneReceiptEach` | services/brain/internal/chunking/chunk.go:109-147 | spans that all hold tokens get one receipt each, in order |
| `Windows.RetokenizeWindow` | services/brain/internal/chunking/chunk.go:109-147 | re-tokenizing the text of a window gives its tokens back, shifted |
| `Windows.WindowReceipt` | services/brain/internal/chunking/chunk.go:109-147 | the receipt of a window has its offsets, its text and its token count |
| `ParentChild.AssignParents` | services/brain/internal/chunking/chunk.go:151-173 | in place, every child gets the earliest parent of largest positive overlap, or keeps what it had if none overlaps |
| `ParentChild.BestContainsIffAnyDoes` | services/brain/internal/chunking/chunk.go:151-173 | the parent of largest overlap contains the child if and only if some parent does |
| `ParentChild.ContainmentExact` | services/brain/internal/chunking/chunk.go:93-100 | children of every document are contained if and only if the child target exceeds the parent overlap by at most the gcd of the steps |
| `ParentChild.DividingStepsContain` | services/brain/internal/chunking/chunk.go:93-100 | a child step that divides the parent step and a child overlap no larger than the parent's give containment |
| `ParentChild.AssignedParentContains` | services/brain/internal/chunking/chunk.go:151-207 | the assigned parent contains the child if and only if some parent window holds its tokens |
| `ParentChild.ShippedPolicyContains` | services/brain/internal/chunking/policy.go:156-165 | under the shipped sizes every child of every source lies inside its assigned parent |
| `ParentChild.ParentChildReceipts` | services/brain/internal/chunking/chunk.go:93-100 | one receipt per window; a child receipt lies inside the parent receipt it is assigned if and only if some parent window holds its tokens, and all do within the exact bound |
| `Blocks.LineSpans` | services/brain/internal/chunking/chunk.go:341-354 | the lines tile the source between newlines |
| `Blocks.LinesAreUnique` | services/brain/internal/chunking/chunk.go:341-354 | a source has one division into lines, so the lines a result speaks of are determined by the source |
| `Blocks.ProseBlocks` | services/brain/internal/chunking/chunk.go:358-381 | the loop groups lines by the prose rule |
| `Blocks.CodeBlocks` | services/brain/internal/chunking/chunk.go:385-422 | the loop groups lines by the code rule, its flag being the parity of fences |
| `Blocks.TableBlocks` | services/brain/internal/chunking/chunk.go:426-452 | the loop groups lines by the table rule |
| `Blocks.SlideBlocks` | services/brain/internal/chunking/chunk.go:458-481 | the loop groups lines by the slide rule |
| `Blocks.ChatBlocks` | services/brain/internal/chunking/chunk.go:488-512 | the loop groups lines by the chat rule |
| `Blocks.SplitBlocks` | services/brain/internal/chunking/chunk.go:324-338 | the blocks of a source are the groups of its lines under the rule of its kind |
| `Blocks.BlocksAreRanges` | services/brain/internal/chunking/chunk.go:358-512 | blocks are ranges of lines, in order and apart, holding exactly the lines that are members |
| `Blocks.NeighboursTogether` | services/brain/internal/chunking/chunk.go:358-512 | neighbouring member lines share a block if and only if the first does not close one and the second does not open one |
| `Blocks.TogetherExactly` | services/brain/internal/chunking/chunk.go:358-512 | any two member lines share a block if and only if no cut falls between them |
| `Blocks.ProseTogether` | services/brain/internal/chunking/chunk.go:356-381 | two lines of prose share a block if and only if no later line up to the second is blank or a heading |
| `Blocks.ChatTogether` | services/brain/internal/chunking/chunk.go:486-512 | two lines of a chat share a block if and only if no later line up to the second is blank or opens a turn |
| `Blocks.TableTogether` | services/brain/internal/chunking/chunk.go:424-452 | two lines of a table source share a block if and only if no later line is blank and all are rows or none is |
| `Blocks.SlidesTogether` | services/brain/internal/chunking/chunk.go:454-481 | two lines of slides share a block if and only if no rule of three or more dashes stands between them, whatever blank lines do |
| `Blocks.CodeTogether` | services/brain/internal/chunking/chunk.go:383-422 | two lines of code share a block if and only if every later line is inside a fence, or neither blank nor a fence nor right after one |
| `Blocks.LinesInBlocks` | services/brain/internal/chunking/chunk.go:358-512 | the lines that lie in blocks are all but the blank ones outside fences and the rules between slides |
| `Blocks.BlocksEndInText` | services/brain/internal/chunking/chunk.go:358-512 | no block begins or ends with a blank line, but inside a fence |
| `Blocks.TrimExact` | services/brain/internal/chunking/chunk.go:368-369 | trimming removes exactly the white space at both ends |
| `Blocks.FencesStayWhole` | services/brain/internal/chunking/chunk.go:383-422 | no cut falls inside a fence, closed or not |
| `Blocks.RowsStayTogether` | services/brain/internal/chunking/chunk.go:424-452 | neighbouring non-blank lines share a block if and only if both are table rows or neither is |
| `Blocks.HeadingsTravelOn` | services/brain/internal/chunking/chunk.go:356-381 | neighbouring non-blank prose lines part exactly before a heading |
| `Blocks.TurnsStayWhole` | services/brain/internal/chunking/chunk.go:486-512 | neighbouring non-blank chat lines part exactly before a speaker turn |
| `Packing.WindowPieces` | services/brain/internal/chunking/chunk.go:218-230 | a block over the target is cut into advancing windows of at most the target that cover its tokens, neighbours sharing exactly the clamped overlap |
| `Packing.RowPieces` | services/brain/internal/chunking/chunk.go:218-242 | an oversized table is packed row by row, again covering its tokens, with no row within the target torn and neighbours sharing rows as blocks do, at most the clamped overlap or half the target |
| `Packing.Fill` | services/brain/internal/chunking/chunk.go:276-283 | the inner loop takes the longest run of small blocks within the target |
| `Packing.Restart` | services/brain/internal/chunking/chunk.go:288-302 | the next run starts at the fewest trailing blocks worth the overlap, at all but the first block if those are worth less, and after the run if the blocks needed exceed half the target |
| `Packing.RestartIsUnique` | services/brain/internal/chunking/chunk.go:288-302 | that condition determines the block |
| `Packing.OverlapIsHonoured` | services/brain/internal/chunking/chunk.go:288-302 | neighbouring runs share blocks worth the overlap, or all but the first block, unless those exceed half the target or leave no room for the next block |
| `Packing.PackBlocks` | services/brain/internal/chunking/chunk.go:252-305 | every token-bearing block is covered, every chunk is a full run or a piece of an oversized block, and each follows the last with exactly the carry-over the overlap asks for; terminates |
| `Packing.DedupeChained` | services/brain/internal/chunking/chunk.go:309-321 | dropping contained spans leaves a strictly advancing chain that still carries over what the overlap asks for |
| `Packing.DedupeLapping` | services/brain/internal/chunking/chunk.go:309-321 | dropping contained spans leaves pieces of one block with the sharing they had |
| `Packing.RunSize` | services/brain/internal/chunking/chunk.go:252-305 | the token count of a chunk is that of its blocks plus the tokens between them |
| `Packing.ChunksAdvance` | services/brain/internal/chunking/chunk.go:252-321 | starts and ends strictly increase |
| `Packing.SmallBlocksWhole` | services/brain/internal/chunking/chunk.go:252-305 | no chunk tears a block that fits the target |
| `Structure.GapWords` | services/brain/internal/chunking/chunk.go:324-512 | the tokens between two blocks are one for each separator line between them |
| `Structure.StrayBound` | services/brain/internal/chunking/chunk.go:252-305 | the tokens between the blocks of a chunk are at most its separator lines |
| `Structure.StructureSpans` | services/brain/internal/chunking/chunk.go:210-321 | nothing but space and separator lines is lost, chunks strictly advance, sizes are within the target (plus enclosed separators), neighbouring runs share what the overlap asks for and at most half the target, pieces of one oversized block the clamped overlap (of a table, rows as blocks do), small blocks and small rows of large tables stay whole |
| `Structure.StructureReceipts` | services/brain/internal/chunking/chunk.go:69-147 | one receipt per chunk from its first to its last token, with exact text and count, at most the target for all but slides, and between them every character but space and separator lines |
| `CodeFacts.IndexIsUnique` | services/brain/internal/codecrawl/types.go:8-49 | two indexes of the same files are equal in every map |
| `CodeFacts.NoEmptyLists` | services/brain/internal/codecrawl/crawl.go:84-120 | a file has a list of definitions, references, imports or edges if and only if it has any |
| `CodeIndex.LocalIndex.Add` | services/brain/internal/codecrawl/crawl.go:84-120 | a new file's row is exactly its facts, no other row changes, and the inverted index stays the transpose |
| `CodeIndex.LocalIndex.MergeInto` | services/brain/internal/codecrawl/crawl.go:123-197 | merging disjoint shares yields the index of both: per-file maps, inverted index and symbol graph |
| `CodeIndex.MergePostings` | services/brain/internal/codecrawl/crawl.go:151-158 | the nested loop unites the cells of two inverted indexes that share none |
| `CodeIndex.Transpose` | services/brain/internal/codecrawl/delta.go:396-405 | the rebuilt inverted index is the exact transpose of the per-file postings |
| `CodeIndex.IndexNames` | services/brain/internal/codecrawl/delta.go:406-424 | a name maps to exactly the files whose lists hold it or a name that folds to it |
| `CodeIndex.IndexImports` | services/brain/internal/codecrawl/symbol.go:63-77 | a file maps to exactly its non-empty imports |
| `CodeIndex.Index.RebuildGlobal` | services/brain/internal/codecrawl/delta.go:391-430 | from correct per-file maps, the whole index is the index of those files |
| `Crawl.IndexInParallel` | services/brain/internal/codecrawl/crawl.go:298-337 | whichever worker receives which file, the merged result is the index of all the files |
| `Crawl.CrawlDir` | services/brain/internal/codecrawl/crawl.go:250-349 | a full crawl indexes exactly the readable files within the file bound, for any number of workers, counting each path once |
| `Crawl.CrawlsAgree` | services/brain/internal/codecrawl/crawl.go:250-349 | any two full crawls of a tree give the same index, whose inverted index is the transpose of its postings |
| `Crawl.FoldedNames` | services/brain/internal/codecrawl/delta.go:406-424 | a graph without lower-cased names is part of the one with them, and equal if and only if every file already lists the lower-cased forms |
| `Delta.LiveIsClean` | services/brain/internal/codecrawl/delta.go:92-144 | after any earlier crawl, the files indexed are those of a clean crawl if and only if no file became unreadable under an unchanged stamp |
| `Delta.UnreadableStays` | services/brain/internal/codecrawl/delta.go:103-124 | a file made unreadable under its old stamp stays indexed with its old body |
| `Delta.Inspect` | services/brain/internal/codecrawl/delta.go:92-144 | a path is reused if and only if its stamp, or the hash on record, is unchanged, and otherwise read or skipped; its item always describes the live file |
| `Delta.Survey` | services/brain/internal/codecrawl/delta.go:82-144 | the items are the live files, one each, and exactly the unchanged ones count as reused, those with an unchanged stamp apart |
| `Delta.Prune` | services/brain/internal/codecrawl/delta.go:370-388 | exactly the files that are no longer live go, from every per-file map |
| `Delta.CopyFileFrom` | services/brain/internal/codecrawl/delta.go:288-332 | one file's rows are copied with the new hash and stamp, and nothing else changes |
| `Delta.ReuseAll` | services/brain/internal/codecrawl/delta.go:147-181 | the fast path yields the index of the live files |
| `Delta.Reindex` | services/brain/internal/codecrawl/delta.go:183-251 | the three-phase path yields the index of the live files |
| `Delta.CrawlDeltaFrom` | services/brain/internal/codecrawl/delta.go:33-270 | after any earlier crawl, on both paths, the result is the index of the live files, can serve as the next previous index, every path is counted once, and exactly the files with an unchanged stamp or hash count as reused |
| `Delta.DeltaAgreesWithClean` | services/brain/internal/codecrawl/delta.go:33-270 | a delta crawl after any earlier crawl, full or incremental, and a clean crawl are equal in every map if and only if no file became unreadable under an unchanged stamp |
| `Delta.DeltaAfterFullCrawl` | services/brain/internal/codecrawl/persist.go:343-371 | a full crawl followed by a delta crawl gives what a clean crawl gives if and only if no file the full crawl indexed became unreadable under an unchanged stamp |
| `IndexCache.RunInv` | services/brain/internal/codecrawl/index_cache.go:55-97 | every interleaving keeps each entry traceable to a stat, a load and a re-stat that saw one identity |
| `IndexCache.RunServed` | services/brain/internal/codecrawl/index_cache.go:55-97 | without reuse of identities, every interleaving serves each call the decoding of a version current during it |
| `IndexCache.FreshIdentitiesServe` | services/brain/internal/codecrawl/index_cache.go:55-97 | identities never used before are enough for that, for any number of readers |
| `IndexCache.EntriesMatchIdentity` | services/brain/internal/codecrawl/index_cache.go:55-97 | with fresh identities, an entry is the decoding of the version that bears its identity, in every interleaving |
| `IndexCache.ServedIffNoReuse` | services/brain/internal/codecrawl/index_cache.go:55-97 | every call of every interleaving returns the decoding of a version current during the call if and only if no file comes back to an identity with different contents in between |
| `IndexCache.StaleHit` | services/brain/internal/codecrawl/index_cache.go:66-88 | whenever an identity comes back that way, some interleaving serves a version that was never current during the call |
| `IndexCache.InvalidatedIsLoaded` | services/brain/internal/codecrawl/index_cache.go:66-97 | from an invalidation until the next insertion every lookup of the path goes on to load the file |
| `RepoMap.BuildLinks` | services/brain/internal/codecrawl/repomap.go:63-102 | two files are linked if and only if they are different, indexed, and share a name across definition and reference or are joined by a typed edge |
| `RepoMap.Personalise` | services/brain/internal/codecrawl/repomap.go:103-126 | a file's weight is its share of the total weight of the hits, or uniform without hits |
| `RepoMap.PersonalSumsToOne` | services/brain/internal/codecrawl/repomap.go:103-126 | the weights of the files sum to one if and only if every hit is an indexed file |
| `RepoMap.Step` | services/brain/internal/codecrawl/repomap.go:131-150 | the loops of one iteration compute one well-defined linear map of the rank |
| `RepoMap.RankFiles` | services/brain/internal/codecrawl/repomap.go:127-150 | the ranks are the iterates of that map from the uniform start |
| `RepoMap.RepoRank` | services/brain/internal/codecrawl/repomap.go:36-150 | the ranks are the iterates, 1 to 32 and 8 by default, from equal ranks over the graph whose links are shared names and typed edges and whose personalisation is the hits' share; none is negative, they sum to at most one, and to one if and only if every hit is an indexed file; files that share a name outrank their personalisation, and a file without links and hits has none |
| `RepoMap.LinkedFilesGain` | services/brain/internal/codecrawl/repomap.go:131-150 | every file that links to a file adds its part of the damped rank to it |
| `RepoMap.SharersOutrank` | services/brain/internal/codecrawl/repomap.go:131-150 | two files that link to each other keep a positive rank above their personalisation in every iteration |
| `RepoMap.UnlinkedFollowsPersonal` | services/brain/internal/codecrawl/repomap.go:131-150 | a file nothing links to is ranked in proportion to its personalisation |
| `RepoMap.TwoFiles` | services/brain/internal/codecrawl/repomap.go:36-150 | two files joined by one name with a hit on the first rank 0.575 and 0.425 after one iteration |
| `RepoMap.MassIsLost` | services/brain/internal/codecrawl/repomap.go:131-150 | with less than the whole personalisation, rank is lost in the first iteration and never regained |
| `PageRank.RankIsConserved` | services/brain/internal/codecrawl/repomap.go:131-150 | an iteration keeps ranks non-negative and their sum at one if and only if the personalisation sums to one over the files |
| `PageRank.IterationsConserve` | services/brain/internal/codecrawl/repomap.go:131-150 | so does any number of iterations |
| `PageRank.Contracts` | services/brain/internal/codecrawl/repomap.go:131-150 | an iteration shrinks the L1 distance of any two rank vectors to at most 0.85 of it |
| `PageRank.IterationsConverge` | services/brain/internal/codecrawl/repomap.go:131-150 | n iterations shrink it to at most 0.85 to the n |
| `PageRank.FixedPointIsUnique` | services/brain/internal/codecrawl/repomap.go:131-150 | two vectors an iteration leaves alone agree on every file |
| `Tracer.TracerPath.Advance` | services/gateway/authorityprocess/tracer_adapter.go:505-536 | a command moves the run map and the log of successes exactly one step of the transition function |
| `Tracer.TracerPath.StepSession` | services/gateway/authorityprocess/tracer_adapter.go:538-558 | a session opens the run of its principal and key, or resumes it with only its watermark changed |
| `TracerSteps.ReachesItsRun` | services/gateway/authorityprocess/tracer_adapter.go:862-876 | a command reaches a run if and only if it names it and comes from its principal, tenant and session |
| `TracerSteps.SessionsOpen` | services/gateway/authorityprocess/tracer_adapter.go:538-558 | a session opens a pinned, empty run under the digest of tenant, principal, session and key, or only ticks the one it opened |
| `TracerSteps.QuestionsAreAnswered` | services/gateway/authorityprocess/tracer_adapter.go:580-621 | a question under a free key is answered by its kind, with the reason code and the state that go with it |
| `TracerSteps.SucceedsExactly` | services/gateway/authorityprocess/tracer_adapter.go:560-860 | when each step succeeds |
| `TracerSteps.ConflictsExactly` | services/gateway/authorityprocess/tracer_adapter.go:560-887 | a step is a conflict if and only if all but its key is in order |
| `TracerSteps.LeadsTo` | services/gateway/authorityprocess/tracer_adapter.go:560-860 | the state each successful step leads to |
| `TracerSteps.Records` | services/gateway/authorityprocess/tracer_adapter.go:623-860 | an intent records the compiled workflow, a first draft what was published and the two digests it was approved under, a first outcome what was admitted, and no step anything else |
| `TracerHistory.DraftsAreEarned` | services/gateway/authorityprocess/tracer_adapter.go:560-860 | in every history a draft was preceded by pinned ingest, authorised answer, intent, plan and review in that order, and an outcome by all of these and a draft |
| `TracerHistory.NothingIsUndone` | services/gateway/authorityprocess/tracer_adapter.go:538-887 | over any further commands a run keeps its identity, its key bindings and whatever it has recorded |
| `TracerHistory.KeysAreNeverRebound` | services/gateway/authorityprocess/tracer_adapter.go:802-887 | however a key came to be bound, it stays bound to that over any further commands, and another keyed step under it succeeds if and only if it replays the outcome of a complete run |
| `TracerHistory.SuccessBinds` | services/gateway/authorityprocess/tracer_adapter.go:538-887 | opening a run binds the session's key, and a keyed success binds its key, a replayed outcome excepted |
| `TracerHistory.BoundKeyStillReplays` | services/gateway/authorityprocess/tracer_adapter.go:809-817 | a history in which a key is bound to the question and an outcome under it succeeds |
| `TracerHistory.WatermarksIncrease` | services/gateway/authorityprocess/tracer_adapter.go:538-860 | below 2 to the 64 commands, every success raises its run's watermark by one and no command lowers one |
| `TracerHistory.OnlyOwnRunsMove` | services/gateway/authorityprocess/tracer_adapter.go:862-876 | a command leaves alone every run of another principal, tenant or session |
| `TracerHistory.SessionsResumeOwnRuns` | services/gateway/authorityprocess/tracer_adapter.go:538-558 | in every history a session without NULs resumes only a run of its own principal, tenant and session, unless its material collides with that of another session of the history |
| `TracerHistory.RunMaterialDetermines` | services/gateway/authorityprocess/tracer_adapter.go:935-938 | the material of a run identifier determines principal and key if and only if none of the fields holds a NUL |
| `TracerHistory.RunIdsAreDistinct` | services/gateway/authorityprocess/tracer_adapter.go:935-938 | equal run identifiers mean equal principal and key, if one side has no NUL and the two materials do not collide |
| `TracerHistory.NulsShareRuns` | services/gateway/authorityprocess/tracer_adapter.go:935-938 | every principal and key with a NUL among their fields share their run identifier with others, whatever the digest |
| `TracerHistory.FailuresChangeLittle` | services/gateway/authorityprocess/tracer_adapter.go:560-860 | a failed step changes at most key bindings, variant and watermark |
| `TracerHistory.FailureLeaves` | services/gateway/authorityprocess/tracer_adapter.go:560-887 | the exact run a failed step leaves: unchanged, or with the unknown variant, a tick and the key bound, or with only the key bound |
| `TracerHistory.FailuresChangeExactly` | services/gateway/authorityprocess/tracer_adapter.go:560-887 | a step fails and still changes its run if and only if it asks an unknown question where questions are taken, or binds a new key before a late refusal |
| `TracerHistory.BackwardsExactly` | services/gateway/authorityprocess/tracer_adapter.go:505-860 | a command takes a run to an earlier state if and only if it is addressed to that run and ingests the pinned manifest past ready or plans past planned |
| `TracerHistory.RunsMoveBackwards` | services/gateway/authorityprocess/tracer_adapter.go:560-578 | a complete run that ingests again is ready again, keeps draft and outcome, and can then neither draft nor complete |
| `TracerHistory.CompleteRunsGoBack` | services/gateway/authorityprocess/tracer_adapter.go:560-677 | a history whose complete run one more ingest takes back to ready and one more plan back to planned |
| `TracerAnswers.HistoriesTell` | services/gateway/authorityprocess/tracer_adapter.go:580-621 | in every history the variant of a run tells its last answer, unless it is the unknown one |
| `TracerAnswers.DraftsFromTheLastAnswer` | services/gateway/authorityprocess/tracer_adapter.go:580-800 | in every history the last answer before a draft was the authorised one if and only if the variant is, unless that is the unknown one |
| `TracerAnswers.StaleDraft` | services/gateway/authorityprocess/tracer_adapter.go:560-800 | a history whose last answer is that the span is revoked and which still publishes a draft |
| `TracerAnswers.UnknownTellsNothing` | services/gateway/authorityprocess/tracer_adapter.go:580-621 | two histories that leave the same run, ready for a draft, one last answered authorised and one revoked |
| `Fields.JoinInjective` | services/brain/internal/audit/chain.go:41-43 | if one list of fields has no NUL, no other list of that length joins to the same text |
| `Fields.DeterminedIffPlain` | services/brain/internal/audit/chain.go:41-43 | two or more fields are determined by their joined text if and only if none holds a NUL |
| `AuditChain.Verify` | services/brain/internal/audit/chain.go:49-65 | accepts exactly the chains with increasing sequences, matching predecessors, valid metadata and right digests |
| `AuditChain.LinkExactly` | services/brain/internal/audit/chain.go:37-71 | a link holds if and only if its sequence is later, it names its predecessor, no field is empty or zero, and its digest is that of the eleven fields in order |
| `AuditChain.TamperEvident` | services/brain/internal/audit/chain.go:37-65 | two accepted chains with the same last digest are equal entry for entry, if one is free of NULs and no digests collide |
| `AuditChain.ExchangedLink` | services/brain/internal/audit/chain.go:49-65 | exchanging a link for another of the same sequence and material leaves a chain accepted |
| `AuditChain.NulHidesTampering` | services/brain/internal/audit/chain.go:37-65 | every accepted chain with an event identifier that has a NUL past its start, in any link, has a different accepted chain with the same digests throughout, whatever the hash |
| `TextBound.PrefixIsValid` | services/internal/textbound/textbound.go:43-60 | a prefix of well-formed text is well-formed if and only if a character starts where it ends |
| `TextBound.ValidIsUtf8` | services/internal/textbound/textbound.go:43-60 | text is well-formed if and only if it is the encoding of some sequence of Unicode scalar values |
| `TextBound.CountsScalars` | services/internal/textbound/textbound.go:75-90 | decoding counts the scalar values that well-formed text encodes |
| `TextBound.Bytes` | services/internal/textbound/textbound.go:36-67 | of well-formed text the longest well-formed prefix within the limit; of any over-long text no less than three bytes below it |
| `TextBound.Runes` | services/internal/textbound/textbound.go:75-90 | a prefix with exactly the limit of characters, or all of them, well-formed if the text is |
| `TextBound.Ellipsis` | services/internal/textbound/textbound.go:95-107 | never over the limit, well-formed if the text is, marked exactly when over-long with room for the mark, and what is kept is then the longest that fits |

## Left out

- Chunk positions are characters, not bytes: the model has one position per character where the source counts UTF-8 bytes.
- The stamps on a chunk receipt (chunk and document identifiers, content hash, policy) and the loop over documents.
- Which white space separates tokens is the Unicode White_Space property; which lines begin a chat turn is a parameter.
- `Policy.Validate`: the methods ask only for a positive target, which is weaker than what it guarantees.
- Update in place of a symbol graph's file lists: the graph maps names to sets, so the order of files under a name, which
  follows map iteration, is not modelled.
- Delta.CrawlDeltaFrom: the file tree is taken not to change while one crawl reads it, and byte counts and durations are dropped.
- Walking the tree, ignore rules, the extension filter and the typed-edge projection of an index.
- IndexCache.ServedIffNoReuse: loading a file is one step that sees one version, and a modification time is any integer.
- ObjectStore.ObjectStore.PutIfAbsent: a put that fails is taken to leave no object behind, because the partial-file handling beneath it is not modelled.
- Rounding: PageRank is over the reals. Direct flags, the final sort with its tolerance, truncation and symbol ranking are not
  modelled.
- The receipts and digests a tracer step returns, the clock, and the payloads sent to the broker and the outcome store.
- AuditChain.TamperEvident: one direction only; which chains with NULs have an accepted twin depends on which fields would become
  empty, and only the family of `NulHidesTampering` is given.
- RepositoryModel.RunKeepsInv: runs of fewer than 2 to the 64 operations, because the fence counter wraps; `Vault.Vault.ReadAfterFailure` shares the bound.
- AES-GCM, SHA-256 and key derivation beyond their laws; the key ring; constructor defaults of the vault.
- `LocalStore` beneath put, read and delete: temporary files, links, directory syncs, symbolic links and shards.
- `Stage`, `ReadRange`, `Reconcile` and `MigrateLegacy`, which wrap the operations modelled here.
- Search, symbol hops, impact graphs, watch refreshes and gob persistence.
- The local authority, the factory pipeline and broker, and the gateway, command-line and wire adapters.
- The vault's calls one at a time: `Vault.Vault.ServeAll` and what follows from it are about calls in any order, each finished
  before the next begins; overlapping calls are covered only at the repository, whose operations interleave freely in
  `RepositoryModel`.
- Liveness, timing and cancellation.
