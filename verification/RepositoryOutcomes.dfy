/** When each repository operation succeeds, what it leaves, how it fails, and what a caller gets that asks again. */
module RepositoryOutcomes {
  import opened Wrappers
  import opened VaultTypes
  import opened RepositoryModel

  /** The generation after this one, in 64-bit arithmetic. */
  function Following(n: uint64): uint64 {
    (n + 1) % 0x1_0000_0000_0000_0000
  }

  /** A reservation is made exactly for the next generation of the artifact when there is no record of it; a complete
      record of the same manifest is handed out again; anything else is refused without effect. */
  lemma BeginExactly(s: Repo, r: StageRequest, locator: string)
    ensures var m, g := r.manifest, GenerationOf(r.manifest);
            var (s', out) := BeginStage(s, r, locator);
            var due := Current(s, ArtifactOf(m)) == r.expectedGeneration && m.generation == Following(r.expectedGeneration);
            && (out == Err(StaleGeneration) <==> !due)
            && (due && g !in s.records ==>
                  var record := GenerationRecord(m, locator, [], StatusStaged, Following(s.next));
                  out == Ok(Begun(record, false)) && s' == Repo(s.records[g := record], s.current, Following(s.next)))
            && (due && g in s.records ==>
                  s' == s && out == if s.records[g].manifest == m && |s.records[g].frames| == m.frameCount
                                    then Ok(Begun(s.records[g], true)) else Err(Conflict))
            && (out.Err? ==> s' == s)
  {
  }

  /** The frames of a reservation are recorded exactly for its own fence, while it is staged, and all of them at once. */
  lemma CompleteExactly(s: Repo, record: GenerationRecord)
    ensures var g := GenerationOf(record.manifest);
            var (s', out) := CompleteStage(s, record);
            var held := g in s.records && s.records[g].fence == record.fence && s.records[g].status == StatusStaged;
            && (out == Err(Conflict) <==> !held)
            && (out == Err(Incomplete) <==> held && |record.frames| != record.manifest.frameCount)
            && (out.Ok? <==> held && |record.frames| == record.manifest.frameCount)
            && s'.current == s.current && s'.next == s.next
            && s'.records == if out.Ok? then s.records[g := s.records[g].(frames := record.frames)] else s.records
  {
  }

  /** A reservation is given up exactly while it is staged and empty, under its own fence, and giving up one that is gone
      is no error. */
  lemma AbortExactly(s: Repo, record: GenerationRecord)
    ensures var g := GenerationOf(record.manifest);
            var (s', out) := AbortStage(s, record);
            && (out == Err(Conflict) <==>
                  g in s.records &&
                  (s.records[g].fence != record.fence || s.records[g].frames != [] || s.records[g].status != StatusStaged))
            && s'.current == s.current && s'.next == s.next
            && s'.records == if out == Ok(()) then s.records - {g} else s.records
  {
    var g := GenerationOf(record.manifest);
    assert g !in s.records ==> s.records - {g} == s.records;
  }

  /** A publication succeeds exactly for a complete, staged record of the same manifest that is next in line, which it
      makes current, and for the current published record of that manifest, which it leaves as it is. */
  lemma PublishExactly(s: Repo, r: PublishRequest)
    requires r.manifest.generation != 0
    requires var g := GenerationOf(r.manifest); g in s.records ==> GenerationOf(s.records[g].manifest) == g
    ensures var m, g, a := r.manifest, GenerationOf(r.manifest), ArtifactOf(r.manifest);
            var (s', out) := Publish(s, r);
            var next := Current(s, a) == r.expectedGeneration && m.generation == Following(r.expectedGeneration);
            var live := g in s.records && s.records[g].status == StatusPublished && Current(s, a) == m.generation;
            && (out == Err(StaleGeneration) <==> !live && !next)
            && (out == Err(Incomplete) <==>
                  !live && next && (g !in s.records || |s.records[g].frames| != s.records[g].manifest.frameCount))
            && (out.Ok? <==>
                  g in s.records && s.records[g].manifest == m &&
                  (if live then r.expectedGeneration == m.generation - 1
                   else next && s.records[g].status == StatusStaged && |s.records[g].frames| == m.frameCount))
            && (out.Ok? ==>
                  && out.value == s.records[g].(status := StatusPublished)
                  && s' == Repo(s.records[g := out.value], s.current[a := m.generation], s.next))
            && (out.Err? || live ==> s' == s)
  {
    var m, g, a := r.manifest, GenerationOf(r.manifest), ArtifactOf(r.manifest);
    assert g in s.records ==> s.records[g := s.records[g]] == s.records;
    assert a in s.current ==> s.current[a := s.current[a]] == s.current;
  }

  /** Anything there is can be quarantined, except what has been purged. */
  lemma QuarantineExactly(s: Repo, g: GenerationId)
    ensures var (s', out) := Quarantine(s, g);
            && (out == Err(NotFound) <==> g !in s.records)
            && (out == Err(Conflict) <==> g in s.records && s.records[g].status == StatusPurged)
            && (out.Ok? ==> s' == Repo(s.records[g := s.records[g].(status := StatusQuarantined)], s.current, s.next))
            && (out.Err? ==> s' == s)
  {
  }

  /** A tombstone succeeds exactly for the current generation while it is published or tombstoned already, and leaves it
      tombstoned; on a tombstoned one it changes nothing. */
  lemma TombstoneExactly(s: Repo, r: TombstoneRequest)
    ensures var a := ArtifactId(r.tenant.value, r.artifact.value);
            var g := GenerationId(a, r.expectedGeneration);
            var (s', out) := Tombstone(s, r);
            var current := r.expectedGeneration != 0 && Current(s, a) == r.expectedGeneration;
            && (out == Err(StaleGeneration) <==> !current)
            && (out == Err(NotFound) <==> current && g !in s.records)
            && (out.Ok? <==>
                  current && g in s.records && (s.records[g].status == StatusPublished || s.records[g].status == StatusTombstoned))
            && (out.Ok? ==>
                  && out.value == s.records[g].(status := StatusTombstoned)
                  && s' == Repo(s.records[g := out.value], s.current, s.next))
            && (out.Err? || s.records[g].status == StatusTombstoned ==> s' == s)
  {
    var g := GenerationId(ArtifactId(r.tenant.value, r.artifact.value), r.expectedGeneration);
    assert g in s.records ==> s.records[g := s.records[g]] == s.records;
  }

  /** A purge is admitted exactly for a tombstoned or purged generation, under its key epoch. */
  lemma PreparePurgeExactly(s: Repo, r: PurgeRequest, generation: uint64)
    ensures var g := GenerationId(ArtifactId(r.tenant.value, r.artifact.value), generation);
            PreparePurge(s, r, generation) ==
            if g in s.records && s.records[g].manifest.keyEpoch == r.keyEpoch
               && s.records[g].status in {StatusTombstoned, StatusPurged}
            then Ok(s.records[g]) else Err(VaultError.Tombstoned)
  {
  }

  /** A purge is completed exactly under the fence of a tombstoned or purged generation, and leaves it purged. */
  lemma CompletePurgeExactly(s: Repo, record: GenerationRecord)
    ensures var g := GenerationOf(record.manifest);
            var (s', out) := CompletePurge(s, record);
            && (out.Ok? <==>
                  && g in s.records && s.records[g].fence == record.fence
                  && (s.records[g].status == StatusTombstoned || s.records[g].status == StatusPurged))
            && (out.Err? ==> out == Err(Conflict) && s' == s)
            && (out.Ok? ==> s' == Repo(s.records[g := s.records[g].(status := StatusPurged)], s.current, s.next))
  {
    var g := GenerationOf(record.manifest);
    assert g in s.records ==> s.records[g := s.records[g]] == s.records;
  }

  // ----- asking again --------------------------------------------------------------------------------

  /** A caller that lost the answer to a publication, a tombstone or the end of a purge, and asks again right away, gets
      the same answer and changes nothing. */
  lemma AskingAgain(s: Repo, p: PublishRequest, t: TombstoneRequest, record: GenerationRecord)
    requires p.manifest.generation != 0
    requires var g := GenerationOf(p.manifest); g in s.records ==> GenerationOf(s.records[g].manifest) == g
    ensures Publish(s, p).1.Ok? ==> Publish(Publish(s, p).0, p) == Publish(s, p)
    ensures Tombstone(s, t).1.Ok? ==> Tombstone(Tombstone(s, t).0, t) == Tombstone(s, t)
    ensures CompletePurge(s, record).1.Ok? ==> CompletePurge(CompletePurge(s, record).0, record) == CompletePurge(s, record)
  {
    PublishExactly(s, p);
    TombstoneExactly(s, t);
    CompletePurgeExactly(s, record);
  }

  /** Until its frames are recorded, a reservation keeps everyone else out of its generation; afterwards asking for the
      same manifest hands the complete record out again; and giving it up before leaves room for another with a new fence. */
  lemma ReservationLifecycle(s: Repo, r: StageRequest, locator: string, again: string, frames: seq<FrameRecord>)
    requires var (_, out) := BeginStage(s, r, locator); out.Ok? && !out.value.duplicate
    requires 0 < r.manifest.frameCount == |frames|
    ensures var (s1, out) := BeginStage(s, r, locator);
            var mine := out.value.record;
            var filled := mine.(frames := frames);
            var (s2, done) := CompleteStage(s1, filled);
            var (s3, gone) := AbortStage(s1, mine);
            && BeginStage(s1, r, again) == (s1, Err(Conflict))
            && done.Ok? && BeginStage(s2, r, again) == (s2, Ok(Begun(filled, true)))
            && AbortStage(s2, mine) == (s2, Err(Conflict))
            && gone.Ok? && s3.records == s.records && AbortStage(s3, mine) == (s3, Ok(()))
            && CompleteStage(s3, filled) == (s3, Err(Conflict))
            && BeginStage(s3, r, again).1 == Ok(Begun(mine.(locator := again, fence := Following(mine.fence)), false))
  {
    var (s1, out) := BeginStage(s, r, locator);
    var g := GenerationOf(r.manifest);
    assert s1.records - {g} == s.records;
    assert s.records - {g} == s.records;
  }
}
