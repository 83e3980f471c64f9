/** The metadata repository as the vault drives it: maps keyed by composite strings, updated in place.
    A repository that is not `reliable` may also fail a call without effect, as a database may. */
module Repository {
  import opened Wrappers
  import opened VaultTypes
  import KeyedMaps
  import Model = RepositoryModel

  lemma KeysInjective()
    ensures KeyedMaps.Injective(GenerationKey) && KeyedMaps.Injective(ArtifactKey)
  {
    forall a, b | GenerationKey(a) == GenerationKey(b) ensures a == b {
      GenerationKeyInjective(a, b);
    }
    forall a, b | ArtifactKey(a) == ArtifactKey(b) ensures a == b {
      ArtifactKeyInjective(a, b);
    }
  }

  class Repository {
    var records: map<string, GenerationRecord>
    var current: map<string, uint64>
    var next: uint64
    const reliable: bool
    /** The tuple-keyed state that the maps stand for. */
    ghost var model: Model.Repo
    /** The operations carried out so far. */
    ghost var trace: seq<Model.Op>

    ghost predicate Valid()
      reads this
    {
      && KeyedMaps.Represents(records, model.records, GenerationKey)
      && KeyedMaps.Represents(current, model.current, ArtifactKey)
      && next == model.next
    }

    constructor (reliable: bool)
      ensures Valid() && model == Model.EMPTY && trace == [] && this.reliable == reliable
    {
      trace := [];
      records, current, next := map[], map[], 0;
      model := Model.Repo(map[], map[], 0);
      this.reliable := reliable;
    }

    /** What a call may do besides its transition. */
    ghost predicate Refused<T>(r: Result<T, VaultError>, before: Model.Repo, past: seq<Model.Op>)
      reads this
    {
      !reliable && r == Err(Unavailable) && model == before && trace == past
    }

    method Lookup(g: GenerationId) returns (r: Option<GenerationRecord>)
      requires Valid()
      ensures r == if g in model.records then Some(model.records[g]) else None
    {
      KeysInjective();
      KeyedMaps.Lookup(records, model.records, GenerationKey, g);
      var key := GenerationKey(g);
      r := if key in records then Some(records[key]) else None;
    }

    method Pointer(a: ArtifactId) returns (generation: uint64)
      requires Valid()
      ensures generation == Model.Current(model, a)
    {
      KeysInjective();
      KeyedMaps.Lookup(current, model.current, ArtifactKey, a);
      var key := ArtifactKey(a);
      generation := if key in current then current[key] else 0;
    }

    method Store(g: GenerationId, record: GenerationRecord)
      requires Valid()
      modifies this`records, this`model
      ensures Valid() && model == old(model).(records := old(model).records[g := record])
    {
      KeysInjective();
      KeyedMaps.Update(records, model.records, GenerationKey, g, record);
      records := records[GenerationKey(g) := record];
      model := model.(records := model.records[g := record]);
    }

    method Remove(g: GenerationId)
      requires Valid()
      modifies this`records, this`model
      ensures Valid() && model == old(model).(records := old(model).records - {g})
    {
      KeysInjective();
      KeyedMaps.Remove(records, model.records, GenerationKey, g);
      records := records - {GenerationKey(g)};
      model := model.(records := model.records - {g});
    }

    method Advance(a: ArtifactId, generation: uint64)
      requires Valid()
      modifies this`current, this`model
      ensures Valid() && model == old(model).(current := old(model).current[a := generation])
    {
      KeysInjective();
      KeyedMaps.Update(current, model.current, ArtifactKey, a, generation);
      current := current[ArtifactKey(a) := generation];
      model := model.(current := model.current[a := generation]);
    }

    method BeginStage(request: StageRequest, locator: string) returns (r: Result<Model.Begun, VaultError>)
      requires Valid()
      modifies this
      ensures Valid()
      ensures ((model, r) == Model.BeginStage(old(model), request, locator) && trace == old(trace) + [Model.OpBegin(request, locator)])
              || Refused(r, old(model), old(trace))
    {
      if !reliable { if * { return Err(Unavailable); } }
      trace := trace + [Model.OpBegin(request, locator)];
      var m := request.manifest;
      var pointer := Pointer(ArtifactOf(m));
      if pointer != request.expectedGeneration || m.generation != Model.Increment(pointer) {
        return Err(StaleGeneration);
      }
      var existing := Lookup(GenerationOf(m));
      if existing.Some? {
        if existing.value.manifest != m {
          return Err(Conflict);
        }
        if Model.Complete(existing.value) {
          return Ok(Model.Begun(existing.value, true));
        }
        return Err(Conflict);
      }
      next := Model.Increment(next);
      model := model.(next := next);
      var record := GenerationRecord(m, locator, [], StatusStaged, next);
      Store(GenerationOf(m), record);
      return Ok(Model.Begun(record, false));
    }

    method CompleteStage(record: GenerationRecord) returns (r: Result<(), VaultError>)
      requires Valid()
      modifies this
      ensures Valid()
      ensures ((model, r) == Model.CompleteStage(old(model), record) && trace == old(trace) + [Model.OpComplete(record)])
              || Refused(r, old(model), old(trace))
    {
      if !reliable { if * { return Err(Unavailable); } }
      trace := trace + [Model.OpComplete(record)];
      var g := GenerationOf(record.manifest);
      var existing := Lookup(g);
      if existing.None? || existing.value.fence != record.fence || existing.value.status != StatusStaged {
        return Err(Conflict);
      }
      if !Model.Complete(record) {
        return Err(Incomplete);
      }
      Store(g, existing.value.(frames := record.frames));
      return Ok(());
    }

    method AbortStage(record: GenerationRecord) returns (r: Result<(), VaultError>)
      requires Valid()
      modifies this
      ensures Valid()
      ensures ((model, r) == Model.AbortStage(old(model), record) && trace == old(trace) + [Model.OpAbort(record)])
              || Refused(r, old(model), old(trace))
    {
      if !reliable { if * { return Err(Unavailable); } }
      trace := trace + [Model.OpAbort(record)];
      var g := GenerationOf(record.manifest);
      var existing := Lookup(g);
      if existing.None? {
        return Ok(());
      }
      if existing.value.fence != record.fence || |existing.value.frames| != 0 || existing.value.status != StatusStaged {
        return Err(Conflict);
      }
      Remove(g);
      return Ok(());
    }

    method Get(g: GenerationId) returns (r: Result<GenerationRecord, VaultError>)
      requires Valid()
      ensures r == (if g in model.records then Ok(model.records[g]) else Err(NotFound))
              || (!reliable && r == Err(Unavailable))
    {
      if !reliable { if * { return Err(Unavailable); } }
      var existing := Lookup(g);
      r := if existing.Some? then Ok(existing.value) else Err(NotFound);
    }

    method Publish(request: PublishRequest) returns (r: Result<GenerationRecord, VaultError>)
      requires Valid()
      modifies this
      ensures Valid()
      ensures ((model, r) == Model.Publish(old(model), request) && trace == old(trace) + [Model.OpPublish(request)])
              || Refused(r, old(model), old(trace))
    {
      hide KeyedMaps.Represents;
      if !reliable { if * { return Err(Unavailable); } }
      trace := trace + [Model.OpPublish(request)];
      var m := request.manifest;
      var a, g := ArtifactOf(m), GenerationOf(m);
      var pointer := Pointer(a);
      var existing := Lookup(g);
      if existing.Some? && existing.value.status == StatusPublished && pointer == existing.value.manifest.generation {
        if request.expectedGeneration != existing.value.manifest.generation - 1 || existing.value.manifest != m {
          return Err(Conflict);
        }
        return Ok(existing.value);
      }
      if pointer != request.expectedGeneration || m.generation != Model.Increment(request.expectedGeneration) {
        return Err(StaleGeneration);
      }
      if existing.None? || !Model.Complete(existing.value) {
        return Err(Incomplete);
      }
      if existing.value.manifest != m {
        return Err(Conflict);
      }
      if existing.value.status != StatusStaged {
        return Err(Conflict);
      }
      var record := existing.value.(status := StatusPublished);
      Store(g, record);
      Advance(a, record.manifest.generation);
      return Ok(record);
    }

    method Quarantine(g: GenerationId) returns (r: Result<(), VaultError>)
      requires Valid()
      modifies this
      ensures Valid()
      ensures ((model, r) == Model.Quarantine(old(model), g) && trace == old(trace) + [Model.OpQuarantine(g)])
              || Refused(r, old(model), old(trace))
    {
      if !reliable { if * { return Err(Unavailable); } }
      trace := trace + [Model.OpQuarantine(g)];
      var existing := Lookup(g);
      if existing.None? {
        return Err(NotFound);
      }
      if existing.value.status == StatusPurged {
        return Err(Conflict);
      }
      Store(g, existing.value.(status := StatusQuarantined));
      return Ok(());
    }

    method Tombstone(request: TombstoneRequest) returns (r: Result<GenerationRecord, VaultError>)
      requires Valid()
      modifies this
      ensures Valid()
      ensures ((model, r) == Model.Tombstone(old(model), request) && trace == old(trace) + [Model.OpTombstone(request)])
              || Refused(r, old(model), old(trace))
    {
      if !reliable { if * { return Err(Unavailable); } }
      trace := trace + [Model.OpTombstone(request)];
      var a := ArtifactId(request.tenant.value, request.artifact.value);
      var pointer := Pointer(a);
      if request.expectedGeneration == 0 || pointer != request.expectedGeneration {
        return Err(StaleGeneration);
      }
      var g := GenerationId(a, request.expectedGeneration);
      var existing := Lookup(g);
      if existing.None? {
        return Err(NotFound);
      }
      if existing.value.status == StatusTombstoned {
        return Ok(existing.value);
      }
      if existing.value.status != StatusPublished {
        return Err(Conflict);
      }
      var record := existing.value.(status := StatusTombstoned);
      Store(g, record);
      return Ok(record);
    }

    method PreparePurge(request: PurgeRequest, generation: uint64) returns (r: Result<GenerationRecord, VaultError>)
      requires Valid()
      ensures r == Model.PreparePurge(model, request, generation) || (!reliable && r == Err(Unavailable))
    {
      if !reliable { if * { return Err(Unavailable); } }
      var existing := Lookup(GenerationId(ArtifactId(request.tenant.value, request.artifact.value), generation));
      if existing.None? || existing.value.manifest.keyEpoch != request.keyEpoch
         || (existing.value.status != StatusTombstoned && existing.value.status != StatusPurged) {
        return Err(VaultError.Tombstoned);
      }
      return Ok(existing.value);
    }

    method CompletePurge(record: GenerationRecord) returns (r: Result<(), VaultError>)
      requires Valid()
      modifies this
      ensures Valid()
      ensures ((model, r) == Model.CompletePurge(old(model), record) && trace == old(trace) + [Model.OpCompletePurge(record)])
              || Refused(r, old(model), old(trace))
    {
      if !reliable { if * { return Err(Unavailable); } }
      trace := trace + [Model.OpCompletePurge(record)];
      var g := GenerationOf(record.manifest);
      var existing := Lookup(g);
      if existing.None? || existing.value.fence != record.fence {
        return Err(Conflict);
      }
      if existing.value.status == StatusPurged {
        return Ok(());
      }
      if existing.value.status != StatusTombstoned {
        return Err(Conflict);
      }
      Store(g, existing.value.(status := StatusPurged));
      return Ok(());
    }
  }
}
