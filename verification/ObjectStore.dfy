/** The immutable object store beneath the vault: create if absent, read, delete.
    A store that is not `reliable` may fail any call; a failed delete may still have removed the object. */
module ObjectStore {
  import opened Wrappers
  import opened Contracts
  import opened VaultTypes

  class ObjectStore {
    var objects: map<string, Bytes>
    const reliable: bool

    constructor (reliable: bool)
      ensures objects == map[] && this.reliable == reliable
    {
      objects := map[];
      this.reliable := reliable;
    }

    method PutIfAbsent(key: string, data: Bytes) returns (r: Result<bool, VaultError>)
      modifies this
      ensures r.Err? ==> objects == old(objects)
      ensures r.Ok? && r.value ==> key !in old(objects) && objects == old(objects)[key := data]
      ensures r.Ok? && !r.value ==> objects == old(objects) && key in objects && objects[key] == data
      ensures reliable && 0 < |data| <= MAX_OBJECT_BYTES && key !in old(objects) ==> r.Ok?
      ensures reliable && (|data| == 0 || |data| > MAX_OBJECT_BYTES) ==> r == Err(Invalid)
      ensures reliable && 0 < |data| <= MAX_OBJECT_BYTES && key in old(objects) ==>
                r == if old(objects)[key] == data then Ok(false) else Err(Conflict)
    {
      if !reliable { if * { return Err(Unavailable); } }
      if |data| == 0 || |data| > MAX_OBJECT_BYTES {
        return Err(Invalid);
      }
      if key in objects {
        if objects[key] != data {
          return Err(Conflict);
        }
        return Ok(false);
      }
      objects := objects[key := data];
      return Ok(true);
    }

    method Read(key: string) returns (r: Result<Bytes, VaultError>)
      ensures r == (if key !in objects then Err(Incomplete)
                    else if |objects[key]| == 0 || |objects[key]| > MAX_OBJECT_BYTES then Err(Corrupt)
                    else Ok(objects[key]))
              || (!reliable && r == Err(Unavailable))
    {
      if !reliable { if * { return Err(Unavailable); } }
      if key !in objects {
        return Err(Incomplete);
      }
      if |objects[key]| == 0 || |objects[key]| > MAX_OBJECT_BYTES {
        return Err(Corrupt);
      }
      return Ok(objects[key]);
    }

    method Delete(key: string) returns (ok: bool)
      modifies this
      ensures objects == old(objects) - {key} || (!ok && objects == old(objects))
      ensures reliable ==> ok
    {
      if !reliable { if * { return false; } }
      objects := objects - {key};
      if !reliable { if * { return false; } }
      return true;
    }
  }
}
