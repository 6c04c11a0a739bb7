/** `read_whole`: reading a file into memory that is charged before it is filled, while other
    transfers charge and release the same lane. */
module FileLaneRead {
  import opened Wrappers
  import opened Words
  import opened FileLane

  const READ_CHUNK: nat := 64 * 1024

  datatype ReadError = TooLarge | LaneFull | NoStorage | Unreadable

  /** What is left of an open file.  A read answers some of the bytes asked for, none
      only at the end of the file, or fails. */
  class Source {
    var rest: seq<byte>
    /** Some read has failed. */
    ghost var failed: bool

    constructor (bytes: seq<byte>)
      ensures rest == bytes && !failed
    {
      rest, failed := bytes, false;
    }

    method Read(limit: nat) returns (r: Option<seq<byte>>)
      modifies this
      ensures failed == (old(failed) || r.None?)
      ensures r.Some? ==> |r.value| <= limit && old(rest) == r.value + rest
      ensures r.Some? && limit > 0 && r.value == [] ==> old(rest) == []
    {
      if * {
        failed := true;
        return None;
      }
      var most := if limit < |rest| then limit else |rest|;
      var count: nat :| count <= most && (most > 0 ==> count > 0);
      var chunk := rest[..count];
      rest := rest[count..];
      return Some(chunk);
    }
  }

  /** The allocator, which may turn a reservation down. */
  class Storage {
    /** Some reservation was turned down. */
    ghost var denied: bool

    constructor ()
      ensures !denied
    {
      denied := false;
    }

    method Reserve(additional: nat) returns (ok: bool)
      modifies this
      ensures denied == (old(denied) || !ok)
    {
      ok := *;
      denied := denied || !ok;
    }
  }

  /** The lane's byte counter, under its lock: what other transfers hold is part of it. */
  class Lane {
    var bytes: nat
    ghost var others: nat

    constructor ()
      ensures bytes == 0 && others == 0
    {
      bytes, others := 0, 0;
    }

    /** Other transfers grow or end, keeping to the lane's limit. */
    method OthersRun(mine: nat)
      requires bytes == others + mine <= MAX_BYTES
      modifies this
      ensures bytes == others + mine <= MAX_BYTES
    {
      var total: nat :| mine <= total <= MAX_BYTES;
      bytes, others := total, total - mine;
    }
  }

  class AdmissionGuard {
    const lane: Lane
    var bytes: nat
    /** The lane had no room for some growth. */
    ghost var refused: bool

    constructor (lane: Lane, bytes: nat)
      ensures this.lane == lane && this.bytes == bytes && !refused
    {
      this.lane, this.bytes, refused := lane, bytes, false;
    }

    /** The lane counts what this guard and the others hold, within its limit. */
    ghost predicate Charged()
      reads this, lane
    {
      lane.bytes == lane.others + bytes <= MAX_BYTES
    }

    /** Charges up to `size`, or says which limit is in the way and charges nothing. */
    method GrowTo(size: nat) returns (r: Result<(), ReadError>)
      requires Charged()
      modifies this, lane
      ensures Charged() && lane.others == old(lane.others)
      ensures r.Ok? <==> size <= old(bytes) || (size <= MAX_REQUEST_BYTES && old(lane.others) + size <= MAX_BYTES)
      ensures bytes == (if r.Ok? && size > old(bytes) then size else old(bytes))
      ensures r.Err? ==> r.error == if size > MAX_REQUEST_BYTES then TooLarge else LaneFull
      ensures refused == (old(refused) || r == Err(LaneFull))
    {
      if size <= bytes {
        return Ok(());
      }
      if size > MAX_REQUEST_BYTES {
        return Err(TooLarge);
      }
      var total := lane.bytes + (size - bytes);
      if total > MAX_BYTES {
        refused := true;
        return Err(LaneFull);
      }
      lane.bytes := total;
      bytes := size;
      return Ok(());
    }
  }

  function Min(a: nat, b: nat): nat { if a < b then a else b }

  /** Appends what a read answers to the bytes held, which stay within what is charged. */
  method Append(file: Source, held: seq<byte>, limit: nat, guard: AdmissionGuard) returns (r: Option<seq<byte>>)
    requires |held| + limit <= guard.bytes
    modifies file
    ensures file.failed == (old(file.failed) || r.None?)
    ensures r.Some? ==>
              && |held| <= |r.value| <= |held| + limit <= guard.bytes
              && r.value + file.rest == held + old(file.rest)
    ensures r.Some? && limit > 0 && |r.value| == |held| ==> r.value == held && old(file.rest) == file.rest == []
  {
    var chunk := file.Read(limit);
    if chunk.None? {
      return None;
    }
    return Some(held + chunk.value);
  }

  /** Nothing in the way of the transfer has happened. */
  ghost predicate Untroubled(file: Source, guard: AdmissionGuard, storage: Storage)
    reads file, guard, storage
  {
    !file.failed && !guard.refused && !storage.denied
  }

  /** The file is larger than a transfer may be, by its reported size or by its bytes. */
  predicate Oversized(size: nat, bytes: seq<byte>)
  {
    size > MAX_REQUEST_BYTES || (size == 0 && |bytes| > MAX_REQUEST_BYTES)
  }

  /** A file whose size is reported is read up to that size or its end; one reported empty
      is read to its end.  The bytes are a prefix of the file and never more than the guard
      has charged.  Each error is answered exactly when its cause arose. */
  method ReadWhole(file: Source, size: nat, guard: AdmissionGuard, storage: Storage) returns (r: Result<seq<byte>, ReadError>)
    requires guard.Charged() && Untroubled(file, guard, storage)
    modifies file, guard, guard.lane, storage
    ensures guard.Charged() && old(guard.bytes) <= guard.bytes
    ensures r == Err(Unreadable) <==> file.failed
    ensures r == Err(LaneFull) <==> guard.refused
    ensures r == Err(NoStorage) <==> storage.denied
    ensures r == Err(TooLarge) <==> Untroubled(file, guard, storage) && Oversized(size, old(file.rest))
    ensures r.Ok? ==> old(file.rest) == r.value + file.rest && |r.value| <= guard.bytes
    ensures r.Ok? && size == 0 ==> file.rest == []
    ensures r.Ok? && size != 0 ==> |r.value| == size || (|r.value| < size && file.rest == [])
  {
    guard.lane.OthersRun(guard.bytes);
    var grown := guard.GrowTo(size);
    if grown.Err? {
      return Err(grown.error);
    }
    if size == 0 {
      r := ReadToEnd(file, guard, storage);
    } else {
      r := ReadSized(file, size, guard, storage);
    }
  }

  method ReadSized(file: Source, size: nat, guard: AdmissionGuard, storage: Storage) returns (r: Result<seq<byte>, ReadError>)
    requires Untroubled(file, guard, storage) && 0 < size <= guard.bytes
    modifies file, storage
    ensures !guard.refused && (r.Err? ==> r.error == Unreadable || r.error == NoStorage)
    ensures r == Err(Unreadable) <==> file.failed
    ensures r == Err(NoStorage) <==> storage.denied
    ensures r.Ok? ==> old(file.rest) == r.value + file.rest
    ensures r.Ok? ==> |r.value| == size || (|r.value| < size && file.rest == [])
  {
    var reserved := storage.Reserve(size);
    if !reserved {
      return Err(NoStorage);
    }
    var bytes: seq<byte> := [];
    var remaining: nat := size;
    while remaining != 0
      invariant |bytes| + remaining == size <= guard.bytes
      invariant old(file.rest) == bytes + file.rest && Untroubled(file, guard, storage)
    {
      var more := Append(file, bytes, Min(remaining, READ_CHUNK), guard);
      if more.None? {
        return Err(Unreadable);
      }
      var count := |more.value| - |bytes|;
      if count == 0 {
        break;
      }
      bytes := more.value;
      remaining := remaining - count;
    }
    return Ok(bytes);
  }

  method ReadToEnd(file: Source, guard: AdmissionGuard, storage: Storage) returns (r: Result<seq<byte>, ReadError>)
    requires guard.Charged() && Untroubled(file, guard, storage)
    modifies file, guard, guard.lane, storage
    ensures guard.Charged() && old(guard.bytes) <= guard.bytes
    ensures r == Err(Unreadable) <==> file.failed
    ensures r == Err(LaneFull) <==> guard.refused
    ensures r == Err(NoStorage) <==> storage.denied
    ensures r == Err(TooLarge) <==> Untroubled(file, guard, storage) && |old(file.rest)| > MAX_REQUEST_BYTES
    ensures r.Ok? ==> old(file.rest) == r.value + file.rest && |r.value| <= guard.bytes && file.rest == []
  {
    var bytes: seq<byte> := [];
    while true
      invariant |bytes| <= guard.bytes && guard.Charged() && old(guard.bytes) <= guard.bytes
      invariant old(file.rest) == bytes + file.rest && Untroubled(file, guard, storage)
      decreases MAX_REQUEST_BYTES - |bytes|
    {
      if |bytes| == MAX_REQUEST_BYTES {
        var extra := file.Read(1);
        if extra.None? {
          return Err(Unreadable);
        }
        return if |extra.value| != 0 then Err(TooLarge) else Ok(bytes);
      }
      var next := Min(|bytes| + READ_CHUNK, MAX_REQUEST_BYTES);
      guard.lane.OthersRun(guard.bytes);
      var grown := guard.GrowTo(next);
      if grown.Err? {
        return Err(LaneFull);
      }
      var reserved := storage.Reserve(next - |bytes|);
      if !reserved {
        return Err(NoStorage);
      }
      var more := Append(file, bytes, next - |bytes|, guard);
      if more.None? {
        return Err(Unreadable);
      }
      if |more.value| == |bytes| {
        return Ok(bytes);
      }
      bytes := more.value;
    }
  }
}
