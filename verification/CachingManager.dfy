/** The disk manager behind its two cache tiers, updated in place. */
module CachingManager {
  import opened Prelude
  import opened ArcPolicy
  import opened StorageLayout
  import opened DiskManager
  import opened BlockCache
  import opened PieceCache
  import opened CachedDisk

  class CachingDiskManager {
    const storage: DiskManager
    const blockCache: BlockCache
    const pieceCache: PieceCache

    ghost function Repr(): set<object>
      reads storage
    {
      {blockCache} + pieceCache.Repr + storage.Repr
    }

    ghost predicate Valid()
      reads storage, pieceCache, Repr()
    {
      && storage.Valid() && blockCache.Valid() && pieceCache.Valid()
      && blockCache !in pieceCache.Repr && blockCache !in storage.Repr
      && pieceCache.Repr !! storage.Repr
    }

    ghost function View(): Tiers
      reads storage, pieceCache, Repr()
      requires Valid()
    {
      Tiers(blockCache.View(), pieceCache.View(), storage.contents)
    }

    constructor (storage: DiskManager, pieceCapacity: nat, digest: BS.HashState -> Bytes)
      requires storage.Valid()
      ensures Valid() && View() == Initial(pieceCapacity, storage.contents)
      ensures this.storage == storage && blockCache.digest == digest
    {
      this.storage := storage;
      blockCache := new BlockCache(digest);
      pieceCache := new PieceCache(pieceCapacity);
    }

    method WriteBlock(key: CacheKey, offset: nat, data: Bytes, pieceLength: nat, expected: Bytes, isV2: bool)
      returns (r: Result<WriteResult, DiskError>)
      requires Valid() && |data| > 0 && offset + |data| < U32_RANGE
      modifies Repr()
      ensures Valid()
      ensures (View(), r) ==
        CachedDisk.WriteBlock(old(View()), key, offset, data, pieceLength, expected, isV2, blockCache.digest)
    {
      var complete := blockCache.AddBlock(key, offset, data, pieceLength, Version(isV2));
      if !complete {
        return Ok(Buffered);
      }
      r := Finish(key, expected);
    }

    /** What `write_block` does once the piece has all its blocks. */
    method Finish(key: CacheKey, expected: Bytes) returns (r: Result<WriteResult, DiskError>)
      requires Valid() && key in blockCache.pieces
      modifies Repr()
      ensures Valid()
      ensures (View(), r) == CachedDisk.Finish(old(View()), key, expected, blockCache.digest)
    {
      hide Insert, BS.Finalize, BS.RemovePiece;
      var valid := blockCache.FinalizeAndVerify(key, expected);
      var removed := blockCache.RemovePiece(key);
      if valid {
        var failed := Keep(key, removed.value);
        if failed.Some? {
          return Err(failed.value);
        }
      }
      return Ok(PieceComplete(valid));
    }

    /** Puts a verified piece into the piece cache and then on the disk. */
    method Keep(key: CacheKey, data: Bytes) returns (failed: Option<DiskError>)
      requires Valid()
      modifies Repr()
      ensures Valid() && blockCache.View() == old(blockCache.View())
      ensures pieceCache.View() == Insert(old(pieceCache.View()), key, CachedPiece(data, true))
      ensures match WritePieceOf(old(storage.contents), key, data)
        case Ok(after) => failed == None && storage.contents == after
        case Err(e) => failed == Some(e) && storage.contents == old(storage.contents)
    {
      pieceCache.Insert(key, data, true);
      failed := storage.WritePiece(key, data);
    }

    method ReadBlock(key: CacheKey, offset: nat, length: nat) returns (r: Result<Bytes, DiskError>)
      requires Valid()
      modifies Repr()
      ensures Valid()
      ensures (View(), r) == CachedDisk.ReadBlock(old(View()), key, offset, length)
    {
      hide Get, BS.Assemble, ReadBlockOf, BS.ValidState;
      var hit := pieceCache.Get(key);
      if hit.Some? && offset + length <= |hit.value| {
        return Ok(hit.value[offset..offset + length]);
      }
      var partial := blockCache.GetAssembledPiece(key);
      if partial.Some? && offset + length <= |partial.value| {
        return Ok(partial.value[offset..offset + length]);
      }
      r := storage.ReadBlock(key, offset, length);
    }

    method ReadPiece(key: CacheKey) returns (r: Result<Bytes, DiskError>)
      requires Valid()
      modifies Repr()
      ensures Valid()
      ensures (View(), r) == CachedDisk.ReadPiece(old(View()), key)
    {
      hide Insert, Get, BS.Assemble, ReadPieceOf, BS.ValidState;
      var hit := pieceCache.Get(key);
      if hit.Some? {
        return Ok(hit.value);
      }
      var partial := blockCache.GetAssembledPiece(key);
      if partial.Some? {
        return Ok(partial.value);
      }
      r := storage.ReadPiece(key);
      if r.Ok? {
        pieceCache.Insert(key, r.value, true);
      }
    }

    method ClearCaches()
      requires Valid()
      modifies Repr()
      ensures Valid() && View() == CachedDisk.ClearCaches(old(View()))
    {
      blockCache.Clear();
      pieceCache.Clear();
    }
  }
}
