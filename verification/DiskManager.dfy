/** The registered torrents' storages. */
module DiskManager {
  import opened Prelude
  import opened StorageLayout
  import opened TorrentStorage
  import BlockStream

  type Disks = map<string, FlatDisk>

  ghost predicate ValidDisks(disks: Disks) {
    forall h :: h in disks ==> disks[h].Valid()
  }

  function ReadPieceOf(disks: Disks, key: CacheKey): Result<Bytes, DiskError>
    requires ValidDisks(disks)
  {
    if key.0 in disks then disks[key.0].ReadPiece(key.1) else Err(TorrentNotFound(key.0))
  }

  function ReadBlockOf(disks: Disks, key: CacheKey, offset: nat, length: nat): Result<Bytes, DiskError>
    requires ValidDisks(disks)
  {
    if key.0 in disks then disks[key.0].ReadBlock(key.1, offset, length) else Err(TorrentNotFound(key.0))
  }

  function WritePieceOf(disks: Disks, key: CacheKey, data: Bytes): Result<Disks, DiskError>
    requires ValidDisks(disks)
  {
    if key.0 !in disks then Err(TorrentNotFound(key.0))
    else
      match disks[key.0].WritePiece(key.1, data)
      case Ok(after) => Ok(disks[key.0 := after])
      case Err(e) => Err(e)
  }

  function WriteBlockOf(disks: Disks, key: CacheKey, offset: nat, data: Bytes): Result<Disks, DiskError>
    requires ValidDisks(disks)
  {
    if key.0 !in disks then Err(TorrentNotFound(key.0))
    else
      match disks[key.0].WriteBlock(key.1, offset, data)
      case Ok(after) => Ok(disks[key.0 := after])
      case Err(e) => Err(e)
  }

  /** A piece is verified by reading it back and hashing it whole. */
  function VerifyPieceOf(disks: Disks, key: CacheKey, isV2: bool, expected: Bytes,
                         digest: BlockStream.HashState -> Bytes): Result<bool, DiskError>
    requires ValidDisks(disks)
  {
    match ReadPieceOf(disks, key)
    case Ok(data) => Ok(digest(if isV2 then BlockStream.V2(data) else BlockStream.V1(data)) == expected)
    case Err(e) => Err(e)
  }

  /** A piece written is what is read, and no other piece of any torrent changes. */
  lemma WritePieceOfThenRead(disks: Disks, key: CacheKey, data: Bytes)
    requires ValidDisks(disks) && WritePieceOf(disks, key, data).Ok?
    ensures var after := WritePieceOf(disks, key, data).value;
      && ValidDisks(after)
      && ReadPieceOf(after, key) == Ok(data)
      && forall other :: other != key ==> ReadPieceOf(after, other) == ReadPieceOf(disks, other)
  {
    var after := WritePieceOf(disks, key, data).value;
    WritePieceThenRead(disks[key.0], key.1, data, key.1);
    assert ValidDisks(after);
    forall other: CacheKey | other != key
      ensures ReadPieceOf(after, other) == ReadPieceOf(disks, other)
    {
      if other.0 == key.0 {
        WritePieceThenRead(disks[key.0], key.1, data, other.1);
      }
    }
  }

  /** A block written is what is read; no block it leaves alone changes, of any piece of any torrent. */
  lemma WriteBlockOfThenRead(disks: Disks, key: CacheKey, offset: nat, data: Bytes)
    requires ValidDisks(disks) && |data| < U32_RANGE && WriteBlockOf(disks, key, offset, data).Ok?
    ensures var after := WriteBlockOf(disks, key, offset, data).value;
      && ValidDisks(after)
      && ReadBlockOf(after, key, offset, |data|) == Ok(data)
      && forall other: CacheKey, at: nat, length: nat ::
           other != key || at + length <= offset || offset + |data| <= at
           ==> ReadBlockOf(after, other, at, length) == ReadBlockOf(disks, other, at, length)
  {
    var after := WriteBlockOf(disks, key, offset, data).value;
    WriteBlockThenRead(disks[key.0], key.1, offset, data, key.1, offset, |data|);
    assert ValidDisks(after);
    forall other: CacheKey, at: nat, length: nat | other != key || at + length <= offset || offset + |data| <= at
      ensures ReadBlockOf(after, other, at, length) == ReadBlockOf(disks, other, at, length)
    {
      if other.0 == key.0 {
        WriteBlockThenRead(disks[key.0], key.1, offset, data, other.1, at, length);
      }
    }
  }

  class DiskManager {
    var torrents: map<string, TorrentStorage>
    ghost var contents: Disks  // what each registered storage holds, as a flat array
    ghost var Repr: set<object>

    ghost predicate Valid()
      reads this, Repr
      ensures Valid() ==> this in Repr
    {
      && this in Repr
      && ValidDisks(contents) && contents.Keys == torrents.Keys
      && (forall h :: h in torrents ==> torrents[h] in Repr && torrents[h].Valid() && torrents[h].View() == contents[h])
      && forall h, g :: h in torrents && g in torrents && h != g ==> torrents[h] != torrents[g]
    }

    constructor ()
      ensures Valid() && contents == map[] && fresh(Repr)
    {
      torrents, contents, Repr := map[], map[], {this};
    }

    method Register(infoHash: string, storage: TorrentStorage)
      requires Valid() && storage.Valid() && storage !in Repr
      modifies this
      ensures Valid() && contents == old(contents)[infoHash := storage.View()]
      ensures Repr == old(Repr) + {storage}
    {
      hide FilesTile, PiecesTile, Fits, Flat;
      ghost var flat := storage.View();
      torrents, contents, Repr := torrents[infoHash := storage], contents[infoHash := flat], Repr + {storage};
    }

    method ReadPiece(key: CacheKey) returns (r: Result<Bytes, DiskError>)
      requires Valid()
      ensures r == ReadPieceOf(contents, key)
    {
      if key.0 !in torrents {
        return Err(TorrentNotFound(key.0));
      }
      r := torrents[key.0].ReadPiece(key.1);
    }

    method ReadBlock(key: CacheKey, offset: nat, length: nat) returns (r: Result<Bytes, DiskError>)
      requires Valid()
      ensures r == ReadBlockOf(contents, key, offset, length)
    {
      if key.0 !in torrents {
        return Err(TorrentNotFound(key.0));
      }
      r := torrents[key.0].ReadBlock(key.1, offset, length);
    }

    method WritePiece(key: CacheKey, data: Bytes) returns (r: Option<DiskError>)
      requires Valid()
      modifies Repr
      ensures Valid() && Repr == old(Repr)
      ensures match WritePieceOf(old(contents), key, data)
        case Ok(after) => r == None && contents == after
        case Err(e) => r == Some(e) && contents == old(contents)
    {
      hide FilesTile, PiecesTile, Fits, Flat, Splice;
      if key.0 !in torrents {
        return Some(TorrentNotFound(key.0));
      }
      var storage := torrents[key.0];
      assert forall h :: h in torrents && h != key.0 ==> torrents[h] != storage;
      r := storage.WritePiece(key.1, data);
      hide FlatDisk.WritePiece, FlatDisk.Valid;
      contents := contents[key.0 := storage.View()];
      if r != None {
        assert contents == old(contents);
      }
    }

    method WriteBlock(key: CacheKey, offset: nat, data: Bytes) returns (r: Option<DiskError>)
      requires Valid()
      modifies Repr
      ensures Valid() && Repr == old(Repr)
      ensures match WriteBlockOf(old(contents), key, offset, data)
        case Ok(after) => r == None && contents == after
        case Err(e) => r == Some(e) && contents == old(contents)
    {
      hide FilesTile, PiecesTile, Fits, Flat, Splice;
      if key.0 !in torrents {
        return Some(TorrentNotFound(key.0));
      }
      var storage := torrents[key.0];
      assert forall h :: h in torrents && h != key.0 ==> torrents[h] != storage;
      r := storage.WriteBlock(key.1, offset, data);
      hide FlatDisk.WriteBlock, FlatDisk.Valid;
      contents := contents[key.0 := storage.View()];
      if r != None {
        assert contents == old(contents);
      }
    }

    method VerifyPiece(key: CacheKey, isV2: bool, expected: Bytes, digest: BlockStream.HashState -> Bytes)
      returns (r: Result<bool, DiskError>)
      requires Valid()
      ensures r == VerifyPieceOf(contents, key, isV2, expected, digest)
    {
      var data := ReadPiece(key);
      if data.Err? {
        return Err(data.error);
      }
      var hash := if isV2 then digest(BlockStream.V2(data.value)) else digest(BlockStream.V1(data.value));
      r := Ok(hash == expected);
    }
  }
}
