/**
 The engine's own way to a piece: every block is written to the disk as it comes, and
 the piece is read back and verified when it has all of them.
 */
module DiskAssembly {
  import opened Prelude
  import opened OrderedMap
  import opened StorageLayout
  import opened DiskManager
  import opened CachedDisk

  /** Writes the blocks in the order they come; a refused write changes nothing. */
  ghost function WriteAll(disks: Disks, ds: seq<BS.Delivery>): (r: Disks)
    requires ValidDisks(disks)
    ensures ValidDisks(r)
  {
    if ds == [] then disks
    else
      var before, last := WriteAll(disks, ds[..|ds| - 1]), ds[|ds| - 1];
      WriteBlockOfValid(before, last.key, last.offset, last.data);
      match WriteBlockOf(before, last.key, last.offset, last.data)
      case Ok(after) => after
      case Err(_) => before
  }

  lemma WriteBlockOfValid(disks: Disks, key: CacheKey, offset: nat, data: Bytes)
    requires ValidDisks(disks)
    ensures WriteBlockOf(disks, key, offset, data).Ok? ==> ValidDisks(WriteBlockOf(disks, key, offset, data).value)
  {
  }

  /** The torrents of all the blocks are registered, with the piece lengths of the plan. */
  ghost predicate AllTaken(disks: Disks, ds: seq<BS.Delivery>, plan: BS.Plan) {
    forall d :: d in ds ==> DiskTakes(disks, d.key, plan(d.key).pieceLength)
  }

  lemma WriteKeepsLayout(disks: Disks, d: BS.Delivery, plan: BS.Plan, key: CacheKey, length: nat)
    requires ValidDisks(disks)
    requires BS.Aligned(d.offset, d.data, plan(d.key).pieceLength) && DiskTakes(disks, d.key, plan(d.key).pieceLength)
    ensures var r := WriteBlockOf(disks, d.key, d.offset, d.data);
      r.Ok? && (DiskTakes(r.value, key, length) <==> DiskTakes(disks, key, length))
  {
  }

  lemma {:induction false} WriteAllKeepsLayout(disks: Disks, ds: seq<BS.Delivery>, plan: BS.Plan, key: CacheKey,
                                               length: nat)
    requires ValidDisks(disks) && BS.Consistent(ds, plan) && AllTaken(disks, ds, plan)
    ensures DiskTakes(WriteAll(disks, ds), key, length) <==> DiskTakes(disks, key, length)
  {
    if ds != [] {
      var prefix, last := ds[..|ds| - 1], ds[|ds| - 1];
      assert last in ds;
      hide DiskTakes, WriteBlockOf;
      WriteAllKeepsLayout(disks, prefix, plan, key, length);
      WriteAllKeepsLayout(disks, prefix, plan, last.key, plan(last.key).pieceLength);
      WriteKeepsLayout(WriteAll(disks, prefix), last, plan, key, length);
    }
  }

  /** Two aligned blocks at different offsets do not overlap. */
  lemma AlignedApart(o: nat, a: Bytes, p: nat, b: Bytes, pieceLength: nat)
    requires BS.Aligned(o, a, pieceLength) && BS.Aligned(p, b, pieceLength) && o != p
    ensures o + |a| <= p || p + |b| <= o
  {
  }

  /** Every block written stays on the disk, whatever is written after it. */
  lemma {:induction false} WrittenBlocksStay(disks: Disks, ds: seq<BS.Delivery>, plan: BS.Plan, key: CacheKey, o: nat)
    requires ValidDisks(disks) && BS.Consistent(ds, plan) && AllTaken(disks, ds, plan) && o in BS.Gather(ds, key)
    ensures var b := BS.Gather(ds, key)[o]; ReadBlockOf(WriteAll(disks, ds), key, o, |b|) == Ok(b)
  {
    var prefix, last := ds[..|ds| - 1], ds[|ds| - 1];
    var before := WriteAll(disks, prefix);
    var b := BS.Gather(ds, key)[o];
    assert last in ds;
    WriteAllKeepsLayout(disks, prefix, plan, last.key, plan(last.key).pieceLength);
    hide DiskTakes, WriteBlockOf, ReadBlockOf, ValidDisks;
    WriteKeepsLayout(before, last, plan, last.key, plan(last.key).pieceLength);
    WriteBlockOfThenRead(before, last.key, last.offset, last.data);
    if last.key != key || last.offset != o {
      WrittenBlocksStay(disks, prefix, plan, key, o);
      BS.GatherAligned(ds, plan, key);
      if last.key == key {
        AlignedApart(o, b, last.offset, last.data, plan(key).pieceLength);
      }
    }
  }

  /** Reads of adjacent ranges give the read of both. */
  lemma AdjacentReads(disks: Disks, key: CacheKey, offset: nat, a: Bytes, b: Bytes)
    requires ValidDisks(disks)
    requires ReadBlockOf(disks, key, offset, |a|) == Ok(a) && ReadBlockOf(disks, key, offset + |a|, |b|) == Ok(b)
    ensures ReadBlockOf(disks, key, offset, |a + b|) == Ok(a + b)
  {
    var d := disks[key.0];
    TiledPieceFits(d.pieces, 0, |d.bytes|, key.1);
    var start := d.pieces[key.1].offset + offset;
    assert d.bytes[start..start + |a| + |b|] == d.bytes[start..start + |a|] + d.bytes[start + |a|..start + |a| + |b|];
  }

  lemma {:induction false} ContiguousIsRead(disks: Disks, key: CacheKey, blocks: map<nat, Bytes>, from: nat)
    requires ValidDisks(disks) && BS.ValidBlocks(blocks)
    requires forall o :: o in blocks ==> ReadBlockOf(disks, key, o, |blocks[o]|) == Ok(blocks[o])
    requires ReadBlockOf(disks, key, from, 0) == Ok([])
    ensures var c := BS.Contiguous(blocks, from); ReadBlockOf(disks, key, from, |c|) == Ok(c)
    decreases U32_RANGE - from
  {
    if from in blocks {
      var next := from + |blocks[from]|;
      EmptyRead(disks, key, from, |blocks[from]|);
      ContiguousIsRead(disks, key, blocks, next);
      AdjacentReads(disks, key, from, blocks[from], BS.Contiguous(blocks, next));
    }
  }

  /** Where a range can be read, so can the empty one at its end. */
  lemma EmptyRead(disks: Disks, key: CacheKey, offset: nat, length: nat)
    requires ValidDisks(disks) && ReadBlockOf(disks, key, offset, length).Ok?
    ensures ReadBlockOf(disks, key, offset + length, 0) == Ok([])
  {
    var d := disks[key.0];
    TiledPieceFits(d.pieces, 0, |d.bytes|, key.1);
    var at := d.pieces[key.1].offset + offset + length;
    assert d.bytes[at..at] == [];
  }

  /**
   Once all blocks of a piece have come, interleaved with those of others in any order
   and with repeats, the piece on the disk is their concatenation.
   */
  lemma BlocksMakePiece(disks: Disks, ds: seq<BS.Delivery>, plan: BS.Plan, key: CacheKey)
    requires ValidDisks(disks) && BS.Consistent(ds, plan) && AllTaken(disks, ds, plan)
    requires BS.Gather(ds, key) != map[] && |BS.Gather(ds, key)| == BS.BlockCount(plan(key).pieceLength)
    ensures ReadPieceOf(WriteAll(disks, ds), key) == Ok(Join(Entries(BS.Gather(ds, key))))
  {
    var blocks, length, after := BS.Gather(ds, key), plan(key).pieceLength, WriteAll(disks, ds);
    BS.GatherAligned(ds, plan, key);
    BS.GatherIsSet(ds, plan, key);
    BS.CompleteIffPrefixFull(blocks, length);
    BS.FullIsChain(blocks, length, 0);
    BS.ChainAssembles(blocks, 0);
    forall o | o in blocks ensures ReadBlockOf(after, key, o, |blocks[o]|) == Ok(blocks[o]) {
      WrittenBlocksStay(disks, ds, plan, key, o);
    }
    var o :| o in blocks;
    assert BS.Delivery(key, o, blocks[o]) in ds;
    WriteAllKeepsLayout(disks, ds, plan, key, length);
    PieceStartIsRead(after, key, length);
    ContiguousIsRead(after, key, blocks, 0);
  }

  lemma PieceStartIsRead(disks: Disks, key: CacheKey, length: nat)
    requires ValidDisks(disks) && DiskTakes(disks, key, length)
    ensures ReadBlockOf(disks, key, 0, 0) == Ok([])
    ensures ReadPieceOf(disks, key) == ReadBlockOf(disks, key, 0, length)
  {
    var d := disks[key.0];
    TiledPieceFits(d.pieces, 0, |d.bytes|, key.1);
    var at := d.pieces[key.1].offset;
    assert d.bytes[at..at] == [];
  }

  /**
   The two ways to a verified piece agree: verifying the piece read back from the disk
   accepts it exactly when the hash that the block cache fed as the blocks came does.
   */
  lemma VerifiersAgree(disks: Disks, s: BS.BlockState, ds: seq<BS.Delivery>, plan: BS.Plan, key: CacheKey,
                       expected: Bytes, digest: BS.HashState -> Bytes)
    requires ValidDisks(disks) && BS.Consistent(ds, plan) && AllTaken(disks, ds, plan)
    requires BS.ValidState(s) && key !in s.pieces
    requires BS.Gather(ds, key) != map[] && |BS.Gather(ds, key)| == BS.BlockCount(plan(key).pieceLength)
    ensures VerifyPieceOf(WriteAll(disks, ds), key, plan(key).version == 2, expected, digest)
         == Ok(BS.Finalize(BS.Deliver(s, ds, plan), key, expected, digest).1)
  {
    BlocksMakePiece(disks, ds, plan, key);
    BS.VerifyIff(s, ds, plan, key, expected, digest);
    BS.StreamAbsorbsPrefix(s, ds, plan, key);
    hide BS.Finalize, BS.Deliver, WriteAll, ReadPieceOf;
  }
}
