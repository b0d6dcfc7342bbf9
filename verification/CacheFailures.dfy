/** Short runs in which the cached disk and the disk under it part ways. */
module CacheFailures {
  import opened Prelude
  import opened OrderedMap
  import opened StorageLayout
  import opened DiskManager
  import opened CachedDisk
  import opened CachedRuns

  const A: CacheKey := ("", 0)
  const B: CacheKey := ("", 1)

  type Digest = BS.HashState -> Bytes

  /** A valid write of the one byte of a one-byte piece. */
  function WriteOne(key: CacheKey, b: byte, digest: Digest): (op: Op)
    ensures Writable(op)
  {
    WriteOp(key, 0, [b], 1, digest(BS.V1([b])), false)
  }

  lemma WriteOneVerifies(s: BS.BlockState, key: CacheKey, b: byte, digest: Digest)
    requires BS.ValidState(s) && key !in s.pieces
    ensures var added := BS.AddBlock(s, key, 0, [b], 1, 1);
      && key in added.pieces && BS.IsComplete(added.pieces[key])
      && BS.Finalize(added, key, digest(BS.V1([b])), digest).1
      && BS.Assemble(BS.Finalize(added, key, digest(BS.V1([b])), digest).0.pieces[key]) == [b]
  {
    var added, blocks := BS.AddBlock(s, key, 0, [b], 1, 1), map[0 := [b]];
    BS.FirstArrivalStreams(s, key, 0, [b], 1, 1);
    hide BS.AddBlock, BS.Finalize;
    assert BS.Aligned(0, blocks[0], 1);
    BS.StreamedVerifies(added, key, blocks, 1, 1, digest(BS.V1([b])), digest);
    JoinOne(blocks, 0);
    assert [] + [b] == [b];
  }

  /** It commits the piece: the cache takes it, and the disk if it has it. */
  lemma WriteOneCommits(m: Tiers, key: CacheKey, b: byte, digest: Digest)
    requires ValidTiers(m) && key !in m.blocks.pieces
    ensures var after := Step(m, WriteOne(key, b, digest), digest);
      && after.cache == ArcPolicy.Insert(m.cache, key, ArcPolicy.CachedPiece([b], true))
      && (match WritePieceOf(m.disks, key, [b])
          case Ok(disks) => after.disks == disks
          case Err(_) => after.disks == m.disks)
  {
    WriteOneVerifies(m.blocks, key, b, digest);
    hide BS.AddBlock, BS.Finalize, BS.RemovePiece, BS.Assemble, BS.IsComplete, ArcPolicy.Insert, WritePieceOf;
  }

  lemma WriteOneLeaves(m: Tiers, key: CacheKey, b: byte, digest: Digest)
    requires ValidTiers(m) && m.blocks.pieces == map[]
    ensures Step(m, WriteOne(key, b, digest), digest).blocks.pieces == map[]
  {
    var added := BS.AddBlock(m.blocks, key, 0, [b], 1, 1);
    WriteOneVerifies(m.blocks, key, b, digest);
    BS.AddBlockFrames(m.blocks, key, 0, [b], 1, 1);
    BS.RemoveFrames(added, key, digest(BS.V1([b])), digest);
    FinishBlocks(m.(blocks := added), key, digest(BS.V1([b])), digest);
    hide BS.AddBlock, BS.Finalize, BS.RemovePiece, BS.IsComplete, BS.Assemble, Finish, ValidDisks;
    var pieces := Step(m, WriteOne(key, b, digest), digest).blocks.pieces;
    assert pieces == pieces - {key};
  }

  /**
   The disk write fails, for want of a registered torrent, after the piece cache has
   taken the piece: the next read returns bytes that no disk has.
   */
  lemma FailedWriteIsCached(digest: Digest)
    ensures var m := RunFrom(Initial(1, map[]), [WriteOne(A, 1, digest)], digest);
      ReadPiece(m, A).1 == Ok([1]) && ReadPieceOf(m.disks, A).Err? && !Coherent(m)
  {
    var start, op := Initial(1, map[]), WriteOne(A, 1, digest);
    WriteOneCommits(start, A, 1, digest);
    var m := Step(start, op, digest);
    assert [op][1..] == [] && RunFrom(start, [op], digest) == RunFrom(m, [], digest);
    assert m.cache.t1.data == map[A := ArcPolicy.CachedPiece([1], true)];
    assert !OnDisk(m.disks)(A, m.cache.t1.data[A]);
  }

  const DISK := FlatDisk([PieceInfo(0, 1), PieceInfo(1, 1)], [0, 0])

  /** A cache of two pieces, by its two lists and its first ghost list. */
  function Two(t1: ArcPolicy.Lru, t2: ArcPolicy.Lru, b1: seq<CacheKey>, memory: int): ArcPolicy.Arc {
    ArcPolicy.Arc(t1, t2, b1, [], 0, 2, memory)
  }

  function One(key: CacheKey, b: byte): ArcPolicy.Lru {
    ArcPolicy.Lru([key], map[key := ArcPolicy.CachedPiece([b], true)])
  }

  lemma DiskIs()
    ensures ValidDisks(map["" := DISK])
    ensures DISK.ReadPiece(0) == Ok([0]) && DISK.ReadPiece(1) == Ok([0])
    ensures DISK.WritePiece(0, [1]).Ok?
  {
    assert DISK.pieces[1..] == [PieceInfo(1, 1)] && DISK.pieces[1..][1..] == [];
    assert DISK.bytes[0..1] == [0] && DISK.bytes[1..2] == [0];
  }

  lemma TwoReads(key: CacheKey, digest: Digest)
    requires key == A || key == B
    ensures ValidDisks(map["" := DISK])
    ensures var start := Initial(2, map["" := DISK]);
      Step(Step(start, ReadPieceOp(key), digest), ReadPieceOp(key), digest)
        == start.(cache := Two(ArcPolicy.EMPTY_LRU, One(key, 0), [], 1))
  {
    DiskIs();
    var start := Initial(2, map["" := DISK]);
    var first := Step(start, ReadPieceOp(key), digest);
    assert first.cache == Two(One(key, 0), ArcPolicy.EMPTY_LRU, [], 1);
  }

  const FIRST := ArcPolicy.CachedPiece([1], true)
  const OTHER := ArcPolicy.CachedPiece([0], true)

  /** The new copy goes to `t1` beside the old one. */
  lemma NewCopyIsBeside()
    ensures ArcPolicy.Insert(Two(ArcPolicy.EMPTY_LRU, One(A, 0), [], 1), A, FIRST) == Two(One(A, 1), One(A, 0), [], 2)
  {
  }

  /** A third piece then evicts the new copy. */
  lemma NewCopyIsEvicted()
    ensures ArcPolicy.Insert(Two(One(A, 1), One(A, 0), [], 2), B, OTHER) == Two(One(B, 0), One(A, 0), [A], 2)
  {
    var s := Two(One(A, 1), One(A, 0), [], 2);
    assert ArcPolicy.MakeRoom(s) == ArcPolicy.Replace(s, false);
    assert ArcPolicy.Replace(s, false) == Two(ArcPolicy.EMPTY_LRU, One(A, 0), [A], 1);
  }

  /** `B` is read from the disk and cached. */
  lemma ReadOther(m: Tiers, digest: Digest)
    requires ValidTiers(m) && m.blocks.pieces == map[] && m.cache == Two(One(A, 1), One(A, 0), [], 2)
    requires ReadPieceOf(m.disks, B) == Ok([0])
    ensures var r := Step(m, ReadPieceOp(B), digest);
      r.cache == Two(One(B, 0), One(A, 0), [A], 2) && r.disks == m.disks && r.blocks == m.blocks
  {
    NewCopyIsEvicted();
    assert ArcPolicy.Get(m.cache, B) == m.cache;
    hide ArcPolicy.Insert, ArcPolicy.Get, ReadPieceOf;
  }

  /** `A` is written while its old copy is in `t2`. */
  lemma WriteAgain(m: Tiers, digest: Digest)
    requires ValidTiers(m) && m.blocks.pieces == map[] && m.disks == map["" := DISK]
    requires m.cache == Two(ArcPolicy.EMPTY_LRU, One(A, 0), [], 1)
    ensures var r := Step(m, WriteOne(A, 1, digest), digest);
      && r.blocks.pieces == map[] && r.cache == Two(One(A, 1), One(A, 0), [], 2)
      && ReadPieceOf(r.disks, A) == Ok([1]) && ReadPieceOf(r.disks, B) == Ok([0])
  {
    DiskIs();
    assert WritePieceOf(m.disks, A, [1]).Ok? && ReadPieceOf(m.disks, B) == Ok([0]);
    WritePieceOfThenRead(m.disks, A, [1]);
    WriteOneCommits(m, A, 1, digest);
    WriteOneLeaves(m, A, 1, digest);
    NewCopyIsBeside();
    hide Step, WritePieceOf, ReadPieceOf, ArcPolicy.Insert, ValidDisks;
  }

  /**
   A piece that was read twice and is then written again has two copies in the cache.
   Once another piece evicts the new one, reads return the old bytes.
   */
  lemma StaleCopyIsRead(digest: Digest) returns (ops: seq<Op>)
    ensures ValidDisks(map["" := DISK]) && AllWritable(ops)
    ensures var m := RunFrom(Initial(2, map["" := DISK]), ops, digest);
      ReadPiece(m, A).1 == Ok([0]) && ReadPieceOf(m.disks, A) == Ok([1])
  {
    ops := [ReadPieceOp(A), ReadPieceOp(A), WriteOne(A, 1, digest), ReadPieceOp(B)];
    TwoReads(A, digest);
    var start := Initial(2, map["" := DISK]);
    hide Step, ReadPieceOf, ValidDisks;
    FourSteps(start, ops[0], ops[1], ops[2], ops[3], digest);
    var twice := start.(cache := Two(ArcPolicy.EMPTY_LRU, One(A, 0), [], 1));
    WriteAgain(twice, digest);
    ReadOther(Step(twice, ops[2], digest), digest);
  }

  /** Writing the bytes the disk has ghosts the piece beside its new copy in `t1`. */
  lemma RepeatIsGhosted()
    ensures ArcPolicy.Insert(Two(ArcPolicy.EMPTY_LRU, One(B, 0), [], 1), A, OTHER) == Two(One(A, 0), One(B, 0), [], 2)
    ensures ArcPolicy.Insert(Two(One(A, 0), One(B, 0), [], 2), A, OTHER) == Two(One(A, 0), One(B, 0), [A], 2)
  {
    assert [A][1..] == [] && One(A, 0).Pop() == ArcPolicy.EMPTY_LRU;
  }

  /** The ghost hit of the next write evicts the other piece and puts the new copy in `t2`. */
  lemma NewCopyIsInT2()
    ensures ArcPolicy.Insert(Two(One(A, 0), One(B, 0), [A], 2), A, FIRST)
         == ArcPolicy.Arc(One(A, 0), One(A, 1), [], [B], 1, 2, 2)
  {
    var s := Two(One(A, 0), One(B, 0), [A], 2);
    assert Sequences.Without([A], A) == [];
    assert [B][1..] == [] && One(B, 0).Pop() == ArcPolicy.EMPTY_LRU;
    assert ArcPolicy.GhostHit1(s, A) == ArcPolicy.Arc(One(A, 0), ArcPolicy.EMPTY_LRU, [], [B], 1, 2, 1);
  }

  /** `A` is read and then written with the bytes the disk has. */
  lemma ReadAndRepeat(m: Tiers, digest: Digest)
    requires ValidTiers(m) && m.blocks.pieces == map[] && m.disks == map["" := DISK]
    requires m.cache == Two(ArcPolicy.EMPTY_LRU, One(B, 0), [], 1)
    ensures var r := Step(Step(m, ReadPieceOp(A), digest), WriteOne(A, 0, digest), digest);
      && r.blocks.pieces == map[] && r.cache == Two(One(A, 0), One(B, 0), [A], 2)
      && ReadPieceOf(r.disks, A) == Ok([0]) && ReadPieceOf(r.disks, B) == Ok([0])
      && DiskTakes(r.disks, A, 1)
  {
    DiskIs();
    var read := Step(m, ReadPieceOp(A), digest);
    RepeatIsGhosted();
    assert ReadPieceOf(m.disks, A) == Ok([0]) && ReadPieceOf(m.disks, B) == Ok([0]);
    assert ArcPolicy.Get(m.cache, A) == m.cache;
    assert read == m.(cache := Two(One(A, 0), One(B, 0), [], 2));
    assert WritePieceOf(read.disks, A, [0]).Ok?;
    WritePieceOfThenRead(read.disks, A, [0]);
    WriteOneCommits(read, A, 0, digest);
    WriteOneLeaves(read, A, 0, digest);
    hide Step, WritePieceOf, ReadPieceOf, ArcPolicy.Insert, ArcPolicy.Get, ValidDisks;
  }

  /**
   A piece written again with the bytes it has is cached in `t1` and ghosted in `b1`.
   Nothing is stale then, but the next write puts its copy in `t2`, behind the old one.
   */
  lemma GhostedCopyIsRead(digest: Digest) returns (ops: seq<Op>, last: Op)
    ensures ValidDisks(map["" := DISK]) && AllWritable(ops) && AllWritable(ops + [last])
    ensures var start := Initial(2, map["" := DISK]);
      var before, after := RunFrom(start, ops, digest), RunFrom(start, ops + [last], digest);
      && Coherent(before) && last.WriteOp? && last.key !in before.cache.t2.data
      && ReadPiece(after, last.key).1 == Ok([0]) && ReadPieceOf(after.disks, last.key) == Ok([1])
  {
    ops, last := [ReadPieceOp(B), ReadPieceOp(B), ReadPieceOp(A), WriteOne(A, 0, digest)], WriteOne(A, 1, digest);
    var start := Initial(2, map["" := DISK]);
    TwoReads(B, digest);
    var twice := start.(cache := Two(ArcPolicy.EMPTY_LRU, One(B, 0), [], 1));
    ReadAndRepeat(twice, digest);
    FourSteps(start, ops[0], ops[1], ops[2], ops[3], digest);
    LastStep(start, ops, last, digest);
    StaleAfterGhost(RunFrom(start, ops, digest), digest);
    hide Step, RunFrom, ReadPieceOf, ReadPiece, ValidDisks;
  }

  lemma StaleAfterGhost(m: Tiers, digest: Digest)
    requires ValidTiers(m) && m.blocks.pieces == map[] && m.cache == Two(One(A, 0), One(B, 0), [A], 2)
    requires ReadPieceOf(m.disks, A) == Ok([0]) && ReadPieceOf(m.disks, B) == Ok([0]) && DiskTakes(m.disks, A, 1)
    ensures Coherent(m)
    ensures var r := Step(m, WriteOne(A, 1, digest), digest);
      ReadPiece(r, A).1 == Ok([0]) && ReadPieceOf(r.disks, A) == Ok([1])
  {
    GhostIsCoherent(m);
    hide Coherent;
    NewCopyIsInT2();
    WriteOneCommits(m, A, 1, digest);
    WritePieceTakes(m.disks, A, [1]);
    FirstListIsRead(Step(m, WriteOne(A, 1, digest), digest), A, 0);
    hide Step, ReadPiece, ReadPieceOf, WritePieceOf, ValidDisks, DiskTakes, ArcPolicy.Insert;
  }

  lemma GhostIsCoherent(m: Tiers)
    requires ValidTiers(m) && m.cache == Two(One(A, 0), One(B, 0), [A], 2)
    requires ReadPieceOf(m.disks, A) == Ok([0]) && ReadPieceOf(m.disks, B) == Ok([0])
    ensures Coherent(m)
  {
    hide ReadPieceOf, ValidDisks;
  }

  lemma FirstListIsRead(m: Tiers, key: CacheKey, b: byte)
    requires ValidTiers(m) && m.cache.t1 == One(key, b)
    ensures ReadPiece(m, key).1 == Ok([b])
  {
  }

  lemma WritePieceTakes(disks: Disks, key: CacheKey, data: Bytes)
    requires ValidDisks(disks) && DiskTakes(disks, key, |data|)
    ensures WritePieceOf(disks, key, data).Ok?
    ensures ReadPieceOf(WritePieceOf(disks, key, data).value, key) == Ok(data)
  {
    WritePieceOfThenRead(disks, key, data);
  }

  lemma {:induction false} LastStep(m: Tiers, ops: seq<Op>, last: Op, digest: Digest)
    requires ValidTiers(m) && AllWritable(ops) && Writable(last)
    ensures AllWritable(ops + [last]) && RunFrom(m, ops + [last], digest) == Step(RunFrom(m, ops, digest), last, digest)
    decreases |ops|
  {
    hide Step, Writable;
    if ops == [] {
      assert [] + [last] == [last] && [last][1..] == [];
      assert RunFrom(Step(m, last, digest), [], digest) == Step(m, last, digest);
    } else {
      assert (ops + [last])[1..] == ops[1..] + [last] && (ops + [last])[0] == ops[0];
      LastStep(Step(m, ops[0], digest), ops[1..], last, digest);
    }
  }

  lemma RunStep(m: Tiers, op: Op, rest: seq<Op>, digest: Digest)
    requires ValidTiers(m) && Writable(op) && AllWritable(rest)
    ensures AllWritable([op] + rest) && RunFrom(m, [op] + rest, digest) == RunFrom(Step(m, op, digest), rest, digest)
  {
    hide Step, Writable;
    assert ([op] + rest)[1..] == rest;
  }

  lemma Lists(a: Op, b: Op, c: Op, d: Op)
    ensures [d] == [d] + [] && [c, d] == [c] + [d] && [b, c, d] == [b] + [c, d] && [a, b, c, d] == [a] + [b, c, d]
  {
  }

  lemma FourSteps(m: Tiers, a: Op, b: Op, c: Op, d: Op, digest: Digest)
    requires ValidTiers(m) && Writable(a) && Writable(b) && Writable(c) && Writable(d)
    ensures AllWritable([a, b, c, d])
    ensures RunFrom(m, [a, b, c, d], digest) == Step(Step(Step(Step(m, a, digest), b, digest), c, digest), d, digest)
  {
    var m1 := Step(m, a, digest);
    var m2 := Step(m1, b, digest);
    var m3 := Step(m2, c, digest);
    Lists(a, b, c, d);
    hide Step, Writable;
    assert RunFrom(Step(m3, d, digest), [], digest) == Step(m3, d, digest);
    hide RunFrom;
    RunStep(m3, d, [], digest);
    RunStep(m2, c, [d], digest);
    RunStep(m1, b, [c, d], digest);
    RunStep(m, a, [b, c, d], digest);
  }
}
