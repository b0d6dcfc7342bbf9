/**
 Runs of writes, reads and clears against the cached disk: what they keep, when
 their reads agree with the disk, and which blocks they leave buffered.
 */
module CachedRuns {
  import opened Prelude
  import opened OrderedMap
  import opened ArcPolicy
  import opened ArcHistory
  import opened DiskManager
  import opened CachedDisk

  datatype Op =
    | WriteOp(key: CacheKey, offset: nat, data: Bytes, pieceLength: nat, expected: Bytes, isV2: bool)
    | ReadBlockOp(key: CacheKey, offset: nat, length: nat)
    | ReadPieceOp(key: CacheKey)
    | ClearOp

  ghost predicate Writable(op: Op) {
    op.WriteOp? ==> |op.data| > 0 && op.offset + |op.data| < U32_RANGE
  }

  ghost predicate AllWritable(ops: seq<Op>) {
    forall op :: op in ops ==> Writable(op)
  }

  lemma WriteBlockValid(m: Tiers, key: CacheKey, offset: nat, data: Bytes, pieceLength: nat, expected: Bytes,
                        isV2: bool, digest: BS.HashState -> Bytes)
    requires ValidTiers(m) && |data| > 0 && offset + |data| < U32_RANGE
    ensures ValidTiers(WriteBlock(m, key, offset, data, pieceLength, expected, isV2, digest).0)
  {
    var added := BS.AddBlock(m.blocks, key, offset, data, pieceLength, Version(isV2));
    var whole := BS.Assemble(added.pieces[key]);
    if WritePieceOf(m.disks, key, whole).Ok? {
      WritePieceOfThenRead(m.disks, key, whole);
    }
  }

  ghost function Step(m: Tiers, op: Op, digest: BS.HashState -> Bytes): (r: Tiers)
    requires ValidTiers(m) && Writable(op)
    ensures ValidTiers(r)
  {
    match op
    case WriteOp(key, offset, data, pieceLength, expected, isV2) =>
      WriteBlockValid(m, key, offset, data, pieceLength, expected, isV2, digest);
      WriteBlock(m, key, offset, data, pieceLength, expected, isV2, digest).0
    case ReadBlockOp(key, offset, length) => ReadBlock(m, key, offset, length).0
    case ReadPieceOp(key) => ReadPiece(m, key).0
    case ClearOp => ClearCaches(m)
  }

  ghost function RunFrom(m: Tiers, ops: seq<Op>, digest: BS.HashState -> Bytes): (r: Tiers)
    requires ValidTiers(m) && AllWritable(ops)
    ensures ValidTiers(r)
    decreases |ops|
  {
    if ops == [] then m else RunFrom(Step(m, ops[0], digest), ops[1..], digest)
  }

  // --------------------------------------------------------- disciplined runs

  /** The write stores a complete, verified piece. */
  ghost predicate Commits(m: Tiers, op: Op, digest: BS.HashState -> Bytes)
    requires ValidTiers(m) && Writable(op) && op.WriteOp?
  {
    var added := BS.AddBlock(m.blocks, op.key, op.offset, op.data, op.pieceLength, Version(op.isV2));
    BS.IsComplete(added.pieces[op.key]) && BS.Finalize(added, op.key, op.expected, digest).1
  }

  /** The bytes of the piece with the block of this write. */
  ghost function Written(m: Tiers, op: Op): Bytes
    requires ValidTiers(m) && Writable(op) && op.WriteOp?
  {
    BS.Assemble(BS.AddBlock(m.blocks, op.key, op.offset, op.data, op.pieceLength, Version(op.isV2)).pieces[op.key])
  }

  /** A verified piece is written where the disk takes it and no stale copy of it survives. */
  ghost predicate Disciplined(m: Tiers, op: Op, digest: BS.HashState -> Bytes)
    requires ValidTiers(m) && Writable(op)
  {
    op.WriteOp? && Commits(m, op, digest) ==>
      DiskTakes(m.disks, op.key, |Written(m, op)|) && !StaleCopySurvives(m.cache, op.key, Written(m, op))
  }

  lemma WriteKeepsInvIff(m: Tiers, op: Op, digest: BS.HashState -> Bytes)
    requires TiersInv(m) && Writable(op) && op.WriteOp?
    ensures ListsValid(Step(m, op, digest).cache)
    ensures Coherent(Step(m, op, digest)) <==> Disciplined(m, op, digest)
  {
    hide BS.AddBlock, BS.Finalize, BS.RemovePiece, BS.IsComplete, Insert, StaleCopySurvives, ListsValid, DiskTakes;
    var added := BS.AddBlock(m.blocks, op.key, op.offset, op.data, op.pieceLength, Version(op.isV2));
    var ready := m.(blocks := BS.Finalize(added, op.key, op.expected, digest).0);
    if Commits(m, op, digest) {
      assert ValidTiers(ready) && Coherent(ready);
      assert BS.Assemble(ready.blocks.pieces[op.key]) == Written(m, op);
      CommitCoherentIff(ready, op.key);
      InsertValid(m.cache, op.key, CachedPiece(Written(m, op), true));
    }
  }

  /** The exact condition for every step: what the caches hold stays what the disk holds. */
  lemma StepKeepsInvIff(m: Tiers, op: Op, digest: BS.HashState -> Bytes)
    requires TiersInv(m) && Writable(op)
    ensures TiersInv(Step(m, op, digest)) <==> Disciplined(m, op, digest)
  {
    match op
    case WriteOp(_, _, _, _, _, _) => WriteKeepsInvIff(m, op, digest);
    case ReadBlockOp(key, _, _) => GetKeepsInv(m, key);
    case ReadPieceOp(key) => ReadPieceKeepsInv(m, key);
    case ClearOp =>
  }

  ghost predicate DisciplinedRun(m: Tiers, ops: seq<Op>, digest: BS.HashState -> Bytes)
    requires ValidTiers(m) && AllWritable(ops)
    decreases |ops|
  {
    ops == [] || (Disciplined(m, ops[0], digest) && DisciplinedRun(Step(m, ops[0], digest), ops[1..], digest))
  }

  /** The caches agree with the disk before and after every step. */
  ghost predicate StaysCoherent(m: Tiers, ops: seq<Op>, digest: BS.HashState -> Bytes)
    requires ValidTiers(m) && AllWritable(ops)
    decreases |ops|
  {
    Coherent(m) && (ops == [] || StaysCoherent(Step(m, ops[0], digest), ops[1..], digest))
  }

  /** The caches agree with the disk throughout exactly the disciplined runs. */
  lemma {:induction false} RunCoherentIff(m: Tiers, ops: seq<Op>, digest: BS.HashState -> Bytes)
    requires TiersInv(m) && AllWritable(ops)
    ensures StaysCoherent(m, ops, digest) <==> DisciplinedRun(m, ops, digest)
    decreases |ops|
  {
    if ops != [] {
      hide Step, Disciplined, Coherent, ListsValid;
      StepKeepsInvIff(m, ops[0], digest);
      StepKeepsLists(m, ops[0], digest);
      if TiersInv(Step(m, ops[0], digest)) {
        RunCoherentIff(Step(m, ops[0], digest), ops[1..], digest);
      }
    }
  }

  lemma StepKeepsLists(m: Tiers, op: Op, digest: BS.HashState -> Bytes)
    requires TiersInv(m) && Writable(op)
    ensures ListsValid(Step(m, op, digest).cache)
  {
    if op.WriteOp? {
      WriteKeepsInvIff(m, op, digest);
    } else {
      StepKeepsInvIff(m, op, digest);
    }
    hide Step, ListsValid;
  }

  lemma {:induction false} RunKeepsInv(m: Tiers, ops: seq<Op>, digest: BS.HashState -> Bytes)
    requires TiersInv(m) && AllWritable(ops) && DisciplinedRun(m, ops, digest)
    ensures TiersInv(RunFrom(m, ops, digest))
    decreases |ops|
  {
    if ops != [] {
      StepKeepsInvIff(m, ops[0], digest);
      RunKeepsInv(Step(m, ops[0], digest), ops[1..], digest);
    }
  }

  /** No verified piece is written while it is cached. */
  ghost predicate WritesUncached(m: Tiers, ops: seq<Op>, digest: BS.HashState -> Bytes)
    requires ValidTiers(m) && AllWritable(ops)
    decreases |ops|
  {
    ops == [] ||
    ((ops[0].WriteOp? && Commits(m, ops[0], digest) ==> !m.cache.Contains(ops[0].key)) &&
     WritesUncached(Step(m, ops[0], digest), ops[1..], digest))
  }

  /** In such runs the four lists of the piece cache stay disjoint as well. */
  lemma {:induction false} RunKeepsTidy(m: Tiers, ops: seq<Op>, digest: BS.HashState -> Bytes)
    requires ValidTiers(m) && Tidy(m.cache) && AllWritable(ops) && WritesUncached(m, ops, digest)
    ensures Tidy(RunFrom(m, ops, digest).cache)
    decreases |ops|
  {
    if ops != [] {
      StepKeepsTidy(m, ops[0], digest);
      hide Step, Tidy;
      RunKeepsTidy(Step(m, ops[0], digest), ops[1..], digest);
    }
  }

  lemma StepKeepsTidy(m: Tiers, op: Op, digest: BS.HashState -> Bytes)
    requires ValidTiers(m) && Tidy(m.cache) && Writable(op)
    requires op.WriteOp? && Commits(m, op, digest) ==> !m.cache.Contains(op.key)
    ensures Tidy(Step(m, op, digest).cache)
  {
    hide BS.AddBlock, BS.Finalize, BS.RemovePiece, BS.IsComplete, Insert, Get, Tidy, ReadPieceOf;
    match op
    case WriteOp(_, _, _, _, _, _) =>
      if Commits(m, op, digest) {
        var added := BS.AddBlock(m.blocks, op.key, op.offset, op.data, op.pieceLength, Version(op.isV2));
        var finalized := BS.Finalize(added, op.key, op.expected, digest).0;
        InsertUncachedTidy(m.cache, op.key, CachedPiece(BS.Assemble(finalized.pieces[op.key]), true));
      }
    case ReadBlockOp(key, _, _) => TidyIsValid(m.cache); GetValid(m.cache, key);
    case ReadPieceOp(key) =>
      TidyIsValid(m.cache);
      GetValid(m.cache, key);
      if !m.cache.Contains(key) && ReadPieceOf(m.disks, key).Ok? {
        InsertUncachedTidy(Get(m.cache, key), key, CachedPiece(ReadPieceOf(m.disks, key).value, true));
      }
    case ClearOp => EmptyTidy(m.cache.capacity);
  }

  lemma TidyIsValid(s: Arc)
    requires Tidy(s)
    ensures ListsValid(s)
  {
  }

  lemma EmptyTidy(capacity: nat)
    ensures Tidy(Empty(capacity))
  {
  }

  /**
   After any disciplined run, through all evictions, promotions, failed
   verifications and clears, a read of a piece with no buffered block returns
   exactly what the disk alone would return, errors included.
   */
  lemma ReadsAgreeWithDisk(capacity: nat, disks: Disks, ops: seq<Op>, digest: BS.HashState -> Bytes,
                           key: CacheKey, offset: nat, length: nat)
    requires ValidDisks(disks) && AllWritable(ops) && DisciplinedRun(Initial(capacity, disks), ops, digest)
    requires key !in RunFrom(Initial(capacity, disks), ops, digest).blocks.pieces
    ensures var m := RunFrom(Initial(capacity, disks), ops, digest);
      && ReadPiece(m, key).1 == ReadPieceOf(m.disks, key)
      && ReadBlock(m, key, offset, length).1 == ReadBlockOf(m.disks, key, offset, length)
  {
    var m := RunFrom(Initial(capacity, disks), ops, digest);
    RunKeepsInv(Initial(capacity, disks), ops, digest);
    CoherentReadsAgree(m, key, offset, length);
  }

  // --------------------------------------------- where cached pieces come from

  lemma InsertCachesOnly(s: Arc, key: CacheKey, piece: CachedPiece, other: CacheKey)
    requires !s.Contains(other) && other != key
    ensures !Insert(s, key, piece).Contains(other)
  {
    hide Insert;
    InsertCopies(s, key, piece, (k, p) => k != other);
  }

  lemma FinishCache(m: Tiers, key: CacheKey, expected: Bytes, digest: BS.HashState -> Bytes, other: CacheKey)
    requires ValidTiers(m) && key in m.blocks.pieces
    ensures Finish(m, key, expected, digest).0.cache.Contains(other) ==>
      m.cache.Contains(other) || (other == key && BS.Finalize(m.blocks, key, expected, digest).1)
  {
    hide Insert, BS.RemovePiece, BS.Assemble, WritePieceOf;
    var finalized := BS.Finalize(m.blocks, key, expected, digest).0;
    hide BS.Finalize;
    if other != key && !m.cache.Contains(other) {
      InsertCachesOnly(m.cache, key, CachedPiece(BS.Assemble(finalized.pieces[key]), true), other);
    }
  }

  /** A step caches a piece only by reading it whole or by storing it. */
  lemma StepCaches(m: Tiers, op: Op, digest: BS.HashState -> Bytes, key: CacheKey)
    requires ValidTiers(m) && Writable(op)
    ensures Step(m, op, digest).cache.Contains(key) ==> m.cache.Contains(key) || MayCache(m, op, digest, key)
  {
    hide Insert, BS.AddBlock, BS.Finalize, BS.IsComplete, Finish;
    match op
    case WriteOp(_, _, _, _, _, _) =>
      var added := BS.AddBlock(m.blocks, op.key, op.offset, op.data, op.pieceLength, Version(op.isV2));
      FinishCache(m.(blocks := added), op.key, op.expected, digest, key);
    case ReadBlockOp(_, _, _) =>
    case ReadPieceOp(_) =>
      if op.key != key && !m.cache.Contains(key) && ReadPieceOf(m.disks, op.key).Ok? {
        InsertCachesOnly(Get(m.cache, op.key), op.key, CachedPiece(ReadPieceOf(m.disks, op.key).value, true), key);
      }
    case ClearOp =>
  }

  /** A piece read from the disk is cached with the bytes that were read; the disk and the blocks stay. */
  lemma ReadPieceCaches(m: Tiers, key: CacheKey)
    requires ValidTiers(m)
    ensures var (after, r) := ReadPiece(m, key);
      && after.blocks == m.blocks && after.disks == m.disks
      && (r.Ok? && !m.cache.Contains(key) && key !in m.blocks.pieces ==> after.cache.Lookup(key) == Some(r.value))
      && (m.cache.Contains(key) ==> r == Ok(m.cache.Lookup(key).value) && after.cache == Get(m.cache, key))
  {
    hide ReadPieceOf;
    var r := ReadPieceOf(m.disks, key);
    if !m.cache.Contains(key) && r.Ok? {
      var piece := CachedPiece(r.value, true);
      assert AllCopies(m.cache, (k, p: CachedPiece) => k == key ==> p == piece);
      assert AllCopies(Get(m.cache, key), (k, p: CachedPiece) => k == key ==> p == piece);
      InsertCopies(Get(m.cache, key), key, piece, (k, p: CachedPiece) => k == key ==> p == piece);
      InsertHolds(Get(m.cache, key), key, piece);
      hide Insert, Get;
    }
  }

  /** A block read caches nothing, and clearing the caches leaves the disk alone. */
  lemma OtherStepsCacheNothing(m: Tiers, key: CacheKey, offset: nat, length: nat, digest: BS.HashState -> Bytes)
    requires ValidTiers(m)
    ensures Step(m, ReadBlockOp(key, offset, length), digest) == m.(cache := Get(m.cache, key))
    ensures var cleared := Step(m, Op.ClearOp, digest);
      && cleared.disks == m.disks && cleared.blocks.pieces == map[] && cleared.blocks.memory == 0
      && (forall k :: !cleared.cache.Contains(k)) && cleared.cache.memory == 0
  {
  }

  /** The step may leave `key` in the piece cache. */
  ghost predicate MayCache(m: Tiers, op: Op, digest: BS.HashState -> Bytes, key: CacheKey)
    requires ValidTiers(m) && Writable(op)
  {
    op == ReadPieceOp(key) || (op.WriteOp? && op.key == key && Commits(m, op, digest))
  }

  /**
   The disk takes every verified piece, and a piece that may be cached is written
   again only with the bytes the disk has. `seen` are the pieces that may be cached.
   */
  ghost predicate WrittenAlike(m: Tiers, ops: seq<Op>, seen: set<CacheKey>, digest: BS.HashState -> Bytes)
    requires ValidTiers(m) && AllWritable(ops)
    decreases |ops|
  {
    ops == [] ||
    (var op := ops[0];
     && (op.WriteOp? && Commits(m, op, digest) ==>
           DiskTakes(m.disks, op.key, |Written(m, op)|) &&
           (op.key in seen ==> ReadPieceOf(m.disks, op.key) == Ok(Written(m, op))))
     && WrittenAlike(Step(m, op, digest), ops[1..],
          if !op.ClearOp? && MayCache(m, op, digest, op.key) then seen + {op.key} else seen, digest))
  }

  /** A caller that writes the same bytes again need not know what is cached. */
  lemma {:induction false} WrittenAlikeIsDisciplined(m: Tiers, ops: seq<Op>, seen: set<CacheKey>,
                                                     digest: BS.HashState -> Bytes)
    requires TiersInv(m) && AllWritable(ops) && WrittenAlike(m, ops, seen, digest)
    requires forall k :: m.cache.Contains(k) ==> k in seen
    ensures DisciplinedRun(m, ops, digest)
    decreases |ops|
  {
    if ops != [] {
      var op := ops[0];
      var seen' := if !op.ClearOp? && MayCache(m, op, digest, op.key) then seen + {op.key} else seen;
      RepeatIsDisciplined(m, op, digest);
      StepKeepsInvIff(m, op, digest);
      SeenGrows(m, op, seen, digest);
      hide Step, Commits, Written, DiskTakes, TiersInv, Disciplined, MayCache;
      WrittenAlikeIsDisciplined(Step(m, op, digest), ops[1..], seen', digest);
    }
  }

  /** What is cached after a step was seen before it or may be cached by it. */
  lemma SeenGrows(m: Tiers, op: Op, seen: set<CacheKey>, digest: BS.HashState -> Bytes)
    requires ValidTiers(m) && Writable(op) && forall k :: m.cache.Contains(k) ==> k in seen
    ensures var seen' := if !op.ClearOp? && MayCache(m, op, digest, op.key) then seen + {op.key} else seen;
      forall k :: Step(m, op, digest).cache.Contains(k) ==> k in seen'
  {
    var seen' := if !op.ClearOp? && MayCache(m, op, digest, op.key) then seen + {op.key} else seen;
    forall k | Step(m, op, digest).cache.Contains(k) ensures k in seen' {
      StepCaches(m, op, digest, k);
    }
    hide Step, Commits;
  }

  /** Writing what the disk has already leaves no stale copy, however often the piece is cached. */
  lemma RepeatIsDisciplined(m: Tiers, op: Op, digest: BS.HashState -> Bytes)
    requires TiersInv(m) && Writable(op)
    ensures (op.WriteOp? && Commits(m, op, digest) ==>
               DiskTakes(m.disks, op.key, |Written(m, op)|) &&
               (m.cache.Contains(op.key) ==> ReadPieceOf(m.disks, op.key) == Ok(Written(m, op))))
            ==> Disciplined(m, op, digest)
  {
    hide Commits, Written, DiskTakes, ReadPieceOf, EvictsFromT1, EvictsOwnT2, AdaptedB1, AdaptedB2;
    if op.WriteOp? && m.cache.Contains(op.key) {
      assert op.key in m.cache.t1.data ==> OnDisk(m.disks)(op.key, m.cache.t1.data[op.key]);
      assert op.key in m.cache.t2.data ==> OnDisk(m.disks)(op.key, m.cache.t2.data[op.key]);
    }
  }

  // --------------------------------------------------- the blocks a run buffers

  /** The blocks of each piece written so far and not yet complete. */
  type Buffers = map<CacheKey, map<nat, Bytes>>

  function Held(bufs: Buffers, key: CacheKey): map<nat, Bytes> {
    if key in bufs then bufs[key] else map[]
  }

  /** A piece leaves the buffers with its last block, whatever its digest. */
  function Buffer(bufs: Buffers, op: Op): Buffers {
    if op.ClearOp? then map[]
    else if op.WriteOp? then
      var more := Held(bufs, op.key)[op.offset := op.data];
      if |more| == BS.BlockCount(op.pieceLength) then bufs - {op.key} else bufs[op.key := more]
    else bufs
  }

  function BufferAll(bufs: Buffers, ops: seq<Op>): Buffers
    decreases |ops|
  {
    if ops == [] then bufs else BufferAll(Buffer(bufs, ops[0]), ops[1..])
  }

  /** Writes of aligned blocks as the torrent plans them, a repeat carrying the same bytes. */
  ghost predicate Orderly(bufs: Buffers, op: Op, plan: BS.Plan) {
    op.WriteOp? ==>
      && op.pieceLength == plan(op.key).pieceLength && Version(op.isV2) == plan(op.key).version
      && BS.Aligned(op.offset, op.data, op.pieceLength)
      && (op.offset in Held(bufs, op.key) ==> Held(bufs, op.key)[op.offset] == op.data)
  }

  ghost predicate OrderlyRun(bufs: Buffers, ops: seq<Op>, plan: BS.Plan)
    decreases |ops|
  {
    ops == [] || (Orderly(bufs, ops[0], plan) && OrderlyRun(Buffer(bufs, ops[0]), ops[1..], plan))
  }

  /** The block cache holds exactly these blocks of the piece, hashed up to the first gap. */
  ghost predicate Holding(s: BS.BlockState, blocks: map<nat, Bytes>, plan: BS.Plan, key: CacheKey) {
    && BS.Holds(s, key, blocks, plan(key))
    && (blocks != map[] ==>
          BS.AlignedBlocks(blocks, plan(key).pieceLength) && |blocks| < BS.BlockCount(plan(key).pieceLength))
  }

  ghost predicate BlocksInv(s: BS.BlockState, bufs: Buffers, plan: BS.Plan) {
    BS.ValidState(s) && BS.Accounted(s) && forall key :: Holding(s, Held(bufs, key), plan, key)
  }

  lemma FinishBlocks(m: Tiers, key: CacheKey, expected: Bytes, digest: BS.HashState -> Bytes)
    requires ValidTiers(m) && key in m.blocks.pieces
    ensures var finalized := BS.Finalize(m.blocks, key, expected, digest).0;
      Finish(m, key, expected, digest).0.blocks == BS.RemovePiece(finalized, key)
  {
  }

  /** The held blocks of every piece after one more block. */
  lemma WriteHolding(s: BS.BlockState, bufs: Buffers, op: Op, plan: BS.Plan, key: CacheKey)
    requires BlocksInv(s, bufs, plan) && op.WriteOp? && Writable(op) && Orderly(bufs, op, plan)
    ensures var added := BS.AddBlock(s, op.key, op.offset, op.data, op.pieceLength, Version(op.isV2));
      var blocks := if key == op.key then Held(bufs, key)[op.offset := op.data] else Held(bufs, key);
      && BS.Holds(added, key, blocks, plan(key))
      && (blocks != map[] ==>
            BS.AlignedBlocks(blocks, plan(key).pieceLength) && |blocks| <= BS.BlockCount(plan(key).pieceLength))
  {
    hide BS.AddBlock, BS.Holds, BS.Accounted;
    assert Holding(s, Held(bufs, key), plan, key);
    BS.AddHolds(s, BS.Delivery(op.key, op.offset, op.data), plan, key, Held(bufs, key));
    var blocks := if key == op.key then Held(bufs, key)[op.offset := op.data] else Held(bufs, key);
    if blocks != map[] {
      BS.AlignedCount(blocks, plan(key).pieceLength);
    }
  }

  lemma WriteAccounts(m: Tiers, op: Op, bufs: Buffers, plan: BS.Plan, digest: BS.HashState -> Bytes)
    requires ValidTiers(m) && BlocksInv(m.blocks, bufs, plan) && op.WriteOp? && Writable(op) && Orderly(bufs, op, plan)
    ensures BS.Accounted(Step(m, op, digest).blocks)
  {
    hide BS.AddBlock, BS.Finalize, BS.RemovePiece, BS.Accounted, BS.Aligned, BS.AlignedBlocks, BS.BlockCount;
    hide BS.IsComplete, Finish;
    var added := BS.AddBlock(m.blocks, op.key, op.offset, op.data, op.pieceLength, Version(op.isV2));
    assert Holding(m.blocks, Held(bufs, op.key), plan, op.key);
    BS.AddBlockAccountsIff(m.blocks, op.key, op.offset, op.data, op.pieceLength, Version(op.isV2));
    FinishBlocks(m.(blocks := added), op.key, op.expected, digest);
    BS.OthersAccounted(added, op.key, op.expected, digest);
    BS.OthersAccounted(BS.Finalize(added, op.key, op.expected, digest).0, op.key, op.expected, digest);
  }

  /** What the block cache holds after a write: all of `added`, or all of it but the completed piece. */
  lemma WriteLeaves(m: Tiers, bufs: Buffers, op: Op, plan: BS.Plan, digest: BS.HashState -> Bytes)
    requires ValidTiers(m) && BlocksInv(m.blocks, bufs, plan) && op.WriteOp? && Writable(op) && Orderly(bufs, op, plan)
    ensures var added := BS.AddBlock(m.blocks, op.key, op.offset, op.data, op.pieceLength, Version(op.isV2));
      var after, more := Step(m, op, digest).blocks, Held(bufs, op.key)[op.offset := op.data];
      if |more| == BS.BlockCount(op.pieceLength) then BS.SameElsewhere(added, after, op.key) && op.key !in after.pieces
      else after == added
  {
    hide BS.AddBlock, BS.Finalize, BS.RemovePiece, BS.Accounted, BS.Aligned, BS.AlignedBlocks, BS.BlockCount, Finish;
    hide BS.SameElsewhere;
    var added := BS.AddBlock(m.blocks, op.key, op.offset, op.data, op.pieceLength, Version(op.isV2));
    WriteHolding(m.blocks, bufs, op, plan, op.key);
    FinishBlocks(m.(blocks := added), op.key, op.expected, digest);
    BS.RemoveFrames(added, op.key, op.expected, digest);
  }

  lemma WriteKeepsHolding(m: Tiers, bufs: Buffers, op: Op, plan: BS.Plan, digest: BS.HashState -> Bytes, key: CacheKey)
    requires ValidTiers(m) && BlocksInv(m.blocks, bufs, plan) && op.WriteOp? && Writable(op) && Orderly(bufs, op, plan)
    ensures Holding(Step(m, op, digest).blocks, Held(Buffer(bufs, op), key), plan, key)
  {
    WriteLeaves(m, bufs, op, plan, digest);
    WriteHolding(m.blocks, bufs, op, plan, key);
    assert Holding(m.blocks, Held(bufs, key), plan, key);
    var added := BS.AddBlock(m.blocks, op.key, op.offset, op.data, op.pieceLength, Version(op.isV2));
    var after := Step(m, op, digest).blocks;
    hide BS.AddBlock, BS.Accounted, BS.Aligned, BS.AlignedBlocks, BS.BlockCount, BS.Streamed, BS.SameElsewhere;
    hide BlocksInv, Step;
    if key != op.key && after != added {
      BS.FrameHolds(added, after, op.key, key, Held(bufs, key), plan(key));
    }
  }

  lemma WriteKeepsBlocks(m: Tiers, bufs: Buffers, op: Op, plan: BS.Plan, digest: BS.HashState -> Bytes)
    requires ValidTiers(m) && BlocksInv(m.blocks, bufs, plan) && op.WriteOp? && Writable(op) && Orderly(bufs, op, plan)
    ensures BlocksInv(Step(m, op, digest).blocks, Buffer(bufs, op), plan)
  {
    WriteAccounts(m, op, bufs, plan, digest);
    hide Holding, BS.Accounted, Step, Buffer, Orderly;
    forall key ensures Holding(Step(m, op, digest).blocks, Held(Buffer(bufs, op), key), plan, key) {
      WriteKeepsHolding(m, bufs, op, plan, digest, key);
    }
  }

  /**
   Over every run of orderly writes, reads and clears of any pieces, the block cache
   holds exactly the blocks written of each incomplete piece, their hashes have
   absorbed the contiguous prefixes, and the memory counter is exact.
   */
  lemma {:induction false} RunBuffers(m: Tiers, bufs: Buffers, ops: seq<Op>, plan: BS.Plan,
                                      digest: BS.HashState -> Bytes)
    requires ValidTiers(m) && BlocksInv(m.blocks, bufs, plan) && AllWritable(ops) && OrderlyRun(bufs, ops, plan)
    ensures BlocksInv(RunFrom(m, ops, digest).blocks, BufferAll(bufs, ops), plan)
    decreases |ops|
  {
    hide BlocksInv, Buffer, Orderly;
    if ops != [] {
      StepKeepsBlocks(m, bufs, ops[0], plan, digest);
      RunBuffers(Step(m, ops[0], digest), Buffer(bufs, ops[0]), ops[1..], plan, digest);
    }
  }

  lemma StepKeepsBlocks(m: Tiers, bufs: Buffers, op: Op, plan: BS.Plan, digest: BS.HashState -> Bytes)
    requires ValidTiers(m) && BlocksInv(m.blocks, bufs, plan) && Writable(op) && Orderly(bufs, op, plan)
    ensures BlocksInv(Step(m, op, digest).blocks, Buffer(bufs, op), plan)
  {
    if op.WriteOp? {
      WriteKeepsBlocks(m, bufs, op, plan, digest);
    } else if op.ClearOp? {
      NothingBuffered(plan);
    }
  }

  lemma NothingBuffered(plan: BS.Plan)
    ensures BlocksInv(BS.EMPTY_BLOCKS, map[], plan)
  {
  }

  // ------------------------------------------------- from blocks to the disk

  /** No step changes which torrents are registered or how they are laid out. */
  lemma {:induction false} RunKeepsLayout(m: Tiers, ops: seq<Op>, digest: BS.HashState -> Bytes, key: CacheKey,
                                          length: nat)
    requires ValidTiers(m) && AllWritable(ops)
    ensures DiskTakes(RunFrom(m, ops, digest).disks, key, length) <==> DiskTakes(m.disks, key, length)
    decreases |ops|
  {
    hide DiskTakes;
    if ops != [] {
      StepKeepsLayout(m, ops[0], digest, key, length);
      RunKeepsLayout(Step(m, ops[0], digest), ops[1..], digest, key, length);
    }
  }

  lemma StepKeepsLayout(m: Tiers, op: Op, digest: BS.HashState -> Bytes, key: CacheKey, length: nat)
    requires ValidTiers(m) && Writable(op)
    ensures DiskTakes(Step(m, op, digest).disks, key, length) <==> DiskTakes(m.disks, key, length)
  {
    hide Insert, BS.AddBlock, BS.Finalize, BS.RemovePiece, BS.Assemble;
  }

  /**
   The last aligned block of a piece, which is also its first if it has only one, on
   a registered torrent whose layout gives the piece this length: the write reports
   exactly whether the digest of the whole piece matches; a valid piece is then on
   the disk, and in the cache unless a stale copy of it survives, an invalid one leaves disk
   and piece cache alone; either way no block stays.
   */
  lemma LastBlockCommits(m: Tiers, key: CacheKey, blocks: map<nat, Bytes>, offset: nat, data: Bytes,
                         g: BS.Geometry, expected: Bytes, isV2: bool, digest: BS.HashState -> Bytes)
    requires TiersInv(m) && BS.Holds(m.blocks, key, blocks, g) && g.version == Version(isV2)
    requires offset in blocks ==> blocks[offset] == data
    requires BS.AlignedBlocks(blocks[offset := data], g.pieceLength)
    requires |blocks[offset := data]| == BS.BlockCount(g.pieceLength)
    requires DiskTakes(m.disks, key, g.pieceLength)
    ensures |data| > 0 && offset + |data| < U32_RANGE
    ensures var whole := Join(Entries(blocks[offset := data]));
      var valid := digest(if isV2 then BS.V2(whole) else BS.V1(whole)) == expected;
      var (after, result) := WriteBlock(m, key, offset, data, g.pieceLength, expected, isV2, digest);
      && |whole| == g.pieceLength
      && result == Ok(PieceComplete(valid)) && ValidTiers(after) && key !in after.blocks.pieces
      && (valid ==> ReadPieceOf(after.disks, key) == Ok(whole))
      && (valid && !StaleCopySurvives(m.cache, key, whole) ==> after.cache.Lookup(key) == Some(whole))
      && (!valid ==> after.disks == m.disks && after.cache == m.cache)
  {
    var more := blocks[offset := data];
    assert BS.Aligned(offset, more[offset], g.pieceLength);
    var plan := (k: CacheKey) => g;
    BS.AddHolds(m.blocks, BS.Delivery(key, offset, data), plan, key, blocks);
    var added := BS.AddBlock(m.blocks, key, offset, data, g.pieceLength, g.version);
    hide BS.AddBlock;
    BS.StreamedVerifies(added, key, more, g.pieceLength, g.version, expected, digest);
    var whole := Join(Entries(more));
    assert BS.Assemble(added.pieces[key]) == whole;
    if BS.Finalize(added, key, expected, digest).1 {
      var ready := m.(blocks := BS.Finalize(added, key, expected, digest).0);
      assert BS.Assemble(ready.blocks.pieces[key]) == whole;
      WritePieceOfThenRead(m.disks, key, whole);
      CommitCoherentIff(ready, key);
      InsertHolds(m.cache, key, CachedPiece(whole, true));
    }
  }

  /** An orderly write that brings the last missing block of its piece. */
  ghost predicate Completes(bufs: Buffers, last: Op, plan: BS.Plan)
    requires last.WriteOp?
  {
    Orderly(bufs, last, plan) && |Held(bufs, last.key)[last.offset := last.data]| == BS.BlockCount(last.pieceLength)
  }

  /**
   End to end: after any disciplined and orderly run, of writes to any pieces in any
   order, the write that brings the last missing block of a piece of a registered
   torrent commits the piece if and only if the digest of its bytes is the expected
   one. The disk then returns exactly these bytes.
   */
  lemma LastWriteVerifies(capacity: nat, disks: Disks, ops: seq<Op>, last: Op, plan: BS.Plan,
                          digest: BS.HashState -> Bytes)
    requires ValidDisks(disks) && AllWritable(ops) && DisciplinedRun(Initial(capacity, disks), ops, digest)
    requires OrderlyRun(map[], ops, plan) && last.WriteOp?
    ensures Completes(BufferAll(map[], ops), last, plan) && DiskTakes(disks, last.key, last.pieceLength) ==>
      var m := RunFrom(Initial(capacity, disks), ops, digest);
      var whole := Join(Entries(Held(BufferAll(map[], ops), last.key)[last.offset := last.data]));
      var valid := digest(if last.isV2 then BS.V2(whole) else BS.V1(whole)) == last.expected;
      var (after, result) :=
        WriteBlock(m, last.key, last.offset, last.data, last.pieceLength, last.expected, last.isV2, digest);
      && |whole| == last.pieceLength && result == Ok(PieceComplete(valid)) && ValidTiers(after)
      && (valid ==> ReadPieceOf(after.disks, last.key) == Ok(whole))
      && (!valid ==> after.disks == m.disks && after.cache == m.cache)
  {
    var m, key := RunFrom(Initial(capacity, disks), ops, digest), last.key;
    if Completes(BufferAll(map[], ops), last, plan) && DiskTakes(disks, key, last.pieceLength) {
      RunState(capacity, disks, ops, plan, digest, key, last.pieceLength);
      hide BS.Holds, BS.BlockCount, BS.AlignedBlocks, DiskTakes, TiersInv, BufferAll, WriteBlock, RunFrom;
      hide DisciplinedRun, OrderlyRun, Entries, Join;
      var blocks := Held(BufferAll(map[], ops), key);
      LastBlocks(blocks, last, plan(key).pieceLength);
      LastBlockCommits(m, key, blocks, last.offset, last.data, plan(key), last.expected, last.isV2, digest);
    }
  }

  /** What holds of a piece after a disciplined and orderly run. */
  lemma RunState(capacity: nat, disks: Disks, ops: seq<Op>, plan: BS.Plan, digest: BS.HashState -> Bytes,
                 key: CacheKey, length: nat)
    requires ValidDisks(disks) && AllWritable(ops) && DisciplinedRun(Initial(capacity, disks), ops, digest)
    requires OrderlyRun(map[], ops, plan)
    ensures var m := RunFrom(Initial(capacity, disks), ops, digest);
      && TiersInv(m) && Holding(m.blocks, Held(BufferAll(map[], ops), key), plan, key)
      && (DiskTakes(m.disks, key, length) <==> DiskTakes(disks, key, length))
  {
    var start := Initial(capacity, disks);
    RunKeepsInv(start, ops, digest);
    NothingBuffered(plan);
    RunBuffers(start, map[], ops, plan, digest);
    RunKeepsLayout(start, ops, digest, key, length);
    hide RunFrom, BufferAll, DisciplinedRun, OrderlyRun, Holding, DiskTakes;
  }

  lemma LastBlocks(blocks: map<nat, Bytes>, last: Op, pieceLength: nat)
    requires last.WriteOp? && BS.Aligned(last.offset, last.data, pieceLength)
    requires blocks != map[] ==> BS.AlignedBlocks(blocks, pieceLength)
    ensures BS.AlignedBlocks(blocks[last.offset := last.data], pieceLength)
  {
  }
}
