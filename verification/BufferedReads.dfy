/**
 Reads of an incomplete piece that is not in the piece cache. They are served from
 the buffered blocks joined without their gaps, so what they return is right only
 up to the first gap.
 */
module BufferedReads {
  import opened Prelude
  import opened Sequences
  import opened OrderedMap
  import opened StorageLayout
  import opened DiskManager
  import opened CachedDisk
  import opened CachedRuns

  // -------------------------------------------- blocks joined without their gaps

  /** The blocks at or after `from`. */
  ghost function Later(blocks: map<nat, Bytes>, from: nat): map<nat, Bytes> {
    map o | o in blocks && from <= o :: blocks[o]
  }

  /** Where the blocks that follow one another from `from` end. */
  ghost function PrefixEnd(held: set<nat>, from: nat, pieceLength: nat): (end: nat)
    ensures Min(from, pieceLength) <= end <= pieceLength
    decreases pieceLength - from
  {
    if from < pieceLength && from in held then PrefixEnd(held, from + BS.BLOCK_SIZE, pieceLength)
    else Min(from, pieceLength)
  }

  /** The total length of the blocks at or after `from`. */
  ghost function HeldSize(held: set<nat>, from: nat, pieceLength: nat): nat
    decreases pieceLength - from
  {
    if from >= pieceLength then 0
    else
      var rest := HeldSize(held, from + BS.BLOCK_SIZE, pieceLength);
      if from in held then rest + Min(BS.BLOCK_SIZE, pieceLength - from) else rest
  }

  lemma Aligned16K(from: nat)
    requires from % BS.BLOCK_SIZE == 0
    ensures (from + BS.BLOCK_SIZE) % BS.BLOCK_SIZE == 0
    ensures forall o {:trigger o % BS.BLOCK_SIZE} ::
      from <= o && o % BS.BLOCK_SIZE == 0 ==> o == from || from + BS.BLOCK_SIZE <= o
  {
  }

  /** Taking the block at `from` off the blocks from there on. */
  lemma LaterStep(blocks: map<nat, Bytes>, pieceLength: nat, from: nat)
    requires BS.AlignedBlocks(blocks, pieceLength) && from % BS.BLOCK_SIZE == 0
    ensures (from + BS.BLOCK_SIZE) % BS.BLOCK_SIZE == 0
    ensures var rest := Join(Entries(Later(blocks, from + BS.BLOCK_SIZE)));
      Join(Entries(Later(blocks, from))) == if from in blocks then blocks[from] + rest else rest
    ensures from >= pieceLength ==> Join(Entries(Later(blocks, from))) == []
    ensures from in blocks ==> |blocks[from]| == Min(BS.BLOCK_SIZE, pieceLength - from) && from < pieceLength
  {
    Aligned16K(from);
    var here, next := Later(blocks, from), Later(blocks, from + BS.BLOCK_SIZE);
    assert forall o :: o in blocks ==> BS.Aligned(o, blocks[o], pieceLength);
    hide Join, Entries, BS.AlignedBlocks;
    if from in blocks {
      assert here - {from} == next;
      BS.JoinFirst(here, from);
    } else {
      assert here == next;
    }
  }

  lemma {:induction false} JoinedLength(blocks: map<nat, Bytes>, pieceLength: nat, from: nat)
    requires BS.AlignedBlocks(blocks, pieceLength) && from % BS.BLOCK_SIZE == 0
    ensures |Join(Entries(Later(blocks, from)))| == HeldSize(blocks.Keys, from, pieceLength)
    decreases pieceLength - from
  {
    LaterStep(blocks, pieceLength, from);
    if from < pieceLength {
      JoinedLength(blocks, pieceLength, from + BS.BLOCK_SIZE);
    }
  }

  /** Only a complete piece fills its length. */
  lemma {:induction false} HeldSizeFull(held: set<nat>, from: nat, pieceLength: nat)
    requires from % BS.BLOCK_SIZE == 0 && from <= pieceLength
    ensures HeldSize(held, from, pieceLength) <= pieceLength - from
    ensures HeldSize(held, from, pieceLength) == pieceLength - from <==> BS.Offsets(from, pieceLength) <= held
    decreases pieceLength - from
  {
    if from < pieceLength {
      BS.OffsetsStep(from, pieceLength);
      var next := from + BS.BLOCK_SIZE;
      if next <= pieceLength {
        HeldSizeFull(held, next, pieceLength);
      }
      var here, rest := BS.Offsets(from, pieceLength), BS.Offsets(next, pieceLength);
      hide BS.Offsets;
      assert here == rest + {from};
    } else {
      assert BS.Offsets(from, pieceLength) == {};
    }
  }

  lemma {:induction false} HeldSizeNone(from: nat, pieceLength: nat)
    ensures HeldSize({}, from, pieceLength) == 0
    decreases pieceLength - from
  {
    if from < pieceLength {
      HeldSizeNone(from + BS.BLOCK_SIZE, pieceLength);
    }
  }

  /** Blocks cut from one content. */
  ghost predicate CutFrom(blocks: map<nat, Bytes>, w: Bytes) {
    forall o :: o in blocks ==> o + |blocks[o]| <= |w| && blocks[o] == w[o..o + |blocks[o]|]
  }

  /** Up to the prefix end the joined bytes are in place; after it they come from further on. */
  ghost predicate JoinedAt(joined: Bytes, p: nat, w: Bytes, from: nat, end: nat)
    requires p < |joined|
  {
    if from + p < end then from + p < |w| && joined[p] == w[from + p]
    else exists q :: from + p < q < |w| && joined[p] == w[q]
  }

  lemma SkipStep(joined: Bytes, p: nat, w: Bytes, from: nat, next: nat, end: nat)
    requires p < |joined| && from < next && JoinedAt(joined, p, w, next, end)
    ensures JoinedAt(joined, p, w, from, from)
  {
    if next + p < end {
      assert joined[p] == w[next + p];
    }
  }

  lemma HeadStep(first: Bytes, rest: Bytes, p: nat, w: Bytes, from: nat, end: nat)
    requires p < |first| && from + |first| <= end <= |w| && first == w[from..from + |first|]
    ensures JoinedAt(first + rest, p, w, from, end)
  {
  }

  lemma TailStep(first: Bytes, rest: Bytes, p: nat, w: Bytes, from: nat, end: nat)
    requires |first| <= p < |first + rest| && JoinedAt(rest, p - |first|, w, from + |first|, end)
    ensures JoinedAt(first + rest, p, w, from, end)
  {
  }

  /** The joined bytes at `from`: the block there, if any, and then those of the later blocks. */
  lemma FirstBlock(blocks: map<nat, Bytes>, w: Bytes, from: nat)
    requires BS.AlignedBlocks(blocks, |w|) && CutFrom(blocks, w) && from % BS.BLOCK_SIZE == 0
    ensures var next := from + BS.BLOCK_SIZE;
      var joined, rest := Join(Entries(Later(blocks, from))), Join(Entries(Later(blocks, next)));
      var end, endNext := PrefixEnd(blocks.Keys, from, |w|), PrefixEnd(blocks.Keys, next, |w|);
      && next % BS.BLOCK_SIZE == 0
      && (joined != [] ==> from < |w|)
      && (from !in blocks ==> joined == rest && (from < |w| ==> end == from))
      && (from in blocks ==>
           && from + |blocks[from]| <= end <= |w| && end == endNext && joined == blocks[from] + rest
           && blocks[from] == w[from..from + |blocks[from]|] && (rest != [] ==> |blocks[from]| == BS.BLOCK_SIZE))
  {
    LaterStep(blocks, |w|, from);
    LaterStep(blocks, |w|, from + BS.BLOCK_SIZE);
    hide Join, Entries, Later, BS.AlignedBlocks;
  }

  /** The joined bytes at `from` and later are in place up to the prefix end. */
  ghost predicate JoinedFrom(blocks: map<nat, Bytes>, w: Bytes, from: nat) {
    var joined := Join(Entries(Later(blocks, from)));
    forall p :: 0 <= p < |joined| ==> JoinedAt(joined, p, w, from, PrefixEnd(blocks.Keys, from, |w|))
  }

  lemma JoinedStep(blocks: map<nat, Bytes>, w: Bytes, from: nat)
    requires BS.AlignedBlocks(blocks, |w|) && CutFrom(blocks, w) && from % BS.BLOCK_SIZE == 0
    requires JoinedFrom(blocks, w, from + BS.BLOCK_SIZE)
    ensures JoinedFrom(blocks, w, from)
  {
    FirstBlock(blocks, w, from);
    var next := from + BS.BLOCK_SIZE;
    var joined, rest := Join(Entries(Later(blocks, from))), Join(Entries(Later(blocks, next)));
    var end, endNext := PrefixEnd(blocks.Keys, from, |w|), PrefixEnd(blocks.Keys, next, |w|);
    hide Join, Entries, Later, BS.AlignedBlocks, CutFrom, PrefixEnd, JoinedAt;
    if from in blocks {
      OwnAfterBlock(blocks[from], rest, w, from, next, endNext);
    } else if joined != [] {
      OwnAfterGap(rest, w, from, next, endNext);
    }
  }

  lemma OwnAfterGap(rest: Bytes, w: Bytes, from: nat, next: nat, end: nat)
    requires from < next && forall p :: 0 <= p < |rest| ==> JoinedAt(rest, p, w, next, end)
    ensures forall p :: 0 <= p < |rest| ==> JoinedAt(rest, p, w, from, from)
  {
    forall p | 0 <= p < |rest| ensures JoinedAt(rest, p, w, from, from) {
      SkipStep(rest, p, w, from, next, end);
    }
  }

  lemma OwnAfterBlock(first: Bytes, rest: Bytes, w: Bytes, from: nat, next: nat, end: nat)
    requires from + |first| <= end <= |w| && first == w[from..from + |first|] && (rest != [] ==> next == from + |first|)
    requires forall p :: 0 <= p < |rest| ==> JoinedAt(rest, p, w, next, end)
    ensures forall p :: 0 <= p < |first + rest| ==> JoinedAt(first + rest, p, w, from, end)
  {
    hide JoinedAt;
    forall p | 0 <= p < |first + rest| ensures JoinedAt(first + rest, p, w, from, end) {
      if p < |first| {
        HeadStep(first, rest, p, w, from, end);
      } else {
        TailStep(first, rest, p, w, from, end);
      }
    }
  }

  lemma {:induction false} JoinedBytes(blocks: map<nat, Bytes>, w: Bytes, from: nat)
    requires BS.AlignedBlocks(blocks, |w|) && CutFrom(blocks, w) && from % BS.BLOCK_SIZE == 0
    ensures JoinedFrom(blocks, w, from)
    decreases |w| - from
  {
    hide BS.AlignedBlocks, CutFrom;
    if from < |w| {
      Aligned16K(from);
      JoinedBytes(blocks, w, from + BS.BLOCK_SIZE);
      JoinedStep(blocks, w, from);
    } else {
      LaterStep(blocks, |w|, from);
    }
  }

  // ------------------------------------------------------------------ one read

  ghost predicate ReadsOwn(blocks: map<nat, Bytes>, w: Bytes, offset: nat, length: nat) {
    var joined := Join(Entries(blocks));
    && offset + length <= |joined| && offset + length <= |w|
    && joined[offset..offset + length] == w[offset..offset + length]
  }

  lemma LaterAll(blocks: map<nat, Bytes>)
    ensures Later(blocks, 0) == blocks
  {
  }

  lemma JoinedAll(blocks: map<nat, Bytes>, w: Bytes, p: nat)
    requires BS.AlignedBlocks(blocks, |w|) && CutFrom(blocks, w)
    ensures |Join(Entries(blocks))| == HeldSize(blocks.Keys, 0, |w|) <= |w|
    ensures p < |Join(Entries(blocks))| ==> JoinedAt(Join(Entries(blocks)), p, w, 0, PrefixEnd(blocks.Keys, 0, |w|))
  {
    LaterAll(blocks);
    JoinedLength(blocks, |w|, 0);
    HeldSizeFull(blocks.Keys, 0, |w|);
    if p < |Join(Entries(blocks))| {
      JoinedBytes(blocks, w, 0);
    }
  }

  lemma PrefixReadsOwn(blocks: map<nat, Bytes>, w: Bytes, offset: nat, length: nat)
    requires BS.AlignedBlocks(blocks, |w|) && CutFrom(blocks, w)
    requires offset + length <= HeldSize(blocks.Keys, 0, |w|) && offset + length <= PrefixEnd(blocks.Keys, 0, |w|)
    ensures ReadsOwn(blocks, w, offset, length)
  {
    hide Join, Entries, HeldSize, PrefixEnd, CutFrom, BS.AlignedBlocks;
    var joined := Join(Entries(blocks));
    JoinedAll(blocks, w, offset);
    forall i | offset <= i < offset + length ensures joined[i] == w[i] {
      JoinedAll(blocks, w, i);
    }
    SlicesAgree(joined, w, offset, offset + length);
  }

  /** Zeros up to position `p`, ones after it. */
  ghost function Threshold(pieceLength: nat, p: nat): (w: Bytes)
    ensures |w| == pieceLength
    ensures forall i :: 0 <= i < pieceLength ==> w[i] == if i > p then 1 else 0
  {
    seq(pieceLength, i => if i > p then 1 as byte else 0)
  }

  ghost function Cut(w: Bytes, held: set<nat>): (blocks: map<nat, Bytes>)
    requires |w| < U32_RANGE && held <= BS.Offsets(0, |w|)
    ensures blocks.Keys == held && BS.AlignedBlocks(blocks, |w|) && CutFrom(blocks, w)
  {
    map o | o in held :: w[o..Min(o + BS.BLOCK_SIZE, |w|)]
  }

  /** Some content shows that a read past the first gap is wrong. */
  lemma PastPrefixReadsWrong(held: set<nat>, pieceLength: nat, offset: nat, length: nat)
    requires pieceLength < U32_RANGE && held <= BS.Offsets(0, pieceLength) && length > 0
    requires PrefixEnd(held, 0, pieceLength) < offset + length <= HeldSize(held, 0, pieceLength)
    ensures var w := Threshold(pieceLength, offset + length - 1); !ReadsOwn(Cut(w, held), w, offset, length)
  {
    hide Join, Entries, HeldSize, PrefixEnd, BS.AlignedBlocks, BS.Offsets, CutFrom;
    var p := offset + length - 1;
    var w := Threshold(pieceLength, p);
    var joined := Join(Entries(Cut(w, held)));
    JoinedAll(Cut(w, held), w, p);
    assert joined[p] == 1 && w[p] == 0;
    SlicesAgree(joined, w, offset, offset + length);
  }

  /** A run of orderly writes, reads and clears has left exactly `blocks` of an uncached piece. */
  ghost predicate Leaves(m: Tiers, key: CacheKey, blocks: map<nat, Bytes>, plan: BS.Plan) {
    && !m.cache.Contains(key)
    && exists capacity: nat, disks: Disks, ops: seq<Op>, digest: BS.HashState -> Bytes ::
      RunLeaves(m, key, blocks, plan, capacity, disks, ops, digest)
  }

  ghost predicate RunLeaves(m: Tiers, key: CacheKey, blocks: map<nat, Bytes>, plan: BS.Plan, capacity: nat,
                            disks: Disks,
                            ops: seq<Op>, digest: BS.HashState -> Bytes)
  {
    && ValidDisks(disks) && AllWritable(ops) && OrderlyRun(map[], ops, plan)
    && m == RunFrom(Initial(capacity, disks), ops, digest) && Held(BufferAll(map[], ops), key) == blocks
  }

  lemma LeftBlocks(m: Tiers, key: CacheKey, blocks: map<nat, Bytes>, plan: BS.Plan)
    requires Leaves(m, key, blocks, plan)
    ensures ValidTiers(m) && Holding(m.blocks, blocks, plan, key)
  {
    var capacity: nat, disks: Disks, ops: seq<Op>, digest: BS.HashState -> Bytes :|
      RunLeaves(m, key, blocks, plan, capacity, disks, ops, digest);
    NothingBuffered(plan);
    RunBuffers(Initial(capacity, disks), map[], ops, plan, digest);
  }

  /** What `read_block` answers for an uncached piece with these blocks. */
  lemma ReadOfBuffered(m: Tiers, key: CacheKey, blocks: map<nat, Bytes>, plan: BS.Plan, offset: nat, length: nat)
    requires ValidTiers(m) && !m.cache.Contains(key) && Holding(m.blocks, blocks, plan, key) && blocks != map[]
    ensures ReadBlock(m, key, offset, length).1 ==
      if offset + length <= |Join(Entries(blocks))| then Ok(Join(Entries(blocks))[offset..offset + length])
      else ReadBlockOf(m.disks, key, offset, length)
  {
  }

  /**
   After any run, a read within the buffered bytes of an uncached, incomplete piece
   returns the bytes of its own range, whatever content the blocks were cut from, if
   and only if the range ends before the first missing block.
   */
  lemma BufferedBlockReadIff(key: CacheKey, held: set<nat>, plan: BS.Plan, isV2: bool, offset: nat, length: nat)
    requires var g := plan(key);
      g.pieceLength < U32_RANGE && held <= BS.Offsets(0, g.pieceLength) && g.version == Version(isV2)
    requires held != BS.Offsets(0, plan(key).pieceLength)
    requires 0 < length && offset + length <= HeldSize(held, 0, plan(key).pieceLength)
    ensures (forall m, w: Bytes | |w| == plan(key).pieceLength && Leaves(m, key, Cut(w, held), plan) ::
              ValidTiers(m) && offset + length <= |w|
              && ReadBlock(m, key, offset, length).1 == Ok(w[offset..offset + length]))
      <==> offset + length <= PrefixEnd(held, 0, plan(key).pieceLength)
  {
    var n := plan(key).pieceLength;
    if held == {} {
      HeldSizeNone(0, n);
    }
    if offset + length <= PrefixEnd(held, 0, n) {
      forall m, w: Bytes | |w| == n && Leaves(m, key, Cut(w, held), plan)
        ensures ValidTiers(m) && offset + length <= |w|
        ensures ReadBlock(m, key, offset, length).1 == Ok(w[offset..offset + length])
      {
        PrefixReadsOwn(Cut(w, held), w, offset, length);
        LeftBlocks(m, key, Cut(w, held), plan);
        ReadOfBuffered(m, key, Cut(w, held), plan, offset, length);
      }
    } else {
      var w := Threshold(n, offset + length - 1);
      PastPrefixReadsWrong(held, n, offset, length);
      var m := WritesLeave(key, Cut(w, held), plan, isV2);
      LeftBlocks(m, key, Cut(w, held), plan);
      LaterAll(Cut(w, held));
      JoinedLength(Cut(w, held), n, 0);
      ReadOfBuffered(m, key, Cut(w, held), plan, offset, length);
    }
  }

  /** For the blocks of a piece, the prefix end is the number of bytes the cache has hashed. */
  lemma {:induction false} PrefixIsHashed(blocks: map<nat, Bytes>, pieceLength: nat, from: nat)
    requires BS.AlignedBlocks(blocks, pieceLength) && BS.ValidBlocks(blocks)
    requires from % BS.BLOCK_SIZE == 0 && from <= pieceLength
    ensures from + |BS.Contiguous(blocks, from)| == PrefixEnd(blocks.Keys, from, pieceLength)
    decreases pieceLength - from
  {
    BS.ContiguousNext(blocks, from);
    Aligned16K(from);
    if from in blocks {
      assert BS.Aligned(from, blocks[from], pieceLength);
      var next := from + BS.BLOCK_SIZE;
      if next <= pieceLength {
        PrefixIsHashed(blocks, pieceLength, next);
      } else {
        BS.NotABlock(blocks, pieceLength, pieceLength);
        BS.ContiguousNext(blocks, pieceLength);
      }
    }
  }

  // --------------------------------------------------- runs that leave given blocks

  function Writes(key: CacheKey, entries: seq<(nat, Bytes)>, pieceLength: nat, isV2: bool): seq<Op> {
    if entries == [] then []
    else
      var first := WriteOp(key, entries[0].0, entries[0].1, pieceLength, [], isV2);
      [first] + Writes(key, entries[1..], pieceLength, isV2)
  }

  /** `few` are some of the `blocks`. */
  ghost predicate Among(few: map<nat, Bytes>, blocks: map<nat, Bytes>) {
    forall o :: o in few ==> o in blocks && few[o] == blocks[o]
  }

  lemma AmongCard(few: map<nat, Bytes>, blocks: map<nat, Bytes>)
    requires Among(few, blocks)
    ensures |few| <= |blocks|
  {
    assert blocks.Keys == few.Keys + (blocks.Keys - few.Keys);
    assert |blocks.Keys| == |few.Keys| + |blocks.Keys - few.Keys|;
  }

  ghost predicate Incomplete(blocks: map<nat, Bytes>, pieceLength: nat) {
    BS.AlignedBlocks(blocks, pieceLength) && |blocks| < BS.BlockCount(pieceLength)
  }

  /** A write that does not complete its piece touches neither the piece cache nor the disk. */
  lemma BufferedWrite(m: Tiers, bufs: Buffers, op: Op, plan: BS.Plan, digest: BS.HashState -> Bytes)
    requires ValidTiers(m) && BlocksInv(m.blocks, bufs, plan) && op.WriteOp? && Writable(op) && Orderly(bufs, op, plan)
    requires |Held(bufs, op.key)[op.offset := op.data]| != BS.BlockCount(op.pieceLength)
    ensures Step(m, op, digest).cache == m.cache
  {
    hide BS.AddBlock, BS.Accounted, BS.Aligned, BS.AlignedBlocks, BS.BlockCount;
    WriteHolding(m.blocks, bufs, op, plan, op.key);
  }

  /** What writing some of the blocks of an incomplete piece leads to. */
  ghost predicate Wrote(m: Tiers, bufs: Buffers, key: CacheKey, blocks: map<nat, Bytes>, entries: seq<(nat, Bytes)>,
                        ops: seq<Op>, plan: BS.Plan, digest: BS.HashState -> Bytes)
    requires ValidTiers(m)
  {
    && AllWritable(ops) && OrderlyRun(bufs, ops, plan) && RunFrom(m, ops, digest).cache == m.cache
    && Among(Held(BufferAll(bufs, ops), key), blocks)
    && (forall o :: o in Held(bufs, key) ==> o in Held(BufferAll(bufs, ops), key))
    && (forall e :: e in entries ==> e.0 in Held(BufferAll(bufs, ops), key))
  }

  lemma WroteMore(m: Tiers, bufs: Buffers, key: CacheKey, blocks: map<nat, Bytes>, entries: seq<(nat, Bytes)>,
                  op: Op, rest: seq<Op>, plan: BS.Plan, digest: BS.HashState -> Bytes)
    requires ValidTiers(m) && entries != [] && Writable(op) && Orderly(bufs, op, plan)
    requires Step(m, op, digest).cache == m.cache
    requires forall o :: o in Held(bufs, key) || o == entries[0].0 ==> o in Held(Buffer(bufs, op), key)
    ensures Wrote(Step(m, op, digest), Buffer(bufs, op), key, blocks, entries[1..], rest, plan, digest) ==>
      Wrote(m, bufs, key, blocks, entries, [op] + rest, plan, digest)
  {
    hide Step, Buffer, Orderly, Writable;
    var ops := [op] + rest;
    assert ops[0] == op && ops[1..] == rest;
    assert forall x :: x in ops ==> x == op || x in rest;
    assert forall e :: e in entries ==> e == entries[0] || e in entries[1..];
  }

  /** Writing the listed blocks one after another. */
  lemma {:induction false} WritesBuffer(m: Tiers, bufs: Buffers, key: CacheKey, blocks: map<nat, Bytes>,
                                        entries: seq<(nat, Bytes)>,
                                        plan: BS.Plan, isV2: bool, digest: BS.HashState -> Bytes)
    requires ValidTiers(m) && BlocksInv(m.blocks, bufs, plan)
    requires Incomplete(blocks, plan(key).pieceLength) && plan(key).version == Version(isV2)
    requires Among(Held(bufs, key), blocks) && forall e :: e in entries ==> e.0 in blocks && blocks[e.0] == e.1
    ensures Wrote(m, bufs, key, blocks, entries, Writes(key, entries, plan(key).pieceLength, isV2), plan, digest)
    decreases entries
  {
    if entries != [] {
      var n, e := plan(key).pieceLength, entries[0];
      var op := WriteOp(key, e.0, e.1, n, [], isV2);
      NextWrite(bufs, key, blocks, e, plan, isV2);
      hide Incomplete, BlocksInv, Step, Orderly, Writable, Wrote, Among, Buffer;
      BufferedWrite(m, bufs, op, plan, digest);
      StepKeepsBlocks(m, bufs, op, plan, digest);
      WritesBuffer(Step(m, op, digest), Buffer(bufs, op), key, blocks, entries[1..], plan, isV2, digest);
      WroteMore(m, bufs, key, blocks, entries, op, Writes(key, entries[1..], n, isV2), plan, digest);
    } else {
      WroteNothing(m, bufs, key, blocks, plan, digest);
    }
  }

  /** One of the blocks of an incomplete piece may be written and does not complete it. */
  lemma NextWrite(bufs: Buffers, key: CacheKey, blocks: map<nat, Bytes>, e: (nat, Bytes), plan: BS.Plan, isV2: bool)
    requires Incomplete(blocks, plan(key).pieceLength) && plan(key).version == Version(isV2)
    requires Among(Held(bufs, key), blocks) && e.0 in blocks && blocks[e.0] == e.1
    ensures var op := WriteOp(key, e.0, e.1, plan(key).pieceLength, [], isV2);
      && Writable(op) && Orderly(bufs, op, plan)
      && |Held(bufs, key)[e.0 := e.1]| != BS.BlockCount(plan(key).pieceLength)
      && Among(Held(Buffer(bufs, op), key), blocks)
      && (forall o :: o in Held(bufs, key) || o == e.0 ==> o in Held(Buffer(bufs, op), key))
  {
    hide BS.BlockCount;
    assert BS.Aligned(e.0, blocks[e.0], plan(key).pieceLength);
    AmongCard(Held(bufs, key)[e.0 := e.1], blocks);
  }

  lemma WroteNothing(m: Tiers, bufs: Buffers, key: CacheKey, blocks: map<nat, Bytes>, plan: BS.Plan,
                     digest: BS.HashState -> Bytes)
    requires ValidTiers(m) && Among(Held(bufs, key), blocks)
    ensures Wrote(m, bufs, key, blocks, [], [], plan, digest)
  {
  }

  /** Any incomplete set of aligned blocks is left by some run. */
  lemma WritesLeave(key: CacheKey, blocks: map<nat, Bytes>, plan: BS.Plan, isV2: bool) returns (m: Tiers)
    requires BS.AlignedBlocks(blocks, plan(key).pieceLength) && plan(key).version == Version(isV2)
    requires blocks.Keys != BS.Offsets(0, plan(key).pieceLength)
    ensures Leaves(m, key, blocks, plan)
  {
    var n := plan(key).pieceLength;
    var digest := (h: BS.HashState) => [];
    var start, ops := Initial(1, map[]), Writes(key, Entries(blocks), n, isV2);
    BS.CompleteIffPrefixFull(blocks, n);
    BS.AlignedCount(blocks, n);
    NothingBuffered(plan);
    EntriesAre(blocks);
    hide Entries, BlocksInv, BS.AlignedBlocks, BS.BlockCount, BS.Offsets, Wrote;
    WritesBuffer(start, map[], key, blocks, Entries(blocks), plan, isV2, digest);
    m := RunFrom(start, ops, digest);
    WroteLeaves(key, blocks, Entries(blocks), ops, plan, digest);
  }

  lemma WroteLeaves(key: CacheKey, blocks: map<nat, Bytes>, entries: seq<(nat, Bytes)>, ops: seq<Op>, plan: BS.Plan,
                    digest: BS.HashState -> Bytes)
    requires Wrote(Initial(1, map[]), map[], key, blocks, entries, ops, plan, digest)
    requires forall e :: e in entries <==> e.0 in blocks && blocks[e.0] == e.1
    ensures AllWritable(ops) && Leaves(RunFrom(Initial(1, map[]), ops, digest), key, blocks, plan)
  {
    hide RunFrom, BufferAll, OrderlyRun;
    var left := Held(BufferAll(map[], ops), key);
    forall o | o in blocks ensures o in left {
      assert (o, blocks[o]) in entries;
    }
    assert left == blocks;
    assert RunLeaves(RunFrom(Initial(1, map[]), ops, digest), key, blocks, plan, 1, map[], ops, digest);
  }

  // --------------------------------------------------------- reads of whole pieces

  lemma IncompleteIsShorter(blocks: map<nat, Bytes>, pieceLength: nat)
    requires Incomplete(blocks, pieceLength)
    ensures |Join(Entries(blocks))| < pieceLength
  {
    LaterAll(blocks);
    JoinedLength(blocks, pieceLength, 0);
    HeldSizeFull(blocks.Keys, 0, pieceLength);
    BS.CompleteIffPrefixFull(blocks, pieceLength);
    var all := BS.Offsets(0, pieceLength);
    assert blocks.Keys <= all by {
      forall o | o in blocks ensures o in all { assert BS.Aligned(o, blocks[o], pieceLength); }
    }
    assert all <= blocks.Keys ==> blocks.Keys == all;
  }

  /** A whole-piece read agrees with the disk if and only if no block is buffered or the piece is cached. */
  lemma PieceReadAgreesIff(m: Tiers, key: CacheKey, blocks: map<nat, Bytes>, plan: BS.Plan)
    requires TiersInv(m) && Holding(m.blocks, blocks, plan, key) && DiskTakes(m.disks, key, plan(key).pieceLength)
    ensures ReadPiece(m, key).1 == ReadPieceOf(m.disks, key) <==> blocks == map[] || m.cache.Contains(key)
  {
    var n := plan(key).pieceLength;
    TiledPieceFits(m.disks[key.0].pieces, 0, |m.disks[key.0].bytes|, key.1);
    assert ReadPieceOf(m.disks, key).Ok? && |ReadPieceOf(m.disks, key).value| == n;
    if blocks == map[] {
      CoherentReadsAgree(m, key, 0, 0);
    } else {
      IncompleteIsShorter(blocks, n);
      hide BS.AlignedBlocks, BS.BlockCount;
      assert m.cache.Contains(key) ==> ReadPieceOf(m.disks, key) == Ok(m.cache.Lookup(key).value);
    }
  }

  /**
   After every disciplined and orderly run, `read_piece` of a registered torrent's
   piece returns what the disk alone would if and only if the run left no block of it
   buffered or left the piece cached.
   */
  lemma RunPieceReadAgreesIff(capacity: nat, disks: Disks, ops: seq<Op>, plan: BS.Plan, digest: BS.HashState -> Bytes,
                              key: CacheKey)
    requires ValidDisks(disks) && AllWritable(ops) && DisciplinedRun(Initial(capacity, disks), ops, digest)
    requires OrderlyRun(map[], ops, plan) && DiskTakes(disks, key, plan(key).pieceLength)
    ensures var m := RunFrom(Initial(capacity, disks), ops, digest);
      var left := Held(BufferAll(map[], ops), key);
      ReadPiece(m, key).1 == ReadPieceOf(m.disks, key) <==> left == map[] || m.cache.Contains(key)
  {
    RunState(capacity, disks, ops, plan, digest, key, plan(key).pieceLength);
    PieceReadAgreesIff(RunFrom(Initial(capacity, disks), ops, digest), key, Held(BufferAll(map[], ops), key), plan);
  }

  /**
   The failure at an input: one write, of the last, one-byte block of a two-block
   piece; its byte is then returned as the first byte of the piece.
   */
  lemma BufferedReadDisagrees(digest: BS.HashState -> Bytes) returns (disks: Disks, op: Op)
    ensures ValidDisks(disks) && AllWritable([op])
    ensures var m, key := RunFrom(Initial(1, disks), [op], digest), ("", 0);
      && ReadBlock(m, key, 0, 1).1 == Ok([1]) && ReadBlockOf(m.disks, key, 0, 1) == Ok([0])
      && DisciplinedRun(Initial(1, disks), [op], digest)
  {
    var key := ("", 0);
    var zeros := seq(16385, _ => 0 as byte);
    var disk := FlatDisk([PieceInfo(0, 16385)], zeros);
    disks, op := map["" := disk], WriteOp(key, 16384, [1], 16385, [], false);
    assert disk.pieces[1..] == [];
    var start := Initial(1, disks);
    BS.FirstArrivalStreams(start.blocks, key, 16384, [1], 16385, 1);
    hide BS.AddBlock, BS.Finalize;
    var m := Step(start, op, digest);
    assert [op][1..] == [] && RunFrom(start, [op], digest) == RunFrom(m, [], digest);
    var blocks := map[16384 := [1 as byte]];
    assert m.blocks.pieces[key].blocks == blocks;
    JoinOne(blocks, 16384);
    assert zeros[0..1] == [0];
  }
}
