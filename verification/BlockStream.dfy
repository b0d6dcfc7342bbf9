/**
 The block cache as a function on values: blocks of a piece arrive in any order
 while a hash absorbs the contiguous prefix. A hash state is the byte string
 absorbed so far; the digest of a state is a parameter.
 */
module BlockStream {
  import opened Prelude
  import opened OrderedMap
  import opened Sequences

  const BLOCK_SIZE := 16384

  datatype HashState = V1(absorbed: Bytes) | V2(absorbed: Bytes) {
    function Update(data: Bytes): HashState {
      match this
      case V1(h) => V1(h + data)
      case V2(h) => V2(h + data)
    }
  }

  function NewHash(version: nat): HashState {
    if version == 2 then V2([]) else V1([])
  }

  datatype PieceBlocks = PieceBlocks(blocks: map<nat, Bytes>, pieceLength: nat, bytesHashed: nat)

  datatype BlockState = BlockState(pieces: map<CacheKey, PieceBlocks>, hashes: map<CacheKey, HashState>, memory: int)

  const EMPTY_BLOCKS := BlockState(map[], map[], 0)

  /** Non-empty blocks that end within the range of the 32-bit offsets. */
  ghost predicate ValidBlocks(blocks: map<nat, Bytes>) {
    forall o :: o in blocks ==> |blocks[o]| > 0 && o + |blocks[o]| < U32_RANGE
  }

  ghost predicate ValidState(s: BlockState) {
    forall k :: k in s.pieces ==> ValidBlocks(s.pieces[k].blocks)
  }

  /** The bytes of the blocks that follow one another without a gap from `from`. */
  ghost function Contiguous(blocks: map<nat, Bytes>, from: nat): Bytes
    requires ValidBlocks(blocks)
    decreases U32_RANGE - from
  {
    if from in blocks then blocks[from] + Contiguous(blocks, from + |blocks[from]|) else []
  }

  function Assemble(p: PieceBlocks): Bytes {
    Join(Entries(p.blocks))
  }

  function BlockCount(pieceLength: nat): nat {
    (pieceLength + BLOCK_SIZE - 1) / BLOCK_SIZE
  }

  predicate IsComplete(p: PieceBlocks) {
    |p.blocks| == BlockCount(p.pieceLength)
  }

  /** Blocks are of 16 KiB, but for the last one of a piece. */
  lemma BlocksAre(offset: nat, data: Bytes, pieceLength: nat)
    ensures BlockCount(pieceLength) == pieceLength / 16384 + if pieceLength % 16384 == 0 then 0 else 1
    ensures Aligned(offset, data, pieceLength) <==>
      && offset % 16384 == 0 && offset < pieceLength < 0x1_0000_0000
      && |data| == if pieceLength - offset < 16384 then pieceLength - offset else 16384
  {
  }

  // -------------------------------------------------------------- operations

  ghost function Advance(s: BlockState, key: CacheKey): BlockState
    requires key in s.pieces && ValidBlocks(s.pieces[key].blocks)
  {
    if key in s.hashes then
      var p := s.pieces[key];
      var added := Contiguous(p.blocks, p.bytesHashed);
      s.(pieces := s.pieces[key := p.(bytesHashed := p.bytesHashed + |added|)],
         hashes := s.hashes[key := s.hashes[key].Update(added)])
    else s
  }

  function Open(s: BlockState, key: CacheKey, pieceLength: nat, version: nat): BlockState {
    if key in s.pieces then s
    else s.(pieces := s.pieces[key := PieceBlocks(map[], pieceLength, 0)],
            hashes := s.hashes[key := NewHash(version)])
  }

  function Store(s: BlockState, key: CacheKey, offset: nat, data: Bytes): BlockState
    requires key in s.pieces
  {
    var p := s.pieces[key];
    s.(pieces := s.pieces[key := p.(blocks := p.blocks[offset := data])],
       memory := s.memory + if offset in p.blocks then 0 else |data|)
  }

  ghost function AddBlock(s: BlockState, key: CacheKey, offset: nat, data: Bytes, pieceLength: nat,
                          version: nat): (r: BlockState)
    requires ValidState(s) && |data| > 0 && offset + |data| < U32_RANGE
    ensures ValidState(r) && key in r.pieces
  {
    Advance(Store(Open(s, key, pieceLength, version), key, offset, data), key)
  }

  ghost function Finalize(s: BlockState, key: CacheKey, expected: Bytes,
                          digest: HashState -> Bytes): (r: (BlockState, bool))
    requires ValidState(s)
    ensures ValidState(r.0) && r.0.pieces.Keys == s.pieces.Keys && r.0.memory == s.memory
    ensures forall k :: k in s.pieces ==> r.0.pieces[k].blocks == s.pieces[k].blocks
  {
    var s1 := if key in s.pieces then Advance(s, key) else s;
    if key in s1.pieces && s1.pieces[key].bytesHashed != s1.pieces[key].pieceLength then (s1, false)
    else if key in s1.hashes then
      (s1.(hashes := s1.hashes - {key}), digest(s1.hashes[key]) == expected)
    else (s1, false)
  }

  function RemovePiece(s: BlockState, key: CacheKey): BlockState {
    if key in s.pieces then
      BlockState(s.pieces - {key}, s.hashes - {key}, s.memory - |Assemble(s.pieces[key])|)
    else s.(hashes := s.hashes - {key})
  }

  // ---------------------------------------------- interleaved streams of blocks

  /** What the torrent says about a piece. */
  datatype Geometry = Geometry(pieceLength: nat, version: nat)

  type Plan = CacheKey -> Geometry

  datatype Delivery = Delivery(key: CacheKey, offset: nat, data: Bytes)

  /** An aligned block of exactly the length its offset calls for. */
  ghost predicate Aligned(offset: nat, data: Bytes, pieceLength: nat) {
    && offset % BLOCK_SIZE == 0 && offset < pieceLength < U32_RANGE
    && |data| == Min(BLOCK_SIZE, pieceLength - offset)
  }

  /** Aligned blocks of any pieces in any order, repeats carrying the same bytes. */
  ghost predicate Consistent(ds: seq<Delivery>, plan: Plan) {
    && (forall d :: d in ds ==> Aligned(d.offset, d.data, plan(d.key).pieceLength))
    && forall d, e :: d in ds && e in ds && d.key == e.key && d.offset == e.offset ==> d.data == e.data
  }

  /** The blocks of `key` among the deliveries. */
  function Gather(ds: seq<Delivery>, key: CacheKey): map<nat, Bytes> {
    if ds == [] then map[]
    else
      var before, last := Gather(ds[..|ds| - 1], key), ds[|ds| - 1];
      if last.key == key then before[last.offset := last.data] else before
  }

  ghost function Deliver(s: BlockState, ds: seq<Delivery>, plan: Plan): (r: BlockState)
    requires ValidState(s) && Consistent(ds, plan)
    ensures ValidState(r)
  {
    if ds == [] then s
    else
      var last := ds[|ds| - 1];
      assert last in ds;
      AddBlock(Deliver(s, ds[..|ds| - 1], plan), last.key, last.offset, last.data,
               plan(last.key).pieceLength, plan(last.key).version)
  }

  /** The gathered blocks are the deliveries, as a set. */
  lemma {:induction false} GatherIsSet(ds: seq<Delivery>, plan: Plan, key: CacheKey)
    requires Consistent(ds, plan)
    ensures forall o, d {:trigger Delivery(key, o, d)} ::
      (o in Gather(ds, key) && Gather(ds, key)[o] == d) <==> Delivery(key, o, d) in ds
  {
    if ds != [] {
      var prefix, last := ds[..|ds| - 1], ds[|ds| - 1];
      assert ds == prefix + [last];
      GatherIsSet(prefix, plan, key);
      forall o, d
        ensures (o in Gather(ds, key) && Gather(ds, key)[o] == d) <==> Delivery(key, o, d) in ds
      {
        assert (o in Gather(prefix, key) && Gather(prefix, key)[o] == d) <==> Delivery(key, o, d) in prefix;
        if last.key == key && o == last.offset {
          assert last in ds && last == Delivery(key, o, last.data);
        }
      }
    }
  }

  lemma ContiguousNext(blocks: map<nat, Bytes>, from: nat)
    requires ValidBlocks(blocks)
    ensures from in blocks ==> Contiguous(blocks, from) == blocks[from] + Contiguous(blocks, from + |blocks[from]|)
    ensures from !in blocks ==> Contiguous(blocks, from) == []
  {
  }

  /** Absorbing more blocks continues from where the old prefix ended. */
  lemma {:induction false} ContiguousGrows(small: map<nat, Bytes>, big: map<nat, Bytes>, from: nat)
    requires ValidBlocks(small) && ValidBlocks(big)
    requires forall o :: o in small ==> o in big && big[o] == small[o]
    ensures var c := Contiguous(small, from);
      Contiguous(big, from) == c + Contiguous(big, from + |c|)
    decreases U32_RANGE - from
  {
    hide Contiguous;
    ContiguousNext(small, from);
    ContiguousNext(big, from);
    if from in small {
      var next := from + |small[from]|;
      ContiguousGrows(small, big, next);
      Associates(small[from], Contiguous(small, next), Contiguous(big, next + |Contiguous(small, next)|));
    }
  }

  lemma ContiguousStops(blocks: map<nat, Bytes>, from: nat)
    requires ValidBlocks(blocks)
    ensures from + |Contiguous(blocks, from)| !in blocks
    decreases U32_RANGE - from
  {
    if from in blocks {
      ContiguousStops(blocks, from + |blocks[from]|);
    }
  }

  /** The piece holds `blocks` and its hash has absorbed their contiguous prefix. */
  ghost predicate Streamed(s: BlockState, key: CacheKey, blocks: map<nat, Bytes>, pieceLength: nat, version: nat) {
    && ValidBlocks(blocks) && key in s.pieces && key in s.hashes
    && s.pieces[key] == PieceBlocks(blocks, pieceLength, |Contiguous(blocks, 0)|)
    && s.hashes[key] == NewHash(version).Update(Contiguous(blocks, 0))
  }

  ghost predicate SameElsewhere(s: BlockState, r: BlockState, key: CacheKey) {
    s.pieces - {key} == r.pieces - {key} && s.hashes - {key} == r.hashes - {key}
  }

  lemma UpdateElsewhere<K, V>(m: map<K, V>, key: K, v: V)
    ensures m[key := v] - {key} == m - {key}
  {
  }

  lemma OpenFrames(s: BlockState, key: CacheKey, pieceLength: nat, version: nat)
    ensures SameElsewhere(s, Open(s, key, pieceLength, version), key)
  {
    UpdateElsewhere(s.pieces, key, PieceBlocks(map[], pieceLength, 0));
    UpdateElsewhere(s.hashes, key, NewHash(version));
  }

  lemma StoreFrames(s: BlockState, key: CacheKey, offset: nat, data: Bytes)
    requires key in s.pieces
    ensures SameElsewhere(s, Store(s, key, offset, data), key)
  {
    UpdateElsewhere(s.pieces, key, Store(s, key, offset, data).pieces[key]);
  }

  lemma AdvanceFrames(s: BlockState, key: CacheKey)
    requires key in s.pieces && ValidBlocks(s.pieces[key].blocks)
    ensures SameElsewhere(s, Advance(s, key), key)
  {
    var r := Advance(s, key);
    if key in s.hashes {
      UpdateElsewhere(s.pieces, key, r.pieces[key]);
      UpdateElsewhere(s.hashes, key, r.hashes[key]);
    }
  }

  /** `add_block` touches no other piece. */
  lemma AddBlockFrames(s: BlockState, key: CacheKey, offset: nat, data: Bytes, pieceLength: nat, version: nat)
    requires ValidState(s) && |data| > 0 && offset + |data| < U32_RANGE
    ensures SameElsewhere(s, AddBlock(s, key, offset, data, pieceLength, version), key)
  {
    var started := Open(s, key, pieceLength, version);
    var stored := Store(started, key, offset, data);
    OpenFrames(s, key, pieceLength, version);
    StoreFrames(started, key, offset, data);
    hide Open;
    assert ValidBlocks(stored.pieces[key].blocks);
    AdvanceFrames(stored, key);
  }

  /** `Advance` on a piece whose hash has absorbed the prefix of fewer blocks. */
  lemma AdvanceStreams(s: BlockState, key: CacheKey, before: map<nat, Bytes>, blocks: map<nat, Bytes>,
                       pieceLength: nat, version: nat)
    requires ValidBlocks(before) && ValidBlocks(blocks) && key in s.pieces && key in s.hashes
    requires forall o :: o in before ==> o in blocks && blocks[o] == before[o]
    requires s.pieces[key] == PieceBlocks(blocks, pieceLength, |Contiguous(before, 0)|)
    requires s.hashes[key] == NewHash(version).Update(Contiguous(before, 0))
    ensures Streamed(Advance(s, key), key, blocks, pieceLength, version)
  {
    var c, d := Contiguous(before, 0), Contiguous(blocks, |Contiguous(before, 0)|);
    ContiguousGrows(before, blocks, 0);
    hide Contiguous;
    UpdateTwice(NewHash(version), c, d);
  }

  lemma UpdateTwice(h: HashState, c: Bytes, d: Bytes)
    ensures h.Update(c).Update(d) == h.Update(c + d)
  {
    Associates(h.absorbed, c, d);
  }

  lemma AddBlockStreams(s: BlockState, key: CacheKey, blocks: map<nat, Bytes>, offset: nat, data: Bytes,
                        pieceLength: nat, version: nat)
    requires ValidState(s) && |data| > 0 && offset + |data| < U32_RANGE
    requires Streamed(s, key, blocks, pieceLength, version)
    requires offset in blocks ==> blocks[offset] == data
    ensures var r := AddBlock(s, key, offset, data, pieceLength, version);
      Streamed(r, key, blocks[offset := data], pieceLength, version) && SameElsewhere(s, r, key)
  {
    AddBlockFrames(s, key, offset, data, pieceLength, version);
    AdvanceStreams(Store(s, key, offset, data), key, blocks, blocks[offset := data], pieceLength, version);
    hide Advance, Contiguous, SameElsewhere;
  }

  lemma OpenStreams(s: BlockState, key: CacheKey, pieceLength: nat, version: nat)
    requires ValidState(s) && key !in s.pieces
    ensures Streamed(Open(s, key, pieceLength, version), key, map[], pieceLength, version)
    ensures SameElsewhere(s, Open(s, key, pieceLength, version), key)
  {
  }

  lemma FirstArrivalStreams(s: BlockState, key: CacheKey, offset: nat, data: Bytes, pieceLength: nat, version: nat)
    requires ValidState(s) && key !in s.pieces && |data| > 0 && offset + |data| < U32_RANGE
    ensures var r := AddBlock(s, key, offset, data, pieceLength, version);
      Streamed(r, key, map[offset := data], pieceLength, version) && SameElsewhere(s, r, key)
  {
    var started := Open(s, key, pieceLength, version);
    OpenStreams(s, key, pieceLength, version);
    AddBlockStreams(started, key, map[], offset, data, pieceLength, version);
    assert Open(started, key, pieceLength, version) == started;
  }

  /** The piece holds exactly `blocks`; without blocks it is not open. */
  ghost predicate Holds(s: BlockState, key: CacheKey, blocks: map<nat, Bytes>, g: Geometry) {
    if blocks == map[] then key !in s.pieces else Streamed(s, key, blocks, g.pieceLength, g.version)
  }

  lemma FrameKey(s: BlockState, r: BlockState, at: CacheKey, key: CacheKey)
    requires SameElsewhere(s, r, at) && key != at
    ensures (key in r.pieces <==> key in s.pieces) && (key in s.pieces ==> r.pieces[key] == s.pieces[key])
    ensures (key in r.hashes <==> key in s.hashes) && (key in s.hashes ==> r.hashes[key] == s.hashes[key])
  {
    assert key in s.pieces <==> key in s.pieces - {at};
    assert key in r.pieces <==> key in r.pieces - {at};
    assert key in s.hashes <==> key in s.hashes - {at};
    assert key in r.hashes <==> key in r.hashes - {at};
  }

  lemma FrameHolds(s: BlockState, r: BlockState, at: CacheKey, key: CacheKey, blocks: map<nat, Bytes>, g: Geometry)
    requires SameElsewhere(s, r, at) && key != at && Holds(s, key, blocks, g)
    ensures Holds(r, key, blocks, g)
  {
    FrameKey(s, r, at, key);
  }

  /** One block arrives, of this piece or of another. */
  lemma AddHolds(s: BlockState, d: Delivery, plan: Plan, key: CacheKey, blocks: map<nat, Bytes>)
    requires ValidState(s) && Aligned(d.offset, d.data, plan(d.key).pieceLength) && Holds(s, key, blocks, plan(key))
    requires d.key == key && d.offset in blocks ==> blocks[d.offset] == d.data
    ensures |d.data| > 0 && d.offset + |d.data| < U32_RANGE
    ensures var g := plan(d.key);
      Holds(AddBlock(s, d.key, d.offset, d.data, g.pieceLength, g.version), key,
            if d.key == key then blocks[d.offset := d.data] else blocks, plan(key))
  {
    hide AddBlock;
    var g := plan(d.key);
    AddBlockFrames(s, d.key, d.offset, d.data, g.pieceLength, g.version);
    if d.key != key {
      FrameHolds(s, AddBlock(s, d.key, d.offset, d.data, g.pieceLength, g.version), d.key, key, blocks, plan(key));
    } else if blocks == map[] {
      FirstArrivalStreams(s, key, d.offset, d.data, g.pieceLength, g.version);
    } else {
      AddBlockStreams(s, key, blocks, d.offset, d.data, g.pieceLength, g.version);
    }
  }

  /**
   However the blocks of different pieces interleave, a piece that was not open
   holds exactly the blocks delivered of it, and its hash has absorbed their
   contiguous prefix.
   */
  lemma {:induction false} StreamAbsorbsPrefix(s: BlockState, ds: seq<Delivery>, plan: Plan, key: CacheKey)
    requires ValidState(s) && key !in s.pieces && Consistent(ds, plan)
    ensures Holds(Deliver(s, ds, plan), key, Gather(ds, key), plan(key))
  {
    if ds != [] {
      var prefix, last := ds[..|ds| - 1], ds[|ds| - 1];
      assert ds == prefix + [last] && last in ds;
      StreamAbsorbsPrefix(s, prefix, plan, key);
      GatherIsSet(prefix, plan, key);
      if last.key == key && last.offset in Gather(prefix, key) {
        assert Delivery(key, last.offset, Gather(prefix, key)[last.offset]) in prefix;
      }
      AddHolds(Deliver(s, prefix, plan), last, plan, key, Gather(prefix, key));
    }
  }

  /** A piece of which nothing is delivered stays as it is. */
  lemma {:induction false} OthersUntouched(s: BlockState, ds: seq<Delivery>, plan: Plan, key: CacheKey)
    requires ValidState(s) && Consistent(ds, plan) && Gather(ds, key) == map[]
    ensures var r := Deliver(s, ds, plan);
      && (key in r.pieces <==> key in s.pieces) && (key in s.pieces ==> r.pieces[key] == s.pieces[key])
      && (key in r.hashes <==> key in s.hashes) && (key in s.hashes ==> r.hashes[key] == s.hashes[key])
  {
    if ds != [] {
      var prefix, last := ds[..|ds| - 1], ds[|ds| - 1];
      assert ds == prefix + [last] && last in ds;
      assert last.key == key ==> last.offset in Gather(ds, key);
      OthersUntouched(s, prefix, plan, key);
      var before, g := Deliver(s, prefix, plan), plan(last.key);
      AddBlockFrames(before, last.key, last.offset, last.data, g.pieceLength, g.version);
      hide AddBlock;
      FrameKey(before, Deliver(s, ds, plan), last.key, key);
    }
  }

  lemma GatherSame(xs: seq<Delivery>, ys: seq<Delivery>, plan: Plan, key: CacheKey)
    requires Consistent(xs, plan) && Consistent(ys, plan)
    requires forall d :: d in xs <==> d in ys
    ensures Gather(xs, key) == Gather(ys, key)
  {
    GatherIsSet(xs, plan, key);
    GatherIsSet(ys, plan, key);
    var gx, gy := Gather(xs, key), Gather(ys, key);
    forall o
      ensures o in gx <==> o in gy
      ensures o in gx ==> gx[o] == gy[o]
    {
      if o in gx { assert Delivery(key, o, gx[o]) in ys; }
      if o in gy { assert Delivery(key, o, gy[o]) in xs; }
    }
  }

  /** The order in which blocks arrive, of one piece or across pieces, does not matter. */
  lemma StreamOrderIndependent(s: BlockState, xs: seq<Delivery>, ys: seq<Delivery>, plan: Plan)
    requires ValidState(s) && Consistent(xs, plan) && Consistent(ys, plan)
    requires forall d :: d in xs ==> d.key !in s.pieces
    requires forall d :: d in xs <==> d in ys
    ensures Deliver(s, xs, plan).pieces == Deliver(s, ys, plan).pieces
    ensures Deliver(s, xs, plan).hashes == Deliver(s, ys, plan).hashes
  {
    var rx, ry := Deliver(s, xs, plan), Deliver(s, ys, plan);
    forall key
      ensures (key in rx.pieces <==> key in ry.pieces) && (key in rx.pieces ==> rx.pieces[key] == ry.pieces[key])
      ensures (key in rx.hashes <==> key in ry.hashes) && (key in rx.hashes ==> rx.hashes[key] == ry.hashes[key])
    {
      GatherSame(xs, ys, plan, key);
      if Gather(xs, key) == map[] {
        OthersUntouched(s, xs, plan, key);
        OthersUntouched(s, ys, plan, key);
      } else {
        Delivered(xs, plan, key);
        StreamAbsorbsPrefix(s, xs, plan, key);
        StreamAbsorbsPrefix(s, ys, plan, key);
      }
    }
  }

  lemma Delivered(ds: seq<Delivery>, plan: Plan, key: CacheKey)
    requires Consistent(ds, plan) && Gather(ds, key) != map[]
    ensures exists d :: d in ds && d.key == key
  {
    GatherIsSet(ds, plan, key);
    var o :| o in Gather(ds, key);
    assert Delivery(key, o, Gather(ds, key)[o]) in ds;
  }

  // ------------------------------------------------------------- completeness

  /** Blocks of aligned, exact length, as any consistent stream leaves them. */
  ghost predicate AlignedBlocks(blocks: map<nat, Bytes>, pieceLength: nat) {
    pieceLength < U32_RANGE && forall o :: o in blocks ==> Aligned(o, blocks[o], pieceLength)
  }

  lemma AlignedBlocksValid(blocks: map<nat, Bytes>, pieceLength: nat)
    requires AlignedBlocks(blocks, pieceLength)
    ensures ValidBlocks(blocks)
  {
  }

  /** The offsets of the blocks of a piece at or after `from`. */
  ghost function Offsets(from: nat, pieceLength: nat): set<nat> {
    set o | from <= o < pieceLength && o % BLOCK_SIZE == 0
  }

  lemma {:induction false} OffsetsCount(from: nat, pieceLength: nat)
    requires from % BLOCK_SIZE == 0
    ensures |Offsets(from, pieceLength)| == if from < pieceLength then BlockCount(pieceLength - from) else 0
    decreases pieceLength - from
  {
    var all := Offsets(from, pieceLength);
    if from < pieceLength {
      OffsetsCount(from + BLOCK_SIZE, pieceLength);
      var rest := Offsets(from + BLOCK_SIZE, pieceLength);
      assert all == rest + {from};
    } else {
      assert all == {};
    }
  }

  lemma OffsetsStep(from: nat, pieceLength: nat)
    requires from % BLOCK_SIZE == 0 && from < pieceLength
    ensures (from + BLOCK_SIZE) % BLOCK_SIZE == 0 && from in Offsets(from, pieceLength)
    ensures Offsets(from, pieceLength) - {from} == Offsets(from + BLOCK_SIZE, pieceLength)
    ensures pieceLength < from + BLOCK_SIZE ==> Offsets(from, pieceLength) - {from} == {}
  {
  }

  /** Every block from `from` on is present, so the prefix reaches the end. */
  lemma {:induction false} FullPrefix(blocks: map<nat, Bytes>, pieceLength: nat, from: nat)
    requires AlignedBlocks(blocks, pieceLength) && ValidBlocks(blocks)
    requires from % BLOCK_SIZE == 0 && Offsets(from, pieceLength) <= blocks.Keys
    ensures |Contiguous(blocks, from)| == if from < pieceLength then pieceLength - from else 0
    decreases pieceLength - from
  {
    if from < pieceLength {
      OffsetsStep(from, pieceLength);
      assert Aligned(from, blocks[from], pieceLength);
      ContiguousNext(blocks, from);
      if from + BLOCK_SIZE <= pieceLength {
        FullPrefix(blocks, pieceLength, from + BLOCK_SIZE);
      } else {
        NotABlock(blocks, pieceLength, pieceLength);
      }
    } else {
      NotABlock(blocks, pieceLength, from);
    }
  }

  lemma NotABlock(blocks: map<nat, Bytes>, pieceLength: nat, o: nat)
    requires AlignedBlocks(blocks, pieceLength) && pieceLength <= o
    ensures o !in blocks
  {
  }

  /** A prefix that reaches the end has every block. */
  lemma {:induction false} PrefixHasAll(blocks: map<nat, Bytes>, pieceLength: nat, from: nat)
    requires AlignedBlocks(blocks, pieceLength) && ValidBlocks(blocks)
    requires from % BLOCK_SIZE == 0 && from + |Contiguous(blocks, from)| >= pieceLength
    ensures Offsets(from, pieceLength) <= blocks.Keys
    decreases pieceLength - from
  {
    if from < pieceLength {
      ContiguousNext(blocks, from);
      hide Contiguous;
      assert from in blocks;
      assert Aligned(from, blocks[from], pieceLength);
      OffsetsStep(from, pieceLength);
      if from + BLOCK_SIZE <= pieceLength {
        PrefixHasAll(blocks, pieceLength, from + BLOCK_SIZE);
      }
    } else {
      assert Offsets(from, pieceLength) == {};
    }
  }

  /** Counting blocks and measuring the hashed prefix agree on completeness. */
  lemma CompleteIffPrefixFull(blocks: map<nat, Bytes>, pieceLength: nat)
    requires AlignedBlocks(blocks, pieceLength)
    ensures ValidBlocks(blocks)
    ensures |blocks| == BlockCount(pieceLength) <==> |Contiguous(blocks, 0)| == pieceLength
    ensures |blocks| == BlockCount(pieceLength) <==> blocks.Keys == Offsets(0, pieceLength)
  {
    AlignedBlocksValid(blocks, pieceLength);
    OffsetsCount(0, pieceLength);
    var all := Offsets(0, pieceLength);
    forall o | o in blocks ensures o in all {
      assert Aligned(o, blocks[o], pieceLength);
    }
    assert blocks.Keys <= all;
    assert |blocks| == |blocks.Keys|;
    if |blocks| == |all| {
      SubsetSameSize(blocks.Keys, all);
      FullPrefix(blocks, pieceLength, 0);
    }
    if |Contiguous(blocks, 0)| == pieceLength {
      PrefixHasAll(blocks, pieceLength, 0);
      assert blocks.Keys == all;
    }
  }

  lemma AlignedCount(blocks: map<nat, Bytes>, pieceLength: nat)
    requires AlignedBlocks(blocks, pieceLength)
    ensures |blocks| <= BlockCount(pieceLength)
  {
    OffsetsCount(0, pieceLength);
    var all := Offsets(0, pieceLength);
    forall o | o in blocks ensures o in all {
      assert Aligned(o, blocks[o], pieceLength);
    }
    assert all == blocks.Keys + (all - blocks.Keys) && |all| == |blocks.Keys| + |all - blocks.Keys|;
  }

  lemma {:induction false} SubsetSameSize(a: set<nat>, b: set<nat>)
    requires a <= b && |a| == |b|
    ensures a == b
  {
    assert b == a + (b - a);
    assert |b| == |a| + |b - a|;
    assert b - a == {};
  }

  lemma JoinFirst(m: map<nat, Bytes>, k: nat)
    requires k in m && forall o :: o in m ==> k <= o
    ensures Join(Entries(m)) == m[k] + Join(Entries(m - {k}))
  {
  }

  lemma {:induction false} ContiguousDrop(blocks: map<nat, Bytes>, k: nat, from: nat)
    requires ValidBlocks(blocks) && k < from
    ensures Contiguous(blocks - {k}, from) == Contiguous(blocks, from)
    decreases U32_RANGE - from
  {
    if from in blocks {
      ContiguousDrop(blocks, k, from + |blocks[from]|);
    }
  }

  /** The blocks, taken in offset order from `from`, follow one another without a gap. */
  ghost predicate Chain(blocks: map<nat, Bytes>, from: nat)
    decreases |blocks|
  {
    blocks == map[] ||
    (from in blocks && (forall o :: o in blocks ==> from <= o) && Chain(blocks - {from}, from + |blocks[from]|))
  }

  lemma ChainStep(blocks: map<nat, Bytes>, from: nat)
    requires ValidBlocks(blocks) && Chain(blocks, from) && blocks != map[]
    ensures var rest := blocks - {from};
      && from in blocks && |rest| < |blocks| && ValidBlocks(rest) && Chain(rest, from + |blocks[from]|)
      && (forall o :: o in rest ==> o >= from + |blocks[from]|) && forall o :: o in blocks ==> o >= from
  {
    assert blocks.Keys == (blocks - {from}).Keys + {from};
  }

  /** A chain assembles to exactly its contiguous prefix. */
  lemma {:induction false} ChainAssembles(blocks: map<nat, Bytes>, from: nat)
    requires ValidBlocks(blocks) && Chain(blocks, from)
    ensures Join(Entries(blocks)) == Contiguous(blocks, from)
    decreases |blocks|
  {
    if blocks == map[] {
      assert Entries(blocks) == [];
    } else {
      var next, rest := from + |blocks[from]|, blocks - {from};
      ChainStep(blocks, from);
      hide Contiguous, Entries, Join, Chain, ValidBlocks;
      JoinFirst(blocks, from);
      ChainAssembles(rest, next);
      ContiguousDrop(blocks, from, next);
      ContiguousNext(blocks, from);
    }
  }

  /** All aligned blocks from `from` on form a chain. */
  lemma {:induction false} FullIsChain(blocks: map<nat, Bytes>, pieceLength: nat, from: nat)
    requires from % BLOCK_SIZE == 0 && blocks.Keys == Offsets(from, pieceLength)
    requires AlignedBlocks(blocks, pieceLength)
    ensures Chain(blocks, from)
    decreases |blocks|
  {
    if from < pieceLength {
      OffsetsStep(from, pieceLength);
      var rest := blocks - {from};
      assert blocks.Keys == rest.Keys + {from};
      assert Aligned(from, blocks[from], pieceLength);
      if from + BLOCK_SIZE <= pieceLength {
        FullIsChain(rest, pieceLength, from + BLOCK_SIZE);
      } else {
        assert rest.Keys == {};
      }
    } else {
      assert blocks.Keys == {};
    }
  }

  /** `finalize_and_verify` on a piece whose hash has absorbed the whole prefix. */
  lemma FinalizeUpToDate(s: BlockState, key: CacheKey, expected: Bytes, digest: HashState -> Bytes)
    requires ValidState(s) && key in s.pieces && key in s.hashes
    requires s.pieces[key].bytesHashed !in s.pieces[key].blocks
    ensures Finalize(s, key, expected, digest).1 <==>
            s.pieces[key].bytesHashed == s.pieces[key].pieceLength && digest(s.hashes[key]) == expected
  {
    assert Contiguous(s.pieces[key].blocks, s.pieces[key].bytesHashed) == [];
    assert s.hashes[key].Update([]) == s.hashes[key];
  }

  /**
   After any consistent stream, interleaved with other pieces or not,
   `finalize_and_verify` accepts exactly when every block of the piece has arrived
   and the digest of the assembled piece is the expected one. The accepted piece
   has its full length.
   */
  lemma VerifyIff(s: BlockState, ds: seq<Delivery>, plan: Plan, key: CacheKey, expected: Bytes,
                  digest: HashState -> Bytes)
    requires ValidState(s) && key !in s.pieces && Consistent(ds, plan) && Gather(ds, key) != map[]
    ensures var r, g := Deliver(s, ds, plan), plan(key);
      && key in r.pieces && r.pieces[key].blocks == Gather(ds, key)
      && (IsComplete(r.pieces[key]) <==> r.pieces[key].bytesHashed == g.pieceLength)
      && (IsComplete(r.pieces[key]) ==> |Assemble(r.pieces[key])| == g.pieceLength)
      && (Finalize(r, key, expected, digest).1 <==>
           IsComplete(r.pieces[key]) &&
             digest(if g.version == 2 then V2(Assemble(r.pieces[key])) else V1(Assemble(r.pieces[key]))) == expected)
  {
    StreamAbsorbsPrefix(s, ds, plan, key);
    GatherAligned(ds, plan, key);
    StreamedVerifies(Deliver(s, ds, plan), key, Gather(ds, key), plan(key).pieceLength, plan(key).version, expected,
                     digest);
  }

  /** Version 2 pieces are hashed with the second hash, all others with the first. */
  lemma HashIs(version: nat, data: Bytes)
    ensures NewHash(version).Update(data) == if version == 2 then V2(data) else V1(data)
  {
    assert [] + data == data;
  }

  lemma StreamedVerifies(s: BlockState, key: CacheKey, blocks: map<nat, Bytes>, pieceLength: nat, version: nat,
                         expected: Bytes, digest: HashState -> Bytes)
    requires ValidState(s) && AlignedBlocks(blocks, pieceLength) && Streamed(s, key, blocks, pieceLength, version)
    ensures var p := s.pieces[key];
      && (IsComplete(p) <==> p.bytesHashed == pieceLength)
      && (IsComplete(p) ==> |Assemble(p)| == pieceLength)
      && (Finalize(s, key, expected, digest).1 <==>
           IsComplete(p) && digest(if version == 2 then V2(Assemble(p)) else V1(Assemble(p))) == expected)
  {
    CompleteIffPrefixFull(blocks, pieceLength);
    ContiguousStops(blocks, 0);
    FinalizeUpToDate(s, key, expected, digest);
    HashIs(version, Assemble(s.pieces[key]));
    hide NewHash, Finalize;
    if IsComplete(s.pieces[key]) {
      FullIsChain(blocks, pieceLength, 0);
      ChainAssembles(blocks, 0);
      assert Assemble(s.pieces[key]) == Contiguous(blocks, 0);
    }
  }

  lemma GatherAligned(ds: seq<Delivery>, plan: Plan, key: CacheKey)
    requires Consistent(ds, plan) && Gather(ds, key) != map[]
    ensures AlignedBlocks(Gather(ds, key), plan(key).pieceLength)
  {
    GatherIsSet(ds, plan, key);
    var blocks := Gather(ds, key);
    forall o | o in blocks ensures Aligned(o, blocks[o], plan(key).pieceLength) {
      assert Delivery(key, o, blocks[o]) in ds;
    }
    var o :| o in blocks;
    assert Aligned(o, blocks[o], plan(key).pieceLength);
  }

  lemma DropElsewhere<K, V>(m: map<K, V>, key: K)
    ensures (m - {key}) - {key} == m - {key}
  {
  }

  lemma FinalizeFrames(s: BlockState, key: CacheKey, expected: Bytes, digest: HashState -> Bytes)
    requires ValidState(s)
    ensures SameElsewhere(s, Finalize(s, key, expected, digest).0, key)
  {
    var s1 := if key in s.pieces then Advance(s, key) else s;
    if key in s.pieces {
      AdvanceFrames(s, key);
    }
    DropElsewhere(s1.hashes, key);
    hide Advance;
  }

  lemma RemovePieceFrames(s: BlockState, key: CacheKey)
    ensures SameElsewhere(s, RemovePiece(s, key), key) && key !in RemovePiece(s, key).pieces
  {
    DropElsewhere(s.pieces, key);
    DropElsewhere(s.hashes, key);
  }

  /** Verifying and removing a piece touches no other. */
  lemma RemoveFrames(s: BlockState, key: CacheKey, expected: Bytes, digest: HashState -> Bytes)
    requires ValidState(s)
    ensures SameElsewhere(s, RemovePiece(Finalize(s, key, expected, digest).0, key), key)
    ensures key !in RemovePiece(Finalize(s, key, expected, digest).0, key).pieces
  {
    hide Finalize, RemovePiece;
    FinalizeFrames(s, key, expected, digest);
    RemovePieceFrames(Finalize(s, key, expected, digest).0, key);
  }

  // ---------------------------------------------------------------- accounting

  ghost function Length(b: Bytes): nat { |b| }

  ghost function HeldBytes(p: PieceBlocks): nat {
    MapSum(p.blocks, Length)
  }

  ghost predicate Accounted(s: BlockState) {
    s.memory == MapSum(s.pieces, HeldBytes)
  }

  lemma {:induction false} AssembleLength(blocks: map<nat, Bytes>)
    ensures |Join(Entries(blocks))| == MapSum(blocks, Length)
    decreases |blocks|
  {
    if blocks != map[] {
      var k := MinKey(blocks);
      MapSumRemove(blocks, Length, k);
      AssembleLength(blocks - {k});
    }
  }

  /**
   The counter stays exact over `add_block` unless a block already held is
   replaced by one of another length.
   */
  lemma AddBlockAccountsIff(s: BlockState, key: CacheKey, offset: nat, data: Bytes, pieceLength: nat, version: nat)
    requires ValidState(s) && Accounted(s) && |data| > 0 && offset + |data| < U32_RANGE
    ensures Accounted(AddBlock(s, key, offset, data, pieceLength, version)) <==>
            (key in s.pieces && offset in s.pieces[key].blocks ==> |s.pieces[key].blocks[offset]| == |data|)
  {
    var s1 := Open(s, key, pieceLength, version);
    OpenAccounted(s, key, pieceLength, version);
    StoreAccountsIff(s1, key, offset, data);
    AdvanceHolds(Store(s1, key, offset, data), key);
    hide HeldBytes;
  }

  lemma OpenAccounted(s: BlockState, key: CacheKey, pieceLength: nat, version: nat)
    requires Accounted(s)
    ensures Accounted(Open(s, key, pieceLength, version))
  {
    if key !in s.pieces {
      MapSumUpdate(s.pieces, HeldBytes, key, PieceBlocks(map[], pieceLength, 0));
    }
  }

  lemma StoreAccountsIff(s: BlockState, key: CacheKey, offset: nat, data: Bytes)
    requires key in s.pieces && Accounted(s)
    ensures Accounted(Store(s, key, offset, data)) <==>
            (offset in s.pieces[key].blocks ==> |s.pieces[key].blocks[offset]| == |data|)
  {
    var r := Store(s, key, offset, data);
    MapSumUpdate(s.pieces[key].blocks, Length, offset, data);
    MapSumUpdate(s.pieces, HeldBytes, key, r.pieces[key]);
  }

  lemma AdvanceHolds(s: BlockState, key: CacheKey)
    requires key in s.pieces && ValidBlocks(s.pieces[key].blocks)
    ensures MapSum(Advance(s, key).pieces, HeldBytes) == MapSum(s.pieces, HeldBytes)
  {
    MapSumUpdate(s.pieces, HeldBytes, key, Advance(s, key).pieces[key]);
    if key !in s.hashes {
      assert s.pieces[key := s.pieces[key]] == s.pieces;
    }
  }

  lemma OthersAccounted(s: BlockState, key: CacheKey, expected: Bytes, digest: HashState -> Bytes)
    requires ValidState(s) && Accounted(s)
    ensures Accounted(Finalize(s, key, expected, digest).0)
    ensures Accounted(RemovePiece(s, key))
  {
    if key in s.pieces {
      AdvanceHolds(s, key);
      MapSumRemove(s.pieces, HeldBytes, key);
      AssembleLength(s.pieces[key].blocks);
    }
  }

  /** A shorter block for an offset already held leaves the counter one byte too high. */
  lemma ReplacementDrifts(key: CacheKey, version: nat)
    ensures var once := AddBlock(EMPTY_BLOCKS, key, 0, [0, 0], 2, version);
      Accounted(once) && !Accounted(AddBlock(once, key, 0, [0], 2, version))
  {
    AddBlockAccountsIff(EMPTY_BLOCKS, key, 0, [0, 0], 2, version);
    FirstArrivalStreams(EMPTY_BLOCKS, key, 0, [0, 0], 2, version);
    AddBlockAccountsIff(AddBlock(EMPTY_BLOCKS, key, 0, [0, 0], 2, version), key, 0, [0], 2, version);
  }
}
