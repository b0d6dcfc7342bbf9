/**
 The two cache tiers in front of the disk, as functions on values, and the
 conditions under which a caller cannot tell them from the disk alone.
 */
module CachedDisk {
  import opened Prelude
  import opened Sequences
  import opened ArcPolicy
  import opened ArcHistory
  import BS = BlockStream
  import opened StorageLayout
  import opened DiskManager

  datatype WriteResult = Buffered | PieceComplete(valid: bool)

  datatype Tiers = Tiers(blocks: BS.BlockState, cache: Arc, disks: Disks)

  ghost predicate ValidTiers(m: Tiers) {
    BS.ValidState(m.blocks) && ValidDisks(m.disks)
  }

  ghost function Initial(capacity: nat, disks: Disks): Tiers {
    Tiers(BS.EMPTY_BLOCKS, Empty(capacity), disks)
  }

  // -------------------------------------------------------------- operations

  function Version(isV2: bool): nat { if isV2 then 2 else 1 }

  /** A complete, verified piece leaves the block cache for the piece cache and the disk. */
  ghost function Commit(m: Tiers, key: CacheKey): (Tiers, Result<WriteResult, DiskError>)
    requires ValidTiers(m) && key in m.blocks.pieces
  {
    var data := BS.Assemble(m.blocks.pieces[key]);
    var cached := Tiers(BS.RemovePiece(m.blocks, key), Insert(m.cache, key, CachedPiece(data, true)), m.disks);
    match WritePieceOf(m.disks, key, data)
    case Ok(after) => (cached.(disks := after), Ok(PieceComplete(true)))
    case Err(e) => (cached, Err(e))
  }

  /** A piece with all its blocks is verified and leaves the block cache. */
  ghost function Finish(m: Tiers, key: CacheKey, expected: Bytes, digest: BS.HashState -> Bytes): (Tiers,
                        Result<WriteResult, DiskError>)
    requires ValidTiers(m) && key in m.blocks.pieces
  {
    var (finalized, valid) := BS.Finalize(m.blocks, key, expected, digest);
    if valid then Commit(m.(blocks := finalized), key)
    else (m.(blocks := BS.RemovePiece(finalized, key)), Ok(PieceComplete(false)))
  }

  ghost function WriteBlock(m: Tiers, key: CacheKey, offset: nat, data: Bytes, pieceLength: nat, expected: Bytes,
                            isV2: bool, digest: BS.HashState -> Bytes): (Tiers, Result<WriteResult, DiskError>)
    requires ValidTiers(m) && |data| > 0 && offset + |data| < U32_RANGE
  {
    var added := BS.AddBlock(m.blocks, key, offset, data, pieceLength, Version(isV2));
    if BS.IsComplete(added.pieces[key]) then Finish(m.(blocks := added), key, expected, digest)
    else (m.(blocks := added), Ok(Buffered))
  }

  ghost function ReadBlock(m: Tiers, key: CacheKey, offset: nat, length: nat): (Tiers, Result<Bytes, DiskError>)
    requires ValidTiers(m)
  {
    var hit := m.cache.Lookup(key);
    var m' := m.(cache := Get(m.cache, key));
    if hit.Some? && offset + length <= |hit.value| then (m', Ok(hit.value[offset..offset + length]))
    else if key in m.blocks.pieces && offset + length <= |BS.Assemble(m.blocks.pieces[key])| then
      (m', Ok(BS.Assemble(m.blocks.pieces[key])[offset..offset + length]))
    else (m', ReadBlockOf(m.disks, key, offset, length))
  }

  ghost function ReadPiece(m: Tiers, key: CacheKey): (Tiers, Result<Bytes, DiskError>)
    requires ValidTiers(m)
  {
    var hit := m.cache.Lookup(key);
    var m' := m.(cache := Get(m.cache, key));
    if hit.Some? then (m', Ok(hit.value))
    else if key in m.blocks.pieces then (m', Ok(BS.Assemble(m.blocks.pieces[key])))
    else
      var r := ReadPieceOf(m.disks, key);
      if r.Ok? then (m'.(cache := Insert(m'.cache, key, CachedPiece(r.value, true))), r) else (m', r)
  }

  ghost function ClearCaches(m: Tiers): Tiers {
    m.(blocks := BS.EMPTY_BLOCKS, cache := Empty(m.cache.capacity))
  }

  // ----------------------------------------------------------------- coherence

  /** Every cached copy satisfies `ok`. */
  ghost predicate AllCopies(s: Arc, ok: (CacheKey, CachedPiece) -> bool) {
    && (forall k :: k in s.t1.data ==> ok(k, s.t1.data[k]))
    && (forall k :: k in s.t2.data ==> ok(k, s.t2.data[k]))
  }

  ghost function OnDisk(disks: Disks): (CacheKey, CachedPiece) -> bool
    requires ValidDisks(disks)
  {
    (k, piece: CachedPiece) => ReadPieceOf(disks, k) == Ok(piece.data)
  }

  /** Every cached copy of a piece is what the disk would return. */
  ghost predicate Coherent(m: Tiers)
    requires ValidTiers(m)
  {
    AllCopies(m.cache, OnDisk(m.disks))
  }

  lemma MakeRoomCopies(s: Arc, ok: (CacheKey, CachedPiece) -> bool)
    requires AllCopies(s, ok)
    ensures AllCopies(MakeRoom(s), ok)
  {
  }

  lemma InsertCopies(s: Arc, key: CacheKey, piece: CachedPiece, ok: (CacheKey, CachedPiece) -> bool)
    requires AllCopies(s, ok) && ok(key, piece)
    ensures AllCopies(Insert(s, key, piece), ok)
  {
  }

  /** The put that ends an insertion: what becomes of the copies of its own key. */
  lemma PutCopies(s: Arc, key: CacheKey, piece: CachedPiece, ok: (CacheKey, CachedPiece) -> bool)
    requires AllCopies(s, (k, p) => k == key || ok(k, p)) && ok(key, piece)
    ensures AllCopies(PutT1(s, key, piece), ok) <==> (key in s.t2.data ==> ok(key, s.t2.data[key]))
    ensures AllCopies(PutT2(s, key, piece), ok) <==> (key in s.t1.data ==> ok(key, s.t1.data[key]))
  {
  }

  /** A complete miss that makes room by evicting the oldest entry of `t2`, the key itself. */
  ghost predicate EvictsOwnT2(s: Arc, key: CacheKey) {
    && s.t2.order != [] && s.t2.order[0] == key && !EvictsFromT1(s, false)
    && (if |s.t1.order| + |s.b1| >= s.capacity then |s.t1.order| < s.capacity
        else s.Len() + |s.b1| + |s.b2| >= s.capacity)
  }

  /** The list has the piece with other bytes. */
  ghost predicate HasOther(l: Lru, key: CacheKey, data: Bytes) {
    key in l.data && l.data[key].data != data
  }

  /** The target size of `t1` that a hit in `b1`, or in `b2`, leads to. */
  ghost function AdaptedB1(s: Arc, key: CacheKey): Arc {
    var s1 := s.(b1 := Without(s.b1, key));
    AdaptP(s1, DeltaB1(s1))
  }

  ghost function AdaptedB2(s: Arc, key: CacheKey): Arc {
    var s1 := s.(b2 := Without(s.b2, key));
    AdaptP(s1, -DeltaB2(s1))
  }

  /**
   The insertion of `data` leaves an old copy of the piece in the list it does not
   put it in: after a ghost hit in `t1`, after a complete miss in `t2`.
   */
  ghost predicate StaleCopySurvives(s: Arc, key: CacheKey, data: Bytes) {
    if key in s.b1 then HasOther(s.t1, key, data) && !(EvictsFromT1(AdaptedB1(s, key), false) && s.t1.order[0] == key)
    else if key in s.b2 then
      HasOther(s.t1, key, data) && !(EvictsFromT1(AdaptedB2(s, key), true) && s.t1.order[0] == key)
    else HasOther(s.t2, key, data) && !EvictsOwnT2(s, key)
  }

  lemma MakeRoomOwnT2(s: Arc, key: CacheKey)
    requires ListsValid(s) && key in s.t2.data
    ensures key in MakeRoom(s).t2.data <==> !EvictsOwnT2(s, key)
    ensures key in MakeRoom(s).t2.data ==> MakeRoom(s).t2.data[key] == s.t2.data[key]
  {
  }

  /** What a ghost hit leaves of a copy in `t1`. */
  lemma GhostHitOwnT1(s: Arc, key: CacheKey)
    requires ListsValid(s)
    ensures var r := GhostHit1(s, key);
      && (key in r.t1.data <==> key in s.t1.data && !(EvictsFromT1(AdaptedB1(s, key), false) && s.t1.order[0] == key))
      && (key in r.t1.data ==> r.t1.data[key] == s.t1.data[key])
    ensures var r := GhostHit2(s, key);
      && (key in r.t1.data <==> key in s.t1.data && !(EvictsFromT1(AdaptedB2(s, key), true) && s.t1.order[0] == key))
      && (key in r.t1.data ==> r.t1.data[key] == s.t1.data[key])
  {
    hide DeltaB1, DeltaB2, EvictsFromT1;
    assert GhostHit1(s, key) == Replace(AdaptedB1(s, key), false);
    assert GhostHit2(s, key) == Replace(AdaptedB2(s, key), true);
  }

  lemma MakeRoomAddsNothing(s: Arc, key: CacheKey)
    requires key !in s.t2.data
    ensures key !in MakeRoom(s).t2.data
  {
  }

  /** The torrent is registered and gives the piece this length. */
  ghost predicate DiskTakes(disks: Disks, key: CacheKey, length: nat) {
    key.0 in disks && key.1 < |disks[key.0].pieces| && disks[key.0].pieces[key.1].length == length
  }

  /**
   Committing a verified piece keeps the caches coherent exactly when the disk has
   a piece of this length and no stale copy of the piece survives. Without such a
   piece the write fails after the piece cache has taken the bytes.
   */
  lemma CommitCoherentIff(m: Tiers, key: CacheKey)
    requires ValidTiers(m) && ListsValid(m.cache) && Coherent(m) && key in m.blocks.pieces
    ensures var data := BS.Assemble(m.blocks.pieces[key]);
      var (after, result) := Commit(m, key);
      && ValidTiers(after)
      && (result.Ok? <==> DiskTakes(m.disks, key, |data|))
      && (Coherent(after) <==> DiskTakes(m.disks, key, |data|) && !StaleCopySurvives(m.cache, key, data))
  {
    var data := BS.Assemble(m.blocks.pieces[key]);
    var piece := CachedPiece(data, true);
    var after := Commit(m, key).0;
    if WritePieceOf(m.disks, key, data).Ok? {
      WritePieceOfThenRead(m.disks, key, data);
      OthersStay(m, key, after.disks);
      InsertCopiesIff(m.cache, key, piece, OnDisk(after.disks));
    } else {
      WriteFails(m.disks, key, data);
      InsertHolds(m.cache, key, piece);
    }
  }

  lemma OthersStay(m: Tiers, key: CacheKey, disks: Disks)
    requires ValidTiers(m) && Coherent(m) && ValidDisks(disks)
    requires forall other :: other != key ==> ReadPieceOf(disks, other) == ReadPieceOf(m.disks, other)
    ensures AllCopies(m.cache, (k, p) => k == key || OnDisk(disks)(k, p))
  {
    forall k, p: CachedPiece | OnDisk(m.disks)(k, p) && k != key ensures OnDisk(disks)(k, p) {
    }
  }

  lemma InsertCopiesIff(s: Arc, key: CacheKey, piece: CachedPiece, ok: (CacheKey, CachedPiece) -> bool)
    requires ListsValid(s) && AllCopies(s, (k, p) => k == key || ok(k, p))
    requires forall p: CachedPiece :: ok(key, p) <==> p.data == piece.data
    ensures AllCopies(Insert(s, key, piece), ok) <==> !StaleCopySurvives(s, key, piece.data)
  {
    var weak := (k, p) => k == key || ok(k, p);
    assert ok(key, piece);
    if key in s.b1 || key in s.b2 {
      GhostHitOwnT1(s, key);
      GhostHitCopies(s, key, weak);
      if key in s.b1 {
        PutCopies(GhostHit1(s, key), key, piece, ok);
      } else {
        PutCopies(GhostHit2(s, key), key, piece, ok);
      }
    } else {
      MakeRoomCopies(s, weak);
      PutCopies(MakeRoom(s), key, piece, ok);
      if key in s.t2.data {
        MakeRoomOwnT2(s, key);
      } else {
        MakeRoomAddsNothing(s, key);
      }
    }
    hide GhostHit1, GhostHit2, MakeRoom, EvictsOwnT2;
  }

  lemma GhostHitCopies(s: Arc, key: CacheKey, ok: (CacheKey, CachedPiece) -> bool)
    requires AllCopies(s, ok)
    ensures AllCopies(GhostHit1(s, key), ok) && AllCopies(GhostHit2(s, key), ok)
  {
  }

  /** An inserted piece is cached with the inserted bytes. */
  lemma InsertHolds(s: Arc, key: CacheKey, piece: CachedPiece)
    ensures var r := Insert(s, key, piece);
      (key in r.t1.data && r.t1.data[key] == piece) || (key in r.t2.data && r.t2.data[key] == piece)
  {
  }

  /** A piece write fails only when the disk does not return these bytes either. */
  lemma WriteFails(disks: Disks, key: CacheKey, data: Bytes)
    requires ValidDisks(disks) && WritePieceOf(disks, key, data).Err?
    ensures ReadPieceOf(disks, key) != Ok(data)
  {
    if key.0 in disks && key.1 < |disks[key.0].pieces| {
      TiledPieceFits(disks[key.0].pieces, 0, |disks[key.0].bytes|, key.1);
    }
  }

  // ------------------------------------------------------ what every step keeps

  ghost predicate TiersInv(m: Tiers) {
    ValidTiers(m) && ListsValid(m.cache) && Coherent(m)
  }

  lemma GetKeepsInv(m: Tiers, key: CacheKey)
    requires TiersInv(m)
    ensures TiersInv(m.(cache := Get(m.cache, key)))
  {
    GetValid(m.cache, key);
  }

  lemma ReadPieceKeepsInv(m: Tiers, key: CacheKey)
    requires TiersInv(m)
    ensures TiersInv(ReadPiece(m, key).0) && (Tidy(m.cache) ==> Tidy(ReadPiece(m, key).0.cache))
  {
    GetValid(m.cache, key);
    GetKeepsInv(m, key);
    var got := Get(m.cache, key);
    var r := ReadPieceOf(m.disks, key);
    if !m.cache.Contains(key) && r.Ok? {
      var piece := CachedPiece(r.value, true);
      InsertValid(got, key, piece);
      InsertCopies(got, key, piece, OnDisk(m.disks));
      if Tidy(m.cache) {
        InsertUncachedTidy(got, key, piece);
      }
    }
    hide Get, Insert, ReadPieceOf;
  }

  /** What a hit or a miss in the caches returns, without any buffered block. */
  lemma CoherentReadsAgree(m: Tiers, key: CacheKey, offset: nat, length: nat)
    requires TiersInv(m) && key !in m.blocks.pieces
    ensures ReadPiece(m, key).1 == ReadPieceOf(m.disks, key)
    ensures ReadBlock(m, key, offset, length).1 == ReadBlockOf(m.disks, key, offset, length)
  {
    var hit := m.cache.Lookup(key);
    if hit.Some? {
      assert ReadPieceOf(m.disks, key) == Ok(hit.value);
      if offset + length <= |hit.value| {
        BlockOfPiece(m.disks[key.0], key.1, offset, length);
      }
    }
  }
}
