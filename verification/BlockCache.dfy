/** The cache of blocks of incomplete pieces, updated in place. */
module BlockCache {
  import opened Prelude
  import opened Sequences
  import opened OrderedMap
  import opened BlockStream

  /** Concatenates the blocks in offset order. */
  method AssembleBlocks(blocks: map<nat, Bytes>) returns (data: Bytes)
    ensures data == Join(Entries(blocks))
  {
    var entries := Entries(blocks);
    data := [];
    for i := 0 to |entries|
      invariant data == Join(entries[..i])
    {
      data := data + entries[i].1;
      JoinAppend(entries[..i], [entries[i]]);
      assert entries[..i + 1] == entries[..i] + [entries[i]];
    }
    assert entries[..|entries|] == entries;
  }

  method TotalBytes(blocks: map<nat, Bytes>) returns (total: nat)
    ensures total == |Join(Entries(blocks))|
  {
    var entries := Entries(blocks);
    total := 0;
    for i := 0 to |entries|
      invariant total == |Join(entries[..i])|
    {
      total := total + |entries[i].1|;
      JoinAppend(entries[..i], [entries[i]]);
      assert entries[..i + 1] == entries[..i] + [entries[i]];
    }
    assert entries[..|entries|] == entries;
  }

  class BlockCache {
    const digest: HashState -> Bytes
    var pieces: map<CacheKey, PieceBlocks>
    var hashStates: map<CacheKey, HashState>
    var memoryUsed: int

    ghost function View(): BlockState
      reads this
    {
      BlockState(pieces, hashStates, memoryUsed)
    }

    ghost predicate Valid()
      reads this
    {
      ValidState(View())
    }

    constructor (digest: HashState -> Bytes)
      ensures Valid() && View() == EMPTY_BLOCKS && this.digest == digest
    {
      this.digest := digest;
      pieces, hashStates, memoryUsed := map[], map[], 0;
    }

    /**
     An empty block at the hashed position would make the source loop for ever,
     and a block reaching past the 32-bit range would overflow its offset.
     */
    method AddBlock(key: CacheKey, offset: nat, data: Bytes, pieceLength: nat, version: nat) returns (complete: bool)
      requires Valid() && |data| > 0 && offset + |data| < U32_RANGE
      modifies this
      ensures Valid() && View() == BlockStream.AddBlock(old(View()), key, offset, data, pieceLength, version)
      ensures complete == IsComplete(View().pieces[key])
    {
      if key !in pieces {
        hashStates := hashStates[key := NewHash(version)];
        pieces := pieces[key := PieceBlocks(map[], pieceLength, 0)];
      }
      var piece := pieces[key];
      if offset !in piece.blocks {
        memoryUsed := memoryUsed + |data|;
      }
      pieces := pieces[key := piece.(blocks := piece.blocks[offset := data])];
      assert View() == Store(Open(old(View()), key, pieceLength, version), key, offset, data);
      TryAdvanceHash(key);
      complete := IsComplete(pieces[key]);
    }

    method TryAdvanceHash(key: CacheKey)
      requires Valid() && key in pieces
      modifies this
      ensures Valid() && View() == Advance(old(View()), key)
    {
      hide Contiguous;
      if key in hashStates {
        var piece := pieces[key];
        var state := hashStates[key];
        var nextOffset := piece.bytesHashed;
        ghost var absorbed: Bytes := [];
        assert state.Update([]) == state;
        while nextOffset in piece.blocks
          invariant nextOffset == piece.bytesHashed + |absorbed|
          invariant state == hashStates[key].Update(absorbed)
          invariant Contiguous(piece.blocks, piece.bytesHashed) == absorbed + Contiguous(piece.blocks, nextOffset)
          modifies {}
          decreases U32_RANGE - nextOffset
        {
          var block := piece.blocks[nextOffset];
          UpdateTwice(hashStates[key], absorbed, block);
          ContiguousNext(piece.blocks, nextOffset);
          Associates(absorbed, block, Contiguous(piece.blocks, nextOffset + |block|));
          state := state.Update(block);
          nextOffset := nextOffset + |block|;
          absorbed := absorbed + block;
        }
        ContiguousNext(piece.blocks, nextOffset);
        assert absorbed == Contiguous(piece.blocks, piece.bytesHashed);
        hashStates := hashStates[key := state];
        pieces := pieces[key := piece.(bytesHashed := nextOffset)];
      }
    }

    method FinalizeAndVerify(key: CacheKey, expected: Bytes) returns (valid: bool)
      requires Valid()
      modifies this
      ensures Valid() && (View(), valid) == Finalize(old(View()), key, expected, digest)
    {
      if key in pieces {
        TryAdvanceHash(key);
        if pieces[key].bytesHashed != pieces[key].pieceLength {
          return false;
        }
      }
      if key in hashStates {
        var state := hashStates[key];
        hashStates := hashStates - {key};
        valid := digest(state) == expected;
      } else {
        valid := false;
      }
    }

    method GetAssembledPiece(key: CacheKey) returns (r: Option<Bytes>)
      ensures r == if key in pieces then Some(Assemble(pieces[key])) else None
    {
      if key in pieces {
        var data := AssembleBlocks(pieces[key].blocks);
        r := Some(data);
      } else {
        r := None;
      }
    }

    method RemovePiece(key: CacheKey) returns (r: Option<Bytes>)
      requires Valid()
      modifies this
      ensures Valid() && View() == BlockStream.RemovePiece(old(View()), key)
      ensures r == if key in old(pieces) then Some(Assemble(old(pieces)[key])) else None
    {
      hashStates := hashStates - {key};
      if key in pieces {
        var piece := pieces[key];
        pieces := pieces - {key};
        var freed := TotalBytes(piece.blocks);
        memoryUsed := memoryUsed - freed;
        var data := AssembleBlocks(piece.blocks);
        r := Some(data);
      } else {
        r := None;
      }
    }

    method Clear()
      modifies this
      ensures Valid() && View() == EMPTY_BLOCKS
    {
      pieces, hashStates, memoryUsed := map[], map[], 0;
    }
  }
}
