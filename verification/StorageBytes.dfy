/**
 Which byte of which file a torrent's byte is: pieces follow one another in the torrent,
 files follow one another in it, and a read or write of a block touches just its bytes.
 */
module StorageBytes {
  import opened Prelude
  import opened StorageLayout
  import opened TorrentStorage

  /** A torrent's storage as `build_storage` lays it out, with these file contents. */
  ghost predicate Built(d: FlatDisk, lengths: seq<nat>, pieceLength: nat, disk: seq<Bytes>) {
    && pieceLength > 0 && d.pieces == BuildPieces(SumLengths(lengths), pieceLength) && d.bytes == Flat(disk)
    && |disk| == |lengths| && forall i :: 0 <= i < |disk| ==> |disk[i]| == lengths[i]
  }

  lemma {:induction false} FilesAre(lengths: seq<nat>, offset: nat, i: nat)
    requires i < |lengths|
    ensures var files := BuildFiles(lengths, offset);
      |files| == |lengths| && files[i] == FileEntry(lengths[i], offset + SumLengths(lengths[..i]))
  {
    if i == 0 {
      assert lengths[..0] == [];
      if |lengths| > 1 {
        FilesAre(lengths[1..], offset + lengths[0], 0);
      }
    } else {
      FilesAre(lengths[1..], offset + lengths[0], i - 1);
      assert lengths[..i][1..] == lengths[1..][..i - 1];
    }
  }

  lemma BuiltIsValid(d: FlatDisk, lengths: seq<nat>, pieceLength: nat, disk: seq<Bytes>)
    requires Built(d, lengths, pieceLength, disk)
    ensures d.Valid() && Fits(BuildFiles(lengths, 0), disk) && |d.bytes| == SumLengths(lengths)
  {
    var files := BuildFiles(lengths, 0);
    BuiltFilesTile(lengths, 0);
    BuiltPiecesTile(SumLengths(lengths), pieceLength);
    if lengths != [] {
      FilesAre(lengths, 0, 0);
    }
    forall i | 0 <= i < |files| ensures |disk[i]| == files[i].length {
      FilesAre(lengths, 0, i);
    }
    FlatLength(files, disk, 0, SumLengths(lengths));
  }

  /** The files follow one another in the flat array. */
  lemma FileByte(lengths: seq<nat>, disk: seq<Bytes>, i: nat, k: nat)
    requires |disk| == |lengths| && Fits(BuildFiles(lengths, 0), disk) && i < |disk| && k < |disk[i]|
    ensures SumLengths(lengths[..i]) + k < |Flat(disk)| && Flat(disk)[SumLengths(lengths[..i]) + k] == disk[i][k]
  {
    FilesAre(lengths, 0, i);
    BuiltFilesTile(lengths, 0);
    FlatFile(BuildFiles(lengths, 0), disk, 0, SumLengths(lengths), i);
    var o := SumLengths(lengths[..i]);
    hide Flat, BuildFiles, SumLengths, FilesTile, Fits;
    assert Flat(disk)[o..o + |disk[i]|][k] == Flat(disk)[o + k];
  }

  /**
   Byte `k` of file `i` is byte `position - start` of any block that reaches over it,
   where the position counts the bytes of all files before it.
   */
  lemma BlockByteIsFileByte(d: FlatDisk, lengths: seq<nat>, pieceLength: nat, disk: seq<Bytes>, piece: nat,
                            offset: nat, length: nat, i: nat, k: nat)
    requires Built(d, lengths, pieceLength, disk) && i < |disk| && k < |disk[i]|
    requires d.Valid() && d.ReadBlock(piece, offset, length).Ok?
    ensures var position := SumLengths(lengths[..i]) + k;
      var start, r := piece * pieceLength + offset, d.ReadBlock(piece, offset, length).value;
      |r| == length && (start <= position < start + length ==> r[position - start] == disk[i][k])
  {
    BuiltIsValid(d, lengths, pieceLength, disk);
    FileByte(lengths, disk, i, k);
    ReadBlockIs(d, piece, offset, length);
    hide FlatDisk.ReadBlock, Flat, BuildFiles, SumLengths, FilesTile, Fits, FlatDisk.Valid;
    assert d.pieces[piece].offset == piece * pieceLength;
  }

  /** A block is read exactly if it lies within an existing piece; it is then the bytes from its own place on. */
  lemma ReadBlockIs(d: FlatDisk, piece: nat, offset: nat, length: nat)
    requires d.Valid()
    ensures var r := d.ReadBlock(piece, offset, length);
      if piece >= |d.pieces| then r == Err(InvalidPieceIndex(piece))
      else if offset + length > d.pieces[piece].length then r == Err(InvalidBlockOffset(piece, offset))
      else
        var at := d.pieces[piece].offset + offset;
        && r.Ok? && |r.value| == length && at + length <= |d.bytes|
        && forall k :: 0 <= k < length ==> r.value[k] == d.bytes[at + k]
  {
    if piece < |d.pieces| {
      TiledPieceFits(d.pieces, 0, |d.bytes|, piece);
    }
  }

  /** A piece is read whole, and a write of it must have its length. */
  lemma PieceAccessIs(d: FlatDisk, piece: nat, data: Bytes)
    requires d.Valid()
    ensures d.ReadPiece(piece) == if piece >= |d.pieces| then Err(InvalidPieceIndex(piece))
                                  else d.ReadBlock(piece, 0, d.pieces[piece].length)
    ensures d.WritePiece(piece, data).Ok? <==> piece < |d.pieces| && |data| == d.pieces[piece].length
    ensures d.WritePiece(piece, data).Err? ==> d.WritePiece(piece, data) == Err(InvalidPieceIndex(piece))
  {
  }

  /** A block write changes the bytes of its own place, as many as the 32-bit length says, and no others. */
  lemma WriteBlockIs(d: FlatDisk, piece: nat, offset: nat, data: Bytes)
    requires d.Valid()
    ensures var r, length := d.WriteBlock(piece, offset, data), |data| % 0x1_0000_0000;
      if piece >= |d.pieces| then r == Err(InvalidPieceIndex(piece))
      else if offset + length > d.pieces[piece].length then r == Err(InvalidBlockOffset(piece, offset))
      else
        var at := d.pieces[piece].offset + offset;
        && r.Ok? && r.value.pieces == d.pieces && |r.value.bytes| == |d.bytes|
        && forall q :: 0 <= q < |d.bytes| ==>
             r.value.bytes[q] == if at <= q < at + length then data[q - at] else d.bytes[q]
  {
    if piece < |d.pieces| {
      TiledPieceFits(d.pieces, 0, |d.bytes|, piece);
    }
  }

  /** So does a write of a whole piece. */
  lemma WritePieceIs(d: FlatDisk, piece: nat, data: Bytes)
    requires d.Valid() && d.WritePiece(piece, data).Ok?
    ensures var w, at := d.WritePiece(piece, data).value, d.pieces[piece].offset;
      && w.pieces == d.pieces && |w.bytes| == |d.bytes|
      && forall q :: 0 <= q < |d.bytes| ==> w.bytes[q] == if at <= q < at + |data| then data[q - at] else d.bytes[q]
  {
    TiledPieceFits(d.pieces, 0, |d.bytes|, piece);
  }
}
