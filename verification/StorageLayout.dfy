/**
 The layout of a torrent's bytes over pieces and files, and the flat byte array
 that a multi-file torrent stands for.
 */
module StorageLayout {
  import opened Prelude
  import opened Sequences
  import opened Arithmetic

  datatype FileEntry = FileEntry(length: nat, offset: nat)

  datatype PieceInfo = PieceInfo(offset: nat, length: nat)

  datatype DiskError =
    | InvalidPieceIndex(piece: nat)
    | InvalidBlockOffset(piece: nat, offset: nat)
    | TorrentNotFound(infoHash: string)

  // ------------------------------------------------------------ build_storage

  function BuildFiles(lengths: seq<nat>, offset: nat): seq<FileEntry> {
    if lengths == [] then []
    else [FileEntry(lengths[0], offset)] + BuildFiles(lengths[1..], offset + lengths[0])
  }

  function PieceCount(totalLength: nat, pieceLength: nat): nat
    requires pieceLength > 0
  {
    (totalLength + pieceLength - 1) / pieceLength
  }

  function BuildPiece(i: nat, totalLength: nat, pieceLength: nat): PieceInfo
    requires pieceLength > 0
  {
    var last := i + 1 == PieceCount(totalLength, pieceLength);
    var rem := totalLength % pieceLength;
    PieceInfo(i * pieceLength, if last && rem != 0 then rem else pieceLength)
  }

  function BuildPieces(totalLength: nat, pieceLength: nat): seq<PieceInfo>
    requires pieceLength > 0
  {
    seq(PieceCount(totalLength, pieceLength), (i: nat) => BuildPiece(i, totalLength, pieceLength))
  }

  function SumLengths(lengths: seq<nat>): nat {
    if lengths == [] then 0 else lengths[0] + SumLengths(lengths[1..])
  }

  /** The files follow one another from `start` to `end` without gap or overlap. */
  ghost predicate FilesTile(files: seq<FileEntry>, start: nat, end: nat)
    decreases |files|
  {
    if files == [] then start == end
    else files[0].offset == start && FilesTile(files[1..], start + files[0].length, end)
  }

  ghost predicate PiecesTile(pieces: seq<PieceInfo>, start: nat, end: nat)
    decreases |pieces|
  {
    if pieces == [] then start == end
    else pieces[0].offset == start && pieces[0].length > 0 && PiecesTile(pieces[1..], start + pieces[0].length, end)
  }

  /** The files of any layout, empty ones included, tile the torrent's bytes. */
  lemma {:induction false} BuiltFilesTile(lengths: seq<nat>, offset: nat)
    ensures FilesTile(BuildFiles(lengths, offset), offset, offset + SumLengths(lengths))
  {
    if lengths != [] {
      BuiltFilesTile(lengths[1..], offset + lengths[0]);
      assert BuildFiles(lengths, offset)[1..] == BuildFiles(lengths[1..], offset + lengths[0]);
    }
  }

  lemma PieceEnd(i: nat, totalLength: nat, pieceLength: nat)
    requires pieceLength > 0 && i < PieceCount(totalLength, pieceLength)
    ensures var p := BuildPiece(i, totalLength, pieceLength);
      p.length > 0 && p.offset + p.length == Min((i + 1) * pieceLength, totalLength)
  {
    var n := PieceCount(totalLength, pieceLength);
    var q, r := totalLength / pieceLength, totalLength % pieceLength;
    assert totalLength == q * pieceLength + r;
    CountIs(totalLength, pieceLength, q, r);
    assert (i + 1) * pieceLength == i * pieceLength + pieceLength;
    if i + 1 == n {
      if r == 0 {
        assert (i + 1) * pieceLength == q * pieceLength;
      } else {
        assert i * pieceLength == q * pieceLength;
      }
    } else {
      MulMonotone(i + 1, q, pieceLength);
    }
  }

  lemma CountIs(totalLength: nat, pieceLength: nat, q: nat, r: nat)
    requires 0 <= r < pieceLength && totalLength == q * pieceLength + r
    ensures PieceCount(totalLength, pieceLength) == if r == 0 then q else q + 1
  {
    var x := totalLength + pieceLength - 1;
    if r == 0 {
      DivIs(x, pieceLength, q, pieceLength - 1);
    } else {
      DivIs(x, pieceLength, q + 1, r - 1);
    }
  }

  lemma PieceStart(i: nat, totalLength: nat, pieceLength: nat)
    requires pieceLength > 0
    ensures i < PieceCount(totalLength, pieceLength) ==> i * pieceLength < totalLength
    ensures i == PieceCount(totalLength, pieceLength) ==> i * pieceLength >= totalLength
  {
    var q, r := totalLength / pieceLength, totalLength % pieceLength;
    assert totalLength == q * pieceLength + r;
    CountIs(totalLength, pieceLength, q, r);
    assert (i + 1) * pieceLength == i * pieceLength + pieceLength;
    assert (q + 1) * pieceLength == q * pieceLength + pieceLength;
    if i < PieceCount(totalLength, pieceLength) {
      if r == 0 {
        MulMonotone(i + 1, q, pieceLength);
      } else {
        MulMonotone(i, q, pieceLength);
      }
    }
  }

  lemma {:induction false} PiecesTileFrom(i: nat, totalLength: nat, pieceLength: nat)
    requires pieceLength > 0 && i <= PieceCount(totalLength, pieceLength)
    ensures PiecesTile(BuildPieces(totalLength, pieceLength)[i..], Min(i * pieceLength, totalLength), totalLength)
    decreases PieceCount(totalLength, pieceLength) - i
  {
    var pieces := BuildPieces(totalLength, pieceLength);
    PieceStart(i, totalLength, pieceLength);
    if i < |pieces| {
      PieceEnd(i, totalLength, pieceLength);
      PiecesTileFrom(i + 1, totalLength, pieceLength);
      assert pieces[i..][0] == BuildPiece(i, totalLength, pieceLength);
      assert pieces[i..][1..] == pieces[i + 1..];
    }
  }

  /** The pieces tile the torrent's bytes exactly. */
  lemma BuiltPiecesTile(totalLength: nat, pieceLength: nat)
    requires pieceLength > 0
    ensures PiecesTile(BuildPieces(totalLength, pieceLength), 0, totalLength)
  {
    PiecesTileFrom(0, totalLength, pieceLength);
    assert BuildPieces(totalLength, pieceLength)[0..] == BuildPieces(totalLength, pieceLength);
  }

  lemma {:induction false} TiledPieceFits(pieces: seq<PieceInfo>, start: nat, end: nat, i: nat)
    requires PiecesTile(pieces, start, end) && i < |pieces|
    ensures start <= pieces[i].offset && pieces[i].offset + pieces[i].length <= end
    ensures forall j :: i < j < |pieces| ==> pieces[i].offset + pieces[i].length <= pieces[j].offset
    decreases |pieces|
  {
    TileOrder(pieces[1..], start + pieces[0].length, end);
    if i > 0 {
      TiledPieceFits(pieces[1..], start + pieces[0].length, end, i - 1);
      forall j | i < j < |pieces| ensures pieces[i].offset + pieces[i].length <= pieces[j].offset {
        assert pieces[j] == pieces[1..][j - 1];
      }
    } else {
      forall j | 0 < j < |pieces| ensures pieces[0].offset + pieces[0].length <= pieces[j].offset {
        TiledPieceFits(pieces[1..], start + pieces[0].length, end, j - 1);
      }
    }
  }

  lemma {:induction false} TileOrder(pieces: seq<PieceInfo>, start: nat, end: nat)
    requires PiecesTile(pieces, start, end)
    ensures start <= end
    decreases |pieces|
  {
    if pieces != [] {
      TileOrder(pieces[1..], start + pieces[0].length, end);
    }
  }

  // -------------------------------------------------------- the flat byte array

  function Splice(s: Bytes, at: nat, data: Bytes): (r: Bytes)
    requires at + |data| <= |s|
    ensures |r| == |s|
  {
    s[..at] + data + s[at + |data|..]
  }

  /** A splice holds the data in its range and the old bytes around it. */
  lemma SpliceSlice(s: Bytes, at: nat, data: Bytes, lo: nat, hi: nat)
    requires at + |data| <= |s| && lo <= hi <= |s|
    ensures Splice(s, at, data)[at..at + |data|] == data
    ensures hi <= at || at + |data| <= lo ==> Splice(s, at, data)[lo..hi] == s[lo..hi]
  {
    var r := Splice(s, at, data);
    SpliceAt(s, at, data);
    hide Splice;
    forall i | 0 <= i < |data| ensures r[at..at + |data|][i] == data[i] {
      assert r[at + i] == data[i];
    }
    if hi <= at || at + |data| <= lo {
      forall i | 0 <= i < hi - lo ensures r[lo..hi][i] == s[lo..hi][i] {
        assert r[lo + i] == s[lo + i];
      }
    }
  }

  lemma SpliceAt(s: Bytes, at: nat, data: Bytes)
    requires at + |data| <= |s|
    ensures forall i {:trigger Splice(s, at, data)[i]} :: 0 <= i < |s| ==>
      Splice(s, at, data)[i] == if at <= i < at + |data| then data[i - at] else s[i]
  {
  }

  /** A torrent's bytes as one array, cut into pieces. */
  datatype FlatDisk = FlatDisk(pieces: seq<PieceInfo>, bytes: Bytes) {

    ghost predicate Valid() {
      PiecesTile(pieces, 0, |bytes|)
    }

    function ReadBlock(piece: nat, offset: nat, length: nat): Result<Bytes, DiskError>
      requires Valid()
    {
      if piece >= |pieces| then Err(InvalidPieceIndex(piece))
      else if offset + length > pieces[piece].length then Err(InvalidBlockOffset(piece, offset))
      else
        TiledPieceFits(pieces, 0, |bytes|, piece);
        var start := pieces[piece].offset + offset;
        Ok(bytes[start..start + length])
    }

    function ReadPiece(piece: nat): Result<Bytes, DiskError>
      requires Valid()
    {
      if piece >= |pieces| then Err(InvalidPieceIndex(piece))
      else ReadBlock(piece, 0, pieces[piece].length)
    }

    /** Only as many bytes as the 32-bit length says are written. */
    function WriteBlock(piece: nat, offset: nat, data: Bytes): Result<FlatDisk, DiskError>
      requires Valid()
    {
      var length := |data| % U32_RANGE;
      if piece >= |pieces| then Err(InvalidPieceIndex(piece))
      else if offset + length > pieces[piece].length then Err(InvalidBlockOffset(piece, offset))
      else
        TiledPieceFits(pieces, 0, |bytes|, piece);
        Ok(FlatDisk(pieces, Splice(bytes, pieces[piece].offset + offset, data[..length])))
    }

    function WritePiece(piece: nat, data: Bytes): Result<FlatDisk, DiskError>
      requires Valid()
    {
      if piece >= |pieces| then Err(InvalidPieceIndex(piece))
      else if |data| != pieces[piece].length then Err(InvalidPieceIndex(piece))
      else
        TiledPieceFits(pieces, 0, |bytes|, piece);
        Ok(FlatDisk(pieces, Splice(bytes, pieces[piece].offset, data)))
    }
  }

  /**
   Reading a block just written gives the data back, and every block it does not
   overlap, in any piece, reads as before.
   */
  lemma WriteBlockThenRead(d: FlatDisk, piece: nat, offset: nat, data: Bytes, otherPiece: nat, otherOffset: nat,
                           otherLength: nat)
    requires d.Valid() && |data| < U32_RANGE && d.WriteBlock(piece, offset, data).Ok?
    ensures var w := d.WriteBlock(piece, offset, data).value;
      && w.Valid() && w.pieces == d.pieces
      && w.ReadBlock(piece, offset, |data|) == Ok(data)
      && (otherPiece != piece || otherOffset + otherLength <= offset || offset + |data| <= otherOffset
          ==> w.ReadBlock(otherPiece, otherOffset, otherLength) == d.ReadBlock(otherPiece, otherOffset, otherLength))
  {
    var w := d.WriteBlock(piece, offset, data).value;
    hide Splice;
    TiledPieceFits(d.pieces, 0, |d.bytes|, piece);
    assert data[..|data|] == data;
    var start := d.pieces[piece].offset + offset;
    SpliceSlice(d.bytes, start, data, 0, 0);
    if otherPiece < |d.pieces| && otherOffset + otherLength <= d.pieces[otherPiece].length {
      TiledPieceFits(d.pieces, 0, |d.bytes|, otherPiece);
      var s := d.pieces[otherPiece].offset + otherOffset;
      SpliceSlice(d.bytes, start, data, s, s + otherLength);
    }
  }

  lemma WritePieceThenRead(d: FlatDisk, piece: nat, data: Bytes, other: nat)
    requires d.Valid() && d.WritePiece(piece, data).Ok?
    ensures var w := d.WritePiece(piece, data).value;
      && w.Valid() && w.pieces == d.pieces
      && w.ReadPiece(piece) == Ok(data)
      && (other != piece ==> w.ReadPiece(other) == d.ReadPiece(other))
  {
    hide Splice;
    var w := d.WritePiece(piece, data).value;
    TiledPieceFits(d.pieces, 0, |d.bytes|, piece);
    var start := d.pieces[piece].offset;
    SpliceSlice(d.bytes, start, data, 0, 0);
    if other < |d.pieces| && other != piece {
      TiledPieceFits(d.pieces, 0, |d.bytes|, other);
      var s, n := d.pieces[other].offset, d.pieces[other].length;
      SpliceSlice(d.bytes, start, data, s, s + n);
    }
  }

  /** A block of a piece is the slice of the piece at its offset. */
  lemma BlockOfPiece(d: FlatDisk, piece: nat, offset: nat, length: nat)
    requires d.Valid() && d.ReadPiece(piece).Ok? && offset + length <= |d.ReadPiece(piece).value|
    ensures d.ReadBlock(piece, offset, length) == Ok(d.ReadPiece(piece).value[offset..offset + length])
  {
    TiledPieceFits(d.pieces, 0, |d.bytes|, piece);
    var start, whole := d.pieces[piece].offset, d.ReadPiece(piece).value;
    assert whole == d.bytes[start..start + |whole|];
    SubSlice(d.bytes, start, start + |whole|, offset, offset + length);
  }
}
