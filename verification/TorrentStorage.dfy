/**
 Multi-file storage. Files are in-memory byte strings; reads and writes go span
 by span, and together behave like one flat byte array.
 */
module TorrentStorage {
  import opened Prelude
  import opened StorageLayout

  datatype Span = Span(fileIndex: nat, fileOffset: nat, length: nat)

  /** The bytes of all files, one after another. */
  ghost function Flat(disk: seq<Bytes>): Bytes {
    if disk == [] then [] else disk[0] + Flat(disk[1..])
  }

  /** One content per file, each as long as the layout says. */
  ghost predicate Fits(files: seq<FileEntry>, disk: seq<Bytes>) {
    |disk| == |files| && forall i :: 0 <= i < |files| ==> |disk[i]| == files[i].length
  }

  /**
   Non-empty spans, in file order, that cover [start, end) without gap or overlap.
   */
  ghost predicate Covers(files: seq<FileEntry>, spans: seq<Span>, fromFile: nat, start: nat, end: nat)
    decreases |spans|
  {
    if spans == [] then start == end
    else
      var s := spans[0];
      && fromFile <= s.fileIndex < |files| && s.length > 0
      && s.fileOffset + s.length <= files[s.fileIndex].length
      && files[s.fileIndex].offset + s.fileOffset == start
      && Covers(files, spans[1..], s.fileIndex + 1, start + s.length, end)
  }

  function TotalSpan(spans: seq<Span>): nat {
    if spans == [] then 0 else spans[0].length + TotalSpan(spans[1..])
  }

  lemma {:induction false} CoversLength(files: seq<FileEntry>, spans: seq<Span>, fromFile: nat, start: nat, end: nat)
    requires Covers(files, spans, fromFile, start, end)
    ensures TotalSpan(spans) == end - start
  {
    if spans != [] {
      CoversLength(files, spans[1..], spans[0].fileIndex + 1, start + spans[0].length, end);
    }
  }

  lemma {:induction false} CoversAppend(files: seq<FileEntry>, spans: seq<Span>, fromFile: nat, start: nat, mid: nat,
                                        s: Span)
    requires Covers(files, spans, fromFile, start, mid)
    requires s.fileIndex < |files| && s.length > 0 && s.fileOffset + s.length <= files[s.fileIndex].length
    requires files[s.fileIndex].offset + s.fileOffset == mid
    requires fromFile <= s.fileIndex && forall t :: t in spans ==> t.fileIndex < s.fileIndex
    ensures Covers(files, spans + [s], fromFile, start, mid + s.length)
  {
    if spans == [] {
      assert spans + [s] == [s];
    } else {
      CoversAppend(files, spans[1..], spans[0].fileIndex + 1, start + spans[0].length, mid, s);
      assert (spans + [s])[1..] == spans[1..] + [s];
    }
  }

  /** Adjacent files share a boundary. */
  lemma {:induction false} FileBoundary(files: seq<FileEntry>, start: nat, end: nat, i: nat)
    requires FilesTile(files, start, end) && i < |files|
    ensures start <= files[i].offset && files[i].offset + files[i].length <= end
    ensures i + 1 < |files| ==> files[i + 1].offset == files[i].offset + files[i].length
    ensures i + 1 == |files| ==> files[i].offset + files[i].length == end
    decreases |files|
  {
    TileEnds(files[1..], start + files[0].length, end);
    if i > 0 {
      FileBoundary(files[1..], start + files[0].length, end, i - 1);
    }
  }

  lemma {:induction false} TileEnds(files: seq<FileEntry>, start: nat, end: nat)
    requires FilesTile(files, start, end)
    ensures start <= end
    decreases |files|
  {
    if files != [] {
      TileEnds(files[1..], start + files[0].length, end);
    }
  }

  lemma {:induction false} FlatLength(files: seq<FileEntry>, disk: seq<Bytes>, start: nat, end: nat)
    requires FilesTile(files, start, end) && Fits(files, disk)
    ensures start + |Flat(disk)| == end
    decreases |files|
  {
    if files != [] {
      FlatLength(files[1..], disk[1..], start + files[0].length, end);
    }
  }

  lemma SliceOfTail(head: Bytes, tail: Bytes, at: nat, n: nat)
    requires at + n <= |tail|
    ensures (head + tail)[|head| + at..|head| + at + n] == tail[at..at + n]
  {
  }

  /** File `i` is the part of the flat array at the file's offset. */
  lemma {:induction false} FlatFile(files: seq<FileEntry>, disk: seq<Bytes>, start: nat, end: nat, i: nat)
    requires FilesTile(files, start, end) && Fits(files, disk) && i < |files|
    ensures var o := files[i].offset - start;
      0 <= o && o + |disk[i]| <= |Flat(disk)| && Flat(disk)[o..o + |disk[i]|] == disk[i]
    decreases |files|
  {
    FileBoundary(files, start, end, i);
    FlatLength(files, disk, start, end);
    if i > 0 {
      FlatFile(files[1..], disk[1..], start + files[0].length, end, i - 1);
      SliceOfTail(disk[0], Flat(disk[1..]), files[i].offset - start - |disk[0]|, |disk[i]|);
    }
  }

  /** The bytes of a span, read in its file or in the flat array. */
  lemma FlatSpan(files: seq<FileEntry>, disk: seq<Bytes>, end: nat, s: Span)
    requires FilesTile(files, 0, end) && Fits(files, disk) && s.fileIndex < |files|
    requires s.fileOffset + s.length <= files[s.fileIndex].length
    ensures var at := files[s.fileIndex].offset + s.fileOffset;
      at + s.length <= |Flat(disk)| &&
      disk[s.fileIndex][s.fileOffset..s.fileOffset + s.length] == Flat(disk)[at..at + s.length]
  {
    FlatFile(files, disk, 0, end, s.fileIndex);
    var content, o := disk[s.fileIndex], files[s.fileIndex].offset;
    assert content == Flat(disk)[o..o + |content|];
    assert Flat(disk)[o..o + |content|][s.fileOffset..s.fileOffset + s.length]
        == Flat(disk)[o + s.fileOffset..o + s.fileOffset + s.length];
  }

  lemma SpliceParts(head: Bytes, tail: Bytes, at: nat, chunk: Bytes)
    ensures at + |chunk| <= |head| ==> Splice(head + tail, at, chunk) == Splice(head, at, chunk) + tail
    ensures at + |chunk| <= |tail| ==> Splice(head + tail, |head| + at, chunk) == head + Splice(tail, at, chunk)
  {
  }

  /** Writing into file `i` writes into the flat array at the file's offset. */
  lemma {:induction false} FlatWrite(files: seq<FileEntry>, disk: seq<Bytes>, start: nat, end: nat, i: nat, at: nat,
                                     chunk: Bytes)
    requires FilesTile(files, start, end) && Fits(files, disk) && i < |files|
    requires at + |chunk| <= |disk[i]|
    ensures var o := files[i].offset - start;
      0 <= o && o + at + |chunk| <= |Flat(disk)| &&
      Flat(disk[i := Splice(disk[i], at, chunk)]) == Splice(Flat(disk), o + at, chunk)
    decreases |files|
  {
    FlatFile(files, disk, start, end, i);
    var disk' := disk[i := Splice(disk[i], at, chunk)];
    if i == 0 {
      assert disk'[1..] == disk[1..];
      SpliceParts(disk[0], Flat(disk[1..]), at, chunk);
    } else {
      FlatWrite(files[1..], disk[1..], start + files[0].length, end, i - 1, at, chunk);
      assert disk'[1..] == disk[1..][i - 1 := Splice(disk[i], at, chunk)];
      SpliceParts(disk[0], Flat(disk[1..]), files[i].offset - start - |disk[0]| + at, chunk);
    }
  }

  lemma SpliceTwice(s: Bytes, at: nat, data: Bytes, k: nat, m: nat)
    requires k <= m <= |data| && at + |data| <= |s|
    ensures Splice(Splice(s, at, data[..k]), at + k, data[k..m]) == Splice(s, at, data[..m])
  {
  }

  lemma SliceExtend(s: Bytes, start: nat, mid: nat, n: nat)
    requires start <= mid && mid + n <= |s|
    ensures s[start..mid] + s[mid..mid + n] == s[start..mid + n]
  {
  }

  lemma CoversNone(files: seq<FileEntry>, spans: seq<Span>, fromFile: nat, start: nat, end: nat)
    requires Covers(files, spans[|spans|..], fromFile, start, end)
    ensures start == end
  {
  }

  lemma NextSpan(files: seq<FileEntry>, spans: seq<Span>, i: nat, fromFile: nat, start: nat, end: nat)
    requires i < |spans| && Covers(files, spans[i..], fromFile, start, end)
    ensures var s := spans[i];
      && s.fileIndex < |files| && s.fileOffset + s.length <= files[s.fileIndex].length
      && files[s.fileIndex].offset + s.fileOffset == start && start + s.length <= end
      && Covers(files, spans[i + 1..], s.fileIndex + 1, start + s.length, end)
  {
    assert spans[i..][0] == spans[i] && spans[i..][1..] == spans[i + 1..];
    CoversLength(files, spans[i + 1..], spans[i].fileIndex + 1, start + spans[i].length, end);
  }

  /** One span of a write, seen on the flat array. */
  lemma WriteStep(files: seq<FileEntry>, disk: seq<Bytes>, end: nat, s: Span, before: Bytes, start: nat, data: Bytes,
                  k: nat)
    requires FilesTile(files, 0, end) && Fits(files, disk) && |Flat(disk)| == |before| == end && start + |data| <= end
    requires s.fileIndex < |files| && s.fileOffset + s.length <= files[s.fileIndex].length
    requires files[s.fileIndex].offset + s.fileOffset == start + k && k + s.length <= |data|
    requires Flat(disk) == Splice(before, start, data[..k])
    ensures var disk' := disk[s.fileIndex := Splice(disk[s.fileIndex], s.fileOffset, data[k..k + s.length])];
      Fits(files, disk') && Flat(disk') == Splice(before, start, data[..k + s.length]) && |Flat(disk')| == end
  {
    FlatWrite(files, disk, 0, end, s.fileIndex, s.fileOffset, data[k..k + s.length]);
    SpliceTwice(before, start, data, k, k + s.length);
  }

  class TorrentStorage {
    const files: seq<FileEntry>
    const pieces: seq<PieceInfo>
    const totalLength: nat
    var disk: seq<Bytes>

    ghost predicate Valid()
      reads this
    {
      && FilesTile(files, 0, totalLength) && PiecesTile(pieces, 0, totalLength)
      && Fits(files, disk) && |Flat(disk)| == totalLength
    }

    ghost function View(): FlatDisk
      reads this
    {
      FlatDisk(pieces, Flat(disk))
    }

    /** Lays a torrent out as `build_storage` does and preallocates its files. */
    constructor (lengths: seq<nat>, totalLength: nat, pieceLength: nat)
      requires pieceLength > 0 && SumLengths(lengths) == totalLength
      ensures Valid()
      ensures files == BuildFiles(lengths, 0) && pieces == BuildPieces(totalLength, pieceLength)
      ensures this.totalLength == totalLength
    {
      var layout := BuildFiles(lengths, 0);
      files := layout;
      pieces := BuildPieces(totalLength, pieceLength);
      this.totalLength := totalLength;
      disk := seq(|layout|, i requires 0 <= i < |layout| => seq(layout[i].length, _ => 0 as byte));
      new;
      BuiltFilesTile(lengths, 0);
      BuiltPiecesTile(totalLength, pieceLength);
      FlatLength(files, disk, 0, totalLength);
    }

    /** The common loop of `piece_file_spans` and `block_file_spans`. */
    method FileSpans(start: nat, length: nat) returns (spans: seq<Span>)
      requires Valid() && start + length <= totalLength
      ensures Covers(files, spans, 0, start, start + length)
    {
      spans := [];
      var remaining: nat, current: nat := length, start;
      for i := 0 to |files|
        invariant remaining + current == start + length
        invariant Covers(files, spans, 0, start, current)
        invariant forall s :: s in spans ==> s.fileIndex < i
        invariant remaining > 0 && i < |files| ==> files[i].offset <= current
        invariant remaining > 0 && i == |files| ==> totalLength <= current
      {
        FileBoundary(files, 0, totalLength, i);
        if remaining == 0 {
          return;
        }
        var fileEnd := files[i].offset + files[i].length;
        if current >= files[i].offset && current < fileEnd {
          var take := Min(remaining, fileEnd - current);
          var span := Span(i, current - files[i].offset, take);
          CoversAppend(files, spans, 0, start, current, span);
          spans := spans + [span];
          current := current + take;
          remaining := remaining - take;
        }
      }
    }

    method PieceFileSpans(piece: nat) returns (r: Result<seq<Span>, DiskError>)
      requires Valid()
      ensures piece >= |pieces| ==> r == Err(InvalidPieceIndex(piece))
      ensures piece < |pieces| ==> r.Ok?
      ensures piece < |pieces| ==>
        Covers(files, r.value, 0, pieces[piece].offset, pieces[piece].offset + pieces[piece].length)
    {
      if piece >= |pieces| {
        return Err(InvalidPieceIndex(piece));
      }
      TiledPieceFits(pieces, 0, totalLength, piece);
      var spans := FileSpans(pieces[piece].offset, pieces[piece].length);
      return Ok(spans);
    }

    method BlockFileSpans(piece: nat, offset: nat, length: nat) returns (r: Result<seq<Span>, DiskError>)
      requires Valid()
      ensures piece >= |pieces| ==> r == Err(InvalidPieceIndex(piece))
      ensures piece < |pieces| && offset + length > pieces[piece].length ==> r == Err(InvalidBlockOffset(piece, offset))
      ensures piece < |pieces| && offset + length <= pieces[piece].length ==> r.Ok?
      ensures piece < |pieces| && offset + length <= pieces[piece].length ==>
        Covers(files, r.value, 0, pieces[piece].offset + offset, pieces[piece].offset + offset + length)
    {
      if piece >= |pieces| {
        return Err(InvalidPieceIndex(piece));
      }
      if offset + length > pieces[piece].length {
        return Err(InvalidBlockOffset(piece, offset));
      }
      TiledPieceFits(pieces, 0, totalLength, piece);
      var spans := FileSpans(pieces[piece].offset + offset, length);
      return Ok(spans);
    }

    /** Reads the spans one after another. */
    method ReadSpans(spans: seq<Span>, ghost start: nat, ghost end: nat) returns (data: Bytes)
      requires Valid() && start <= end <= totalLength && Covers(files, spans, 0, start, end)
      ensures data == Flat(disk)[start..end]
    {
      hide Flat, FilesTile, PiecesTile, Covers;
      data := [];
      ghost var at: nat, fromFile: nat := start, 0;
      for i := 0 to |spans|
        invariant start <= at <= end && Covers(files, spans[i..], fromFile, at, end)
        invariant data == Flat(disk)[start..at]
      {
        var s := spans[i];
        NextSpan(files, spans, i, fromFile, at, end);
        FlatSpan(files, disk, totalLength, s);
        SliceExtend(Flat(disk), start, at, s.length);
        data := data + disk[s.fileIndex][s.fileOffset..s.fileOffset + s.length];
        at, fromFile := at + s.length, s.fileIndex + 1;
      }
      CoversNone(files, spans, fromFile, at, end);
    }

    /** Writes `data` into the spans one after another. */
    method WriteSpans(spans: seq<Span>, data: Bytes, ghost start: nat)
      requires Valid() && start + |data| <= totalLength && Covers(files, spans, 0, start, start + |data|)
      modifies this
      ensures Valid() && Flat(disk) == Splice(old(Flat(disk)), start, data)
    {
      hide Flat, FilesTile, PiecesTile;
      var dataOffset: nat := 0;
      ghost var fromFile: nat := 0;
      for i := 0 to |spans|
        invariant dataOffset <= |data| && Covers(files, spans[i..], fromFile, start + dataOffset, start + |data|)
        invariant Valid() && Flat(disk) == Splice(old(Flat(disk)), start, data[..dataOffset])
      {
        var s := spans[i];
        NextSpan(files, spans, i, fromFile, start + dataOffset, start + |data|);
        WriteStep(files, disk, totalLength, s, old(Flat(disk)), start, data, dataOffset);
        var chunk := data[dataOffset..dataOffset + s.length];
        disk := disk[s.fileIndex := Splice(disk[s.fileIndex], s.fileOffset, chunk)];
        dataOffset := dataOffset + s.length;
        fromFile := s.fileIndex + 1;
      }
      assert data[..|data|] == data;
    }

    method ReadPiece(piece: nat) returns (r: Result<Bytes, DiskError>)
      requires Valid()
      ensures r == View().ReadPiece(piece)
    {
      if piece >= |pieces| {
        return Err(InvalidPieceIndex(piece));
      }
      var spans := PieceFileSpans(piece);
      TiledPieceFits(pieces, 0, totalLength, piece);
      var data := ReadSpans(spans.value, pieces[piece].offset, pieces[piece].offset + pieces[piece].length);
      return Ok(data);
    }

    method ReadBlock(piece: nat, offset: nat, length: nat) returns (r: Result<Bytes, DiskError>)
      requires Valid()
      ensures r == View().ReadBlock(piece, offset, length)
    {
      var spans := BlockFileSpans(piece, offset, length);
      if spans.Err? {
        return Err(spans.error);
      }
      TiledPieceFits(pieces, 0, totalLength, piece);
      var data := ReadSpans(spans.value, pieces[piece].offset + offset, pieces[piece].offset + offset + length);
      return Ok(data);
    }

    method WritePiece(piece: nat, data: Bytes) returns (r: Option<DiskError>)
      requires Valid()
      modifies this
      ensures Valid()
      ensures match old(View()).WritePiece(piece, data)
        case Ok(after) => r == None && View() == after
        case Err(e) => r == Some(e) && View() == old(View())
    {
      if piece >= |pieces| {
        return Some(InvalidPieceIndex(piece));
      }
      if |data| != pieces[piece].length {
        return Some(InvalidPieceIndex(piece));
      }
      var spans := PieceFileSpans(piece);
      TiledPieceFits(pieces, 0, totalLength, piece);
      WriteSpans(spans.value, data, pieces[piece].offset);
      return None;
    }

    method WriteBlock(piece: nat, offset: nat, data: Bytes) returns (r: Option<DiskError>)
      requires Valid()
      modifies this
      ensures Valid()
      ensures match old(View()).WriteBlock(piece, offset, data)
        case Ok(after) => r == None && View() == after
        case Err(e) => r == Some(e) && View() == old(View())
    {
      var length := |data| % U32_RANGE;
      var spans := BlockFileSpans(piece, offset, length);
      if spans.Err? {
        return Some(spans.error);
      }
      TiledPieceFits(pieces, 0, totalLength, piece);
      WriteSpans(spans.value, data[..length], pieces[piece].offset + offset);
      return None;
    }
  }
}
