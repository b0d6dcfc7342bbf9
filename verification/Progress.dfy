/** How much of each file of a torrent has been downloaded. */
module Progress {
  import opened Prelude
  import opened Arithmetic
  import opened StorageLayout

  datatype TorrentFileInfo = TorrentFileInfo(size: nat, progress: real, downloaded: nat)

  /** The size of a piece. Past the last piece it answers as for the last. */
  function PieceSize(index: nat, totalLength: nat, pieceLength: nat): nat
    requires pieceLength > 0
  {
    var count := PieceCount(totalLength, pieceLength);
    if count == 0 then 0
    else if index < count - 1 then pieceLength
    else if totalLength % pieceLength == 0 then pieceLength
    else totalLength % pieceLength
  }

  /** The engine and the disk agree on the size of every piece. */
  lemma PieceSizeAgrees(index: nat, totalLength: nat, pieceLength: nat)
    requires pieceLength > 0 && index < PieceCount(totalLength, pieceLength)
    ensures PieceSize(index, totalLength, pieceLength) == BuildPiece(index, totalLength, pieceLength).length
  {
  }

  lemma PieceOffset(k: nat, totalLength: nat, pieceLength: nat)
    requires pieceLength > 0
    ensures BuildPiece(k, totalLength, pieceLength).offset == k * pieceLength
  {
  }

  // ------------------------------------------------------------ counting owned bytes

  predicate InOwnedPiece(pos: nat, pieceLength: nat, have: set<nat>)
    requires pieceLength > 0
  {
    pos / pieceLength in have
  }

  /** The number of positions in [lo, hi) that lie in a piece of `have`. */
  ghost function Owned(lo: nat, hi: nat, pieceLength: nat, have: set<nat>): nat
    requires pieceLength > 0
    decreases hi
  {
    if lo >= hi then 0
    else Owned(lo, hi - 1, pieceLength, have) + if InOwnedPiece(hi - 1, pieceLength, have) then 1 else 0
  }

  ghost function OwnedPositions(lo: nat, hi: nat, pieceLength: nat, have: set<nat>): set<nat>
    requires pieceLength > 0
  {
    set pos | lo <= pos < hi && InOwnedPiece(pos, pieceLength, have)
  }

  lemma {:induction false} OwnedCounts(lo: nat, hi: nat, pieceLength: nat, have: set<nat>)
    requires pieceLength > 0
    ensures Owned(lo, hi, pieceLength, have) == |OwnedPositions(lo, hi, pieceLength, have)|
    decreases hi
  {
    hide InOwnedPiece;
    if lo < hi {
      var all, but := OwnedPositions(lo, hi, pieceLength, have), OwnedPositions(lo, hi - 1, pieceLength, have);
      OwnedCounts(lo, hi - 1, pieceLength, have);
      if InOwnedPiece(hi - 1, pieceLength, have) {
        assert all == but + {hi - 1};
      } else {
        assert all == but;
      }
    }
  }

  lemma {:induction false} OwnedSplit(lo: nat, mid: nat, hi: nat, pieceLength: nat, have: set<nat>)
    requires pieceLength > 0 && lo <= mid <= hi
    ensures Owned(lo, hi, pieceLength, have) == Owned(lo, mid, pieceLength, have) + Owned(mid, hi, pieceLength, have)
    decreases hi
  {
    if mid < hi {
      OwnedSplit(lo, mid, hi - 1, pieceLength, have);
    }
  }

  /** Within one piece, all positions are owned or none is. */
  lemma {:induction false} OwnedInPiece(lo: nat, hi: nat, k: nat, pieceLength: nat, have: set<nat>)
    requires pieceLength > 0 && k * pieceLength <= lo <= hi <= k * pieceLength + pieceLength
    ensures Owned(lo, hi, pieceLength, have) == if k in have then hi - lo else 0
    decreases hi
  {
    if lo < hi {
      DivIs(hi - 1, pieceLength, k, hi - 1 - k * pieceLength);
      OwnedInPiece(lo, hi - 1, k, pieceLength, have);
    }
  }

  // ------------------------------------------------------------- one file, all files

  /** The part of the file [start, end) before piece `k` ends here. */
  ghost function Reached(start: nat, end: nat, k: nat, pieceLength: nat): nat
    requires start <= end
  {
    Max(start, Min(k * pieceLength, end))
  }

  /** One pass of the loop over pieces accounts for the file's bytes in piece `k`. */
  lemma PieceAccounts(start: nat, end: nat, k: nat, totalLength: nat, pieceLength: nat, have: set<nat>)
    requires pieceLength > 0 && start <= end <= totalLength && k * pieceLength < end && start < (k + 1) * pieceLength
    requires k in have ==> k < PieceCount(totalLength, pieceLength)
    ensures Owned(start, Reached(start, end, k + 1, pieceLength), pieceLength, have)
      == Owned(start, Reached(start, end, k, pieceLength), pieceLength, have)
         + var pieceEnd := k * pieceLength + PieceSize(k, totalLength, pieceLength);
           if k in have then Max(0, Min(pieceEnd, end) - Max(k * pieceLength, start)) else 0
  {
    hide PieceCount, PieceSize, BuildPiece, Owned;
    var lo, hi := Reached(start, end, k, pieceLength), Reached(start, end, k + 1, pieceLength);
    assert (k + 1) * pieceLength == k * pieceLength + pieceLength;
    OwnedSplit(start, lo, hi, pieceLength, have);
    OwnedInPiece(lo, hi, k, pieceLength, have);
    if k in have {
      PieceEnd(k, totalLength, pieceLength);
      PieceSizeAgrees(k, totalLength, pieceLength);
      PieceOffset(k, totalLength, pieceLength);
    }
  }

  /** The bytes of one file, [start, end), that lie in owned pieces. */
  method Downloaded(start: nat, end: nat, totalLength: nat, pieceLength: nat, have: set<nat>) returns (downloaded: nat)
    requires pieceLength > 0 && start <= end <= totalLength
    requires forall p :: p in have ==> p < PieceCount(totalLength, pieceLength)
    ensures downloaded == |OwnedPositions(start, end, pieceLength, have)|
  {
    hide PieceSize, PieceCount, Owned, OwnedPositions, Reached;
    var firstPiece := start / pieceLength;
    var lastPiece := if start == end then firstPiece else (end - 1) / pieceLength;
    downloaded := 0;
    FileSpan(start, end, pieceLength, have);
    for k := firstPiece to lastPiece + 1
      invariant downloaded == Owned(start, Reached(start, end, k, pieceLength), pieceLength, have)
    {
      if start < end {
        WithinSpan(start, end, k, pieceLength);
      } else {
        EmptyFile(start, k, pieceLength, have);
        EmptyFile(start, k + 1, pieceLength, have);
      }
      if k in have {
        var pieceStart := k * pieceLength;
        var pieceEnd := pieceStart + PieceSize(k, totalLength, pieceLength);
        var overlapStart, overlapEnd := Max(pieceStart, start), Min(pieceEnd, end);
        if overlapEnd > overlapStart {
          downloaded := downloaded + (overlapEnd - overlapStart);
        }
      }
      if start < end {
        PieceAccounts(start, end, k, totalLength, pieceLength, have);
      }
    }
    OwnedCounts(start, end, pieceLength, have);
  }

  /** The pieces from the first to the last of a file cover it. */
  lemma FileSpan(start: nat, end: nat, pieceLength: nat, have: set<nat>)
    requires pieceLength > 0 && start <= end
    ensures var first := start / pieceLength;
      var last := if start == end then first else (end - 1) / pieceLength;
      && first <= last && first * pieceLength <= start < (first + 1) * pieceLength && end <= (last + 1) * pieceLength
      && Owned(start, Reached(start, end, first, pieceLength), pieceLength, have) == 0
      && Reached(start, end, last + 1, pieceLength) == end
  {
  }

  /** The loop over pieces stays between the file's first and last piece. */
  lemma WithinSpan(start: nat, end: nat, k: nat, pieceLength: nat)
    requires pieceLength > 0 && start < end && start / pieceLength <= k <= (end - 1) / pieceLength
    ensures k * pieceLength < end && start < (k + 1) * pieceLength
  {
    var first, last := start / pieceLength, (end - 1) / pieceLength;
    assert start == first * pieceLength + start % pieceLength;
    assert (first + 1) * pieceLength == first * pieceLength + pieceLength;
    assert end - 1 == last * pieceLength + (end - 1) % pieceLength;
    MulMonotone(first + 1, k + 1, pieceLength);
    MulMonotone(k, last, pieceLength);
  }

  lemma EmptyFile(start: nat, k: nat, pieceLength: nat, have: set<nat>)
    requires pieceLength > 0
    ensures Owned(start, Reached(start, start, k, pieceLength), pieceLength, have) == 0
  {
  }

  function Start(lengths: seq<nat>, i: nat): nat
    requires i <= |lengths|
  {
    SumLengths(lengths[..i])
  }

  lemma {:induction false} StartStep(lengths: seq<nat>, i: nat)
    requires i < |lengths|
    ensures Start(lengths, i + 1) == Start(lengths, i) + lengths[i] <= SumLengths(lengths)
  {
    if i == 0 {
      assert lengths[..1] == [lengths[0]] && lengths[..1][1..] == [];
    } else {
      StartStep(lengths[1..], i - 1);
      assert lengths[..i + 1][1..] == lengths[1..][..i] && lengths[..i][1..] == lengths[1..][..i - 1];
    }
  }

  /** Each file is reported with the number of its bytes that lie in owned pieces. */
  ghost predicate FilesReported(lengths: seq<nat>, pieceLength: nat, have: set<nat>, r: seq<TorrentFileInfo>)
    requires pieceLength > 0
  {
    |r| == |lengths| && forall i :: 0 <= i < |r| ==>
      && r[i].size == lengths[i]
      && r[i].downloaded == |OwnedPositions(Start(lengths, i), Start(lengths, i + 1), pieceLength, have)|
      && r[i].progress == if lengths[i] > 0 then r[i].downloaded as real / lengths[i] as real * 100.0 else 100.0
  }

  method GetTorrentFiles(lengths: seq<nat>, pieceLength: nat, have: set<nat>) returns (r: seq<TorrentFileInfo>)
    requires pieceLength > 0 && forall p :: p in have ==> p < PieceCount(SumLengths(lengths), pieceLength)
    ensures FilesReported(lengths, pieceLength, have, r)
  {
    hide OwnedPositions, PieceCount, Start;
    var totalLength := SumLengths(lengths);
    var fileOffset := 0;
    r := [];
    StartAt0(lengths);
    for i := 0 to |lengths|
      invariant fileOffset == Start(lengths, i) && |r| == i
      invariant forall j :: 0 <= j < i ==>
        && r[j].size == lengths[j]
        && r[j].downloaded == |OwnedPositions(Start(lengths, j), Start(lengths, j + 1), pieceLength, have)|
        && r[j].progress == if lengths[j] > 0 then r[j].downloaded as real / lengths[j] as real * 100.0 else 100.0
    {
      StartStep(lengths, i);
      var startOffset := fileOffset;
      var endOffset := startOffset + lengths[i];
      fileOffset := endOffset;
      var downloaded := Downloaded(startOffset, endOffset, totalLength, pieceLength, have);
      var progress := if lengths[i] > 0 then downloaded as real / lengths[i] as real * 100.0 else 100.0;
      r := r + [TorrentFileInfo(lengths[i], progress, downloaded)];
    }
  }

  lemma StartAt0(lengths: seq<nat>)
    ensures Start(lengths, 0) == 0
  {
  }

  // ------------------------------------------------------------------ conservation

  function TotalDownloaded(r: seq<TorrentFileInfo>): nat {
    if r == [] then 0 else TotalDownloaded(r[..|r| - 1]) + r[|r| - 1].downloaded
  }

  /** The sizes of the owned pieces below `n`, added up. */
  function OwnedSize(n: nat, totalLength: nat, pieceLength: nat, have: set<nat>): nat
    requires pieceLength > 0
  {
    if n == 0 then 0
    else
      var below := OwnedSize(n - 1, totalLength, pieceLength, have);
      if n - 1 in have then below + PieceSize(n - 1, totalLength, pieceLength) else below
  }

  lemma {:induction false} FilesAddUp(lengths: seq<nat>, pieceLength: nat, have: set<nat>, r: seq<TorrentFileInfo>,
                                      n: nat)
    requires pieceLength > 0 && FilesReported(lengths, pieceLength, have, r) && n <= |r|
    ensures TotalDownloaded(r[..n]) == Owned(0, Start(lengths, n), pieceLength, have)
  {
    hide OwnedPositions;
    if n > 0 {
      FilesAddUp(lengths, pieceLength, have, r, n - 1);
      StartStep(lengths, n - 1);
      assert r[..n][..n - 1] == r[..n - 1];
      OwnedCounts(Start(lengths, n - 1), Start(lengths, n), pieceLength, have);
      OwnedSplit(0, Start(lengths, n - 1), Start(lengths, n), pieceLength, have);
    }
  }

  lemma {:induction false} PiecesAddUp(n: nat, totalLength: nat, pieceLength: nat, have: set<nat>)
    requires pieceLength > 0 && n <= PieceCount(totalLength, pieceLength)
    ensures OwnedSize(n, totalLength, pieceLength, have)
      == Owned(0, Min(n * pieceLength, totalLength), pieceLength, have)
  {
    hide PieceCount, PieceSize, BuildPiece;
    if n > 0 {
      var k := n - 1;
      PiecesAddUp(k, totalLength, pieceLength, have);
      PieceStart(k, totalLength, pieceLength);
      PieceEnd(k, totalLength, pieceLength);
      PieceSizeAgrees(k, totalLength, pieceLength);
      PieceOffset(k, totalLength, pieceLength);
      assert n * pieceLength == k * pieceLength + pieceLength;
      var end := Min(n * pieceLength, totalLength);
      OwnedSplit(0, k * pieceLength, end, pieceLength, have);
      OwnedInPiece(k * pieceLength, end, k, pieceLength, have);
    }
  }

  /** The files' counts add up to the sizes of the owned pieces, for every layout. */
  lemma ProgressConserved(lengths: seq<nat>, pieceLength: nat, have: set<nat>, r: seq<TorrentFileInfo>)
    requires pieceLength > 0 && FilesReported(lengths, pieceLength, have, r)
    ensures var total := SumLengths(lengths);
      TotalDownloaded(r) == OwnedSize(PieceCount(total, pieceLength), total, pieceLength, have)
  {
    hide PieceCount, FilesReported;
    var total := SumLengths(lengths);
    var n := PieceCount(total, pieceLength);
    assert |r| == |lengths| by { SameLength(lengths, pieceLength, have, r); }
    FilesAddUp(lengths, pieceLength, have, r, |r|);
    assert r[..|r|] == r && lengths[..|r|] == lengths;
    PiecesAddUp(n, total, pieceLength, have);
    PieceStart(n, total, pieceLength);
  }

  lemma SameLength(lengths: seq<nat>, pieceLength: nat, have: set<nat>, r: seq<TorrentFileInfo>)
    requires pieceLength > 0 && FilesReported(lengths, pieceLength, have, r)
    ensures |r| == |lengths|
  {
  }

  /** A file shows 100 percent exactly when every byte of it lies in an owned piece. */
  lemma FullProgressIff(lengths: seq<nat>, pieceLength: nat, have: set<nat>, r: seq<TorrentFileInfo>, i: nat)
    requires pieceLength > 0 && FilesReported(lengths, pieceLength, have, r) && i < |r|
    ensures r[i].downloaded <= r[i].size
    ensures r[i].progress == 100.0
      <==> forall pos :: Start(lengths, i) <= pos < Start(lengths, i + 1) ==> InOwnedPiece(pos, pieceLength, have)
  {
    StartStep(lengths, i);
    OwnedCounts(Start(lengths, i), Start(lengths, i + 1), pieceLength, have);
    OwnedAll(Start(lengths, i), Start(lengths, i + 1), pieceLength, have);
    if lengths[i] > 0 {
      Percent(r[i].downloaded, lengths[i]);
    }
  }

  lemma {:induction false} OwnedAll(lo: nat, hi: nat, pieceLength: nat, have: set<nat>)
    requires pieceLength > 0 && lo <= hi
    ensures Owned(lo, hi, pieceLength, have) <= hi - lo
    ensures Owned(lo, hi, pieceLength, have) == hi - lo
      <==> forall pos :: lo <= pos < hi ==> InOwnedPiece(pos, pieceLength, have)
    decreases hi
  {
    hide InOwnedPiece;
    if lo < hi {
      OwnedAll(lo, hi - 1, pieceLength, have);
    }
  }

  lemma Percent(part: nat, whole: nat)
    requires whole > 0
    ensures part as real / whole as real * 100.0 == 100.0 <==> part == whole
  {
  }
}
