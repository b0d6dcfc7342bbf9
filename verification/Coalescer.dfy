/**
 Write coalescing: adjacent blocks are joined into maximal regions. The cache does
 it over an offset-ordered map, the disk writer over a list that it sorts first.
 */
module Coalescer {
  import opened Prelude
  import opened Sequences
  import opened Sorting
  import opened OrderedMap

  /** An offset and the bytes stored from it on; blocks and regions alike. */
  type Region = (nat, Bytes)

  /** `start + buf.len() as u32`. */
  function End32(r: Region): nat {
    (r.0 + |r.1| % U32_RANGE) % U32_RANGE
  }

  /** The regions once `done` are complete, `current` is open and `rest` are to come. */
  function Fold(done: seq<Region>, current: Region, rest: seq<Region>): seq<Region>
    decreases rest
  {
    if rest == [] then done + [current]
    else if End32(current) == rest[0].0 then Fold(done, (current.0, current.1 + rest[0].1), rest[1..])
    else Fold(done + [current], rest[0], rest[1..])
  }

  function Coalesce(blocks: seq<Region>): seq<Region> {
    if blocks == [] then [] else Fold([], blocks[0], blocks[1..])
  }

  function ByOffset(): (Region, Region) -> bool {
    (a: Region, b: Region) => a.0 <= b.0
  }

  // ---------------------------------------------------------------- what it means

  ghost function End(r: Region): nat { r.0 + |r.1| }

  ghost predicate Covers(r: Region, pos: nat, v: byte) {
    r.0 <= pos < End(r) && r.1[pos - r.0] == v
  }

  /** Some region places byte `v` at `pos`. */
  ghost predicate Holds(rs: seq<Region>, pos: nat, v: byte) {
    exists r :: r in rs && Covers(r, pos, v)
  }

  ghost predicate NonEmpty(rs: seq<Region>) {
    forall r :: r in rs ==> r.1 != [] && End(r) <= U32_RANGE
  }

  /** Sorted, without overlap. */
  ghost predicate Apart(rs: seq<Region>) {
    forall i, j :: 0 <= i < j < |rs| ==> End(rs[i]) <= rs[j].0
  }

  /** Sorted, and no region ends where another begins. */
  ghost predicate Separated(rs: seq<Region>) {
    forall i, j :: 0 <= i < j < |rs| ==> End(rs[i]) < rs[j].0
  }

  lemma HoldsAppend(a: seq<Region>, b: seq<Region>, pos: nat, v: byte)
    ensures Holds(a + b, pos, v) <==> Holds(a, pos, v) || Holds(b, pos, v)
  {
  }

  lemma HoldsOne(r: Region, pos: nat, v: byte)
    ensures Holds([r], pos, v) <==> Covers(r, pos, v)
  {
  }

  lemma CoversJoined(a: Region, b: Region, pos: nat, v: byte)
    requires End(a) == b.0
    ensures Covers((a.0, a.1 + b.1), pos, v) <==> Covers(a, pos, v) || Covers(b, pos, v)
  {
  }

  /** Joining two adjacent regions moves no byte. */
  lemma JoinHolds(done: seq<Region>, a: Region, b: Region, rest: seq<Region>, pos: nat, v: byte)
    requires End(a) == b.0 && rest != [] && rest[0] == b
    ensures Holds(done + [(a.0, a.1 + b.1)] + rest[1..], pos, v) <==> Holds(done + [a] + rest, pos, v)
  {
    var joined := (a.0, a.1 + b.1);
    CoversJoined(a, b, pos, v);
    assert rest == [b] + rest[1..];
    HoldsOne(a, pos, v);
    HoldsOne(b, pos, v);
    HoldsOne(joined, pos, v);
    HoldsAppend(done, [a], pos, v);
    HoldsAppend(done, [joined], pos, v);
    HoldsAppend(done + [joined], rest[1..], pos, v);
    HoldsAppend(done + [a], rest, pos, v);
    HoldsAppend([b], rest[1..], pos, v);
  }

  /** Without wrap-around the 32-bit end is the end. */
  lemma End32Is(r: Region)
    requires End(r) <= U32_RANGE
    ensures End32(r) == if End(r) == U32_RANGE then 0 else End(r)
  {
  }

  lemma ApartTail(current: Region, rest: seq<Region>)
    requires Apart([current] + rest) && NonEmpty([current] + rest) && rest != []
    ensures Apart(rest) && NonEmpty(rest) && End(current) <= rest[0].0
    ensures End32(current) == rest[0].0 <==> End(current) == rest[0].0
  {
    hide End32;
    var all := [current] + rest;
    assert all[0] == current && all[1] == rest[0];
    assert rest[0] in all && current in all;
    assert forall r :: r in rest ==> r in all;
    End32Is(current);
    forall i, j | 0 <= i < j < |rest| ensures End(rest[i]) <= rest[j].0 {
      assert End(all[i + 1]) <= all[j + 1].0;
    }
  }

  lemma JoinedApart(current: Region, rest: seq<Region>)
    requires Apart(rest) && NonEmpty(rest) && rest != [] && End(current) == rest[0].0
    ensures var joined := [(current.0, current.1 + rest[0].1)] + rest[1..]; Apart(joined) && NonEmpty(joined)
  {
  }

  lemma SeparatedGrows(done: seq<Region>, current: Region, next: Region)
    requires Separated(done + [current]) && End(current) < next.0
    ensures Separated(done + [current] + [next])
  {
    var before, after := done + [current], done + [current] + [next];
    assert before[|done|] == current;
    forall i, j | 0 <= i < j < |after| ensures End(after[i]) < after[j].0 {
      if j == |before| && i < |done| {
        assert End(before[i]) < before[|done|].0;
      }
    }
  }

  lemma {:induction false} FoldIsMaximal(done: seq<Region>, current: Region, rest: seq<Region>)
    requires Separated(done + [current]) && NonEmpty(done) && Apart([current] + rest) && NonEmpty([current] + rest)
    ensures Separated(Fold(done, current, rest)) && forall r :: r in Fold(done, current, rest) ==> r.1 != []
    ensures forall pos, v :: Holds(Fold(done, current, rest), pos, v) <==> Holds(done + [current] + rest, pos, v)
    decreases rest
  {
    hide Holds, Separated, Apart, End32;
    if rest == [] {
      assert current in [current] + rest;
      assert done + [current] + rest == done + [current];
    } else {
      ApartTail(current, rest);
      var b := rest[0];
      if End(current) == b.0 {
        var joined := (current.0, current.1 + b.1);
        JoinedApart(current, rest);
        SeparatedWiden(done, current, joined);
        FoldIsMaximal(done, joined, rest[1..]);
        forall pos, v ensures Holds(done + [joined] + rest[1..], pos, v) <==> Holds(done + [current] + rest, pos, v) {
          JoinHolds(done, current, b, rest, pos, v);
        }
      } else {
        SeparatedGrows(done, current, b);
        assert current in [current] + rest;
        assert rest == [b] + rest[1..];
        assert done + [current] + [b] + rest[1..] == done + [current] + rest;
        FoldIsMaximal(done + [current], b, rest[1..]);
      }
    }
  }

  lemma SeparatedWiden(done: seq<Region>, current: Region, joined: Region)
    requires Separated(done + [current]) && joined.0 == current.0
    ensures Separated(done + [joined])
  {
    forall i, j | 0 <= i < j < |done + [joined]| ensures End((done + [joined])[i]) < (done + [joined])[j].0 {
      assert (done + [current])[i] == (done + [joined])[i];
      assert (done + [current])[j].0 == (done + [joined])[j].0;
    }
  }

  /** Coalescing sorted blocks is lossless and leaves no two regions adjacent. */
  lemma CoalesceIsMaximal(blocks: seq<Region>)
    requires Apart(blocks) && NonEmpty(blocks)
    ensures Separated(Coalesce(blocks)) && forall r :: r in Coalesce(blocks) ==> r.1 != []
    ensures forall pos, v :: Holds(Coalesce(blocks), pos, v) <==> Holds(blocks, pos, v)
  {
    if blocks != [] {
      assert [blocks[0]] + blocks[1..] == blocks;
      assert [] + [blocks[0]] + blocks[1..] == blocks;
      assert Separated([] + [blocks[0]]);
      FoldIsMaximal([], blocks[0], blocks[1..]);
    }
  }

  // ------------------------------------------------------------------- canonicity

  lemma HoldsLater(rs: seq<Region>, pos: nat, v: byte)
    requires Separated(rs) && rs != [] && Holds(rs, pos, v)
    ensures rs[0].0 <= pos
    ensures pos <= End(rs[0]) ==> Covers(rs[0], pos, v)
    ensures pos >= End(rs[0]) ==> Holds(rs[1..], pos, v)
  {
  }

  /** Of two lists that hold the same bytes, neither starts after the other or ends its first region later. */
  lemma FirstRegionWithin(a: seq<Region>, b: seq<Region>)
    requires Separated(a) && Separated(b) && a != [] && b != [] && a[0].1 != [] && b[0].1 != []
    requires forall pos, v :: Holds(a, pos, v) <==> Holds(b, pos, v)
    ensures b[0].0 <= a[0].0 && (a[0].0 == b[0].0 ==> End(a[0]) <= End(b[0]))
  {
    var first := a[0];
    assert first in a && Covers(first, first.0, first.1[0]);
    assert Holds(a, first.0, first.1[0]);
    HoldsLater(b, first.0, first.1[0]);
    if a[0].0 == b[0].0 && End(b[0]) < End(a[0]) {
      var pos := End(b[0]);
      var v := first.1[pos - first.0];
      assert Covers(first, pos, v) && Holds(a, pos, v);
      HoldsLater(b, pos, v);
      assert false;
    }
  }

  /**
   Maximal regions are determined by the bytes they hold: two separated lists with
   the same content are the same list.
   */
  lemma {:induction false} RegionsUnique(a: seq<Region>, b: seq<Region>)
    requires Separated(a) && Separated(b)
    requires (forall r :: r in a ==> r.1 != []) && (forall r :: r in b ==> r.1 != [])
    requires forall pos, v :: Holds(a, pos, v) <==> Holds(b, pos, v)
    ensures a == b
  {
    if a == [] || b == [] {
      var rs := if a == [] then b else a;
      if rs != [] {
        assert rs[0] in rs && Covers(rs[0], rs[0].0, rs[0].1[0]);
        assert Holds(rs, rs[0].0, rs[0].1[0]);
        assert false;
      }
    } else {
      FirstRegionWithin(a, b);
      FirstRegionWithin(b, a);
      var n := |a[0].1|;
      forall k | 0 <= k < n ensures a[0].1[k] == b[0].1[k] {
        var pos, v := a[0].0 + k, a[0].1[k];
        assert a[0] in a && Covers(a[0], pos, v);
        assert Holds(a, pos, v);
        HoldsLater(b, pos, v);
      }
      assert a[0].1 == b[0].1;
      assert a[0] == b[0];
      forall pos, v ensures Holds(a[1..], pos, v) <==> Holds(b[1..], pos, v) {
        TailHolds(a, pos, v);
        TailHolds(b, pos, v);
      }
      RegionsUnique(a[1..], b[1..]);
    }
  }

  lemma TailHolds(rs: seq<Region>, pos: nat, v: byte)
    requires Separated(rs) && rs != []
    ensures Separated(rs[1..]) && (Holds(rs[1..], pos, v) <==> Holds(rs, pos, v) && pos >= End(rs[0]))
  {
  }

  // ------------------------------------------------------- the two implementations

  /** Non-empty blocks in the 32-bit range, no two of which overlap. */
  ghost predicate ValidBlocks(blocks: seq<Region>) {
    && NonEmpty(blocks)
    && forall i, j :: 0 <= i < j < |blocks| ==> End(blocks[i]) <= blocks[j].0 || End(blocks[j]) <= blocks[i].0
  }

  lemma OrderedBlocksApart(blocks: seq<Region>, a: Region, b: Region)
    requires ValidBlocks(blocks) && a in blocks && b in blocks && a != b && a.0 <= b.0
    ensures End(a) <= b.0 && a.0 < b.0
  {
  }

  lemma SortedBlocksApart(blocks: seq<Region>)
    requires ValidBlocks(blocks)
    ensures var s := SortBy(blocks, ByOffset()); Apart(s) && NonEmpty(s) && StrictlySorted(s)
    ensures forall r :: r in SortBy(blocks, ByOffset()) <==> r in blocks
  {
    hide SortBy;
    var s := SortBy(blocks, ByOffset());
    SortByMembers(blocks, ByOffset());
    SortByMultiset(blocks, ByOffset());
    SortByOrdered(blocks, ByOffset());
    assert NoDup(blocks) by {
      forall i, j | 0 <= i < j < |blocks| ensures blocks[i] != blocks[j] {
        assert blocks[i] in blocks && blocks[j] in blocks;
      }
    }
    NoDupPermuted(blocks, s);
    forall i, j | 0 <= i < j < |s| ensures End(s[i]) <= s[j].0 && s[i].0 < s[j].0 {
      assert s[i] in s && s[j] in s && s[i] != s[j];
      assert ByOffset()(s[i], s[j]);
      OrderedBlocksApart(blocks, s[i], s[j]);
    }
  }

  /** The disk writer's version, which takes the blocks in any order. */
  method CoalesceBlocks(blocks: seq<Region>) returns (regions: seq<Region>)
    ensures regions == Coalesce(SortBy(blocks, ByOffset()))
  {
    regions := CoalesceSorted(SortBy(blocks, ByOffset()));
  }

  /** The block cache's version, over the ordered map of a piece. */
  method CoalescePiece(blocks: map<nat, Bytes>) returns (regions: seq<Region>)
    ensures regions == Coalesce(Entries(blocks))
  {
    regions := CoalesceSorted(Entries(blocks));
  }

  /** The loop both versions run. */
  method CoalesceSorted(sorted: seq<Region>) returns (regions: seq<Region>)
    ensures regions == Coalesce(sorted)
  {
    regions := [];
    var current: Option<Region> := None;
    for i := 0 to |sorted|
      invariant i == 0 <==> current.None?
      invariant i == 0 ==> regions == []
      invariant i > 0 ==> Fold(regions, current.value, sorted[i..]) == Coalesce(sorted)
    {
      var block := sorted[i];
      assert i > 0 ==> sorted[i..][0] == block && sorted[i..][1..] == sorted[i + 1..];
      if current.Some? && End32(current.value) == block.0 {
        current := Some((current.value.0, current.value.1 + block.1));
      } else {
        if current.Some? {
          regions := regions + [current.value];
        }
        current := Some(block);
      }
    }
    if current.Some? {
      regions := regions + [current.value];
    }
  }

  /**
   For blocks in any order without overlap: the regions hold exactly the bytes of the
   blocks, and are sorted and maximal.
   */
  lemma BlocksCoalesceMaximally(blocks: seq<Region>)
    requires ValidBlocks(blocks)
    ensures var rs := Coalesce(SortBy(blocks, ByOffset()));
      && Separated(rs) && (forall r :: r in rs ==> r.1 != [])
      && forall pos, v :: Holds(rs, pos, v) <==> Holds(blocks, pos, v)
  {
    SortedBlocksApart(blocks);
    var s := SortBy(blocks, ByOffset());
    CoalesceIsMaximal(s);
    forall pos, v ensures Holds(s, pos, v) <==> Holds(blocks, pos, v) {
    }
  }

  /** Both versions give the same regions for the same blocks. */
  lemma VersionsAgree(blocks: seq<Region>, piece: map<nat, Bytes>)
    requires ValidBlocks(blocks) && forall b :: b in blocks <==> b.0 in piece && piece[b.0] == b.1
    ensures Coalesce(SortBy(blocks, ByOffset())) == Coalesce(Entries(piece))
  {
    SortedBlocksApart(blocks);
    EntriesSorted(piece);
    EntriesAre(piece);
    SortedUnique(SortBy(blocks, ByOffset()), Entries(piece));
  }

  /** However blocks are cut, the same bytes are written in the same regions. */
  lemma RegionsIgnoreBlockSizes(blocks: seq<Region>, others: seq<Region>)
    requires ValidBlocks(blocks) && ValidBlocks(others)
    requires forall pos, v :: Holds(blocks, pos, v) <==> Holds(others, pos, v)
    ensures Coalesce(SortBy(blocks, ByOffset())) == Coalesce(SortBy(others, ByOffset()))
  {
    BlocksCoalesceMaximally(blocks);
    BlocksCoalesceMaximally(others);
    RegionsUnique(Coalesce(SortBy(blocks, ByOffset())), Coalesce(SortBy(others, ByOffset())));
  }
}
