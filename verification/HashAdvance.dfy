/**
 When the loop that advances the hash of a piece stops. The block cache takes any
 block, so its map may hold empty ones and ones that reach past the 32-bit offsets.
 */
module HashAdvance {
  import opened Prelude
  import opened BlockStream

  /** Where the loop stands after `n` rounds, in the wrapping arithmetic of its 32-bit offset. */
  function Position(blocks: map<nat, Bytes>, from: nat, n: nat): nat {
    if n == 0 then from
    else
      var at := Position(blocks, from, n - 1);
      if at in blocks then (at + |blocks[at]|) % U32_RANGE else at
  }

  /** The loop reaches an offset that has no block. */
  ghost predicate Stops(blocks: map<nat, Bytes>, from: nat) {
    exists n: nat :: Position(blocks, from, n) !in blocks
  }

  /** No two rounds start at the same block. */
  ghost predicate NeverReturns(blocks: map<nat, Bytes>, from: nat) {
    forall i: nat, j: nat :: i < j && Position(blocks, from, i) in blocks && Position(blocks, from, j) in blocks
      ==> Position(blocks, from, i) != Position(blocks, from, j)
  }

  /** Where the loop has stopped, it stays. */
  lemma {:induction false} StaysStopped(blocks: map<nat, Bytes>, from: nat, n: nat, m: nat)
    requires n <= m
    ensures Position(blocks, from, n) in blocks || Position(blocks, from, m) == Position(blocks, from, n)
  {
    if n < m {
      StaysStopped(blocks, from, n, m - 1);
    }
  }

  /** Once back at an offset, the loop repeats itself for ever. */
  lemma {:induction false} Returns(blocks: map<nat, Bytes>, from: nat, i: nat, j: nat, m: nat)
    requires i < j && Position(blocks, from, i) == Position(blocks, from, j) && Position(blocks, from, j) in blocks
    ensures Position(blocks, from, m) in blocks
    ensures j <= m ==> Position(blocks, from, m) == Position(blocks, from, m - (j - i))
  {
    if m < j {
      StaysStopped(blocks, from, m, j);
    } else if m > j {
      Returns(blocks, from, i, j, m - 1);
      Returns(blocks, from, i, j, m - (j - i));
    }
  }

  ghost function Visited(blocks: map<nat, Bytes>, from: nat, n: nat): set<nat> {
    set k: nat | k < n :: Position(blocks, from, k)
  }

  ghost predicate InBlocks(blocks: map<nat, Bytes>, from: nat, n: nat) {
    forall k: nat :: k < n ==> Position(blocks, from, k) in blocks
  }

  lemma {:induction false} VisitedCount(blocks: map<nat, Bytes>, from: nat, n: nat)
    requires NeverReturns(blocks, from) && InBlocks(blocks, from, n)
    ensures |Visited(blocks, from, n)| == n && Visited(blocks, from, n) <= blocks.Keys
  {
    if n > 0 {
      VisitedCount(blocks, from, n - 1);
      NotVisited(blocks, from, n - 1);
      hide Position, NeverReturns;
      assert Visited(blocks, from, n) == Visited(blocks, from, n - 1) + {Position(blocks, from, n - 1)};
    }
  }

  lemma NotVisited(blocks: map<nat, Bytes>, from: nat, n: nat)
    requires NeverReturns(blocks, from) && InBlocks(blocks, from, n + 1)
    ensures Position(blocks, from, n) !in Visited(blocks, from, n)
  {
    hide Position;
    assert Position(blocks, from, n) in blocks;
    forall k: nat | k < n
      ensures Position(blocks, from, k) != Position(blocks, from, n)
    {
      assert Position(blocks, from, k) in blocks;
    }
  }

  /** The exact condition, over all blocks: the loop stops unless it comes back to a block. */
  lemma StopsIffNeverReturns(blocks: map<nat, Bytes>, from: nat)
    ensures Stops(blocks, from) <==> NeverReturns(blocks, from)
  {
    if Stops(blocks, from) {
      var n: nat :| Position(blocks, from, n) !in blocks;
      forall i: nat, j: nat | i < j && Position(blocks, from, i) in blocks && Position(blocks, from, j) in blocks
        ensures Position(blocks, from, i) != Position(blocks, from, j)
      {
        if Position(blocks, from, i) == Position(blocks, from, j) {
          Returns(blocks, from, i, j, n);
        }
      }
    } else if NeverReturns(blocks, from) {
      var n := |blocks| + 1;
      VisitedCount(blocks, from, n);
      CardSubset(Visited(blocks, from, n), blocks.Keys);
    }
  }

  lemma CardSubset<T>(a: set<T>, b: set<T>)
    requires a <= b
    ensures |a| <= |b|
  {
    assert b == a + (b - a) && |b| == |a| + |b - a|;
  }

  /** Every block ends within the range of the offsets. */
  ghost predicate NoneWraps(blocks: map<nat, Bytes>) {
    forall o :: o in blocks ==> o + |blocks[o]| < U32_RANGE
  }

  lemma {:induction false} Advances(blocks: map<nat, Bytes>, from: nat, i: nat, j: nat)
    requires NoneWraps(blocks) && i < j && Position(blocks, from, j) in blocks
    requires forall n: nat :: Position(blocks, from, n) in blocks ==> |blocks[Position(blocks, from, n)]| > 0
    ensures Position(blocks, from, i) < Position(blocks, from, j)
  {
    StaysStopped(blocks, from, j - 1, j);
    if i < j - 1 {
      Advances(blocks, from, i, j - 1);
    }
  }

  /** Where no offset wraps, the loop stops if and only if it comes to no empty block. */
  lemma StopsIffNoneEmpty(blocks: map<nat, Bytes>, from: nat)
    requires NoneWraps(blocks)
    ensures Stops(blocks, from)
      <==> forall n: nat :: Position(blocks, from, n) in blocks ==> |blocks[Position(blocks, from, n)]| > 0
  {
    StopsIffNeverReturns(blocks, from);
    if n: nat :| Position(blocks, from, n) in blocks && |blocks[Position(blocks, from, n)]| == 0 {
      assert Position(blocks, from, n + 1) == Position(blocks, from, n);
    } else {
      forall i: nat, j: nat | i < j && Position(blocks, from, i) in blocks && Position(blocks, from, j) in blocks
        ensures Position(blocks, from, i) != Position(blocks, from, j)
      {
        Advances(blocks, from, i, j);
      }
    }
  }

  /** An empty block that arrives where the hash stands, among any others, is never passed. */
  lemma EmptyBlockLoops(blocks: map<nat, Bytes>, at: nat)
    requires at < U32_RANGE
    ensures !Stops(blocks[at := []], at)
  {
    var more := blocks[at := []];
    assert Position(more, at, 0) == Position(more, at, 1) == at;
    StopsIffNeverReturns(more, at);
  }

  lemma {:induction false} ReachesEnd(blocks: map<nat, Bytes>, from: nat, n: nat)
    requires ValidBlocks(blocks)
    ensures var at := Position(blocks, from, n);
      exists m: nat :: Position(blocks, from, m) == at + |Contiguous(blocks, at)|
    decreases U32_RANGE - Position(blocks, from, n)
  {
    var at: nat := Position(blocks, from, n);
    if at in blocks {
      assert Position(blocks, from, n + 1) == at + |blocks[at]|;
      ReachesEnd(blocks, from, n + 1);
    } else {
      assert Position(blocks, from, n) == at + |Contiguous(blocks, at)|;
    }
  }

  /** On the blocks the cache is meant for, the loop stops at the end of the contiguous bytes. */
  lemma ValidBlocksStop(blocks: map<nat, Bytes>, from: nat)
    requires ValidBlocks(blocks)
    ensures Stops(blocks, from)
    ensures var end := from + |Contiguous(blocks, from)|;
      end !in blocks && exists n: nat :: Position(blocks, from, n) == end
  {
    ReachesEnd(blocks, from, 0);
    ContiguousStops(blocks, from);
  }
}
