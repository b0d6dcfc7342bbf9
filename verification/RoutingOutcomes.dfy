/**
 What the operations on a bucket come to, case by case: eight live nodes, eight spares,
 fifteen minutes to count as good, an hour or three failures to be dropped.
 */
module RoutingOutcomes {
  import opened NodeId
  import opened Routing

  ghost predicate Lacks(nodes: seq<Node>, id: NodeId) {
    forall n :: n in nodes ==> n.id != id
  }

  lemma PositionIs(before: seq<Node>, n: Node, after: seq<Node>)
    requires Lacks(before, n.id)
    ensures Position(before + [n] + after, n.id) == |before|
  {
    var all := before + [n] + after;
    assert all[|before|] == n;
    assert forall i :: 0 <= i < |before| ==> all[i] in before;
  }

  lemma PositionNone(nodes: seq<Node>, id: NodeId)
    requires Lacks(nodes, id)
    ensures Position(nodes, id) == |nodes|
  {
  }

  /** A known node moves to the back, seen just now and with no failures; its address stays. */
  lemma AddRefreshes(before: seq<Node>, known: Node, after: seq<Node>, spare: seq<Node>, node: Node, now: int)
    requires known.id == node.id && Lacks(before, node.id)
    ensures AddTo(BucketState(before + [known] + after, spare), node, now) ==
      (BucketState(before + after + [Node(known.id, known.addr, now, 0)], spare), true)
  {
    PositionIs(before, known, after);
    var all := before + [known] + after;
    assert all[..|before|] == before && all[|before| + 1..] == after;
  }

  /** A new node joins eight live ones or fewer, else eight spares or fewer, else is dropped. */
  lemma AddNewcomer(b: BucketState, node: Node, now: int)
    requires Lacks(b.nodes, node.id)
    ensures AddTo(b, node, now) ==
      if |b.nodes| < 8 then (BucketState(b.nodes + [node], b.spare), true)
      else if |b.spare| < 8 then (BucketState(b.nodes, b.spare + [node]), false)
      else (b, false)
  {
    PositionNone(b.nodes, node.id);
  }

  /** A removed node gives its place, at the back, to the first spare. */
  lemma RemovePromotes(before: seq<Node>, gone: Node, after: seq<Node>, spare: seq<Node>)
    requires Lacks(before, gone.id)
    ensures RemoveFrom(BucketState(before + [gone] + after, spare), gone.id) ==
      if spare == [] then BucketState(before + after, []) else BucketState(before + after + [spare[0]], spare[1..])
  {
    PositionIs(before, gone, after);
    var all := before + [gone] + after;
    assert all[..|before|] == before && all[|before| + 1..] == after;
  }

  /** A failure drops the node at its third in a row, or when it was last seen over an hour ago. */
  lemma FailCounts(before: seq<Node>, n: Node, after: seq<Node>, spare: seq<Node>, now: int)
    requires Lacks(before, n.id)
    ensures var b := BucketState(before + [n] + after, spare);
      FailIn(b, n.id, now) ==
        if n.failedQueries >= 2 || now - n.lastSeen >= 3601 * 1_000_000_000 then RemoveFrom(b, n.id)
        else BucketState(before + [n.(failedQueries := n.failedQueries + 1)] + after, spare)
  {
    PositionIs(before, n, after);
    var failed := n.(failedQueries := n.failedQueries + 1);
    var all, all' := before + [n] + after, before + [failed] + after;
    assert all[|before| := failed] == all';
    RemovePromotes(before, n, after, spare);
    RemovePromotes(before, failed, after, spare);
    BadIs(failed, now);
    hide Position;
  }

  /** A node that was heard from is refreshed where it stands. */
  lemma SeenRefreshes(before: seq<Node>, n: Node, after: seq<Node>, spare: seq<Node>, now: int)
    requires Lacks(before, n.id)
    ensures SeenIn(BucketState(before + [n] + after, spare), n.id, now) ==
      BucketState(before + [n.(lastSeen := now, failedQueries := 0)] + after, spare)
  {
    PositionIs(before, n, after);
    var all := before + [n] + after;
    assert all[|before| := n.Touch(now)] == before + [n.Touch(now)] + after;
  }

  /** On a node the bucket does not have, nothing happens. */
  lemma UnknownIsIgnored(b: BucketState, id: NodeId, now: int)
    requires Lacks(b.nodes, id)
    ensures RemoveFrom(b, id) == b && FailIn(b, id, now) == b && SeenIn(b, id, now) == b
  {
    PositionNone(b.nodes, id);
  }

  lemma BadIs(n: Node, now: int)
    ensures n.IsBad(now) <==> n.failedQueries >= 3 || now - n.lastSeen >= 3601 * 1_000_000_000
    ensures n.IsGood(now) <==> n.failedQueries == 0 && now - n.lastSeen < 900 * 1_000_000_000
  {
  }

  /** Only the bucket of the common prefix changes, and our own id is never added. */
  lemma StepTouchesOneBucket(t: Table, op: Routing.Op)
    requires |t.buckets| == 160
    ensures var id := if op.AddNode? then op.node.id else op.id;
      var t', i := Step(t, op), BucketIndex(t.us, id);
      && t'.us == t.us && |t'.buckets| == 160
      && (forall j :: 0 <= j < 160 && j != i ==> t'.buckets[j] == t.buckets[j])
      && (op.AddNode? && id == t.us ==> t' == t)
      && (op.AddNode? && id != t.us ==> t'.buckets[i] == AddTo(t.buckets[i], op.node, op.now).0)
      && (op.RemoveNode? ==> t'.buckets[i] == RemoveFrom(t.buckets[i], id))
      && (op.MarkFailed? ==> t'.buckets[i] == FailIn(t.buckets[i], id, op.now))
      && (op.MarkSeen? ==> t'.buckets[i] == SeenIn(t.buckets[i], id, op.now))
  {
    hide BucketIndex, AddTo, RemoveFrom, FailIn, SeenIn;
  }

  // -------------------------------------------------------------------- nearness

  /** The first byte in which two strings differ decides. */
  ghost predicate FirstSmaller(a: seq<bv8>, b: seq<bv8>, i: nat) {
    i < |a| && i < |b| && a[i] < b[i] && forall j :: 0 <= j < i ==> a[j] == b[j]
  }

  lemma {:induction false} CloserIs(a: seq<bv8>, b: seq<bv8>)
    ensures Closer(a, b) <==> exists i: nat :: FirstSmaller(a, b, i)
  {
    if a != [] && b != [] {
      CloserIs(a[1..], b[1..]);
      hide Closer;
      if a[0] < b[0] {
        assert FirstSmaller(a, b, 0);
      } else if a[0] == b[0] {
        if i: nat :| FirstSmaller(a[1..], b[1..], i) {
          LaterSmaller(a, b, i);
        }
        if i: nat :| FirstSmaller(a, b, i) {
          assert FirstSmaller(a[1..], b[1..], i - 1);
        }
      }
      CloserStep(a, b);
    }
  }

  lemma CloserStep(a: seq<bv8>, b: seq<bv8>)
    requires a != [] && b != []
    ensures Closer(a, b) <==> a[0] < b[0] || (a[0] == b[0] && Closer(a[1..], b[1..]))
  {
  }

  lemma LaterSmaller(a: seq<bv8>, b: seq<bv8>, i: nat)
    requires a != [] && b != [] && a[0] == b[0] && FirstSmaller(a[1..], b[1..], i)
    ensures FirstSmaller(a, b, i + 1)
  {
    forall j | 0 <= j < i + 1 ensures a[j] == b[j] {
      if j > 0 {
        assert a[1..][j - 1] == b[1..][j - 1];
      }
    }
  }

  /** Byte `i` is the first in which the ids differ, and there `b` is nearer to the target than `a`. */
  ghost predicate NearerAt(target: NodeId, b: NodeId, a: NodeId, i: nat) {
    i < 20 && b[i] ^ target[i] < a[i] ^ target[i] && forall j :: 0 <= j < i ==> a[j] == b[j]
  }

  /** `a` is no farther from the target than `b` unless the first byte in which they differ says so. */
  lemma NotFartherIs(target: NodeId, a: Node, b: Node)
    ensures NotFarther(target)(a, b) <==> !exists i: nat :: NearerAt(target, b.id, a.id, i)
  {
    var da, db := Distance(a.id, target), Distance(b.id, target);
    CloserIs(db, da);
    forall i: nat
      ensures NearerAt(target, b.id, a.id, i) <==> FirstSmaller(db, da, i)
    {
      SmallerAt(target, a.id, b.id, i);
    }
    hide Closer, FirstSmaller, NearerAt;
  }

  lemma SmallerAt(target: NodeId, a: NodeId, b: NodeId, i: nat)
    ensures NearerAt(target, b, a, i) <==> FirstSmaller(Distance(b, target), Distance(a, target), i)
  {
    var da, db := Distance(a, target), Distance(b, target);
    forall j | 0 <= j < 20 ensures a[j] == b[j] <==> da[j] == db[j] {
      if da[j] == db[j] {
        XorInjective(a[j], b[j], target[j]);
      }
    }
  }
}
