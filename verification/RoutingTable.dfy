/** The routing table's buckets, changed in place. */
module RoutingTable {
  import opened Prelude
  import opened Sequences
  import opened Sorting
  import opened NodeId
  import opened Routing

  class Bucket {
    var nodes: seq<Node>
    var replacementCache: seq<Node>

    ghost function View(): BucketState
      reads this
    {
      BucketState(nodes, replacementCache)
    }

    constructor ()
      ensures View() == BucketState([], [])
    {
      nodes, replacementCache := [], [];
    }

    method Add(node: Node, now: int) returns (live: bool)
      modifies this
      ensures (View(), live) == AddTo(old(View()), node, now)
    {
      var pos := Position(nodes, node.id);
      if pos < |nodes| {
        var existing := nodes[pos];
        nodes := DropAt(nodes, pos);
        nodes := nodes + [existing.Touch(now)];
        return true;
      }
      if |nodes| < K {
        nodes := nodes + [node];
        return true;
      }
      if |replacementCache| < K {
        replacementCache := replacementCache + [node];
      }
      return false;
    }

    method Remove(id: NodeId) returns (removed: Option<Node>)
      modifies this
      ensures View() == RemoveFrom(old(View()), id)
      ensures removed.Some? <==> Position(old(nodes), id) < |old(nodes)|
      ensures removed.Some? ==> removed.value == old(nodes)[Position(old(nodes), id)]
    {
      var pos := Position(nodes, id);
      if pos < |nodes| {
        removed := Some(nodes[pos]);
        nodes := DropAt(nodes, pos);
        if replacementCache != [] {
          var replacement := replacementCache[0];
          replacementCache := replacementCache[1..];
          nodes := nodes + [replacement];
        }
      } else {
        removed := None;
      }
    }

    method MarkFailed(id: NodeId, now: int)
      modifies this
      ensures View() == FailIn(old(View()), id, now)
    {
      var pos := Position(nodes, id);
      if pos < |nodes| {
        nodes := nodes[pos := nodes[pos].Fail()];
        if nodes[pos].IsBad(now) {
          var _ := Remove(id);
        }
      }
    }

    method MarkSeen(id: NodeId, now: int)
      modifies this
      ensures View() == SeenIn(old(View()), id, now)
    {
      var pos := Position(nodes, id);
      if pos < |nodes| {
        nodes := nodes[pos := nodes[pos].Touch(now)];
      }
    }
  }

  class RoutingTable {
    const ourId: NodeId
    const buckets: seq<Bucket>
    ghost const Repr: set<object>

    ghost predicate Valid()
      reads this, Repr
    {
      && |buckets| == NUM_BUCKETS
      && (forall i :: 0 <= i < |buckets| ==> buckets[i] in Repr)
      && (forall i, j :: 0 <= i < j < |buckets| ==> buckets[i] != buckets[j])
      && TableOk(View())
    }

    ghost function View(): Table
      reads this, Repr
      requires forall i :: 0 <= i < |buckets| ==> buckets[i] in Repr
    {
      Table(ourId, seq(|buckets|, i requires 0 <= i < |buckets| reads Repr => buckets[i].View()))
    }

    constructor (ourId: NodeId)
      ensures Valid() && View() == NewTable(ourId) && fresh(Repr)
    {
      this.ourId := ourId;
      var all: seq<Bucket> := [];
      for i := 0 to NUM_BUCKETS
        invariant |all| == i
        invariant forall j :: 0 <= j < i ==> fresh(all[j]) && all[j].View() == BucketState([], [])
        invariant forall j, k :: 0 <= j < k < i ==> all[j] != all[k]
      {
        var bucket := new Bucket();
        all := all + [bucket];
      }
      buckets := all;
      Repr := set b | b in all;
      new;
      NewTableOk(ourId);
      assert View() == NewTable(ourId);
    }

    method AddNode(node: Node, now: int)
      requires Valid()
      modifies Repr
      ensures Valid() && View() == Step(old(View()), Op.AddNode(node, now))
    {
      hide TableOk, AddTo;
      ghost var t := View();
      StepKeepsTable(t, Op.AddNode(node, now));
      if node.id != ourId {
        var i := ComputeBucketIndex(ourId, node.id);
        var _ := buckets[i].Add(node, now);
        assert View().buckets == t.buckets[i := buckets[i].View()];
      }
    }

    method RemoveNode(id: NodeId)
      requires Valid()
      modifies Repr
      ensures Valid() && View() == Step(old(View()), Op.RemoveNode(id))
    {
      hide TableOk, RemoveFrom, FailIn, SeenIn;
      ghost var t := View();
      var i := ComputeBucketIndex(ourId, id);
      var _ := buckets[i].Remove(id);
      StepKeepsTable(t, Op.RemoveNode(id));
      assert View().buckets == t.buckets[i := buckets[i].View()];
    }

    method MarkFailed(id: NodeId, now: int)
      requires Valid()
      modifies Repr
      ensures Valid() && View() == Step(old(View()), Op.MarkFailed(id, now))
    {
      hide TableOk, RemoveFrom, FailIn, SeenIn;
      ghost var t := View();
      var i := ComputeBucketIndex(ourId, id);
      buckets[i].MarkFailed(id, now);
      StepKeepsTable(t, Op.MarkFailed(id, now));
      assert View().buckets == t.buckets[i := buckets[i].View()];
    }

    method MarkSeen(id: NodeId, now: int)
      requires Valid()
      modifies Repr
      ensures Valid() && View() == Step(old(View()), Op.MarkSeen(id, now))
    {
      hide TableOk, RemoveFrom, FailIn, SeenIn;
      ghost var t := View();
      var i := ComputeBucketIndex(ourId, id);
      buckets[i].MarkSeen(id, now);
      StepKeepsTable(t, Op.MarkSeen(id, now));
      assert View().buckets == t.buckets[i := buckets[i].View()];
    }

    /** The good nodes of one bucket. */
    method CollectGood(live: seq<Node>, now: int) returns (good: seq<Node>)
      ensures good == GoodOf(live, now)
    {
      good := [];
      assert live[0..] == live;
      for j := 0 to |live|
        invariant good + GoodOf(live[j..], now) == GoodOf(live, now)
      {
        assert live[j..][0] == live[j] && live[j..][1..] == live[j + 1..];
        if live[j].IsGood(now) {
          good := good + [live[j]];
        }
      }
    }

    /** Collects the good nodes of all buckets, sorts them by distance and truncates. */
    method FindClosest(target: NodeId, count: nat, now: int) returns (r: seq<Node>)
      requires Valid()
      ensures r == Routing.FindClosest(View(), target, count, now)
    {
      hide NotFarther, SortBy, TableOk, GoodNodes, GoodOf;
      var nodes := [];
      ghost var states := View().buckets;
      assert states[0..] == states;
      for i := 0 to NUM_BUCKETS
        invariant nodes + GoodNodes(states[i..], now) == GoodNodes(states, now)
      {
        var good := CollectGood(buckets[i].nodes, now);
        GoodStep(states, i, now, nodes);
        nodes := nodes + good;
      }
      GoodEnd(states, now, nodes);
      var sorted := SortBy(nodes, NotFarther(target));
      r := sorted[..Min(count, |sorted|)];
    }
  }

  lemma GoodStep(states: seq<BucketState>, i: nat, now: int, nodes: seq<Node>)
    requires i < |states|
    ensures nodes + GoodNodes(states[i..], now)
      == (nodes + GoodOf(states[i].nodes, now)) + GoodNodes(states[i + 1..], now)
  {
    hide GoodOf;
    assert states[i..][0] == states[i] && states[i..][1..] == states[i + 1..];
    Associates(nodes, GoodOf(states[i].nodes, now), GoodNodes(states[i + 1..], now));
  }

  lemma GoodEnd(states: seq<BucketState>, now: int, nodes: seq<Node>)
    ensures nodes + GoodNodes(states[|states|..], now) == nodes
  {
  }
}
