/** The routing table: 160 buckets of live and replacement nodes. */
module Routing {
  import opened Prelude
  import opened Sorting
  import opened NodeId
  import DhtMessage

  const K := 8

  /** Time is counted in nanoseconds. */
  const SECOND := 1_000_000_000

  datatype Node = Node(id: NodeId, addr: DhtMessage.Addr, lastSeen: int, failedQueries: nat) {
    function Touch(now: int): Node { this.(lastSeen := now, failedQueries := 0) }

    function Fail(): Node { this.(failedQueries := failedQueries + 1) }

    predicate IsGood(now: int) {
      failedQueries == 0 && ElapsedSeconds(now) < 15 * 60
    }

    predicate IsBad(now: int) {
      failedQueries >= 3 || ElapsedSeconds(now) > 60 * 60
    }

    function ElapsedSeconds(now: int): int {
      if now >= lastSeen then (now - lastSeen) / SECOND else 0
    }
  }

  /** The first position of an id; the length if it is absent. */
  function Position(nodes: seq<Node>, id: NodeId): (n: nat)
    ensures n <= |nodes| && (n < |nodes| ==> nodes[n].id == id)
    ensures forall i :: 0 <= i < n ==> nodes[i].id != id
  {
    if nodes == [] || nodes[0].id == id then 0 else 1 + Position(nodes[1..], id)
  }

  function DropAt(nodes: seq<Node>, i: nat): seq<Node>
    requires i < |nodes|
  {
    nodes[..i] + nodes[i + 1..]
  }

  // ---------------------------------------------------------------- one bucket

  datatype BucketState = BucketState(nodes: seq<Node>, spare: seq<Node>)

  function AddTo(b: BucketState, node: Node, now: int): (BucketState, bool) {
    var pos := Position(b.nodes, node.id);
    if pos < |b.nodes| then (b.(nodes := DropAt(b.nodes, pos) + [b.nodes[pos].Touch(now)]), true)
    else if |b.nodes| < K then (b.(nodes := b.nodes + [node]), true)
    else if |b.spare| < K then (b.(spare := b.spare + [node]), false)
    else (b, false)
  }

  function RemoveFrom(b: BucketState, id: NodeId): BucketState {
    var pos := Position(b.nodes, id);
    if pos == |b.nodes| then b
    else if b.spare == [] then b.(nodes := DropAt(b.nodes, pos))
    else BucketState(DropAt(b.nodes, pos) + [b.spare[0]], b.spare[1..])
  }

  function FailIn(b: BucketState, id: NodeId, now: int): BucketState {
    var pos := Position(b.nodes, id);
    if pos == |b.nodes| then b
    else
      var failed := b.nodes[pos].Fail();
      var b' := b.(nodes := b.nodes[pos := failed]);
      if failed.IsBad(now) then RemoveFrom(b', id) else b'
  }

  function SeenIn(b: BucketState, id: NodeId, now: int): BucketState {
    var pos := Position(b.nodes, id);
    if pos == |b.nodes| then b else b.(nodes := b.nodes[pos := b.nodes[pos].Touch(now)])
  }

  /** Every node belongs to bucket `i`; spares exist only beside a full bucket. */
  ghost predicate BucketOk(b: BucketState, us: NodeId, i: nat) {
    && (forall n :: n in b.nodes ==> n.id != us && BucketIndex(us, n.id) == i)
    && (forall n :: n in b.spare ==> n.id != us && BucketIndex(us, n.id) == i)
    && |b.nodes| <= K && |b.spare| <= K
    && (b.spare != [] ==> |b.nodes| == K)
  }

  lemma AddKeepsBucket(b: BucketState, us: NodeId, i: nat, node: Node, now: int)
    requires BucketOk(b, us, i) && node.id != us && BucketIndex(us, node.id) == i
    ensures BucketOk(AddTo(b, node, now).0, us, i)
  {
  }

  lemma RemoveKeepsBucket(b: BucketState, us: NodeId, i: nat, id: NodeId)
    requires BucketOk(b, us, i)
    ensures BucketOk(RemoveFrom(b, id), us, i)
  {
  }

  lemma FailKeepsBucket(b: BucketState, us: NodeId, i: nat, id: NodeId, now: int)
    requires BucketOk(b, us, i)
    ensures BucketOk(FailIn(b, id, now), us, i) && BucketOk(SeenIn(b, id, now), us, i)
  {
    hide BucketIndex, RemoveFrom;
    var pos := Position(b.nodes, id);
    if pos < |b.nodes| {
      assert b.nodes[pos] in b.nodes;
      RemoveKeepsBucket(b.(nodes := b.nodes[pos := b.nodes[pos].Fail()]), us, i, id);
    }
  }

  /** No two nodes, live or spare, have the same id. */
  ghost predicate DistinctIds(nodes: seq<Node>) {
    forall i, j :: 0 <= i < j < |nodes| ==> nodes[i].id != nodes[j].id
  }

  lemma DistinctAppend(nodes: seq<Node>, node: Node)
    requires DistinctIds(nodes)
    ensures DistinctIds(nodes + [node]) <==> forall n :: n in nodes ==> n.id != node.id
  {
    var all := nodes + [node];
    if DistinctIds(all) {
      forall n | n in nodes ensures n.id != node.id {
        var i :| 0 <= i < |nodes| && nodes[i] == n;
        assert all[i].id != all[|nodes|].id;
      }
    }
  }

  /** Moving a node to the back, refreshed, keeps the ids distinct. */
  lemma DistinctMove(nodes: seq<Node>, spare: seq<Node>, pos: nat, node: Node)
    requires DistinctIds(nodes + spare) && pos < |nodes| && node.id == nodes[pos].id
    ensures DistinctIds(DropAt(nodes, pos) + [node] + spare)
  {
    var all, r, n := nodes + spare, DropAt(nodes, pos) + [node] + spare, |nodes|;
    forall i, j | 0 <= i < j < |r| ensures r[i].id != r[j].id {
      var i0 := if i < pos || i >= n then i else if i < n - 1 then i + 1 else pos;
      var j0 := if j < pos || j >= n then j else if j < n - 1 then j + 1 else pos;
      assert r[i].id == all[i0].id && r[j].id == all[j0].id && i0 != j0;
      assert if i0 < j0 then all[i0].id != all[j0].id else all[j0].id != all[i0].id;
    }
  }

  /** A spare is never looked for before another is stored. */
  ghost predicate StoresRepeatedSpare(b: BucketState, node: Node) {
    Position(b.nodes, node.id) == |b.nodes| && |b.nodes| >= K && |b.spare| < K
    && exists n :: n in b.spare && n.id == node.id
  }

  /**
   Adding a node keeps the ids of a bucket distinct exactly when it does not store
   a spare that is already among the spares.
   */
  lemma AddKeepsIdsDistinctIff(b: BucketState, node: Node, now: int)
    requires DistinctIds(b.nodes + b.spare) && (b.spare != [] ==> |b.nodes| == K)
    ensures var r := AddTo(b, node, now).0;
      DistinctIds(r.nodes + r.spare) <==> !StoresRepeatedSpare(b, node)
  {
    hide DistinctIds;
    var r := AddTo(b, node, now).0;
    var pos := Position(b.nodes, node.id);
    if pos < |b.nodes| {
      DistinctMove(b.nodes, b.spare, pos, b.nodes[pos].Touch(now));
    } else if |r.nodes + r.spare| > |b.nodes + b.spare| {
      assert r.nodes + r.spare == (b.nodes + b.spare) + [node];
      DistinctAppend(b.nodes + b.spare, node);
      assert forall n :: n in b.nodes ==> n.id != node.id;
    } else {
      assert r == b;
    }
  }

  // ----------------------------------------------------------------- the table

  datatype Table = Table(us: NodeId, buckets: seq<BucketState>)

  function NewTable(us: NodeId): Table {
    Table(us, seq(NUM_BUCKETS, _ => BucketState([], [])))
  }

  ghost predicate TableOk(t: Table) {
    |t.buckets| == NUM_BUCKETS && forall i :: 0 <= i < NUM_BUCKETS ==> BucketOk(t.buckets[i], t.us, i)
  }

  datatype Op =
    | AddNode(node: Node, now: int)
    | RemoveNode(id: NodeId)
    | MarkFailed(id: NodeId, now: int)
    | MarkSeen(id: NodeId, now: int)

  function Step(t: Table, op: Op): Table
    requires |t.buckets| == NUM_BUCKETS
  {
    match op
    case AddNode(node, now) =>
      if node.id == t.us then t
      else
        var i := BucketIndex(t.us, node.id);
        t.(buckets := t.buckets[i := AddTo(t.buckets[i], node, now).0])
    case RemoveNode(id) =>
      var i := BucketIndex(t.us, id);
      t.(buckets := t.buckets[i := RemoveFrom(t.buckets[i], id)])
    case MarkFailed(id, now) =>
      var i := BucketIndex(t.us, id);
      t.(buckets := t.buckets[i := FailIn(t.buckets[i], id, now)])
    case MarkSeen(id, now) =>
      var i := BucketIndex(t.us, id);
      t.(buckets := t.buckets[i := SeenIn(t.buckets[i], id, now)])
  }

  lemma StepKeepsTable(t: Table, op: Op)
    requires TableOk(t)
    ensures TableOk(Step(t, op)) && Step(t, op).us == t.us
  {
    hide BucketIndex, BucketOk, AddTo, RemoveFrom, FailIn, SeenIn;
    match op
    case AddNode(node, now) =>
      var i := BucketIndex(t.us, node.id);
      if node.id != t.us {
        AddKeepsBucket(t.buckets[i], t.us, i, node, now);
      }
    case RemoveNode(id) =>
      var i := BucketIndex(t.us, id);
      RemoveKeepsBucket(t.buckets[i], t.us, i, id);
    case MarkFailed(id, now) =>
      var i := BucketIndex(t.us, id);
      FailKeepsBucket(t.buckets[i], t.us, i, id, now);
    case MarkSeen(id, now) =>
      var i := BucketIndex(t.us, id);
      FailKeepsBucket(t.buckets[i], t.us, i, id, now);
  }

  function Run(t: Table, ops: seq<Op>): Table
    requires |t.buckets| == NUM_BUCKETS
    decreases |ops|
  {
    if ops == [] then t else Run(Step(t, ops[0]), ops[1..])
  }

  /** The invariant holds over every run of table operations. */
  lemma {:induction false} RunKeepsTable(t: Table, ops: seq<Op>)
    requires TableOk(t)
    ensures TableOk(Run(t, ops)) && Run(t, ops).us == t.us
    decreases |ops|
  {
    if ops != [] {
      StepKeepsTable(t, ops[0]);
      RunKeepsTable(Step(t, ops[0]), ops[1..]);
    }
  }

  lemma NewTableOk(us: NodeId)
    ensures TableOk(NewTable(us))
  {
  }

  // -------------------------------------------------------------- closest nodes

  function GoodOf(nodes: seq<Node>, now: int): seq<Node> {
    if nodes == [] then []
    else if nodes[0].IsGood(now) then [nodes[0]] + GoodOf(nodes[1..], now)
    else GoodOf(nodes[1..], now)
  }

  /** The good live nodes, bucket by bucket. */
  function GoodNodes(buckets: seq<BucketState>, now: int): seq<Node> {
    if buckets == [] then [] else GoodOf(buckets[0].nodes, now) + GoodNodes(buckets[1..], now)
  }

  /** Sorting by distance to a target. */
  function NotFarther(target: NodeId): (Node, Node) -> bool {
    (a: Node, b: Node) => !Closer(Distance(b.id, target), Distance(a.id, target))
  }

  lemma NotFartherTotal(target: NodeId)
    ensures TotalPreorder(NotFarther(target))
  {
    hide Closer, Distance;
    var le := NotFarther(target);
    forall x: Node, y: Node ensures le(x, y) || le(y, x) {
      CloserTrichotomy(Distance(x.id, target), Distance(y.id, target));
    }
    forall x: Node, y: Node, z: Node | le(x, y) && le(y, z) ensures le(x, z) {
      var dx, dy, dz := Distance(x.id, target), Distance(y.id, target), Distance(z.id, target);
      CloserTrichotomy(dx, dy);
      CloserTrichotomy(dy, dz);
      if Closer(dz, dx) && dx != dy {
        CloserTransitive(dz, dx, dy);
      }
    }
  }

  function FindClosest(t: Table, target: NodeId, count: nat, now: int): seq<Node> {
    var sorted := SortBy(GoodNodes(t.buckets, now), NotFarther(target));
    sorted[..Min(count, |sorted|)]
  }

  /**
   `find_closest` returns as many good nodes as asked for and available, nearest
   first, and no good node it omits is closer than one it returns.
   */
  lemma FindClosestIsNearest(t: Table, target: NodeId, count: nat, now: int)
    ensures var r, good := FindClosest(t, target, count, now), GoodNodes(t.buckets, now);
      && |r| == Min(count, |good|)
      && multiset(r) <= multiset(good)
      && Ordered(r, NotFarther(target))
      && (forall kept, gone :: kept in r && gone in multiset(good) - multiset(r) ==> NotFarther(target)(kept, gone))
  {
    hide NotFarther, GoodNodes, SortBy, TotalPreorder;
    var le, good := NotFarther(target), GoodNodes(t.buckets, now);
    var sorted := SortBy(good, le);
    var r := FindClosest(t, target, count, now);
    var rest := sorted[|r|..];
    NotFartherTotal(target);
    SortByOrdered(good, le);
    SortByMultiset(good, le);
    assert sorted == r + rest;
    assert multiset(sorted) == multiset(r) + multiset(rest);
    forall kept, gone | kept in r && gone in multiset(good) - multiset(r) ensures le(kept, gone) {
      assert gone in rest;
      var i :| 0 <= i < |r| && r[i] == kept;
      var j :| 0 <= j < |rest| && rest[j] == gone;
      assert le(sorted[i], sorted[|r| + j]);
    }
  }

  /** Good nodes are exactly the live nodes that answered lately. */
  lemma {:induction false} GoodNodesAre(buckets: seq<BucketState>, now: int, n: Node)
    ensures n in GoodNodes(buckets, now) <==> n.IsGood(now) && exists i :: 0 <= i < |buckets| && n in buckets[i].nodes
  {
    if buckets != [] {
      GoodOfAre(buckets[0].nodes, now, n);
      GoodNodesAre(buckets[1..], now, n);
      assert (exists i :: 0 <= i < |buckets| && n in buckets[i].nodes) <==>
        n in buckets[0].nodes || exists i :: 0 <= i < |buckets[1..]| && n in buckets[1..][i].nodes by {
        if j :| 0 <= j < |buckets| && n in buckets[j].nodes {
          assert j > 0 ==> n in buckets[1..][j - 1].nodes;
        }
        if j :| 0 <= j < |buckets[1..]| && n in buckets[1..][j].nodes {
          assert n in buckets[j + 1].nodes;
        }
      }
    }
  }

  lemma {:induction false} GoodOfAre(nodes: seq<Node>, now: int, n: Node)
    ensures n in GoodOf(nodes, now) <==> n in nodes && n.IsGood(now)
  {
    if nodes != [] {
      GoodOfAre(nodes[1..], now, n);
      assert nodes == [nodes[0]] + nodes[1..];
    }
  }
}
