/** Which nodes stay in the routing table: newcomers never displace a live node. */
module RoutingSurvival {
  import opened NodeId
  import opened Routing

  ghost predicate HasId(nodes: seq<Node>, id: NodeId) {
    exists i :: 0 <= i < |nodes| && nodes[i].id == id
  }

  ghost predicate Live(t: Table, id: NodeId)
    requires |t.buckets| == NUM_BUCKETS
  {
    HasId(t.buckets[BucketIndex(t.us, id)].nodes, id)
  }

  lemma DropOther(nodes: seq<Node>, pos: nat, id: NodeId, more: seq<Node>)
    requires pos < |nodes| && HasId(nodes, id) && nodes[pos].id != id
    ensures HasId(DropAt(nodes, pos) + more, id)
  {
    var i :| 0 <= i < |nodes| && nodes[i].id == id;
    var all := DropAt(nodes, pos) + more;
    assert all[if i < pos then i else i - 1].id == id;
  }

  /** A bucket that is full keeps all its nodes; a node seen again only moves. */
  lemma AddKeepsLive(b: BucketState, node: Node, now: int, id: NodeId)
    requires HasId(b.nodes, id)
    ensures HasId(AddTo(b, node, now).0.nodes, id)
  {
    var pos, after := Position(b.nodes, node.id), AddTo(b, node, now).0.nodes;
    if pos < |b.nodes| {
      if b.nodes[pos].id == id {
        assert after[|after| - 1].id == id;
      } else {
        DropOther(b.nodes, pos, id, [b.nodes[pos].Touch(now)]);
      }
    } else {
      var i :| 0 <= i < |b.nodes| && b.nodes[i].id == id;
      assert after[i].id == id;
    }
  }

  lemma RemoveKeepsOthers(b: BucketState, gone: NodeId, id: NodeId)
    requires HasId(b.nodes, id) && id != gone
    ensures HasId(RemoveFrom(b, gone).nodes, id)
  {
    var pos := Position(b.nodes, gone);
    if pos < |b.nodes| {
      DropOther(b.nodes, pos, id, if b.spare == [] then [] else [b.spare[0]]);
      assert DropAt(b.nodes, pos) + [] == DropAt(b.nodes, pos);
    }
  }

  lemma UpdateKeepsIds(nodes: seq<Node>, pos: nat, node: Node, id: NodeId)
    requires pos < |nodes| && node.id == nodes[pos].id && HasId(nodes, id)
    ensures HasId(nodes[pos := node], id)
  {
    var i :| 0 <= i < |nodes| && nodes[i].id == id;
    assert nodes[pos := node][i].id == id;
  }

  lemma MarksKeepOthers(b: BucketState, marked: NodeId, now: int, id: NodeId)
    requires HasId(b.nodes, id)
    ensures HasId(SeenIn(b, marked, now).nodes, id)
    ensures marked != id ==> HasId(FailIn(b, marked, now).nodes, id)
  {
    hide RemoveFrom;
    var pos := Position(b.nodes, marked);
    if pos < |b.nodes| {
      UpdateKeepsIds(b.nodes, pos, b.nodes[pos].Touch(now), id);
      var failed := b.nodes[pos].Fail();
      UpdateKeepsIds(b.nodes, pos, failed, id);
      if marked != id {
        RemoveKeepsOthers(b.(nodes := b.nodes[pos := failed]), marked, id);
      }
    }
  }

  ghost predicate Spares(op: Op, id: NodeId) {
    !((op.RemoveNode? || op.MarkFailed?) && op.id == id)
  }

  lemma StepKeepsLive(t: Table, op: Op, id: NodeId)
    requires TableOk(t) && Live(t, id) && Spares(op, id)
    ensures Live(Step(t, op), id)
  {
    hide AddTo, RemoveFrom, FailIn, SeenIn, BucketIndex, HasId, BucketOk;
    StepKeepsTable(t, op);
    var b := t.buckets[BucketIndex(t.us, id)];
    match op
    case AddNode(node, now) => AddKeepsLive(b, node, now, id);
    case RemoveNode(gone) =>
      if gone != id { RemoveKeepsOthers(b, gone, id); }
    case MarkFailed(marked, now) => MarksKeepOthers(b, marked, now, id);
    case MarkSeen(marked, now) => MarksKeepOthers(b, marked, now, id);
  }

  /**
   A live node stays live over every run that neither removes it nor reports it as
   failed, however many nodes are added.
   */
  lemma {:induction false} LiveStays(t: Table, ops: seq<Op>, id: NodeId)
    requires TableOk(t) && Live(t, id) && forall op :: op in ops ==> Spares(op, id)
    ensures TableOk(Run(t, ops)) && Live(Run(t, ops), id)
    decreases |ops|
  {
    hide BucketOk, Step, Live, Spares;
    if ops != [] {
      assert ops[0] in ops;
      StepKeepsTable(t, ops[0]);
      StepKeepsLive(t, ops[0], id);
      LiveStays(Step(t, ops[0]), ops[1..], id);
    }
  }

  // ------------------------------------------------------- a node stored twice

  const US: NodeId := [0, 0, 0, 0, 0, 0, 0, 0, 0, 0, 0, 0, 0, 0, 0, 0, 0, 0, 0, 0]

  const BYTES: seq<bv8> := [0, 1, 2, 3, 4, 5, 6, 7, 8]

  /** Node number `j` of those whose ids differ from ours in the first bit. */
  function Far(j: nat): Node
    requires j < 9
  {
    Node(US[0 := 0x80][1 := BYTES[j]], DhtMessage.V4([0, 0, 0, 0], 0), 0, 0)
  }

  function Fars(n: nat): (r: seq<Node>)
    requires n <= 9
    ensures |r| == n && forall i :: 0 <= i < n ==> r[i] == Far(i)
  {
    seq(n, i requires 0 <= i < n => Far(i))
  }

  lemma FarIndex(j: nat)
    requires j < 9
    ensures Far(j).id != US && BucketIndex(US, Far(j).id) == 0
  {
    assert Far(j).id[0] == 0x80 && US[0] == 0;
    assert Distance(US, Far(j).id)[0] == 0x80;
  }

  lemma FarsDiffer(i: nat, j: nat)
    requires i < 9 && j < 9 && i != j
    ensures Far(i).id != Far(j).id
  {
    assert Far(i).id[1] == BYTES[i] && Far(j).id[1] == BYTES[j];
  }

  lemma NewFar(n: nat)
    requires n < 9
    ensures Position(Fars(n), Far(n).id) == n
  {
    if Position(Fars(n), Far(n).id) < n {
      FarsDiffer(Position(Fars(n), Far(n).id), n);
    }
  }

  /** Adds the nodes from number `n` to 7 and then goes on. */
  function Adds(n: nat, more: seq<Op>): seq<Op>
    requires n <= K
    decreases K - n
  {
    if n == K then more else [Op.AddNode(Far(n), 0)] + Adds(n + 1, more)
  }

  lemma {:induction false} AddsFill(t: Table, n: nat, more: seq<Op>) returns (full: Table)
    requires n <= K && t.us == US && |t.buckets| == NUM_BUCKETS && t.buckets[0] == BucketState(Fars(n), [])
    ensures full.us == US && |full.buckets| == NUM_BUCKETS && full.buckets[0] == BucketState(Fars(K), [])
    ensures Run(t, Adds(n, more)) == Run(full, more)
    decreases K - n
  {
    full := t;
    if n < K {
      FarIndex(n);
      NewFar(n);
      var op := Op.AddNode(Far(n), 0);
      assert Fars(n) + [Far(n)] == Fars(n + 1);
      hide BucketIndex, Far;
      assert ([op] + Adds(n + 1, more))[1..] == Adds(n + 1, more);
      full := AddsFill(Step(t, op), n + 1, more);
    }
  }

  lemma RunTwo(t: Table, op: Op)
    requires |t.buckets| == NUM_BUCKETS
    ensures Run(t, [op, op]) == Step(Step(t, op), op)
  {
    assert [op, op][1..] == [op] && [op][1..] == [];
    var once := Step(t, op);
    hide Step;
    assert Run(t, [op, op]) == Run(once, [op]);
  }

  lemma FullTwice(full: Table)
    requires full.us == US && |full.buckets| == NUM_BUCKETS && full.buckets[0] == BucketState(Fars(K), [])
    ensures var t := Run(full, [Op.AddNode(Far(K), 0), Op.AddNode(Far(K), 0)]);
      |t.buckets| == NUM_BUCKETS && t.buckets[0] == BucketState(Fars(K), [Far(K), Far(K)])
  {
    FarIndex(K);
    NewFar(K);
    hide BucketIndex, Far;
    RunTwo(full, Op.AddNode(Far(K), 0));
    assert [Far(K)] + [Far(K)] == [Far(K), Far(K)];
  }

  /**
   Nine nodes of one bucket, the ninth heard of twice: the table then stores it as a
   replacement twice.
   */
  lemma SpareIsRepeated() returns (ops: seq<Op>)
    ensures TableOk(Run(NewTable(US), ops))
    ensures var b := Run(NewTable(US), ops).buckets[0];
      b == BucketState(Fars(K), [Far(K), Far(K)]) && !DistinctIds(b.nodes + b.spare)
  {
    var twice := [Op.AddNode(Far(K), 0), Op.AddNode(Far(K), 0)];
    ops := Adds(0, twice);
    NewTableOk(US);
    RunKeepsTable(NewTable(US), ops);
    assert NewTable(US).buckets[0] == BucketState(Fars(0), []);
    hide Run, TableOk, NewTable, BucketIndex, Far, Adds;
    var full := AddsFill(NewTable(US), 0, twice);
    FullTwice(full);
    var all := Fars(K) + [Far(K), Far(K)];
    assert all[8] == all[9];
  }
}
