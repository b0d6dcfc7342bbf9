/**
 The iterative peer lookup. The network is an oracle that answers each query of
 each round; nothing is assumed about its answers.
 */
module Lookup {
  import opened Prelude
  import opened Sorting
  import opened NodeId
  import opened Routing
  import opened RoutingTable

  const ALPHA := 8
  const MAX_ITERATIONS := 15
  const ENOUGH_PEERS := 50
  const INITIAL_COUNT := 8

  type Addr = DhtMessage.Addr

  datatype Reply =
    | Peers(peers: Option<seq<Addr>>, nodes: Option<seq<Node>>, token: Bytes)
    | OtherReply
    | Failed

  type Network = (nat, Node) -> Reply

  // ------------------------------------------------------- what one reply yields

  function PeersIn(r: Reply): seq<Addr> {
    match r case Peers(Some(p), _, _) => p case _ => []
  }

  function NodesIn(r: Reply): seq<Node> {
    match r case Peers(_, Some(nodes), _) => nodes case _ => []
  }

  /** A reply with neither peers nor nodes is ignored, token included. */
  function TokensIn(from: Node, r: Reply): seq<(Addr, Bytes)> {
    match r
    case Peers(peers, nodes, token) =>
      if (peers.Some? || nodes.Some?) && token != [] then [(from.addr, token)] else []
    case _ => []
  }

  // ------------------------------------------------------------- the query trace

  /** Every query sent, with its round, in order. */
  type Trace = seq<(nat, Node)>

  ghost function Ids(trace: Trace): set<NodeId> {
    set e | e in trace :: e.1.id
  }

  function AllPeers(net: Network, trace: Trace): seq<Addr> {
    if trace == [] then []
    else
      var last := trace[|trace| - 1];
      AllPeers(net, trace[..|trace| - 1]) + PeersIn(net(last.0, last.1))
  }

  function AllTokens(net: Network, trace: Trace): seq<(Addr, Bytes)> {
    if trace == [] then []
    else
      var last := trace[|trace| - 1];
      AllTokens(net, trace[..|trace| - 1]) + TokensIn(last.1, net(last.0, last.1))
  }

  function Unqueried(nodes: seq<Node>, queried: set<NodeId>): seq<Node> {
    if nodes == [] then []
    else if nodes[0].id in queried then Unqueried(nodes[1..], queried)
    else [nodes[0]] + Unqueried(nodes[1..], queried)
  }

  /** The nodes the replies of one round name that have not been queried. */
  function NewNodes(net: Network, round: nat, picks: seq<Node>, queried: set<NodeId>): seq<Node> {
    if picks == [] then []
    else
      var last := picks[|picks| - 1];
      NewNodes(net, round, picks[..|picks| - 1], queried) + Unqueried(NodesIn(net(round, last)), queried)
  }

  /** The first `room` candidates with distinct ids not queried before. */
  function Select(candidates: seq<Node>, queried: set<NodeId>, room: nat): (r: seq<Node>)
    ensures |r| <= room
  {
    if candidates == [] || room == 0 then []
    else if candidates[0].id in queried then Select(candidates[1..], queried, room)
    else [candidates[0]] + Select(candidates[1..], queried + {candidates[0].id}, room - 1)
  }

  function Tag(round: nat, picks: seq<Node>): (r: Trace)
    ensures |r| == |picks| && forall i :: 0 <= i < |r| ==> r[i] == (round, picks[i])
  {
    seq(|picks|, i requires 0 <= i < |picks| => (round, picks[i]))
  }

  /** The whole lookup from a round on. */
  ghost function Continue(net: Network, target: NodeId, round: nat, toQuery: seq<Node>, trace: Trace): Trace
    decreases MAX_ITERATIONS - round
  {
    if round >= MAX_ITERATIONS || toQuery == [] then trace
    else
      var picks := Select(SortBy(toQuery, NotFarther(target)), Ids(trace), ALPHA);
      if picks == [] then trace
      else
        var trace' := trace + Tag(round, picks);
        if |AllPeers(net, trace')| >= ENOUGH_PEERS then trace'
        else Continue(net, target, round + 1, NewNodes(net, round, picks, Ids(trace')), trace')
  }

  // ----------------------------------------------------------------- properties

  lemma {:induction false} SelectFresh(candidates: seq<Node>, queried: set<NodeId>, room: nat)
    ensures var r := Select(candidates, queried, room);
      && (forall n :: n in r ==> n in candidates && n.id !in queried)
      && (forall i, j :: 0 <= i < j < |r| ==> r[i].id != r[j].id)
  {
    if candidates != [] && room > 0 {
      if candidates[0].id in queried {
        SelectFresh(candidates[1..], queried, room);
      } else {
        SelectFresh(candidates[1..], queried + {candidates[0].id}, room - 1);
      }
    }
  }

  /**
   Of candidates sorted by distance, whatever is passed over although it was not
   queried is no closer than any node picked, and all the room was used.
   */
  lemma {:induction false} SelectNearest(candidates: seq<Node>, queried: set<NodeId>, room: nat,
                                         le: (Node, Node) -> bool, gone: Node)
    requires Ordered(candidates, le)
    requires gone in candidates && gone.id !in queried
    requires forall n :: n in Select(candidates, queried, room) ==> n.id != gone.id
    ensures |Select(candidates, queried, room)| == room
    ensures forall n :: n in Select(candidates, queried, room) ==> le(n, gone)
  {
    if room > 0 {
      var c, rest := candidates[0], candidates[1..];
      assert Ordered(rest, le);
      var r := Select(candidates, queried, room);
      if c.id in queried {
        SelectNearest(rest, queried, room, le, gone);
      } else {
        assert c in r;
        var more := Select(rest, queried + {c.id}, room - 1);
        assert r == [c] + more;
        assert forall n :: n in more ==> n in r;
        SelectNearest(rest, queried + {c.id}, room - 1, le, gone);
        var j :| 0 <= j < |candidates| && candidates[j] == gone;
        assert le(candidates[0], candidates[j]);
      }
    }
  }

  ghost predicate DistinctQueries(trace: Trace) {
    forall i, j :: 0 <= i < j < |trace| ==> trace[i].1.id != trace[j].1.id
  }

  function InRound(trace: Trace, round: nat): nat {
    if trace == [] then 0
    else InRound(trace[..|trace| - 1], round) + if trace[|trace| - 1].0 == round then 1 else 0
  }

  /** The invariant after `rounds` rounds. */
  ghost predicate TraceOk(net: Network, initial: seq<Node>, trace: Trace, rounds: nat) {
    && DistinctQueries(trace)
    && |trace| <= ALPHA * rounds
    && (forall e :: e in trace ==> e.0 < rounds)
    && (forall r: nat :: InRound(trace, r) <= ALPHA)
    && forall e :: e in trace ==> Known(net, initial, trace, e)
  }

  /** A queried node was known at the start or named by a reply of the round before. */
  ghost predicate Known(net: Network, initial: seq<Node>, trace: Trace, e: (nat, Node)) {
    if e.0 == 0 then e.1 in initial
    else exists q :: q in trace && q.0 + 1 == e.0 && e.1 in NodesIn(net(q.0, q.1))
  }

  lemma {:induction false} InRoundAppend(trace: Trace, more: Trace, round: nat, r: nat)
    requires forall i :: 0 <= i < |more| ==> more[i].0 == round
    ensures InRound(trace + more, r) == InRound(trace, r) + if r == round then |more| else 0
  {
    if more == [] {
      assert trace + more == trace;
    } else {
      var all := trace + more;
      assert all[..|all| - 1] == trace + more[..|more| - 1];
      InRoundAppend(trace, more[..|more| - 1], round, r);
    }
  }

  lemma {:induction false} InRoundNone(trace: Trace, r: nat)
    requires forall e :: e in trace ==> e.0 != r
    ensures InRound(trace, r) == 0
  {
    if trace != [] {
      InRoundNone(trace[..|trace| - 1], r);
    }
  }

  lemma {:induction false} NewNodesFrom(net: Network, round: nat, picks: seq<Node>, queried: set<NodeId>, n: Node)
    requires n in NewNodes(net, round, picks, queried)
    ensures n.id !in queried && exists p :: p in picks && n in NodesIn(net(round, p))
  {
    if picks != [] {
      var init, last := picks[..|picks| - 1], picks[|picks| - 1];
      if n in NewNodes(net, round, init, queried) {
        NewNodesFrom(net, round, init, queried, n);
        var p :| p in init && n in NodesIn(net(round, p));
        assert p in picks;
      } else {
        UnqueriedFrom(NodesIn(net(round, last)), queried, n);
      }
    }
  }

  lemma {:induction false} UnqueriedFrom(nodes: seq<Node>, queried: set<NodeId>, n: Node)
    requires n in Unqueried(nodes, queried)
    ensures n in nodes && n.id !in queried
  {
    if nodes[0].id in queried || n != nodes[0] {
      UnqueriedFrom(nodes[1..], queried, n);
    }
  }

  /** The candidates of a round are known: initial ones, or named in the round before. */
  ghost predicate CandidatesKnown(net: Network, initial: seq<Node>, trace: Trace, round: nat, toQuery: seq<Node>) {
    forall n :: n in toQuery ==> Known(net, initial, trace, (round, n))
  }

  lemma DistinctAppend(trace: Trace, round: nat, picks: seq<Node>)
    requires DistinctQueries(trace)
    requires forall n :: n in picks ==> n.id !in Ids(trace)
    requires forall i, j :: 0 <= i < j < |picks| ==> picks[i].id != picks[j].id
    ensures DistinctQueries(trace + Tag(round, picks))
  {
  }

  /** Every query of a round is known if its candidates are. */
  lemma PicksKnown(net: Network, initial: seq<Node>, round: nat, toQuery: seq<Node>, trace: Trace, picks: seq<Node>)
    requires forall e :: e in trace ==> Known(net, initial, trace, e)
    requires CandidatesKnown(net, initial, trace, round, toQuery)
    requires forall n :: n in picks ==> n in toQuery
    ensures var trace' := trace + Tag(round, picks);
      forall e :: e in trace' ==> Known(net, initial, trace', e)
  {
  }

  /** What the replies of a round name is known in the next. */
  lemma NextKnown(net: Network, initial: seq<Node>, round: nat, trace: Trace, picks: seq<Node>, queried: set<NodeId>)
    ensures CandidatesKnown(net, initial, trace + Tag(round, picks), round + 1, NewNodes(net, round, picks, queried))
  {
    hide NodesIn, NewNodes, Tag;
    var tag := Tag(round, picks);
    var trace' := trace + tag;
    forall n | n in NewNodes(net, round, picks, queried) ensures Known(net, initial, trace', (round + 1, n)) {
      NewNodesFrom(net, round, picks, queried, n);
      var p :| p in picks && n in NodesIn(net(round, p));
      var i :| 0 <= i < |picks| && picks[i] == p;
      assert tag[i] == (round, p);
      assert (round, p) in trace';
    }
  }

  /** One round keeps the invariant and leaves known candidates for the next. */
  lemma RoundKeepsTrace(net: Network, target: NodeId, initial: seq<Node>, round: nat, toQuery: seq<Node>, trace: Trace)
    requires TraceOk(net, initial, trace, round) && CandidatesKnown(net, initial, trace, round, toQuery)
    ensures var picks := Select(SortBy(toQuery, NotFarther(target)), Ids(trace), ALPHA);
      var trace' := trace + Tag(round, picks);
      && TraceOk(net, initial, trace', round + 1)
      && CandidatesKnown(net, initial, trace', round + 1, NewNodes(net, round, picks, Ids(trace')))
  {
    hide NotFarther, DistinctQueries, InRound, Select, Known, CandidatesKnown, NewNodes, SortBy;
    var sorted := SortBy(toQuery, NotFarther(target));
    SortByMembers(toQuery, NotFarther(target));
    var picks := Select(sorted, Ids(trace), ALPHA);
    SelectFresh(sorted, Ids(trace), ALPHA);
    var trace' := trace + Tag(round, picks);
    DistinctAppend(trace, round, picks);
    InRoundNone(trace, round);
    forall r: nat ensures InRound(trace', r) <= ALPHA {
      InRoundAppend(trace, Tag(round, picks), round, r);
    }
    PicksKnown(net, initial, round, toQuery, trace, picks);
    NextKnown(net, initial, round, trace, picks, Ids(trace'));
  }

  lemma {:induction false} ContinueOk(net: Network, target: NodeId, initial: seq<Node>, round: nat,
                                      toQuery: seq<Node>, trace: Trace)
    requires round <= MAX_ITERATIONS
    requires TraceOk(net, initial, trace, round) && CandidatesKnown(net, initial, trace, round, toQuery)
    ensures TraceOk(net, initial, Continue(net, target, round, toQuery, trace), MAX_ITERATIONS)
    decreases MAX_ITERATIONS - round
  {
    hide NotFarther, Select, NewNodes, AllPeers, CandidatesKnown, SortBy, DistinctQueries, InRound, Known;
    if round < MAX_ITERATIONS && toQuery != [] {
      RoundKeepsTrace(net, target, initial, round, toQuery, trace);
      var picks := Select(SortBy(toQuery, NotFarther(target)), Ids(trace), ALPHA);
      var trace' := trace + Tag(round, picks);
      if picks != [] && |AllPeers(net, trace')| < ENOUGH_PEERS {
        ContinueOk(net, target, initial, round + 1, NewNodes(net, round, picks, Ids(trace')), trace');
      }
    }
  }

  /** The queries of a whole lookup. */
  ghost function LookupTrace(net: Network, target: NodeId, initial: seq<Node>): Trace {
    Continue(net, target, 0, initial, [])
  }

  /**
   Whatever the network answers: no node id is queried twice, each round sends at
   most 8 queries and the lookup at most 120, and only known nodes are queried.
   */
  lemma LookupBounded(net: Network, target: NodeId, initial: seq<Node>)
    ensures var trace := LookupTrace(net, target, initial);
      && DistinctQueries(trace) && |trace| <= 120
      && (forall r: nat :: InRound(trace, r) <= 8)
      && (forall e :: e in trace ==> Known(net, initial, trace, e))
  {
    ContinueOk(net, target, initial, 0, initial, []);
  }

  /** Each token is paired with the address of the node whose reply carried it. */
  lemma {:induction false} TokensPaired(net: Network, trace: Trace, addr: Addr, token: Bytes)
    requires (addr, token) in AllTokens(net, trace)
    ensures token != []
    ensures exists e :: e in trace && e.1.addr == addr && net(e.0, e.1).Peers? && net(e.0, e.1).token == token
  {
    var init, last := trace[..|trace| - 1], trace[|trace| - 1];
    if (addr, token) in AllTokens(net, init) {
      TokensPaired(net, init, addr, token);
      var e :| e in init && e.1.addr == addr && net(e.0, e.1).Peers? && net(e.0, e.1).token == token;
      assert e in trace;
    } else {
      assert last in trace;
    }
  }

  // ------------------------------------------------------------------ the loops

  ghost function IdsOf(nodes: seq<Node>): set<NodeId> {
    set n | n in nodes :: n.id
  }

  /** Picks the queries of one round from the sorted candidates. */
  method SelectQueries(sorted: seq<Node>, queried: set<NodeId>) returns (picks: seq<Node>, queried': set<NodeId>)
    ensures picks == Select(sorted, queried, ALPHA)
    ensures queried' == queried + IdsOf(picks)
  {
    hide Select, IdsOf;
    picks, queried' := [], queried;
    SelectStart(sorted, queried);
    for i := 0 to |sorted|
      invariant |picks| <= ALPHA
      invariant Select(sorted, queried, ALPHA) == picks + Select(sorted[i..], queried', ALPHA - |picks|)
      invariant queried' == queried + IdsOf(picks)
    {
      SelectStep(sorted, i, queried', ALPHA - |picks|, picks);
      if sorted[i].id !in queried' && |picks| < ALPHA {
        queried' := queried' + {sorted[i].id};
        picks := picks + [sorted[i]];
      }
    }
    assert sorted[|sorted|..] == [];
    SelectNone(queried', ALPHA - |picks|);
  }

  lemma SelectStart(sorted: seq<Node>, queried: set<NodeId>)
    ensures sorted[0..] == sorted && IdsOf([]) == {}
  {
  }

  lemma SelectNone(queried: set<NodeId>, room: nat)
    ensures Select([], queried, room) == []
  {
  }

  lemma SelectStep(sorted: seq<Node>, i: nat, queried: set<NodeId>, room: nat, picks: seq<Node>)
    requires i < |sorted|
    ensures picks + Select(sorted[i..], queried, room)
      == if sorted[i].id in queried || room == 0 then picks + Select(sorted[i + 1..], queried, room)
         else picks + [sorted[i]] + Select(sorted[i + 1..], queried + {sorted[i].id}, room - 1)
    ensures IdsOf(picks + [sorted[i]]) == IdsOf(picks) + {sorted[i].id}
  {
  }

  /** The table once the nodes of a reply that are not yet queried are added. */
  ghost function AddAll(t: Table, nodes: seq<Node>, queried: set<NodeId>, now: int): (r: Table)
    requires |t.buckets| == NUM_BUCKETS
    ensures |r.buckets| == NUM_BUCKETS
    decreases nodes
  {
    if nodes == [] then t
    else
      AddAll(if nodes[0].id in queried then t else Step(t, Op.AddNode(nodes[0], now)), nodes[1..], queried, now)
  }

  /** A node that fails to answer is marked; the nodes an answer names are added. */
  ghost function TableAfter(t: Table, net: Network, round: nat, picks: seq<Node>, queried: set<NodeId>,
                            now: int): (r: Table)
    requires |t.buckets| == NUM_BUCKETS
    ensures |r.buckets| == NUM_BUCKETS
    decreases picks
  {
    if picks == [] then t
    else
      var last := picks[|picks| - 1];
      var before := TableAfter(t, net, round, picks[..|picks| - 1], queried, now);
      var reply := net(round, last);
      if reply.Failed? then Step(before, Op.MarkFailed(last.id, now)) else AddAll(before, NodesIn(reply), queried, now)
  }

  /** The table at the end of the lookup that `Continue` describes. */
  ghost function FinalTable(net: Network, target: NodeId, round: nat, toQuery: seq<Node>, trace: Trace, t: Table,
                            now: int): (r: Table)
    requires |t.buckets| == NUM_BUCKETS
    ensures |r.buckets| == NUM_BUCKETS
    decreases MAX_ITERATIONS - round
  {
    if round >= MAX_ITERATIONS || toQuery == [] then t
    else
      var picks := Select(SortBy(toQuery, NotFarther(target)), Ids(trace), ALPHA);
      if picks == [] then t
      else
        var trace' := trace + Tag(round, picks);
        var t' := TableAfter(t, net, round, picks, Ids(trace'), now);
        if |AllPeers(net, trace')| >= ENOUGH_PEERS then t'
        else FinalTable(net, target, round + 1, NewNodes(net, round, picks, Ids(trace')), trace', t', now)
  }

  /** Adds the nodes of one reply to the table and to the candidates. */
  method TakeNodes(nodes: seq<Node>, queried: set<NodeId>, newNodes: seq<Node>, table: RoutingTable, now: int)
    returns (r: seq<Node>)
    requires table.Valid()
    modifies table.Repr
    ensures table.Valid() && r == newNodes + Unqueried(nodes, queried)
    ensures table.View() == AddAll(old(table.View()), nodes, queried, now)
  {
    hide Step, TableOk;
    r := newNodes;
    assert nodes[0..] == nodes;
    for i := 0 to |nodes|
      invariant table.Valid()
      invariant r + Unqueried(nodes[i..], queried) == newNodes + Unqueried(nodes, queried)
      invariant AddAll(table.View(), nodes[i..], queried, now) == AddAll(old(table.View()), nodes, queried, now)
    {
      assert nodes[i..][0] == nodes[i] && nodes[i..][1..] == nodes[i + 1..];
      if nodes[i].id !in queried {
        table.AddNode(nodes[i], now);
        r := r + [nodes[i]];
      }
    }
  }

  /** Folds the replies of one round, in the order of the queries. */
  method TakeReplies(net: Network, round: nat, picks: seq<Node>, queried: set<NodeId>, peers: seq<Addr>,
                     table: RoutingTable, now: int)
    returns (peers': seq<Addr>, newNodes: seq<Node>)
    requires table.Valid()
    modifies table.Repr
    ensures table.Valid()
    ensures peers' == peers + AllPeers(net, Tag(round, picks)) && newNodes == NewNodes(net, round, picks, queried)
    ensures table.View() == TableAfter(old(table.View()), net, round, picks, queried, now)
  {
    hide Step, TableOk, AddAll, Unqueried, AllPeers, AllTokens, NewNodes, TableAfter, Tag, TokensIn;
    peers', newNodes := peers, [];
    EmptyRound(net, round, picks, old(table.View()), queried, now);
    for i := 0 to |picks|
      invariant table.Valid()
      invariant peers' == peers + AllPeers(net, Tag(round, picks[..i]))
      invariant newNodes == NewNodes(net, round, picks[..i], queried)
      invariant table.View() == TableAfter(old(table.View()), net, round, picks[..i], queried, now)
    {
      StepRound(net, round, picks, i, queried, old(table.View()), now);
      var reply := net(round, picks[i]);
      match reply {
        case Peers(Some(p), nodes, _) =>
          peers' := peers' + p;
          if nodes.Some? {
            newNodes := TakeNodes(nodes.value, queried, newNodes, table, now);
          }
        case Peers(None, Some(nodes), _) =>
          newNodes := TakeNodes(nodes, queried, newNodes, table, now);
        case Peers(None, None, _) =>
        case OtherReply =>
        case Failed =>
          table.MarkFailed(picks[i].id, now);
      }
    }
    assert picks[..|picks|] == picks;
  }

  /** As `TakeReplies`, keeping the announce token of each reply. */
  method TakeRepliesWithTokens(net: Network, round: nat, picks: seq<Node>, queried: set<NodeId>, peers: seq<Addr>,
                               tokens: seq<(Addr, Bytes)>, table: RoutingTable, now: int)
    returns (peers': seq<Addr>, tokens': seq<(Addr, Bytes)>, newNodes: seq<Node>)
    requires table.Valid()
    modifies table.Repr
    ensures table.Valid()
    ensures peers' == peers + AllPeers(net, Tag(round, picks)) && newNodes == NewNodes(net, round, picks, queried)
    ensures tokens' == tokens + AllTokens(net, Tag(round, picks))
    ensures table.View() == TableAfter(old(table.View()), net, round, picks, queried, now)
  {
    hide Step, TableOk, AddAll, Unqueried, AllPeers, AllTokens, NewNodes, TableAfter, Tag;
    peers', tokens', newNodes := peers, tokens, [];
    EmptyRound(net, round, picks, old(table.View()), queried, now);
    for i := 0 to |picks|
      invariant table.Valid()
      invariant peers' == peers + AllPeers(net, Tag(round, picks[..i]))
      invariant tokens' == tokens + AllTokens(net, Tag(round, picks[..i]))
      invariant newNodes == NewNodes(net, round, picks[..i], queried)
      invariant table.View() == TableAfter(old(table.View()), net, round, picks[..i], queried, now)
    {
      StepRound(net, round, picks, i, queried, old(table.View()), now);
      var reply := net(round, picks[i]);
      match reply {
        case Peers(Some(p), nodes, token) =>
          peers' := peers' + p;
          if token != [] {
            tokens' := tokens' + [(picks[i].addr, token)];
          }
          if nodes.Some? {
            newNodes := TakeNodes(nodes.value, queried, newNodes, table, now);
          }
        case Peers(None, Some(nodes), token) =>
          if token != [] {
            tokens' := tokens' + [(picks[i].addr, token)];
          }
          newNodes := TakeNodes(nodes, queried, newNodes, table, now);
        case Peers(None, None, _) =>
        case OtherReply =>
        case Failed =>
          table.MarkFailed(picks[i].id, now);
      }
    }
    assert picks[..|picks|] == picks;
  }

  lemma EmptyRound(net: Network, round: nat, picks: seq<Node>, t: Table, queried: set<NodeId>, now: int)
    requires |t.buckets| == NUM_BUCKETS
    ensures AllPeers(net, Tag(round, picks[..0])) == [] && AllTokens(net, Tag(round, picks[..0])) == []
    ensures NewNodes(net, round, picks[..0], queried) == [] && TableAfter(t, net, round, picks[..0], queried, now) == t
  {
  }

  lemma StepRound(net: Network, round: nat, picks: seq<Node>, i: nat, queried: set<NodeId>, t: Table, now: int)
    requires i < |picks| && |t.buckets| == NUM_BUCKETS
    ensures var before, after, reply := picks[..i], picks[..i + 1], net(round, picks[i]);
      && AllPeers(net, Tag(round, after)) == AllPeers(net, Tag(round, before)) + PeersIn(reply)
      && AllTokens(net, Tag(round, after)) == AllTokens(net, Tag(round, before)) + TokensIn(picks[i], reply)
      && NewNodes(net, round, after, queried)
           == NewNodes(net, round, before, queried) + Unqueried(NodesIn(reply), queried)
      && TableAfter(t, net, round, after, queried, now)
           == (var u := TableAfter(t, net, round, before, queried, now);
               if reply.Failed? then Step(u, Op.MarkFailed(picks[i].id, now))
               else AddAll(u, NodesIn(reply), queried, now))
    ensures forall u: Table :: |u.buckets| == NUM_BUCKETS ==> AddAll(u, [], queried, now) == u
    ensures Unqueried([], queried) == []
  {
    hide Step, PeersIn, NodesIn, TokensIn;
    var after := picks[..i + 1];
    assert after[..i] == picks[..i];
    assert Tag(round, after)[..i] == Tag(round, picks[..i]);
  }

  lemma AllStep(net: Network, trace: Trace, e: (nat, Node))
    ensures AllPeers(net, trace + [e]) == AllPeers(net, trace) + PeersIn(net(e.0, e.1))
    ensures AllTokens(net, trace + [e]) == AllTokens(net, trace) + TokensIn(e.1, net(e.0, e.1))
  {
  }

  lemma {:induction false} AllAppend(net: Network, trace: Trace, more: Trace)
    ensures AllPeers(net, trace + more) == AllPeers(net, trace) + AllPeers(net, more)
    ensures AllTokens(net, trace + more) == AllTokens(net, trace) + AllTokens(net, more)
  {
    NoneYet(net);
    hide *;
    if more == [] {
      assert trace + more == trace;
    } else {
      var init, last := more[..|more| - 1], more[|more| - 1];
      AllAppend(net, trace, init);
      assert more == init + [last] && trace + more == (trace + init) + [last];
      AllStep(net, init, last);
      AllStep(net, trace + init, last);
    }
  }

  lemma RoundIds(trace: Trace, round: nat, picks: seq<Node>)
    ensures Ids(trace + Tag(round, picks)) == Ids(trace) + IdsOf(picks)
  {
  }

  method GetPeers(net: Network, target: NodeId, table: RoutingTable, now: int) returns (peers: seq<Addr>)
    requires table.Valid()
    modifies table.Repr
    ensures table.Valid()
    ensures var initial := old(FindClosest(table.View(), target, 8, now));
      && peers == AllPeers(net, LookupTrace(net, target, initial))
      && table.View() == FinalTable(net, target, 0, initial, [], old(table.View()), now)
  {
    hide TableOk, Routing.FindClosest, SortBy, NotFarther, Select, NewNodes, TableAfter, AllPeers, AllTokens, Tag;
    hide Ids, IdsOf;
    peers := [];
    var queried: set<NodeId> := {};
    var toQuery := table.FindClosest(target, INITIAL_COUNT, now);
    ghost var trace: Trace := [];
    ghost var whole := LookupTrace(net, target, toQuery);
    ghost var last := FinalTable(net, target, 0, toQuery, [], table.View(), now);
    NoneYet(net);
    for round := 0 to MAX_ITERATIONS
      invariant table.Valid()
      invariant peers == AllPeers(net, trace) && queried == Ids(trace)
      invariant whole == Continue(net, target, round, toQuery, trace)
      invariant last == FinalTable(net, target, round, toQuery, trace, table.View(), now)
    {
      if toQuery == [] {
        break;
      }
      var picks, queried' := SelectQueries(SortBy(toQuery, NotFarther(target)), queried);
      if picks == [] {
        break;
      }
      RoundIds(trace, round, picks);
      AllAppend(net, trace, Tag(round, picks));
      queried := queried';
      peers, toQuery := TakeReplies(net, round, picks, queried, peers, table, now);
      trace := trace + Tag(round, picks);
      if |peers| >= ENOUGH_PEERS {
        break;
      }
    }
  }

  method GetPeersWithTokens(net: Network, target: NodeId, table: RoutingTable, now: int)
    returns (peers: seq<Addr>, tokens: seq<(Addr, Bytes)>)
    requires table.Valid()
    modifies table.Repr
    ensures table.Valid()
    ensures var initial := old(FindClosest(table.View(), target, 8, now));
      && peers == AllPeers(net, LookupTrace(net, target, initial))
      && tokens == AllTokens(net, LookupTrace(net, target, initial))
      && table.View() == FinalTable(net, target, 0, initial, [], old(table.View()), now)
  {
    hide TableOk, Routing.FindClosest, SortBy, NotFarther, Select, NewNodes, TableAfter, AllPeers, AllTokens, Tag;
    hide Ids, IdsOf;
    peers, tokens := [], [];
    var queried: set<NodeId> := {};
    var toQuery := table.FindClosest(target, INITIAL_COUNT, now);
    ghost var trace: Trace := [];
    ghost var whole := LookupTrace(net, target, toQuery);
    ghost var last := FinalTable(net, target, 0, toQuery, [], table.View(), now);
    NoneYet(net);
    for round := 0 to MAX_ITERATIONS
      invariant table.Valid()
      invariant peers == AllPeers(net, trace) && tokens == AllTokens(net, trace) && queried == Ids(trace)
      invariant whole == Continue(net, target, round, toQuery, trace)
      invariant last == FinalTable(net, target, round, toQuery, trace, table.View(), now)
    {
      if toQuery == [] {
        break;
      }
      var picks, queried' := SelectQueries(SortBy(toQuery, NotFarther(target)), queried);
      if picks == [] {
        break;
      }
      RoundIds(trace, round, picks);
      AllAppend(net, trace, Tag(round, picks));
      queried := queried';
      peers, tokens, toQuery := TakeRepliesWithTokens(net, round, picks, queried, peers, tokens, table, now);
      trace := trace + Tag(round, picks);
      if |peers| >= ENOUGH_PEERS {
        break;
      }
    }
  }

  lemma NoneYet(net: Network)
    ensures AllPeers(net, []) == [] && AllTokens(net, []) == [] && Ids([]) == {}
  {
  }
}
