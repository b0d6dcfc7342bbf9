/**
 How far a lookup gets: it goes on to every node the replies name, nearest first, until
 it has enough peers, has made its rounds, or has nobody left to ask.
 */
module LookupProgress {
  import opened Prelude
  import Sequences
  import opened Sorting
  import opened NodeId
  import opened Routing
  import opened Lookup

  /** The node, or another of its id, is asked in the round. */
  ghost predicate Asked(trace: Trace, round: nat, n: Node) {
    exists e :: e in trace && e.0 == round && e.1.id == n.id
  }

  /** Eight nodes are asked in the round, none of them farther from the target than `n`. */
  ghost predicate EightNearer(trace: Trace, target: NodeId, round: nat, n: Node) {
    InRound(trace, round) == 8 && forall e :: e in trace && e.0 == round ==> NotFarther(target)(e.1, n)
  }

  ghost predicate Served(trace: Trace, target: NodeId, round: nat, n: Node) {
    Asked(trace, round, n) || EightNearer(trace, target, round, n)
  }

  /** A node asked in the round replies with `n`, whose id has not been asked by its end. */
  ghost predicate Named(net: Network, trace: Trace, round: nat, n: Node) {
    && (exists e :: e in trace && e.0 == round && n in NodesIn(net(e.0, e.1)))
    && forall e :: e in trace && e.1.id == n.id ==> e.0 > round
  }

  /** The lookup has its fifty peers, or has made its fifteen rounds, with this one. */
  ghost predicate EndsWith(net: Network, trace: Trace, round: nat) {
    round + 1 == 15 || (|AllPeers(net, trace)| >= 50 && forall e :: e in trace ==> e.0 <= round)
  }

  // --------------------------------------------------------------- one round

  /** Exactly the nodes whose ids have not been asked are kept, in order. */
  lemma {:induction false} UnqueriedAre(nodes: seq<Node>, queried: set<NodeId>, n: Node)
    ensures multiset(Unqueried(nodes, queried))[n] == if n.id in queried then 0 else multiset(nodes)[n]
    ensures n in Unqueried(nodes, queried) <==> n in nodes && n.id !in queried
  {
    if nodes != [] {
      assert nodes == [nodes[0]] + nodes[1..];
      UnqueriedAre(nodes[1..], queried, n);
    }
  }

  lemma {:induction false} NamedIsNew(net: Network, round: nat, picks: seq<Node>, queried: set<NodeId>, n: Node)
    ensures n in NewNodes(net, round, picks, queried) <==>
      n.id !in queried && exists p :: p in picks && n in NodesIn(net(round, p))
  {
    if picks != [] {
      var init, last := picks[..|picks| - 1], picks[|picks| - 1];
      assert picks == init + [last];
      NamedIsNew(net, round, init, queried, n);
      UnqueriedAre(NodesIn(net(round, last)), queried, n);
    }
  }

  lemma {:induction false} InRoundJoin(a: Trace, b: Trace, r: nat)
    ensures InRound(a + b, r) == InRound(a, r) + InRound(b, r)
  {
    if b == [] {
      assert a + b == a;
    } else {
      assert (a + b)[..|a + b| - 1] == a + b[..|b| - 1];
      InRoundJoin(a, b[..|b| - 1], r);
    }
  }

  /** The queries of a round serve every candidate that has not been asked. */
  lemma PicksServe(target: NodeId, round: nat, toQuery: seq<Node>, trace: Trace, n: Node)
    requires n in toQuery && n.id !in Ids(trace) && forall e :: e in trace ==> e.0 < round
    ensures var picks := Select(SortBy(toQuery, NotFarther(target)), Ids(trace), 8);
      picks != [] && Served(trace + Tag(round, picks), target, round, n)
  {
    var le := NotFarther(target);
    var sorted := SortBy(toQuery, le);
    NotFartherTotal(target);
    SortByMembers(toQuery, le);
    SortByOrdered(toQuery, le);
    var picks := Select(sorted, Ids(trace), 8);
    var tag := Tag(round, picks);
    hide Select, SortBy, NotFarther, InRound, TotalPreorder;
    if p :| p in picks && p.id == n.id {
      var i :| 0 <= i < |picks| && picks[i] == p;
      assert tag[i] in trace + tag;
    } else {
      SelectNearest(sorted, Ids(trace), 8, le, n);
      InRoundNone(trace, round);
      InRoundAppend(trace, tag, round, round);
      forall e | e in trace + tag && e.0 == round ensures le(e.1, n) {
        assert e in tag;
      }
    }
  }

  /** Queries of later rounds take nothing from what a round has done. */
  lemma ServedStays(trace: Trace, later: Trace, target: NodeId, round: nat, n: Node)
    requires Served(trace, target, round, n) && forall e :: e in later ==> e.0 > round
    ensures Served(trace + later, target, round, n)
  {
    InRoundJoin(trace, later, round);
    InRoundNone(later, round);
    hide NotFarther, InRound;
  }

  // ---------------------------------------------------------------- all rounds

  /** Only queries of this round and later ones are added. */
  lemma {:induction false} ContinueAdds(net: Network, target: NodeId, round: nat, toQuery: seq<Node>, trace: Trace)
    returns (later: Trace)
    ensures Continue(net, target, round, toQuery, trace) == trace + later
    ensures forall e :: e in later ==> e.0 >= round
    decreases MAX_ITERATIONS - round
  {
    hide NotFarther, Select, SortBy, NewNodes, AllPeers;
    later := [];
    if round < MAX_ITERATIONS && toQuery != [] {
      var picks := Select(SortBy(toQuery, NotFarther(target)), Ids(trace), ALPHA);
      var tag := Tag(round, picks);
      var trace' := trace + tag;
      if picks != [] {
        if |AllPeers(net, trace')| >= ENOUGH_PEERS {
          later := tag;
        } else {
          var more := ContinueAdds(net, target, round + 1, NewNodes(net, round, picks, Ids(trace')), trace');
          later := tag + more;
          assert trace + (tag + more) == trace' + more;
        }
      }
    }
  }

  /** All candidates of the round are served, unless it is past the last. */
  lemma CandidatesServed(net: Network, target: NodeId, round: nat, toQuery: seq<Node>, trace: Trace, n: Node)
    requires forall e :: e in trace ==> e.0 < round
    requires round < 15 && n in toQuery && n.id !in Ids(trace)
    ensures Served(Continue(net, target, round, toQuery, trace), target, round, n)
  {
    hide NotFarther, Select, SortBy, NewNodes, AllPeers, Served;
    PicksServe(target, round, toQuery, trace, n);
    var picks := Select(SortBy(toQuery, NotFarther(target)), Ids(trace), ALPHA);
    var trace' := trace + Tag(round, picks);
    if |AllPeers(net, trace')| < ENOUGH_PEERS {
      var later := ContinueAdds(net, target, round + 1, NewNodes(net, round, picks, Ids(trace')), trace');
      ServedStays(trace', later, target, round, n);
    }
  }

  /** The nodes named in the first round of the rest of a lookup. */
  lemma FirstRoundGoesOn(net: Network, target: NodeId, round: nat, toQuery: seq<Node>, trace: Trace, n: Node)
    requires forall e :: e in trace ==> e.0 < round
    requires round < 15 && Named(net, Continue(net, target, round, toQuery, trace), round, n)
    ensures var all := Continue(net, target, round, toQuery, trace);
      Served(all, target, round + 1, n) || EndsWith(net, all, round)
  {
    hide NotFarther, Select, SortBy, NewNodes, AllPeers, Served, NodesIn;
    var all := Continue(net, target, round, toQuery, trace);
    var picks := Select(SortBy(toQuery, NotFarther(target)), Ids(trace), ALPHA);
    var tag := Tag(round, picks);
    var trace' := trace + tag;
    var e :| e in all && e.0 == round && n in NodesIn(net(e.0, e.1));
    if |AllPeers(net, trace')| < ENOUGH_PEERS && round + 1 < 15 {
      var toQuery' := NewNodes(net, round, picks, Ids(trace'));
      var later := ContinueAdds(net, target, round + 1, toQuery', trace');
      assert e in tag;
      NamedIsNew(net, round, picks, Ids(trace'), n);
      assert n.id !in Ids(trace');
      CandidatesServed(net, target, round + 1, toQuery', trace', n);
    }
  }

  lemma {:induction false} RestGoesOn(net: Network, target: NodeId, round: nat, toQuery: seq<Node>, trace: Trace,
                                      r: nat, n: Node)
    requires forall e :: e in trace ==> e.0 < round
    requires round <= r && Named(net, Continue(net, target, round, toQuery, trace), r, n)
    ensures var all := Continue(net, target, round, toQuery, trace);
      Served(all, target, r + 1, n) || EndsWith(net, all, r)
    decreases MAX_ITERATIONS - round
  {
    hide NotFarther, Select, SortBy, NewNodes, AllPeers, Served, NodesIn, EndsWith;
    var all := Continue(net, target, round, toQuery, trace);
    var e :| e in all && e.0 == r && n in NodesIn(net(e.0, e.1));
    var picks := Select(SortBy(toQuery, NotFarther(target)), Ids(trace), ALPHA);
    var trace' := trace + Tag(round, picks);
    if r == round {
      FirstRoundGoesOn(net, target, round, toQuery, trace, n);
    } else {
      RestGoesOn(net, target, round + 1, NewNodes(net, round, picks, Ids(trace')), trace', r, n);
    }
  }

  /**
   Whatever the network answers: a node that a reply of a round names, and that has not
   been asked by the end of that round, is asked in the next one, or eight nodes no
   farther from the target are, or the lookup ends there with fifty peers or after
   fifteen rounds.
   */
  lemma NamedAreServed(net: Network, target: NodeId, initial: seq<Node>, round: nat, n: Node)
    requires Named(net, LookupTrace(net, target, initial), round, n)
    ensures var trace := LookupTrace(net, target, initial);
      Served(trace, target, round + 1, n) || EndsWith(net, trace, round)
  {
    RestGoesOn(net, target, 0, initial, [], round, n);
  }

  /** The same for the nodes a lookup starts from, in its first round. */
  lemma InitialAreServed(net: Network, target: NodeId, initial: seq<Node>, n: Node)
    requires n in initial
    ensures Served(LookupTrace(net, target, initial), target, 0, n)
  {
    CandidatesServed(net, target, 0, initial, [], n);
  }

  // ----------------------------------------------------- when the lookup stops

  /** The queries of earlier rounds. */
  function Before(trace: Trace, round: nat): (r: Trace)
    ensures |r| <= |trace|
  {
    if trace == [] then []
    else
      var rest, last := Before(trace[..|trace| - 1], round), trace[|trace| - 1];
      if last.0 < round then rest + [last] else rest
  }

  lemma {:induction false} BeforeIs(early: Trace, late: Trace, round: nat)
    requires (forall e :: e in early ==> e.0 < round) && (forall e :: e in late ==> e.0 >= round)
    ensures Before(early + late, round) == early
  {
    var all := early + late;
    if late != [] {
      assert all[..|all| - 1] == early + late[..|late| - 1] && all[|all| - 1] == late[|late| - 1];
      BeforeIs(early, late[..|late| - 1], round);
    } else if early != [] {
      assert all == early && early == early[..|early| - 1] + [early[|early| - 1]];
      BeforeIs(early[..|early| - 1], [], round);
      assert early[..|early| - 1] + [] == early[..|early| - 1];
    }
  }

  lemma {:induction false} RestStops(net: Network, target: NodeId, round: nat, toQuery: seq<Node>, trace: Trace, r: nat)
    requires (forall e :: e in trace ==> e.0 < round) && |AllPeers(net, trace)| < 50 && round <= r
    requires exists e :: e in Continue(net, target, round, toQuery, trace) && e.0 == r
    ensures r < 15 && |AllPeers(net, Before(Continue(net, target, round, toQuery, trace), r))| < 50
    decreases MAX_ITERATIONS - round
  {
    hide NotFarther, Select, SortBy, NewNodes, AllPeers, Before;
    var all := Continue(net, target, round, toQuery, trace);
    var later := ContinueAdds(net, target, round, toQuery, trace);
    if r == round {
      BeforeIs(trace, later, round);
    } else {
      var picks := Select(SortBy(toQuery, NotFarther(target)), Ids(trace), ALPHA);
      var trace' := trace + Tag(round, picks);
      RestStops(net, target, round + 1, NewNodes(net, round, picks, Ids(trace')), trace', r);
    }
  }

  /** A round is only begun while the earlier ones have brought fewer than fifty peers, and no sixteenth one. */
  lemma EnoughPeersStop(net: Network, target: NodeId, initial: seq<Node>, round: nat)
    requires exists e :: e in LookupTrace(net, target, initial) && e.0 == round
    ensures round < 15 && |AllPeers(net, Before(LookupTrace(net, target, initial), round))| < 50
  {
    assert AllPeers(net, []) == [];
    RestStops(net, target, 0, initial, [], round);
  }

  // --------------------------------------------------------- what it brings home

  /** The peers of a lookup are those of all replies that carry peers, and no others. */
  lemma {:induction false} PeersAre(net: Network, trace: Trace, a: Addr)
    ensures a in AllPeers(net, trace) <==>
      (exists e :: e in trace && net(e.0, e.1).Peers? && net(e.0, e.1).peers.Some? && a in net(e.0, e.1).peers.value)
  {
    if trace != [] {
      var init, last := trace[..|trace| - 1], trace[|trace| - 1];
      assert trace == init + [last];
      PeersAre(net, init, a);
    }
  }

  /** A reply with peers or nodes, and this token. */
  predicate Brings(r: Reply, token: Bytes) {
    r.Peers? && r.token == token && (r.peers.Some? || r.nodes.Some?)
  }

  /**
   The tokens are exactly the non-empty ones of replies that carry peers or nodes, each
   with the address of the node asked.
   */
  lemma {:induction false} TokensAre(net: Network, trace: Trace, addr: Addr, token: Bytes)
    ensures (addr, token) in AllTokens(net, trace) <==>
      token != [] && exists e :: e in trace && e.1.addr == addr && Brings(net(e.0, e.1), token)
  {
    if trace != [] {
      var init, last := trace[..|trace| - 1], trace[|trace| - 1];
      assert trace == init + [last];
      TokensAre(net, init, addr, token);
    }
  }

  // -------------------------------------------------- what the table hears of it

  /** The ids asked up to and in a round. */
  ghost function AskedBy(trace: Trace, round: nat): set<NodeId> {
    set e | e in trace && e.0 <= round :: e.1.id
  }

  function Additions(nodes: seq<Node>, now: int): (r: seq<Routing.Op>)
    ensures |r| == |nodes| && forall i :: 0 <= i < |r| ==> r[i] == Routing.AddNode(nodes[i], now)
  {
    seq(|nodes|, i requires 0 <= i < |nodes| => Routing.AddNode(nodes[i], now))
  }

  /** What the table hears of one reply: a failure is marked, nodes not yet asked are added. */
  ghost function Effect(reply: Reply, from: NodeId, asked: set<NodeId>, now: int): seq<Routing.Op> {
    match reply
    case Failed => [Routing.MarkFailed(from, now)]
    case OtherReply => []
    case Peers(_, None, _) => []
    case Peers(_, Some(nodes), _) => Additions(Unqueried(nodes, asked), now)
  }

  /** What it hears of each query in turn; a node counts as asked by the end of the round. */
  ghost function Heard(net: Network, all: Trace, trace: Trace, now: int): seq<Routing.Op> {
    if trace == [] then []
    else
      var last := trace[|trace| - 1];
      Heard(net, all, trace[..|trace| - 1], now) + Effect(net(last.0, last.1), last.1.id, AskedBy(all, last.0), now)
  }

  lemma StepLength(t: Table, op: Routing.Op)
    requires |t.buckets| == NUM_BUCKETS
    ensures |Step(t, op).buckets| == NUM_BUCKETS
  {
    hide AddTo, RemoveFrom, FailIn, SeenIn;
  }

  lemma {:induction false} RunAppend(t: Table, a: seq<Routing.Op>, b: seq<Routing.Op>)
    requires |t.buckets| == NUM_BUCKETS
    ensures |Run(t, a).buckets| == NUM_BUCKETS && Run(t, a + b) == Run(Run(t, a), b)
    decreases |a|
  {
    hide Step;
    if a == [] {
      assert a + b == b;
    } else {
      assert (a + b)[1..] == a[1..] + b;
      StepLength(t, a[0]);
      RunAppend(Step(t, a[0]), a[1..], b);
    }
  }

  lemma {:induction false} AddAllIs(t: Table, nodes: seq<Node>, queried: set<NodeId>, now: int)
    requires |t.buckets| == NUM_BUCKETS
    ensures AddAll(t, nodes, queried, now) == Run(t, Additions(Unqueried(nodes, queried), now))
    decreases nodes
  {
    hide Step;
    if nodes != [] {
      var kept := Unqueried(nodes, queried);
      if nodes[0].id in queried {
        AddAllIs(t, nodes[1..], queried, now);
      } else {
        var op := Routing.AddNode(nodes[0], now);
        StepLength(t, op);
        AddAllIs(Step(t, op), nodes[1..], queried, now);
        assert kept[1..] == Unqueried(nodes[1..], queried);
        assert Additions(kept, now)[1..] == Additions(kept[1..], now);
      }
    }
  }

  lemma {:induction false} HeardJoin(net: Network, all: Trace, a: Trace, b: Trace, now: int)
    ensures Heard(net, all, a + b, now) == Heard(net, all, a, now) + Heard(net, all, b, now)
  {
    if b == [] {
      assert a + b == a;
    } else {
      var init := b[..|b| - 1];
      var last := b[|b| - 1];
      hide Effect, AskedBy;
      assert (a + b)[..|a + b| - 1] == a + init && (a + b)[|a + b| - 1] == last;
      HeardJoin(net, all, a, init, now);
      var heard := Effect(net(last.0, last.1), last.1.id, AskedBy(all, last.0), now);
      assert Heard(net, all, a + b, now) == Heard(net, all, a + init, now) + heard;
      assert Heard(net, all, b, now) == Heard(net, all, init, now) + heard;
      hide Heard;
      Sequences.Associates(Heard(net, all, a, now), Heard(net, all, init, now), heard);
    }
  }

  lemma {:induction false} RoundHeard(t: Table, net: Network, all: Trace, round: nat, picks: seq<Node>, now: int)
    requires |t.buckets| == NUM_BUCKETS
    ensures TableAfter(t, net, round, picks, AskedBy(all, round), now)
         == Run(t, Heard(net, all, Tag(round, picks), now))
    decreases picks
  {
    hide Step, AskedBy, Unqueried, AddAll;
    if picks != [] {
      var init, last := picks[..|picks| - 1], picks[|picks| - 1];
      var asked, tag := AskedBy(all, round), Tag(round, picks);
      RoundHeard(t, net, all, round, init, now);
      assert tag[..|tag| - 1] == Tag(round, init) && tag[|tag| - 1] == (round, last);
      var before := TableAfter(t, net, round, init, asked, now);
      var reply := net(round, last);
      LastHeard(before, reply, last.id, asked, now);
      RunAppend(t, Heard(net, all, Tag(round, init), now), Effect(reply, last.id, asked, now));
    }
  }

  lemma LastHeard(t: Table, reply: Reply, from: NodeId, asked: set<NodeId>, now: int)
    requires |t.buckets| == NUM_BUCKETS
    ensures Run(t, Effect(reply, from, asked, now)) ==
            if reply.Failed? then Step(t, Routing.MarkFailed(from, now)) else AddAll(t, NodesIn(reply), asked, now)
  {
    hide Step;
    AddAllIs(t, NodesIn(reply), asked, now);
    assert Unqueried([], asked) == [];
    if reply.Failed? {
      StepLength(t, Routing.MarkFailed(from, now));
      assert [Routing.MarkFailed(from, now)][1..] == [];
    }
  }

  lemma {:induction false} RestHeard(net: Network, target: NodeId, round: nat, toQuery: seq<Node>, trace: Trace,
                                     t: Table, now: int) returns (later: Trace)
    requires |t.buckets| == NUM_BUCKETS && forall e :: e in trace ==> e.0 < round
    ensures var all := Continue(net, target, round, toQuery, trace);
      && all == trace + later
      && FinalTable(net, target, round, toQuery, trace, t, now) == Run(t, Heard(net, all, later, now))
    decreases MAX_ITERATIONS - round
  {
    hide NotFarther, Select, SortBy, NewNodes, AllPeers, Heard, TableAfter, Step, AskedBy;
    var all := Continue(net, target, round, toQuery, trace);
    var picks := Select(SortBy(toQuery, NotFarther(target)), Ids(trace), ALPHA);
    var tag := Tag(round, picks);
    var trace' := trace + tag;
    NothingHeard(net, all, now);
    if round >= MAX_ITERATIONS || toQuery == [] || picks == [] {
      later := [];
    } else {
      RoundHeard(t, net, all, round, picks, now);
      if |AllPeers(net, trace')| >= ENOUGH_PEERS {
        later := tag;
        AskedIs(trace', [], round);
        assert trace' + [] == all;
      } else {
        var t' := TableAfter(t, net, round, picks, Ids(trace'), now);
        var more := RestHeard(net, target, round + 1, NewNodes(net, round, picks, Ids(trace')), trace', t', now);
        var added := ContinueAdds(net, target, round + 1, NewNodes(net, round, picks, Ids(trace')), trace');
        assert added == more by { SameTail(trace', added, more); }
        AskedIs(trace', more, round);
        later := tag + more;
        assert trace + (tag + more) == trace' + more;
        HeardJoin(net, all, tag, more, now);
        RunAppend(t, Heard(net, all, tag, now), Heard(net, all, more, now));
      }
    }
  }

  lemma SameTail<T>(a: seq<T>, b: seq<T>, c: seq<T>)
    requires a + b == a + c
    ensures b == c
  {
    assert b == (a + b)[|a|..] == c;
  }

  lemma NothingHeard(net: Network, all: Trace, now: int)
    ensures Heard(net, all, [], now) == []
  {
  }

  lemma AskedIs(trace: Trace, later: Trace, round: nat)
    requires (forall e :: e in trace ==> e.0 <= round) && forall e :: e in later ==> e.0 > round
    ensures AskedBy(trace + later, round) == Ids(trace)
  {
  }

  /** The table at the end of a lookup is the one it began with, told of every query in turn. */
  lemma TableHearsReplies(net: Network, target: NodeId, initial: seq<Node>, t: Table, now: int)
    requires |t.buckets| == NUM_BUCKETS
    ensures var trace := LookupTrace(net, target, initial);
      FinalTable(net, target, 0, initial, [], t, now) == Run(t, Heard(net, trace, trace, now))
  {
    var later := RestHeard(net, target, 0, initial, [], t, now);
    assert [] + later == later;
  }
}
