/**
 The choke round: which peers may download from us. Peers are ranked by the bytes
 moved since the previous round; one slot goes to an optimistic choice. The
 iteration order of the peer table and the random number are parameters.
 */
module ChokePolicy {
  import opened Prelude
  import opened Sequences
  import opened Sorting

  const MAX_UNCHOKED_PEERS := 4
  const REGULAR_SLOTS := 3

  type Addr = string

  datatype PeerInfo = PeerInfo(down: nat, up: nat, windowDown: nat, windowUp: nat, interested: bool) {
    /** Bytes since the last round. The source subtracts unsigned numbers. */
    function Metric(complete: bool): int {
      if complete then up - windowUp else down - windowDown
    }

    function NextWindow(): PeerInfo { this.(windowDown := down, windowUp := up) }

    predicate WindowOk() { windowDown <= down && windowUp <= up }
  }

  const NEW_PEER := PeerInfo(0, 0, 0, 0, false)

  datatype Swarm = Swarm(peers: map<Addr, PeerInfo>, unchoked: set<Addr>, optimistic: Option<Addr>)

  const EMPTY := Swarm(map[], {}, None)

  // ------------------------------------------------------------------- one round

  type Rank = (Addr, int)

  function MoreBytes(): (Rank, Rank) -> bool {
    (a: Rank, b: Rank) => a.1 >= b.1
  }

  function Candidates(peers: map<Addr, PeerInfo>, complete: bool, order: seq<Addr>): seq<Rank>
    requires forall a :: a in order ==> a in peers
  {
    if order == [] then []
    else
      var info, rest := peers[order[0]], Candidates(peers, complete, order[1..]);
      if info.interested then [(order[0], info.Metric(complete))] + rest else rest
  }

  function Addrs(ranks: seq<Rank>): (r: seq<Addr>)
    ensures |r| == |ranks| && forall i :: 0 <= i < |r| ==> r[i] == ranks[i].0
  {
    seq(|ranks|, i requires 0 <= i < |ranks| => ranks[i].0)
  }

  /** The interested peers, most bytes first. */
  function Ranked(peers: map<Addr, PeerInfo>, complete: bool, order: seq<Addr>): seq<Addr>
    requires forall a :: a in order ==> a in peers
  {
    Addrs(SortBy(Candidates(peers, complete, order), MoreBytes()))
  }

  function Regular(ranked: seq<Addr>): seq<Addr> { ranked[..Min(REGULAR_SLOTS, |ranked|)] }

  function Remaining(ranked: seq<Addr>): seq<Addr> { ranked[Min(REGULAR_SLOTS, |ranked|)..] }

  function NextOptimistic(current: Option<Addr>, remaining: seq<Addr>, rotate: bool, random: nat): Option<Addr> {
    if !rotate && current.Some? && current.value in remaining then current
    else if remaining == [] then None
    else Some(remaining[random % |remaining|])
  }

  function OptionSet(o: Option<Addr>): set<Addr> {
    if o.Some? then {o.value} else {}
  }

  function NewWindows(peers: map<Addr, PeerInfo>): map<Addr, PeerInfo> {
    map a | a in peers :: peers[a].NextWindow()
  }

  function Round(s: Swarm, complete: bool, order: seq<Addr>, rotate: bool, random: nat): Swarm
    requires forall a :: a in order ==> a in s.peers
  {
    var ranked := Ranked(s.peers, complete, order);
    var optimistic := NextOptimistic(s.optimistic, Remaining(ranked), rotate, random);
    Swarm(NewWindows(s.peers), (set a | a in Regular(ranked)) + OptionSet(optimistic), optimistic)
  }

  // -------------------------------------------------------- what a round achieves

  /** `order` visits every peer once. */
  ghost predicate Visits(order: seq<Addr>, peers: map<Addr, PeerInfo>) {
    NoDup(order) && forall a :: a in order <==> a in peers
  }

  ghost function InterestedIn(peers: map<Addr, PeerInfo>): set<Addr> {
    set a | a in peers && peers[a].interested
  }

  lemma {:induction false} CandidatesAre(peers: map<Addr, PeerInfo>, complete: bool, order: seq<Addr>)
    requires NoDup(order) && forall a :: a in order ==> a in peers
    ensures var r := Candidates(peers, complete, order);
      && NoDup(Addrs(r))
      && (forall e :: e in r <==> e.0 in order && peers[e.0].interested && e.1 == peers[e.0].Metric(complete))
  {
    if order != [] {
      var rest := order[1..];
      assert NoDup(rest) && order[0] !in rest;
      CandidatesAre(peers, complete, rest);
      var more := Candidates(peers, complete, rest);
      assert forall i :: 0 <= i < |more| ==> more[i] in more;
    }
  }

  /** The ranking lists each interested peer once, in decreasing order of its metric. */
  lemma RankedIsOrdered(peers: map<Addr, PeerInfo>, complete: bool, order: seq<Addr>)
    requires Visits(order, peers)
    ensures var r := Ranked(peers, complete, order);
      && NoDup(r) && (forall a :: a in r <==> a in InterestedIn(peers))
      && (forall i, j :: 0 <= i < j < |r| ==>
            r[i] in peers && r[j] in peers && peers[r[i]].Metric(complete) >= peers[r[j]].Metric(complete))
  {
    hide Candidates, SortBy;
    var c, le := Candidates(peers, complete, order), MoreBytes();
    CandidatesAre(peers, complete, order);
    var sorted := SortBy(c, le);
    SortByMultiset(c, le);
    SortByMembers(c, le);
    SortByOrdered(c, le);
    assert NoDup(c) by {
      forall i, j | 0 <= i < j < |c| ensures c[i] != c[j] { assert Addrs(c)[i] != Addrs(c)[j]; }
    }
    NoDupPermuted(c, sorted);
    var r := Addrs(sorted);
    forall i | 0 <= i < |r| ensures sorted[i] in c && r[i] == sorted[i].0 && r[i] in InterestedIn(peers) {
    }
    forall i, j | 0 <= i < j < |r| ensures r[i] != r[j] {
      assert sorted[i] in c && sorted[j] in c;
    }
    forall a | a in InterestedIn(peers) ensures a in r {
      var e := (a, peers[a].Metric(complete));
      assert e in c && e in sorted;
      var i :| 0 <= i < |sorted| && sorted[i] == e;
      assert r[i] == a;
    }
    forall i, j | 0 <= i < j < |r| ensures peers[r[i]].Metric(complete) >= peers[r[j]].Metric(complete) {
      assert sorted[i] in c && sorted[j] in c && le(sorted[i], sorted[j]);
    }
  }

  /**
   The slots of a duplicate-free ranking: the regular peers come before the
   remaining ones, and together they are all of it.
   */
  lemma SlotsSplit(ranked: seq<Addr>)
    requires NoDup(ranked)
    ensures var first, rest := (set a | a in Regular(ranked)), (set a | a in Remaining(ranked));
      && first !! rest && first + rest == (set a | a in ranked)
      && |first| == Min(|ranked|, REGULAR_SLOTS) && |first + rest| == |ranked|
  {
    var n := Min(REGULAR_SLOTS, |ranked|);
    var first, rest := Regular(ranked), Remaining(ranked);
    NoDupCardinality(ranked);
    NoDupCardinality(first);
    assert ranked == first + rest;
    forall i, j | 0 <= i < |first| && 0 <= j < |rest| ensures first[i] != rest[j] {
      assert ranked[i] != ranked[n + j];
    }
  }

  lemma RegularMovedMore(ranked: seq<Addr>, metric: map<Addr, int>, a: Addr, b: Addr)
    requires forall i, j :: 0 <= i < j < |ranked| ==>
      ranked[i] in metric && ranked[j] in metric && metric[ranked[i]] >= metric[ranked[j]]
    requires a in Regular(ranked) && b in Remaining(ranked)
    ensures a in metric && b in metric && metric[a] >= metric[b]
  {
  }

  ghost function RegularPeers(s: Swarm, complete: bool, order: seq<Addr>): set<Addr>
    requires forall a :: a in order ==> a in s.peers
  {
    set a | a in Regular(Ranked(s.peers, complete, order))
  }

  ghost function RemainingPeers(s: Swarm, complete: bool, order: seq<Addr>): set<Addr>
    requires forall a :: a in order ==> a in s.peers
  {
    set a | a in Remaining(Ranked(s.peers, complete, order))
  }

  /** The regular and the remaining peers are the interested ones. */
  lemma InterestedSplit(s: Swarm, complete: bool, order: seq<Addr>)
    requires Visits(order, s.peers)
    ensures var interested := InterestedIn(s.peers);
      var regular, rest := RegularPeers(s, complete, order), RemainingPeers(s, complete, order);
      && regular !! rest && regular + rest == interested && |interested| == |regular| + |rest|
      && |regular| == Min(|interested|, REGULAR_SLOTS)
  {
    var ranked := Ranked(s.peers, complete, order);
    RankedIsOrdered(s.peers, complete, order);
    assert (set a | a in ranked) == InterestedIn(s.peers);
    SlotsSplit(ranked);
    NoDupCardinality(ranked);
  }

  lemma RegularAreFastest(s: Swarm, complete: bool, order: seq<Addr>, a: Addr, b: Addr)
    requires Visits(order, s.peers)
    requires a in RegularPeers(s, complete, order) && b in RemainingPeers(s, complete, order)
    ensures a in s.peers && b in s.peers && s.peers[a].Metric(complete) >= s.peers[b].Metric(complete)
  {
    RankedIsOrdered(s.peers, complete, order);
    hide Ranked, Regular, Remaining, Visits, InterestedIn;
    RegularMovedMore(Ranked(s.peers, complete, order), map k | k in s.peers :: s.peers[k].Metric(complete), a, b);
  }

  lemma NextOptimisticRemains(current: Option<Addr>, remaining: seq<Addr>, rotate: bool, random: nat)
    ensures var next := NextOptimistic(current, remaining, rotate, random);
      && (next.Some? <==> remaining != []) && (next.Some? ==> next.value in remaining)
      && (!rotate && current.Some? && current.value in remaining ==> next == current)
  {
  }

  /** The optimistic peer is one of the remaining ones, if there are any. */
  lemma OptimisticRemains(s: Swarm, complete: bool, order: seq<Addr>, rotate: bool, random: nat)
    requires forall a :: a in order ==> a in s.peers
    ensures var rest, s' := RemainingPeers(s, complete, order), Round(s, complete, order, rotate, random);
      && OptionSet(s'.optimistic) <= rest && (s'.optimistic.Some? <==> rest != {})
      && s'.unchoked == RegularPeers(s, complete, order) + OptionSet(s'.optimistic)
      && (!rotate && s.optimistic.Some? && s.optimistic.value in rest ==> s'.optimistic == s.optimistic)
  {
    hide Ranked, Regular, Remaining, NewWindows, NextOptimistic;
    var remaining := Remaining(Ranked(s.peers, complete, order));
    NextOptimisticRemains(s.optimistic, remaining, rotate, random);
    assert remaining != [] ==> remaining[0] in RemainingPeers(s, complete, order);
  }

  /**
   After a round exactly min(interested, 4) peers are unchoked, all of them
   interested: at most three regular ones, and one other if more are interested.
   */
  lemma RoundFillsSlots(s: Swarm, complete: bool, order: seq<Addr>, rotate: bool, random: nat)
    requires Visits(order, s.peers)
    ensures var interested, s' := InterestedIn(s.peers), Round(s, complete, order, rotate, random);
      var regular := RegularPeers(s, complete, order);
      && s'.unchoked <= interested && |s'.unchoked| == Min(|interested|, 4)
      && s'.unchoked == regular + OptionSet(s'.optimistic) && OptionSet(s'.optimistic) !! regular
      && |regular| == Min(|interested|, 3) && (s'.optimistic.Some? <==> |interested| > 3)
  {
    InterestedSplit(s, complete, order);
    OptimisticRemains(s, complete, order, rotate, random);
    hide RegularPeers, RemainingPeers, Round, InterestedIn;
    var s' := Round(s, complete, order, rotate, random);
    var regular, rest := RegularPeers(s, complete, order), RemainingPeers(s, complete, order);
    assert rest == {} <==> |rest| == 0;
    OneMore(regular, s'.optimistic);
    hide OptionSet;
  }

  lemma OneMore(regular: set<Addr>, o: Option<Addr>)
    requires OptionSet(o) !! regular
    ensures |regular + OptionSet(o)| == |regular| + if o.Some? then 1 else 0
  {
  }

  /**
   No interested peer without a regular slot moved more bytes than one with it, and
   between rotations the optimistic peer keeps its place while it is a candidate.
   */
  lemma RoundRewardsFastest(s: Swarm, complete: bool, order: seq<Addr>, rotate: bool, random: nat)
    requires Visits(order, s.peers)
    ensures var interested, s' := InterestedIn(s.peers), Round(s, complete, order, rotate, random);
      var regular := RegularPeers(s, complete, order);
      && (forall a, b :: a in regular && b in interested - regular ==>
            a in s.peers && b in s.peers && s.peers[a].Metric(complete) >= s.peers[b].Metric(complete))
      && (!rotate && s.optimistic.Some? && s.optimistic.value in interested - regular ==> s'.optimistic == s.optimistic)
  {
    InterestedSplit(s, complete, order);
    OptimisticRemains(s, complete, order, rotate, random);
    hide RegularPeers, RemainingPeers, Round, InterestedIn;
    var regular, rest := RegularPeers(s, complete, order), RemainingPeers(s, complete, order);
    assert InterestedIn(s.peers) - regular == rest;
    forall a, b | a in regular && b in rest
      ensures a in s.peers && b in s.peers && s.peers[a].Metric(complete) >= s.peers[b].Metric(complete)
    {
      RegularAreFastest(s, complete, order, a, b);
    }
  }

  /**
   A rotation, or the loss of the optimistic peer, gives its slot to the peer that the
   random number points at among those ranked behind the first three.
   */
  lemma RotationPicks(s: Swarm, complete: bool, order: seq<Addr>, rotate: bool, random: nat)
    requires Visits(order, s.peers)
    ensures var ranked, s' := Ranked(s.peers, complete, order), Round(s, complete, order, rotate, random);
      var stays := !rotate && s.optimistic.Some? && exists i :: 3 <= i < |ranked| && ranked[i] == s.optimistic.value;
      s'.optimistic == if stays then s.optimistic
                       else if |ranked| <= 3 then None
                       else Some(ranked[3 + random % (|ranked| - 3)])
  {
    hide Ranked;
    var ranked := Ranked(s.peers, complete, order);
    var rest := Remaining(ranked);
    assert forall i :: 0 <= i < |rest| ==> rest[i] == ranked[3 + i];
    if s.optimistic.Some? && s.optimistic.value in rest {
      var i :| 0 <= i < |rest| && rest[i] == s.optimistic.value;
      assert ranked[3 + i] == s.optimistic.value;
    } else {
      forall i | 3 <= i < |ranked|
        ensures s.optimistic.Some? ==> ranked[i] != s.optimistic.value
      {
        assert rest[i - 3] == ranked[i];
      }
    }
  }

  // ---------------------------------------------------------------- runs of events

  datatype Event =
    | Connected(addr: Addr)
    | Disconnected(addr: Addr)
    | BlockReceived(addr: Addr, size: nat)
    | BlockSent(addr: Addr, size: nat)
    | PeerState(addr: Addr, interested: bool)
    | Cleared
    | ChokeRound(complete: bool, order: seq<Addr>, rotate: bool, random: nat)

  ghost predicate Enabled(s: Swarm, ev: Event) {
    ev.ChokeRound? ==> Visits(ev.order, s.peers)
  }

  function Update(s: Swarm, a: Addr, info: PeerInfo): Swarm {
    if a in s.peers then s.(peers := s.peers[a := info]) else s
  }

  function Step(s: Swarm, ev: Event): Swarm
    requires ev.ChokeRound? ==> forall a :: a in ev.order ==> a in s.peers
  {
    match ev
    case Connected(a) => s.(peers := s.peers[a := NEW_PEER])
    case Disconnected(a) => s.(peers := s.peers - {a}, unchoked := s.unchoked - {a})
    case BlockReceived(a, size) => if a in s.peers then Update(s, a, s.peers[a].(down := s.peers[a].down + size)) else s
    case BlockSent(a, size) => if a in s.peers then Update(s, a, s.peers[a].(up := s.peers[a].up + size)) else s
    case PeerState(a, interested) => if a in s.peers then Update(s, a, s.peers[a].(interested := interested)) else s
    case Cleared => s.(peers := map[], unchoked := {})
    case ChokeRound(complete, order, rotate, random) => Round(s, complete, order, rotate, random)
  }

  ghost predicate Possible(s: Swarm, events: seq<Event>)
    decreases events
  {
    events == [] || (Enabled(s, events[0]) && Possible(Step(s, events[0]), events[1..]))
  }

  ghost function Run(s: Swarm, events: seq<Event>): Swarm
    requires Possible(s, events)
    decreases events
  {
    if events == [] then s else Run(Step(s, events[0]), events[1..])
  }

  /** No window counter passes its byte counter, and at most 4 connected peers are unchoked. */
  ghost predicate SwarmInv(s: Swarm) {
    && (forall a :: a in s.peers ==> s.peers[a].WindowOk())
    && s.unchoked <= s.peers.Keys && |s.unchoked| <= MAX_UNCHOKED_PEERS
  }

  lemma RoundKeepsInv(s: Swarm, complete: bool, order: seq<Addr>, rotate: bool, random: nat)
    requires Visits(order, s.peers)
    ensures SwarmInv(Round(s, complete, order, rotate, random))
  {
    RoundFillsSlots(s, complete, order, rotate, random);
    hide Ranked, Regular, Remaining, NextOptimistic, RegularPeers, OptionSet, Visits;
    var s' := Round(s, complete, order, rotate, random);
    assert InterestedIn(s.peers) <= s'.peers.Keys;
  }

  lemma UpdateKeepsInv(s: Swarm, a: Addr, info: PeerInfo)
    requires SwarmInv(s) && (a in s.peers ==> info.WindowOk())
    ensures SwarmInv(Update(s, a, info))
  {
    assert a in s.peers ==> s.peers[a := info].Keys == s.peers.Keys;
  }

  lemma PeersComeAndGo(s: Swarm, a: Addr)
    requires SwarmInv(s)
    ensures SwarmInv(Step(s, Connected(a))) && SwarmInv(Step(s, Disconnected(a))) && SwarmInv(Step(s, Cleared))
  {
    assert s.unchoked == (s.unchoked - {a}) + (s.unchoked * {a});
  }

  lemma StepKeepsInv(s: Swarm, ev: Event)
    requires SwarmInv(s) && Enabled(s, ev)
    ensures SwarmInv(Step(s, ev))
  {
    match ev
    case Connected(a) => PeersComeAndGo(s, a);
    case Disconnected(a) => PeersComeAndGo(s, a);
    case Cleared => PeersComeAndGo(s, "");
    case BlockReceived(a, size) =>
      if a in s.peers { UpdateKeepsInv(s, a, s.peers[a].(down := s.peers[a].down + size)); }
    case BlockSent(a, size) =>
      if a in s.peers { UpdateKeepsInv(s, a, s.peers[a].(up := s.peers[a].up + size)); }
    case PeerState(a, interested) =>
      if a in s.peers { UpdateKeepsInv(s, a, s.peers[a].(interested := interested)); }
    case ChokeRound(complete, order, rotate, random) => RoundKeepsInv(s, complete, order, rotate, random);
  }

  /** In every reachable state the metric subtracts the smaller counter from the larger. */
  lemma {:induction false} RunKeepsInv(s: Swarm, events: seq<Event>)
    requires SwarmInv(s) && Possible(s, events)
    ensures SwarmInv(Run(s, events))
    ensures forall a, complete :: a in Run(s, events).peers ==> Run(s, events).peers[a].Metric(complete) >= 0
    decreases events
  {
    hide Step;
    if events != [] {
      StepKeepsInv(s, events[0]);
      RunKeepsInv(Step(s, events[0]), events[1..]);
    }
  }

  // ------------------------------------------------------ what the metric measures

  /** The bytes that the events move to (or from) peer `a`. */
  function Moved(events: seq<Event>, a: Addr, complete: bool): nat {
    if events == [] then 0
    else
      (if complete && events[0].BlockSent? && events[0].addr == a then events[0].size
       else if !complete && events[0].BlockReceived? && events[0].addr == a then events[0].size
       else 0) + Moved(events[1..], a, complete)
  }

  /** `a` stays connected and no round runs. */
  predicate WithinWindow(events: seq<Event>, a: Addr) {
    forall ev :: ev in events ==>
      !ev.ChokeRound? && !ev.Cleared? && !((ev.Connected? || ev.Disconnected?) && ev.addr == a)
  }

  lemma {:induction false} MetricGrows(s: Swarm, events: seq<Event>, a: Addr, complete: bool)
    requires a in s.peers && WithinWindow(events, a) && Possible(s, events)
    ensures var s' := Run(s, events);
      a in s'.peers && s'.peers[a].Metric(complete) == s.peers[a].Metric(complete) + Moved(events, a, complete)
    decreases events
  {
    if events != [] {
      assert events[0] in events;
      MetricGrows(Step(s, events[0]), events[1..], a, complete);
    }
  }

  /** A round ranks a peer by exactly the bytes moved since the round before. */
  lemma MetricIsBytesSinceRound(s: Swarm, complete: bool, order: seq<Addr>, rotate: bool, random: nat,
                                events: seq<Event>, a: Addr, metric: bool)
    requires a in s.peers && Visits(order, s.peers)
    requires WithinWindow(events, a) && Possible(Round(s, complete, order, rotate, random), events)
    ensures var s' := Run(Round(s, complete, order, rotate, random), events);
      a in s'.peers && s'.peers[a].Metric(metric) == Moved(events, a, metric)
  {
    MetricGrows(Round(s, complete, order, rotate, random), events, a, metric);
  }
}
