/** The connected peers of one torrent and the choke round over them. */
module Choking {
  import opened Prelude
  import opened Sequences
  import opened Sorting
  import opened ChokePolicy

  class PeerTable {
    var peers: map<Addr, PeerInfo>
    var unchoked: set<Addr>
    var optimistic: Option<Addr>

    function View(): Swarm
      reads this
    {
      Swarm(peers, unchoked, optimistic)
    }

    ghost predicate Valid()
      reads this
    {
      SwarmInv(View())
    }

    constructor ()
      ensures View() == EMPTY && Valid()
    {
      peers, unchoked, optimistic := map[], {}, None;
    }

    method Connect(addr: Addr)
      requires Valid()
      modifies this
      ensures Valid() && View() == Step(old(View()), Event.Connected(addr))
    {
      StepKeepsInv(View(), Event.Connected(addr));
      peers := peers[addr := NEW_PEER];
    }

    method Disconnect(addr: Addr)
      requires Valid()
      modifies this
      ensures Valid() && View() == Step(old(View()), Event.Disconnected(addr))
    {
      StepKeepsInv(View(), Event.Disconnected(addr));
      peers := peers - {addr};
      unchoked := unchoked - {addr};
    }

    method ReceiveBlock(addr: Addr, size: nat)
      requires Valid()
      modifies this
      ensures Valid() && View() == Step(old(View()), Event.BlockReceived(addr, size))
    {
      StepKeepsInv(View(), Event.BlockReceived(addr, size));
      if addr in peers {
        peers := peers[addr := peers[addr].(down := peers[addr].down + size)];
      }
    }

    method SendBlock(addr: Addr, size: nat)
      requires Valid()
      modifies this
      ensures Valid() && View() == Step(old(View()), Event.BlockSent(addr, size))
    {
      StepKeepsInv(View(), Event.BlockSent(addr, size));
      if addr in peers {
        peers := peers[addr := peers[addr].(up := peers[addr].up + size)];
      }
    }

    method UpdateState(addr: Addr, interested: bool)
      requires Valid()
      modifies this
      ensures Valid() && View() == Step(old(View()), Event.PeerState(addr, interested))
    {
      StepKeepsInv(View(), Event.PeerState(addr, interested));
      if addr in peers {
        peers := peers[addr := peers[addr].(interested := interested)];
      }
    }

    /** Pausing, moving and stopping drop all peers, but not the optimistic choice. */
    method Clear()
      requires Valid()
      modifies this
      ensures Valid() && View() == Step(old(View()), Event.Cleared)
    {
      StepKeepsInv(View(), Event.Cleared);
      peers, unchoked := map[], {};
    }

    /** Ranks the interested peers by the bytes of this window. */
    method CollectInterested(complete: bool, order: seq<Addr>) returns (r: seq<Rank>)
      requires Valid() && Visits(order, peers)
      ensures r == Candidates(peers, complete, order)
    {
      hide Candidates, NoDup;
      r := [];
      assert order[0..] == order;
      for i := 0 to |order|
        invariant r + Candidates(peers, complete, order[i..]) == Candidates(peers, complete, order)
      {
        CandidatesStep(peers, complete, order, i, r);
        var info := peers[order[i]];
        if info.interested {
          // The subtraction does not underflow: the windows never pass the counters.
          assert info.WindowOk();
          var metric: nat := if complete then info.up - info.windowUp else info.down - info.windowDown;
          r := r + [(order[i], metric)];
        }
      }
      assert order[|order|..] == [];
      CandidatesNone(peers, complete, r);
    }

    method StartWindow(order: seq<Addr>)
      requires Visits(order, peers)
      modifies this`peers
      ensures peers == NewWindows(old(peers))
    {
      ghost var before := peers;
      for i := 0 to |order|
        invariant peers.Keys == before.Keys
        invariant forall k :: 0 <= k < i ==> peers[order[k]] == before[order[k]].NextWindow()
        invariant forall k :: i <= k < |order| ==> peers[order[k]] == before[order[k]]
      {
        var info := peers[order[i]];
        peers := peers[order[i] := info.(windowDown := info.down, windowUp := info.up)];
      }
      assert forall a :: a in before ==> a in order;
      assert peers == NewWindows(before);
    }

    /** Divides the ranking between the regular slots and the candidates for the last one. */
    method DivideSlots(sorted: seq<Rank>) returns (newUnchoked: set<Addr>, remaining: seq<Addr>)
      ensures newUnchoked == (set a | a in Regular(Addrs(sorted))) && remaining == Remaining(Addrs(sorted))
    {
      ghost var ranked := Addrs(sorted);
      var n := Min(MAX_UNCHOKED_PEERS - 1, |sorted|);
      newUnchoked, remaining := {}, [];
      for i := 0 to n
        invariant newUnchoked == set a | a in ranked[..i]
      {
        assert ranked[..i + 1] == ranked[..i] + [ranked[i]];
        newUnchoked := newUnchoked + {sorted[i].0};
      }
      for i := n to |sorted|
        invariant remaining == ranked[n..i]
      {
        assert ranked[n..i + 1] == ranked[n..i] + [ranked[i]];
        remaining := remaining + [sorted[i].0];
      }
    }

    /** Keeps or replaces the optimistic peer and hands out the slots. */
    method PlaceOptimistic(regular: set<Addr>, remaining: seq<Addr>, rotate: bool, random: nat)
      modifies this`optimistic, this`unchoked
      ensures optimistic == NextOptimistic(old(optimistic), remaining, rotate, random)
      ensures unchoked == regular + OptionSet(optimistic)
    {
      var stillValid := optimistic.Some? && optimistic.value in remaining;
      if rotate || !stillValid {
        optimistic := if remaining == [] then None else Some(remaining[random % |remaining|]);
      }
      unchoked := regular;
      if optimistic.Some? {
        unchoked := unchoked + {optimistic.value};
      }
    }

    /**
     One choke round. `order` is the iteration order of the peer table, `random` the
     hashed clock reading.
     */
    method RunChokingAlgorithm(complete: bool, order: seq<Addr>, rotate: bool, random: nat)
      requires Valid() && Visits(order, peers)
      modifies this
      ensures Valid() && View() == Step(old(View()), Event.ChokeRound(complete, order, rotate, random))
    {
      StepKeepsInv(View(), Event.ChokeRound(complete, order, rotate, random));
      RoundParts(View(), complete, order, rotate, random);
      hide SwarmInv, Candidates, SortBy, NewWindows, Visits, MoreBytes, Addrs, Regular, Remaining, NextOptimistic;
      hide OptionSet, Round, Ranked, Step, Enabled;
      var interested := CollectInterested(complete, order);
      var regular, remaining := DivideSlots(SortBy(interested, MoreBytes()));
      PlaceOptimistic(regular, remaining, rotate, random);
      StartWindow(order);
    }
  }

  lemma RoundParts(s: Swarm, complete: bool, order: seq<Addr>, rotate: bool, random: nat)
    requires forall a :: a in order ==> a in s.peers
    ensures var ranked := Addrs(SortBy(Candidates(s.peers, complete, order), MoreBytes()));
      var optimistic := NextOptimistic(s.optimistic, Remaining(ranked), rotate, random);
      Step(s, ChokeRound(complete, order, rotate, random))
        == Swarm(NewWindows(s.peers), (set a | a in Regular(ranked)) + OptionSet(optimistic), optimistic)
  {
  }

  lemma CandidatesNone(peers: map<Addr, PeerInfo>, complete: bool, r: seq<Rank>)
    ensures r + Candidates(peers, complete, []) == r
  {
  }

  lemma CandidatesStep(peers: map<Addr, PeerInfo>, complete: bool, order: seq<Addr>, i: nat, r: seq<Rank>)
    requires i < |order| && forall a :: a in order ==> a in peers
    ensures var info, rest := peers[order[i]], Candidates(peers, complete, order[i + 1..]);
      r + Candidates(peers, complete, order[i..])
        == if info.interested then (r + [(order[i], info.Metric(complete))]) + rest else r + rest
  {
    assert order[i..][0] == order[i] && order[i..][1..] == order[i + 1..];
    if peers[order[i]].interested {
      Associates(r, [(order[i], peers[order[i]].Metric(complete))], Candidates(peers, complete, order[i + 1..]));
    }
  }
}
