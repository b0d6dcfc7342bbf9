/** What a KRPC message becomes when it is encoded and parsed. */
module DhtRoundTrip {
  import opened Prelude
  import opened Text
  import opened BencodeFormat
  import opened BTree
  import opened BencodeTheorems
  import opened DhtMessage

  /** Every string fits the decoder's limit, the code is an `i64`, texts are UTF-8. */
  predicate WireSized(m: Message) {
    && |m.transactionId| <= MAX_STRING_LENGTH
    && (m.query.Some? ==> |m.query.value.0| <= MAX_STRING_LENGTH && IsUtf8(m.query.value.0)
                          && (m.query.value.1.AnnounceQuery? ==> |m.query.value.1.token| <= MAX_STRING_LENGTH))
    && match m.response
       case Some(FindNodeResponse(_, nodes)) => |CompactNodes(nodes)| <= MAX_STRING_LENGTH
       case Some(GetPeersResponse(_, token, _, closer)) =>
         |token| <= MAX_STRING_LENGTH && (closer.Some? ==> |CompactNodes(closer.value)| <= MAX_STRING_LENGTH)
       case Some(ErrorResponse(code, message)) =>
         I64_MIN <= code <= I64_MAX && |message| <= MAX_STRING_LENGTH && IsUtf8(message)
       case _ => true
  }

  function QueryName(query: Query): Bytes {
    match query
    case PingQuery => NAME_PING
    case FindNodeQuery(_) => NAME_FIND_NODE
    case GetPeersQuery(_) => NAME_GET_PEERS
    case AnnounceQuery(_, _, _, _) => NAME_ANNOUNCE
  }

  /** What survives the wire: IPv6 contacts do not, an announce reply reads as a ping reply. */
  function OnWire(response: Response): Response {
    match response
    case FindNodeResponse(id, nodes) => FindNodeResponse(id, OnlyV4Nodes(nodes))
    case GetPeersResponse(id, token, peers, closer) =>
      GetPeersResponse(id, token,
        if peers.Some? then Some(OnlyV4Peers(peers.value)) else None,
        if closer.Some? then Some(OnlyV4Nodes(closer.value)) else None)
    case AnnounceResponse(id) => PingResponse(id)
    case other => other
  }

  /** The query that the arguments of `query` stand for under the name `name`. */
  function ReadAs(name: Bytes, query: Query): Result<Query, DhtError> {
    if name == NAME_PING then Ok(PingQuery)
    else if name == NAME_FIND_NODE then
      if query.FindNodeQuery? then Ok(query) else Err(Invalid(MissingTarget))
    else if name == NAME_GET_PEERS then
      if query.GetPeersQuery? || query.AnnounceQuery? then Ok(GetPeersQuery(query.infoHash))
      else Err(Invalid(MissingInfoHash))
    else if name == NAME_ANNOUNCE then
      if query.AnnounceQuery? then Ok(query)
      else if query.GetPeersQuery? then Err(Invalid(MissingPort))
      else Err(Invalid(MissingInfoHash))
    else Err(Invalid(UnknownQuery))
  }

  function Received(m: Message): Result<Message, DhtError> {
    match m.response
    case Some(ErrorResponse(_, _)) => Ok(Message(m.transactionId, None, None, m.response))
    case Some(response) => Ok(Message(m.transactionId, Some(response.id), None, Some(OnWire(response))))
    case None =>
      if m.query.None? then Err(Invalid(MissingType))
      else
        var (name, query) := m.query.value;
        match ReadAs(name, query)
        case Ok(read) => Ok(m.(query := Some((name, read))))
        case Err(e) => Err(e)
  }

  lemma PortRoundTrip(port: Port)
    ensures PortOf(PortBytes(port)[0], PortBytes(port)[1]) == port
  {
  }

  lemma CompactRoundTrip(c: Contact)
    requires c.addr.V4?
    ensures |ToCompact(c).value| == 26 && FromCompact(ToCompact(c).value) == c
  {
  }

  lemma {:induction false} NodesRoundTrip(nodes: seq<Contact>)
    ensures ParseNodes(CompactNodes(nodes)) == OnlyV4Nodes(nodes)
  {
    hide ToCompact, FromCompact;
    if nodes != [] {
      NodesRoundTrip(nodes[1..]);
      if nodes[0].addr.V4? {
        CompactSome(nodes[0]);
        CompactRoundTrip(nodes[0]);
        var b, rest := ToCompact(nodes[0]).value, CompactNodes(nodes[1..]);
        assert (b + rest)[..26] == b && (b + rest)[26..] == rest;
      } else {
        CompactSome(nodes[0]);
      }
    }
  }

  lemma CompactSome(c: Contact)
    ensures ToCompact(c).Some? <==> c.addr.V4?
  {
  }

  lemma {:induction false} PeersRoundTrip(peers: seq<Addr>)
    ensures ParsePeers(CompactPeers(peers)) == OnlyV4Peers(peers)
  {
    if peers != [] {
      PeersRoundTrip(peers[1..]);
      if peers[0].V4? {
        PortRoundTrip(peers[0].port);
        var b, rest := peers[0].ip + PortBytes(peers[0].port), CompactPeers(peers[1..]);
        assert b[..4] == peers[0].ip;
        var items := [Str(b)] + rest;
        assert items[0] == Str(b) && items[1..] == rest;
      }
    }
  }

  lemma {:induction false} PeersFit(peers: seq<Addr>, depth: nat)
    requires depth < MAX_NESTING_DEPTH
    ensures FitsItems(CompactPeers(peers), depth)
  {
    if peers != [] {
      PeersFit(peers[1..], depth);
      var items := CompactPeers(peers);
      if peers[0].V4? {
        assert items[1..] == CompactPeers(peers[1..]);
      }
    }
  }

  lemma ArgsFit(m: Message)
    requires WireSized(m) && m.query.Some?
    ensures FitsEntries(ArgsOf(m.senderId, m.query.value.1), None, 1)
  {
    hide Insert, LessEq;
    var query := m.query.value.1;
    var args := if m.senderId.Some? then Insert([], KEY_ID, Str(m.senderId.value)) else [];
    if m.senderId.Some? {
      InsertFits([], None, 1, KEY_ID, Str(m.senderId.value));
    }
    match query
    case PingQuery =>
    case FindNodeQuery(target) => InsertFits(args, None, 1, KEY_TARGET, Str(target));
    case GetPeersQuery(h) => InsertFits(args, None, 1, KEY_INFO_HASH, Str(h));
    case AnnounceQuery(h, port, token, implied) =>
      InsertFits(args, None, 1, KEY_INFO_HASH, Str(h));
      var args1 := Insert(args, KEY_INFO_HASH, Str(h));
      InsertFits(args1, None, 1, KEY_PORT, Integer(port));
      var args2 := Insert(args1, KEY_PORT, Integer(port));
      InsertFits(args2, None, 1, KEY_TOKEN, Str(token));
      InsertFits(Insert(args2, KEY_TOKEN, Str(token)), None, 1, KEY_IMPLIED_PORT, Integer(1));
  }

  lemma RespFit(m: Message)
    requires WireSized(m) && m.response.Some? && !m.response.value.ErrorResponse?
    ensures FitsEntries(RespOf(m.response.value), None, 1)
  {
    hide Insert, LessEq, CompactNodes, CompactPeers;
    var response := m.response.value;
    var resp := Insert([], KEY_ID, Str(response.id));
    InsertFits([], None, 1, KEY_ID, Str(response.id));
    if response.FindNodeResponse? {
      InsertFits(resp, None, 1, KEY_NODES, Str(CompactNodes(response.nodes)));
    } else if response.GetPeersResponse? {
      InsertFits(resp, None, 1, KEY_TOKEN, Str(response.token));
      var resp1 := Insert(resp, KEY_TOKEN, Str(response.token));
      var resp2 := resp1;
      if response.peers.Some? {
        PeersFit(response.peers.value, 2);
        InsertFits(resp1, None, 1, KEY_VALUES, List(CompactPeers(response.peers.value)));
        resp2 := Insert(resp1, KEY_VALUES, List(CompactPeers(response.peers.value)));
      }
      if response.closer.Some? {
        InsertFits(resp2, None, 1, KEY_NODES, Str(CompactNodes(response.closer.value)));
      }
    }
  }

  lemma ErrorFits(code: int, message: Bytes)
    requires I64_MIN <= code <= I64_MAX && |message| <= MAX_STRING_LENGTH
    ensures Fits(List([Integer(code), Str(message)]), 1)
  {
    var items := [Integer(code), Str(message)];
    assert FitsItems([], 1) && Fits(items[1], 2);
    assert items[1..] == [Str(message)] && items[1..][1..] == [];
    assert FitsItems(items[1..], 1);
  }

  lemma QueryPartFits(m: Message)
    requires WireSized(m)
    ensures FitsEntries(EntriesOf(m.(response := None)), None, 0)
  {
    hide Insert, LessEq, ArgsOf;
    var dict := Insert([], KEY_T, Str(m.transactionId));
    InsertFits([], None, 0, KEY_T, Str(m.transactionId));
    if m.query.Some? {
      var (name, query) := m.query.value;
      ArgsFit(m);
      InsertFits(dict, None, 0, KEY_Y, Str(KEY_Q));
      var dict1 := Insert(dict, KEY_Y, Str(KEY_Q));
      InsertFits(dict1, None, 0, KEY_Q, Str(name));
      InsertFits(Insert(dict1, KEY_Q, Str(name)), None, 0, KEY_A, Dict(ArgsOf(m.senderId, query)));
    }
  }

  lemma MessageFits(m: Message)
    requires WireSized(m)
    ensures Fits(Dict(EntriesOf(m)), 0)
  {
    hide Insert, LessEq, ArgsOf, RespOf;
    var dict := EntriesOf(m.(response := None));
    QueryPartFits(m);
    if m.response.Some? {
      match m.response.value {
        case ErrorResponse(code, message) =>
          ErrorFits(code, message);
          InsertFits(dict, None, 0, KEY_Y, Str(KEY_E));
          InsertFits(Insert(dict, KEY_Y, Str(KEY_E)), None, 0, KEY_E, List([Integer(code), Str(message)]));
        case response =>
          RespFit(m);
          InsertFits(dict, None, 0, KEY_Y, Str(KEY_R));
          InsertFits(Insert(dict, KEY_Y, Str(KEY_R)), None, 0, KEY_R, Dict(RespOf(response)));
      }
    }
  }

  /** Lookup after one insertion, for every key. */
  lemma FindAll(entries: seq<Entry>, key: Bytes, value: Value)
    ensures forall other ::
      Find(Insert(entries, key, value), other) == if other == key then Some(value) else Find(entries, other)
  {
  }

  lemma FindNone()
    ensures forall other :: Find([], other) == None
  {
  }

  /** The lookups the parser makes in an encoded query, whatever name it goes by. */
  lemma ArgsParse(name: Bytes, senderId: Option<Id>, query: Query)
    ensures AsId(Find(ArgsOf(senderId, query), KEY_ID)) == senderId
    ensures ParseArgs(name, ArgsOf(senderId, query)) == ReadAs(name, query)
  {
    hide Insert, Find;
    var args := if senderId.Some? then Insert([], KEY_ID, Str(senderId.value)) else [];
    FindNone();
    if senderId.Some? {
      FindAll([], KEY_ID, Str(senderId.value));
    }
    match query
    case PingQuery =>
    case FindNodeQuery(target) => FindAll(args, KEY_TARGET, Str(target));
    case GetPeersQuery(h) => FindAll(args, KEY_INFO_HASH, Str(h));
    case AnnounceQuery(h, port, token, implied) =>
      var args1 := Insert(args, KEY_INFO_HASH, Str(h));
      var args2 := Insert(args1, KEY_PORT, Integer(port));
      var args3 := Insert(args2, KEY_TOKEN, Str(token));
      FindAll(args, KEY_INFO_HASH, Str(h));
      FindAll(args1, KEY_PORT, Integer(port));
      FindAll(args2, KEY_TOKEN, Str(token));
      FindAll(args3, KEY_IMPLIED_PORT, Integer(1));
  }

  lemma RespParse(response: Response)
    requires !response.ErrorResponse?
    ensures AsId(Find(RespOf(response), KEY_ID)) == Some(response.id)
    ensures ResponseOf(response.id, RespOf(response)) == OnWire(response)
  {
    hide Insert, Find, CompactNodes, CompactPeers, ParseNodes, ParsePeers, OnlyV4Nodes, OnlyV4Peers;
    var resp := Insert([], KEY_ID, Str(response.id));
    FindNone();
    FindAll([], KEY_ID, Str(response.id));
    if response.FindNodeResponse? {
      FindAll(resp, KEY_NODES, Str(CompactNodes(response.nodes)));
      NodesRoundTrip(response.nodes);
    } else if response.GetPeersResponse? {
      FindAll(resp, KEY_TOKEN, Str(response.token));
      var resp1 := Insert(resp, KEY_TOKEN, Str(response.token));
      var resp2 := resp1;
      if response.peers.Some? {
        FindAll(resp1, KEY_VALUES, List(CompactPeers(response.peers.value)));
        resp2 := Insert(resp1, KEY_VALUES, List(CompactPeers(response.peers.value)));
        PeersRoundTrip(response.peers.value);
      }
      if response.closer.Some? {
        FindAll(resp2, KEY_NODES, Str(CompactNodes(response.closer.value)));
        NodesRoundTrip(response.closer.value);
      }
    }
  }

  lemma WordsAreUtf8()
    ensures IsUtf8(KEY_Q) && IsUtf8(KEY_R) && IsUtf8(KEY_E)
    ensures IsUtf8(NAME_PING) && IsUtf8(NAME_FIND_NODE) && IsUtf8(NAME_GET_PEERS) && IsUtf8(NAME_ANNOUNCE)
  {
    hide IsUtf8;
    AsciiIsUtf8(KEY_Q);
    AsciiIsUtf8(KEY_R);
    AsciiIsUtf8(KEY_E);
    AsciiIsUtf8(NAME_PING);
    AsciiIsUtf8(NAME_FIND_NODE);
    AsciiIsUtf8(NAME_GET_PEERS);
    AsciiIsUtf8(NAME_ANNOUNCE);
  }

  lemma QueryEntriesParse(m: Message)
    requires m.query.Some?
    ensures var dict := EntriesOf(m.(response := None));
      && Find(dict, KEY_T) == Some(Str(m.transactionId)) && Find(dict, KEY_Y) == Some(Str(KEY_Q))
      && Find(dict, KEY_Q) == Some(Str(m.query.value.0))
      && Find(dict, KEY_A) == Some(Dict(ArgsOf(m.senderId, m.query.value.1)))
  {
    hide Insert, Find, ArgsOf;
    var (name, query) := m.query.value;
    var dict := Insert([], KEY_T, Str(m.transactionId));
    var dict1 := Insert(dict, KEY_Y, Str(KEY_Q));
    FindAll([], KEY_T, Str(m.transactionId));
    FindAll(dict, KEY_Y, Str(KEY_Q));
    FindAll(dict1, KEY_Q, Str(name));
    FindAll(Insert(dict1, KEY_Q, Str(name)), KEY_A, Dict(ArgsOf(m.senderId, query)));
  }

  lemma TransactionIdKept(m: Message)
    ensures Find(EntriesOf(m.(response := None)), KEY_T) == Some(Str(m.transactionId))
    ensures m.query.None? ==> Find(EntriesOf(m.(response := None)), KEY_Y) == None
  {
    if m.query.Some? {
      QueryEntriesParse(m);
    } else {
      FindNone();
      FindAll([], KEY_T, Str(m.transactionId));
    }
  }

  lemma ResponseEntriesParse(m: Message)
    requires m.response.Some?
    ensures var dict := EntriesOf(m);
      && Find(dict, KEY_T) == Some(Str(m.transactionId))
      && (m.response.value.ErrorResponse? ==>
            Find(dict, KEY_Y) == Some(Str(KEY_E)) &&
            Find(dict, KEY_E) == Some(List([Integer(m.response.value.code), Str(m.response.value.message)])))
      && (!m.response.value.ErrorResponse? ==>
            Find(dict, KEY_Y) == Some(Str(KEY_R)) && Find(dict, KEY_R) == Some(Dict(RespOf(m.response.value))))
  {
    hide Insert, Find, RespOf;
    var dict := EntriesOf(m.(response := None));
    TransactionIdKept(m);
    var response := m.response.value;
    if response.ErrorResponse? {
      FindAll(dict, KEY_Y, Str(KEY_E));
      FindAll(Insert(dict, KEY_Y, Str(KEY_E)), KEY_E, List([Integer(response.code), Str(response.message)]));
    } else {
      FindAll(dict, KEY_Y, Str(KEY_R));
      FindAll(Insert(dict, KEY_Y, Str(KEY_R)), KEY_R, Dict(RespOf(response)));
    }
  }

  /**
   What the receiver reads of any message: the query its name and arguments stand
   for; a response without its IPv6 contacts, an announce reply as a ping reply; an
   error for a message with neither.
   */
  lemma ParseEncode(m: Message)
    requires WireSized(m)
    ensures ParseMessage(Print(Dict(EntriesOf(m)))) == Received(m)
  {
    hide EntriesOf, IsUtf8, ResponseOf, RespOf, ArgsOf, ParseArgs, OnWire, WireSized, Print, Fits, ReadAs;
    MessageFits(m);
    DecodeEncode(Dict(EntriesOf(m)));
    WordsAreUtf8();
    TextsAreUtf8(m);
    if m.response.Some? {
      ResponseEntriesParse(m);
      if !m.response.value.ErrorResponse? {
        RespParse(m.response.value);
      }
    } else {
      TransactionIdKept(m);
      assert m.(response := None) == m;
      if m.query.Some? {
        QueryEntriesParse(m);
        ArgsParse(m.query.value.0, m.senderId, m.query.value.1);
      }
    }
  }

  lemma TextsAreUtf8(m: Message)
    requires WireSized(m)
    ensures m.response.Some? && m.response.value.ErrorResponse? ==> IsUtf8(m.response.value.message)
    ensures m.query.Some? ==> IsUtf8(m.query.value.0)
  {
  }

  // -------------------------------------------------- messages that come back whole

  ghost predicate AllV4Nodes(nodes: seq<Contact>) {
    forall c :: c in nodes ==> c.addr.V4?
  }

  ghost predicate AllV4Peers(peers: seq<Addr>) {
    forall a :: a in peers ==> a.V4?
  }

  /**
   Either a query under its own name, or a response, other than to an announce, with
   only IPv4 contacts and from the node that the message names as its sender.
   */
  ghost predicate SurvivesWire(m: Message) {
    if m.response.None? then m.query.Some? && m.query.value.0 == QueryName(m.query.value.1)
    else
      && m.query.None?
      && match m.response.value
         case PingResponse(id) => m.senderId == Some(id)
         case FindNodeResponse(id, nodes) => m.senderId == Some(id) && AllV4Nodes(nodes)
         case GetPeersResponse(id, _, peers, closer) =>
           && m.senderId == Some(id)
           && (peers.Some? ==> AllV4Peers(peers.value)) && (closer.Some? ==> AllV4Nodes(closer.value))
         case AnnounceResponse(_) => false
         case ErrorResponse(_, _) => m.senderId == None
  }

  lemma {:induction false} OnlyV4NodesIff(nodes: seq<Contact>)
    ensures |OnlyV4Nodes(nodes)| <= |nodes| && (OnlyV4Nodes(nodes) == nodes <==> AllV4Nodes(nodes))
  {
    if nodes != [] {
      OnlyV4NodesIff(nodes[1..]);
      assert nodes == [nodes[0]] + nodes[1..];
      assert AllV4Nodes(nodes) <==> nodes[0].addr.V4? && AllV4Nodes(nodes[1..]);
      if nodes[0].addr.V4? {
        assert OnlyV4Nodes(nodes)[1..] == OnlyV4Nodes(nodes[1..]);
      }
    }
  }

  lemma {:induction false} OnlyV4PeersIff(peers: seq<Addr>)
    ensures |OnlyV4Peers(peers)| <= |peers| && (OnlyV4Peers(peers) == peers <==> AllV4Peers(peers))
  {
    if peers != [] {
      OnlyV4PeersIff(peers[1..]);
      assert peers == [peers[0]] + peers[1..];
      assert AllV4Peers(peers) <==> peers[0].V4? && AllV4Peers(peers[1..]);
      if peers[0].V4? {
        assert OnlyV4Peers(peers)[1..] == OnlyV4Peers(peers[1..]);
      }
    }
  }

  lemma OnWireIff(response: Response)
    ensures OnWire(response) == response <==>
      match response
      case FindNodeResponse(_, nodes) => AllV4Nodes(nodes)
      case GetPeersResponse(_, _, peers, closer) =>
        (peers.Some? ==> AllV4Peers(peers.value)) && (closer.Some? ==> AllV4Nodes(closer.value))
      case AnnounceResponse(_) => false
      case _ => true
  {
    match response
    case FindNodeResponse(_, nodes) => OnlyV4NodesIff(nodes);
    case GetPeersResponse(_, _, peers, closer) =>
      if peers.Some? { OnlyV4PeersIff(peers.value); }
      if closer.Some? { OnlyV4NodesIff(closer.value); }
    case _ =>
  }

  lemma ReadAsIff(name: Bytes, query: Query)
    ensures ReadAs(name, query) == Ok(query) <==> name == QueryName(query)
  {
  }

  /** The round trip gives a message back if and only if it survives the wire. */
  lemma RoundTripIff(m: Message)
    requires WireSized(m)
    ensures ParseMessage(Print(Dict(EntriesOf(m)))) == Ok(m) <==> SurvivesWire(m)
  {
    ParseEncode(m);
    if m.response.Some? {
      OnWireIff(m.response.value);
    } else if m.query.Some? {
      ReadAsIff(m.query.value.0, m.query.value.1);
    }
    hide ParseMessage, EntriesOf, Print, WireSized, OnWire, ReadAs, QueryName, AllV4Nodes, AllV4Peers;
  }

  /** A reply to an announce is read as a reply to a ping. */
  lemma AnnounceReplyReadsAsPing(transactionId: Bytes, id: Id)
    requires |transactionId| <= MAX_STRING_LENGTH
    ensures var reply := Message(transactionId, Some(id), None, Some(AnnounceResponse(id)));
      ParseMessage(Print(Dict(EntriesOf(reply)))) == Ok(reply.(response := Some(PingResponse(id))))
  {
    ParseEncode(Message(transactionId, Some(id), None, Some(AnnounceResponse(id))));
  }
}
