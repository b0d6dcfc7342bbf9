/** KRPC messages of the distributed hash table (BEP 5, "KRPC Protocol"). */
module DhtMessage {
  import opened Prelude
  import opened Text
  import opened BencodeFormat
  import opened BTree
  import opened BencodeEncoder

  type Id = b: Bytes | |b| == 20 witness seq(20, _ => 0 as byte)
  type Ip4 = b: Bytes | |b| == 4 witness [0, 0, 0, 0]
  type Ip6 = b: Bytes | |b| == 16 witness seq(16, _ => 0 as byte)
  type Port = x: int | 0 <= x < 65536

  datatype Addr = V4(ip: Ip4, port: Port) | V6(ip6: Ip6, port6: Port)

  datatype Contact = Contact(id: Id, addr: Addr)

  datatype Query =
    | PingQuery
    | FindNodeQuery(target: Id)
    | GetPeersQuery(infoHash: Id)
    | AnnounceQuery(infoHash: Id, port: Port, token: Bytes, impliedPort: bool)

  datatype Response =
    | PingResponse(id: Id)
    | FindNodeResponse(id: Id, nodes: seq<Contact>)
    | GetPeersResponse(id: Id, token: Bytes, peers: Option<seq<Addr>>, closer: Option<seq<Contact>>)
    | AnnounceResponse(id: Id)
    | ErrorResponse(code: int, message: Bytes)

  datatype Message = Message(transactionId: Bytes, senderId: Option<Id>, query: Option<(Bytes, Query)>,
                             response: Option<Response>)

  datatype Reason =
    | ExpectedDict | MissingTransactionId | MissingType | UnknownType | MissingQueryName | MissingQueryArgs
    | MissingTarget | MissingInfoHash | MissingPort | MissingToken | UnknownQuery
    | MissingResponse | MissingId | MissingErrorList

  datatype DhtError = Undecodable(error: DecodeError) | Invalid(reason: Reason)

  // The keys and words of the protocol, in ASCII.
  const KEY_A: Bytes := [97]                                                      // a
  const KEY_E: Bytes := [101]                                                     // e
  const KEY_Q: Bytes := [113]                                                     // q
  const KEY_R: Bytes := [114]                                                     // r
  const KEY_T: Bytes := [116]                                                     // t
  const KEY_Y: Bytes := [121]                                                     // y
  const KEY_ID: Bytes := [105, 100]                                               // id
  const KEY_TARGET: Bytes := [116, 97, 114, 103, 101, 116]                        // target
  const KEY_INFO_HASH: Bytes := [105, 110, 102, 111, 95, 104, 97, 115, 104]       // info_hash
  const KEY_PORT: Bytes := [112, 111, 114, 116]                                   // port
  const KEY_TOKEN: Bytes := [116, 111, 107, 101, 110]                             // token
  const KEY_IMPLIED_PORT: Bytes := [105, 109, 112, 108, 105, 101, 100, 95, 112, 111, 114, 116]  // implied_port
  const KEY_NODES: Bytes := [110, 111, 100, 101, 115]                             // nodes
  const KEY_VALUES: Bytes := [118, 97, 108, 117, 101, 115]                        // values
  const NAME_PING: Bytes := [112, 105, 110, 103]                                  // ping
  const NAME_FIND_NODE: Bytes := [102, 105, 110, 100, 95, 110, 111, 100, 101]     // find_node
  const NAME_GET_PEERS: Bytes := [103, 101, 116, 95, 112, 101, 101, 114, 115]     // get_peers
  const NAME_ANNOUNCE: Bytes := [97, 110, 110, 111, 117, 110, 99, 101, 95, 112, 101, 101, 114]  // announce_peer
  const UNKNOWN_ERROR: Bytes := [117, 110, 107, 110, 111, 119, 110, 32, 101, 114, 114, 111, 114]  // unknown error

  // ------------------------------------------------------------- compact forms

  function PortBytes(port: Port): Bytes {
    [(port / 256) as byte, (port % 256) as byte]
  }

  function PortOf(hi: byte, lo: byte): Port {
    256 * (hi as int) + lo as int
  }

  function ToCompact(c: Contact): Option<Bytes> {
    match c.addr
    case V4(ip, port) => Some(c.id + ip + PortBytes(port))
    case V6(_, _) => None
  }

  function FromCompact(b: Bytes): Contact
    requires |b| == 26
  {
    Contact(b[..20], V4(b[20..24], PortOf(b[24], b[25])))
  }

  /** The compact forms of the IPv4 contacts, one after another. */
  function CompactNodes(nodes: seq<Contact>): Bytes {
    if nodes == [] then []
    else
      match ToCompact(nodes[0])
      case Some(b) => b + CompactNodes(nodes[1..])
      case None => CompactNodes(nodes[1..])
  }

  /** `chunks_exact(26)`, each read as a contact. */
  function ParseNodes(b: Bytes): seq<Contact> {
    if |b| < 26 then [] else [FromCompact(b[..26])] + ParseNodes(b[26..])
  }

  function OnlyV4Nodes(nodes: seq<Contact>): seq<Contact> {
    if nodes == [] then []
    else if nodes[0].addr.V4? then [nodes[0]] + OnlyV4Nodes(nodes[1..])
    else OnlyV4Nodes(nodes[1..])
  }

  function CompactPeers(peers: seq<Addr>): seq<Value> {
    if peers == [] then []
    else
      match peers[0]
      case V4(ip, port) => [Str(ip + PortBytes(port))] + CompactPeers(peers[1..])
      case V6(_, _) => CompactPeers(peers[1..])
  }

  function ParsePeers(items: seq<Value>): seq<Addr> {
    if items == [] then []
    else if items[0].Str? && |items[0].bytes| == 6 then
      var b := items[0].bytes;
      [V4(b[..4], PortOf(b[4], b[5]))] + ParsePeers(items[1..])
    else ParsePeers(items[1..])
  }

  function OnlyV4Peers(peers: seq<Addr>): seq<Addr> {
    if peers == [] then []
    else if peers[0].V4? then [peers[0]] + OnlyV4Peers(peers[1..])
    else OnlyV4Peers(peers[1..])
  }

  // -------------------------------------------------------------------- parsing

  function AsBytes(v: Option<Value>): Option<Bytes> {
    match v case Some(Str(b)) => Some(b) case _ => None
  }

  function AsStr(v: Option<Value>): Option<Bytes> {
    match v case Some(Str(b)) => if IsUtf8(b) then Some(b) else None case _ => None
  }

  function AsInteger(v: Option<Value>): Option<int> {
    match v case Some(Integer(i)) => Some(i) case _ => None
  }

  function AsList(v: Option<Value>): Option<seq<Value>> {
    match v case Some(List(items)) => Some(items) case _ => None
  }

  function AsDict(v: Option<Value>): Option<seq<Entry>> {
    match v case Some(Dict(entries)) => Some(entries) case _ => None
  }

  function AsId(v: Option<Value>): Option<Id> {
    match AsBytes(v) case Some(b) => if |b| == 20 then Some(b) else None case None => None
  }

  function ParseMessage(data: Bytes): Result<Message, DhtError> {
    match Decode(data)
    case Err(e) => Err(Undecodable(e))
    case Ok(v) => ParseTop(v)
  }

  function ParseTop(v: Value): Result<Message, DhtError> {
    match AsDict(Some(v))
    case None => Err(Invalid(ExpectedDict))
    case Some(dict) =>
      match AsBytes(Find(dict, KEY_T))
      case None => Err(Invalid(MissingTransactionId))
      case Some(tid) =>
        match AsStr(Find(dict, KEY_Y))
        case None => Err(Invalid(MissingType))
        case Some(y) =>
          if y == KEY_Q then ParseQuery(tid, dict)
          else if y == KEY_R then ParseResponse(tid, dict)
          else if y == KEY_E then ParseError(tid, dict)
          else Err(Invalid(UnknownType))
  }

  function ParseQuery(tid: Bytes, dict: seq<Entry>): Result<Message, DhtError> {
    match AsStr(Find(dict, KEY_Q))
    case None => Err(Invalid(MissingQueryName))
    case Some(name) =>
      match AsDict(Find(dict, KEY_A))
      case None => Err(Invalid(MissingQueryArgs))
      case Some(args) =>
        match ParseArgs(name, args)
        case Err(e) => Err(e)
        case Ok(query) => Ok(Message(tid, AsId(Find(args, KEY_ID)), Some((name, query)), None))
  }

  function ParseArgs(name: Bytes, args: seq<Entry>): Result<Query, DhtError> {
    if name == NAME_PING then Ok(PingQuery)
    else if name == NAME_FIND_NODE then
      match AsId(Find(args, KEY_TARGET))
      case None => Err(Invalid(MissingTarget))
      case Some(target) => Ok(FindNodeQuery(target))
    else if name == NAME_GET_PEERS then
      match AsId(Find(args, KEY_INFO_HASH))
      case None => Err(Invalid(MissingInfoHash))
      case Some(h) => Ok(GetPeersQuery(h))
    else if name == NAME_ANNOUNCE then
      match AsId(Find(args, KEY_INFO_HASH))
      case None => Err(Invalid(MissingInfoHash))
      case Some(h) =>
        match AsInteger(Find(args, KEY_PORT))
        case None => Err(Invalid(MissingPort))
        case Some(port) =>
          match AsBytes(Find(args, KEY_TOKEN))
          case None => Err(Invalid(MissingToken))
          case Some(token) =>
            // the port is truncated to 16 bits
            Ok(AnnounceQuery(h, port % 65536, token, AsInteger(Find(args, KEY_IMPLIED_PORT)) == Some(1)))
    else Err(Invalid(UnknownQuery))
  }

  function ParseResponse(tid: Bytes, dict: seq<Entry>): Result<Message, DhtError> {
    match AsDict(Find(dict, KEY_R))
    case None => Err(Invalid(MissingResponse))
    case Some(resp) =>
      match AsId(Find(resp, KEY_ID))
      case None => Err(Invalid(MissingId))
      case Some(id) => Ok(Message(tid, Some(id), None, Some(ResponseOf(id, resp))))
  }

  /** The kind of a response follows from the keys it has. */
  function ResponseOf(id: Id, resp: seq<Entry>): Response {
    var nodes := match AsBytes(Find(resp, KEY_NODES)) case Some(b) => Some(ParseNodes(b)) case None => None;
    var peers := match AsList(Find(resp, KEY_VALUES)) case Some(items) => Some(ParsePeers(items)) case None => None;
    var token := AsBytes(Find(resp, KEY_TOKEN));
    if peers.Some? then GetPeersResponse(id, if token.Some? then token.value else [], peers, nodes)
    else if token.Some? then GetPeersResponse(id, token.value, None, nodes)
    else if nodes.Some? then FindNodeResponse(id, nodes.value)
    else PingResponse(id)
  }

  function ParseError(tid: Bytes, dict: seq<Entry>): Result<Message, DhtError> {
    match AsList(Find(dict, KEY_E))
    case None => Err(Invalid(MissingErrorList))
    case Some(items) =>
      var code := AsInteger(if |items| > 0 then Some(items[0]) else None);
      var message := AsStr(if |items| > 1 then Some(items[1]) else None);
      Ok(Message(tid, None, None, Some(ErrorResponse(if code.Some? then code.value else 0,
                                                      if message.Some? then message.value else UNKNOWN_ERROR))))
  }

  // ------------------------------------------------------------------- encoding

  function ArgsOf(senderId: Option<Id>, query: Query): seq<Entry> {
    var args := if senderId.Some? then Insert([], KEY_ID, Str(senderId.value)) else [];
    match query
    case PingQuery => args
    case FindNodeQuery(target) => Insert(args, KEY_TARGET, Str(target))
    case GetPeersQuery(h) => Insert(args, KEY_INFO_HASH, Str(h))
    case AnnounceQuery(h, port, token, implied) =>
      var full := Insert(Insert(Insert(args, KEY_INFO_HASH, Str(h)), KEY_PORT, Integer(port)), KEY_TOKEN, Str(token));
      if implied then Insert(full, KEY_IMPLIED_PORT, Integer(1)) else full
  }

  function RespOf(response: Response): seq<Entry>
    requires !response.ErrorResponse?
  {
    var resp := Insert([], KEY_ID, Str(response.id));
    match response
    case FindNodeResponse(_, nodes) => Insert(resp, KEY_NODES, Str(CompactNodes(nodes)))
    case GetPeersResponse(_, token, peers, closer) =>
      var resp1 := Insert(resp, KEY_TOKEN, Str(token));
      var resp2 := if peers.Some? then Insert(resp1, KEY_VALUES, List(CompactPeers(peers.value))) else resp1;
      if closer.Some? then Insert(resp2, KEY_NODES, Str(CompactNodes(closer.value))) else resp2
    case _ => resp
  }

  function EntriesOf(m: Message): seq<Entry> {
    var dict := Insert([], KEY_T, Str(m.transactionId));
    var dict1 :=
      if m.query.Some? then
        var (name, query) := m.query.value;
        Insert(Insert(Insert(dict, KEY_Y, Str(KEY_Q)), KEY_Q, Str(name)), KEY_A, Dict(ArgsOf(m.senderId, query)))
      else dict;
    match m.response
    case None => dict1
    case Some(ErrorResponse(code, message)) =>
      Insert(Insert(dict1, KEY_Y, Str(KEY_E)), KEY_E, List([Integer(code), Str(message)]))
    case Some(response) =>
      Insert(Insert(dict1, KEY_Y, Str(KEY_R)), KEY_R, Dict(RespOf(response)))
  }

  lemma {:induction false} PeersSorted(peers: seq<Addr>)
    ensures SortedItems(CompactPeers(peers))
  {
    if peers != [] {
      PeersSorted(peers[1..]);
      if peers[0].V4? {
        assert CompactPeers(peers)[1..] == CompactPeers(peers[1..]);
      }
    }
  }

  lemma ArgsSorted(senderId: Option<Id>, query: Query)
    ensures SortedEntries(ArgsOf(senderId, query), None)
  {
    hide Insert;
    var args := if senderId.Some? then Insert([], KEY_ID, Str(senderId.value)) else [];
    if senderId.Some? {
      InsertSorted([], None, KEY_ID, Str(senderId.value));
    }
    match query
    case PingQuery =>
    case FindNodeQuery(target) => InsertSorted(args, None, KEY_TARGET, Str(target));
    case GetPeersQuery(h) => InsertSorted(args, None, KEY_INFO_HASH, Str(h));
    case AnnounceQuery(h, port, token, implied) =>
      InsertSorted(args, None, KEY_INFO_HASH, Str(h));
      var args1 := Insert(args, KEY_INFO_HASH, Str(h));
      InsertSorted(args1, None, KEY_PORT, Integer(port));
      var args2 := Insert(args1, KEY_PORT, Integer(port));
      InsertSorted(args2, None, KEY_TOKEN, Str(token));
      InsertSorted(Insert(args2, KEY_TOKEN, Str(token)), None, KEY_IMPLIED_PORT, Integer(1));
  }

  lemma RespSorted(response: Response)
    requires !response.ErrorResponse?
    ensures SortedEntries(RespOf(response), None)
  {
    hide Insert, CompactNodes, CompactPeers;
    var resp := Insert([], KEY_ID, Str(response.id));
    InsertSorted([], None, KEY_ID, Str(response.id));
    if response.FindNodeResponse? {
      InsertSorted(resp, None, KEY_NODES, Str(CompactNodes(response.nodes)));
    } else if response.GetPeersResponse? {
      InsertSorted(resp, None, KEY_TOKEN, Str(response.token));
      var resp1 := Insert(resp, KEY_TOKEN, Str(response.token));
      var resp2 := resp1;
      if response.peers.Some? {
        PeersSorted(response.peers.value);
        InsertSorted(resp1, None, KEY_VALUES, List(CompactPeers(response.peers.value)));
        resp2 := Insert(resp1, KEY_VALUES, List(CompactPeers(response.peers.value)));
      }
      if response.closer.Some? {
        InsertSorted(resp2, None, KEY_NODES, Str(CompactNodes(response.closer.value)));
      }
    }
  }

  lemma ErrorSorted(code: int, message: Bytes)
    ensures Sorted(List([Integer(code), Str(message)]))
  {
    var items := [Integer(code), Str(message)];
    assert items[1..] == [Str(message)] && items[1..][1..] == [];
    assert Sorted(items[0]) && Sorted(items[1]);
    assert SortedItems(items[1..]) && SortedItems(items);
  }

  lemma QueryPartSorted(m: Message)
    ensures SortedEntries(EntriesOf(m.(response := None)), None)
  {
    hide Insert, ArgsOf;
    var dict := Insert([], KEY_T, Str(m.transactionId));
    InsertSorted([], None, KEY_T, Str(m.transactionId));
    if m.query.Some? {
      var (name, query) := m.query.value;
      ArgsSorted(m.senderId, query);
      InsertSorted(dict, None, KEY_Y, Str(KEY_Q));
      var dict1 := Insert(dict, KEY_Y, Str(KEY_Q));
      InsertSorted(dict1, None, KEY_Q, Str(name));
      InsertSorted(Insert(dict1, KEY_Q, Str(name)), None, KEY_A, Dict(ArgsOf(m.senderId, query)));
    }
  }

  /** No message makes the encoder fail. */
  lemma MessageSorted(m: Message)
    ensures Sorted(Dict(EntriesOf(m)))
  {
    hide Insert, ArgsOf, RespOf;
    var dict := EntriesOf(m.(response := None));
    QueryPartSorted(m);
    if m.response.Some? {
      match m.response.value {
        case ErrorResponse(code, message) =>
          ErrorSorted(code, message);
          InsertSorted(dict, None, KEY_Y, Str(KEY_E));
          InsertSorted(Insert(dict, KEY_Y, Str(KEY_E)), None, KEY_E, List([Integer(code), Str(message)]));
        case response =>
          RespSorted(response);
          InsertSorted(dict, None, KEY_Y, Str(KEY_R));
          InsertSorted(Insert(dict, KEY_Y, Str(KEY_R)), None, KEY_R, Dict(RespOf(response)));
      }
    }
  }

  /** Fills the nested maps step by step and encodes the result. */
  method Encode(m: Message) returns (r: Result<Bytes, EncodeError>)
    ensures r == Ok(Print(Dict(EntriesOf(m))))
  {
    hide Insert;
    var dict := Insert([], KEY_T, Str(m.transactionId));
    if m.query.Some? {
      var (name, query) := m.query.value;
      dict := Insert(dict, KEY_Y, Str(KEY_Q));
      dict := Insert(dict, KEY_Q, Str(name));
      var args := [];
      if m.senderId.Some? {
        args := Insert(args, KEY_ID, Str(m.senderId.value));
      }
      match query {
        case PingQuery =>
        case FindNodeQuery(target) =>
          args := Insert(args, KEY_TARGET, Str(target));
        case GetPeersQuery(h) =>
          args := Insert(args, KEY_INFO_HASH, Str(h));
        case AnnounceQuery(h, port, token, implied) =>
          args := Insert(args, KEY_INFO_HASH, Str(h));
          args := Insert(args, KEY_PORT, Integer(port));
          args := Insert(args, KEY_TOKEN, Str(token));
          if implied {
            args := Insert(args, KEY_IMPLIED_PORT, Integer(1));
          }
      }
      dict := Insert(dict, KEY_A, Dict(args));
    }
    if m.response.Some? {
      var response := m.response.value;
      if response.ErrorResponse? {
        dict := Insert(dict, KEY_Y, Str(KEY_E));
        dict := Insert(dict, KEY_E, List([Integer(response.code), Str(response.message)]));
      } else {
        dict := Insert(dict, KEY_Y, Str(KEY_R));
        var resp := Insert([], KEY_ID, Str(response.id));
        if response.FindNodeResponse? {
          resp := Insert(resp, KEY_NODES, Str(CompactNodes(response.nodes)));
        } else if response.GetPeersResponse? {
          resp := Insert(resp, KEY_TOKEN, Str(response.token));
          if response.peers.Some? {
            resp := Insert(resp, KEY_VALUES, List(CompactPeers(response.peers.value)));
          }
          if response.closer.Some? {
            resp := Insert(resp, KEY_NODES, Str(CompactNodes(response.closer.value)));
          }
        }
        dict := Insert(dict, KEY_R, Dict(resp));
      }
    }
    assert dict == EntriesOf(m);
    MessageSorted(m);
    r := BencodeEncoder.Encode(Dict(dict));
  }
}
