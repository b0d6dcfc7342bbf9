/**
 The KRPC messages as bytes on the wire, in literal text (BEP 5, "KRPC Protocol"). Each
 lemma gives the encoding of one kind of message and says that it parses back.
 */
module DhtWire {
  import opened Prelude
  import opened Text
  import opened BencodeFormat
  import opened BTree
  import opened WireText
  import opened DhtMessage
  import opened DhtRoundTrip

  // ------------------------------------------------------- keys, words, numerals

  lemma Keys()
    ensures KEY_A == Lit("a") && KEY_E == Lit("e") && KEY_Q == Lit("q") && KEY_R == Lit("r")
    ensures KEY_T == Lit("t") && KEY_Y == Lit("y") && KEY_ID == Lit("id") && KEY_PORT == Lit("port")
    ensures KEY_TARGET == Lit("target") && KEY_TOKEN == Lit("token") && KEY_NODES == Lit("nodes")
  {
  }

  lemma LongKeys()
    ensures KEY_VALUES == Lit("values") && KEY_INFO_HASH == Lit("info_hash")
    ensures KEY_IMPLIED_PORT == Lit("implied_port") && UNKNOWN_ERROR == Lit("unknown error")
  {
  }

  lemma Names()
    ensures NAME_PING == Lit("ping") && NAME_FIND_NODE == Lit("find_node")
    ensures NAME_GET_PEERS == Lit("get_peers") && NAME_ANNOUNCE == Lit("announce_peer")
  {
  }

  lemma Numerals()
    ensures ToDecimal(1) == Lit("1") && ToDecimal(2) == Lit("2") && ToDecimal(4) == Lit("4")
    ensures ToDecimal(5) == Lit("5") && ToDecimal(6) == Lit("6") && ToDecimal(9) == Lit("9")
    ensures ToDecimal(12) == Lit("12") && ToDecimal(13) == Lit("13") && ToDecimal(20) == Lit("20")
  {
    assert ToDecimal(12) == [DigitChar(1)] + [DigitChar(2)] && ToDecimal(13) == [DigitChar(1)] + [DigitChar(3)];
    assert ToDecimal(20) == [DigitChar(2)] + [DigitChar(0)];
  }

  /** A constant string, by its length in decimal and its letters. */
  lemma LitPrinted(length: string, letters: string)
    requires ToDecimal(|letters|) == Lit(length)
    ensures PrintString(Lit(letters)) == Lit(length + ":" + letters)
  {
    Letters();
    LitJoin(length, ":");
    LitJoin(length + ":", letters);
  }

  lemma KeysPrinted()
    ensures PrintString(KEY_A) == Lit("1:a") && PrintString(KEY_E) == Lit("1:e") && PrintString(KEY_Q) == Lit("1:q")
    ensures PrintString(KEY_R) == Lit("1:r") && PrintString(KEY_T) == Lit("1:t") && PrintString(KEY_Y) == Lit("1:y")
    ensures PrintString(KEY_ID) == Lit("2:id") && PrintString(KEY_PORT) == Lit("4:port")
    ensures PrintString(KEY_TARGET) == Lit("6:target") && PrintString(KEY_TOKEN) == Lit("5:token")
    ensures PrintString(KEY_NODES) == Lit("5:nodes")
  {
    Keys();
    Numerals();
    hide ToDecimal, PrintString, KEY_A, KEY_E, KEY_Q, KEY_R, KEY_T, KEY_Y, KEY_ID, KEY_PORT, KEY_TARGET, KEY_TOKEN;
    hide KEY_NODES;
    LitPrinted("1", "a");
    LitPrinted("1", "e");
    LitPrinted("1", "q");
    LitPrinted("1", "r");
    LitPrinted("1", "t");
    LitPrinted("1", "y");
    LitPrinted("2", "id");
    LitPrinted("4", "port");
    LitPrinted("6", "target");
    LitPrinted("5", "token");
    LitPrinted("5", "nodes");
    assert "1" + ":" + "a" == "1:a" && "1" + ":" + "e" == "1:e" && "1" + ":" + "q" == "1:q";
    assert "1" + ":" + "r" == "1:r" && "1" + ":" + "t" == "1:t" && "1" + ":" + "y" == "1:y";
    assert "2" + ":" + "id" == "2:id" && "4" + ":" + "port" == "4:port" && "6" + ":" + "target" == "6:target";
    assert "5" + ":" + "token" == "5:token" && "5" + ":" + "nodes" == "5:nodes";
  }

  lemma LongKeysPrinted()
    ensures PrintString(KEY_VALUES) == Lit("6:values") && PrintString(KEY_INFO_HASH) == Lit("9:info_hash")
    ensures PrintString(KEY_IMPLIED_PORT) == Lit("12:implied_port")
  {
    LongKeys();
    Numerals();
    hide ToDecimal, PrintString, KEY_VALUES, KEY_INFO_HASH, KEY_IMPLIED_PORT;
    LitPrinted("6", "values");
    LitPrinted("9", "info_hash");
    LitPrinted("12", "implied_port");
    assert "6" + ":" + "values" == "6:values" && "9" + ":" + "info_hash" == "9:info_hash";
    assert "12" + ":" + "implied_port" == "12:implied_port";
  }

  lemma NamesPrinted()
    ensures PrintString(NAME_PING) == Lit("4:ping") && PrintString(NAME_FIND_NODE) == Lit("9:find_node")
    ensures PrintString(NAME_GET_PEERS) == Lit("9:get_peers") && PrintString(NAME_ANNOUNCE) == Lit("13:announce_peer")
  {
    Names();
    Numerals();
    hide ToDecimal, PrintString, NAME_PING, NAME_FIND_NODE, NAME_GET_PEERS, NAME_ANNOUNCE;
    LitPrinted("4", "ping");
    LitPrinted("9", "find_node");
    LitPrinted("9", "get_peers");
    LitPrinted("13", "announce_peer");
    assert "4" + ":" + "ping" == "4:ping" && "9" + ":" + "find_node" == "9:find_node";
    assert "9" + ":" + "get_peers" == "9:get_peers" && "13" + ":" + "announce_peer" == "13:announce_peer";
  }

  // ------------------------------------------------------------- the outer shape

  lemma InsertLess(e: Entry, rest: seq<Entry>, k: Bytes, v: Value)
    requires k != e.key && LessEq(k, e.key)
    ensures Insert([e] + rest, k, v) == [Entry(k, v)] + ([e] + rest)
  {
  }

  lemma InsertMore(e: Entry, rest: seq<Entry>, k: Bytes, v: Value)
    requires !LessEq(k, e.key) && k != e.key
    ensures Insert([e] + rest, k, v) == [e] + Insert(rest, k, v)
  {
    assert ([e] + rest)[1..] == rest;
  }

  lemma InsertNone(k: Bytes, v: Value)
    ensures Insert([], k, v) == [Entry(k, v)] + []
  {
  }

  /** The one-letter keys differ and stand in this order. */
  lemma KeyOrder()
    ensures LessEq(KEY_A, KEY_Q) && LessEq(KEY_Q, KEY_T) && LessEq(KEY_R, KEY_T) && LessEq(KEY_E, KEY_T)
    ensures !LessEq(KEY_Y, KEY_T) && KEY_A != KEY_Q && KEY_Q != KEY_T && KEY_R != KEY_T && KEY_E != KEY_T
    ensures KEY_Y != KEY_T
  {
  }

  /** `t` and `y` with the message's own key in front. */
  lemma OuterEntries(tid: Bytes, k: Bytes, v: Value, kind: Bytes)
    requires k != KEY_T && LessEq(k, KEY_T)
    ensures Insert(Insert(Insert([], KEY_T, Str(tid)), KEY_Y, Str(kind)), k, v) ==
      [Entry(k, v)] + ([Entry(KEY_T, Str(tid))] + ([Entry(KEY_Y, Str(kind))] + []))
  {
    KeyOrder();
    hide Insert, LessEq, KEY_T, KEY_Y;
    InsertNone(KEY_T, Str(tid));
    InsertMore(Entry(KEY_T, Str(tid)), [], KEY_Y, Str(kind));
    InsertNone(KEY_Y, Str(kind));
    InsertLess(Entry(KEY_T, Str(tid)), [Entry(KEY_Y, Str(kind))] + [], k, v);
  }


  // ------------------------------------------------------- the text around a body

  /** A reply: the reply's own dictionary, the transaction id and the kind. */
  function ReplyText(body: Bytes, tid: Bytes): Bytes {
    Lit("d1:r") + body + Lit("1:t") + ToDecimal(|tid|) + Lit(":") + tid + Lit("1:y1:re")
  }

  function ErrorText(code: int, message: Bytes, tid: Bytes): Bytes {
    Lit("d1:eli") + ToSigned(code) + Lit("e") + ToDecimal(|message|) + Lit(":") + message + Lit("e1:t")
    + ToDecimal(|tid|) + Lit(":") + tid + Lit("1:y1:ee")
  }

  /** A query: its arguments, its name with the length in front, the transaction id and the kind. */
  function QueryText(args: Bytes, name: string, tid: Bytes): Bytes {
    Lit("d1:a") + args + Lit("1:q") + Lit(name) + Lit("1:t") + ToDecimal(|tid|) + Lit(":") + tid + Lit("1:y1:qe")
  }

  lemma TailWritten(before: Bytes, tid: Bytes, kind: Bytes, text: string)
    requires PrintString(kind) == Lit(text)
    ensures Written(before, [Entry(KEY_T, Str(tid))] + ([Entry(KEY_Y, Str(kind))] + [])) + Lit("e") ==
      before + Lit("1:t") + ToDecimal(|tid|) + Lit(":") + tid + Lit("1:y" + text + "e")
  {
    KeysPrinted();
    StringWritten(before, KEY_T, "1:t", tid);
    var head := before + Lit("1:t") + ToDecimal(|tid|) + Lit(":") + tid;
    var entries := [Entry(KEY_T, Str(tid))] + ([Entry(KEY_Y, Str(kind))] + []);
    assert entries[1..] == [Entry(KEY_Y, Str(kind))] + [] && (entries[1..])[1..] == [];
    assert Written(before, entries) == Written(head, entries[1..]) == head + PrintString(KEY_Y) + PrintString(kind);
    hide Lit, PrintString, Written, ToDecimal, KEY_Y, KEY_T;
    LitJoin("1:y", text);
    LitJoin("1:y" + text, "e");
    Sequences.Associates(head, Lit("1:y"), Lit(text));
    Sequences.Associates(head, Lit("1:y" + text), Lit("e"));
  }

  lemma OuterWritten(k: Bytes, text: string, v: Value, tid: Bytes, kind: Bytes, kindText: string)
    requires PrintString(kind) == Lit(kindText) && PrintString(k) == Lit(text)
    ensures Print(Dict([Entry(k, v)] + ([Entry(KEY_T, Str(tid))] + ([Entry(KEY_Y, Str(kind))] + [])))) ==
      Lit("d" + text) + Print(v) + Lit("1:t") + ToDecimal(|tid|) + Lit(":") + tid + Lit("1:y" + kindText + "e")
  {
    var rest := [Entry(KEY_T, Str(tid))] + ([Entry(KEY_Y, Str(kind))] + []);
    var entries := [Entry(k, v)] + rest;
    DictWritten(entries);
    assert entries[1..] == rest;
    LitJoin("d", text);
    TailWritten(Lit("d") + Lit(text) + Print(v), tid, kind, kindText);
    hide Lit, Print, PrintString;
  }

  lemma ReplyWritten(tid: Bytes, sender: Option<Id>, response: Response)
    requires !response.ErrorResponse?
    ensures Print(Dict(EntriesOf(Message(tid, sender, None, Some(response))))) ==
      ReplyText(Print(Dict(RespOf(response))), tid)
  {
    KeysPrinted();
    KeyOrder();
    OuterEntries(tid, KEY_R, Dict(RespOf(response)), KEY_R);
    OuterWritten(KEY_R, "1:r", Dict(RespOf(response)), tid, KEY_R, "1:r");
    assert "d" + "1:r" == "d1:r" && "1:y" + "1:r" + "e" == "1:y1:re";
    hide RespOf, Lit, Print, Insert, KEY_R, KEY_T, KEY_Y;
  }

  lemma QueryEntries(tid: Bytes, id: Id, name: Bytes, query: Query)
    ensures EntriesOf(Message(tid, Some(id), Some((name, query)), None)) ==
      [Entry(KEY_A, Dict(ArgsOf(Some(id), query)))] + ([Entry(KEY_Q, Str(name))]
      + ([Entry(KEY_T, Str(tid))] + ([Entry(KEY_Y, Str(KEY_Q))] + [])))
  {
    KeyOrder();
    OuterEntries(tid, KEY_Q, Str(name), KEY_Q);
    hide ArgsOf, Insert, LessEq, KEY_A, KEY_Q, KEY_T, KEY_Y;
    InsertLess(Entry(KEY_Q, Str(name)), [Entry(KEY_T, Str(tid))] + ([Entry(KEY_Y, Str(KEY_Q))] + []), KEY_A,
               Dict(ArgsOf(Some(id), query)));
  }

  lemma QueryWritten(tid: Bytes, id: Id, name: Bytes, nameText: string, query: Query)
    requires PrintString(name) == Lit(nameText)
    ensures Print(Dict(EntriesOf(Message(tid, Some(id), Some((name, query)), None)))) ==
      QueryText(Print(Dict(ArgsOf(Some(id), query))), nameText, tid)
  {
    QueryEntries(tid, id, name, query);
    KeysPrinted();
    var args := Dict(ArgsOf(Some(id), query));
    var tail := [Entry(KEY_T, Str(tid))] + ([Entry(KEY_Y, Str(KEY_Q))] + []);
    var entries := [Entry(KEY_A, args)] + ([Entry(KEY_Q, Str(name))] + tail);
    DictWritten(entries);
    assert entries[1..] == [Entry(KEY_Q, Str(name))] + tail && entries[1..][1..] == tail;
    var head := Lit("d") + PrintString(KEY_A) + Print(args);
    assert Written(Lit("d"), entries) == Written(head + PrintString(KEY_Q) + Print(Str(name)), tail);
    LitJoin("d", "1:a");
    assert "d" + "1:a" == "d1:a" && "1:y" + "1:q" + "e" == "1:y1:qe";
    TailWritten(head + PrintString(KEY_Q) + Print(Str(name)), tid, KEY_Q, "1:q");
    hide Lit, Print, PrintString, Written, EntriesOf, ArgsOf, KEY_A, KEY_Q, KEY_T, KEY_Y, ToDecimal;
    PrintStr(name);
  }

  lemma PrintStr(b: Bytes)
    ensures Print(Str(b)) == PrintString(b)
  {
  }

  lemma ErrorWritten(tid: Bytes, sender: Option<Id>, code: int, message: Bytes)
    ensures Print(Dict(EntriesOf(Message(tid, sender, None, Some(ErrorResponse(code, message)))))) ==
      ErrorText(code, message, tid)
  {
    KeysPrinted();
    KeyOrder();
    var body := List([Integer(code), Str(message)]);
    OuterEntries(tid, KEY_E, body, KEY_E);
    OuterWritten(KEY_E, "1:e", body, tid, KEY_E, "1:e");
    assert "d" + "1:e" == "d1:e" && "1:y" + "1:e" + "e" == "1:y1:ee";
    ErrorBody(code, message);
    var item := Lit("i") + ToSigned(code) + Lit("e") + ToDecimal(|message|) + Lit(":") + message;
    LitJoin("d1:el", "i");
    LitJoin("d1:e", "l");
    LitJoin("e", "1:t");
    assert "d1:e" + "l" == "d1:el" && "d1:el" + "i" == "d1:eli" && "e" + "1:t" == "e1:t";
    hide Lit, Print, Insert, KEY_E, KEY_T, KEY_Y, ToSigned, ToDecimal;
    ErrorEdges(Lit("d1:e"), Lit("l"), Lit("i"), ToSigned(code), Lit("e"), ToDecimal(|message|), Lit(":"), message,
               Lit("1:t"));
  }

  lemma TwoItems(a: Value, b: Value)
    ensures PrintItems([a, b]) == Print(a) + Print(b)
  {
    hide Print;
    assert [a, b][1..] == [b] && [b][1..] == [];
    assert PrintItems([b]) == Print(b) + PrintItems([]) == Print(b);
    assert PrintItems([a, b]) == Print(a) + PrintItems([b]);
  }

  lemma ErrorBody(code: int, message: Bytes)
    ensures Print(List([Integer(code), Str(message)])) ==
      Lit("l") + ((Lit("i") + ToSigned(code) + Lit("e")) + (ToDecimal(|message|) + Lit(":") + message)) + Lit("e")
  {
    Letters();
    TwoItems(Integer(code), Str(message));
    hide PrintItems, ToSigned, ToDecimal, Lit;
  }

  lemma ErrorEdges(d: Bytes, l: Bytes, i: Bytes, code: Bytes, e: Bytes, length: Bytes, colon: Bytes, text: Bytes,
                   t: Bytes)
    ensures d + (l + ((i + code + e) + (length + colon + text)) + e) + t
         == (d + l + i) + code + e + length + colon + text + (e + t)
  {
    Sequences.Associates(d, l + ((i + code + e) + (length + colon + text)), e);
    Sequences.Associates(d, l, (i + code + e) + (length + colon + text));
    Sequences.Associates(d + l, i + code + e, length + colon + text);
    Sequences.Associates(d + l, i + code, e);
    Sequences.Associates(d + l, i, code);
    Sequences.Associates(d + l + i + code + e, length + colon, text);
    Sequences.Associates(d + l + i + code + e, length, colon);
    Sequences.Associates(d + l + i + code + e + length + colon + text, e, t);
  }

  // ---------------------------------------------------------- contacts and peers

  /** An address: its four bytes and the port, high byte first. */
  function AddrText(a: Addr): Bytes
    requires a.V4?
  {
    a.ip + [(a.port / 256) as byte, (a.port % 256) as byte]
  }

  /** The IPv4 contacts, 26 bytes each. */
  function NodesText(nodes: seq<Contact>): Bytes {
    if nodes == [] then []
    else if nodes[0].addr.V4? then nodes[0].id + AddrText(nodes[0].addr) + NodesText(nodes[1..])
    else NodesText(nodes[1..])
  }

  /** The IPv4 peers, each a string of six bytes. */
  function PeersText(peers: seq<Addr>): Bytes {
    if peers == [] then []
    else if peers[0].V4? then Lit("6:") + AddrText(peers[0]) + PeersText(peers[1..])
    else PeersText(peers[1..])
  }

  lemma {:induction false} NodesWritten(nodes: seq<Contact>)
    ensures CompactNodes(nodes) == NodesText(nodes)
  {
    if nodes != [] {
      NodesWritten(nodes[1..]);
      if nodes[0].addr.V4? {
        Sequences.Associates(nodes[0].id, nodes[0].addr.ip, PortBytes(nodes[0].addr.port));
      }
    }
  }

  lemma {:induction false} PeersWritten(peers: seq<Addr>)
    ensures PrintItems(CompactPeers(peers)) == PeersText(peers)
  {
    if peers != [] {
      PeersWritten(peers[1..]);
      if peers[0].V4? {
        PeerWritten(peers[0]);
        assert CompactPeers(peers)[1..] == CompactPeers(peers[1..]);
        hide AddrText, Print, Lit;
      }
    }
  }

  lemma PeerWritten(a: Addr)
    requires a.V4?
    ensures Print(Str(a.ip + PortBytes(a.port))) == Lit("6:") + AddrText(a)
  {
    Numerals();
    Letters();
    LitJoin("6", ":");
    assert "6" + ":" == "6:";
    hide Lit, ToDecimal;
  }

  // ---------------------------------------------------------------------- bodies

  lemma ArgsOrder()
    ensures !LessEq(KEY_TARGET, KEY_ID) && !LessEq(KEY_INFO_HASH, KEY_ID) && !LessEq(KEY_PORT, KEY_ID)
    ensures !LessEq(KEY_PORT, KEY_INFO_HASH) && !LessEq(KEY_TOKEN, KEY_ID) && !LessEq(KEY_TOKEN, KEY_INFO_HASH)
    ensures !LessEq(KEY_TOKEN, KEY_PORT) && !LessEq(KEY_IMPLIED_PORT, KEY_ID) && LessEq(KEY_IMPLIED_PORT, KEY_INFO_HASH)
    ensures !LessEq(KEY_NODES, KEY_ID) && LessEq(KEY_NODES, KEY_TOKEN) && !LessEq(KEY_VALUES, KEY_ID)
    ensures !LessEq(KEY_VALUES, KEY_TOKEN)
  {
  }

  lemma ArgsDiffer()
    ensures KEY_TARGET != KEY_ID && KEY_INFO_HASH != KEY_ID && KEY_PORT != KEY_ID && KEY_TOKEN != KEY_ID
    ensures KEY_PORT != KEY_INFO_HASH && KEY_TOKEN != KEY_INFO_HASH && KEY_TOKEN != KEY_PORT
    ensures KEY_IMPLIED_PORT != KEY_ID && KEY_IMPLIED_PORT != KEY_INFO_HASH && KEY_NODES != KEY_ID
    ensures KEY_NODES != KEY_TOKEN && KEY_VALUES != KEY_ID && KEY_VALUES != KEY_TOKEN
  {
  }

  /** A dictionary of one id, and what comes behind it. */
  lemma IdWritten(id: Id, rest: seq<Entry>)
    ensures Print(Dict([Entry(KEY_ID, Str(id))] + rest)) == Written(Lit("d2:id20:") + id, rest) + Lit("e")
  {
    KeysPrinted();
    Numerals();
    var entries := [Entry(KEY_ID, Str(id))] + rest;
    DictWritten(entries);
    assert entries[1..] == rest;
    FixedWritten(Lit("d"), KEY_ID, "2:id", "20", id);
    LitJoin("d", "2:id20:");
    assert "2:id" + "20" + ":" == "2:id20:" && "d" + "2:id20:" == "d2:id20:";
    hide Lit, PrintString, KEY_ID, ToDecimal;
    PrintStr(id);
  }

  lemma WrittenCons(before: Bytes, k: Bytes, v: Value, rest: seq<Entry>)
    ensures Written(before, [Entry(k, v)] + rest) == Written(before + PrintString(k) + Print(v), rest)
    ensures Written(before, []) == before
  {
    assert ([Entry(k, v)] + rest)[1..] == rest;
  }

  lemma IdArgs(id: Id, k: Bytes, text: string, b: Id)
    requires !LessEq(k, KEY_ID) && k != KEY_ID && PrintString(k) == Lit(text)
    ensures Print(Dict(Insert(Insert([], KEY_ID, Str(id)), k, Str(b)))) ==
      Lit("d2:id20:") + id + Lit(text + "20:") + b + Lit("e")
  {
    Numerals();
    InsertNone(KEY_ID, Str(id));
    InsertMore(Entry(KEY_ID, Str(id)), [], k, Str(b));
    InsertNone(k, Str(b));
    IdWritten(id, [Entry(k, Str(b))] + []);
    WrittenCons(Lit("d2:id20:") + id, k, Str(b), []);
    FixedWritten(Lit("d2:id20:") + id, k, text, "20", b);
    assert text + "20" + ":" == text + "20:";
    hide Lit, Print, Insert, PrintString, ToDecimal, KEY_ID;
  }

  lemma IdAlone(id: Id)
    ensures Print(Dict(Insert([], KEY_ID, Str(id)))) == Lit("d2:id20:") + id + Lit("e")
  {
    InsertNone(KEY_ID, Str(id));
    IdWritten(id, []);
    WrittenCons(Lit("d2:id20:") + id, [], Str([]), []);
    hide Lit, Print, Insert, KEY_ID;
  }

  /** What stands between the id and the info hash of an announcement. */
  function ImpliedText(implied: bool): Bytes {
    if implied then Lit("12:implied_porti") + ToSigned(1) + Lit("e") else []
  }

  lemma AnnounceEntries(id: Id, h: Id, port: Port, token: Bytes, implied: bool)
    ensures ArgsOf(Some(id), AnnounceQuery(h, port, token, implied)) ==
      [Entry(KEY_ID, Str(id))] + ((if implied then [Entry(KEY_IMPLIED_PORT, Integer(1))] else []) +
      ([Entry(KEY_INFO_HASH, Str(h))] + ([Entry(KEY_PORT, Integer(port))] + ([Entry(KEY_TOKEN, Str(token))] + []))))
  {
    ArgsOrder();
    ArgsDiffer();
    hide Insert, LessEq, KEY_ID, KEY_INFO_HASH, KEY_PORT, KEY_TOKEN, KEY_IMPLIED_PORT;
    var i, n, p := Entry(KEY_ID, Str(id)), Entry(KEY_INFO_HASH, Str(h)), Entry(KEY_PORT, Integer(port));
    var t := Entry(KEY_TOKEN, Str(token));
    InsertNone(KEY_ID, Str(id));
    InsertMore(i, [], KEY_INFO_HASH, Str(h));
    InsertNone(KEY_INFO_HASH, Str(h));
    InsertMore(i, [n] + [], KEY_PORT, Integer(port));
    InsertMore(n, [], KEY_PORT, Integer(port));
    InsertNone(KEY_PORT, Integer(port));
    InsertMore(i, [n] + ([p] + []), KEY_TOKEN, Str(token));
    InsertMore(n, [p] + [], KEY_TOKEN, Str(token));
    InsertMore(p, [], KEY_TOKEN, Str(token));
    InsertNone(KEY_TOKEN, Str(token));
    var rest := [n] + ([p] + ([t] + []));
    InsertMore(i, rest, KEY_IMPLIED_PORT, Integer(1));
    InsertLess(n, [p] + ([t] + []), KEY_IMPLIED_PORT, Integer(1));
    assert [] + rest == rest;
  }

  lemma ImpliedWritten(before: Bytes, implied: bool, rest: seq<Entry>)
    ensures Written(before, (if implied then [Entry(KEY_IMPLIED_PORT, Integer(1))] else []) + rest) ==
      Written(before + ImpliedText(implied), rest)
  {
    if implied {
      LongKeysPrinted();
      WrittenCons(before, KEY_IMPLIED_PORT, Integer(1), rest);
      IntegerWritten(before, KEY_IMPLIED_PORT, "12:implied_port", 1);
      assert "12:implied_port" + "i" == "12:implied_porti";
      hide Lit, Print, PrintString, KEY_IMPLIED_PORT, ToSigned, Written;
      Sequences.Associates(before, Lit("12:implied_porti"), ToSigned(1));
      Sequences.Associates(before, Lit("12:implied_porti") + ToSigned(1), Lit("e"));
    } else {
      assert [] + rest == rest && before + [] == before;
    }
  }

  lemma HashWritten(before: Bytes, h: Id, rest: seq<Entry>)
    ensures Written(before, [Entry(KEY_INFO_HASH, Str(h))] + rest) == Written(before + Lit("9:info_hash20:") + h, rest)
  {
    LongKeysPrinted();
    Numerals();
    WrittenCons(before, KEY_INFO_HASH, Str(h), rest);
    FixedWritten(before, KEY_INFO_HASH, "9:info_hash", "20", h);
    assert "9:info_hash" + "20" + ":" == "9:info_hash20:";
    hide Lit, Print, PrintString, KEY_INFO_HASH, ToDecimal, Written;
  }

  lemma PortWritten(before: Bytes, port: Port, rest: seq<Entry>)
    ensures Written(before, [Entry(KEY_PORT, Integer(port))] + rest) ==
            Written(before + Lit("4:porti") + ToSigned(port) + Lit("e"), rest)
  {
    KeysPrinted();
    WrittenCons(before, KEY_PORT, Integer(port), rest);
    IntegerWritten(before, KEY_PORT, "4:port", port);
    assert "4:port" + "i" == "4:porti";
    hide Lit, Print, PrintString, KEY_PORT, ToSigned, Written;
  }

  lemma TextEntryWritten(before: Bytes, k: Bytes, text: string, b: Bytes, rest: seq<Entry>)
    requires PrintString(k) == Lit(text)
    ensures Written(before, [Entry(k, Str(b))] + rest) ==
            Written(before + Lit(text) + ToDecimal(|b|) + Lit(":") + b, rest)
  {
    WrittenCons(before, k, Str(b), rest);
    StringWritten(before, k, text, b);
    hide Lit, Print, PrintString, ToDecimal, Written;
  }

  lemma PeersEntryWritten(before: Bytes, peers: seq<Addr>, rest: seq<Entry>)
    ensures Written(before, [Entry(KEY_VALUES, List(CompactPeers(peers)))] + rest) ==
            Written(before + Lit("6:valuesl") + PeersText(peers) + Lit("e"), rest)
  {
    LongKeysPrinted();
    WrittenCons(before, KEY_VALUES, List(CompactPeers(peers)), rest);
    ListWritten(before, KEY_VALUES, "6:values", CompactPeers(peers));
    PeersWritten(peers);
    assert "6:values" + "l" == "6:valuesl";
    hide Lit, Print, PrintString, KEY_VALUES, Written, PeersText, CompactPeers, PrintItems;
  }

  lemma AnnounceWritten(id: Id, h: Id, port: Port, token: Bytes, implied: bool)
    ensures Print(Dict(ArgsOf(Some(id), AnnounceQuery(h, port, token, implied)))) ==
      Lit("d2:id20:") + id + ImpliedText(implied) + Lit("9:info_hash20:") + h + Lit("4:porti") + ToSigned(port)
      + Lit("e") + Lit("5:token") + ToDecimal(|token|) + Lit(":") + token + Lit("e")
  {
    AnnounceEntries(id, h, port, token, implied);
    KeysPrinted();
    hide ArgsOf, KEY_ID, KEY_INFO_HASH, KEY_PORT, KEY_TOKEN, KEY_IMPLIED_PORT, ImpliedText, ToSigned, ToDecimal, Print;
    hide PrintString, Lit;
    var t := [Entry(KEY_TOKEN, Str(token))] + [];
    var p := [Entry(KEY_PORT, Integer(port))] + t;
    var n := [Entry(KEY_INFO_HASH, Str(h))] + p;
    var b0 := Lit("d2:id20:") + id;
    var b1 := b0 + ImpliedText(implied);
    var b2 := b1 + Lit("9:info_hash20:") + h;
    var b3 := b2 + Lit("4:porti") + ToSigned(port) + Lit("e");
    var b4 := b3 + Lit("5:token") + ToDecimal(|token|) + Lit(":") + token;
    IdWritten(id, (if implied then [Entry(KEY_IMPLIED_PORT, Integer(1))] else []) + n);
    ImpliedWritten(b0, implied, n);
    HashWritten(b1, h, p);
    PortWritten(b2, port, t);
    TextEntryWritten(b3, KEY_TOKEN, "5:token", token, []);
    assert Written(b4, []) == b4;
    hide Written;
  }

  lemma NodesReplyEntries(id: Id, nodes: seq<Contact>)
    ensures RespOf(FindNodeResponse(id, nodes)) ==
      [Entry(KEY_ID, Str(id))] + ([Entry(KEY_NODES, Str(CompactNodes(nodes)))] + [])
  {
    ArgsOrder();
    ArgsDiffer();
    hide Insert, LessEq, KEY_ID, KEY_NODES, CompactNodes;
    InsertNone(KEY_ID, Str(id));
    InsertMore(Entry(KEY_ID, Str(id)), [], KEY_NODES, Str(CompactNodes(nodes)));
    InsertNone(KEY_NODES, Str(CompactNodes(nodes)));
  }

  lemma NodesReplyWritten(id: Id, nodes: seq<Contact>)
    ensures Print(Dict(RespOf(FindNodeResponse(id, nodes)))) ==
      Lit("d2:id20:") + id + Lit("5:nodes") + ToDecimal(|NodesText(nodes)|) + Lit(":") + NodesText(nodes) + Lit("e")
  {
    NodesReplyEntries(id, nodes);
    NodesWritten(nodes);
    KeysPrinted();
    hide RespOf, KEY_ID, KEY_NODES, ToDecimal, Print, PrintString, Lit, CompactNodes, NodesText;
    IdWritten(id, [Entry(KEY_NODES, Str(CompactNodes(nodes)))] + []);
    var b0 := Lit("d2:id20:") + id;
    var b1 := b0 + Lit("5:nodes") + ToDecimal(|NodesText(nodes)|) + Lit(":") + NodesText(nodes);
    TextEntryWritten(b0, KEY_NODES, "5:nodes", CompactNodes(nodes), []);
    assert Written(b1, []) == b1;
    hide Written;
  }

  /** The optional parts of a get_peers reply, before and after its token. */
  function CloserText(closer: Option<seq<Contact>>): Bytes {
    if closer.None? then []
    else Lit("5:nodes") + ToDecimal(|NodesText(closer.value)|) + Lit(":") + NodesText(closer.value)
  }

  function ValuesText(peers: Option<seq<Addr>>): Bytes {
    if peers.None? then [] else Lit("6:valuesl") + PeersText(peers.value) + Lit("e")
  }

  function CloserEntries(closer: Option<seq<Contact>>): seq<Entry> {
    if closer.None? then [] else [Entry(KEY_NODES, Str(CompactNodes(closer.value)))]
  }

  function ValuesEntries(peers: Option<seq<Addr>>): seq<Entry> {
    if peers.None? then [] else [Entry(KEY_VALUES, List(CompactPeers(peers.value)))]
  }

  lemma PeersReplyEntries(id: Id, token: Bytes, peers: Option<seq<Addr>>, closer: Option<seq<Contact>>)
    ensures RespOf(GetPeersResponse(id, token, peers, closer)) ==
      [Entry(KEY_ID, Str(id))] + (CloserEntries(closer) + ([Entry(KEY_TOKEN, Str(token))] + ValuesEntries(peers)))
  {
    ArgsOrder();
    ArgsDiffer();
    hide Insert, LessEq, KEY_ID, KEY_NODES, KEY_TOKEN, KEY_VALUES, CompactNodes, CompactPeers;
    var i, t, vs := Entry(KEY_ID, Str(id)), Entry(KEY_TOKEN, Str(token)), ValuesEntries(peers);
    InsertNone(KEY_ID, Str(id));
    InsertMore(i, [], KEY_TOKEN, Str(token));
    InsertNone(KEY_TOKEN, Str(token));
    if peers.Some? {
      var v := List(CompactPeers(peers.value));
      InsertMore(i, [t] + [], KEY_VALUES, v);
      InsertMore(t, [], KEY_VALUES, v);
      InsertNone(KEY_VALUES, v);
      assert vs == [Entry(KEY_VALUES, v)] + [];
    }
    if closer.Some? {
      var n := Str(CompactNodes(closer.value));
      InsertMore(i, [t] + vs, KEY_NODES, n);
      InsertLess(t, vs, KEY_NODES, n);
    } else {
      assert CloserEntries(closer) + ([t] + vs) == [t] + vs;
    }
  }

  lemma CloserWritten(before: Bytes, closer: Option<seq<Contact>>, rest: seq<Entry>)
    ensures Written(before, CloserEntries(closer) + rest) == Written(before + CloserText(closer), rest)
  {
    if closer.Some? {
      var text := NodesText(closer.value);
      KeysPrinted();
      NodesWritten(closer.value);
      TextEntryWritten(before, KEY_NODES, "5:nodes", CompactNodes(closer.value), rest);
      hide Lit, Print, PrintString, KEY_NODES, ToDecimal, Written, NodesText;
      Sequences.Associates(before, Lit("5:nodes"), ToDecimal(|text|));
      Sequences.Associates(before, Lit("5:nodes") + ToDecimal(|text|), Lit(":"));
      Sequences.Associates(before, Lit("5:nodes") + ToDecimal(|text|) + Lit(":"), text);
    } else {
      assert [] + rest == rest && before + [] == before;
    }
  }

  lemma ValuesWritten(before: Bytes, peers: Option<seq<Addr>>)
    ensures Written(before, ValuesEntries(peers)) == before + ValuesText(peers)
  {
    if peers.Some? {
      var text := PeersText(peers.value);
      PeersEntryWritten(before, peers.value, []);
      var es := ValuesEntries(peers);
      assert es + [] == es;
      assert Written(before + Lit("6:valuesl") + text + Lit("e"), []) == before + Lit("6:valuesl") + text + Lit("e");
      hide Lit, Print, PrintString, KEY_VALUES, Written, PeersText;
      Sequences.Associates(before, Lit("6:valuesl"), text);
      Sequences.Associates(before, Lit("6:valuesl") + text, Lit("e"));
    } else {
      assert before + [] == before;
    }
  }

  /** The id, closer contacts if any, the token and peers if any. */
  function PeersBody(id: Id, token: Bytes, peers: Option<seq<Addr>>, closer: Option<seq<Contact>>): Bytes {
    Lit("d2:id20:") + id + CloserText(closer) + Lit("5:token") + ToDecimal(|token|) + Lit(":") + token
    + ValuesText(peers) + Lit("e")
  }

  lemma PeersReplyWritten(id: Id, token: Bytes, peers: Option<seq<Addr>>, closer: Option<seq<Contact>>)
    ensures Print(Dict(RespOf(GetPeersResponse(id, token, peers, closer)))) == PeersBody(id, token, peers, closer)
  {
    PeersReplyEntries(id, token, peers, closer);
    KeysPrinted();
    hide RespOf, KEY_ID, KEY_TOKEN, ToDecimal, Print, PrintString, Lit, CloserText, ValuesText, CloserEntries, Written;
    hide ValuesEntries;
    var t := [Entry(KEY_TOKEN, Str(token))] + ValuesEntries(peers);
    IdWritten(id, CloserEntries(closer) + t);
    CloserWritten(Lit("d2:id20:") + id, closer, t);
    var b1 := Lit("d2:id20:") + id + CloserText(closer);
    TextEntryWritten(b1, KEY_TOKEN, "5:token", token, ValuesEntries(peers));
    ValuesWritten(b1 + Lit("5:token") + ToDecimal(|token|) + Lit(":") + token, peers);
  }

  // ------------------------------------------------------------- whole messages

  /** The message is encoded as this text, and the text is parsed as the message. */
  ghost predicate Carries(text: Bytes, m: Message) {
    Print(Dict(EntriesOf(m))) == text && ParseMessage(text) == Ok(m)
  }

  lemma QueryCarried(tid: Bytes, id: Id, name: Bytes, nameText: string, query: Query, args: Bytes)
    requires PrintString(name) == Lit(nameText) && name == QueryName(query)
    requires Print(Dict(ArgsOf(Some(id), query))) == args
    requires |tid| <= 1_000_000_000 && (query.AnnounceQuery? ==> |query.token| <= 1_000_000_000)
    ensures Carries(QueryText(args, nameText, tid), Message(tid, Some(id), Some((name, query)), None))
  {
    var m := Message(tid, Some(id), Some((name, query)), None);
    QueryWritten(tid, id, name, nameText, query);
    WordsAreUtf8();
    NamesAreSized(query);
    hide EntriesOf, ArgsOf, Print, PrintString, Lit, IsUtf8, ParseMessage;
    RoundTripIff(m);
  }

  lemma NamesAreSized(query: Query)
    ensures |QueryName(query)| <= MAX_STRING_LENGTH
  {
  }

  lemma ReplyCarried(tid: Bytes, id: Id, response: Response, body: Bytes)
    requires !response.ErrorResponse? && response.id == id && Print(Dict(RespOf(response))) == body
    requires SurvivesWire(Message(tid, Some(id), None, Some(response)))
    requires WireSized(Message(tid, Some(id), None, Some(response)))
    ensures Carries(ReplyText(body, tid), Message(tid, Some(id), None, Some(response)))
  {
    ReplyWritten(tid, Some(id), response);
    hide EntriesOf, RespOf, Print, Lit, ParseMessage;
    RoundTripIff(Message(tid, Some(id), None, Some(response)));
  }

  /** `d1:ad2:id20:` our id `e1:q4:ping1:t` transaction `1:y1:qe` */
  lemma PingOnWire(tid: Bytes, id: Id)
    requires |tid| <= 1_000_000_000
    ensures Carries(QueryText(Lit("d2:id20:") + id + Lit("e"), "4:ping", tid),
                    Message(tid, Some(id), Some((Lit("ping"), PingQuery)), None))
  {
    Names();
    NamesPrinted();
    IdAlone(id);
    hide Lit, Carries, QueryText;
    QueryCarried(tid, id, NAME_PING, "4:ping", PingQuery, Lit("d2:id20:") + id + Lit("e"));
  }

  /** `.. 2:id20:` our id `6:target20:` target `e1:q9:find_node ..` */
  lemma FindNodeOnWire(tid: Bytes, id: Id, target: Id)
    requires |tid| <= 1_000_000_000
    ensures Carries(QueryText(Lit("d2:id20:") + id + Lit("6:target20:") + target + Lit("e"), "9:find_node", tid),
                    Message(tid, Some(id), Some((Lit("find_node"), FindNodeQuery(target))), None))
  {
    Names();
    NamesPrinted();
    KeysPrinted();
    ArgsOrder();
    ArgsDiffer();
    IdArgs(id, KEY_TARGET, "6:target", target);
    assert "6:target" + "20:" == "6:target20:";
    hide Lit, Carries, QueryText;
    QueryCarried(tid, id, NAME_FIND_NODE, "9:find_node", FindNodeQuery(target),
                 Lit("d2:id20:") + id + Lit("6:target20:") + target + Lit("e"));
  }

  /** `.. 2:id20:` our id `9:info_hash20:` hash `e1:q9:get_peers ..` */
  lemma GetPeersOnWire(tid: Bytes, id: Id, h: Id)
    requires |tid| <= 1_000_000_000
    ensures Carries(QueryText(Lit("d2:id20:") + id + Lit("9:info_hash20:") + h + Lit("e"), "9:get_peers", tid),
                    Message(tid, Some(id), Some((Lit("get_peers"), GetPeersQuery(h))), None))
  {
    Names();
    NamesPrinted();
    LongKeysPrinted();
    ArgsOrder();
    ArgsDiffer();
    IdArgs(id, KEY_INFO_HASH, "9:info_hash", h);
    assert "9:info_hash" + "20:" == "9:info_hash20:";
    hide Lit, Carries, QueryText;
    QueryCarried(tid, id, NAME_GET_PEERS, "9:get_peers", GetPeersQuery(h),
                 Lit("d2:id20:") + id + Lit("9:info_hash20:") + h + Lit("e"));
  }

  /** The implied port, the info hash, the port as a decimal number and the token, in key order. */
  lemma AnnounceOnWire(tid: Bytes, id: Id, h: Id, port: Port, token: Bytes, implied: bool)
    requires |tid| <= 1_000_000_000 && |token| <= 1_000_000_000
    ensures var args := Lit("d2:id20:") + id + (if implied then Lit("12:implied_porti1e") else [])
        + Lit("9:info_hash20:") + h + Lit("4:porti") + ToDecimal(port) + Lit("e5:token") + ToDecimal(|token|)
        + Lit(":") + token + Lit("e");
      Carries(QueryText(args, "13:announce_peer", tid),
              Message(tid, Some(id), Some((Lit("announce_peer"), AnnounceQuery(h, port, token, implied))), None))
  {
    Names();
    NamesPrinted();
    AnnounceWritten(id, h, port, token, implied);
    ImpliedIs(implied);
    LitJoin("e", "5:token");
    assert "e" + "5:token" == "e5:token";
    assert ToSigned(port) == ToDecimal(port);
    hide Lit, Carries, QueryText, ToDecimal, ToSigned, ImpliedText;
    var before := Lit("d2:id20:") + id + ImpliedText(implied) + Lit("9:info_hash20:") + h + Lit("4:porti");
    Sequences.Associates(before + ToDecimal(port), Lit("e"), Lit("5:token"));
    QueryCarried(tid, id, NAME_ANNOUNCE, "13:announce_peer", AnnounceQuery(h, port, token, implied),
                 before + ToDecimal(port) + Lit("e5:token") + ToDecimal(|token|) + Lit(":") + token + Lit("e"));
  }

  lemma ImpliedIs(implied: bool)
    ensures ImpliedText(implied) == if implied then Lit("12:implied_porti1e") else []
  {
    Numerals();
    assert ToSigned(1) == ToDecimal(1);
    LitJoin("12:implied_porti", "1");
    LitJoin("12:implied_porti1", "e");
    assert "12:implied_porti" + "1" == "12:implied_porti1" && "12:implied_porti1" + "e" == "12:implied_porti1e";
    hide Lit, ToSigned, ToDecimal;
  }

  /** `d1:rd2:id20:` their id `e1:t` transaction `1:y1:re` */
  lemma PingReplyOnWire(tid: Bytes, id: Id)
    requires |tid| <= 1_000_000_000
    ensures Carries(ReplyText(Lit("d2:id20:") + id + Lit("e"), tid),
                    Message(tid, Some(id), None, Some(PingResponse(id))))
  {
    IdAlone(id);
    hide Lit, Carries, ReplyText;
    ReplyCarried(tid, id, PingResponse(id), Lit("d2:id20:") + id + Lit("e"));
  }

  /** `.. 2:id20:` their id `5:nodes` length `:` contacts of 26 bytes `e ..` */
  lemma FindNodeReplyOnWire(tid: Bytes, id: Id, nodes: seq<Contact>)
    requires |tid| <= 1_000_000_000 && |NodesText(nodes)| <= 1_000_000_000 && forall c :: c in nodes ==> c.addr.V4?
    ensures var text := NodesText(nodes);
      Carries(ReplyText(Lit("d2:id20:") + id + Lit("5:nodes") + ToDecimal(|text|) + Lit(":") + text + Lit("e"), tid),
              Message(tid, Some(id), None, Some(FindNodeResponse(id, nodes))))
  {
    var text := NodesText(nodes);
    NodesReplyWritten(id, nodes);
    NodesWritten(nodes);
    hide Lit, Carries, ReplyText, NodesText, CompactNodes, ToDecimal;
    ReplyCarried(tid, id, FindNodeResponse(id, nodes),
                 Lit("d2:id20:") + id + Lit("5:nodes") + ToDecimal(|text|) + Lit(":") + text + Lit("e"));
  }

  lemma PeersReplySurvives(tid: Bytes, id: Id, token: Bytes, peers: Option<seq<Addr>>, closer: Option<seq<Contact>>)
    requires |tid| <= 1_000_000_000 && |token| <= 1_000_000_000
    requires peers.Some? ==> forall a :: a in peers.value ==> a.V4?
    requires closer.Some? ==> |NodesText(closer.value)| <= 1_000_000_000 && forall c :: c in closer.value ==> c.addr.V4?
    ensures var m := Message(tid, Some(id), None, Some(GetPeersResponse(id, token, peers, closer)));
      SurvivesWire(m) && WireSized(m)
  {
    if closer.Some? {
      NodesWritten(closer.value);
    }
    hide NodesText, CompactNodes;
  }

  lemma ErrorSurvives(tid: Bytes, code: int, message: Bytes)
    requires |tid| <= 1_000_000_000 && |message| <= 1_000_000_000 && IsUtf8(message) && I64_MIN <= code <= I64_MAX
    ensures var m := Message(tid, None, None, Some(ErrorResponse(code, message))); SurvivesWire(m) && WireSized(m)
  {
    hide IsUtf8;
  }

  /** `.. 2:id20:` their id, contacts if any, `5:token` token, `6:valuesl` peers of six bytes `e` if any, `e ..` */
  lemma GetPeersReplyOnWire(tid: Bytes, id: Id, token: Bytes, peers: Option<seq<Addr>>, closer: Option<seq<Contact>>)
    requires |tid| <= 1_000_000_000 && |token| <= 1_000_000_000
    requires peers.Some? ==> forall a :: a in peers.value ==> a.V4?
    requires closer.Some? ==> |NodesText(closer.value)| <= 1_000_000_000 && forall c :: c in closer.value ==> c.addr.V4?
    ensures Carries(ReplyText(PeersBody(id, token, peers, closer), tid),
                    Message(tid, Some(id), None, Some(GetPeersResponse(id, token, peers, closer))))
  {
    PeersReplyWritten(id, token, peers, closer);
    PeersReplySurvives(tid, id, token, peers, closer);
    hide *;
    var reply := GetPeersResponse(id, token, peers, closer);
    ReplyCarried(tid, id, reply, PeersBody(id, token, peers, closer));
  }

  /** `d1:eli` code `e` message `e1:t` transaction `1:y1:ee` */
  lemma ErrorOnWire(tid: Bytes, code: int, message: Bytes)
    requires |tid| <= 1_000_000_000 && |message| <= 1_000_000_000 && IsUtf8(message) && I64_MIN <= code <= I64_MAX
    ensures Carries(ErrorText(code, message, tid), Message(tid, None, None, Some(ErrorResponse(code, message))))
  {
    ErrorWritten(tid, None, code, message);
    ErrorSurvives(tid, code, message);
    hide SurvivesWire, WireSized;
    hide EntriesOf, Print, Lit, ParseMessage, IsUtf8, ErrorText;
    RoundTripIff(Message(tid, None, None, Some(ErrorResponse(code, message))));
  }
}
