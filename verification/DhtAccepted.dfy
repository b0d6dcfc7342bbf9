/** What the parser of messages accepts is what the encoder can give back. */
module DhtAccepted {
  import opened Prelude
  import opened Text
  import opened BencodeFormat
  import opened BTree
  import opened DhtMessage
  import opened DhtRoundTrip
  import opened WireText
  import DhtWire
  import BencodeCanonical

  lemma {:induction false} FindFits(entries: seq<Entry>, last: Option<Bytes>, depth: nat, key: Bytes)
    requires FitsEntries(entries, last, depth)
    ensures Find(entries, key).Some? ==> Fits(Find(entries, key).value, depth + 1)
  {
    if entries != [] {
      FindFits(entries[1..], Some(entries[0].key), depth, key);
    }
  }

  lemma {:induction false} ParsedNodes(b: Bytes)
    ensures AllV4Nodes(ParseNodes(b)) && |CompactNodes(ParseNodes(b))| <= |b|
  {
    if |b| >= 26 {
      ParsedNodes(b[26..]);
      var rest := ParseNodes(b[26..]);
      assert ParseNodes(b)[1..] == rest;
    }
  }

  lemma {:induction false} ParsedPeers(items: seq<Value>)
    ensures AllV4Peers(ParsePeers(items))
  {
    if items != [] {
      ParsedPeers(items[1..]);
    }
  }

  /** The arguments of an accepted query are those of a query of its name. */
  lemma ArgsAccepted(name: Bytes, args: seq<Entry>)
    requires FitsEntries(args, None, 1) && ParseArgs(name, args).Ok?
    ensures var query := ParseArgs(name, args).value;
      name == QueryName(query) && (query.AnnounceQuery? ==> |query.token| <= MAX_STRING_LENGTH)
  {
    FindFits(args, None, 1, KEY_TOKEN);
    var token := Find(args, KEY_TOKEN);
    hide Find, FitsEntries, IsUtf8;
    assert token.Some? && token.value.Str? ==> |token.value.bytes| <= MAX_STRING_LENGTH;
    hide Fits;
  }

  lemma NamesAreShort(query: Query)
    ensures |QueryName(query)| <= MAX_STRING_LENGTH
  {
  }

  lemma QueryAccepted(tid: Bytes, dict: seq<Entry>)
    requires FitsEntries(dict, None, 0) && |tid| <= MAX_STRING_LENGTH && ParseQuery(tid, dict).Ok?
    ensures SurvivesWire(ParseQuery(tid, dict).value) && WireSized(ParseQuery(tid, dict).value)
  {
    FindFits(dict, None, 0, KEY_A);
    var name, args := Find(dict, KEY_Q).value.bytes, Find(dict, KEY_A).value.entries;
    hide Find, FitsEntries, IsUtf8, ParseArgs;
    ArgsAccepted(name, args);
    NamesAreShort(ParseArgs(name, args).value);
    hide QueryName, Fits;
  }

  lemma ResponseAccepted(tid: Bytes, dict: seq<Entry>)
    requires FitsEntries(dict, None, 0) && |tid| <= MAX_STRING_LENGTH && ParseResponse(tid, dict).Ok?
    ensures SurvivesWire(ParseResponse(tid, dict).value) && WireSized(ParseResponse(tid, dict).value)
  {
    FindFits(dict, None, 0, KEY_R);
    var resp := Find(dict, KEY_R).value.entries;
    FindFits(resp, None, 1, KEY_TOKEN);
    FindFits(resp, None, 1, KEY_NODES);
    var nodes, values := AsBytes(Find(resp, KEY_NODES)), AsList(Find(resp, KEY_VALUES));
    if nodes.Some? {
      ParsedNodes(nodes.value);
    }
    if values.Some? {
      ParsedPeers(values.value);
    }
    hide Find, FitsEntries, IsUtf8, ParseNodes, ParsePeers, CompactNodes, AllV4Nodes, AllV4Peers;
  }

  lemma ItemsFit(items: seq<Value>, depth: nat)
    requires FitsItems(items, depth)
    ensures |items| > 0 ==> Fits(items[0], depth + 1)
    ensures |items| > 1 ==> Fits(items[1], depth + 1)
  {
    if |items| > 1 {
      assert FitsItems(items[1..], depth) && items[1..][0] == items[1];
    }
    hide Fits;
  }

  lemma UnknownErrorFits()
    ensures IsUtf8(UNKNOWN_ERROR) && |UNKNOWN_ERROR| <= MAX_STRING_LENGTH
  {
    hide IsUtf8;
    AsciiIsUtf8(UNKNOWN_ERROR);
  }

  lemma ErrorAccepted(tid: Bytes, dict: seq<Entry>)
    requires FitsEntries(dict, None, 0) && |tid| <= MAX_STRING_LENGTH && ParseError(tid, dict).Ok?
    ensures SurvivesWire(ParseError(tid, dict).value) && WireSized(ParseError(tid, dict).value)
  {
    hide IsUtf8, Find, FitsEntries;
    FindFits(dict, None, 0, KEY_E);
    UnknownErrorFits();
    var items := Find(dict, KEY_E).value.items;
    assert FitsItems(items, 1);
    ItemsFit(items, 1);
    hide FitsItems, UNKNOWN_ERROR, KEY_E;
  }

  /**
   Every message the parser accepts, from any bytes, survives the wire: encoding it
   and parsing the result gives the same message again.
   */
  lemma AcceptedRoundTrips(data: Bytes)
    requires ParseMessage(data).Ok?
    ensures var m := ParseMessage(data).value;
      SurvivesWire(m) && ParseMessage(Print(Dict(EntriesOf(m)))) == Ok(m)
  {
    BencodeCanonical.EncodeDecodeIff(data);
    var dict := AsDict(Some(Decode(data).value)).value;
    FindFits(dict, None, 0, KEY_T);
    var tid := AsBytes(Find(dict, KEY_T)).value;
    hide Find, SurvivesWire, WireSized, ParseQuery, ParseResponse, ParseError, FitsEntries, EntriesOf, Print;
    if AsStr(Find(dict, KEY_Y)) == Some(KEY_Q) {
      QueryAccepted(tid, dict);
    } else if AsStr(Find(dict, KEY_Y)) == Some(KEY_R) {
      ResponseAccepted(tid, dict);
    } else {
      ErrorAccepted(tid, dict);
    }
    RoundTripIff(ParseMessage(data).value);
  }

  /** The messages that come back from the wire are exactly those some bytes are parsed as. */
  lemma AcceptedIff(m: Message)
    requires WireSized(m)
    ensures SurvivesWire(m) <==> exists data :: ParseMessage(data) == Ok(m)
  {
    RoundTripIff(m);
    if data :| ParseMessage(data) == Ok(m) {
      AcceptedRoundTrips(data);
    }
    hide ParseMessage, SurvivesWire, WireSized;
  }

  /** An IPv6 contact, and an IPv6 peer, is lost on the way. */
  lemma Ipv6IsLost(transactionId: Bytes, id: Id, v6: Addr)
    requires |transactionId| <= MAX_STRING_LENGTH && v6.V6?
    ensures var nodes := Message(transactionId, Some(id), None, Some(FindNodeResponse(id, [Contact(id, v6)])));
      ParseMessage(Print(Dict(EntriesOf(nodes)))) == Ok(nodes.(response := Some(FindNodeResponse(id, []))))
    ensures var peers := Message(transactionId, Some(id), None, Some(GetPeersResponse(id, [], Some([v6]), None)));
      ParseMessage(Print(Dict(EntriesOf(peers))))
        == Ok(peers.(response := Some(GetPeersResponse(id, [], Some([]), None))))
  {
    NoneIsV4(Contact(id, v6));
    hide ParseMessage, EntriesOf, Print, OnlyV4Nodes, OnlyV4Peers, CompactNodes;
    ParseEncode(Message(transactionId, Some(id), None, Some(FindNodeResponse(id, [Contact(id, v6)]))));
    ParseEncode(Message(transactionId, Some(id), None, Some(GetPeersResponse(id, [], Some([v6]), None))));
  }

  lemma NoneIsV4(c: Contact)
    requires c.addr.V6?
    ensures OnlyV4Nodes([c]) == [] && OnlyV4Peers([c.addr]) == [] && CompactNodes([c]) == []
  {
    assert [c][1..] == [] && [c.addr][1..] == [];
  }

  /** The port of an announcement is the lower sixteen bits of the number given, and is implied by a 1 only. */
  lemma AnnouncePortWraps(args: seq<Entry>, h: Id, port: int, token: Bytes)
    requires Find(args, Lit("info_hash")) == Some(Str(h)) && Find(args, Lit("port")) == Some(Integer(port))
    requires Find(args, Lit("token")) == Some(Str(token))
    ensures ParseArgs(Lit("announce_peer"), args) ==
      Ok(AnnounceQuery(h, port % 0x1_0000, token, Find(args, Lit("implied_port")) == Some(Integer(1))))
  {
    DhtWire.Keys();
    DhtWire.LongKeys();
    DhtWire.Names();
    hide Find, Lit, KEY_INFO_HASH, KEY_PORT, KEY_TOKEN, KEY_IMPLIED_PORT;
  }

  /** An error list without a number or a text stands for code 0 and `unknown error`. */
  lemma ErrorDefaults(tid: Bytes, dict: seq<Entry>, items: seq<Value>)
    requires Find(dict, Lit("e")) == Some(List(items))
    ensures ParseError(tid, dict) == Ok(Message(tid, None, None, Some(ErrorResponse(
      if |items| > 0 && items[0].Integer? then items[0].number else 0,
      if |items| > 1 && items[1].Str? && IsUtf8(items[1].bytes) then items[1].bytes else Lit("unknown error")))))
  {
    DhtWire.Keys();
    DhtWire.LongKeys();
    hide Find, Lit, KEY_E, UNKNOWN_ERROR, IsUtf8;
  }
}
