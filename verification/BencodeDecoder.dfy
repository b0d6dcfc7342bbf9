/** The decoder: a cursor advanced step by step over the input. */
module BencodeDecoder {
  import opened Prelude
  import opened Text
  import opened BencodeFormat

  class Cursor {
    const data: Bytes
    var pos: nat

    ghost predicate Valid()
      reads this
    {
      pos <= |data|
    }

    constructor (data: Bytes)
      ensures Valid() && this.data == data && pos == 0
    {
      this.data := data;
      pos := 0;
    }

    method Peek() returns (b: Option<byte>)
      requires Valid()
      ensures b == if pos < |data| then Some(data[pos]) else None
    {
      b := if pos < |data| then Some(data[pos]) else None;
    }

    method Next() returns (r: Result<byte, DecodeError>)
      requires Valid()
      modifies this
      ensures Valid()
      ensures old(pos) < |data| ==> r == Ok(data[old(pos)]) && pos == old(pos) + 1
      ensures old(pos) == |data| ==> r == Err(UnexpectedEof) && pos == old(pos)
    {
      var b := Peek();
      match b
      case None => return Err(UnexpectedEof);
      case Some(x) =>
        pos := pos + 1;
        return Ok(x);
    }

    method ReadBytes(length: nat) returns (r: Result<Bytes, DecodeError>)
      requires Valid()
      modifies this
      ensures Valid()
      ensures old(pos) + length > |data| ==> r == Err(UnexpectedEof)
      ensures old(pos) + length <= |data| ==> r == Ok(data[old(pos)..old(pos) + length]) && pos == old(pos) + length
    {
      if pos + length > |data| {
        return Err(UnexpectedEof);
      }
      r := Ok(data[pos..pos + length]);
      pos := pos + length;
    }
  }

  /** The method's result and cursor are what the grammar says. */
  ghost predicate Agrees<T>(spec: Result<(T, nat), DecodeError>, r: Result<T, DecodeError>, pos: nat) {
    match spec
    case Ok((v, end)) => r == Ok(v) && pos == end
    case Err(e) => r == Err(e)
  }

  method DecodeInteger(cursor: Cursor) returns (r: Result<Value, DecodeError>)
    requires cursor.Valid() && cursor.pos < |cursor.data| && cursor.data[cursor.pos] == CHAR_I
    modifies cursor
    ensures cursor.Valid() && Agrees(ParseInteger(cursor.data, old(cursor.pos) + 1), r, cursor.pos)
  {
    hide ParseNumber;
    var _ := cursor.Next();
    var numBytes := [];
    ghost var start := cursor.pos;
    while true
      invariant cursor.Valid() && start <= cursor.pos
      invariant numBytes == cursor.data[start..cursor.pos]
      invariant FindE(cursor.data, start) == FindE(cursor.data, cursor.pos)
      decreases |cursor.data| - cursor.pos
    {
      var b := cursor.Next();
      if b.Err? {
        return Err(b.error);
      }
      if b.value == CHAR_E {
        break;
      }
      numBytes := numBytes + [b.value];
    }
    r := match ParseNumber(numBytes) case Ok(i) => Ok(Integer(i)) case Err(e) => Err(e);
  }

  method DecodeBytes(cursor: Cursor) returns (r: Result<Value, DecodeError>)
    requires cursor.Valid()
    modifies cursor
    ensures cursor.Valid() && Agrees(ParseString(cursor.data, old(cursor.pos)), r, cursor.pos)
  {
    hide ParseLength;
    var lenBytes := [];
    ghost var start := cursor.pos;
    while true
      invariant cursor.Valid() && start <= cursor.pos
      invariant lenBytes == cursor.data[start..cursor.pos] && AllDigits(lenBytes)
      invariant SkipDigits(cursor.data, start) == SkipDigits(cursor.data, cursor.pos)
      decreases |cursor.data| - cursor.pos
    {
      var b := cursor.Next();
      if b.Err? {
        return Err(b.error);
      }
      if b.value == COLON {
        break;
      }
      if !IsDigit(b.value) {
        return Err(InvalidStringLength);
      }
      lenBytes := lenBytes + [b.value];
    }
    var length := ParseLength(lenBytes);
    if length.Err? {
      return Err(length.error);
    }
    var bytes := cursor.ReadBytes(length.value);
    r := match bytes case Ok(b) => Ok(Str(b)) case Err(e) => Err(e);
  }

  method DecodeValue(cursor: Cursor, depth: nat) returns (r: Result<Value, DecodeError>)
    requires cursor.Valid()
    modifies cursor
    ensures cursor.Valid() && Agrees(ParseValue(cursor.data, old(cursor.pos), depth), r, cursor.pos)
    decreases |cursor.data| - cursor.pos, 2
  {
    var tracked := DecodeValueTrackingInfo(cursor, depth);
    r := match tracked case Ok((v, _)) => Ok(v) case Err(e) => Err(e);
  }

  /** The raw `info` slice a value carries; only a dictionary's own key counts. */
  ghost function InfoOf(data: Bytes, pos: nat, depth: nat): Option<Bytes>
    requires pos <= |data| && ParseValue(data, pos, depth).Ok?
  {
    if data[pos] == CHAR_D then RawInfo(data, pos + 1, None, depth) else None
  }

  method DecodeValueTrackingInfo(cursor: Cursor, depth: nat) returns (r: Result<(Value, Option<Bytes>), DecodeError>)
    requires cursor.Valid()
    modifies cursor
    ensures cursor.Valid()
    ensures match ParseValue(cursor.data, old(cursor.pos), depth)
      case Ok((v, end)) => r == Ok((v, InfoOf(cursor.data, old(cursor.pos), depth))) && cursor.pos == end
      case Err(e) => r == Err(e)
    decreases |cursor.data| - cursor.pos, 1
  {
    hide ParseInteger, ParseString, ParseItems, ParseEntries, RawInfo;
    if depth > MAX_NESTING_DEPTH {
      return Err(NestingTooDeep);
    }
    var b := cursor.Peek();
    if b.None? {
      return Err(UnexpectedEof);
    }
    if b.value == CHAR_I {
      var v := DecodeInteger(cursor);
      r := match v case Ok(x) => Ok((x, None)) case Err(e) => Err(e);
    } else if b.value == CHAR_L {
      var v := DecodeList(cursor, depth);
      r := match v case Ok(x) => Ok((x, None)) case Err(e) => Err(e);
    } else if b.value == CHAR_D {
      r := DecodeDictTrackingInfo(cursor, depth);
    } else if IsDigit(b.value) {
      var v := DecodeBytes(cursor);
      r := match v case Ok(x) => Ok((x, None)) case Err(e) => Err(e);
    } else {
      return Err(UnexpectedByte(b.value));
    }
  }

  method DecodeList(cursor: Cursor, depth: nat) returns (r: Result<Value, DecodeError>)
    requires cursor.Valid() && cursor.pos < |cursor.data| && cursor.data[cursor.pos] == CHAR_L
    modifies cursor
    ensures cursor.Valid()
    ensures match ParseItems(cursor.data, old(cursor.pos) + 1, depth)
      case Ok((items, end)) => r == Ok(List(items)) && cursor.pos == end
      case Err(e) => r == Err(e)
    decreases |cursor.data| - cursor.pos, 0
  {
    hide ParseValue;
    var _ := cursor.Next();
    var items := [];
    ghost var whole := ParseItems(cursor.data, cursor.pos, depth);
    PrependNone(whole);
    while true
      invariant cursor.Valid() && old(cursor.pos) < cursor.pos
      invariant whole == Prepend(items, ParseItems(cursor.data, cursor.pos, depth))
      decreases |cursor.data| - cursor.pos
    {
      var b := cursor.Peek();
      if b == Some(CHAR_E) {
        var _ := cursor.Next();
        break;
      }
      var v := DecodeValue(cursor, depth + 1);
      if v.Err? {
        return Err(v.error);
      }
      PrependMore(items, v.value, ParseItems(cursor.data, cursor.pos, depth));
      items := items + [v.value];
    }
    assert items + [] == items;
    r := Ok(List(items));
  }

  ghost function Prepend<T>(done: seq<T>,
                            rest: Result<(seq<T>, nat), DecodeError>): Result<(seq<T>, nat), DecodeError> {
    match rest
    case Ok((more, end)) => Ok((done + more, end))
    case Err(e) => Err(e)
  }

  lemma PrependNone<T>(rest: Result<(seq<T>, nat), DecodeError>)
    ensures Prepend([], rest) == rest
  {
    if rest.Ok? {
      assert [] + rest.value.0 == rest.value.0;
    }
  }

  lemma PrependMore<T>(done: seq<T>, x: T, rest: Result<(seq<T>, nat), DecodeError>)
    ensures Prepend(done, Prepend([x], rest)) == Prepend(done + [x], rest)
  {
    if rest.Ok? {
      assert done + ([x] + rest.value.0) == done + [x] + rest.value.0;
    }
  }

  /** A later `info` value, if any, wins. */
  ghost function Later(earlier: Option<Bytes>, later: Option<Bytes>): Option<Bytes> {
    if later.Some? then later else earlier
  }

  method DecodeDictTrackingInfo(cursor: Cursor, depth: nat) returns (r: Result<(Value, Option<Bytes>), DecodeError>)
    requires cursor.Valid() && cursor.pos < |cursor.data| && cursor.data[cursor.pos] == CHAR_D
    modifies cursor
    ensures cursor.Valid()
    ensures match ParseEntries(cursor.data, old(cursor.pos) + 1, None, depth)
      case Ok((entries, end)) =>
        r == Ok((Dict(entries), RawInfo(cursor.data, old(cursor.pos) + 1, None, depth))) && cursor.pos == end
      case Err(e) => r == Err(e)
    decreases |cursor.data| - cursor.pos, 0
  {
    hide ParseValue, ParseEntry;
    var _ := cursor.Next();
    var dict := [];
    var lastKey: Option<Bytes> := None;
    var infoRaw: Option<Bytes> := None;
    ghost var start := cursor.pos;
    ghost var whole := ParseEntries(cursor.data, start, None, depth);
    PrependNone(whole);
    while true
      invariant cursor.Valid() && old(cursor.pos) < cursor.pos
      invariant whole == Prepend(dict, ParseEntries(cursor.data, cursor.pos, lastKey, depth))
      invariant whole.Ok? ==> RawInfo(cursor.data, start, None, depth)
                                == Later(infoRaw, RawInfo(cursor.data, cursor.pos, lastKey, depth))
      decreases |cursor.data| - cursor.pos
    {
      var b := cursor.Peek();
      if b == Some(CHAR_E) {
        var _ := cursor.Next();
        break;
      }
      ghost var last := lastKey;
      ghost var at := cursor.pos;
      var entry, raw := DecodeEntry(cursor, lastKey, depth);
      if entry.Err? {
        return Err(entry.error);
      }
      PrependMore(dict, entry.value, ParseEntries(cursor.data, cursor.pos, Some(entry.value.key), depth));
      lastKey := Some(entry.value.key);
      if entry.value.key == INFO_KEY {
        infoRaw := Some(raw);
      }
      dict := dict + [entry.value];
    }
    assert dict + [] == dict;
    r := Ok((Dict(dict), infoRaw));
  }

  /** One turn of the dictionary loop: a key, the order check, and its value. */
  method DecodeEntry(cursor: Cursor, lastKey: Option<Bytes>, depth: nat) returns (r: Result<Entry, DecodeError>,
                     raw: Bytes)
    requires cursor.Valid()
    modifies cursor
    ensures cursor.Valid()
    ensures match ParseEntry(cursor.data, old(cursor.pos), lastKey, depth)
      case Ok((e, mid, end)) => r == Ok(e) && cursor.pos == end && raw == cursor.data[mid..end]
      case Err(e) => r == Err(e)
    decreases |cursor.data| - cursor.pos, 3
  {
    hide ParseValue;
    raw := [];
    var key := DecodeValue(cursor, depth + 1);
    if key.Err? {
      return Err(key.error), raw;
    }
    if !key.value.Str? {
      return Err(NonStringKey), raw;
    }
    if lastKey.Some? && LessEq(key.value.bytes, lastKey.value) {
      return Err(UnsortedKeys), raw;
    }
    var valueStart := cursor.pos;
    var value := DecodeValue(cursor, depth + 1);
    if value.Err? {
      return Err(value.error), raw;
    }
    raw := cursor.data[valueStart..cursor.pos];
    r := Ok(Entry(key.value.bytes, value.value));
  }

  method Decode(data: Bytes) returns (r: Result<Value, DecodeError>)
    ensures r == BencodeFormat.Decode(data)
  {
    var cursor := new Cursor(data);
    r := DecodeValue(cursor, 0);
    if r.Ok? && |data| - cursor.pos > 0 {
      return Err(TrailingData);
    }
  }

  method DecodeWithInfoRaw(data: Bytes) returns (r: Result<(Value, Option<Bytes>), DecodeError>)
    ensures r == BencodeFormat.DecodeWithInfoRaw(data)
  {
    hide ParseInteger, ParseString, ParseItems, ParseEntries, RawInfo;
    var cursor := new Cursor(data);
    r := DecodeValueTrackingInfo(cursor, 0);
    if r.Ok? && |data| - cursor.pos > 0 {
      return Err(TrailingData);
    }
    if ParseValue(data, 0, 0).Ok? {
      DictIffTag(data, 0, 0);
    }
  }
}
