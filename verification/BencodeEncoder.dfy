/** The encoder: bytes appended to a shared buffer. */
module BencodeEncoder {
  import opened Prelude
  import opened Text
  import opened BencodeFormat

  datatype EncodeError = UnsortedKeys

  class Buffer {
    var bytes: Bytes

    constructor ()
      ensures bytes == []
    {
      bytes := [];
    }

    method Put(more: Bytes)
      modifies this
      ensures bytes == old(bytes) + more
    {
      bytes := bytes + more;
    }
  }

  /** Every dictionary in the value lists its keys in strictly increasing order. */
  predicate Sorted(v: Value)
    decreases v, 0
  {
    match v
    case Str(_) => true
    case Integer(_) => true
    case List(items) => SortedItems(items)
    case Dict(entries) => SortedEntries(entries, None)
  }

  predicate SortedItems(items: seq<Value>)
    decreases items, 1
  {
    items == [] || (Sorted(items[0]) && SortedItems(items[1..]))
  }

  predicate SortedEntries(entries: seq<Entry>, last: Option<Bytes>)
    decreases entries, 1
  {
    entries == [] ||
    ((last.Some? ==> !LessEq(entries[0].key, last.value)) && Sorted(entries[0].value)
     && SortedEntries(entries[1..], Some(entries[0].key)))
  }

  method EncodeBytes(b: Bytes, buf: Buffer)
    modifies buf
    ensures buf.bytes == old(buf.bytes) + PrintString(b)
  {
    buf.Put(ToDecimal(|b|));
    buf.Put([COLON]);
    buf.Put(b);
    assert old(buf.bytes) + PrintString(b) == old(buf.bytes) + ToDecimal(|b|) + [COLON] + b;
  }

  method EncodeInteger(i: int, buf: Buffer)
    modifies buf
    ensures buf.bytes == old(buf.bytes) + Print(Integer(i))
  {
    buf.Put([CHAR_I]);
    buf.Put(ToSigned(i));
    buf.Put([CHAR_E]);
    assert old(buf.bytes) + Print(Integer(i)) == old(buf.bytes) + [CHAR_I] + ToSigned(i) + [CHAR_E];
  }

  /** Fails exactly when some dictionary is unsorted. */
  method EncodeValue(v: Value, buf: Buffer) returns (err: Option<EncodeError>)
    modifies buf
    ensures err == if Sorted(v) then None else Some(EncodeError.UnsortedKeys)
    ensures Sorted(v) ==> buf.bytes == old(buf.bytes) + Print(v)
    decreases v, 0
  {
    err := None;
    match v
    case Str(b) => EncodeBytes(b, buf);
    case Integer(i) => EncodeInteger(i, buf);
    case List(items) => err := EncodeList(items, buf);
    case Dict(entries) => err := EncodeDict(entries, buf);
  }

  method EncodeList(items: seq<Value>, buf: Buffer) returns (err: Option<EncodeError>)
    modifies buf
    ensures err == if SortedItems(items) then None else Some(EncodeError.UnsortedKeys)
    ensures SortedItems(items) ==> buf.bytes == old(buf.bytes) + Print(List(items))
    decreases items, 1
  {
    hide Print;
    buf.Put([CHAR_L]);
    assert items[0..] == items;
    for i := 0 to |items|
      invariant SortedItems(items) == SortedItems(items[i..])
      invariant SortedItems(items) ==>
        buf.bytes + PrintItems(items[i..]) == old(buf.bytes) + [CHAR_L] + PrintItems(items)
    {
      assert items[i..][0] == items[i] && items[i..][1..] == items[i + 1..];
      ghost var before := buf.bytes;
      err := EncodeValue(items[i], buf);
      if err.Some? {
        return;
      }
      if SortedItems(items) {
        assert before + (Print(items[i]) + PrintItems(items[i + 1..])) == buf.bytes + PrintItems(items[i + 1..]);
      }
    }
    buf.Put([CHAR_E]);
    err := None;
    if SortedItems(items) {
      ListPrint(old(buf.bytes), items);
    }
  }

  lemma ListPrint(before: Bytes, items: seq<Value>)
    ensures before + [CHAR_L] + PrintItems(items) + [CHAR_E] == before + Print(List(items))
  {
  }

  lemma DictPrint(before: Bytes, entries: seq<Entry>)
    ensures before + [CHAR_D] + PrintEntries(entries) + [CHAR_E] == before + Print(Dict(entries))
  {
  }

  lemma EntryPrint(before: Bytes, e: Entry, rest: Bytes)
    ensures before + (PrintString(e.key) + Print(e.value) + rest) == before + PrintString(e.key) + Print(e.value) + rest
  {
  }

  method EncodeDict(entries: seq<Entry>, buf: Buffer) returns (err: Option<EncodeError>)
    modifies buf
    ensures err == if SortedEntries(entries, None) then None else Some(EncodeError.UnsortedKeys)
    ensures SortedEntries(entries, None) ==> buf.bytes == old(buf.bytes) + Print(Dict(entries))
    decreases entries, 1
  {
    hide Print, PrintString;
    buf.Put([CHAR_D]);
    var prevKey: Option<Bytes> := None;
    assert entries[0..] == entries;
    for i := 0 to |entries|
      invariant SortedEntries(entries, None) == SortedEntries(entries[i..], prevKey)
      invariant SortedEntries(entries, None) ==>
        buf.bytes + PrintEntries(entries[i..]) == old(buf.bytes) + [CHAR_D] + PrintEntries(entries)
    {
      assert entries[i..][0] == entries[i] && entries[i..][1..] == entries[i + 1..];
      var e := entries[i];
      ghost var before := buf.bytes;
      if prevKey.Some? && LessEq(e.key, prevKey.value) {
        return Some(EncodeError.UnsortedKeys);
      }
      prevKey := Some(e.key);
      EncodeBytes(e.key, buf);
      err := EncodeValue(e.value, buf);
      if err.Some? {
        return;
      }
      if SortedEntries(entries, None) {
        EntryPrint(before, e, PrintEntries(entries[i + 1..]));
      }
    }
    buf.Put([CHAR_E]);
    err := None;
    if SortedEntries(entries, None) {
      DictPrint(old(buf.bytes), entries);
    }
  }

  /** `encode`: the canonical bytes of any value whose dictionaries are sorted. */
  method Encode(v: Value) returns (r: Result<Bytes, EncodeError>)
    ensures r == if Sorted(v) then Ok(Print(v)) else Err(EncodeError.UnsortedKeys)
  {
    var buf := new Buffer();
    var err := EncodeValue(v, buf);
    if err.Some? {
      return Err(err.value);
    }
    assert [] + Print(v) == Print(v);
    return Ok(buf.bytes);
  }

  /** Whatever the decoder produces can be encoded. */
  lemma {:induction false} FitsIsSorted(v: Value, depth: nat)
    requires Fits(v, depth)
    ensures Sorted(v)
    decreases v, 0
  {
    match v
    case Str(_) =>
    case Integer(_) =>
    case List(items) => FitsItemsSorted(items, depth);
    case Dict(entries) => FitsEntriesSorted(entries, None, depth);
  }

  lemma {:induction false} FitsItemsSorted(items: seq<Value>, depth: nat)
    requires FitsItems(items, depth)
    ensures SortedItems(items)
    decreases items, 1
  {
    if items != [] {
      FitsIsSorted(items[0], depth + 1);
      FitsItemsSorted(items[1..], depth);
    }
  }

  lemma {:induction false} FitsEntriesSorted(entries: seq<Entry>, last: Option<Bytes>, depth: nat)
    requires FitsEntries(entries, last, depth)
    ensures SortedEntries(entries, last)
    decreases entries, 1
  {
    if entries != [] {
      FitsIsSorted(entries[0].value, depth + 1);
      FitsEntriesSorted(entries[1..], Some(entries[0].key), depth);
    }
  }
}
