/** The raw `info` slice: a decodable encoding of the `info` value on its own. */
module BencodeInfo {
  import opened Prelude
  import opened Sequences
  import opened Text
  import opened BencodeFormat
  import opened BencodeCanonical

  /** The same `n` bytes stand at `pos` of `data` and at `start` of `other`. */
  ghost predicate Same(data: Bytes, pos: nat, other: Bytes, start: nat, n: nat) {
    pos + n <= |data| && start + n <= |other| && data[pos..pos + n] == other[start..start + n]
  }

  lemma SameByte(data: Bytes, pos: nat, other: Bytes, start: nat, n: nat, i: nat)
    requires Same(data, pos, other, start, n) && i < n
    ensures other[start + i] == data[pos + i]
  {
  }

  lemma SameSlice(data: Bytes, pos: nat, other: Bytes, start: nat, n: nat, a: nat, b: nat)
    requires Same(data, pos, other, start, n) && a <= b <= n
    ensures other[start + a..start + b] == data[pos + a..pos + b]
    ensures Same(data, pos + a, other, start + a, b - a)
  {
    SubSlice(data, pos, pos + n, a, b);
    SubSlice(other, start, start + n, a, b);
  }

  lemma SameBounds(data: Bytes, pos: nat, other: Bytes, start: nat, n: nat)
    requires Same(data, pos, other, start, n)
    ensures pos + n <= |data| && start + n <= |other|
  {
  }

  lemma RelocateInteger(data: Bytes, pos: nat, other: Bytes, start: nat)
    requires pos <= |data| && ParseInteger(data, pos).Ok?
    requires Same(data, pos, other, start, ParseInteger(data, pos).value.1 - pos)
    ensures ParseInteger(other, start) ==
            Ok((ParseInteger(data, pos).value.0, start + (ParseInteger(data, pos).value.1 - pos)))
  {
    hide ParseNumber, FindE, Same;
    var e := FindE(data, pos);
    var n := e + 1 - pos;
    SameBounds(data, pos, other, start, n);
    SameByte(data, pos, other, start, n, e - pos);
    forall i | start <= i < start + (e - pos) ensures other[i] != CHAR_E {
      SameByte(data, pos, other, start, n, i - start);
    }
    assert FindE(other, start) == start + (e - pos);
    SameSlice(data, pos, other, start, n, 0, e - pos);
  }

  lemma RelocateString(data: Bytes, pos: nat, other: Bytes, start: nat)
    requires pos <= |data| && ParseString(data, pos).Ok?
    requires Same(data, pos, other, start, ParseString(data, pos).value.1 - pos)
    ensures ParseString(other, start) ==
            Ok((ParseString(data, pos).value.0, start + (ParseString(data, pos).value.1 - pos)))
  {
    hide ParseLength, SkipDigits, Same;
    var colon, n := SkipDigits(data, pos), ParseString(data, pos).value.1 - pos;
    var k := colon - pos;
    SameBounds(data, pos, other, start, n);
    SameByte(data, pos, other, start, n, k);
    assert !IsDigit(COLON);
    forall i | start <= i < start + k ensures IsDigit(other[i]) {
      SameByte(data, pos, other, start, n, i - start);
    }
    assert SkipDigits(other, start) == start + k;
    SameSlice(data, pos, other, start, n, 0, k);
    SameSlice(data, pos, other, start, n, k + 1, n);
  }

  /** A parse depends only on the bytes it reads, and succeeds at lesser depths too. */
  lemma {:induction false} Relocate(data: Bytes, pos: nat, depth: nat, other: Bytes, start: nat, shallow: nat)
    requires pos <= |data| && ParseValue(data, pos, depth).Ok? && shallow <= depth
    requires Same(data, pos, other, start, ParseValue(data, pos, depth).value.1 - pos)
    ensures ParseValue(other, start, shallow) ==
            Ok((ParseValue(data, pos, depth).value.0, start + (ParseValue(data, pos, depth).value.1 - pos)))
    decreases |data| - pos, 0
  {
    hide ParseInteger, ParseString, ParseItems, ParseEntries, Same;
    var n := ParseValue(data, pos, depth).value.1 - pos;
    SameBounds(data, pos, other, start, n);
    SameByte(data, pos, other, start, n, 0);
    SameSlice(data, pos, other, start, n, 1, n);
    if data[pos] == CHAR_I {
      RelocateInteger(data, pos + 1, other, start + 1);
    } else if data[pos] == CHAR_L {
      RelocateItems(data, pos + 1, depth, other, start + 1, shallow);
    } else if data[pos] == CHAR_D {
      RelocateEntries(data, pos + 1, None, depth, other, start + 1, shallow);
    } else {
      RelocateString(data, pos, other, start);
    }
  }

  lemma {:induction false} RelocateItems(data: Bytes, pos: nat, depth: nat, other: Bytes, start: nat, shallow: nat)
    requires pos <= |data| && ParseItems(data, pos, depth).Ok? && shallow <= depth
    requires Same(data, pos, other, start, ParseItems(data, pos, depth).value.1 - pos)
    ensures ParseItems(other, start, shallow) ==
            Ok((ParseItems(data, pos, depth).value.0, start + (ParseItems(data, pos, depth).value.1 - pos)))
    decreases |data| - pos, 1
  {
    hide ParseValue, Same;
    var n := ParseItems(data, pos, depth).value.1 - pos;
    SameBounds(data, pos, other, start, n);
    SameByte(data, pos, other, start, n, 0);
    if data[pos] != CHAR_E {
      var (v, next) := ParseValue(data, pos, depth + 1).value;
      SameSlice(data, pos, other, start, n, 0, next - pos);
      SameSlice(data, pos, other, start, n, next - pos, n);
      Relocate(data, pos, depth + 1, other, start, shallow + 1);
      RelocateItems(data, next, depth, other, start + (next - pos), shallow);
    }
  }

  lemma {:induction false} RelocateEntry(data: Bytes, pos: nat, last: Option<Bytes>, depth: nat, other: Bytes,
                                         start: nat,
                                         shallow: nat)
    requires pos <= |data| && ParseEntry(data, pos, last, depth).Ok? && shallow <= depth
    requires Same(data, pos, other, start, ParseEntry(data, pos, last, depth).value.2 - pos)
    ensures var (e, mid, next) := ParseEntry(data, pos, last, depth).value;
      ParseEntry(other, start, last, shallow) == Ok((e, start + (mid - pos), start + (next - pos)))
    decreases |data| - pos, 1
  {
    hide ParseValue, Same, LessEq;
    var (e, mid, next) := ParseEntry(data, pos, last, depth).value;
    SameBounds(data, pos, other, start, next - pos);
    SameSlice(data, pos, other, start, next - pos, 0, mid - pos);
    SameSlice(data, pos, other, start, next - pos, mid - pos, next - pos);
    Relocate(data, pos, depth + 1, other, start, shallow + 1);
    Relocate(data, mid, depth + 1, other, start + (mid - pos), shallow + 1);
  }

  lemma {:induction false} RelocateEntries(data: Bytes, pos: nat, last: Option<Bytes>, depth: nat, other: Bytes,
                                           start: nat,
                                           shallow: nat)
    requires pos <= |data| && ParseEntries(data, pos, last, depth).Ok? && shallow <= depth
    requires Same(data, pos, other, start, ParseEntries(data, pos, last, depth).value.1 - pos)
    ensures ParseEntries(other, start, last, shallow) ==
            Ok((ParseEntries(data, pos, last, depth).value.0, start + (ParseEntries(data, pos, last,
               depth).value.1 - pos)))
    decreases |data| - pos, 2
  {
    hide ParseEntry, Same;
    var n := ParseEntries(data, pos, last, depth).value.1 - pos;
    SameBounds(data, pos, other, start, n);
    SameByte(data, pos, other, start, n, 0);
    if data[pos] != CHAR_E {
      var (e, _, next) := ParseEntry(data, pos, last, depth).value;
      SameSlice(data, pos, other, start, n, 0, next - pos);
      SameSlice(data, pos, other, start, n, next - pos, n);
      RelocateEntry(data, pos, last, depth, other, start, shallow);
      RelocateEntries(data, next, Some(e.key), depth, other, start + (next - pos), shallow);
    }
  }

  // --------------------------------------------------------------- the info slice

  /** The bytes of a value decode on their own to it. */
  lemma ValueSlice(data: Bytes, pos: nat, depth: nat)
    requires pos <= |data| && ParseValue(data, pos, depth).Ok?
    ensures var (v, end) := ParseValue(data, pos, depth).value; Decode(data[pos..end]) == Ok(v)
  {
    hide ParseValue;
    Relocate(data, pos, depth, data[pos..ParseValue(data, pos, depth).value.1], 0, 0);
  }

  /** `raw` is the bytes of the `info` value of some entry. */
  ghost predicate RawOf(raw: Bytes, entries: seq<Entry>) {
    exists e :: e in entries && e.key == INFO_KEY && Decode(raw) == Ok(e.value)
  }

  lemma {:induction false} RawInfoIs(data: Bytes, pos: nat, last: Option<Bytes>, depth: nat)
    requires pos <= |data| && ParseEntries(data, pos, last, depth).Ok?
    ensures var entries, raw := ParseEntries(data, pos, last, depth).value.0, RawInfo(data, pos, last, depth);
      && (raw.None? <==> forall e :: e in entries ==> e.key != INFO_KEY)
      && (raw.Some? ==> RawOf(raw.value, entries))
    decreases |data| - pos
  {
    hide ParseValue, Decode;
    if data[pos] != CHAR_E {
      var (entry, mid, next) := ParseEntry(data, pos, last, depth).value;
      var rest := ParseEntries(data, next, Some(entry.key), depth).value.0;
      var entries := ParseEntries(data, pos, last, depth).value.0;
      assert entries == [entry] + rest;
      assert forall e :: e in entries <==> e == entry || e in rest;
      RawInfoIs(data, next, Some(entry.key), depth);
      ValueSlice(data, mid, depth + 1);
    }
  }

  /**
   The raw slice exists exactly when the top-level dictionary has an `info` key. It
   decodes on its own to the `info` value, and is its encoding exactly when no
   integer token inside the slice begins with a plus sign.
   */
  lemma InfoRawStandsForInfo(data: Bytes)
    requires DecodeWithInfoRaw(data).Ok?
    ensures var (v, raw) := DecodeWithInfoRaw(data).value;
      && Decode(data) == Ok(v)
      && (raw.Some? <==> v.Dict? && exists e :: e in v.entries && e.key == INFO_KEY)
      && (raw.Some? ==>
            exists e :: e in v.entries && e.key == INFO_KEY && Decode(raw.value) == Ok(e.value)
              && (raw.value == Print(e.value) <==> !HasPlus(raw.value, 0, 0)))
  {
    var (v, end) := ParseValue(data, 0, 0).value;
    if v.Dict? {
      DictIffTag(data, 0, 0);
      RawInfoIs(data, 1, None, 0);
      var raw := DecodeWithInfoRaw(data).value.1;
      if raw.Some? {
        var e :| e in v.entries && e.key == INFO_KEY && Decode(raw.value) == Ok(e.value);
        EncodeDecodeIff(raw.value);
      }
    }
  }
}
