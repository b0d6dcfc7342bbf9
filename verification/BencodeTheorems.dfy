/** decode(encode(v)) == v for every value the decoder can produce. */
module BencodeTheorems {
  import opened Prelude
  import opened Text
  import opened BencodeFormat

  /** `part` stands in `data` at `pos`. */
  ghost predicate At(data: Bytes, pos: nat, part: Bytes) {
    pos + |part| <= |data| && data[pos..pos + |part|] == part
  }

  lemma AtSplit(data: Bytes, pos: nat, a: Bytes, b: Bytes)
    ensures At(data, pos, a + b) <==> At(data, pos, a) && At(data, pos + |a|, b)
  {
    if At(data, pos, a + b) {
      assert data[pos..pos + |a|] == (a + b)[..|a|];
      assert data[pos + |a|..pos + |a| + |b|] == (a + b)[|a|..];
    }
    if At(data, pos, a) && At(data, pos + |a|, b) {
      assert data[pos..pos + |a| + |b|] == a + b;
    }
  }

  lemma AtByte(data: Bytes, pos: nat, part: Bytes, i: nat)
    requires At(data, pos, part) && i < |part|
    ensures data[pos + i] == part[i]
  {
  }

  // -------------------------------------------------------------------- leaves

  lemma FindEAt(data: Bytes, pos: nat, token: Bytes)
    requires At(data, pos, token + [CHAR_E])
    requires forall i :: 0 <= i < |token| ==> token[i] != CHAR_E
    ensures FindE(data, pos) == pos + |token|
  {
    AtByte(data, pos, token + [CHAR_E], |token|);
    forall i | pos <= i < pos + |token| ensures data[i] != CHAR_E {
      AtByte(data, pos, token + [CHAR_E], i - pos);
    }
  }

  lemma SkipDigitsAt(data: Bytes, pos: nat, digits: Bytes)
    requires At(data, pos, digits + [COLON]) && AllDigits(digits)
    ensures SkipDigits(data, pos) == pos + |digits|
  {
    AtByte(data, pos, digits + [COLON], |digits|);
    assert !IsDigit(COLON);
    forall i | pos <= i < pos + |digits| ensures IsDigit(data[i]) {
      AtByte(data, pos, digits + [COLON], i - pos);
    }
  }

  lemma SignedToken(i: int)
    requires I64_MIN <= i <= I64_MAX
    ensures ParseNumber(ToSigned(i)) == Ok(i)
    ensures forall j :: 0 <= j < |ToSigned(i)| ==> ToSigned(i)[j] != CHAR_E
  {
    hide IsUtf8, ToDecimal, ParseI64, ParseDigits;
    ToDecimalParses(if i < 0 then -i else i);
    ToSignedParses(i);
    SignedIsUtf8(i);
    if i < 0 {
      assert ToSigned(i)[1] == ToDecimal(-i)[0] != ZERO;
    }
  }

  lemma ParsePrintedInteger(i: int, data: Bytes, pos: nat)
    requires I64_MIN <= i <= I64_MAX && At(data, pos, ToSigned(i) + [CHAR_E])
    ensures ParseInteger(data, pos) == Ok((Integer(i), pos + |ToSigned(i)| + 1))
  {
    hide ParseNumber, ToSigned, FindE;
    SignedToken(i);
    FindEAt(data, pos, ToSigned(i));
    AtSplit(data, pos, ToSigned(i), [CHAR_E]);
  }

  lemma ParsePrintedString(b: Bytes, data: Bytes, pos: nat)
    requires |b| <= MAX_STRING_LENGTH && At(data, pos, PrintString(b))
    ensures ParseString(data, pos) == Ok((Str(b), pos + |PrintString(b)|))
    ensures IsDigit(data[pos])
  {
    hide ParseDigits, ToDecimal, SkipDigits;
    var digits := ToDecimal(|b|);
    AtSplit(data, pos, digits + [COLON], b);
    AtSplit(data, pos, digits, [COLON]);
    AtByte(data, pos, PrintString(b), 0);
    SkipDigitsAt(data, pos, digits);
    AtByte(data, pos, digits + [COLON], |digits|);
    ToDecimalParses(|b|);
  }

  lemma PrintStringStarts(b: Bytes)
    ensures |PrintString(b)| > 0 && IsDigit(PrintString(b)[0])
  {
  }

  // ------------------------------------------------------------- one parser step

  lemma EndStep(data: Bytes, pos: nat, last: Option<Bytes>, depth: nat)
    requires pos < |data| && data[pos] == CHAR_E
    ensures ParseItems(data, pos, depth) == Ok(([], pos + 1))
    ensures ParseEntries(data, pos, last, depth) == Ok(([], pos + 1))
  {
  }

  lemma ItemsStep(data: Bytes, pos: nat, depth: nat, v: Value, next: nat, rest: seq<Value>, end: nat)
    requires pos < next <= |data| && data[pos] != CHAR_E
    requires ParseValue(data, pos, depth + 1) == Ok((v, next)) && ParseItems(data, next, depth) == Ok((rest, end))
    ensures ParseItems(data, pos, depth) == Ok(([v] + rest, end))
  {
  }

  lemma EntriesStep(data: Bytes, pos: nat, last: Option<Bytes>, depth: nat, e: Entry, mid: nat, next: nat,
                    rest: seq<Entry>, end: nat)
    requires pos < next <= |data| && data[pos] != CHAR_E
    requires ParseEntry(data, pos, last, depth) == Ok((e, mid, next))
    requires ParseEntries(data, next, Some(e.key), depth) == Ok((rest, end))
    ensures ParseEntries(data, pos, last, depth) == Ok(([e] + rest, end))
  {
  }

  lemma ListStep(data: Bytes, pos: nat, depth: nat)
    requires depth <= MAX_NESTING_DEPTH && pos < |data| && data[pos] == CHAR_L
    ensures ParseItems(data, pos + 1, depth).Ok? ==>
      var (items, end) := ParseItems(data, pos + 1, depth).value; ParseValue(data, pos, depth) == Ok((List(items), end))
  {
  }

  lemma DictStep(data: Bytes, pos: nat, depth: nat)
    requires depth <= MAX_NESTING_DEPTH && pos < |data| && data[pos] == CHAR_D
    ensures ParseEntries(data, pos + 1, None, depth).Ok? ==>
      var (entries, end) := ParseEntries(data, pos + 1, None, depth).value;
      ParseValue(data, pos, depth) == Ok((Dict(entries), end))
  {
  }

  // ------------------------------------------------------------------ all values

  lemma ParsePrintedLeaf(v: Value, depth: nat, data: Bytes, pos: nat)
    requires (v.Str? || v.Integer?) && Fits(v, depth) && At(data, pos, Print(v))
    ensures ParseValue(data, pos, depth) == Ok((v, pos + |Print(v)|))
  {
    hide ParseInteger, ParseString, ToSigned, ToDecimal, ParseItems, ParseEntries;
    AtByte(data, pos, Print(v), 0);
    match v
    case Str(b) =>
      ParsePrintedString(b, data, pos);
    case Integer(i) =>
      AtSplit(data, pos, [CHAR_I] + ToSigned(i), [CHAR_E]);
      AtSplit(data, pos, [CHAR_I], ToSigned(i));
      AtSplit(data, pos + 1, ToSigned(i), [CHAR_E]);
      ParsePrintedInteger(i, data, pos + 1);
  }

  /** A printed value parses back, wherever it stands. */
  lemma {:induction false} ParsePrinted(v: Value, depth: nat, data: Bytes, pos: nat)
    requires Fits(v, depth) && At(data, pos, Print(v))
    ensures ParseValue(data, pos, depth) == Ok((v, pos + |Print(v)|))
    decreases v, 0
  {
    hide ParseValue, ParseItems, ParseEntries, PrintItems, PrintEntries;
    AtByte(data, pos, Print(v), 0);
    match v
    case Str(_) => ParsePrintedLeaf(v, depth, data, pos);
    case Integer(_) => ParsePrintedLeaf(v, depth, data, pos);
    case List(items) =>
      AtSplit(data, pos, [CHAR_L] + PrintItems(items), [CHAR_E]);
      AtSplit(data, pos, [CHAR_L], PrintItems(items));
      ParsePrintedItems(items, depth, data, pos + 1);
      ListStep(data, pos, depth);
    case Dict(entries) =>
      AtSplit(data, pos, [CHAR_D] + PrintEntries(entries), [CHAR_E]);
      AtSplit(data, pos, [CHAR_D], PrintEntries(entries));
      ParsePrintedEntries(entries, None, depth, data, pos + 1);
      DictStep(data, pos, depth);
  }

  lemma {:induction false} ParsePrintedItems(items: seq<Value>, depth: nat, data: Bytes, pos: nat)
    requires FitsItems(items, depth)
    requires At(data, pos, PrintItems(items)) && At(data, pos + |PrintItems(items)|, [CHAR_E])
    ensures ParseItems(data, pos, depth) == Ok((items, pos + |PrintItems(items)| + 1))
    decreases items, 1
  {
    hide ParseValue, ParseItems, Print;
    if items == [] {
      AtByte(data, pos, [CHAR_E], 0);
      EndStep(data, pos, None, depth);
    } else {
      var first, rest := Print(items[0]), PrintItems(items[1..]);
      AtSplit(data, pos, first, rest);
      AtByte(data, pos, first, 0);
      ParsePrinted(items[0], depth + 1, data, pos);
      ParsePrintedItems(items[1..], depth, data, pos + |first|);
      ItemsStep(data, pos, depth, items[0], pos + |first|, items[1..], pos + |first| + |rest| + 1);
      assert items == [items[0]] + items[1..];
    }
  }

  lemma {:induction false} ParsePrintedEntry(e: Entry, last: Option<Bytes>, depth: nat, data: Bytes, pos: nat)
    requires |e.key| <= MAX_STRING_LENGTH && Fits(e.value, depth + 1)
    requires last.Some? ==> !LessEq(e.key, last.value)
    requires At(data, pos, PrintString(e.key)) && At(data, pos + |PrintString(e.key)|, Print(e.value))
    ensures var mid := pos + |PrintString(e.key)|;
      ParseEntry(data, pos, last, depth) == Ok((e, mid, mid + |Print(e.value)|))
    decreases e, 1
  {
    hide ParseString, ParseInteger, ParseItems, ParseEntries, PrintString, Print, FitsItems, FitsEntries;
    ParsePrintedString(e.key, data, pos);
    assert ParseValue(data, pos, depth + 1) == ParseString(data, pos);
    ParsePrinted(e.value, depth + 1, data, pos + |PrintString(e.key)|);
  }

  lemma {:induction false} ParsePrintedEntries(entries: seq<Entry>, last: Option<Bytes>, depth: nat, data: Bytes,
                                               pos: nat)
    requires FitsEntries(entries, last, depth)
    requires At(data, pos, PrintEntries(entries)) && At(data, pos + |PrintEntries(entries)|, [CHAR_E])
    ensures ParseEntries(data, pos, last, depth) == Ok((entries, pos + |PrintEntries(entries)| + 1))
    decreases entries, 1
  {
    hide ParseEntries, ParseEntry, Print;
    if entries == [] {
      AtByte(data, pos, [CHAR_E], 0);
      EndStep(data, pos, last, depth);
    } else {
      var e := entries[0];
      var key, value, rest := PrintString(e.key), Print(e.value), PrintEntries(entries[1..]);
      AtSplit(data, pos, key + value, rest);
      AtSplit(data, pos, key, value);
      PrintStringStarts(e.key);
      AtByte(data, pos, key, 0);
      ParsePrintedEntry(e, last, depth, data, pos);
      var next := pos + |key| + |value|;
      ParsePrintedEntries(entries[1..], Some(e.key), depth, data, next);
      EntriesStep(data, pos, last, depth, e, pos + |key|, next, entries[1..], next + |rest| + 1);
      assert entries == [e] + entries[1..];
    }
  }

  /** Decoding an encoded value gives the value back, with no trailing data. */
  lemma DecodeEncode(v: Value)
    requires Fits(v, 0)
    ensures Decode(Print(v)) == Ok(v)
  {
    ParsePrinted(v, 0, Print(v), 0);
  }
}
