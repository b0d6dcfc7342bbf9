/**
 encode(decode(b)) == b: what is accepted is exactly the canonical encoding, but
 for integer tokens that begin with a plus sign.
 */
module BencodeCanonical {
  import opened Prelude
  import opened Text
  import opened BencodeFormat
  import opened BencodeTheorems

  // ---------------------------------------------------------------- plus signs

  /** An accepted value contains an integer token that begins with `+`. */
  predicate HasPlus(data: Bytes, pos: nat, depth: nat)
    requires pos <= |data| && ParseValue(data, pos, depth).Ok?
    decreases |data| - pos, 0
  {
    if data[pos] == CHAR_I then data[pos + 1] == PLUS
    else if data[pos] == CHAR_L then HasPlusItems(data, pos + 1, depth)
    else if data[pos] == CHAR_D then HasPlusEntries(data, pos + 1, None, depth)
    else false
  }

  predicate HasPlusItems(data: Bytes, pos: nat, depth: nat)
    requires pos <= |data| && ParseItems(data, pos, depth).Ok?
    decreases |data| - pos, 1
  {
    data[pos] != CHAR_E &&
    (HasPlus(data, pos, depth + 1) || HasPlusItems(data, ParseValue(data, pos, depth + 1).value.1, depth))
  }

  predicate HasPlusEntries(data: Bytes, pos: nat, last: Option<Bytes>, depth: nat)
    requires pos <= |data| && ParseEntries(data, pos, last, depth).Ok?
    decreases |data| - pos, 1
  {
    data[pos] != CHAR_E &&
    var (e, mid, next) := ParseEntry(data, pos, last, depth).value;
    (HasPlus(data, mid, depth + 1) || HasPlusEntries(data, next, Some(e.key), depth))
  }

  // --------------------------------------------------------------------- tokens

  lemma {:induction false} StripZero(s: Bytes)
    requires AllDigits(s) && |s| > 1 && s[0] == ZERO
    ensures ParseDigits(s) == ParseDigits(s[1..])
  {
    var init, tail := s[..|s| - 1], s[1..];
    assert tail[|tail| - 1] == s[|s| - 1];
    if |s| > 2 {
      StripZero(init);
      assert tail[..|tail| - 1] == init[1..];
    } else {
      assert init == [ZERO];
      assert [ZERO][..0] == [];
      assert tail[..0] == [];
    }
  }

  lemma {:induction false} DecimalNotLonger(s: Bytes)
    requires AllDigits(s) && s != []
    ensures |ToDecimal(ParseDigits(s))| <= |s|
  {
    if |s| > 1 && s[0] == ZERO {
      StripZero(s);
      DecimalNotLonger(s[1..]);
    } else {
      ParseDigitsPrints(s);
    }
  }

  /** An accepted integer token is canonical or begins with a plus sign. */
  lemma NumberCanonical(token: Bytes)
    requires ParseNumber(token).Ok?
    ensures var i := ParseNumber(token).value;
      && token != [] && I64_MIN <= i <= I64_MAX
      && (token[0] == PLUS ==> |ToSigned(i)| < |token|)
      && (token[0] != PLUS ==> ToSigned(i) == token)
  {
    hide IsUtf8, ToDecimal, ParseDigits;
    var i := ParseNumber(token).value;
    if token[0] == PLUS {
      DecimalNotLonger(token[1..]);
    } else if token[0] == MINUS {
      var digits := token[1..];
      assert token == [MINUS] + digits;
      assert token[..2] == [MINUS, digits[0]];
      ParseDigitsPrints(digits);
    } else {
      ParseDigitsPrints(token);
    }
  }

  lemma LengthCanonical(token: Bytes)
    requires AllDigits(token) && ParseLength(token).Ok?
    ensures ToDecimal(ParseLength(token).value) == token && ParseLength(token).value <= MAX_STRING_LENGTH
  {
    hide ToDecimal, ParseDigits;
    ParseDigitsPrints(token);
  }

  // ------------------------------------------------------------------ all values

  /**
   `printed` is the canonical form of the bytes [pos, end): the same bytes, or,
   with a plus sign somewhere, fewer.
   */
  ghost predicate Canonical(data: Bytes, pos: nat, end: nat, printed: Bytes, plus: bool) {
    if plus then |printed| < end - pos else pos + |printed| == end && At(data, pos, printed)
  }

  lemma CanonicalJoin(data: Bytes, pos: nat, mid: nat, end: nat, a: Bytes, b: Bytes, plusA: bool, plusB: bool)
    requires Canonical(data, pos, mid, a, plusA) && Canonical(data, mid, end, b, plusB)
    ensures Canonical(data, pos, end, a + b, plusA || plusB)
  {
  }

  lemma CanonicalByte(data: Bytes, pos: nat, b: byte)
    requires pos < |data| && data[pos] == b
    ensures Canonical(data, pos, pos + 1, [b], false)
  {
  }

  lemma IntegerCanonical(data: Bytes, pos: nat)
    requires pos <= |data| && ParseInteger(data, pos).Ok?
    ensures var (v, end) := ParseInteger(data, pos).value;
      && v.Integer? && I64_MIN <= v.number <= I64_MAX && pos < |data|
      && Canonical(data, pos, end, ToSigned(v.number) + [CHAR_E], data[pos] == PLUS)
  {
    hide ParseNumber, ToSigned;
    var e := FindE(data, pos);
    NumberCanonical(data[pos..e]);
    var i := ParseNumber(data[pos..e]).value;
    CanonicalByte(data, e, CHAR_E);
    CanonicalJoin(data, pos, e, e + 1, ToSigned(i), [CHAR_E], data[pos] == PLUS, false);
  }

  lemma StringCanonical(data: Bytes, pos: nat)
    requires pos <= |data| && ParseString(data, pos).Ok?
    ensures var (v, end) := ParseString(data, pos).value;
      v.Str? && |v.bytes| <= MAX_STRING_LENGTH && Canonical(data, pos, end, PrintString(v.bytes), false)
  {
    hide ParseLength, ToDecimal;
    var colon := SkipDigits(data, pos);
    LengthCanonical(data[pos..colon]);
    var length := ParseLength(data[pos..colon]).value;
    var b := data[colon + 1..colon + 1 + length];
    CanonicalByte(data, colon, COLON);
    CanonicalJoin(data, pos, colon, colon + 1, ToDecimal(length), [COLON], false, false);
    CanonicalJoin(data, pos, colon + 1, colon + 1 + length, ToDecimal(length) + [COLON], b, false, false);
  }

  /** What the decoder accepts fits the encoder, and prints to its canonical form. */
  lemma {:induction false} ParsedCanonical(data: Bytes, pos: nat, depth: nat)
    requires pos <= |data| && ParseValue(data, pos, depth).Ok?
    ensures var (v, end) := ParseValue(data, pos, depth).value;
      Fits(v, depth) && Canonical(data, pos, end, Print(v), HasPlus(data, pos, depth))
    decreases |data| - pos, 0
  {
    hide ParseInteger, ParseString, ParseItems, ParseEntries, FitsItems, FitsEntries, PrintItems, PrintEntries,
      PrintString, ToSigned, Canonical;
    var (v, end) := ParseValue(data, pos, depth).value;
    if data[pos] == CHAR_I {
      CanonicalByte(data, pos, CHAR_I);
      IntegerCanonical(data, pos + 1);
      CanonicalJoin(data, pos, pos + 1, end, [CHAR_I], ToSigned(v.number) + [CHAR_E], false, data[pos + 1] == PLUS);
      assert [CHAR_I] + ToSigned(v.number) + [CHAR_E] == [CHAR_I] + (ToSigned(v.number) + [CHAR_E]);
    } else if data[pos] == CHAR_L {
      CanonicalByte(data, pos, CHAR_L);
      ItemsCanonical(data, pos + 1, depth);
      CanonicalJoin(data, pos, pos + 1, end, [CHAR_L], PrintItems(v.items) + [CHAR_E], false, HasPlusItems(data,
                    pos + 1, depth));
      assert [CHAR_L] + PrintItems(v.items) + [CHAR_E] == [CHAR_L] + (PrintItems(v.items) + [CHAR_E]);
    } else if data[pos] == CHAR_D {
      CanonicalByte(data, pos, CHAR_D);
      EntriesCanonical(data, pos + 1, None, depth);
      CanonicalJoin(data, pos, pos + 1, end, [CHAR_D], PrintEntries(v.entries) + [CHAR_E], false, HasPlusEntries(data,
                    pos + 1, None, depth));
      assert [CHAR_D] + PrintEntries(v.entries) + [CHAR_E] == [CHAR_D] + (PrintEntries(v.entries) + [CHAR_E]);
    } else {
      StringCanonical(data, pos);
    }
  }

  lemma {:induction false} ItemsCanonical(data: Bytes, pos: nat, depth: nat)
    requires pos <= |data| && ParseItems(data, pos, depth).Ok?
    ensures var (items, end) := ParseItems(data, pos, depth).value;
      FitsItems(items, depth) && Canonical(data, pos, end, PrintItems(items) + [CHAR_E], HasPlusItems(data, pos, depth))
    decreases |data| - pos, 1
  {
    hide ParseValue, Fits, Print, Canonical, HasPlus;
    if data[pos] == CHAR_E {
      CanonicalByte(data, pos, CHAR_E);
      assert PrintItems([]) + [CHAR_E] == [CHAR_E];
    } else {
      var (v, next) := ParseValue(data, pos, depth + 1).value;
      var (rest, end) := ParseItems(data, next, depth).value;
      ParsedCanonical(data, pos, depth + 1);
      ItemsCanonical(data, next, depth);
      CanonicalJoin(data, pos, next, end, Print(v), PrintItems(rest) + [CHAR_E],
        HasPlus(data, pos, depth + 1), HasPlusItems(data, next, depth));
      var items := [v] + rest;
      assert items[0] == v && items[1..] == rest;
      assert PrintItems(items) + [CHAR_E] == Print(v) + (PrintItems(rest) + [CHAR_E]);
    }
  }

  lemma {:induction false} EntryCanonical(data: Bytes, pos: nat, last: Option<Bytes>, depth: nat)
    requires pos <= |data| && ParseEntry(data, pos, last, depth).Ok?
    ensures var (e, mid, next) := ParseEntry(data, pos, last, depth).value;
      && ParseValue(data, mid, depth + 1).Ok? && data[pos] != CHAR_E
      && |e.key| <= MAX_STRING_LENGTH && (last.Some? ==> !LessEq(e.key, last.value)) && Fits(e.value, depth + 1)
      && Canonical(data, pos, next, PrintString(e.key) + Print(e.value), HasPlus(data, mid, depth + 1))
    decreases |data| - pos, 1
  {
    hide ParseInteger, ParseItems, ParseEntries, FitsItems, FitsEntries, PrintItems, PrintEntries,
      PrintString, Canonical, ParseString;
    var (e, mid, next) := ParseEntry(data, pos, last, depth).value;
    assert IsDigit(data[pos]) by {
      if data[pos] == CHAR_I {
        IntegerCanonical(data, pos + 1);
      }
    }
    StringCanonical(data, pos);
    ParsedCanonical(data, mid, depth + 1);
    CanonicalJoin(data, pos, mid, next, PrintString(e.key), Print(e.value), false, HasPlus(data, mid, depth + 1));
  }

  lemma {:induction false} EntriesCanonical(data: Bytes, pos: nat, last: Option<Bytes>, depth: nat)
    requires pos <= |data| && ParseEntries(data, pos, last, depth).Ok?
    ensures var (entries, end) := ParseEntries(data, pos, last, depth).value;
      && FitsEntries(entries, last, depth)
      && Canonical(data, pos, end, PrintEntries(entries) + [CHAR_E], HasPlusEntries(data, pos, last, depth))
    decreases |data| - pos, 2
  {
    hide ParseValue, ParseEntry, Fits, Print, PrintString, Canonical, HasPlus;
    if data[pos] == CHAR_E {
      CanonicalByte(data, pos, CHAR_E);
      assert PrintEntries([]) + [CHAR_E] == [CHAR_E];
    } else {
      var (e, mid, next) := ParseEntry(data, pos, last, depth).value;
      var (rest, end) := ParseEntries(data, next, Some(e.key), depth).value;
      EntryCanonical(data, pos, last, depth);
      EntriesCanonical(data, next, Some(e.key), depth);
      CanonicalJoin(data, pos, next, end, PrintString(e.key) + Print(e.value), PrintEntries(rest) + [CHAR_E],
        HasPlus(data, mid, depth + 1), HasPlusEntries(data, next, Some(e.key), depth));
      var entries := [e] + rest;
      assert entries[0] == e && entries[1..] == rest;
      assert PrintEntries(entries) + [CHAR_E] == PrintString(e.key) + Print(e.value) + (PrintEntries(rest) + [CHAR_E]);
    }
  }

  /**
   Encoding a decoded value gives the bytes back exactly when no integer token
   begins with a plus sign, the one non-canonical form the integer parser admits.
   */
  lemma EncodeDecodeIff(data: Bytes)
    requires Decode(data).Ok?
    ensures Fits(Decode(data).value, 0)
    ensures Print(Decode(data).value) == data <==> !HasPlus(data, 0, 0)
  {
    hide Print, Fits, HasPlus;
    ParsedCanonical(data, 0, 0);
    if !HasPlus(data, 0, 0) {
      assert data[0..|data|] == data;
    }
  }

  /** The input `i+1e` is accepted as the integer 1, whose encoding is `i1e`. */
  lemma PlusIsDropped()
    ensures var data := [CHAR_I, PLUS, 49, CHAR_E];
      Decode(data) == Ok(Integer(1)) && Print(Integer(1)) == [CHAR_I, 49, CHAR_E]
  {
    var data: Bytes := [CHAR_I, PLUS, 49, CHAR_E];
    var token, one: Bytes := [PLUS, 49], [49];
    assert data[1] == PLUS && data[2] == 49 && data[3] == CHAR_E;
    assert FindE(data, 1) == 3 && data[1..3] == token && data[..4] == data;
    assert token[1..] == one && one[..0] == [] && ParseDigits(one) == 1;
    ParseDigitsPrints(one);
    AsciiIsUtf8(token);
    assert ParseNumber(token) == Ok(1);
    assert ParseInteger(data, 1) == Ok((Integer(1), 4));
    assert ParseValue(data, 0, 0) == Ok((Integer(1), 4));
  }
}
