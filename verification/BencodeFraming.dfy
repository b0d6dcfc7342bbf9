/**
 Where a bencoded document ends. No proper prefix of a document is one, and the parser
 says so: a cut document is an unexpected end, a longer one is trailing data.
 */
module BencodeFraming {
  import opened Prelude
  import opened Text
  import opened BencodeFormat
  import opened BencodeInfo
  import BencodeTheorems

  /** The bytes up to `n` are those of the whole document. */
  lemma CutSame(data: Bytes, pos: nat, n: nat, end: nat)
    requires pos <= end <= n <= |data|
    ensures Same(data, pos, data[..n], pos, end - pos)
  {
  }

  lemma CutInteger(data: Bytes, pos: nat, n: nat)
    requires pos <= |data| && ParseInteger(data, pos).Ok? && pos <= n < ParseInteger(data, pos).value.1
    ensures ParseInteger(data[..n], pos) == Err(UnexpectedEof)
  {
    hide ParseNumber, FindE;
    var cut, e := data[..n], FindE(data, pos);
    assert forall i :: pos <= i < n ==> cut[i] == data[i];
    assert FindE(cut, pos) == n;
  }

  lemma CutString(data: Bytes, pos: nat, n: nat)
    requires pos <= |data| && ParseString(data, pos).Ok? && pos <= n < ParseString(data, pos).value.1
    ensures ParseString(data[..n], pos) == Err(UnexpectedEof)
  {
    hide ParseLength, SkipDigits;
    var cut, colon := data[..n], SkipDigits(data, pos);
    assert forall i :: pos <= i < n ==> cut[i] == data[i];
    if n <= colon {
      assert SkipDigits(cut, pos) == n;
    } else {
      assert !IsDigit(COLON);
      assert SkipDigits(cut, pos) == colon;
      assert cut[pos..colon] == data[pos..colon];
    }
  }

  /** No list and no dictionary of the value is at the greatest depth allowed. */
  ghost predicate LeavesRoom(v: Value, depth: nat)
    decreases v, 0
  {
    match v
    case List(items) => depth < 100 && ItemsLeaveRoom(items, depth)
    case Dict(entries) => depth < 100 && EntriesLeaveRoom(entries, depth)
    case _ => true
  }

  ghost predicate ItemsLeaveRoom(items: seq<Value>, depth: nat)
    decreases items, 1
  {
    items == [] || (LeavesRoom(items[0], depth + 1) && ItemsLeaveRoom(items[1..], depth))
  }

  ghost predicate EntriesLeaveRoom(entries: seq<Entry>, depth: nat)
    decreases entries, 1
  {
    entries == [] || (LeavesRoom(entries[0].value, depth + 1) && EntriesLeaveRoom(entries[1..], depth))
  }

  /** At the end of the input no value begins. */
  lemma EndOfInput(data: Bytes, depth: nat)
    ensures ParseValue(data, |data|, depth) == Err(if depth <= 100 then UnexpectedEof else NestingTooDeep)
  {
  }

  /** A value that is cut off anywhere is an unexpected end of input. */
  lemma {:induction false} CutValue(data: Bytes, pos: nat, depth: nat, n: nat)
    requires pos <= |data| && ParseValue(data, pos, depth).Ok?
    requires LeavesRoom(ParseValue(data, pos, depth).value.0, depth)
    requires pos <= n < ParseValue(data, pos, depth).value.1
    ensures ParseValue(data[..n], pos, depth) == Err(UnexpectedEof)
    decreases |data| - pos, 0
  {
    hide ParseInteger, ParseString, ParseItems, ParseEntries;
    if pos < n {
      assert data[..n][pos] == data[pos];
      if data[pos] == CHAR_I {
        CutInteger(data, pos + 1, n);
      } else if data[pos] == CHAR_L {
        CutItems(data, pos + 1, depth, n);
      } else if data[pos] == CHAR_D {
        CutEntries(data, pos + 1, None, depth, n);
      } else {
        CutString(data, pos, n);
      }
    }
  }

  lemma {:induction false} CutItems(data: Bytes, pos: nat, depth: nat, n: nat)
    requires pos <= |data| && depth < 100 && ParseItems(data, pos, depth).Ok?
    requires ItemsLeaveRoom(ParseItems(data, pos, depth).value.0, depth)
    requires pos <= n < ParseItems(data, pos, depth).value.1
    ensures ParseItems(data[..n], pos, depth) == Err(UnexpectedEof)
    decreases |data| - pos, 1
  {
    hide ParseValue, LeavesRoom;
    if n == pos {
      EndOfInput(data[..n], depth + 1);
    } else {
      assert data[..n][pos] == data[pos];
      var (v, next) := ParseValue(data, pos, depth + 1).value;
      var items := ParseItems(data, pos, depth).value.0;
      assert items[1..] == ParseItems(data, next, depth).value.0;
      if n < next {
        CutValue(data, pos, depth + 1, n);
      } else {
        CutSame(data, pos, n, next);
        Relocate(data, pos, depth + 1, data[..n], pos, depth + 1);
        CutItems(data, next, depth, n);
      }
    }
  }

  lemma {:induction false} CutEntries(data: Bytes, pos: nat, last: Option<Bytes>, depth: nat, n: nat)
    requires pos <= |data| && depth < 100 && ParseEntries(data, pos, last, depth).Ok?
    requires EntriesLeaveRoom(ParseEntries(data, pos, last, depth).value.0, depth)
    requires pos <= n < ParseEntries(data, pos, last, depth).value.1
    ensures ParseEntries(data[..n], pos, last, depth) == Err(UnexpectedEof)
    decreases |data| - pos, 2
  {
    hide ParseEntry, LeavesRoom;
    if n == pos {
      EndOfEntry(data[..n], last, depth);
    } else {
      assert data[..n][pos] == data[pos];
      var (e, _, next) := ParseEntry(data, pos, last, depth).value;
      var entries := ParseEntries(data, pos, last, depth).value.0;
      assert entries[1..] == ParseEntries(data, next, Some(e.key), depth).value.0;
      if n < next {
        CutEntry(data, pos, last, depth, n);
      } else {
        CutSame(data, pos, n, next);
        RelocateEntry(data, pos, last, depth, data[..n], pos, depth);
        CutEntries(data, next, Some(e.key), depth, n);
      }
    }
  }

  lemma EndOfEntry(data: Bytes, last: Option<Bytes>, depth: nat)
    ensures ParseEntry(data, |data|, last, depth) == Err(if depth < 100 then UnexpectedEof else NestingTooDeep)
  {
    EndOfInput(data, depth + 1);
    hide ParseValue;
  }

  /** A key is a string, which leaves room at any depth. */
  lemma {:induction false} CutEntry(data: Bytes, pos: nat, last: Option<Bytes>, depth: nat, n: nat)
    requires pos <= |data| && depth < 100 && ParseEntry(data, pos, last, depth).Ok?
    requires LeavesRoom(ParseEntry(data, pos, last, depth).value.0.value, depth + 1)
    requires pos <= n < ParseEntry(data, pos, last, depth).value.2
    ensures ParseEntry(data[..n], pos, last, depth) == Err(UnexpectedEof)
    decreases |data| - pos, 1
  {
    hide ParseValue, LessEq;
    var (k, mid) := ParseValue(data, pos, depth + 1).value;
    if n < mid {
      CutValue(data, pos, depth + 1, n);
    } else {
      CutSame(data, pos, n, mid);
      Relocate(data, pos, depth + 1, data[..n], pos, depth + 1);
      CutValue(data, mid, depth + 1, n);
    }
  }

  // ------------------------------------------------ a document at the depth limit

  /** Cut behind the letter that opens its deepest container, such a value is too deep instead. */
  lemma {:induction false} DeepValue(data: Bytes, pos: nat, depth: nat) returns (n: nat)
    requires pos <= |data| && ParseValue(data, pos, depth).Ok?
    requires !LeavesRoom(ParseValue(data, pos, depth).value.0, depth)
    ensures pos < n < ParseValue(data, pos, depth).value.1
    ensures ParseValue(data[..n], pos, depth) == Err(NestingTooDeep)
    decreases |data| - pos, 0
  {
    hide ParseInteger, ParseString, ParseItems, ParseEntries, ItemsLeaveRoom, EntriesLeaveRoom;
    LeafLeavesRoom(data, pos);
    if depth == 100 {
      n := pos + 1;
      OpenIsTooDeep(data, pos, depth);
    } else if data[pos] == CHAR_L {
      n := DeepItems(data, pos + 1, depth);
    } else {
      n := DeepEntries(data, pos + 1, None, depth);
    }
    assert data[..n][pos] == data[pos];
  }

  lemma LeafLeavesRoom(data: Bytes, pos: nat)
    requires pos <= |data|
    ensures pos < |data| && ParseInteger(data, pos + 1).Ok? ==> ParseInteger(data, pos + 1).value.0.Integer?
    ensures ParseString(data, pos).Ok? ==> ParseString(data, pos).value.0.Str?
  {
    hide FindE, ParseNumber, SkipDigits, ParseLength;
  }

  lemma OpenIsTooDeep(data: Bytes, pos: nat, depth: nat)
    requires pos < |data| && depth == 100 && (data[pos] == CHAR_L || data[pos] == CHAR_D)
    ensures ParseValue(data[..pos + 1], pos, depth) == Err(NestingTooDeep)
  {
    var cut := data[..pos + 1];
    assert cut[pos] == data[pos] && |cut| == pos + 1;
    EndOfInput(cut, depth + 1);
    EndOfEntry(cut, None, depth);
    hide ParseEntry;
    if data[pos] == CHAR_L {
      assert ParseItems(cut, pos + 1, depth) == Err(NestingTooDeep);
    } else {
      assert ParseEntries(cut, pos + 1, None, depth) == Err(NestingTooDeep);
    }
  }

  lemma {:induction false} DeepItems(data: Bytes, pos: nat, depth: nat) returns (n: nat)
    requires pos <= |data| && ParseItems(data, pos, depth).Ok?
    requires !ItemsLeaveRoom(ParseItems(data, pos, depth).value.0, depth)
    ensures pos < n < ParseItems(data, pos, depth).value.1
    ensures ParseItems(data[..n], pos, depth) == Err(NestingTooDeep)
    decreases |data| - pos, 1
  {
    hide ParseValue, LeavesRoom;
    var (v, next) := ParseValue(data, pos, depth + 1).value;
    var items := ParseItems(data, pos, depth).value.0;
    assert items[1..] == ParseItems(data, next, depth).value.0;
    if LeavesRoom(v, depth + 1) {
      n := DeepItems(data, next, depth);
      CutSame(data, pos, n, next);
      Relocate(data, pos, depth + 1, data[..n], pos, depth + 1);
    } else {
      n := DeepValue(data, pos, depth + 1);
    }
    assert data[..n][pos] == data[pos];
  }

  lemma {:induction false} DeepEntries(data: Bytes, pos: nat, last: Option<Bytes>, depth: nat) returns (n: nat)
    requires pos <= |data| && ParseEntries(data, pos, last, depth).Ok?
    requires !EntriesLeaveRoom(ParseEntries(data, pos, last, depth).value.0, depth)
    ensures pos < n < ParseEntries(data, pos, last, depth).value.1
    ensures ParseEntries(data[..n], pos, last, depth) == Err(NestingTooDeep)
    decreases |data| - pos, 2
  {
    hide ParseEntry, LeavesRoom;
    var (e, mid, next) := ParseEntry(data, pos, last, depth).value;
    var entries := ParseEntries(data, pos, last, depth).value.0;
    assert entries[1..] == ParseEntries(data, next, Some(e.key), depth).value.0;
    if LeavesRoom(e.value, depth + 1) {
      n := DeepEntries(data, next, Some(e.key), depth);
      CutSame(data, pos, n, next);
      RelocateEntry(data, pos, last, depth, data[..n], pos, depth);
    } else {
      n := DeepEntry(data, pos, last, depth);
    }
    assert data[..n][pos] == data[pos];
  }

  lemma {:induction false} DeepEntry(data: Bytes, pos: nat, last: Option<Bytes>, depth: nat) returns (n: nat)
    requires pos <= |data| && ParseEntry(data, pos, last, depth).Ok?
    requires !LeavesRoom(ParseEntry(data, pos, last, depth).value.0.value, depth + 1)
    ensures pos < n < ParseEntry(data, pos, last, depth).value.2
    ensures ParseEntry(data[..n], pos, last, depth) == Err(NestingTooDeep)
    decreases |data| - pos, 1
  {
    hide ParseValue, LessEq, LeavesRoom;
    var (k, mid) := ParseValue(data, pos, depth + 1).value;
    n := DeepValue(data, mid, depth + 1);
    CutSame(data, pos, n, mid);
    Relocate(data, pos, depth + 1, data[..n], pos, depth + 1);
  }

  // --------------------------------------------------------------- whole documents

  /**
   Every proper prefix of a document is an unexpected end of input if and only if no
   list or dictionary of it is nested a hundred deep. (Behind the letter that opens such
   a one the depth is tested before the end.)
   */
  lemma CutDocumentIff(data: Bytes)
    requires Decode(data).Ok?
    ensures (forall n: nat {:trigger data[..n]} :: n < |data| ==> Decode(data[..n]) == Err(UnexpectedEof))
      <==> LeavesRoom(Decode(data).value, 0)
  {
    hide ParseValue, LeavesRoom;
    if LeavesRoom(Decode(data).value, 0) {
      forall n: nat {:trigger data[..n]} | n < |data| ensures Decode(data[..n]) == Err(UnexpectedEof) {
        CutValue(data, 0, 0, n);
      }
    } else {
      var n := DeepValue(data, 0, 0);
      assert Decode(data[..n]) == Err(NestingTooDeep);
    }
  }

  /** In any case no proper prefix of a document is a document. */
  lemma NoPrefixDecodes(data: Bytes, n: nat)
    requires Decode(data).Ok? && n < |data|
    ensures Decode(data[..n]).Err?
  {
    hide ParseValue;
    if Decode(data[..n]).Ok? {
      var cut := data[..n];
      assert Same(cut, 0, data, 0, n);
      Relocate(cut, 0, 0, data, 0, 0);
    }
  }

  /** Anything behind a document is trailing data. */
  lemma LongerIsTrailing(data: Bytes, more: Bytes)
    requires Decode(data).Ok? && more != []
    ensures Decode(data + more) == Err(TrailingData)
  {
    hide ParseValue;
    assert Same(data, 0, data + more, 0, |data|);
    Relocate(data, 0, 0, data + more, 0, 0);
  }

  /** A document that opens a hundred and two lists is too deep; a hundred and one are not. */
  lemma {:induction false} TooDeep(data: Bytes, depth: nat)
    requires depth <= 101 && 102 <= |data| && forall i :: 0 <= i < 102 ==> data[i] == CHAR_L
    ensures ParseValue(data, depth, depth) == Err(NestingTooDeep)
    decreases 101 - depth
  {
    if depth <= 100 {
      TooDeep(data, depth + 1);
      assert ParseItems(data, depth + 1, depth) == Err(NestingTooDeep);
    }
  }

  /** A list in a list, and so on. */
  function Nested(n: nat): Value {
    if n == 0 then List([]) else List([Nested(n - 1)])
  }

  lemma {:induction false} NestedFits(n: nat, depth: nat)
    requires n + depth == 100
    ensures Fits(Nested(n), depth) && !LeavesRoom(Nested(n), depth)
  {
    if n > 0 {
      NestedFits(n - 1, depth + 1);
      assert [Nested(n - 1)][1..] == [];
    }
  }

  /** A document of lists nested to the limit, which cut in the middle is reported as too deep. */
  lemma DeepDocumentIsCut() returns (data: Bytes, n: nat)
    ensures Decode(data).Ok? && n < |data| && Decode(data[..n]) == Err(NestingTooDeep)
  {
    data := Print(Nested(100));
    NestedFits(100, 0);
    hide Print, Fits, LeavesRoom, Nested, ParseValue;
    BencodeTheorems.DecodeEncode(Nested(100));
    n := DeepValue(data, 0, 0);
  }
}
