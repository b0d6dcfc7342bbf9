/** Bencoded values as literal text with their variable parts spliced in. */
module WireText {
  import opened Prelude
  import Sequences
  import opened Text
  import opened BencodeFormat

  /** The ASCII codes of a text. */
  function Lit(s: string): (b: Bytes)
    ensures |b| == |s| && forall i :: 0 <= i < |b| ==> b[i] as int == s[i] as int % 256
  {
    seq(|s|, i requires 0 <= i < |s| => (s[i] as int % 256) as byte)
  }

  /** A byte string is its length, a colon and the bytes. */
  function StringPieces(b: Bytes): seq<Bytes> {
    [ToDecimal(|b|), Lit(":"), b]
  }

  /** The pieces a value is written as, one after another. */
  function Pieces(v: Value): seq<Bytes>
    decreases v, 0
  {
    match v
    case Str(b) => StringPieces(b)
    case Integer(i) => [Lit("i"), ToSigned(i), Lit("e")]
    case List(items) => [Lit("l")] + ItemPieces(items) + [Lit("e")]
    case Dict(entries) => [Lit("d")] + EntryPieces(entries) + [Lit("e")]
  }

  function ItemPieces(items: seq<Value>): seq<Bytes>
    decreases items, 1
  {
    if items == [] then [] else Pieces(items[0]) + ItemPieces(items[1..])
  }

  function EntryPieces(entries: seq<Entry>): seq<Bytes>
    decreases entries, 1
  {
    if entries == [] then []
    else StringPieces(entries[0].key) + Pieces(entries[0].value) + EntryPieces(entries[1..])
  }

  function Cat(parts: seq<Bytes>): Bytes {
    if parts == [] then [] else parts[0] + Cat(parts[1..])
  }

  lemma {:induction false} CatJoin(a: seq<Bytes>, b: seq<Bytes>)
    ensures Cat(a + b) == Cat(a) + Cat(b)
  {
    if a == [] {
      assert a + b == b;
    } else {
      assert (a + b)[1..] == a[1..] + b;
      CatJoin(a[1..], b);
      Sequences.Associates(a[0], Cat(a[1..]), Cat(b));
    }
  }

  lemma CatOne(b: Bytes)
    ensures Cat([b]) == b
  {
    assert [b][1..] == [] && b + [] == b;
  }

  lemma Letters()
    ensures Lit("i") == [CHAR_I] && Lit("l") == [CHAR_L] && Lit("d") == [CHAR_D] && Lit("e") == [CHAR_E]
    ensures Lit(":") == [COLON] && Lit("info") == INFO_KEY
  {
  }

  /**
   The grammar, letter by letter: `i` number `e`, length `:` bytes, `l` items `e` and
   `d` keys and values `e` are what the encoder prints.
   */
  lemma {:induction false} PrintedAs(v: Value)
    ensures Print(v) == Cat(Pieces(v))
    decreases v, 0
  {
    hide Cat;
    Letters();
    match v
    case Str(b) => StringPrintedAs(b);
    case Integer(i) =>
      assert Pieces(v) == [Lit("i")] + [ToSigned(i)] + [Lit("e")];
      Cat3(Lit("i"), [ToSigned(i)], Lit("e"));
      CatOne(ToSigned(i));
    case List(items) =>
      ItemsPrintedAs(items);
      Cat3(Lit("l"), ItemPieces(items), Lit("e"));
    case Dict(entries) =>
      EntriesPrintedAs(entries);
      Cat3(Lit("d"), EntryPieces(entries), Lit("e"));
  }

  lemma StringPrintedAs(b: Bytes)
    ensures PrintString(b) == Cat(StringPieces(b))
  {
    Letters();
    assert StringPieces(b) == [ToDecimal(|b|)] + [Lit(":")] + [b];
    Cat3(ToDecimal(|b|), [Lit(":")], b);
    CatOne(Lit(":"));
  }

  lemma Cat3(a: Bytes, parts: seq<Bytes>, b: Bytes)
    ensures Cat([a] + parts + [b]) == a + Cat(parts) + b
  {
    CatJoin([a] + parts, [b]);
    CatJoin([a], parts);
    CatOne(a);
    CatOne(b);
  }

  lemma {:induction false} ItemsPrintedAs(items: seq<Value>)
    ensures PrintItems(items) == Cat(ItemPieces(items))
    decreases items, 1
  {
    if items != [] {
      PrintedAs(items[0]);
      ItemsPrintedAs(items[1..]);
      CatJoin(Pieces(items[0]), ItemPieces(items[1..]));
    }
  }

  lemma {:induction false} EntriesPrintedAs(entries: seq<Entry>)
    ensures PrintEntries(entries) == Cat(EntryPieces(entries))
    decreases entries, 1
  {
    if entries != [] {
      var e := entries[0];
      PrintedAs(e.value);
      EntriesPrintedAs(entries[1..]);
      Letters();
      hide Cat, Print, Pieces;
      CatJoin(StringPieces(e.key) + Pieces(e.value), EntryPieces(entries[1..]));
      CatJoin(StringPieces(e.key), Pieces(e.value));
      StringPrintedAs(e.key);
    }
  }

  // -------------------------------------------------------------------- numerals

  /** The number that a text of decimal digits stands for. */
  function Number(s: Bytes): int {
    if s == [] then 0 else 10 * Number(s[..|s| - 1]) + (s[|s| - 1] as int - '0' as int)
  }

  /** Numbers are written in decimal digits, without a zero in front, and with a minus sign if negative. */
  lemma {:induction false} NumeralIs(n: nat)
    ensures var s := ToDecimal(n);
      && Number(s) == n && (n > 0 ==> s[0] as int != '0' as int) && (n == 0 ==> |s| == 1)
      && forall i :: 0 <= i < |s| ==> '0' as int <= s[i] as int <= '9' as int
    ensures n > 0 ==> ToSigned(-(n as int)) == Lit("-") + ToDecimal(n)
    ensures ToSigned(n) == ToDecimal(n)
  {
    var s := ToDecimal(n);
    if n >= 10 {
      NumeralIs(n / 10);
      assert s[..|s| - 1] == ToDecimal(n / 10);
    } else {
      assert s[..0] == [];
    }
  }

  /** Which tokens are refused for their zeros, and which lengths for their size. */
  lemma ZerosAreRefused(digits: Bytes)
    requires AllDigits(digits) && digits != []
    ensures ParseNumber(Lit("-0")) == Err(NegativeZero)
    ensures ParseNumber(Lit("0") + digits) == Err(LeadingZeros) && ParseNumber(Lit("-0") + digits) == Err(LeadingZeros)
    ensures ParseLength(Lit("0") + digits) == Err(LeadingZeros)
  {
    hide IsUtf8;
    assert Lit("-0") == [MINUS, ZERO] && Lit("0") == [ZERO];
    AsciiIsUtf8(Lit("-0"));
    AsciiIsUtf8(Lit("0") + digits);
    AsciiIsUtf8(Lit("-0") + digits);
    assert (Lit("-0") + digits)[..2] == [MINUS, ZERO];
  }

  lemma LengthsAreLimited(n: nat)
    ensures ParseLength(ToDecimal(n)) ==
      if n <= 1_000_000_000 then Ok(n)
      else if n < 0x1_0000_0000_0000_0000 then Err(StringTooLarge(n)) else Err(InvalidStringLength)
  {
    ToDecimalParses(n);
  }

  // ---------------------------------------------------------------- literal texts

  lemma LitJoin(a: string, b: string)
    ensures Lit(a + b) == Lit(a) + Lit(b)
  {
  }

  /** The entries of a dictionary, written one after another behind `before`. */
  function Written(before: Bytes, entries: seq<Entry>): Bytes
    decreases entries
  {
    if entries == [] then before
    else Written(before + PrintString(entries[0].key) + Print(entries[0].value), entries[1..])
  }

  lemma {:induction false} WrittenIs(before: Bytes, entries: seq<Entry>)
    ensures Written(before, entries) == before + PrintEntries(entries)
    decreases entries
  {
    hide PrintString, Print;
    if entries != [] {
      var k, v := PrintString(entries[0].key), Print(entries[0].value);
      WrittenIs(before + k + v, entries[1..]);
      Sequences.Associates(before, k, v);
      Sequences.Associates(before, k + v, PrintEntries(entries[1..]));
    }
  }

  lemma DictWritten(entries: seq<Entry>)
    ensures Print(Dict(entries)) == Written(Lit("d"), entries) + Lit("e")
  {
    Letters();
    WrittenIs(Lit("d"), entries);
  }

  /** A string behind a constant key, by the literal text of that key. */
  lemma StringWritten(before: Bytes, key: Bytes, text: string, b: Bytes)
    requires PrintString(key) == Lit(text)
    ensures before + PrintString(key) + Print(Str(b)) == before + Lit(text) + ToDecimal(|b|) + Lit(":") + b
  {
    Letters();
    Sequences.Associates(before + Lit(text), ToDecimal(|b|), Lit(":"));
    Sequences.Associates(before + Lit(text), ToDecimal(|b|) + Lit(":"), b);
  }

  /** A string of a fixed length, which is then part of the literal text. */
  lemma FixedWritten(before: Bytes, key: Bytes, text: string, length: string, b: Bytes)
    requires PrintString(key) == Lit(text) && ToDecimal(|b|) == Lit(length)
    ensures before + PrintString(key) + Print(Str(b)) == before + Lit(text + length + ":") + b
  {
    StringWritten(before, key, text, b);
    LitJoin(text, length);
    LitJoin(text + length, ":");
    hide Lit, Print, ToDecimal;
    Sequences.Associates(before, Lit(text), Lit(length));
    Sequences.Associates(before, Lit(text + length), Lit(":"));
  }

  lemma IntegerWritten(before: Bytes, key: Bytes, text: string, i: int)
    requires PrintString(key) == Lit(text)
    ensures before + PrintString(key) + Print(Integer(i)) == before + Lit(text + "i") + ToSigned(i) + Lit("e")
  {
    Letters();
    LitJoin(text, "i");
    hide Lit, ToSigned;
    Sequences.Associates(before, Lit(text), Lit("i"));
    Sequences.Associates(before + Lit(text), Lit("i"), ToSigned(i));
    Sequences.Associates(before + Lit(text), Lit("i") + ToSigned(i), Lit("e"));
  }

  lemma ListWritten(before: Bytes, key: Bytes, text: string, items: seq<Value>)
    requires PrintString(key) == Lit(text)
    ensures before + PrintString(key) + Print(List(items)) == before + Lit(text + "l") + PrintItems(items) + Lit("e")
  {
    Letters();
    LitJoin(text, "l");
    hide Lit, PrintItems;
    Sequences.Associates(before, Lit(text), Lit("l"));
    Sequences.Associates(before + Lit(text), Lit("l"), PrintItems(items));
    Sequences.Associates(before + Lit(text), Lit("l") + PrintItems(items), Lit("e"));
  }
}
