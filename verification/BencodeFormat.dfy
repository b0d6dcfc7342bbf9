/** The bencoding grammar as pure functions: a printer and a parser. */
module BencodeFormat {
  import opened Prelude
  import opened Text

  const MAX_STRING_LENGTH := 1_000_000_000
  const MAX_NESTING_DEPTH := 100

  const CHAR_I: byte := 105
  const CHAR_L: byte := 108
  const CHAR_D: byte := 100
  const CHAR_E: byte := 101
  const COLON: byte := 58

  /** The key `info` of a torrent file. */
  const INFO_KEY: Bytes := [105, 110, 102, 111]

  /** A dictionary is listed in the key order a `BTreeMap` iterates in. */
  datatype Value =
    | Str(bytes: Bytes)
    | Integer(number: int)
    | List(items: seq<Value>)
    | Dict(entries: seq<Entry>)

  datatype Entry = Entry(key: Bytes, value: Value)

  datatype DecodeError =
    | UnexpectedEof
    | InvalidInteger
    | InvalidStringLength
    | UnexpectedByte(found: byte)
    | NonStringKey
    | UnsortedKeys
    | TrailingData
    | LeadingZeros
    | NegativeZero
    | StringTooLarge(length: nat)
    | NestingTooDeep

  /** Byte-wise lexicographic order (`<=` on byte slices). */
  predicate LessEq(a: Bytes, b: Bytes) {
    a == [] || (b != [] && (a[0] < b[0] || (a[0] == b[0] && LessEq(a[1..], b[1..]))))
  }

  // --------------------------------------------------------------------- printer

  function PrintString(b: Bytes): Bytes {
    ToDecimal(|b|) + [COLON] + b
  }

  function Print(v: Value): (r: Bytes)
    ensures |r| > 0 && r[0] != CHAR_E
    decreases v, 0
  {
    match v
    case Str(b) => PrintString(b)
    case Integer(i) => [CHAR_I] + ToSigned(i) + [CHAR_E]
    case List(items) => [CHAR_L] + PrintItems(items) + [CHAR_E]
    case Dict(entries) => [CHAR_D] + PrintEntries(entries) + [CHAR_E]
  }

  function PrintItems(items: seq<Value>): Bytes
    decreases items, 1
  {
    if items == [] then [] else Print(items[0]) + PrintItems(items[1..])
  }

  function PrintEntries(entries: seq<Entry>): Bytes
    decreases entries, 1
  {
    if entries == [] then []
    else PrintString(entries[0].key) + Print(entries[0].value) + PrintEntries(entries[1..])
  }

  // ---------------------------------------------------------------------- parser

  /** The position of the first `e` at or after `pos`; the end if there is none. */
  function FindE(data: Bytes, pos: nat): (n: nat)
    requires pos <= |data|
    ensures pos <= n <= |data| && (n < |data| ==> data[n] == CHAR_E)
    ensures forall i :: pos <= i < n ==> data[i] != CHAR_E
    decreases |data| - pos
  {
    if pos == |data| || data[pos] == CHAR_E then pos else FindE(data, pos + 1)
  }

  /** The position of the first byte at or after `pos` that is not a digit. */
  function SkipDigits(data: Bytes, pos: nat): (n: nat)
    requires pos <= |data|
    ensures pos <= n <= |data| && (n < |data| ==> !IsDigit(data[n]))
    ensures forall i :: pos <= i < n ==> IsDigit(data[i])
    decreases |data| - pos
  {
    if pos == |data| || !IsDigit(data[pos]) then pos else SkipDigits(data, pos + 1)
  }

  function ParseNumber(token: Bytes): Result<int, DecodeError> {
    if token == [] || !IsUtf8(token) then Err(InvalidInteger)
    else if token == [MINUS, ZERO] then Err(NegativeZero)
    else if |token| > 1 && token[0] == ZERO then Err(LeadingZeros)
    else if |token| > 2 && token[..2] == [MINUS, ZERO] then Err(LeadingZeros)
    else
      match ParseI64(token)
      case Some(i) => Ok(i)
      case None => Err(InvalidInteger)
  }

  /** An integer whose token starts at `pos`, with the position after its `e`. */
  function ParseInteger(data: Bytes, pos: nat): (r: Result<(Value, nat), DecodeError>)
    requires pos <= |data|
    ensures r.Ok? ==> pos < r.value.1 <= |data|
  {
    var end := FindE(data, pos);
    if end == |data| then Err(UnexpectedEof)
    else
      match ParseNumber(data[pos..end])
      case Ok(i) => Ok((Integer(i), end + 1))
      case Err(e) => Err(e)
  }

  function ParseLength(token: Bytes): Result<nat, DecodeError>
    requires AllDigits(token)
  {
    if token == [] then Err(InvalidStringLength)
    else if |token| > 1 && token[0] == ZERO then Err(LeadingZeros)
    else
      var length := ParseDigits(token);
      if length >= USIZE_RANGE then Err(InvalidStringLength)
      else if length > MAX_STRING_LENGTH then Err(StringTooLarge(length))
      else Ok(length)
  }

  function ParseString(data: Bytes, pos: nat): (r: Result<(Value, nat), DecodeError>)
    requires pos <= |data|
    ensures r.Ok? ==> pos < r.value.1 <= |data|
  {
    var colon := SkipDigits(data, pos);
    if colon == |data| then Err(UnexpectedEof)
    else if data[colon] != COLON then Err(InvalidStringLength)
    else
      match ParseLength(data[pos..colon])
      case Err(e) => Err(e)
      case Ok(length) =>
        if colon + 1 + length > |data| then Err(UnexpectedEof)
        else Ok((Str(data[colon + 1..colon + 1 + length]), colon + 1 + length))
  }

  /** The value at `pos`, with the position after it. */
  function ParseValue(data: Bytes, pos: nat, depth: nat): (r: Result<(Value, nat), DecodeError>)
    requires pos <= |data|
    ensures r.Ok? ==> pos < r.value.1 <= |data|
    decreases |data| - pos, 0
  {
    if depth > MAX_NESTING_DEPTH then Err(NestingTooDeep)
    else if pos == |data| then Err(UnexpectedEof)
    else if data[pos] == CHAR_I then ParseInteger(data, pos + 1)
    else if data[pos] == CHAR_L then
      match ParseItems(data, pos + 1, depth)
      case Ok((items, end)) => Ok((List(items), end))
      case Err(e) => Err(e)
    else if data[pos] == CHAR_D then
      match ParseEntries(data, pos + 1, None, depth)
      case Ok((entries, end)) => Ok((Dict(entries), end))
      case Err(e) => Err(e)
    else if IsDigit(data[pos]) then ParseString(data, pos)
    else Err(UnexpectedByte(data[pos]))
  }

  /** The remaining items of a list and the position after its closing `e`. */
  function ParseItems(data: Bytes, pos: nat, depth: nat): (r: Result<(seq<Value>, nat), DecodeError>)
    requires pos <= |data|
    ensures r.Ok? ==> pos < r.value.1 <= |data|
    decreases |data| - pos, 1
  {
    if pos < |data| && data[pos] == CHAR_E then Ok(([], pos + 1))
    else
      match ParseValue(data, pos, depth + 1)
      case Err(e) => Err(e)
      case Ok((v, next)) =>
        match ParseItems(data, next, depth)
        case Err(e) => Err(e)
        case Ok((rest, end)) => Ok(([v] + rest, end))
  }

  /** A key and its value; `last` is the key before, which must be smaller. */
  function ParseEntry(data: Bytes, pos: nat, last: Option<Bytes>,
                      depth: nat): (r: Result<(Entry, nat, nat), DecodeError>)
    requires pos <= |data|
    ensures r.Ok? ==> pos < r.value.1 < r.value.2 <= |data|
    decreases |data| - pos, 1
  {
    match ParseValue(data, pos, depth + 1)
    case Err(e) => Err(e)
    case Ok((k, mid)) =>
      if !k.Str? then Err(NonStringKey)
      else if last.Some? && LessEq(k.bytes, last.value) then Err(UnsortedKeys)
      else
        match ParseValue(data, mid, depth + 1)
        case Err(e) => Err(e)
        case Ok((v, end)) => Ok((Entry(k.bytes, v), mid, end))
  }

  function ParseEntries(data: Bytes, pos: nat, last: Option<Bytes>,
                        depth: nat): (r: Result<(seq<Entry>, nat), DecodeError>)
    requires pos <= |data|
    ensures r.Ok? ==> pos < r.value.1 <= |data|
    decreases |data| - pos, 2
  {
    if pos < |data| && data[pos] == CHAR_E then Ok(([], pos + 1))
    else
      match ParseEntry(data, pos, last, depth)
      case Err(e) => Err(e)
      case Ok((entry, _, next)) =>
        match ParseEntries(data, next, Some(entry.key), depth)
        case Err(e) => Err(e)
        case Ok((rest, end)) => Ok(([entry] + rest, end))
  }

  lemma DictIffTag(data: Bytes, pos: nat, depth: nat)
    requires pos <= |data| && ParseValue(data, pos, depth).Ok?
    ensures ParseValue(data, pos, depth).value.0.Dict? <==> data[pos] == CHAR_D
  {
  }

  function Decode(data: Bytes): Result<Value, DecodeError> {
    match ParseValue(data, 0, 0)
    case Err(e) => Err(e)
    case Ok((v, end)) => if end < |data| then Err(TrailingData) else Ok(v)
  }

  /** The bytes of the value of the last key `info` among the entries. */
  function RawInfo(data: Bytes, pos: nat, last: Option<Bytes>, depth: nat): Option<Bytes>
    requires pos <= |data| && ParseEntries(data, pos, last, depth).Ok?
    decreases |data| - pos
  {
    if data[pos] == CHAR_E then None
    else
      var (entry, mid, next) := ParseEntry(data, pos, last, depth).value;
      var later := RawInfo(data, next, Some(entry.key), depth);
      if later.Some? then later
      else if entry.key == INFO_KEY then Some(data[mid..next])
      else None
  }

  function DecodeWithInfoRaw(data: Bytes): Result<(Value, Option<Bytes>), DecodeError> {
    match ParseValue(data, 0, 0)
    case Err(e) => Err(e)
    case Ok((v, end)) =>
      if end < |data| then Err(TrailingData)
      else Ok((v, if v.Dict? then RawInfo(data, 1, None, 0) else None))
  }

  // ------------------------------------------------------------- decodable values

  /** What the parser can produce at a nesting depth. */
  predicate Fits(v: Value, depth: nat)
    decreases v, 0
  {
    depth <= MAX_NESTING_DEPTH &&
    match v
    case Str(b) => |b| <= MAX_STRING_LENGTH
    case Integer(i) => I64_MIN <= i <= I64_MAX
    case List(items) => FitsItems(items, depth)
    case Dict(entries) => FitsEntries(entries, None, depth)
  }

  predicate FitsItems(items: seq<Value>, depth: nat)
    decreases items, 1
  {
    items == [] || (Fits(items[0], depth + 1) && FitsItems(items[1..], depth))
  }

  predicate FitsEntries(entries: seq<Entry>, last: Option<Bytes>, depth: nat)
    decreases entries, 1
  {
    entries == [] ||
    (&& |entries[0].key| <= MAX_STRING_LENGTH
     && (last.Some? ==> !LessEq(entries[0].key, last.value))
     && Fits(entries[0].value, depth + 1)
     && FitsEntries(entries[1..], Some(entries[0].key), depth))
  }
}
