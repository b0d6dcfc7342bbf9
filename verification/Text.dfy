/** Decimal numerals and UTF-8, as the standard library formats and parses them. */
module Text {
  import opened Prelude
  import opened Arithmetic

  const ZERO: byte := 48
  const PLUS: byte := 43
  const MINUS: byte := 45

  const I64_MIN := -0x8000_0000_0000_0000
  const I64_MAX := 0x7FFF_FFFF_FFFF_FFFF
  const USIZE_RANGE := 0x1_0000_0000_0000_0000

  predicate IsDigit(b: byte) {
    48 <= b <= 57
  }

  predicate AllDigits(s: Bytes) {
    forall i :: 0 <= i < |s| ==> IsDigit(s[i])
  }

  function DigitChar(d: nat): (b: byte)
    requires d < 10
    ensures IsDigit(b) && DigitValue(b) == d
    ensures b == ZERO <==> d == 0
  {
    (48 + d) as byte
  }

  function DigitValue(b: byte): (d: nat)
    requires IsDigit(b)
    ensures d < 10
  {
    (b - 48) as int
  }

  lemma DigitCharValue(b: byte)
    requires IsDigit(b)
    ensures DigitChar(DigitValue(b)) == b
  {
  }

  function ToDecimal(n: nat): (s: Bytes)
    ensures |s| > 0 && AllDigits(s)
  {
    if n < 10 then [DigitChar(n)] else ToDecimal(n / 10) + [DigitChar(n % 10)]
  }

  function ParseDigits(s: Bytes): nat
    requires AllDigits(s)
  {
    if s == [] then 0 else 10 * ParseDigits(s[..|s| - 1]) + DigitValue(s[|s| - 1])
  }

  /** No zero in front of another digit. */
  predicate NoLeadingZero(s: Bytes) {
    |s| > 1 ==> s[0] != ZERO
  }

  lemma {:induction false} ToDecimalParses(n: nat)
    ensures ParseDigits(ToDecimal(n)) == n
    ensures NoLeadingZero(ToDecimal(n))
    ensures ToDecimal(n)[0] == ZERO <==> n == 0
  {
    if n >= 10 {
      ToDecimalParses(n / 10);
      var s := ToDecimal(n);
      assert s[..|s| - 1] == ToDecimal(n / 10);
    } else {
      assert ToDecimal(n)[..0] == [];
    }
  }

  lemma {:induction false} ParseDigitsPrints(s: Bytes)
    requires |s| > 0 && AllDigits(s) && NoLeadingZero(s)
    ensures ToDecimal(ParseDigits(s)) == s
    ensures |s| > 1 ==> ParseDigits(s) >= 10
    ensures s[0] != ZERO ==> ParseDigits(s) > 0
  {
    var init, last := s[..|s| - 1], s[|s| - 1];
    DigitCharValue(last);
    if |s| == 1 {
      assert ParseDigits(init) == 0;
    } else {
      ParseDigitsPrints(init);
      assert init[0] == s[0];
      var n := ParseDigits(s);
      DivIs(n, 10, ParseDigits(init), DigitValue(last));
      assert s == init + [last];
    }
  }

  /** `i64::to_string`. */
  function ToSigned(i: int): Bytes {
    if i < 0 then [MINUS] + ToDecimal(-i) else ToDecimal(i)
  }

  /** `str::parse::<i64>`: an optional sign, then at least one digit, in range. */
  function ParseI64(s: Bytes): Option<int> {
    if s == [] then None
    else
      var signed := s[0] == PLUS || s[0] == MINUS;
      var digits := if signed then s[1..] else s;
      if digits == [] || !AllDigits(digits) then None
      else
        var magnitude: int := ParseDigits(digits);
        var n := if s[0] == MINUS then -magnitude else magnitude;
        if I64_MIN <= n <= I64_MAX then Some(n) else None
  }

  lemma ToSignedParses(i: int)
    requires I64_MIN <= i <= I64_MAX
    ensures ParseI64(ToSigned(i)) == Some(i)
  {
    ToDecimalParses(if i < 0 then -i else i);
    if i < 0 {
      assert ToSigned(i)[1..] == ToDecimal(-i);
    }
  }

  // ----------------------------------------------------------------------- UTF-8

  predicate IsContinuation(b: byte) {
    0x80 <= b <= 0xBF
  }

  /** The length of the well-formed character at the front of `s`; 0 if none. */
  function CharLength(s: Bytes): (n: nat)
    requires s != []
    ensures n <= |s|
  {
    var a := s[0];
    if a < 0x80 then 1
    else if 0xC2 <= a <= 0xDF then
      if |s| >= 2 && IsContinuation(s[1]) then 2 else 0
    else if 0xE0 <= a <= 0xEF then
      if |s| >= 3 && IsContinuation(s[1]) && IsContinuation(s[2])
         && (a == 0xE0 ==> s[1] >= 0xA0) && (a == 0xED ==> s[1] <= 0x9F) then 3 else 0
    else if 0xF0 <= a <= 0xF4 then
      if |s| >= 4 && IsContinuation(s[1]) && IsContinuation(s[2]) && IsContinuation(s[3])
         && (a == 0xF0 ==> s[1] >= 0x90) && (a == 0xF4 ==> s[1] <= 0x8F) then 4 else 0
    else 0
  }

  /** `str::from_utf8` succeeds. */
  predicate IsUtf8(s: Bytes)
    decreases |s|
  {
    s == [] || (CharLength(s) > 0 && IsUtf8(s[CharLength(s)..]))
  }

  lemma {:induction false} AsciiIsUtf8(s: Bytes)
    requires forall i :: 0 <= i < |s| ==> s[i] < 0x80
    ensures IsUtf8(s)
  {
    if s != [] {
      AsciiIsUtf8(s[1..]);
    }
  }

  lemma SignedIsUtf8(i: int)
    ensures IsUtf8(ToSigned(i))
  {
    AsciiIsUtf8(ToSigned(i));
  }
}
