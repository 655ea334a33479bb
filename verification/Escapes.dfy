/** The percent and JSON escapes that the redactor decodes (internal/secrets/secrets.go:472-483,
    953-1034).

    `HeadUnit` is what one turn of the decoding loop does at the current position: it takes
    `width` source bytes and gives `bytes`. */
module Escapes {
  import opened Ordering

  newtype Byte = b: int | 0 <= b < 256

  const PERCENT: Byte := 37
  const BACKSLASH: Byte := 92
  const QUOTE: Byte := 34
  const SLASH: Byte := 47
  const LOWER_U: Byte := 117

  datatype Unit = Unit(bytes: seq<Byte>, width: nat, escaped: bool)

  function PercentNibble(b: Byte): (n: Option<nat>)
    ensures n.Some? ==> n.value < 16 && b < 128 && b != BACKSLASH
  {
    if 48 <= b <= 57 then Some((b - 48) as nat)
    else if 97 <= b <= 102 then Some((b - 87) as nat)
    else if 65 <= b <= 70 then Some((b - 55) as nat)
    else None
  }

  // The digits by their names.

  const LOWER_DIGITS := "0123456789abcdef"
  const UPPER_DIGITS := "0123456789ABCDEF"

  /** A digit of the number `n` in either case. */
  predicate IsDigit(b: Byte, n: nat) {
    n < 16 && (b as int == LOWER_DIGITS[n] as int || b as int == UPPER_DIGITS[n] as int)
  }

  function Digit(n: nat, upper: bool): (b: Byte)
    requires n < 16
    ensures IsDigit(b, n)
  {
    (if upper then UPPER_DIGITS else LOWER_DIGITS)[n] as Byte
  }

  /** Both digits of a number have its value, and no other byte has one. */
  lemma NibblesAreExact(b: Byte, n: nat)
    ensures PercentNibble(b) == Some(n) <==> IsDigit(b, n)
  {
  }

  /** The byte that a percent escape at the front of `text` stands for. */
  function PercentEscape(text: seq<Byte>): (b: Option<Byte>)
    ensures b.Some? ==> |text| > 2 && text[0] == PERCENT && text[1] < 128 && text[2] < 128
  {
    if |text| > 2 && text[0] == PERCENT && PercentNibble(text[1]).Some? && PercentNibble(text[2]).Some? then
      Some((PercentNibble(text[1]).value * 16 + PercentNibble(text[2]).value) as Byte)
    else
      None
  }

  /** The number that `text` writes in hexadecimal, most significant digit first. */
  function HexValue(text: seq<Byte>): (n: Option<nat>)
    ensures n.Some? ==> forall b :: b in text ==> b < 128
  {
    if text == [] then Some(0)
    else
      assert text == text[..|text| - 1] + [text[|text| - 1]];
      var rest := HexValue(text[..|text| - 1]);
      var last := PercentNibble(text[|text| - 1]);
      if rest.Some? && last.Some? then Some(rest.value * 16 + last.value) else None
  }

  /** The loop of parseJSONHex4; four digits fit the 16-bit accumulator. */
  method ParseJsonHex4(text: seq<Byte>) returns (code: Option<nat>)
    ensures code == if |text| == 4 then HexValue(text) else None
    ensures forall n: nat :: code == Some(n) <==> n < 0x10000 && Writes(text, n)
  {
    hide PercentNibble, IsDigit;
    forall n: nat | |text| == 4 ensures HexValue(text) == Some(n) <==> n < 0x10000 && Writes(text, n) {
      HexValueIsExact(text, n);
    }
    if |text| != 4 {
      return None;
    }
    var result: nat := 0;
    var index := 0;
    while index < |text|
      invariant 0 <= index <= |text|
      invariant HexValue(text[..index]) == Some(result)
      invariant index == 0 ==> result < 1
      invariant index == 1 ==> result < 0x10
      invariant index == 2 ==> result < 0x100
      invariant index == 3 ==> result < 0x1000
      invariant index == 4 ==> result < 0x10000
    {
      assert text[..index + 1][..index] == text[..index];
      var nibble := PercentNibble(text[index]);
      if nibble.None? {
        PrefixWithoutValue(text, index + 1);
        return None;
      }
      result := result * 16 + nibble.value;
      index := index + 1;
    }
    assert text[..4] == text;
    return Some(result);
  }

  /** Four digits, each in either case, that write `n`. */
  ghost predicate Writes(text: seq<Byte>, n: nat) {
    && |text| == 4
    && IsDigit(text[0], n / 4096) && IsDigit(text[1], n / 256 % 16)
    && IsDigit(text[2], n / 16 % 16) && IsDigit(text[3], n % 16)
  }

  lemma HexValueOfFour(text: seq<Byte>)
    requires |text| == 4
    ensures var a, b, c, d :=
              PercentNibble(text[0]), PercentNibble(text[1]), PercentNibble(text[2]), PercentNibble(text[3]);
            HexValue(text) ==
            if a.Some? && b.Some? && c.Some? && d.Some? then
              Some(a.value * 4096 + b.value * 256 + c.value * 16 + d.value)
            else None
  {
    hide PercentNibble;
    var t3, t2, t1 := text[..3], text[..2], text[..1];
    assert t3[..2] == t2 && t2[..1] == t1 && t1[..0] == [];
    assert t3[2] == text[2] && t2[1] == text[1] && t1[0] == text[0];
    assert HexValue(t1) == PercentNibble(text[0]);
    assert HexValue(t2).Some? ==> HexValue(t2).value == HexValue(t1).value * 16 + PercentNibble(text[1]).value;
  }

  lemma LastDigit(n: nat, rest: nat, digit: nat)
    requires digit < 16
    ensures n == rest * 16 + digit <==> n / 16 == rest && n % 16 == digit
  {
  }

  lemma DigitsOf(n: nat, a: nat, b: nat, c: nat, d: nat)
    requires a < 16 && b < 16 && c < 16 && d < 16
    ensures n == a * 4096 + b * 256 + c * 16 + d <==>
              n / 4096 == a && n / 256 % 16 == b && n / 16 % 16 == c && n % 16 == d
  {
    assert n / 16 / 16 == n / 256 && n / 256 / 16 == n / 4096;
    LastDigit(n, a * 256 + b * 16 + c, d);
    LastDigit(n / 16, a * 16 + b, c);
    LastDigit(n / 256, a, b);
  }

  lemma HexValueIsExact(text: seq<Byte>, n: nat)
    requires |text| == 4
    ensures HexValue(text) == Some(n) <==> n < 0x10000 && Writes(text, n)
  {
    hide PercentNibble, IsDigit, HexValue;
    HexValueOfFour(text);
    var a, b, c, d := PercentNibble(text[0]), PercentNibble(text[1]), PercentNibble(text[2]), PercentNibble(text[3]);
    NibblesAreExact(text[0], n / 4096);
    NibblesAreExact(text[1], n / 256 % 16);
    NibblesAreExact(text[2], n / 16 % 16);
    NibblesAreExact(text[3], n % 16);
    if a.Some? && b.Some? && c.Some? && d.Some? {
      DigitsOf(n, a.value, b.value, c.value, d.value);
    }
  }

  lemma {:induction false} PrefixWithoutValue(text: seq<Byte>, n: nat)
    requires n <= |text| && HexValue(text[..n]).None?
    ensures HexValue(text).None?
    decreases |text|
  {
    if n == |text| {
      assert text[..n] == text;
    } else {
      assert text[..|text| - 1][..n] == text[..n];
      PrefixWithoutValue(text[..|text| - 1], n);
    }
  }

  /** The number that the four hexadecimal digits at `from` write. */
  function Hex4(text: seq<Byte>, from: nat): (n: Option<nat>)
    ensures n.Some? ==>
              && from + 4 <= |text|
              && text[from] < 128 && text[from + 1] < 128 && text[from + 2] < 128 && text[from + 3] < 128
  {
    if from + 4 <= |text| then
      var digits := text[from..from + 4];
      assert digits[0] in digits && digits[1] in digits && digits[2] in digits && digits[3] in digits;
      HexValue(digits)
    else None
  }

  predicate IsHighSurrogate(code: nat) { 0xd800 <= code <= 0xdbff }

  predicate IsLowSurrogate(code: nat) { 0xdc00 <= code <= 0xdfff }

  predicate IsSurrogate(code: nat) { 0xd800 <= code <= 0xdfff }

  /** The code point and width of a \u escape at the front of `text`: a surrogate pair is one
      escape of twelve bytes, and a lone surrogate stands for U+FFFD. */
  function JsonCodePoint(text: seq<Byte>): (r: Option<(nat, nat)>)
    requires |text| >= 2 && text[0] < 128 && text[1] < 128
    ensures r.Some? ==> 6 <= r.value.1 <= |text| && (r.value.1 == 6 || r.value.1 == 12)
    ensures r.Some? ==> forall k :: 0 <= k < r.value.1 ==> text[k] < 128
  {
    var code := Hex4(text, 2);
    if code.None? then None
    else
      var low := if IsHighSurrogate(code.value) && 12 <= |text| && text[6] == BACKSLASH && text[7] == LOWER_U
                 then Hex4(text, 8) else None;
      if low.Some? && IsLowSurrogate(low.value) then
        Some((0x10000 + (code.value - 0xd800) * 0x400 + (low.value - 0xdc00), 12))
      else
        Some((if IsSurrogate(code.value) then 0xfffd else code.value, 6))
  }

  /** UTF-8 as utf8.EncodeRune writes it: U+FFFD for what is not a code point. */
  function Utf8(code: nat): (bytes: seq<Byte>)
    ensures 1 <= |bytes| <= 4
    ensures |bytes| > 1 ==> forall b :: b in bytes ==> b >= 128
  {
    if code < 0x80 then [code as Byte]
    else if code < 0x800 then [Lead(0xC0, code / 64), Continuation(code)]
    else if IsSurrogate(code) || code > 0x10FFFF then [0xEF, 0xBF, 0xBD]
    else if code < 0x10000 then [Lead(0xE0, code / 4096), Continuation(code / 64), Continuation(code)]
    else [Lead(0xF0, code / 262144), Continuation(code / 4096), Continuation(code / 64), Continuation(code)]
  }

  function Lead(mark: nat, high: nat): (b: Byte)
    requires 0xC0 <= mark && mark + high < 256
    ensures b >= 128
  {
    (mark + high) as Byte
  }

  function Continuation(code: nat): (b: Byte)
    ensures b >= 128
  {
    (0x80 + code % 64) as Byte
  }

  /** What the escapes of two bytes stand for. */
  function ShortEscape(b: Byte): (r: Option<Byte>)
    ensures r.Some? ==> b < 128
  {
    if b == QUOTE || b == BACKSLASH || b == SLASH then Some(b)
    else if b == 98 then Some(8)
    else if b == 102 then Some(12)
    else if b == 110 then Some(10)
    else if b == 114 then Some(13)
    else if b == 116 then Some(9)
    else None
  }

  /** The JSON escape at the front of `text`, as appendJSONEscape reads it. */
  function JsonEscape(text: seq<Byte>): (u: Option<Unit>)
    ensures u.Some? ==> u.value.escaped && 1 <= |u.value.bytes| < u.value.width <= |text| && text[0] == BACKSLASH
    ensures u.Some? ==> forall k :: 0 <= k < u.value.width ==> text[k] < 128
    ensures u.Some? && |u.value.bytes| > 1 ==> forall b :: b in u.value.bytes ==> b >= 128
  {
    if |text| < 2 || text[0] != BACKSLASH then None
    else if text[1] == LOWER_U then
      var code := JsonCodePoint(text);
      if code.None? then None else Some(Unit(Utf8(code.value.0), code.value.1, true))
    else
      var b := ShortEscape(text[1]);
      if b.None? then None else Some(Unit([b.value], 2, true))
  }

  /** One turn of the decoding loop at the front of `text`. */
  function HeadUnit(text: seq<Byte>, percent: bool): (u: Unit)
    requires text != []
    ensures 1 <= |u.bytes| <= u.width <= |text|
    ensures if u.escaped then |u.bytes| < u.width && forall k :: 0 <= k < u.width ==> text[k] < 128
            else u == Unit([text[0]], 1, false)
    ensures |u.bytes| > 1 ==> forall b :: b in u.bytes ==> b >= 128
  {
    if percent && PercentEscape(text).Some? then Unit([PercentEscape(text).value], 3, true)
    else if JsonEscape(text).Some? then JsonEscape(text).value
    else Unit([text[0]], 1, false)
  }
}
