/** Every way of writing a text with percent and JSON escapes, and that the decoders undo each of them
    (internal/secrets/secrets.go:448-483, 953-1034). The digits, the letters of the short escapes (section 7
    of RFC 8259) and UTF-8 (section 3 of RFC 3629) are given here by their own definitions, not by the
    decoder's. */
module Spellings {
  import opened Ordering
  import opened Escapes
  import opened EncodedView
  import opened PercentCoding

  /** A byte as it is or percent escaped, or a code point as a JSON escape. Each hexadecimal digit is in
      upper case where `upper` says so. */
  datatype Piece =
    | Plain(b: Byte)
    | Percent(b: Byte, upper: seq<bool>)
    | Short(b: Byte)
    | Unicode(code: nat, upper: seq<bool>)

  function Letter(b: Byte): Option<Byte> {
    match b
    case 34 => Some('"' as Byte)
    case 92 => Some('\\' as Byte)
    case 47 => Some('/' as Byte)
    case 8 => Some('b' as Byte)
    case 12 => Some('f' as Byte)
    case 10 => Some('n' as Byte)
    case 13 => Some('r' as Byte)
    case 9 => Some('t' as Byte)
    case _ => None
  }

  lemma ShortEscapesAreExact(b: Byte, letter: Byte)
    ensures ShortEscape(letter) == Some(b) <==> Letter(b) == Some(letter)
  {
  }

  /** Enough digits, an existing letter, and only code points that are no surrogates. */
  predicate WellFormed(piece: Piece) {
    match piece
    case Plain(_) => true
    case Percent(_, upper) => |upper| == 2
    case Short(b) => Letter(b).Some?
    case Unicode(code, upper) => code <= 0x10FFFF && !(0xd800 <= code <= 0xdfff) && |upper| == 8
  }

  /** A text for a decoder of percent escapes, of JSON escapes, or of both: a sign that begins an escape
      for it does not stand alone. */
  ghost predicate Fit(pieces: seq<Piece>, percent: bool, json: bool) {
    forall piece :: piece in pieces ==>
      && WellFormed(piece)
      && match piece
         case Plain(b) => (percent ==> b != PERCENT) && (json ==> b != BACKSLASH)
         case Percent(_, _) => percent
         case _ => json
  }

  function Meaning(piece: Piece): seq<Byte> {
    match piece
    case Unicode(code, _) => Utf8(code)
    case _ => [piece.b]
  }

  function FourHex(n: nat, upper: seq<bool>): (text: seq<Byte>)
    requires n < 0x10000 && |upper| == 4
    ensures Writes(text, n)
  {
    [Digit(n / 4096, upper[0]), Digit(n / 256 % 16, upper[1]), Digit(n / 16 % 16, upper[2]), Digit(n % 16, upper[3])]
  }

  function UnicodeEscape(n: nat, upper: seq<bool>): seq<Byte>
    requires n < 0x10000 && |upper| == 4
  {
    [BACKSLASH, LOWER_U] + FourHex(n, upper)
  }

  function Writing(piece: Piece): (text: seq<Byte>)
    requires WellFormed(piece)
    ensures text != []
  {
    match piece
    case Plain(b) => [b]
    case Percent(b, upper) => [PERCENT, Digit((b / 16) as nat, upper[0]), Digit((b % 16) as nat, upper[1])]
    case Short(b) => [BACKSLASH, Letter(b).value]
    case Unicode(code, upper) =>
      if code < 0x10000 then UnicodeEscape(code, upper[..4])
      else UnicodeEscape(High(code), upper[..4]) + UnicodeEscape(Low(code), upper[4..])
  }

  /** The surrogate pair of a code point beyond the first 65536: twenty bits, ten in each. */
  function High(code: nat): nat
    requires 0x10000 <= code
  {
    0xd800 + (code - 0x10000) / 0x400
  }

  function Low(code: nat): nat
    requires 0x10000 <= code
  {
    0xdc00 + (code - 0x10000) % 0x400
  }

  function Meant(pieces: seq<Piece>): seq<Byte> {
    if pieces == [] then [] else Meaning(pieces[0]) + Meant(pieces[1..])
  }

  function Written(pieces: seq<Piece>): seq<Byte>
    requires forall piece :: piece in pieces ==> WellFormed(piece)
  {
    if pieces == [] then [] else Writing(pieces[0]) + Written(pieces[1..])
  }

  // ---------------------------------------------------------------- UTF-8

  /** The code point that one to four bytes of UTF-8 stand for, by the weights of their bits. */
  function CodePointOf(bytes: seq<Byte>): int
    requires 1 <= |bytes| <= 4
  {
    match |bytes|
    case 1 => bytes[0] as int
    case 2 => (bytes[0] as int - 0xC0) * 64 + (bytes[1] as int - 0x80)
    case 3 => (bytes[0] as int - 0xE0) * 4096 + (bytes[1] as int - 0x80) * 64 + (bytes[2] as int - 0x80)
    case _ =>
      (bytes[0] as int - 0xF0) * 262144 + (bytes[1] as int - 0x80) * 4096 + (bytes[2] as int - 0x80) * 64
        + (bytes[3] as int - 0x80)
  }

  /** The encoding has the length of its range, its later bytes are continuation bytes, and it stands for
      its code point; with these there is only one. */
  lemma Utf8IsExact(code: nat)
    requires code <= 0x10FFFF && !(0xd800 <= code <= 0xdfff)
    ensures var bytes := Utf8(code);
            && |bytes| == (if code < 0x80 then 1 else if code < 0x800 then 2 else if code < 0x10000 then 3 else 4)
            && (forall k :: 1 <= k < |bytes| ==> 0x80 <= bytes[k] < 0xC0)
            && CodePointOf(bytes) == code
  {
    SixBits(code);
    if code < 0x800 {
      assert code < 0x80 ==> Utf8(code) == [code as Byte];
    } else if code < 0x10000 {
      var bytes := Utf8(code);
      assert bytes[0] as int == 0xE0 + code / 4096;
      assert bytes[1] as int == 0x80 + code / 64 % 64 && bytes[2] as int == 0x80 + code % 64;
    } else {
      var bytes := Utf8(code);
      assert bytes[0] as int == 0xF0 + code / 262144 && bytes[1] as int == 0x80 + code / 4096 % 64;
      assert bytes[2] as int == 0x80 + code / 64 % 64 && bytes[3] as int == 0x80 + code % 64;
    }
  }

  lemma SixBits(n: nat)
    ensures n == n / 64 * 64 + n % 64
    ensures n / 64 == n / 4096 * 64 + n / 64 % 64
    ensures n / 4096 == n / 262144 * 64 + n / 4096 % 64
  {
    assert n / 4096 == n / 64 / 64 && n / 262144 == n / 4096 / 64;
  }

  // ---------------------------------------------------------------- the decoders

  lemma PercentDecodes(b: Byte, upper: seq<bool>, rest: seq<Byte>)
    requires |upper| == 2
    ensures PercentEscape(Writing(Percent(b, upper)) + rest) == Some(b)
  {
    hide PercentNibble, IsDigit;
    var text := Writing(Percent(b, upper)) + rest;
    assert text[0] == PERCENT;
    NibblesAreExact(text[1], (b / 16) as nat);
    NibblesAreExact(text[2], (b % 16) as nat);
  }

  lemma ShortDecodes(b: Byte, rest: seq<Byte>, percent: bool)
    requires Letter(b).Some?
    ensures HeadUnit(Writing(Short(b)) + rest, percent) == Unit([b], 2, true)
  {
    var text := Writing(Short(b)) + rest;
    assert text[0] == BACKSLASH && text[1] == Letter(b).value;
    ShortEscapesAreExact(b, Letter(b).value);
  }

  lemma Hex4Reads(before: seq<Byte>, n: nat, upper: seq<bool>, rest: seq<Byte>)
    requires n < 0x10000 && |upper| == 4
    ensures Hex4(before + FourHex(n, upper) + rest, |before|) == Some(n)
  {
    hide HexValue, Writes, IsDigit;
    var digits := FourHex(n, upper);
    assert (before + digits + rest)[|before|..|before| + 4] == digits;
    HexValueIsExact(digits, n);
  }

  lemma CodePointDecodes(text: seq<Byte>, code: nat, width: nat, percent: bool)
    requires |text| >= 2 && text[0] == BACKSLASH && text[1] == LOWER_U && JsonCodePoint(text) == Some((code, width))
    ensures HeadUnit(text, percent) == Unit(Utf8(code), width, true)
  {
    hide JsonCodePoint, Utf8;
  }

  lemma OneEscapeReads(code: nat, upper: seq<bool>, rest: seq<Byte>)
    requires code < 0x10000 && !(0xd800 <= code <= 0xdfff) && |upper| == 4
    ensures JsonCodePoint(UnicodeEscape(code, upper) + rest) == Some((code, 6))
  {
    hide HexValue, FourHex, Hex4;
    var begin := [BACKSLASH, LOWER_U];
    var text := UnicodeEscape(code, upper) + rest;
    assert text == begin + FourHex(code, upper) + rest;
    Hex4Reads(begin, code, upper, rest);
  }

  lemma PairReads(code: nat, high: seq<bool>, low: seq<bool>, rest: seq<Byte>)
    requires 0x10000 <= code <= 0x10FFFF && |high| == 4 && |low| == 4
    ensures JsonCodePoint(UnicodeEscape(High(code), high) + UnicodeEscape(Low(code), low) + rest) == Some((code, 12))
  {
    hide HexValue, FourHex, Hex4;
    var begin := [BACKSLASH, LOWER_U];
    var first, second := UnicodeEscape(High(code), high), UnicodeEscape(Low(code), low);
    var text := first + second + rest;
    assert text == begin + FourHex(High(code), high) + (second + rest);
    Hex4Reads(begin, High(code), high, second + rest);
    assert text == (first + begin) + FourHex(Low(code), low) + rest;
    Hex4Reads(first + begin, Low(code), low, rest);
    assert text[6] == BACKSLASH && text[7] == LOWER_U;
  }

  lemma UnicodeDecodes(code: nat, upper: seq<bool>, rest: seq<Byte>, percent: bool)
    requires WellFormed(Unicode(code, upper))
    ensures var writing := Writing(Unicode(code, upper));
            HeadUnit(writing + rest, percent) == Unit(Utf8(code), |writing|, true)
  {
    hide HexValue, FourHex, Utf8, JsonCodePoint, High, Low;
    var writing := Writing(Unicode(code, upper));
    if code < 0x10000 {
      OneEscapeReads(code, upper[..4], rest);
    } else {
      PairReads(code, upper[..4], upper[4..], rest);
    }
    CodePointDecodes(writing + rest, code, |writing|, percent);
  }

  /** A turn of the loop at the front of a written piece takes exactly that piece and gives its meaning. */
  lemma PieceDecodes(piece: Piece, rest: seq<Byte>, percent: bool)
    requires Fit([piece], percent, true)
    ensures var u := HeadUnit(Writing(piece) + rest, percent);
            u.bytes == Meaning(piece) && u.width == |Writing(piece)|
  {
    assert piece in [piece];
    match piece
    case Plain(b) =>
    case Percent(b, upper) => PercentDecodes(b, upper, rest);
    case Short(b) => ShortDecodes(b, rest, percent);
    case Unicode(code, upper) => UnicodeDecodes(code, upper, rest, percent);
  }

  /** However a text is written, one layer gives back what was meant. */
  lemma {:induction false} DecodingUndoesWriting(pieces: seq<Piece>, percent: bool)
    requires Fit(pieces, percent, true)
    ensures DecodeText(Written(pieces), percent) == Meant(pieces)
    decreases |pieces|
  {
    hide HeadUnit, Writing, Meaning;
    if pieces != [] {
      var writing, rest := Writing(pieces[0]), Written(pieces[1..]);
      PieceDecodes(pieces[0], rest, percent);
      assert (writing + rest)[|writing|..] == rest;
      DecodingUndoesWriting(pieces[1..], percent);
    }
  }

  /** The same for decodePercentEscapes, which leaves backslashes alone. */
  lemma {:induction false} PercentDecodingUndoesWriting(pieces: seq<Piece>)
    requires Fit(pieces, true, false)
    ensures DecodePercent(Written(pieces)) == Meant(pieces)
    decreases |pieces|
  {
    hide PercentEscape;
    if pieces != [] {
      var writing, rest := Writing(pieces[0]), Written(pieces[1..]);
      assert pieces[0] in pieces;
      if pieces[0].Percent? {
        PercentDecodes(pieces[0].b, pieces[0].upper, rest);
      } else {
        NoPercentEscape(writing + rest);
      }
      assert (writing + rest)[|writing|..] == rest;
      PercentDecodingUndoesWriting(pieces[1..]);
    }
  }

  lemma NoPercentEscape(text: seq<Byte>)
    requires text != [] && text[0] != PERCENT
    ensures PercentEscape(text).None?
  {
  }

  // ---------------------------------------------------------------- what is no escape

  /** A surrogate that is not part of a pair stands for U+FFFD, and only its six bytes are taken. */
  lemma LoneSurrogateIsReplaced(code: nat, upper: seq<bool>, rest: seq<Byte>, percent: bool)
    requires 0xd800 <= code <= 0xdfff && |upper| == 4
    requires code <= 0xdbff ==>
               forall low, others :: 0xdc00 <= low <= 0xdfff && |others| == 4 ==> !(UnicodeEscape(low, others) <= rest)
    ensures HeadUnit(UnicodeEscape(code, upper) + rest, percent) == Unit([0xEF, 0xBF, 0xBD], 6, true)
  {
    hide HexValue, FourHex, Utf8;
    var text := UnicodeEscape(code, upper) + rest;
    var begin := [BACKSLASH, LOWER_U];
    assert text[0] == BACKSLASH && text[1] == LOWER_U;
    assert text == begin + FourHex(code, upper) + rest;
    Hex4Reads(begin, code, upper, rest);
    if IsHighSurrogate(code) && 12 <= |text| && text[6] == BACKSLASH && text[7] == LOWER_U {
      assert rest == text[6..];
      NoLowSurrogate(rest);
      assert text[8..12] == rest[2..6];
    }
    assert Utf8(0xfffd) == [0xEF, 0xBF, 0xBD] by {
      Utf8OfReplacement();
    }
  }

  lemma Utf8OfReplacement()
    ensures Utf8(0xfffd) == [0xEF, 0xBF, 0xBD]
  {
  }

  lemma NoLowSurrogate(rest: seq<Byte>)
    requires forall low, others :: 0xdc00 <= low <= 0xdfff && |others| == 4 ==> !(UnicodeEscape(low, others) <= rest)
    requires 6 <= |rest| && rest[0] == BACKSLASH && rest[1] == LOWER_U
    ensures var low := HexValue(rest[2..6]); low.Some? ==> !IsLowSurrogate(low.value)
  {
    hide HexValue, FourHex;
    var low := HexValue(rest[2..6]);
    if low.Some? && low.value < 0x10000 {
      var others := CasesOf(rest[2..6], low.value);
      assert UnicodeEscape(low.value, others) == rest[..6];
    }
  }

  lemma CasesOf(text: seq<Byte>, n: nat) returns (upper: seq<bool>)
    requires |text| == 4 && HexValue(text) == Some(n) && n < 0x10000
    ensures |upper| == 4 && FourHex(n, upper) == text
  {
    HexValueIsExact(text, n);
    upper := [text[0] == Digit(n / 4096, true), text[1] == Digit(n / 256 % 16, true),
              text[2] == Digit(n / 16 % 16, true), text[3] == Digit(n % 16, true)];
  }
}
