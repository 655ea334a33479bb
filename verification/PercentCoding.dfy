/** Percent coding on its own, and against the layered decoder (internal/secrets/secrets.go:448-483,
    770-780). */
module PercentCoding {
  import opened Ordering
  import opened Escapes
  import opened EncodedView

  function DecodePercent(text: seq<Byte>): (decoded: seq<Byte>)
  {
    if text == [] then []
    else if PercentEscape(text).Some? then [PercentEscape(text).value] + DecodePercent(text[3..])
    else [text[0]] + DecodePercent(text[1..])
  }

  /** What decoding does at `index`, in the terms of the loop. */
  lemma DecodePercentStep(text: seq<Byte>, index: nat)
    requires index < |text|
    ensures var escape :=
              && text[index] == PERCENT && index + 2 < |text|
              && PercentNibble(text[index + 1]).Some? && PercentNibble(text[index + 2]).Some?;
            && (escape ==>
                  var b := PercentNibble(text[index + 1]).value * 16 + PercentNibble(text[index + 2]).value;
                  DecodePercent(text[index..]) == [b as Byte] + DecodePercent(text[index + 3..]))
            && (!escape ==> DecodePercent(text[index..]) == [text[index]] + DecodePercent(text[index + 1..]))
  {
    hide PercentNibble;
    var rest := text[index..];
    assert rest[1..] == text[index + 1..];
    if |rest| > 2 {
      assert rest[1] == text[index + 1] && rest[2] == text[index + 2];
      assert rest[3..] == text[index + 3..];
    }
  }

  /** On text without a backslash the spanned decoder and decodePercentEscapes agree. */
  lemma {:induction false} PercentLayerIsDecodePercent(text: seq<Byte>)
    requires BACKSLASH !in text
    ensures DecodeText(text, true) == DecodePercent(text)
    decreases |text|
  {
    if text != [] {
      assert text[0] in text;
      assert JsonEscape(text).None?;
      PercentLayerIsDecodePercent(text[HeadUnit(text, true).width..]);
    }
  }

  /** No lower-case letter. */
  predicate UpperCase(text: seq<Byte>) { forall b :: b in text ==> !(97 <= b <= 122) }

  function Encode(text: seq<Byte>): (encoded: seq<Byte>)
    ensures |encoded| == 3 * |text| && UpperCase(encoded)
    ensures BACKSLASH !in encoded
  {
    if text == [] then []
    else Encode(text[..|text| - 1]) + EncodeByte(text[|text| - 1])
  }

  function EncodeByte(b: Byte): (encoded: seq<Byte>)
    ensures |encoded| == 3 && UpperCase(encoded)
    ensures BACKSLASH !in encoded
    ensures PercentEscape(encoded) == Some(b)
  {
    NibblesAreExact(Digit((b / 16) as nat, true), (b / 16) as nat);
    NibblesAreExact(Digit((b % 16) as nat, true), (b % 16) as nat);
    [PERCENT, Digit((b / 16) as nat, true), Digit((b % 16) as nat, true)]
  }

  method FullyPercentEncodeToken(value: seq<Byte>) returns (encoded: seq<Byte>)
    ensures encoded == Encode(value)
    ensures DecodePercent(encoded) == value
    ensures |encoded| == 3 * |value| && UpperCase(encoded)
  {
    encoded := [];
    var index := 0;
    while index < |value|
      invariant 0 <= index <= |value|
      invariant encoded == Encode(value[..index])
    {
      assert value[..index + 1][..index] == value[..index];
      encoded := encoded + [PERCENT];
      encoded := encoded + [Digit((value[index] / 16) as nat, true)];
      encoded := encoded + [Digit((value[index] % 16) as nat, true)];
      index := index + 1;
    }
    assert value[..index] == value;
    DecodeUndoesEncode(value);
  }

  lemma {:induction false} EncodeFromTheFront(text: seq<Byte>)
    requires text != []
    ensures Encode(text) == EncodeByte(text[0]) + Encode(text[1..])
  {
    hide EncodeByte;
    var n := |text| - 1;
    if n == 0 {
      assert text[..n] == [] && text[1..] == [];
    } else {
      EncodeFromTheFront(text[..n]);
      assert text[1..][..n - 1] == text[..n][1..];
    }
  }

  lemma {:induction false} DecodeUndoesEncode(text: seq<Byte>)
    ensures DecodePercent(Encode(text)) == text
    decreases |text|
  {
    hide EncodeByte, PercentNibble;
    if text != [] {
      EncodeFromTheFront(text);
      DecodeUndoesEncode(text[1..]);
      var encoded := Encode(text);
      assert encoded[0..3] == EncodeByte(text[0]) && encoded[3..] == Encode(text[1..]);
      assert encoded[0] == EncodeByte(text[0])[0] && encoded[1] == EncodeByte(text[0])[1]
          && encoded[2] == EncodeByte(text[0])[2];
      assert text == [text[0]] + text[1..];
    }
  }

  /** Encoding every byte `depth` times is undone by as many decoded layers. */
  lemma {:induction false} LayersUndoEncodings(text: seq<Byte>, depth: nat)
    ensures Layers(EncodeTimes(text, depth), seq(depth, _ => true)).text == text
    decreases depth
  {
    if depth > 0 {
      LayersFromTheFront(EncodeTimes(text, depth), depth);
      var once := EncodeTimes(text, depth - 1);
      PercentLayerIsDecodePercent(Encode(once));
      DecodeUndoesEncode(once);
      LayersUndoEncodings(text, depth - 1);
    }
  }

  function EncodeTimes(text: seq<Byte>, depth: nat): seq<Byte> {
    if depth == 0 then text else Encode(EncodeTimes(text, depth - 1))
  }

  /** The text of a stack of layers depends only on the text below it. */
  lemma {:induction false} LayersFromTheFront(raw: seq<Byte>, depth: nat)
    requires depth > 0
    ensures Layers(raw, seq(depth, _ => true)).text
         == Layers(DecodeText(raw, true), seq(depth - 1, _ => true)).text
  {
    var all := seq(depth, _ => true);
    assert all[..depth - 1] == seq(depth - 1, _ => true);
    if depth > 1 {
      LayersFromTheFront(raw, depth - 1);
      var fewer := seq(depth - 1, _ => true);
      assert fewer[..depth - 2] == seq(depth - 2, _ => true);
    }
  }

  /** `decoded` is what the first `index` bytes of `value` decode to, as far as the loop has come. */
  ghost predicate PercentDecoded(value: seq<Byte>, index: nat, decoded: seq<Byte>, changed: bool) {
    && index <= |value|
    && decoded + DecodePercent(value[index..]) == DecodePercent(value)
    && if changed then |decoded| < index else decoded == value[..index]
  }

  lemma PercentDecodedGrows(value: seq<Byte>, index: nat, decoded: seq<Byte>, changed: bool, b: Byte, width: nat)
    requires PercentDecoded(value, index, decoded, changed) && index + width <= |value|
    requires DecodePercent(value[index..]) == [b] + DecodePercent(value[index + width..])
    requires width == 3 || (width == 1 && b == value[index])
    ensures PercentDecoded(value, index + width, decoded + [b], changed || width == 3)
  {
    hide DecodePercent;
    Associates(decoded, [b], DecodePercent(value[index + width..]));
  }

  lemma PercentDecodedAtEnds(value: seq<Byte>, decoded: seq<Byte>, changed: bool)
    ensures PercentDecoded(value, 0, [], false)
    ensures PercentDecoded(value, |value|, decoded, changed) ==> decoded == DecodePercent(value)
    ensures PercentDecoded(value, |value|, decoded, false) ==> decoded == value
    ensures PercentDecoded(value, |value|, decoded, true) ==> |decoded| < |value|
  {
    assert value[0..] == value;
  }

  method DecodePercentEscapes(value: seq<Byte>) returns (decoded: seq<Byte>, changed: bool)
    ensures decoded == DecodePercent(value)
    ensures changed <==> |decoded| < |value|
    ensures !changed ==> decoded == value
  {
    hide DecodePercent, PercentEscape, PercentNibble, PercentDecoded;
    decoded := [];
    changed := false;
    PercentDecodedAtEnds(value, decoded, changed);
    var index := 0;
    while index < |value|
      invariant 0 <= index <= |value|
      invariant PercentDecoded(value, index, decoded, changed)
    {
      DecodePercentStep(value, index);
      if value[index] != PERCENT || index + 2 >= |value| {
        PercentDecodedGrows(value, index, decoded, changed, value[index], 1);
        decoded := decoded + [value[index]];
      } else {
        var high, low := PercentNibble(value[index + 1]), PercentNibble(value[index + 2]);
        if high.None? || low.None? {
          PercentDecodedGrows(value, index, decoded, changed, value[index], 1);
          decoded := decoded + [value[index]];
        } else {
          var b := (high.value * 16 + low.value) as Byte;
          PercentDecodedGrows(value, index, decoded, changed, b, 3);
          decoded := decoded + [b];
          index := index + 2;
          changed := true;
        }
      }
      index := index + 1;
    }
    PercentDecodedAtEnds(value, decoded, changed);
  }
}
