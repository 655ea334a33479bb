/** Layered percent and JSON decoding that maps every decoded byte back to the raw bytes it came
    from (internal/secrets/secrets.go:817-874, 941-951).

    A view is a decoded text with one raw span per byte. However many layers were decoded, the
    spans tile the raw text. */
module EncodedView {
  import opened Ordering
  import opened Escapes

  datatype Span = Span(start: int, end: int)

  datatype View = View(text: seq<Byte>, spans: seq<Span>, changed: bool)

  // ---------------------------------------------------------------- one layer

  function DecodeText(text: seq<Byte>, percent: bool): (decoded: seq<Byte>)
    ensures |decoded| <= |text|
    ensures text != [] ==> decoded != []
  {
    if text == [] then []
    else
      var u := HeadUnit(text, percent);
      u.bytes + DecodeText(text[u.width..], percent)
  }

  function Repeat(n: nat, span: Span): (spans: seq<Span>)
    ensures |spans| == n
    ensures forall k :: 0 <= k < n ==> spans[k] == span
  {
    if n == 0 then [] else Repeat(n - 1, span) + [span]
  }

  function Combine(first: Span, last: Span): Span { Span(first.start, last.end) }

  function DecodeSpans(text: seq<Byte>, spans: seq<Span>, percent: bool): (decoded: seq<Span>)
    requires |spans| == |text|
    ensures |decoded| == |DecodeText(text, percent)|
  {
    if text == [] then []
    else
      var u := HeadUnit(text, percent);
      Repeat(|u.bytes|, Combine(spans[0], spans[u.width - 1])) + DecodeSpans(text[u.width..], spans[u.width..], percent)
  }

  predicate HasEscape(text: seq<Byte>, percent: bool) {
    text != [] &&
    var u := HeadUnit(text, percent);
    u.escaped || HasEscape(text[u.width..], percent)
  }

  function DecodeLayer(v: View, percent: bool): (r: View)
    requires |v.spans| == |v.text|
    ensures |r.spans| == |r.text|
  {
    View(DecodeText(v.text, percent), DecodeSpans(v.text, v.spans, percent), HasEscape(v.text, percent))
  }

  /** The recursive step of a layer, for a text that is not empty. */
  lemma LayerStep(text: seq<Byte>, spans: seq<Span>, percent: bool)
    requires |spans| == |text| && text != []
    ensures var u := HeadUnit(text, percent);
            && DecodeText(text, percent) == u.bytes + DecodeText(text[u.width..], percent)
            && DecodeSpans(text, spans, percent)
               == Repeat(|u.bytes|, Combine(spans[0], spans[u.width - 1]))
                + DecodeSpans(text[u.width..], spans[u.width..], percent)
            && (HasEscape(text, percent) <==> u.escaped || HasEscape(text[u.width..], percent))
  {
    hide HeadUnit, Repeat, DecodeText, DecodeSpans, HasEscape;
    TextStep(text, percent);
    SpansStep(text, spans, percent);
    EscapeStep(text, percent);
  }

  lemma TextStep(text: seq<Byte>, percent: bool)
    requires text != []
    ensures var u := HeadUnit(text, percent);
            DecodeText(text, percent) == u.bytes + DecodeText(text[u.width..], percent)
  {
    hide HeadUnit;
  }

  lemma SpansStep(text: seq<Byte>, spans: seq<Span>, percent: bool)
    requires |spans| == |text| && text != []
    ensures var u := HeadUnit(text, percent);
            DecodeSpans(text, spans, percent)
            == Repeat(|u.bytes|, Combine(spans[0], spans[u.width - 1]))
             + DecodeSpans(text[u.width..], spans[u.width..], percent)
  {
    hide HeadUnit, Repeat, DecodeText;
  }

  lemma EscapeStep(text: seq<Byte>, percent: bool)
    requires text != []
    ensures var u := HeadUnit(text, percent);
            HasEscape(text, percent) <==> u.escaped || HasEscape(text[u.width..], percent)
  {
    hide HeadUnit;
  }

  lemma EmptyLayer(percent: bool)
    ensures DecodeText([], percent) == [] && DecodeSpans([], [], percent) == [] && !HasEscape([], percent)
  {
  }

  /** A changed layer is strictly shorter, and an unchanged one is the same view. */
  lemma {:induction false} ChangedLayerShortens(text: seq<Byte>, spans: seq<Span>, percent: bool)
    requires |spans| == |text|
    ensures HasEscape(text, percent) ==> |DecodeText(text, percent)| < |text|
    ensures !HasEscape(text, percent) ==>
              DecodeText(text, percent) == text && DecodeSpans(text, spans, percent) == spans
    decreases |text|
  {
    hide HeadUnit, DecodeText, DecodeSpans, HasEscape, Repeat;
    EmptyLayer(percent);
    if text != [] {
      var u := HeadUnit(text, percent);
      LayerStep(text, spans, percent);
      ChangedLayerShortens(text[u.width..], spans[u.width..], percent);
      if !u.escaped {
        assert text == [text[0]] + text[1..];
        assert spans == [spans[0]] + spans[1..];
        assert Repeat(1, Combine(spans[0], spans[0])) == [spans[0]];
      }
    }
  }

  // Decoding a prefix that ends between two turns of the loop, and then one more turn.

  ghost predicate Aligned(text: seq<Byte>, p: nat, percent: bool)
    decreases |text|
  {
    p == 0 ||
    (text != [] &&
     var u := HeadUnit(text, percent);
     u.width <= p && Aligned(text[u.width..], p - u.width, percent))
  }

  lemma {:induction false} AlignedInBounds(text: seq<Byte>, p: nat, percent: bool)
    requires Aligned(text, p, percent)
    ensures p <= |text|
    decreases |text|
  {
    hide HeadUnit;
    if p > 0 {
      var u := HeadUnit(text, percent);
      AlignedInBounds(text[u.width..], p - u.width, percent);
    }
  }

  /** A turn looks at no byte after the ones it takes, except to find that they are not part of it. */
  lemma HeadUnitIsLocal(text: seq<Byte>, p: nat, percent: bool)
    requires text != [] && HeadUnit(text, percent).width <= p <= |text|
    ensures HeadUnit(text[..p], percent) == HeadUnit(text, percent)
  {
    var cut := text[..p];
    assert forall k :: 0 <= k < p ==> cut[k] == text[k];
    if |text| >= 2 && text[0] == BACKSLASH && text[1] == LOWER_U {
      if p >= 6 {
        assert cut[2..6] == text[2..6];
      }
      if p >= 12 {
        assert cut[8..12] == text[8..12];
      }
    }
  }

  /** A layer decodes the part before an aligned position and the part after it separately. */
  lemma {:induction false} DecodeSplits(text: seq<Byte>, spans: seq<Span>, p: nat, percent: bool)
    requires |spans| == |text| && Aligned(text, p, percent) && p <= |text|
    ensures DecodeText(text, percent) == DecodeText(text[..p], percent) + DecodeText(text[p..], percent)
    ensures DecodeSpans(text, spans, percent)
         == DecodeSpans(text[..p], spans[..p], percent) + DecodeSpans(text[p..], spans[p..], percent)
    decreases |text|
  {
    hide HeadUnit, DecodeText, DecodeSpans, HasEscape, Repeat;
    EmptyLayer(percent);
    if p == 0 {
      assert text[p..] == text && spans[p..] == spans;
      assert text[..p] == [] && spans[..p] == [];
    } else {
      var u := HeadUnit(text, percent);
      var w := u.width;
      var rest, restSpans := text[w..], spans[w..];
      DecodeSplits(rest, restSpans, p - w, percent);
      LayerStep(text, spans, percent);
      PrefixStep(text, spans, p, percent);
      assert rest[p - w..] == text[p..] && restSpans[p - w..] == spans[p..];
      Associates(u.bytes, DecodeText(rest[..p - w], percent), DecodeText(text[p..], percent));
      Associates(Repeat(|u.bytes|, Combine(spans[0], spans[w - 1])),
                 DecodeSpans(rest[..p - w], restSpans[..p - w], percent), DecodeSpans(text[p..], spans[p..], percent));
    }
  }

  lemma Associates<T>(a: seq<T>, b: seq<T>, c: seq<T>)
    ensures a + (b + c) == (a + b) + c
  {
  }

  /** The recursive step of a layer on a prefix that its first unit fits in. */
  lemma PrefixStep(text: seq<Byte>, spans: seq<Span>, p: nat, percent: bool)
    requires |spans| == |text| && text != [] && HeadUnit(text, percent).width <= p <= |text|
    ensures var u := HeadUnit(text, percent);
            var rest, restSpans := text[u.width..][..p - u.width], spans[u.width..][..p - u.width];
            && DecodeText(text[..p], percent) == u.bytes + DecodeText(rest, percent)
            && DecodeSpans(text[..p], spans[..p], percent)
               == Repeat(|u.bytes|, Combine(spans[0], spans[u.width - 1])) + DecodeSpans(rest, restSpans, percent)
            && (HasEscape(text[..p], percent) <==> u.escaped || HasEscape(rest, percent))
  {
    hide HeadUnit, DecodeText, DecodeSpans, HasEscape, Repeat;
    var w := HeadUnit(text, percent).width;
    HeadUnitIsLocal(text, p, percent);
    LayerStep(text[..p], spans[..p], percent);
    assert text[w..][..p - w] == text[..p][w..] && spans[w..][..p - w] == spans[..p][w..];
    assert spans[..p][0] == spans[0] && spans[..p][w - 1] == spans[w - 1];
  }

  lemma {:induction false} AlignedExtends(text: seq<Byte>, p: nat, percent: bool)
    requires Aligned(text, p, percent) && p < |text|
    ensures Aligned(text, p + HeadUnit(text[p..], percent).width, percent)
    decreases |text|
  {
    hide HeadUnit;
    if p == 0 {
      assert text[p..] == text;
    } else {
      var u := HeadUnit(text, percent);
      AlignedExtends(text[u.width..], p - u.width, percent);
      assert text[u.width..][p - u.width..] == text[p..];
    }
  }

  lemma {:induction false} PrefixHasEscape(text: seq<Byte>, p: nat, percent: bool)
    requires Aligned(text, p, percent) && p <= |text|
    ensures HasEscape(text, percent) <==> HasEscape(text[..p], percent) || HasEscape(text[p..], percent)
    decreases |text|
  {
    hide HeadUnit, HasEscape;
    if p == 0 {
      EmptyLayer(percent);
      assert text[p..] == text && text[..p] == [];
    } else {
      var w := HeadUnit(text, percent).width;
      PrefixHasEscape(text[w..], p - w, percent);
      EscapeStep(text, percent);
      HeadUnitIsLocal(text, p, percent);
      EscapeStep(text[..p], percent);
      assert text[w..][..p - w] == text[..p][w..];
      DropTwice(text, w, p);
    }
  }

  lemma DropTwice(text: seq<Byte>, w: nat, p: nat)
    requires w <= p <= |text|
    ensures text[w..][p - w..] == text[p..]
  {
  }

  /** The two facts a loop over `text` needs to move from `p` past the next unit. */
  lemma OneMoreUnit(text: seq<Byte>, spans: seq<Span>, p: nat, percent: bool)
    requires |spans| == |text| && p < |text| && Aligned(text, p, percent)
    ensures var u := HeadUnit(text[p..], percent);
            var q := p + u.width;
            && q <= |text| && Aligned(text, q, percent)
            && DecodeText(text[..q], percent) == DecodeText(text[..p], percent) + u.bytes
            && DecodeSpans(text[..q], spans[..q], percent)
               == DecodeSpans(text[..p], spans[..p], percent) + Repeat(|u.bytes|, Combine(spans[p], spans[q - 1]))
            && (HasEscape(text[..q], percent) <==> HasEscape(text[..p], percent) || u.escaped)
  {
    hide HeadUnit, Aligned, DecodeText, DecodeSpans, HasEscape, Repeat;
    var u := HeadUnit(text[p..], percent);
    var q := p + u.width;
    AlignedExtends(text, p, percent);
    AlignedPrefix(text, p, q, percent);
    var cut, marks := text[..q], spans[..q];
    DecodeSplits(cut, marks, p, percent);
    PrefixHasEscape(cut, p, percent);
    assert cut[..p] == text[..p] && marks[..p] == spans[..p];
    assert cut[p..] == text[p..][..u.width] && marks[p..] == spans[p..][..u.width];
    PrefixStep(text[p..], spans[p..], u.width, percent);
    EmptyLayer(percent);
    assert text[p..][u.width..][..0] == [] && spans[p..][u.width..][..0] == [];
  }

  lemma {:induction false} AlignedPrefix(text: seq<Byte>, p: nat, q: nat, percent: bool)
    requires Aligned(text, p, percent) && p <= q <= |text|
    ensures Aligned(text[..q], p, percent)
    decreases |text|
  {
    hide HeadUnit;
    if p > 0 {
      var u := HeadUnit(text, percent);
      HeadUnitIsLocal(text, q, percent);
      AlignedPrefix(text[u.width..], p - u.width, q - u.width, percent);
      assert text[u.width..][..q - u.width] == text[..q][u.width..];
    }
  }

  /** `v` is the view of the first `index` bytes of `source`, where a unit ends. */
  ghost predicate Decoded(source: View, index: nat, percent: bool, v: View)
    requires |source.spans| == |source.text|
  {
    && index <= |source.text|
    && Aligned(source.text, index, percent)
    && v == DecodeLayer(View(source.text[..index], source.spans[..index], false), percent)
  }

  lemma DecodedGrows(source: View, p: nat, percent: bool, v: View)
    requires |source.spans| == |source.text| && p < |source.text| && Decoded(source, p, percent, v)
    ensures var u := HeadUnit(source.text[p..], percent);
            var q := p + u.width;
            && q <= |source.text|
            && (var spans := v.spans + Repeat(|u.bytes|, Combine(source.spans[p], source.spans[q - 1]));
                Decoded(source, q, percent, View(v.text + u.bytes, spans, v.changed || u.escaped)))
  {
    hide HeadUnit, Aligned, DecodeText, DecodeSpans, HasEscape, Repeat;
    OneMoreUnit(source.text, source.spans, p, percent);
  }

  lemma DecodedAtEnds(source: View, percent: bool, v: View)
    requires |source.spans| == |source.text|
    ensures Decoded(source, 0, percent, View([], [], false))
    ensures Decoded(source, |source.text|, percent, v) ==> v == DecodeLayer(source, percent)
    ensures !DecodeLayer(source, percent).changed ==>
              DecodeLayer(source, percent) == View(source.text, source.spans, false)
  {
    assert source.text[..|source.text|] == source.text && source.spans[..|source.text|] == source.spans;
    ChangedLayerShortens(source.text, source.spans, percent);
  }

  lemma HeadUnitCases(text: seq<Byte>, percent: bool)
    requires text != []
    ensures HeadUnit(text, percent) ==
            if percent && PercentEscape(text).Some? then Unit([PercentEscape(text).value], 3, true)
            else if JsonEscape(text).Some? then JsonEscape(text).value
            else Unit([text[0]], 1, false)
  {
    hide PercentEscape, JsonEscape;
  }

  lemma RepeatOnce(span: Span)
    ensures Repeat(1, span) == [span]
  {
  }

  /** decodeEncodedViewLayer: one loop over the text, appending bytes and spans. */
  method DecodeEncodedViewLayer(source: View, percent: bool) returns (r: View)
    ensures if source.text == [] || |source.spans| != |source.text| then r == source
            else r == DecodeLayer(source, percent)
  {
    hide DecodeLayer, Decoded, HeadUnit, Repeat, PercentEscape, JsonEscape;
    if source.text == [] || |source.spans| != |source.text| {
      return source;
    }
    DecodedAtEnds(source, percent, View([], [], false));
    var decoded: seq<Byte> := [];
    var spans: seq<Span> := [];
    var changed := false;
    var index := 0;
    while index < |source.text|
      invariant 0 <= index <= |source.text|
      invariant Decoded(source, index, percent, View(decoded, spans, changed))
    {
      DecodedGrows(source, index, percent, View(decoded, spans, changed));
      var rest := source.text[index..];
      HeadUnitCases(rest, percent);
      ghost var unit := HeadUnit(rest, percent);
      ghost var next := index + unit.width;
      ghost var span := Combine(source.spans[index], source.spans[next - 1]);
      ghost var grown := View(decoded + unit.bytes, spans + Repeat(|unit.bytes|, span), changed || unit.escaped);
      RepeatOnce(span);
      if percent && PercentEscape(rest).Some? {
        decoded := decoded + [PercentEscape(rest).value];
        spans := spans + [Combine(source.spans[index], source.spans[index + 2])];
        index := index + 3;
        changed := true;
        assert decoded == grown.text && spans == grown.spans;
      } else {
        var escape := JsonEscape(rest);
        if escape.Some? {
          decoded := decoded + escape.value.bytes;
          var shared := Combine(source.spans[index], source.spans[index + escape.value.width - 1]);
          spans := spans + Repeat(|escape.value.bytes|, shared);
          index := index + escape.value.width;
          changed := true;
          assert decoded == grown.text && spans == grown.spans;
        } else {
          decoded := decoded + [source.text[index]];
          spans := spans + [source.spans[index]];
          index := index + 1;
          assert decoded == grown.text && spans == grown.spans;
        }
      }
      assert View(decoded, spans, changed) == grown && index == next;
    }
    DecodedAtEnds(source, percent, View(decoded, spans, changed));
    if !changed {
      return View(source.text, source.spans, false);
    }
    return View(decoded, spans, true);
  }

  // ---------------------------------------------------------------- any number of layers

  function RawSpans(n: nat): (spans: seq<Span>)
    ensures |spans| == n
    ensures forall k :: 0 <= k < n ==> spans[k] == Span(k, k + 1)
  {
    if n == 0 then [] else RawSpans(n - 1) + [Span(n - 1, n)]
  }

  method RawEncodedView(value: seq<Byte>) returns (v: View)
    ensures v == RawView(value)
  {
    var spans: seq<Span> := [];
    var index := 0;
    while index < |value|
      invariant 0 <= index <= |value|
      invariant spans == RawSpans(index)
    {
      spans := spans + [Span(index, index + 1)];
      index := index + 1;
    }
    return View(value, spans, false);
  }

  function RawView(raw: seq<Byte>): View { View(raw, RawSpans(|raw|), false) }

  /** The view after one layer for every element of `layers`, each saying whether percent
      escapes are decoded beside JSON escapes. */
  function Layers(raw: seq<Byte>, layers: seq<bool>): (v: View)
    ensures |v.spans| == |v.text|
  {
    if layers == [] then RawView(raw)
    else DecodeLayer(Layers(raw, layers[..|layers| - 1]), layers[|layers| - 1])
  }

  /** Every span is non-empty, and two neighbours are adjacent, or the same span shared by
      bytes that are not ASCII. */
  ghost predicate Joined(text: seq<Byte>, spans: seq<Span>) {
    && |text| == |spans|
    && (forall k :: 0 <= k < |spans| ==> spans[k].start < spans[k].end)
    && (forall k :: 0 < k < |spans| ==>
          || spans[k - 1].end == spans[k].start
          || (spans[k - 1] == spans[k] && text[k - 1] >= 128 && text[k] >= 128))
  }

  /** `Joined`, from the first byte of a raw text of `n` bytes to its last. */
  ghost predicate Tiles(v: View, n: nat) {
    && Joined(v.text, v.spans)
    && (v.text == [] <==> n == 0)
    && (v.text != [] ==> v.spans[0].start == 0 && v.spans[|v.spans| - 1].end == n)
  }

  lemma JoinedSlice(text: seq<Byte>, spans: seq<Span>, p: nat, q: nat)
    requires Joined(text, spans) && p <= q <= |text|
    ensures Joined(text[p..q], spans[p..q])
  {
    var t, s := text[p..q], spans[p..q];
    assert forall k :: 0 <= k < q - p ==> t[k] == text[p + k] && s[k] == spans[p + k];
    forall k | 0 < k < q - p
      ensures s[k - 1].end == s[k].start || (s[k - 1] == s[k] && t[k - 1] >= 128 && t[k] >= 128)
    {
      assert s[k] == spans[p + k] && s[k - 1] == spans[p + k - 1];
    }
  }

  /** Bytes that are ASCII own their spans, so spans rise strictly over them. */
  lemma {:induction false} AsciiSpansRise(text: seq<Byte>, spans: seq<Span>, w: nat)
    requires Joined(text, spans) && 1 <= w <= |text|
    requires w == 1 || forall k :: 0 <= k < w ==> text[k] < 128
    ensures spans[0].start < spans[w - 1].end
  {
    if w > 1 {
      AsciiSpansRise(text, spans, w - 1);
      assert spans[w - 2].end == spans[w - 1].start;
    }
  }

  lemma {:induction false} LayerKeepsJoined(text: seq<Byte>, spans: seq<Span>, percent: bool)
    requires Joined(text, spans)
    ensures var d := DecodeSpans(text, spans, percent);
            Joined(DecodeText(text, percent), d)
    decreases |text|
  {
    hide HeadUnit, DecodeText, DecodeSpans, HasEscape, Repeat;
    EmptyLayer(percent);
    if text != [] {
      var u := HeadUnit(text, percent);
      var w := u.width;
      var rest, restSpans := text[w..], spans[w..];
      LayerStep(text, spans, percent);
      JoinedSlice(text, spans, w, |text|);
      assert text[w..|text|] == rest && spans[w..|spans|] == restSpans;
      LayerKeepsJoined(rest, restSpans, percent);
      AsciiSpansRise(text, spans, w);
      var head := Repeat(|u.bytes|, Combine(spans[0], spans[w - 1]));
      if rest != [] {
        SeamHolds(text, spans, percent);
        LayerStep(rest, restSpans, percent);
      }
      GlueJoined(u.bytes, head, DecodeText(rest, percent), DecodeSpans(rest, restSpans, percent));
    }
  }

  lemma {:induction false} LayerKeepsEnds(text: seq<Byte>, spans: seq<Span>, percent: bool)
    requires |text| == |spans| && text != []
    ensures var d := DecodeSpans(text, spans, percent);
            d != [] && d[0].start == spans[0].start && d[|d| - 1].end == spans[|spans| - 1].end
    decreases |text|
  {
    hide HeadUnit, DecodeText, DecodeSpans, HasEscape, Repeat;
    EmptyLayer(percent);
    LayerStep(text, spans, percent);
    var w := HeadUnit(text, percent).width;
    if w < |text| {
      LayerKeepsEnds(text[w..], spans[w..], percent);
    }
  }

  /** Between two units the spans stay adjacent, or shared by two bytes that are not ASCII. */
  lemma SeamHolds(text: seq<Byte>, spans: seq<Span>, percent: bool)
    requires Joined(text, spans) && text != [] && HeadUnit(text, percent).width < |text|
    ensures var u := HeadUnit(text, percent);
            var v := HeadUnit(text[u.width..], percent);
            var left := Combine(spans[0], spans[u.width - 1]);
            var right := Combine(spans[u.width], spans[u.width + v.width - 1]);
            || left.end == right.start
            || (left == right && left == spans[u.width - 1] && right == spans[u.width]
                && !u.escaped && !v.escaped && u.bytes[0] >= 128 && v.bytes[0] >= 128)
  {
    hide HeadUnit;
    var u := HeadUnit(text, percent);
    var w := u.width;
    var v := HeadUnit(text[w..], percent);
    assert text[w..][0] == text[w];
    if spans[w - 1].end != spans[w].start {
      assert spans[w - 1] == spans[w] && text[w - 1] >= 128 && text[w] >= 128;
      assert !u.escaped && !v.escaped;
    }
  }

  lemma GlueJoined(a: seq<Byte>, aSpans: seq<Span>, b: seq<Byte>, bSpans: seq<Span>)
    requires Joined(b, bSpans) && |a| == |aSpans| && a != []
    requires forall k :: 0 <= k < |a| ==> aSpans[k] == aSpans[0]
    requires aSpans[0].start < aSpans[0].end
    requires |a| > 1 ==> forall k :: k in a ==> k >= 128
    requires b != [] ==>
               || aSpans[0].end == bSpans[0].start
               || (aSpans[0] == bSpans[0] && a[|a| - 1] >= 128 && b[0] >= 128)
    ensures Joined(a + b, aSpans + bSpans)
  {
    var t, s := a + b, aSpans + bSpans;
    forall k | 0 < k < |s|
      ensures s[k - 1].end == s[k].start || (s[k - 1] == s[k] && t[k - 1] >= 128 && t[k] >= 128)
    {
      if k < |a| {
        assert t[k - 1] in a && t[k] in a;
      } else if k > |a| {
        assert s[k] == bSpans[k - |a|] && s[k - 1] == bSpans[k - |a| - 1];
      }
    }
  }

  /** However many layers are decoded, the spans tile the raw text with no gap and no overlap. */
  lemma {:induction false} SpansTileTheRawText(raw: seq<Byte>, layers: seq<bool>)
    ensures Tiles(Layers(raw, layers), |raw|)
    decreases |layers|
  {
    hide DecodeText, DecodeSpans, HasEscape;
    if layers == [] {
      assert Layers(raw, layers) == RawView(raw);
    } else {
      var before := Layers(raw, layers[..|layers| - 1]);
      SpansTileTheRawText(raw, layers[..|layers| - 1]);
      LayerKeepsJoined(before.text, before.spans, layers[|layers| - 1]);
      if before.text != [] {
        LayerKeepsEnds(before.text, before.spans, layers[|layers| - 1]);
      }
    }
  }

  /** rawRangeForDecoded: the raw range under decoded bytes [start, end). */
  function RawRange(v: View, start: int, end: int): (r: Option<Span>)
    ensures r.Some? ==> 0 <= start < end <= |v.spans| && 0 <= r.value.start < v.spans[end - 1].end == r.value.end
  {
    if start < 0 || end <= start || end > |v.spans| then None
    else
      var first, last := v.spans[start], v.spans[end - 1];
      if first.start < 0 || last.end <= first.start then None else Some(Span(first.start, last.end))
  }

  lemma {:induction false} TiledSpansRise(v: View, n: nat, i: nat, j: nat)
    requires Tiles(v, n) && i <= j < |v.spans|
    ensures 0 <= v.spans[i].start <= v.spans[j].start
    ensures v.spans[i].end <= v.spans[j].end <= n
    decreases j - i
  {
    TiledStartsInBounds(v, n, i);
    TiledEndsInBounds(v, n, j);
    if i < j {
      TiledSpansRise(v, n, i, j - 1);
    }
  }

  lemma {:induction false} TiledStartsInBounds(v: View, n: nat, i: nat)
    requires Tiles(v, n) && i < |v.spans|
    ensures 0 <= v.spans[i].start
  {
    if i > 0 {
      TiledStartsInBounds(v, n, i - 1);
    }
  }

  lemma {:induction false} TiledEndsInBounds(v: View, n: nat, j: nat)
    requires Tiles(v, n) && j < |v.spans|
    ensures v.spans[j].end <= n
    decreases |v.spans| - j
  {
    if j + 1 < |v.spans| {
      TiledEndsInBounds(v, n, j + 1);
    }
  }

  /** On any number of layers every non-empty stretch of decoded bytes has a raw range, inside
      the raw text, not empty, and holding the span of each byte of the stretch. */
  lemma EveryStretchHasARange(raw: seq<Byte>, layers: seq<bool>, start: nat, end: nat)
    requires start < end <= |Layers(raw, layers).text|
    ensures var v := Layers(raw, layers);
            var r := RawRange(v, start, end);
            && r.Some? && 0 <= r.value.start < r.value.end <= |raw|
            && forall k :: start <= k < end ==> r.value.start <= v.spans[k].start < v.spans[k].end <= r.value.end
  {
    var v := Layers(raw, layers);
    SpansTileTheRawText(raw, layers);
    TiledSpansRise(v, |raw|, start, end - 1);
    forall k | start <= k < end
      ensures v.spans[start].start <= v.spans[k].start < v.spans[k].end <= v.spans[end - 1].end
    {
      TiledSpansRise(v, |raw|, start, k);
      TiledSpansRise(v, |raw|, k, end - 1);
    }
  }
}
