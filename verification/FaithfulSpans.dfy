/** The spans of a layered view are right (internal/secrets/secrets.go:825-874): the raw bytes under
    a stretch of spans decode, on their own, to exactly that stretch of the view. */
module FaithfulSpans {
  import opened Ordering
  import opened Escapes
  import opened EncodedView

  /** A position of a view where one span ends and another begins. */
  ghost predicate Cut(spans: seq<Span>, k: nat) {
    k <= |spans| && (k == 0 || k == |spans| || spans[k - 1] != spans[k])
  }

  /** The raw offset of a cut, in a raw text of `n` bytes. */
  function RawOffset(spans: seq<Span>, k: nat, n: nat): int
    requires k <= |spans|
  {
    if k == |spans| then n else spans[k].start
  }

  /** `p` is the cut of a source, between two units, that its decoded view has at `k`. */
  ghost predicate SourceCut(text: seq<Byte>, spans: seq<Span>, percent: bool, k: nat, p: nat)
    requires |text| == |spans| && k <= |DecodeSpans(text, spans, percent)|
  {
    && p <= |text| && Aligned(text, p, percent) && Cut(spans, p)
    && |DecodeText(text[..p], percent)| == k
    && (k == |DecodeText(text, percent)| <==> p == |text|)
    && (p < |text| ==> DecodeSpans(text, spans, percent)[k].start == spans[p].start)
  }

  /** A cut of the decoded view is a cut of its source, between two units. */
  lemma {:induction false} CutComesFromACut(text: seq<Byte>, spans: seq<Span>, percent: bool, k: nat) returns (p: nat)
    requires |text| == |spans| && Joined(text, spans) && Cut(DecodeSpans(text, spans, percent), k)
    ensures SourceCut(text, spans, percent, k, p)
    decreases |text|
  {
    hide HeadUnit, DecodeText, DecodeSpans, HasEscape, Repeat, Joined, SourceCut;
    EmptyLayer(percent);
    if k == 0 {
      p := 0;
      CutAtStart(text, spans, percent);
    } else {
      LayerStep(text, spans, percent);
      var u := HeadUnit(text, percent);
      var w := u.width;
      var rest, restSpans := text[w..], spans[w..];
      CutOfConcat(Repeat(|u.bytes|, Combine(spans[0], spans[w - 1])), DecodeSpans(rest, restSpans, percent), k);
      JoinedSlice(text, spans, w, |text|);
      assert text[w..|text|] == rest && spans[w..|spans|] == restSpans;
      var p' := CutComesFromACut(rest, restSpans, percent, k - |u.bytes|);
      p := w + p';
      CutAfterUnit(text, spans, percent, k - |u.bytes|, p');
    }
  }

  lemma CutAtStart(text: seq<Byte>, spans: seq<Span>, percent: bool)
    requires |text| == |spans|
    ensures SourceCut(text, spans, percent, 0, 0)
  {
    hide HeadUnit, DecodeText, DecodeSpans, HasEscape, Repeat;
    EmptyLayer(percent);
    if text != [] {
      LayerStep(text, spans, percent);
    }
    assert text[..0] == [];
  }

  lemma CutAfterUnit(text: seq<Byte>, spans: seq<Span>, percent: bool, k: nat, p: nat)
    requires |text| == |spans| && Joined(text, spans) && text != []
    requires var u := HeadUnit(text, percent);
             var tail := DecodeSpans(text[u.width..], spans[u.width..], percent);
             && k <= |tail| && SourceCut(text[u.width..], spans[u.width..], percent, k, p)
             && (k == 0 && tail != [] ==> Combine(spans[0], spans[u.width - 1]) != tail[0])
    ensures var u := HeadUnit(text, percent);
            && |u.bytes| + k <= |DecodeSpans(text, spans, percent)|
            && SourceCut(text, spans, percent, |u.bytes| + k, u.width + p)
  {
    hide HeadUnit, DecodeText, DecodeSpans, HasEscape, Repeat, Joined;
    var u := HeadUnit(text, percent);
    EmptyLayer(percent);
    LayerStep(text, spans, percent);
    PrefixStep(text, spans, u.width + p, percent);
    if p == 0 && u.width < |text| {
      SeamIsACut(text, spans, percent);
    }
    CutOfTail(spans, u.width, p);
  }

  /** A cut of `head + tail`, where `head` repeats one span, is a cut of `tail`. */
  lemma CutOfConcat(head: seq<Span>, tail: seq<Span>, k: nat)
    requires head != [] && forall j :: 0 <= j < |head| ==> head[j] == head[0]
    requires 0 < k && Cut(head + tail, k)
    ensures |head| <= k && Cut(tail, k - |head|)
    ensures k == |head| && tail != [] ==> head[0] != tail[0]
  {
    var d := head + tail;
    assert forall j :: 0 < j < |head| ==> d[j - 1] == d[j];
    if |head| < k < |d| {
      assert d[k - 1] == tail[k - 1 - |head|] && d[k] == tail[k - |head|];
    }
  }

  /** Two units whose decoded spans differ are taken from bytes whose spans differ. */
  lemma SeamIsACut(text: seq<Byte>, spans: seq<Span>, percent: bool)
    requires |text| == |spans| && Joined(text, spans) && text != [] && HeadUnit(text, percent).width < |text|
    requires var u := HeadUnit(text, percent);
             Combine(spans[0], spans[u.width - 1]) != DecodeSpans(text[u.width..], spans[u.width..], percent)[0]
    ensures var w := HeadUnit(text, percent).width;
            && spans[w - 1] != spans[w]
            && DecodeSpans(text[w..], spans[w..], percent)[0].start == spans[w].start
  {
    hide HeadUnit, DecodeText, DecodeSpans, HasEscape, Repeat;
    var w := HeadUnit(text, percent).width;
    SeamHolds(text, spans, percent);
    LayerStep(text[w..], spans[w..], percent);
  }

  lemma CutOfTail(spans: seq<Span>, w: nat, k: nat)
    requires 0 < w <= |spans| && Cut(spans[w..], k)
    requires k == 0 && w < |spans| ==> spans[w - 1] != spans[w]
    ensures Cut(spans, w + k)
  {
    if 0 < k < |spans| - w {
      assert spans[w..][k - 1] == spans[w + k - 1] && spans[w..][k] == spans[w + k];
    }
  }

  function Shift(spans: seq<Span>, offset: int): (r: seq<Span>)
    ensures |r| == |spans|
  {
    seq(|spans|, k requires 0 <= k < |spans| => Span(spans[k].start + offset, spans[k].end + offset))
  }

  /** Decoding does not look at where the spans point. */
  lemma {:induction false} DecodeCommutesWithShift(text: seq<Byte>, spans: seq<Span>, offset: int, percent: bool)
    requires |spans| == |text|
    ensures DecodeSpans(text, Shift(spans, offset), percent) == Shift(DecodeSpans(text, spans, percent), offset)
    decreases |text|
  {
    hide HeadUnit, DecodeText, DecodeSpans, HasEscape, Repeat;
    EmptyLayer(percent);
    if text != [] {
      var u := HeadUnit(text, percent);
      LayerStep(text, spans, percent);
      LayerStep(text, Shift(spans, offset), percent);
      DecodeCommutesWithShift(text[u.width..], spans[u.width..], offset, percent);
      assert Shift(spans, offset)[u.width..] == Shift(spans[u.width..], offset);
    }
  }

  /** Cutting the raw text where a cut of the view points cuts the whole decoding there: the view
      is the view of the first part followed by the view of the second. */
  lemma {:induction false} ViewSplitsAtACut(raw: seq<Byte>, layers: seq<bool>, k: nat)
    requires Cut(Layers(raw, layers).spans, k)
    ensures var v := Layers(raw, layers);
            var c := RawOffset(v.spans, k, |raw|);
            && 0 <= c <= |raw|
            && v.text[..k] == Layers(raw[..c], layers).text && v.text[k..] == Layers(raw[c..], layers).text
            && v.spans[..k] == Layers(raw[..c], layers).spans
            && v.spans[k..] == Shift(Layers(raw[c..], layers).spans, c)
    decreases |layers|
  {
    hide DecodeText, DecodeSpans, HasEscape, Joined, Aligned, Shift, RawSpans;
    if layers == [] {
      assert Layers(raw, layers) == RawView(raw);
      RawViewSplits(raw, k);
    } else {
      var init, last := layers[..|layers| - 1], layers[|layers| - 1];
      var v := Layers(raw, init);
      SpansTileTheRawText(raw, init);
      var p := CutComesFromACut(v.text, v.spans, last, k);
      ViewSplitsAtACut(raw, init, p);
      var c := RawOffset(v.spans, p, |raw|);
      var left, right := Layers(raw[..c], init), Layers(raw[c..], init);
      DecodeSplits(v.text, v.spans, p, last);
      DecodeCommutesWithShift(right.text, right.spans, c, last);
      LayerOfParts(v, left, right, c, p, k, last);
    }
  }

  lemma RawViewSplits(raw: seq<Byte>, k: nat)
    requires k <= |raw|
    ensures RawOffset(RawSpans(|raw|), k, |raw|) == k
    ensures RawSpans(|raw|)[..k] == RawSpans(k) && RawSpans(|raw|)[k..] == Shift(RawSpans(|raw| - k), k)
    ensures Layers(raw[..k], []) == RawView(raw[..k]) && Layers(raw[k..], []) == RawView(raw[k..])
  {
    hide RawSpans;
  }

  lemma LayerOfParts(v: View, left: View, right: View, c: int, p: nat, k: nat, percent: bool)
    requires |v.text| == |v.spans| && |left.text| == |left.spans| && |right.text| == |right.spans| && p <= |v.text|
    requires v.text[..p] == left.text && v.text[p..] == right.text
    requires v.spans[..p] == left.spans && v.spans[p..] == Shift(right.spans, c)
    requires DecodeText(v.text, percent) == DecodeText(v.text[..p], percent) + DecodeText(v.text[p..], percent)
    requires DecodeSpans(v.text, v.spans, percent)
          == DecodeSpans(v.text[..p], v.spans[..p], percent) + DecodeSpans(v.text[p..], v.spans[p..], percent)
    requires DecodeSpans(right.text, Shift(right.spans, c), percent)
          == Shift(DecodeSpans(right.text, right.spans, percent), c)
    requires |DecodeText(left.text, percent)| == k
    ensures var w := DecodeLayer(v, percent);
            && w.text[..k] == DecodeLayer(left, percent).text && w.text[k..] == DecodeLayer(right, percent).text
            && w.spans[..k] == DecodeLayer(left, percent).spans
                && w.spans[k..] == Shift(DecodeLayer(right, percent).spans, c)
  {
    hide DecodeText, DecodeSpans, HasEscape;
  }

  /** The raw bytes from one cut of a view to another decode, on their own, to exactly the bytes
      between the cuts: a span names all of the raw text that its decoded bytes came from. */
  lemma SpansAreFaithful(raw: seq<Byte>, layers: seq<bool>, a: nat, b: nat)
    requires a <= b && Cut(Layers(raw, layers).spans, a) && Cut(Layers(raw, layers).spans, b)
    ensures var v := Layers(raw, layers);
            var from, to := RawOffset(v.spans, a, |raw|), RawOffset(v.spans, b, |raw|);
            && 0 <= from <= to <= |raw|
            && Layers(raw[from..to], layers).text == v.text[a..b]
  {
    var v := Layers(raw, layers);
    var to := RawOffset(v.spans, b, |raw|);
    ViewSplitsAtACut(raw, layers, b);
    var head := Layers(raw[..to], layers);
    assert head.spans == v.spans[..b] && head.text == v.text[..b];
    if a < b {
      assert head.spans[a] == v.spans[a];
      assert a > 0 ==> head.spans[a - 1] == v.spans[a - 1];
    }
    assert Cut(head.spans, a);
    ViewSplitsAtACut(raw[..to], layers, a);
    ghost var from := RawOffset(head.spans, a, to);
    assert from == RawOffset(v.spans, a, |raw|);
    assert raw[..to][from..] == raw[from..to];
    assert head.text[a..] == v.text[a..b];
  }
}
