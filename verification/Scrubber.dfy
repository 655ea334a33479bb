/** Cutting recognized credentials out of a text (internal/secrets/secrets.go:876-951, 1502-1560,
    1636-1667).

    `Redacted` is the reference: byte by byte, without sorting or merging anything, so it cannot
    depend on the order of the ranges. What a credential looks like is a parameter, `find`; the
    last part proves that whatever it recognizes in any number of decoded layers is cut out. */
module Scrubber {
  import opened Ordering
  import opened Escapes
  import opened EncodedView

  // "REDACTED" in ASCII
  const REDACTED: seq<Byte> := [82, 69, 68, 65, 67, 84, 69, 68]

  const MAX_SCRUB_INPUT_SIZE := 65536
  const MAX_CREDENTIAL_DECODE_DEPTH := 3

  // ---------------------------------------------------------------- the reference

  ghost predicate InBounds(ranges: set<Span>, n: nat) {
    forall r :: r in ranges ==> 0 <= r.start < r.end <= n
  }

  ghost predicate Covered(ranges: set<Span>, i: int) {
    exists r :: r in ranges && r.start <= i < r.end
  }

  /** A marker stands before byte `i`: a range starts there, and no other reaches across. */
  ghost predicate Marked(ranges: set<Span>, i: int) {
    && (exists r :: r in ranges && r.start == i)
    && (forall r :: r in ranges ==> !(r.start < i < r.end))
  }

  /** What the first `i` bytes of `value` become. */
  ghost function Redacted(value: seq<Byte>, ranges: set<Span>, marker: seq<Byte>, i: nat): seq<Byte>
    requires i <= |value|
  {
    if i == 0 then []
    else
      Redacted(value, ranges, marker, i - 1)
      + (if Marked(ranges, i - 1) then marker else [])
      + (if Covered(ranges, i - 1) then [] else [value[i - 1]])
  }

  /** Every run of covered bytes begins with a marker. */
  lemma EveryRunIsMarked(ranges: set<Span>, i: nat)
    requires Covered(ranges, i) && !Covered(ranges, i - 1)
    ensures Marked(ranges, i)
  {
    assert forall q :: q in ranges && q.start < i < q.end ==> q.start <= i - 1 < q.end;
    assert forall q :: q in ranges && q.start <= i < q.end ==> q.start == i || q.start <= i - 1 < q.end;
  }

  lemma {:induction false} PlainStretch(value: seq<Byte>, ranges: set<Span>, marker: seq<Byte>, i: nat, j: nat)
    requires i <= j <= |value|
    requires forall k :: i <= k < j ==> !Covered(ranges, k) && !Marked(ranges, k)
    ensures Redacted(value, ranges, marker, j) == Redacted(value, ranges, marker, i) + value[i..j]
  {
    hide Covered, Marked;
    if i < j {
      PlainStretch(value, ranges, marker, i, j - 1);
      assert value[i..j] == value[i..j - 1] + [value[j - 1]];
    }
  }

  lemma {:induction false} CoveredStretch(value: seq<Byte>, ranges: set<Span>, marker: seq<Byte>, i: nat, j: nat)
    requires i <= j <= |value|
    requires forall k :: i <= k < j ==> Covered(ranges, k) && !Marked(ranges, k)
    ensures Redacted(value, ranges, marker, j) == Redacted(value, ranges, marker, i)
  {
    hide Covered, Marked;
    if i < j {
      CoveredStretch(value, ranges, marker, i, j - 1);
    }
  }

  /** A range that begins where the earlier ones have all ended: the bytes up to it are kept, and
      it becomes one marker. */
  lemma NextRun(value: seq<Byte>, ranges: set<Span>, marker: seq<Byte>, last: nat, next: Span)
    requires InBounds(ranges, |value|) && next in ranges && last <= next.start
    requires forall r :: r in ranges && r.start < next.start ==> r.end <= last
    ensures Redacted(value, ranges, marker, next.end)
         == Redacted(value, ranges, marker, last) + value[last..next.start] + marker
  {
    forall k | last <= k < next.start
      ensures !Covered(ranges, k) && !Marked(ranges, k)
    {
    }
    PlainStretch(value, ranges, marker, last, next.start);
    assert Marked(ranges, next.start) && Covered(ranges, next.start);
    forall k | next.start < k < next.end
      ensures Covered(ranges, k) && !Marked(ranges, k)
    {
    }
    CoveredStretch(value, ranges, marker, next.start + 1, next.end);
  }

  /** A range that begins before the earlier ones have all ended adds nothing but its tail. */
  lemma SameRun(value: seq<Byte>, ranges: set<Span>, marker: seq<Byte>, last: nat, next: Span)
    requires InBounds(ranges, |value|) && next in ranges && next.start < last <= next.end
    ensures Redacted(value, ranges, marker, next.end) == Redacted(value, ranges, marker, last)
  {
    forall k | last <= k < next.end
      ensures Covered(ranges, k) && !Marked(ranges, k)
    {
    }
    CoveredStretch(value, ranges, marker, last, next.end);
  }

  lemma LastStretch(value: seq<Byte>, ranges: set<Span>, marker: seq<Byte>, last: nat)
    requires InBounds(ranges, |value|) && last <= |value|
    requires forall r :: r in ranges ==> r.end <= last
    ensures Redacted(value, ranges, marker, |value|) == Redacted(value, ranges, marker, last) + value[last..]
  {
    PlainStretch(value, ranges, marker, last, |value|);
  }

  // ---------------------------------------------------------------- overlapping ranges

  ghost function Members(ranges: seq<Span>): set<Span> { set r | r in ranges }

  predicate StartsBefore(a: Span, b: Span) {
    a.start < b.start || (a.start == b.start && a.end > b.end)
  }

  /** replaceRawCredentialRanges: sort, then one pass that merges what overlaps. The ranges are
      the ones the caller kept: inside the text and not empty. */
  method ReplaceRawCredentialRanges(value: seq<Byte>, rawRanges: seq<Span>) returns (scrubbed: seq<Byte>)
    requires InBounds(Members(rawRanges), |value|)
    ensures scrubbed == Redacted(value, Members(rawRanges), REDACTED, |value|)
  {
    hide Redacted, Sort, Covered, Marked;
    ghost var ranges := Members(rawRanges);
    if |rawRanges| == 0 {
      assert Redacted(value, ranges, REDACTED, 0) == [] by { NothingYet(value, ranges, REDACTED); }
      LastStretch(value, ranges, REDACTED, 0);
      return value;
    }
    var sorted := Sort(rawRanges, StartsBefore);
    SortSorts(rawRanges, StartsBefore);
    SortKeepsMembers(rawRanges);
    NothingYet(value, ranges, REDACTED);
    scrubbed := [];
    var last := 0;
    var changed := false;
    var i := 0;
    while i < |sorted|
      invariant 0 <= i <= |sorted|
      invariant 0 <= last <= |value|
      invariant changed <==> i > 0
      invariant !changed ==> last == 0
      invariant forall j :: 0 <= j < i ==> sorted[j].end <= last
      invariant scrubbed == Redacted(value, ranges, REDACTED, last)
    {
      var candidate := sorted[i];
      assert candidate in sorted && candidate in ranges;
      if candidate.start < last {
        if last <= candidate.end {
          SameRun(value, ranges, REDACTED, last, candidate);
        }
        last := if last < candidate.end then candidate.end else last;
      } else {
        EarlierStartsAreEarlier(sorted, i);
        NextRun(value, ranges, REDACTED, last, candidate);
        scrubbed := scrubbed + value[last..candidate.start];
        scrubbed := scrubbed + REDACTED;
        last := candidate.end;
        changed := true;
      }
      i := i + 1;
    }
    LastStretch(value, ranges, REDACTED, last);
    if !changed {
      return value;
    }
    scrubbed := scrubbed + value[last..];
  }

  lemma NothingYet(value: seq<Byte>, ranges: set<Span>, marker: seq<Byte>)
    ensures Redacted(value, ranges, marker, 0) == []
  {
  }

  lemma SortKeepsMembers(ranges: seq<Span>)
    ensures forall r :: r in Sort(ranges, StartsBefore) <==> r in Members(ranges)
  {
    var sorted := Sort(ranges, StartsBefore);
    assert forall r :: r in sorted <==> r in multiset(sorted);
    assert forall r :: r in ranges <==> r in multiset(ranges);
  }

  lemma EarlierStartsAreEarlier(sorted: seq<Span>, i: nat)
    requires SortedBy(sorted, StartsBefore) && i < |sorted|
    ensures forall r :: r in sorted && r.start < sorted[i].start ==> r in sorted[..i]
  {
    forall r | r in sorted && r.start < sorted[i].start
      ensures r in sorted[..i]
    {
      var j :| 0 <= j < |sorted| && sorted[j] == r;
      assert j < i;
      assert sorted[..i][j] == r;
    }
  }

  // ---------------------------------------------------------------- matches in a decoded view

  datatype Match = Match(start: int, end: int)

  datatype Scan = Scan(accepted: seq<Span>, lastRaw: nat, lastDecodedEnd: int)

  /** A range of the raw text that begins at or after `last`. */
  predicate Fresh(r: Span, last: int, n: nat) {
    last <= r.start < r.end <= n && 0 <= r.start
  }

  /** One turn of replaceEncodedViewRanges: a match is taken unless it, or the raw range under it,
      begins inside what was taken before. */
  function Consider(n: nat, v: View, s: Scan, m: Match): Scan {
    var r := RawRange(v, m.start, m.end);
    if m.start < s.lastDecodedEnd || m.start < 0 || m.end > |v.spans| then s
    else if r.None? || !Fresh(r.value, s.lastRaw, n) then s
    else Scan(s.accepted + [r.value], r.value.end, m.end)
  }

  function Considered(n: nat, v: View, matches: seq<Match>): Scan {
    if matches == [] then Scan([], 0, 0)
    else Consider(n, v, Considered(n, v, matches[..|matches| - 1]), matches[|matches| - 1])
  }

  /** Ranges in order, each beginning no earlier than the one before it ends. */
  ghost predicate Disjoint(ranges: seq<Span>, n: nat) {
    && (forall i :: 0 <= i < |ranges| ==> 0 <= ranges[i].start < ranges[i].end <= n)
    && (forall i, j :: 0 <= i < j < |ranges| ==> ranges[i].end <= ranges[j].start)
  }

  /** What is taken are whole raw ranges of matches, pairwise disjoint and in order. */
  lemma {:induction false} AcceptedArePieces(n: nat, v: View, matches: seq<Match>)
    ensures var s := Considered(n, v, matches);
            && Disjoint(s.accepted, n) && s.lastRaw <= n
            && (forall i :: 0 <= i < |s.accepted| ==> s.accepted[i].end <= s.lastRaw)
            && (forall r :: r in s.accepted ==> exists m :: m in matches && RawRange(v, m.start, m.end) == Some(r))
  {
    if matches != [] {
      var init, m := matches[..|matches| - 1], matches[|matches| - 1];
      AcceptedArePieces(n, v, init);
      var before := Considered(n, v, init);
      var after := Considered(n, v, matches);
      forall r | r in after.accepted
        ensures exists m :: m in matches && RawRange(v, m.start, m.end) == Some(r)
      {
        if r in before.accepted {
          var q :| q in init && RawRange(v, q.start, q.end) == Some(r);
          assert q in matches;
        } else {
          assert m in matches && RawRange(v, m.start, m.end) == Some(r);
        }
      }
    }
  }

  /** replaceEncodedViewRanges: the raw text with each taken range replaced, and nothing else. */
  method ReplaceEncodedViewRanges(value: seq<Byte>, v: View, matches: seq<Match>, replacement: seq<Byte>)
    returns (scrubbed: seq<Byte>)
    ensures scrubbed == Redacted(value, Members(Considered(|value|, v, matches).accepted), replacement, |value|)
  {
    hide Redacted, RawRange, Considered, Disjoint, Members;
    ghost var all := Considered(|value|, v, matches);
    ghost var ranges := Members(all.accepted);
    AcceptedArePieces(|value|, v, matches);
    NothingYet(value, ranges, replacement);
    NothingConsidered(|value|, v, matches);
    scrubbed := [];
    var lastRaw: nat := 0;
    var changed := false;
    var lastDecodedEnd := 0;
    ghost var taken: seq<Span> := [];
    var i := 0;
    while i < |matches|
      invariant 0 <= i <= |matches|
      invariant Considered(|value|, v, matches[..i]) == Scan(taken, lastRaw, lastDecodedEnd)
      invariant lastRaw <= |value|
      invariant taken <= all.accepted
      invariant forall j :: 0 <= j < |taken| ==> taken[j].end <= lastRaw
      invariant changed <==> taken != []
      invariant !changed ==> lastRaw == 0
      invariant scrubbed == Redacted(value, ranges, replacement, lastRaw)
    {
      var candidate := matches[i];
      ConsiderOneMore(|value|, v, matches, i);
      i := i + 1;
      if candidate.start < lastDecodedEnd || candidate.start < 0 || candidate.end > |v.spans| {
        continue;
      }
      var r := RawRange(v, candidate.start, candidate.end);
      if r.None? || r.value.start < lastRaw || r.value.end <= r.value.start
         || r.value.start < 0 || r.value.end > |value|
      {
        continue;
      }
      taken := taken + [r.value];
      assert all.accepted[|taken| - 1] == r.value;
      TakenNext(value, all.accepted, replacement, |taken| - 1, lastRaw);
      scrubbed := scrubbed + value[lastRaw..r.value.start];
      scrubbed := scrubbed + replacement;
      lastRaw := r.value.end;
      lastDecodedEnd := candidate.end;
      changed := true;
    }
    assert matches[..i] == matches;
    LastTaken(value, taken, replacement, lastRaw);
    if !changed {
      return value;
    }
    scrubbed := scrubbed + value[lastRaw..];
  }

  lemma NothingConsidered(n: nat, v: View, matches: seq<Match>)
    ensures Considered(n, v, matches[..0]) == Scan([], 0, 0)
  {
  }

  lemma ConsiderOneMore(n: nat, v: View, matches: seq<Match>, i: nat)
    requires i < |matches|
    ensures Considered(n, v, matches[..i + 1]) == Consider(n, v, Considered(n, v, matches[..i]), matches[i])
    ensures Considered(n, v, matches[..i + 1]).accepted <= Considered(n, v, matches).accepted
  {
    hide Consider;
    assert matches[..i + 1][..i] == matches[..i];
    ConsideredGrows(n, v, matches, i + 1);
  }

  lemma LastTaken(value: seq<Byte>, accepted: seq<Span>, marker: seq<Byte>, last: nat)
    requires Disjoint(accepted, |value|) && last <= |value|
    requires forall j :: 0 <= j < |accepted| ==> accepted[j].end <= last
    ensures Redacted(value, Members(accepted), marker, |value|)
         == Redacted(value, Members(accepted), marker, last) + value[last..]
  {
    hide Redacted;
    LastStretch(value, Members(accepted), marker, last);
  }

  lemma {:induction false} ConsideredGrows(n: nat, v: View, matches: seq<Match>, i: nat)
    requires i <= |matches|
    ensures Considered(n, v, matches[..i]).accepted <= Considered(n, v, matches).accepted
    decreases |matches|
  {
    hide RawRange;
    if i == |matches| {
      assert matches[..i] == matches;
    } else {
      assert matches[..|matches| - 1][..i] == matches[..i];
      ConsideredGrows(n, v, matches[..|matches| - 1], i);
    }
  }

  lemma TakenNext(value: seq<Byte>, accepted: seq<Span>, marker: seq<Byte>, k: nat, last: nat)
    requires Disjoint(accepted, |value|) && k < |accepted| && last <= accepted[k].start
    requires forall j :: 0 <= j < k ==> accepted[j].end <= last
    ensures Redacted(value, Members(accepted), marker, accepted[k].end)
         == Redacted(value, Members(accepted), marker, last) + value[last..accepted[k].start] + marker
  {
    hide Redacted;
    NextRun(value, Members(accepted), marker, last, accepted[k]);
  }

  /** Matches as replaceEncodedViewMatches sorts them. */
  ghost predicate MatchesSorted(matches: seq<Match>) {
    forall i, j :: 0 <= i < j < |matches| ==> matches[i].start <= matches[j].start
  }

  /** No match is left whole: whatever is found in the decoded text, some of the raw bytes under it
      are replaced, even when the match itself was passed over. */
  lemma {:induction false} EveryMatchIsHit(n: nat, v: View, matches: seq<Match>, i: nat)
    requires Tiles(v, n) && MatchesSorted(matches) && i < |matches|
    requires 0 <= matches[i].start < matches[i].end <= |v.spans|
    ensures var own := RawRange(v, matches[i].start, matches[i].end);
            && own.Some?
            && exists r :: r in Considered(n, v, matches).accepted && r.start <= own.value.start < r.end
    decreases |matches|
  {
    var init, m := matches[..|matches| - 1], matches[|matches| - 1];
    var before, after := Considered(n, v, init), Considered(n, v, matches);
    if i < |matches| - 1 {
      EveryMatchIsHit(n, v, init, i);
      var own := RawRange(v, matches[i].start, matches[i].end);
      var r :| r in before.accepted && r.start <= own.value.start < r.end;
      assert r in after.accepted;
    } else {
      TiledSpansRise(v, n, m.start, m.end - 1);
      var own := RawRange(v, m.start, m.end);
      LastTakenReaches(n, v, init, m);
      if after == before {
        var r := before.accepted[|before.accepted| - 1];
        assert r in after.accepted;
      } else {
        assert own.value in after.accepted;
      }
    }
  }

  lemma {:induction false} LastTakenReaches(n: nat, v: View, matches: seq<Match>, m: Match)
    requires Tiles(v, n) && 0 <= m.start < m.end <= |v.spans|
    requires forall q :: q in matches ==> q.start <= m.start
    ensures var s := Considered(n, v, matches);
            var start := v.spans[m.start].start;
            && (s.accepted == [] ==> s.lastRaw == 0 && s.lastDecodedEnd == 0)
            && (s.accepted != [] ==>
                  var r := s.accepted[|s.accepted| - 1];
                  && r.start <= start
                  && r.end == s.lastRaw
                  && (m.start < s.lastDecodedEnd ==> start < r.end))
    decreases |matches|
  {
    if matches != [] {
      var init, q := matches[..|matches| - 1], matches[|matches| - 1];
      LastTakenReaches(n, v, init, m);
      assert q in matches;
      if Considered(n, v, matches) != Considered(n, v, init) {
        TiledSpansRise(v, n, q.start, m.start);
        if m.start < q.end {
          TiledSpansRise(v, n, m.start, q.end - 1);
        }
      }
    }
  }

  // ---------------------------------------------------------------- every decoded layer

  /** The view after `depth` layers of percent and JSON decoding. */
  ghost function ViewAt(value: seq<Byte>, depth: nat): View {
    Layers(value, seq(depth, _ => true))
  }

  lemma ViewAtNext(value: seq<Byte>, depth: nat)
    ensures ViewAt(value, depth + 1) == DecodeLayer(ViewAt(value, depth), true)
    ensures ViewAt(value, 0) == RawView(value)
  {
    assert seq(depth + 1, _ => true)[..depth] == seq(depth, _ => true);
  }

  /** The raw ranges under what `find` recognizes in a view. */
  ghost function RangesIn(v: View, find: seq<Byte> -> seq<Match>): set<Span> { RangesOf(v, find(v.text)) }

  ghost function RangesOf(v: View, matches: seq<Match>): set<Span> {
    set m | m in matches && RawRange(v, m.start, m.end).Some? :: RawRange(v, m.start, m.end).value
  }

  lemma NoRanges(v: View)
    ensures forall matches :: matches == [] ==> RangesOf(v, matches) == {}
  {
  }

  lemma RangesOfOneMore(v: View, matches: seq<Match>, i: nat)
    requires i < |matches|
    ensures var r := RawRange(v, matches[i].start, matches[i].end);
            RangesOf(v, matches[..i + 1]) == RangesOf(v, matches[..i]) + (if r.Some? then {r.value} else {})
  {
    hide RawRange;
    var before, after := matches[..i], matches[..i + 1];
    assert after == before + [matches[i]];
    forall m | m in before
      ensures m in after
    {
    }
    assert matches[i] in after;
  }

  ghost function RangesUpTo(value: seq<Byte>, find: seq<Byte> -> seq<Match>, depth: nat): set<Span> {
    (if depth == 0 then {} else RangesUpTo(value, find, depth - 1)) + RangesIn(ViewAt(value, depth), find)
  }

  /** Nothing is left to decode after the layers the scrubber looks at. */
  ghost predicate FullyDecoded(value: seq<Byte>) {
    !HasEscape(ViewAt(value, MAX_CREDENTIAL_DECODE_DEPTH).text, true)
  }

  /** Once a layer changes nothing, no later one does. */
  lemma {:induction false} DecodingStops(value: seq<Byte>, d: nat, e: nat)
    requires d <= e && !HasEscape(ViewAt(value, d).text, true)
    ensures ViewAt(value, e).text == ViewAt(value, d).text && ViewAt(value, e).spans == ViewAt(value, d).spans
  {
    hide HasEscape, DecodeText, DecodeSpans;
    if d < e {
      DecodingStops(value, d, e - 1);
      ViewAtNext(value, e - 1);
      var before := ViewAt(value, e - 1);
      ChangedLayerShortens(before.text, before.spans, true);
    }
  }

  lemma {:induction false} RangesStop(value: seq<Byte>, find: seq<Byte> -> seq<Match>, d: nat, e: nat)
    requires d <= e && !HasEscape(ViewAt(value, d).text, true)
    ensures RangesUpTo(value, find, e) == RangesUpTo(value, find, d)
  {
    hide HasEscape, ViewAt;
    if d < e {
      RangesStop(value, find, d, e - 1);
      DecodingStops(value, d, e);
      assert RangesIn(ViewAt(value, e), find) == RangesIn(ViewAt(value, d), find);
    }
  }

  lemma RangesAreInBounds(value: seq<Byte>, find: seq<Byte> -> seq<Match>, depth: nat)
    ensures InBounds(RangesIn(ViewAt(value, depth), find), |value|)
  {
    var v := ViewAt(value, depth);
    forall r | r in RangesIn(v, find)
      ensures 0 <= r.start < r.end <= |value|
    {
      var m :| m in find(v.text) && RawRange(v, m.start, m.end) == Some(r);
      EveryStretchHasARange(value, seq(depth, _ => true), m.start, m.end);
    }
  }

  lemma {:induction false} RangesUpToAreInBounds(value: seq<Byte>, find: seq<Byte> -> seq<Match>, depth: nat)
    ensures InBounds(RangesUpTo(value, find, depth), |value|)
  {
    hide ViewAt, RangesIn;
    RangesAreInBounds(value, find, depth);
    if depth > 0 {
      RangesUpToAreInBounds(value, find, depth - 1);
    }
  }

  /** The ranges of one view, as its loop collects them. */
  method AppendRanges(value: seq<Byte>, view: View, valueRanges: seq<Match>, rawRanges: seq<Span>)
    returns (all: seq<Span>)
    requires Tiles(view, |value|)
    ensures Members(all) == Members(rawRanges) + RangesOf(view, valueRanges)
  {
    hide RawRange, RangesOf, Tiles;
    all := rawRanges;
    assert RangesOf(view, valueRanges[..0]) == {} by { NoRanges(view); }
    var i := 0;
    while i < |valueRanges|
      invariant 0 <= i <= |valueRanges|
      invariant Members(all) == Members(rawRanges) + RangesOf(view, valueRanges[..i])
    {
      var candidate := valueRanges[i];
      RangesOfOneMore(view, valueRanges, i);
      var r := RawRange(view, candidate.start, candidate.end);
      i := i + 1;
      if r.Some? {
        TiledEndsInBounds(view, |value|, candidate.end - 1);
      }
      if r.None? || r.value.start < 0 || r.value.end > |value| || r.value.end <= r.value.start {
        continue;
      }
      ghost var before := Members(all);
      all := all + [r.value];
      assert Members(all) == before + {r.value};
    }
    assert valueRanges[..i] == valueRanges;
  }

  /** scrubEncodedAssignmentsWithEvidence, without the evidence: look for credentials in the text
      and in up to three decoded views of it, and give up on a text that decodes further. */
  method ScrubEncodedAssignments(value: seq<Byte>, find: seq<Byte> -> seq<Match>) returns (scrubbed: seq<Byte>)
    ensures scrubbed ==
            if value == [] then value
            else if |value| > MAX_SCRUB_INPUT_SIZE || !FullyDecoded(value) then REDACTED
            else Redacted(value, RangesUpTo(value, find, MAX_CREDENTIAL_DECODE_DEPTH), REDACTED, |value|)
  {
    hide DecodeText, DecodeSpans, ViewAt, RawRange, Redacted, HasEscape, Tiles;
    if value == [] {
      return value;
    }
    if |value| > MAX_SCRUB_INPUT_SIZE {
      return REDACTED;
    }
    var view := RawEncodedView(value);
    var rawRanges: seq<Span> := [];
    ViewAtNext(value, 0);
    var depth := 0;
    while depth <= MAX_CREDENTIAL_DECODE_DEPTH
      invariant 0 <= depth <= MAX_CREDENTIAL_DECODE_DEPTH
      invariant view == ViewAt(value, if depth == 0 then 0 else depth - 1)
      invariant Members(rawRanges) == if depth == 0 then {} else RangesUpTo(value, find, depth - 1)
      decreases MAX_CREDENTIAL_DECODE_DEPTH - depth
    {
      if depth > 0 {
        ViewTiles(value, depth - 1);
        ViewAtNext(value, depth - 1);
        view := DecodeEncodedViewLayer(view, true);
        if !view.changed {
          RangesStop(value, find, depth - 1, MAX_CREDENTIAL_DECODE_DEPTH);
          DecodingStops(value, depth - 1, MAX_CREDENTIAL_DECODE_DEPTH);
          break;
        }
      }
      ViewTiles(value, depth);
      rawRanges := AppendRanges(value, view, find(view.text), rawRanges);
      if depth == MAX_CREDENTIAL_DECODE_DEPTH {
        var probe := DecodeEncodedViewLayer(view, true);
        if !probe.changed {
          break;
        }
        return REDACTED;
      }
      depth := depth + 1;
    }
    RangesUpToAreInBounds(value, find, MAX_CREDENTIAL_DECODE_DEPTH);
    scrubbed := ReplaceRawCredentialRanges(value, rawRanges);
  }

  lemma ViewTiles(value: seq<Byte>, depth: nat)
    requires value != []
    ensures Tiles(ViewAt(value, depth), |value|) && ViewAt(value, depth).text != []
    ensures |ViewAt(value, depth).spans| == |ViewAt(value, depth).text|
  {
    SpansTileTheRawText(value, seq(depth, _ => true));
  }

  /** When the scrubber does not give up, every raw byte under a credential is cut out, whichever
      decoded view shows it, at whatever depth. */
  lemma EveryLayerIsScrubbed(value: seq<Byte>, find: seq<Byte> -> seq<Match>, depth: nat, m: Match, k: int)
    requires FullyDecoded(value)
    requires m in find(ViewAt(value, depth).text) && 0 <= m.start <= k < m.end <= |ViewAt(value, depth).text|
    ensures var span := ViewAt(value, depth).spans[k];
            forall i :: span.start <= i < span.end ==> Covered(RangesUpTo(value, find, MAX_CREDENTIAL_DECODE_DEPTH), i)
  {
    var v := ViewAt(value, depth);
    EveryStretchHasARange(value, seq(depth, _ => true), m.start, m.end);
    var r := RawRange(v, m.start, m.end).value;
    assert r in RangesIn(v, find);
    if depth <= MAX_CREDENTIAL_DECODE_DEPTH {
      RangesGrow(value, find, depth, MAX_CREDENTIAL_DECODE_DEPTH);
    } else {
      RangesStop(value, find, MAX_CREDENTIAL_DECODE_DEPTH, depth);
    }
    assert r in RangesUpTo(value, find, MAX_CREDENTIAL_DECODE_DEPTH);
  }

  lemma {:induction false} RangesGrow(value: seq<Byte>, find: seq<Byte> -> seq<Match>, d: nat, e: nat)
    requires d <= e
    ensures RangesIn(ViewAt(value, d), find) <= RangesUpTo(value, find, e)
  {
    hide ViewAt, RangesIn;
    if d < e {
      RangesGrow(value, find, d, e - 1);
    }
  }

  /** And nothing else is: a byte is cut out only when it lies under something recognized in one
      of the first three decoded views or in the text itself. */
  lemma {:induction false} OnlyFindingsAreCut(value: seq<Byte>, find: seq<Byte> -> seq<Match>, e: nat, i: int)
    returns (depth: nat, m: Match)
    requires Covered(RangesUpTo(value, find, e), i)
    ensures depth <= e && m in find(ViewAt(value, depth).text)
    ensures var r := RawRange(ViewAt(value, depth), m.start, m.end); r.Some? && r.value.start <= i < r.value.end
  {
    hide ViewAt, RawRange;
    if r :| r in RangesIn(ViewAt(value, e), find) && r.start <= i < r.end {
      depth := e;
      m :| m in find(ViewAt(value, e).text) && RawRange(ViewAt(value, e), m.start, m.end) == Some(r);
    } else {
      depth, m := OnlyFindingsAreCut(value, find, e - 1, i);
    }
  }
}
