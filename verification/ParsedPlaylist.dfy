/** What the playlist parser makes of each line (internal/client/client_playlist.go:111-177, 227-237), by
    where the line stands. LocalPlaylist has the parser. */
module ParsedPlaylist {
  import opened Ordering
  import opened LocalPlaylist

  // ---------------------------------------------------------------- lines

  predicate IsDiscontinuity(raw: string) { TrimSpace(raw) == "#EXT-X-DISCONTINUITY" }

  predicate IsExtInf(raw: string) { HasPrefix(TrimSpace(raw), "#EXTINF:") }

  /** The URI that a key line names. */
  function KeyOf(raw: string): Option<string> {
    if HasPrefix(TrimSpace(raw), "#EXT-X-KEY") then KeyUri(TrimSpace(raw)) else None
  }

  /** A line is at most one of these. */
  lemma LinesDiffer(raw: string)
    ensures HasPrefix(TrimSpace(raw), "#EXT-X-KEY") ==>
              !IsExtInf(raw) && !IsDiscontinuity(raw) && !IsReference(raw) && TrimSpace(raw) != ""
    ensures IsExtInf(raw) ==> !IsDiscontinuity(raw) && !IsReference(raw) && TrimSpace(raw) != ""
    ensures IsDiscontinuity(raw) ==> !IsReference(raw) && TrimSpace(raw) != ""
  {
    hide TrimSpace, KeyUri;
    var line := TrimSpace(raw);
    HashIsFirst(line);
    if HasPrefix(line, "#EXT-X-KEY") || line == "#EXT-X-DISCONTINUITY" {
      PrefixDiffers(line, "#EXTINF:", 4);
    }
    if HasPrefix(line, "#EXT-X-KEY") {
      assert line[..10][7] == line[7];
    }
  }

  /** What a line that does not end the parse does to views, references and durations. */
  lemma LineDoes(r: Reader, s: Scan, raw: string)
    requires ScanLine(r, s, raw).Ok?
    ensures var t := ScanLine(r, s, raw).value;
            && (t.firstView <==> s.firstView && !IsDiscontinuity(raw))
            && (if IsReference(raw) then
                  r.resolve(TrimSpace(raw)).Some? && t == Segment(s, r.resolve(TrimSpace(raw)).value)
                else
                  && t.playlist == s.playlist.(keyUrl := t.playlist.keyUrl) && t.count == s.count
                  && t.pending == if IsExtInf(raw) then ExtInfDuration(r, TrimSpace(raw)) else s.pending)
  {
    hide KeyUri, ExtInfDuration, TrimSpace;
    LinesDiffer(raw);
  }

  // ---------------------------------------------------------------- views and durations

  /** `d` is the first discontinuity, or the end. */
  ghost predicate Splits(lines: seq<string>, d: nat) {
    && d <= |lines| && (forall i :: 0 <= i < d ==> !IsDiscontinuity(lines[i]))
    && (d < |lines| ==> IsDiscontinuity(lines[d]))
  }

  /** The duration announced for the next reference: by the last tag since the last reference, if any. */
  ghost function Announced(r: Reader, lines: seq<string>): real {
    if lines == [] || IsReference(lines[|lines| - 1]) then 0.0
    else if IsExtInf(lines[|lines| - 1]) then ExtInfDuration(r, TrimSpace(lines[|lines| - 1]))
    else Announced(r, lines[..|lines| - 1])
  }

  /** The durations of the references, in order. */
  ghost function Durations(r: Reader, lines: seq<string>): seq<real> {
    if lines == [] then []
    else
      var before := lines[..|lines| - 1];
      Durations(r, before) + (if IsReference(lines[|lines| - 1]) then [Announced(r, before)] else [])
  }

  /** The second view begins at the first discontinuity. */
  lemma {:induction false} ParsedViews(r: Reader, lines: seq<string>, d: nat)
    requires ScanLines(r, lines).Ok? && Splits(lines, d)
    ensures var s := ScanLines(r, lines).value;
            && (s.firstView <==> d == |lines|)
            && Resolved(References(r, lines[..d]), s.playlist.firstUrls)
    decreases |lines|
  {
    hide ScanLine, TrimSpace, IsReference, IsDiscontinuity;
    if lines != [] {
      var n := |lines| - 1;
      if d == |lines| {
        ParsedViews(r, lines[..n], n);
        assert lines[..n][..n] == lines[..n] && lines[..d] == lines;
      } else {
        ParsedViews(r, lines[..n], d);
        assert lines[..n][..d] == lines[..d];
        assert d < n ==> IsDiscontinuity(lines[..n][d]);
        DiscontinuityIsNoReference(lines[d]);
      }
      LineDoes(r, ScanLines(r, lines[..n]).value, lines[n]);
    }
  }

  lemma DiscontinuityIsNoReference(raw: string)
    ensures IsDiscontinuity(raw) ==> !IsReference(raw)
  {
    hide TrimSpace;
    LinesDiffer(raw);
  }

  /** Every reference goes with the duration announced for it. */
  lemma {:induction false} ParsedDurations(r: Reader, lines: seq<string>)
    requires ScanLines(r, lines).Ok?
    ensures var s := ScanLines(r, lines).value;
            && s.pending == Announced(r, lines)
            && s.playlist.firstDurations + s.playlist.secondDurations == Durations(r, lines)
            && (s.firstView ==> s.playlist.secondDurations == [])
    decreases |lines|
  {
    hide ScanLine, ExtInfDuration, TrimSpace, IsReference, IsExtInf;
    if lines != [] {
      var init, last := lines[..|lines| - 1], lines[|lines| - 1];
      ParsedDurations(r, init);
      var before := ScanLines(r, init).value;
      LineDoes(r, before, last);
      var first, second, next := before.playlist.firstDurations, before.playlist.secondDurations, [before.pending];
      if before.firstView {
        assert first + second == first && (first + next) + second == first + next;
      } else {
        assert first + (second + next) == (first + second) + next;
      }
    }
  }

  // ---------------------------------------------------------------- the key

  /** A key line whose URI resolves to `url`. */
  predicate NamesKey(r: Reader, raw: string, url: string) {
    KeyOf(raw).Some? && r.resolve(KeyOf(raw).value) == Some(url)
  }

  /** No key line, or one whose URI resolves to nothing. */
  predicate NamesNoKey(r: Reader, raw: string) { KeyOf(raw).None? || NamesKey(r, raw, "") }

  /** The key is that of the first key line with one. */
  ghost predicate KeyIs(r: Reader, lines: seq<string>, key: string) {
    if key == "" then forall i :: 0 <= i < |lines| ==> NamesNoKey(r, lines[i])
    else exists i :: 0 <= i < |lines| && NamesKey(r, lines[i], key)
             && forall j :: 0 <= j < i ==> NamesNoKey(r, lines[j])
  }

  lemma {:induction false} ParsedKey(r: Reader, lines: seq<string>)
    requires ScanLines(r, lines).Ok?
    ensures KeyIs(r, lines, ScanLines(r, lines).value.playlist.keyUrl)
    decreases |lines|
  {
    hide KeyUri, ExtInfDuration, TrimSpace;
    if lines != [] {
      var n := |lines| - 1;
      ParsedKey(r, lines[..n]);
      LinesDiffer(lines[n]);
      var before, after := ScanLines(r, lines[..n]).value.playlist.keyUrl, ScanLines(r, lines).value.playlist.keyUrl;
      assert forall j :: 0 <= j < n ==> lines[..n][j] == lines[j];
      if before != "" {
        var i :| 0 <= i < n && NamesKey(r, lines[i], before) && forall j :: 0 <= j < i ==> NamesNoKey(r, lines[j]);
        assert after == before;
      } else if after != "" {
        assert NamesKey(r, lines[n], after);
      }
    }
  }

  /** A parsed playlist: the media references in order, in two views that the first discontinuity separates,
      each with the duration announced for it, and the key of the first key line with one. */
  lemma ParsedPlaylistIs(r: Reader, lines: seq<string>, d: nat)
    requires Parse(r, lines).Ok? && Splits(lines, d)
    ensures var p := Parse(r, lines).value;
            && Resolved(References(r, lines[..d]), p.firstUrls)
            && Resolved(References(r, lines), p.firstUrls + p.secondUrls)
            && p.firstDurations + p.secondDurations == Durations(r, lines)
            && |p.firstDurations| == |p.firstUrls| && |p.secondDurations| == |p.secondUrls|
            && (p.multipleViews <==> d < |lines|)
            && KeyIs(r, lines, p.keyUrl)
  {
    hide ScanLines, Durations, References, Resolved, KeyIs;
    ParsedViews(r, lines, d);
    ParsedDurations(r, lines);
    ParsedListsEveryReference(r, lines);
    ParsedKey(r, lines);
  }

  // ---------------------------------------------------------------- errors

  /** Why a line ends the parse, after lines that did not. */
  lemma ParseFailsAt(r: Reader, lines: seq<string>, i: nat)
    requires i < |lines| && ScanLines(r, lines[..i]).Ok?
    ensures var before, next, raw := lines[..i], ScanLines(r, lines[..i + 1]), lines[i];
            var references := |References(r, before)|;
            && (next == Err(TooManySegments) <==> IsReference(raw) && references >= 50000)
            && (next == Err(InvalidSegment) <==>
                  IsReference(raw) && references < 50000 && r.resolve(TrimSpace(raw)).None?)
            && (next == Err(InvalidKey) <==>
                  && (forall j :: 0 <= j < i ==> NamesNoKey(r, lines[j]))
                  && KeyOf(raw).Some? && r.resolve(KeyOf(raw).value).None?)
            && (next.Err? ==> ScanLines(r, lines) == next)
  {
    hide KeyUri, ExtInfDuration, TrimSpace, ScanLines;
    ScanOneMore(r, lines, i);
    ParsedListsEveryReference(r, lines[..i]);
    ParsedKey(r, lines[..i]);
    LinesDiffer(lines[i]);
    if ScanLines(r, lines[..i + 1]).Err? {
      ErrorsStay(r, lines, i + 1);
    }
    assert forall j :: 0 <= j < i ==> lines[..i][j] == lines[j];
  }

  // ---------------------------------------------------------------- inside a line

  /** A match of URI="([^"]+)" at one position. */
  predicate UriAt(line: string, i: nat, uri: string) {
    && uri != "" && '\"' !in uri && i + 6 + |uri| <= |line|
    && line[i..i + 5] == "URI=\"" && line[i + 5..i + 5 + |uri|] == uri && line[i + 5 + |uri|] == '\"'
  }

  /** The URI of a key line is the first match. */
  lemma {:induction false} KeyUriIsFirstMatch(line: string, i: nat, uri: string)
    requires UriAt(line, i, uri) && forall j: nat, other :: j < i ==> !UriAt(line, j, other)
    ensures KeyUri(line) == Some(uri)
    decreases |line|
  {
    if i == 0 {
      assert line[..5] == "URI=\"";
      var rest := line[5..];
      assert rest[..|uri|] == uri && rest[|uri|] == '\"';
      IndexOfIs(rest, '\"', |uri|);
    } else {
      if HasPrefix(line, "URI=\"") && KeyUriLength(line) > 0 {
        TakenIsMatch(line);
      }
      forall j: nat, other | j < i - 1 ensures !UriAt(line[1..], j, other) {
        UriShifts(line, j, other);
      }
      UriShifts(line, i - 1, uri);
      KeyUriIsFirstMatch(line[1..], i - 1, uri);
    }
  }

  lemma UriShifts(line: string, i: nat, uri: string)
    requires line != ""
    ensures UriAt(line[1..], i, uri) <==> UriAt(line, i + 1, uri)
  {
    var rest := line[1..];
    if i + 6 + |uri| <= |rest| {
      assert rest[i..i + 5] == line[i + 1..i + 6];
      assert rest[i + 5..i + 5 + |uri|] == line[i + 6..i + 6 + |uri|];
    }
  }

  /** What is taken at the front of a line is a match. */
  lemma TakenIsMatch(line: string)
    requires HasPrefix(line, "URI=\"") && KeyUriLength(line) > 0
    ensures UriAt(line, 0, line[5..5 + KeyUriLength(line)])
  {
    var n := KeyUriLength(line);
    var uri := line[5..5 + n];
    assert forall k :: 0 <= k < n ==> uri[k] == line[5..][k];
    assert line[0..5] == line[..5];
  }

  lemma {:induction false} NoMatchNoKeyUri(line: string)
    requires forall i: nat, uri :: !UriAt(line, i, uri)
    ensures KeyUri(line) == None
    decreases |line|
  {
    if line != "" {
      if HasPrefix(line, "URI=\"") && KeyUriLength(line) > 0 {
        TakenIsMatch(line);
      }
      forall i: nat, uri ensures !UriAt(line[1..], i, uri) {
        UriShifts(line, i, uri);
      }
      NoMatchNoKeyUri(line[1..]);
    }
  }

  /** The duration of a tag is the number up to the first comma, and zero when that is none or not positive. */
  lemma ExtInfIs(r: Reader, number: string, title: string)
    requires ',' !in number
    ensures var d, line := r.parseFloat(TrimSpace(number)), "#EXTINF:" + number + "," + title;
            ExtInfDuration(r, line) == if d.Some? && d.value > 0.0 then d.value else 0.0
  {
    hide TrimSpace;
    var line := "#EXTINF:" + number + "," + title;
    assert line[..8] == "#EXTINF:";
    var text := line[8..];
    assert text == number + "," + title;
    assert text[|number|] == ',';
    IndexOfIs(text, ',', |number|);
    assert text[..|number|] == number;
  }
}
