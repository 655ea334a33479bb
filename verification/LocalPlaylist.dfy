/** HLS playlists: the parser, the printer of the local playlist, and the path resolver behind it
    (internal/client/client_playlist.go:111-177, 227-237; internal/downloader/play.go:307-377).

    `Reader` holds what the parser takes from libraries: reading a decimal number and resolving a
    media reference. The round trip asks of them only that they read back what fmt printed and
    leave a loopback URL alone. Durations are reals. */
module LocalPlaylist {
  import opened Ordering
  import opened Decimal

  const MAX_PLAYLIST_SEGMENTS := 50000
  const FALLBACK_DURATION := 11.0

  datatype Reader = Reader(parseFloat: string -> Option<real>, resolve: string -> Option<string>)

  datatype Playlist = Playlist(keyUrl: string, multipleViews: bool,
                               firstUrls: seq<string>, firstDurations: seq<real>,
                               secondUrls: seq<string>, secondDurations: seq<real>)

  datatype ParseError = InvalidKey | InvalidSegment | TooManySegments

  datatype Result<+T, +E> = Ok(value: T) | Err(error: E)

  // ---------------------------------------------------------------- text

  predicate HasPrefix(s: string, prefix: string) { |prefix| <= |s| && s[..|prefix|] == prefix }

  predicate IsSpace(c: char) {
    c in " \t\n\r" || c == '\U{000b}' || c == '\U{000c}' || c == '\U{0085}' || c == '\U{00a0}' || c == '\U{1680}'
    || '\U{2000}' <= c <= '\U{200a}' || c == '\U{2028}' || c == '\U{2029}' || c == '\U{202f}' || c
        == '\U{205f}' || c == '\U{3000}'
  }

  function TrimLeft(s: string): string { if s != "" && IsSpace(s[0]) then TrimLeft(s[1..]) else s }

  function TrimRight(s: string): string {
    if s != "" && IsSpace(s[|s| - 1]) then TrimRight(s[..|s| - 1]) else s
  }

  function TrimSpace(s: string): string { TrimRight(TrimLeft(s)) }

  /** bufio.ScanLines: without the line break, and without a carriage return before it. */
  function Lines(text: string): seq<string> {
    if text == "" then []
    else
      var n := LineLength(text);
      [DropReturn(text[..n])] + (if n < |text| then Lines(text[n + 1..]) else [])
  }

  function LineLength(text: string): (n: nat)
    ensures n <= |text|
    ensures forall k :: 0 <= k < n ==> text[k] != '\n'
    ensures n < |text| ==> text[n] == '\n'
  {
    if text == "" || text[0] == '\n' then 0 else 1 + LineLength(text[1..])
  }

  function DropReturn(line: string): string {
    if line != "" && line[|line| - 1] == '\r' then line[..|line| - 1] else line
  }

  /** The position of the first `c`, or the length. */
  function IndexOf(s: string, c: char): (n: nat)
    ensures n <= |s|
    ensures forall k :: 0 <= k < n ==> s[k] != c
    ensures n < |s| ==> s[n] == c
  {
    if s == "" || s[0] == c then 0 else 1 + IndexOf(s[1..], c)
  }

  function Split(s: string, c: char): (parts: seq<string>)
    ensures parts != []
    decreases |s|
  {
    var n := IndexOf(s, c);
    if n == |s| then [s] else [s[..n]] + Split(s[n + 1..], c)
  }

  // ---------------------------------------------------------------- the parser

  /** The first match of URI="([^"]+)". */
  function KeyUri(line: string): Option<string> {
    if line == "" then None
    else if HasPrefix(line, "URI=\"") && KeyUriLength(line) > 0 then Some(line[5..5 + KeyUriLength(line)])
    else KeyUri(line[1..])
  }

  /** How long the quoted text after URI=" is, when the quote is closed. */
  function KeyUriLength(line: string): (n: nat)
    requires HasPrefix(line, "URI=\"")
    ensures 5 + n <= |line|
  {
    var n := IndexOf(line[5..], '\"');
    if 5 + n < |line| then n else 0
  }

  function ExtInfDuration(r: Reader, line: string): (d: real)
    ensures d >= 0.0
  {
    var text := if HasPrefix(line, "#EXTINF:") then line[8..] else line;
    var d := r.parseFloat(TrimSpace(text[..IndexOf(text, ',')]));
    if d.None? || d.value <= 0.0 then 0.0 else d.value
  }

  /** The parser between two lines. */
  datatype Scan = Scan(playlist: Playlist, firstView: bool, pending: real, count: nat)

  const START := Scan(Playlist("", false, [], [], [], []), true, 0.0, 0)

  function ScanLine(r: Reader, s: Scan, raw: string): Result<Scan, ParseError> {
    var line := TrimSpace(raw);
    if line == "" then Ok(s)
    else if s.playlist.keyUrl == "" && HasPrefix(line, "#EXT-X-KEY") then
      var uri := KeyUri(line);
      if uri.None? then Ok(s)
      else
        var key := r.resolve(uri.value);
        if key.None? then Err(InvalidKey) else Ok(s.(playlist := s.playlist.(keyUrl := key.value)))
    else if HasPrefix(line, "#EXTINF:") then Ok(s.(pending := ExtInfDuration(r, line)))
    else if line == "#EXT-X-DISCONTINUITY" then Ok(s.(firstView := false))
    else if HasPrefix(line, "#") then Ok(s)
    else if s.count >= MAX_PLAYLIST_SEGMENTS then Err(TooManySegments)
    else
      var url := r.resolve(line);
      if url.None? then Err(InvalidSegment) else Ok(Segment(s, url.value))
  }

  function Segment(s: Scan, url: string): Scan {
    var p := s.playlist;
    Scan(if s.firstView then p.(firstUrls := p.firstUrls + [url], firstDurations := p.firstDurations + [s.pending])
         else p.(secondUrls := p.secondUrls + [url], secondDurations := p.secondDurations + [s.pending]),
         s.firstView, 0.0, s.count + 1)
  }

  function ScanLines(r: Reader, lines: seq<string>): Result<Scan, ParseError> {
    if lines == [] then Ok(START)
    else
      var before := ScanLines(r, lines[..|lines| - 1]);
      if before.Err? then before else ScanLine(r, before.value, lines[|lines| - 1])
  }

  function Finish(s: Scan): Playlist { s.playlist.(multipleViews := !s.firstView) }

  function Parse(r: Reader, lines: seq<string>): Result<Playlist, ParseError> {
    var s := ScanLines(r, lines);
    if s.Err? then Err(s.error) else Ok(Finish(s.value))
  }

  method ParsePlaylist(r: Reader, lines: seq<string>) returns (result: Result<Playlist, ParseError>)
    ensures result == Parse(r, lines)
  {
    assert ScanLines(r, lines[..0]) == Ok(START);
    hide ScanLines, KeyUri, ExtInfDuration, TrimSpace, HasPrefix, Parse;
    ParseOf(r, lines);
    var keyUrl := "";
    var isFirstView := true;
    var firstUrls: seq<string>, secondUrls: seq<string> := [], [];
    var firstDurations: seq<real>, secondDurations: seq<real> := [], [];
    var pendingDuration := 0.0;
    var segmentCount := 0;
    var i := 0;
    ghost var s := START;
    while i < |lines|
      invariant 0 <= i <= |lines|
      invariant ScanLines(r, lines[..i]) == Ok(s)
      invariant s == Scan(Playlist(keyUrl, false, firstUrls, firstDurations, secondUrls, secondDurations),
                          isFirstView, pendingDuration, segmentCount)
    {
      ScanOneMore(r, lines, i);
      ghost var next := ScanLine(r, s, lines[i]);
      var line := TrimSpace(lines[i]);
      i := i + 1;
      if next.Err? {
        ErrorsStay(r, lines, i);
      } else {
        s := next.value;
      }
      if line == "" {
        continue;
      }
      if keyUrl == "" && HasPrefix(line, "#EXT-X-KEY") {
        var uri := KeyUri(line);
        if uri.Some? {
          var key := r.resolve(uri.value);
          if key.None? {
            return Err(InvalidKey);
          }
          keyUrl := key.value;
        }
      } else if HasPrefix(line, "#EXTINF:") {
        pendingDuration := ExtInfDuration(r, line);
      } else if line == "#EXT-X-DISCONTINUITY" {
        isFirstView := false;
      } else if !HasPrefix(line, "#") {
        if segmentCount >= MAX_PLAYLIST_SEGMENTS {
          return Err(TooManySegments);
        }
        var url := r.resolve(line);
        if url.None? {
          return Err(InvalidSegment);
        }
        if isFirstView {
          firstUrls, firstDurations := firstUrls + [url.value], firstDurations + [pendingDuration];
        } else {
          secondUrls, secondDurations := secondUrls + [url.value], secondDurations + [pendingDuration];
        }
        pendingDuration := 0.0;
        segmentCount := segmentCount + 1;
      }
    }
    assert lines[..i] == lines;
    return Ok(Playlist(keyUrl, !isFirstView, firstUrls, firstDurations, secondUrls, secondDurations));
  }

  lemma ParseOf(r: Reader, lines: seq<string>)
    ensures ScanLines(r, lines).Err? ==> Parse(r, lines) == Err(ScanLines(r, lines).error)
    ensures ScanLines(r, lines).Ok? ==> Parse(r, lines) == Ok(Finish(ScanLines(r, lines).value))
  {
  }

  lemma ScanOneMore(r: Reader, lines: seq<string>, i: nat)
    requires i < |lines|
    ensures ScanLines(r, lines[..i + 1]) ==
            if ScanLines(r, lines[..i]).Err? then ScanLines(r, lines[..i])
            else ScanLine(r, ScanLines(r, lines[..i]).value, lines[i])
  {
    assert lines[..i + 1][..i] == lines[..i];
  }

  lemma {:induction false} ErrorsStay(r: Reader, lines: seq<string>, i: nat)
    requires i <= |lines| && ScanLines(r, lines[..i]).Err?
    ensures ScanLines(r, lines) == ScanLines(r, lines[..i])
    decreases |lines|
  {
    if i == |lines| {
      assert lines[..i] == lines;
    } else {
      assert lines[..|lines| - 1][..i] == lines[..i];
      ErrorsStay(r, lines[..|lines| - 1], i);
    }
  }

  // ---------------------------------------------------------------- any playlist

  /** What the parser takes for a media reference. */
  predicate IsReference(raw: string) { TrimSpace(raw) != "" && !HasPrefix(TrimSpace(raw), "#") }

  ghost function References(r: Reader, lines: seq<string>): seq<Option<string>> {
    if lines == [] then []
    else References(r, lines[..|lines| - 1])
         + (if IsReference(lines[|lines| - 1]) then [r.resolve(TrimSpace(lines[|lines| - 1]))] else [])
  }

  ghost predicate Resolved(references: seq<Option<string>>, urls: seq<string>) {
    |references| == |urls| && forall i :: 0 <= i < |urls| ==> references[i] == Some(urls[i])
  }

  /** A parsed playlist lists every media reference, resolved, once and in order, first view before
      second, each with a duration; and it stays within the segment limit. */
  lemma {:induction false} ParsedListsEveryReference(r: Reader, lines: seq<string>)
    ensures var s := ScanLines(r, lines);
            s.Ok? ==>
              var p := s.value.playlist;
              && Resolved(References(r, lines), p.firstUrls + p.secondUrls)
              && |p.firstDurations| == |p.firstUrls| && |p.secondDurations| == |p.secondUrls|
              && s.value.count == |p.firstUrls| + |p.secondUrls| <= MAX_PLAYLIST_SEGMENTS
              && (s.value.firstView ==> p.secondUrls == [])
    decreases |lines|
  {
    hide KeyUri, ExtInfDuration, TrimSpace;
    if lines != [] {
      ParsedListsEveryReference(r, lines[..|lines| - 1]);
      var before, after := ScanLines(r, lines[..|lines| - 1]), ScanLines(r, lines);
      if after.Ok? {
        var line := TrimSpace(lines[|lines| - 1]);
        HashIsFirst(line);
        var p, q := before.value.playlist, after.value.playlist;
        if IsReference(lines[|lines| - 1]) {
          assert q.firstUrls + q.secondUrls == (p.firstUrls + p.secondUrls) + [r.resolve(line).value];
        }
      }
    }
  }

  lemma HashIsFirst(line: string)
    ensures HasPrefix(line, "#EXT-X-KEY") || HasPrefix(line, "#EXTINF:") || line == "#EXT-X-DISCONTINUITY" ==>
              HasPrefix(line, "#")
  {
    if |line| > 0 {
      assert "#EXT-X-KEY"[0] == '#' && "#EXTINF:"[0] == '#';
      assert HasPrefix(line, "#") <==> line[0] == '#' by { assert line[..1] == [line[0]]; }
      if HasPrefix(line, "#EXT-X-KEY") {
        assert line[..|"#EXT-X-KEY"|][0] == line[0];
      }
      if HasPrefix(line, "#EXTINF:") {
        assert line[..|"#EXTINF:"|][0] == line[0];
      }
    }
  }

  // ---------------------------------------------------------------- the printer

  /** %.3f keeps thousandths, the nearest one, and the even one when two are equally near. */
  function RoundMs(d: real): (ms: nat)
    requires d >= 0.0
    ensures ms as real - 0.5 <= d * 1000.0 <= ms as real + 0.5
    ensures d * 1000.0 == ms as real - 0.5 || d * 1000.0 == ms as real + 0.5 ==> ms % 2 == 0
  {
    var x := d * 1000.0;
    var low := x.Floor;
    var rest := x - low as real;
    if rest < 0.5 || (rest == 0.5 && low % 2 == 0) then low else low + 1
  }

  function PrintMs(ms: nat): string { Digits(ms / 1000) + ("." + Pad(Digits(ms % 1000), 3)) }

  /** A number of seconds, a point and three digits that together say the thousandths. */
  lemma PrintMsIs(ms: nat, point: nat)
    requires point == |Digits(ms / 1000)|
    ensures var s := PrintMs(ms);
            && |s| == point + 4 && s[point] == '.' && AllDigits(s[..point]) && AllDigits(s[point + 1..])
            && ParseDigits(s[..point]) * 1000 + ParseDigits(s[point + 1..]) == ms
  {
    var seconds, rest := Digits(ms / 1000), Pad(Digits(ms % 1000), 3);
    DigitsRoundTrip(ms / 1000);
    DigitsRoundTrip(ms % 1000);
    PadKeepsValue(Digits(ms % 1000), 3);
    ThreeDigits(ms % 1000);
    var s := PrintMs(ms);
    assert s[..point] == seconds && s[point + 1..] == rest;
  }

  lemma ThreeDigits(n: nat)
    requires n < 1000
    ensures |Pad(Digits(n), 3)| == 3
  {
    assert |Digits(n)| <= 3 by {
      assert n >= 10 ==> |Digits(n / 10)| <= 2;
    }
    var s := Digits(n);
    if |s| == 1 {
      assert Pad("0" + s, 3) == "0" + ("0" + s);
    }
  }

  function SegmentDuration(durations: seq<real>, index: nat): (d: real)
    ensures d > 0.0
  {
    if index < |durations| && durations[index] > 0.0 then durations[index] else FALLBACK_DURATION
  }

  function Ceil(x: real): (n: int)
    ensures n as real - 1.0 < x <= n as real
  {
    if x.Floor as real == x then x.Floor else x.Floor + 1
  }

  function MaxDuration(durations: seq<real>, n: nat): (d: real)
    ensures d >= 0.0 && (n > 0 ==> d > 0.0)
    ensures forall i :: 0 <= i < n ==> SegmentDuration(durations, i) <= d
    ensures n > 0 ==> exists i :: 0 <= i < n && SegmentDuration(durations, i) == d
  {
    if n == 0 then 0.0
    else
      var before := MaxDuration(durations, n - 1);
      var last := SegmentDuration(durations, n - 1);
      if before >= last then before else last
  }

  function Target(durations: seq<real>, n: nat): (t: nat)
    ensures t > 0
  {
    var d := MaxDuration(durations, n);
    Ceil(if d <= 0.0 then FALLBACK_DURATION else d)
  }

  method TargetDuration(durations: seq<real>, segmentCount: nat) returns (t: nat)
    ensures t == Target(durations, segmentCount)
  {
    var maxDuration := 0.0;
    var i := 0;
    while i < segmentCount
      invariant 0 <= i <= segmentCount
      invariant maxDuration == MaxDuration(durations, i)
    {
      var d := SegmentDuration(durations, i);
      maxDuration := if maxDuration >= d then maxDuration else d;
      i := i + 1;
    }
    if maxDuration <= 0.0 {
      maxDuration := FALLBACK_DURATION;
    }
    return Ceil(maxDuration);
  }

  /** Section 4.3.3.1 of RFC 8216: no printed segment duration exceeds the target duration, and the
      target is the least whole number of seconds with that property for the unrounded ones. */
  lemma TargetBoundsSegments(durations: seq<real>, n: nat)
    ensures var t := Target(durations, n);
            && (forall i :: 0 <= i < n ==>
                  SegmentDuration(durations, i) <= t as real && RoundMs(SegmentDuration(durations, i)) <= 1000 * t)
            && (n > 0 ==> exists i :: 0 <= i < n && SegmentDuration(durations, i) > t as real - 1.0)
  {
    var t := Target(durations, n);
    forall i | 0 <= i < n
      ensures SegmentDuration(durations, i) <= t as real && RoundMs(SegmentDuration(durations, i)) <= 1000 * t
    {
      RoundedStaysBelow(SegmentDuration(durations, i), t);
    }
  }

  lemma RoundedStaysBelow(d: real, t: nat)
    requires 0.0 <= d <= t as real
    ensures RoundMs(d) <= 1000 * t
  {
    assert d * 1000.0 <= (1000 * t) as real;
  }

  function Path(token: string, view: string, index: nat): string {
    "/" + (token + ("/" + ("segment" + ("/" + (view + ("/" + Digits(index)))))))
  }

  function LocalUrl(port: nat, token: string, view: string, index: nat): string {
    "http://127.0.0.1:" + Digits(port) + Path(token, view, index)
  }

  function Header(durations: seq<real>, n: nat): seq<string> {
    ["#EXTM3U", "#EXT-X-VERSION:3", "#EXT-X-MEDIA-SEQUENCE:0", "#EXT-X-ALLOW-CACHE:YES",
     "#EXT-X-TARGETDURATION:" + Digits(Target(durations, n)), "#EXT-X-KEY:METHOD=NONE"]
  }

  function ExtInf(durations: seq<real>, index: nat): string {
    "#EXTINF:" + (PrintMs(RoundMs(SegmentDuration(durations, index))) + ",")
  }

  /** The lines of the first `k` segments. */
  function SegmentLines(durations: seq<real>, port: nat, token: string, view: string, k: nat): seq<string> {
    if k == 0 then []
    else
      var lines := [ExtInf(durations, k - 1), LocalUrl(port, token, view, k - 1)];
      SegmentLines(durations, port, token, view, k - 1) + lines
  }

  function LocalLines(view: string, n: nat, durations: seq<real>, port: nat, token: string): seq<string> {
    Header(durations, n) + SegmentLines(durations, port, token, view, n) + ["#EXT-X-ENDLIST"]
  }

  /** The local playlist line by line. */
  lemma LocalLinesAre(view: string, n: nat, durations: seq<real>, port: nat, token: string, i: nat)
    ensures var lines := LocalLines(view, n, durations, port, token);
            && |lines| == 2 * n + 7
            && lines[0] == "#EXTM3U" && lines[1] == "#EXT-X-VERSION:3" && lines[2] == "#EXT-X-MEDIA-SEQUENCE:0"
            && lines[3] == "#EXT-X-ALLOW-CACHE:YES"
            && lines[4] == "#EXT-X-TARGETDURATION:" + Digits(Target(durations, n))
            && lines[5] == "#EXT-X-KEY:METHOD=NONE" && lines[2 * n + 6] == "#EXT-X-ENDLIST"
            && (i < n ==>
                  && lines[2 * i + 6] == "#EXTINF:" + (PrintMs(RoundMs(SegmentDuration(durations, i))) + ",")
                  && lines[2 * i + 7] == "http://127.0.0.1:" + Digits(port) + Path(token, view, i))
  {
    hide Digits, Target, PrintMs, RoundMs, SegmentDuration, Path;
    SegmentLinesAre(durations, port, token, view, n, i);
    var header := Header(durations, n);
    assert |header| == 6;
  }

  lemma {:induction false} SegmentLinesAre(durations: seq<real>, port: nat, token: string, view: string, n: nat, i: nat)
    ensures var lines := SegmentLines(durations, port, token, view, n);
            && |lines| == 2 * n
            && (i < n ==>
                  lines[2 * i] == ExtInf(durations, i) && lines[2 * i + 1] == LocalUrl(port, token, view, i))
  {
    hide ExtInf, LocalUrl;
    if n > 0 {
      SegmentLinesAre(durations, port, token, view, n - 1, i);
    }
  }

  /** Lines, each with its line break. */
  function Join(lines: seq<string>): string {
    if lines == [] then "" else Join(lines[..|lines| - 1]) + (lines[|lines| - 1] + "\n")
  }

  lemma {:induction false} JoinConcat(a: seq<string>, b: seq<string>)
    ensures Join(a + b) == Join(a) + Join(b)
    decreases |b|
  {
    if b == [] {
      assert a + b == a;
    } else {
      JoinConcat(a, b[..|b| - 1]);
      assert (a + b)[..|a + b| - 1] == a + b[..|b| - 1];
    }
  }

  /** One write to the string builder. */
  method WriteLine(text: string, line: string, ghost lines: seq<string>) returns (longer: string)
    requires text == Join(lines)
    ensures longer == Join(lines + [line])
  {
    JoinConcat(lines, [line]);
    assert [line][..0] == [];
    return text + (line + "\n");
  }

  method BuildLocalM3U8(view: string, n: nat, durations: seq<real>, port: nat, token: string) returns (text: string)
    ensures text == Join(LocalLines(view, n, durations, port, token))
  {
    hide Digits, PrintMs, RoundMs, Target, Join, LocalUrl;
    EmptyJoin();
    var target := TargetDuration(durations, n);
    ghost var lines: seq<string> := [];
    text := WriteLine("", "#EXTM3U", lines);
    lines := lines + ["#EXTM3U"];
    text := WriteLine(text, "#EXT-X-VERSION:3", lines);
    lines := lines + ["#EXT-X-VERSION:3"];
    text := WriteLine(text, "#EXT-X-MEDIA-SEQUENCE:0", lines);
    lines := lines + ["#EXT-X-MEDIA-SEQUENCE:0"];
    text := WriteLine(text, "#EXT-X-ALLOW-CACHE:YES", lines);
    lines := lines + ["#EXT-X-ALLOW-CACHE:YES"];
    text := WriteLine(text, "#EXT-X-TARGETDURATION:" + Digits(target), lines);
    lines := lines + ["#EXT-X-TARGETDURATION:" + Digits(target)];
    text := WriteLine(text, "#EXT-X-KEY:METHOD=NONE", lines);
    lines := lines + ["#EXT-X-KEY:METHOD=NONE"];
    assert lines == Header(durations, n);
    text := WriteSegments(text, lines, view, n, durations, port, token);
    text := WriteLine(text, "#EXT-X-ENDLIST", lines + SegmentLines(durations, port, token, view, n));
  }

  lemma EmptyJoin()
    ensures Join([]) == ""
  {
  }

  /** The loop of buildLocalM3U8. */
  method WriteSegments(start: string, ghost lines: seq<string>, view: string, n: nat, durations: seq<real>,
          port: nat, token: string)
    returns (text: string)
    requires start == Join(lines)
    ensures text == Join(lines + SegmentLines(durations, port, token, view, n))
  {
    hide PrintMs, RoundMs, Join, LocalUrl, SegmentDuration;
    text := start;
    assert lines + [] == lines;
    var i := 0;
    while i < n
      invariant 0 <= i <= n
      invariant text == Join(lines + SegmentLines(durations, port, token, view, i))
    {
      ghost var before := lines + SegmentLines(durations, port, token, view, i);
      var tag := "#EXTINF:" + (PrintMs(RoundMs(SegmentDuration(durations, i))) + ",");
      var url := LocalUrl(port, token, view, i);
      text := WriteLine(text, tag, before);
      text := WriteLine(text, url, before + [tag]);
      assert (before + [tag]) + [url] == lines + SegmentLines(durations, port, token, view, i + 1);
      i := i + 1;
    }
  }

  lemma JoinOne(line: string)
    ensures Join([line]) == line + "\n"
  {
    assert [line][..0] == [];
  }

  // ---------------------------------------------------------------- lines survive printing

  predicate OneLine(line: string) {
    '\n' !in line && (line != "" ==> line[|line| - 1] != '\r')
  }

  lemma {:induction false} LinesOfJoin(lines: seq<string>)
    requires forall i :: 0 <= i < |lines| ==> OneLine(lines[i])
    ensures Lines(Join(lines)) == lines
    decreases |lines|
  {
    if lines != [] {
      var first, rest := lines[0], lines[1..];
      assert lines == [first] + rest;
      JoinConcat([first], rest);
      JoinOne(first);
      var text := Join(lines);
      assert text == first + ("\n" + Join(rest));
      LineLengthIs(first, Join(rest));
      assert text[..|first|] == first && text[|first| + 1..] == Join(rest);
      LinesOfJoin(rest);
    }
  }

  /** A carriage return before a line break belongs to the break. */
  lemma ReturnBelongsToBreak(line: string, rest: string)
    requires '\n' !in line
    ensures Lines(line + ("\r" + ("\n" + rest))) == [line] + Lines(rest)
  {
    var text := (line + "\r") + ("\n" + rest);
    assert text == line + ("\r" + ("\n" + rest));
    LineLengthIs(line + "\r", rest);
    assert text[..|line| + 1] == line + "\r" && text[|line| + 2..] == rest;
    if rest == "" {
      assert Lines(rest) == [];
    }
  }

  lemma LineLengthIs(line: string, rest: string)
    requires '\n' !in line
    ensures LineLength(line + ("\n" + rest)) == |line|
  {
    var text := line + ("\n" + rest);
    var n := LineLength(text);
    assert text[|line|] == '\n';
    assert forall k :: 0 <= k < |line| ==> text[k] == line[k] && line[k] in line;
    assert !(n < |line|) && !(|line| < n);
  }

  // ---------------------------------------------------------------- parsing the local playlist

  /** What the round trip needs of strconv.ParseFloat, and of the media reference resolver without a base URL. */
  ghost predicate ReadsBack(r: Reader, port: nat, token: string, view: string) {
    && (forall ms: nat :: r.parseFloat(PrintMs(ms)) == Some(ms as real / 1000.0))
    && (forall i: nat :: r.resolve(LocalUrl(port, token, view, i)) == Some(LocalUrl(port, token, view, i)))
  }

  ghost predicate SafeName(name: string) {
    forall i :: 0 <= i < |name| ==> name[i] != '/' && name[i] != '\n'
  }

  lemma TrimKeeps(line: string)
    requires line != "" && !IsSpace(line[0]) && !IsSpace(line[|line| - 1])
    ensures TrimSpace(line) == line
  {
  }

  lemma PrefixDiffers(s: string, prefix: string, k: nat)
    requires k < |prefix| && (k < |s| ==> s[k] != prefix[k])
    ensures !HasPrefix(s, prefix) && s != prefix
  {
    assert |s| >= |prefix| ==> s[..|prefix|][k] == s[k];
  }

  /** A line that the parser passes over. */
  ghost predicate Ignored(line: string) {
    && TrimSpace(line) == line && HasPrefix(line, "#")
    && !HasPrefix(line, "#EXTINF:") && line != "#EXT-X-DISCONTINUITY"
    && (HasPrefix(line, "#EXT-X-KEY") ==> KeyUri(line).None?)
  }

  lemma IgnoredLine(r: Reader, s: Scan, line: string)
    requires Ignored(line)
    ensures ScanLine(r, s, line) == Ok(s)
  {
    hide TrimSpace, KeyUri, ExtInfDuration;
  }

  lemma OtherTag(line: string)
    requires |line| > 7 && line[0] == '#' && line[4] == '-' && line[7] != 'K' && line[7] != 'D'
    requires !IsSpace(line[|line| - 1])
    ensures Ignored(line)
  {
    TrimKeeps(line);
    hide TrimSpace, KeyUri;
    assert line[..1] == "#";
    PrefixDiffers(line, "#EXT-X-KEY", 7);
    PrefixDiffers(line, "#EXTINF:", 4);
    PrefixDiffers(line, "#EXT-X-DISCONTINUITY", 7);
  }

  lemma FirstLine()
    ensures Ignored("#EXTM3U")
  {
    var line := "#EXTM3U";
    TrimKeeps(line);
    hide TrimSpace, KeyUri;
    assert line[..1] == "#";
    PrefixDiffers(line, "#EXT-X-KEY", 4);
    PrefixDiffers(line, "#EXTINF:", 4);
    PrefixDiffers(line, "#EXT-X-DISCONTINUITY", 4);
  }

  lemma VersionLine()
    ensures Ignored("#EXT-X-VERSION:3")
  {
    hide Ignored;
    OtherTag("#EXT-X-VERSION:3");
  }

  lemma SequenceLine()
    ensures Ignored("#EXT-X-MEDIA-SEQUENCE:0")
  {
    hide Ignored;
    OtherTag("#EXT-X-MEDIA-SEQUENCE:0");
  }

  lemma CacheLine()
    ensures Ignored("#EXT-X-ALLOW-CACHE:YES")
  {
    hide Ignored;
    OtherTag("#EXT-X-ALLOW-CACHE:YES");
  }

  lemma EndLine()
    ensures Ignored("#EXT-X-ENDLIST")
  {
    hide Ignored;
    OtherTag("#EXT-X-ENDLIST");
  }

  lemma {:induction false} NoQuoteNoKey(line: string)
    requires forall i :: 0 <= i < |line| ==> line[i] != '\"'
    ensures KeyUri(line).None?
  {
    if line != "" {
      if |line| > 4 {
        PrefixDiffers(line, "URI=\"", 4);
      }
      NoQuoteNoKey(line[1..]);
    }
  }

  lemma KeyLineHasNoUri()
    ensures KeyUri("#EXT-X-KEY:METHOD=NONE").None?
  {
    hide KeyUri;
    NoQuoteNoKey("#EXT-X-KEY:METHOD=NONE");
  }

  lemma KeyLine()
    ensures Ignored("#EXT-X-KEY:METHOD=NONE")
  {
    var line := "#EXT-X-KEY:METHOD=NONE";
    hide KeyUri;
    KeyLineHasNoUri();
    TrimKeeps(line);
    hide TrimSpace;
    assert line[..1] == "#";
    PrefixDiffers(line, "#EXTINF:", 4);
    PrefixDiffers(line, "#EXT-X-DISCONTINUITY", 7);
  }

  lemma TargetLine(target: nat)
    ensures Ignored("#EXT-X-TARGETDURATION:" + Digits(target))
  {
    hide Digits, Ignored;
    var prefix, digits := "#EXT-X-TARGETDURATION:", Digits(target);
    var line := prefix + digits;
    assert line[|line| - 1] == digits[|digits| - 1] && IsDigit(digits[|digits| - 1]);
    assert line[0] == prefix[0] && line[4] == prefix[4] && line[7] == prefix[7];
    OtherTag(line);
  }

  lemma PrintedIsNumeral(ms: nat)
    ensures var s := PrintMs(ms);
            s != "" && IsDigit(s[0]) && IsDigit(s[|s| - 1]) && forall i :: 0 <= i < |s| ==> IsDigit(s[i]) || s[i] == '.'
  {
    var fraction := Pad(Digits(ms % 1000), 3);
    PadKeepsValue(Digits(ms % 1000), 3);
    hide Pad;
    PadIsNotShorter(Digits(ms % 1000), 3);
    hide Digits;
    assert IsDigit(Digits(ms / 1000)[0]);
  }

  lemma {:induction false} PadIsNotShorter(s: string, w: nat)
    ensures |Pad(s, w)| >= |s|
    decreases w - |s|
  {
    if |s| < w {
      PadIsNotShorter("0" + s, w);
    }
  }

  lemma IndexOfIs(s: string, c: char, n: nat)
    requires n <= |s| && (forall k :: 0 <= k < n ==> s[k] != c) && (n < |s| ==> s[n] == c)
    ensures IndexOf(s, c) == n
  {
    var m := IndexOf(s, c);
    assert !(m < n) && !(n < m);
  }

  lemma ExtInfReads(r: Reader, ms: nat)
    requires r.parseFloat(PrintMs(ms)) == Some(ms as real / 1000.0)
    ensures ExtInfDuration(r, "#EXTINF:" + (PrintMs(ms) + ",")) == ms as real / 1000.0
  {
    var number := PrintMs(ms);
    PrintedIsNumeral(ms);
    hide PrintMs;
    var line := "#EXTINF:" + (number + ",");
    assert line[..8] == "#EXTINF:" && line[8..] == number + ",";
    IndexOfIs(number + ",", ',', |number|);
    assert (number + ",")[..|number|] == number;
    TrimKeeps(number);
    hide TrimSpace, IndexOf;
  }

  lemma ExtInfLine(r: Reader, s: Scan, durations: seq<real>, port: nat, token: string, view: string, i: nat)
    requires ReadsBack(r, port, token, view)
    ensures var ms := RoundMs(SegmentDuration(durations, i));
            ScanLine(r, s, ExtInf(durations, i)) == Ok(s.(pending := ms as real / 1000.0))
  {
    hide RoundMs, SegmentDuration, PrintMs, ExtInfDuration, ScanLine;
    var ms := RoundMs(SegmentDuration(durations, i));
    ExtInfReads(r, ms);
    ExtInfShape(PrintMs(ms));
    DurationLine(r, s, ExtInf(durations, i));
  }

  lemma ExtInfShape(number: string)
    ensures var line := "#EXTINF:" + (number + ",");
            TrimSpace(line) == line && HasPrefix(line, "#EXTINF:") && !HasPrefix(line, "#EXT-X-KEY")
  {
    var line := "#EXTINF:" + (number + ",");
    assert line[0] == '#' && line[|line| - 1] == ',' && line[4] == 'I';
    TrimKeeps(line);
    hide TrimSpace;
    assert line[..8] == "#EXTINF:";
    PrefixDiffers(line, "#EXT-X-KEY", 4);
  }

  lemma DurationLine(r: Reader, s: Scan, line: string)
    requires TrimSpace(line) == line && HasPrefix(line, "#EXTINF:") && !HasPrefix(line, "#EXT-X-KEY")
    ensures ScanLine(r, s, line) == Ok(s.(pending := ExtInfDuration(r, line)))
  {
    hide TrimSpace, KeyUri, ExtInfDuration;
  }

  lemma UrlLine(r: Reader, s: Scan, port: nat, token: string, view: string, i: nat)
    requires ReadsBack(r, port, token, view)
    ensures ScanLine(r, s, LocalUrl(port, token, view, i)) ==
            if s.count >= MAX_PLAYLIST_SEGMENTS then Err(TooManySegments)
            else Ok(Segment(s, LocalUrl(port, token, view, i)))
  {
    hide Digits;
    var url := LocalUrl(port, token, view, i);
    assert url[0] == 'h' && url[|url| - 1] == Digits(i)[|Digits(i)| - 1] && IsDigit(url[|url| - 1]);
    TrimKeeps(url);
    PrefixDiffers(url, "#EXT-X-KEY", 0);
    PrefixDiffers(url, "#EXTINF:", 0);
    PrefixDiffers(url, "#EXT-X-DISCONTINUITY", 0);
    PrefixDiffers(url, "#", 0);
    hide TrimSpace, LocalUrl, HasPrefix;
  }

  function LocalUrls(port: nat, token: string, view: string, k: nat): (urls: seq<string>)
    ensures |urls| == k && forall i :: 0 <= i < k ==> urls[i] == LocalUrl(port, token, view, i)
  {
    if k == 0 then [] else LocalUrls(port, token, view, k - 1) + [LocalUrl(port, token, view, k - 1)]
  }

  function RoundedDurations(durations: seq<real>, k: nat): (ds: seq<real>)
    ensures |ds| == k && forall i :: 0 <= i < k ==> ds[i] == RoundMs(SegmentDuration(durations, i)) as real / 1000.0
  {
    if k == 0 then []
    else RoundedDurations(durations, k - 1) + [RoundMs(SegmentDuration(durations, k - 1)) as real / 1000.0]
  }

  lemma ScanAppends(r: Reader, lines: seq<string>, line: string)
    ensures ScanLines(r, lines + [line]) ==
            if ScanLines(r, lines).Err? then ScanLines(r, lines) else ScanLine(r, ScanLines(r, lines).value, line)
  {
    hide ScanLine;
    assert (lines + [line])[..|lines|] == lines;
  }

  lemma {:induction false} IgnoredLines(r: Reader, lines: seq<string>)
    requires forall i :: 0 <= i < |lines| ==> Ignored(lines[i])
    ensures ScanLines(r, lines) == Ok(START)
  {
    hide Ignored, ScanLine;
    if lines != [] {
      IgnoredLines(r, lines[..|lines| - 1]);
      IgnoredLine(r, START, lines[|lines| - 1]);
    }
  }

  lemma HeaderScans(r: Reader, durations: seq<real>, n: nat)
    ensures ScanLines(r, Header(durations, n)) == Ok(START)
  {
    hide Ignored, ScanLines, Digits, Target;
    FirstLine();
    VersionLine();
    SequenceLine();
    CacheLine();
    TargetLine(Target(durations, n));
    KeyLine();
    IgnoredLines(r, Header(durations, n));
  }

  lemma {:induction false} SegmentsScan(r: Reader, n: nat, durations: seq<real>, port: nat, token: string,
          view: string, k: nat)
    requires ReadsBack(r, port, token, view)
    ensures ScanLines(r, Header(durations, n) + SegmentLines(durations, port, token, view, k)) ==
            if k <= MAX_PLAYLIST_SEGMENTS then
              var urls := LocalUrls(port, token, view, k);
              Ok(Scan(Playlist("", false, urls, RoundedDurations(durations, k), [], []), true, 0.0, k))
            else Err(TooManySegments)
  {
    hide ExtInf, LocalUrl, ScanLine, ScanLines, RoundMs, SegmentDuration, ReadsBack, Header, SegmentLines, LocalUrls,
        RoundedDurations;
    var header := Header(durations, n);
    NoSegments(durations, port, token, view);
    if k == 0 {
      HeaderScans(r, durations, n);
      assert header + [] == header;
    } else {
      SegmentsScan(r, n, durations, port, token, view, k - 1);
      OneMore(durations, port, token, view, k);
      var before := header + SegmentLines(durations, port, token, view, k - 1);
      var tag, url := ExtInf(durations, k - 1), LocalUrl(port, token, view, k - 1);
      assert header + SegmentLines(durations, port, token, view, k) == (before + [tag]) + [url];
      OneMoreSegment(r, before, durations, port, token, view, k - 1);
    }
  }

  lemma NoSegments(durations: seq<real>, port: nat, token: string, view: string)
    ensures SegmentLines(durations, port, token, view, 0) == [] && LocalUrls(port, token, view, 0) == []
        && RoundedDurations(durations, 0) == []
  {
  }

  lemma OneMore(durations: seq<real>, port: nat, token: string, view: string, k: nat)
    requires k > 0
    ensures var url := LocalUrl(port, token, view, k - 1);
            && SegmentLines(durations, port, token, view, k)
               == SegmentLines(durations, port, token, view, k - 1) + [ExtInf(durations, k - 1), url]
            && LocalUrls(port, token, view, k) == LocalUrls(port, token, view, k - 1) + [url]
    ensures RoundedDurations(durations, k)
         == RoundedDurations(durations, k - 1) + [RoundMs(SegmentDuration(durations, k - 1)) as real / 1000.0]
  {
    hide ExtInf, LocalUrl, RoundMs, SegmentDuration;
  }

  /** The two lines of one segment add its URL and its duration, unless the limit is reached. */
  lemma OneMoreSegment(r: Reader, before: seq<string>, durations: seq<real>, port: nat, token: string,
          view: string, i: nat)
    requires ReadsBack(r, port, token, view)
    ensures var s := ScanLines(r, before);
            ScanLines(r, (before + [ExtInf(durations, i)]) + [LocalUrl(port, token, view, i)]) ==
            if s.Err? then s
            else if s.value.count >= MAX_PLAYLIST_SEGMENTS then Err(TooManySegments)
            else
              var ms := RoundMs(SegmentDuration(durations, i));
              Ok(Segment(s.value.(pending := ms as real / 1000.0), LocalUrl(port, token, view, i)))
  {
    hide ExtInf, LocalUrl, ScanLine, RoundMs, SegmentDuration, ReadsBack, Segment, ScanLines;
    var tag, url := ExtInf(durations, i), LocalUrl(port, token, view, i);
    ScanAppends(r, before, tag);
    ScanAppends(r, before + [tag], url);
    if ScanLines(r, before).Ok? {
      ExtInfLine(r, ScanLines(r, before).value, durations, port, token, view, i);
      UrlLine(r, ScanLines(r, before + [tag]).value, port, token, view, i);
    }
  }

  lemma {:induction false} SegmentLinesAreLines(durations: seq<real>, port: nat, token: string, view: string, k: nat)
    requires SafeName(token) && SafeName(view)
    ensures forall i :: 0 <= i < |SegmentLines(durations, port, token, view, k)| ==>
              OneLine(SegmentLines(durations, port, token, view, k)[i])
  {
    if k > 0 {
      SegmentLinesAreLines(durations, port, token, view, k - 1);
      ExtInfIsOneLine(durations, k - 1);
      UrlIsOneLine(port, token, view, k - 1);
      hide ExtInf, LocalUrl, OneLine;
    }
  }

  lemma ExtInfIsOneLine(durations: seq<real>, i: nat)
    ensures OneLine(ExtInf(durations, i))
  {
    PrintedIsNumeral(RoundMs(SegmentDuration(durations, i)));
    hide PrintMs, RoundMs, SegmentDuration;
  }

  lemma UrlIsOneLine(port: nat, token: string, view: string, i: nat)
    requires SafeName(token) && SafeName(view)
    ensures OneLine(LocalUrl(port, token, view, i))
  {
    hide Digits;
    var url := LocalUrl(port, token, view, i);
    var path := Path(token, view, i);
    assert forall k :: 0 <= k < |path| ==> path[k] != '\n' by {
      PathHasNoBreak(token, view, i);
    }
    assert url == ("http://127.0.0.1:" + Digits(port)) + path;
    assert url[|url| - 1] == Digits(i)[|Digits(i)| - 1] && IsDigit(Digits(i)[|Digits(i)| - 1]);
  }

  lemma PathHasNoBreak(token: string, view: string, i: nat)
    requires SafeName(token) && SafeName(view)
    ensures '\n' !in Path(token, view, i)
  {
    hide Digits;
    var tail := view + ("/" + Digits(i));
    assert '\n' !in tail;
    var middle := "segment" + ("/" + tail);
    assert '\n' !in middle;
    assert '\n' !in token + ("/" + middle);
  }

  lemma HeaderIsLines(durations: seq<real>, n: nat)
    ensures forall i :: 0 <= i < 6 ==> OneLine(Header(durations, n)[i])
  {
    var h := Header(durations, n);
    var digits := Digits(Target(durations, n));
    hide Digits, Target;
    assert h[4][|h[4]| - 1] == digits[|digits| - 1] && IsDigit(digits[|digits| - 1]);
    assert OneLine(h[0]) && OneLine(h[1]) && OneLine(h[2]) && OneLine(h[3]) && OneLine(h[4]) && OneLine(h[5]);
  }

  /** The text of a local playlist reads back as its own URLs in order, with durations rounded to
      milliseconds and no second view; a longer one than the segment limit is refused. */
  lemma LocalPlaylistRoundTrip(r: Reader, n: nat, durations: seq<real>, port: nat, token: string, view: string)
    requires ReadsBack(r, port, token, view) && SafeName(token) && SafeName(view)
    ensures Parse(r, Lines(Join(LocalLines(view, n, durations, port, token)))) ==
            if n <= MAX_PLAYLIST_SEGMENTS then
              Ok(Playlist("", false, LocalUrls(port, token, view, n), RoundedDurations(durations, n), [], []))
            else Err(TooManySegments)
  {
    hide ScanLine, Lines, Join, OneLine, LocalUrls, RoundedDurations, Header, SegmentLines, ReadsBack;
    var lines := LocalLines(view, n, durations, port, token);
    var body := Header(durations, n) + SegmentLines(durations, port, token, view, n);
    HeaderIsLines(durations, n);
    SegmentLinesAreLines(durations, port, token, view, n);
    EndIsLine();
    HeaderSize(durations, n);
    assert forall i :: 0 <= i < |lines| ==> OneLine(lines[i]);
    LinesOfJoin(lines);
    SegmentsScan(r, n, durations, port, token, view, n);
    ScanAppends(r, body, "#EXT-X-ENDLIST");
    if n <= MAX_PLAYLIST_SEGMENTS {
      EndLine();
      IgnoredLine(r, ScanLines(r, body).value, "#EXT-X-ENDLIST");
    }
  }

  lemma EndIsLine()
    ensures OneLine("#EXT-X-ENDLIST")
  {
  }

  lemma HeaderSize(durations: seq<real>, n: nat)
    ensures |Header(durations, n)| == 6
  {
  }

  // ---------------------------------------------------------------- from a local path back to its source

  datatype Source = Found(url: string) | Refused(status: int)

  const BAD_REQUEST := 400
  const NOT_FOUND := 404

  function UrlsOf(p: Playlist, view: string): Option<seq<string>> {
    if view == "left" then Some(p.firstUrls) else if view == "right" then Some(p.secondUrls) else None
  }

  function ResolveSegmentSource(p: Playlist, token: string, requestPath: string): Source {
    var parts := Split(if HasPrefix(requestPath, "/") then requestPath[1..] else requestPath, '/');
    if |parts| != 4 then Refused(BAD_REQUEST)
    else if parts[0] != token || parts[1] != "segment" then Refused(NOT_FOUND)
    else
      var index := ParseInt(parts[3]);
      if index.None? then Refused(BAD_REQUEST)
      else
        var urls := UrlsOf(p, parts[2]);
        if urls.None? then Refused(BAD_REQUEST)
        else if index.value < 0 || index.value >= |urls.value| then Refused(NOT_FOUND)
        else Found(urls.value[index.value])
  }

  lemma SplitAtSlash(first: string, rest: string)
    requires '/' !in first
    ensures Split(first + ("/" + rest), '/') == [first] + Split(rest, '/')
  {
    var s := first + ("/" + rest);
    IndexOfIs(s, '/', |first|);
    assert s[..|first|] == first && s[|first| + 1..] == rest;
  }

  lemma SplitNothing(s: string)
    requires '/' !in s
    ensures Split(s, '/') == [s]
  {
    IndexOfIs(s, '/', |s|);
  }

  lemma PathSplits(token: string, view: string, i: nat)
    requires SafeName(token) && SafeName(view)
    ensures var path := Path(token, view, i);
            HasPrefix(path, "/") && Split(path[1..], '/') == [token, "segment", view, Digits(i)]
  {
    hide Digits, Split;
    var path := Path(token, view, i);
    var afterToken := "segment" + ("/" + (view + ("/" + Digits(i))));
    assert path[..1] == "/" && path[1..] == token + ("/" + afterToken);
    assert '/' !in Digits(i) by { assert AllDigits(Digits(i)); }
    SplitNothing(Digits(i));
    SplitAtSlash(view, Digits(i));
    SplitAtSlash("segment", view + ("/" + Digits(i)));
    SplitAtSlash(token, afterToken);
  }

  lemma ViewIsSafe(p: Playlist, view: string)
    requires UrlsOf(p, view).Some?
    ensures SafeName(view)
  {
  }

  /** The i-th local path of a view leads to its i-th upstream URL. */
  lemma PathLeadsBack(p: Playlist, token: string, view: string, i: nat)
    requires SafeName(token) && UrlsOf(p, view).Some?
    ensures ResolveSegmentSource(p, token, Path(token, view, i)) ==
            if i < |UrlsOf(p, view).value| then Found(UrlsOf(p, view).value[i]) else Refused(NOT_FOUND)
  {
    hide Split, Path, Digits, ParseInt, SafeName;
    ViewIsSafe(p, view);
    PathSplits(token, view, i);
    ParseIntOfDigits(i);
  }

  /** Nothing but a URL of the named view is ever found, and only under the session token. */
  lemma OnlyListedSegmentsAreFound(p: Playlist, token: string, requestPath: string)
    requires ResolveSegmentSource(p, token, requestPath).Found?
    ensures exists view: string, i: nat :: UrlsOf(p, view).Some? && i < |UrlsOf(p, view).value|
              && ResolveSegmentSource(p, token, requestPath) == Found(UrlsOf(p, view).value[i])
              && exists number :: Split(if HasPrefix(requestPath, "/") then requestPath[1..] else requestPath, '/')
                                  == [token, "segment", view, number]
  {
    hide Split;
    var parts := Split(if HasPrefix(requestPath, "/") then requestPath[1..] else requestPath, '/');
    assert parts == [token, "segment", parts[2], parts[3]];
    var i := ParseInt(parts[3]).value;
    assert UrlsOf(p, parts[2]).Some? && 0 <= i < |UrlsOf(p, parts[2]).value|;
  }

  /** Every URL a player reads from the local playlist of a view is served from the same position
      of the upstream playlist. */
  lemma LocalPlaylistServesUpstream(r: Reader, p: Playlist, durations: seq<real>, port: nat, token: string,
          view: string, i: nat)
    requires UrlsOf(p, view).Some? && ReadsBack(r, port, token, view) && SafeName(token)
    requires |UrlsOf(p, view).value| <= MAX_PLAYLIST_SEGMENTS && i < |UrlsOf(p, view).value|
    ensures var parsed := Parse(r, Lines(Join(LocalLines(view, |UrlsOf(p, view).value|, durations, port, token))));
            && parsed.Ok? && |parsed.value.firstUrls| == |UrlsOf(p, view).value|
            && parsed.value.firstUrls[i] == "http://127.0.0.1:" + Digits(port) + Path(token, view, i)
            && ResolveSegmentSource(p, token, Path(token, view, i)) == Found(UrlsOf(p, view).value[i])
  {
    ViewIsSafe(p, view);
    LocalPlaylistRoundTrip(r, |UrlsOf(p, view).value|, durations, port, token, view);
    PathLeadsBack(p, token, view, i);
    hide Lines, Join, Parse, ResolveSegmentSource;
  }
}
