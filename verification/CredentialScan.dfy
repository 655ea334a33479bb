/** The canonical credential scan (internal/secrets/secrets.go:1673-1685, 1742-1856) and the positions it
    asks its two cursors for. Which keys are sensitive, what is white space and what is a scheme word are
    parameters. Texts are sequences of bytes. */
module CredentialScan {
  import opened Ordering
  import opened BreakCursor

  datatype Key = Key(authorization: bool, quoted: bool)

  /** `key` is what stands before a delimiter, when it is a sensitive key; `spaceWidth` the width of the
      white-space rune at a position, or zero; `wordEnd` where a word ends, within a limit. */
  datatype Recognizer = Recognizer(
    key: (Text, nat) -> Option<Key>,
    spaceWidth: (Text, nat) -> nat,
    wordEnd: (Text, nat, nat) -> nat,
    isScheme: Text -> bool,
    maxSchemeBytes: nat)

  predicate IsDelimiter(c: char) { c == '=' || c == ':' }

  predicate IsQuote(c: char) { c == '\"' || c == '\'' }

  /** A stretch without delimiters. */
  predicate Clear(text: Text, from: nat, to: nat) {
    forall k :: from <= k < to && k < |text| ==> !IsDelimiter(text[k])
  }

  /** White space lies within the text and contains neither delimiters nor quotes, a word lies within its
      limit, and no scheme word contains a delimiter. */
  ghost predicate Sane(r: Recognizer) {
    && (forall text: Text, i: nat :: i < |text| ==> SpaceOk(text, i, r.spaceWidth(text, i)))
    && (forall text: Text, i: nat, limit: nat :: i <= limit <= |text| ==> i <= r.wordEnd(text, i, limit) <= limit)
    && (forall word: Text :: r.isScheme(word) ==> Clear(word, 0, |word|))
  }

  predicate SpaceOk(text: Text, i: nat, width: nat) {
    i + width <= |text| && forall k :: i <= k < i + width ==> !IsDelimiter(text[k]) && !IsQuote(text[k])
  }

  datatype Range = Range(start: nat, end: nat)

  // ---------------------------------------------------------------- what the scan finds and asks

  function SkipSpace(r: Recognizer, text: Text, start: nat): (end: nat)
    requires Sane(r) && start <= |text|
    ensures start <= end <= |text| && Clear(text, start, end)
    ensures forall k :: start <= k < end ==> !IsQuote(text[k])
    decreases |text| - start
  {
    if start == |text| then start
    else
      assert SpaceOk(text, start, r.spaceWidth(text, start));
      var width := r.spaceWidth(text, start);
      if width == 0 then start else SkipSpace(r, text, start + width)
  }

  function IsEscaped(text: Text, index: nat): bool
    requires index <= |text|
  {
    index > 0 && text[index - 1] == '\\' && !IsEscaped(text, index - 1)
  }

  /** The next unescaped quote of this kind, or the end of the text. */
  function ClosingQuote(text: Text, quote: char, from: nat): (end: nat)
    requires from <= |text|
    ensures from <= end <= |text|
    decreases |text| - from
  {
    if from == |text| || (text[from] == quote && !IsEscaped(text, from)) then from
    else ClosingQuote(text, quote, from + 1)
  }

  /** Where an assignment value ends. */
  function ValueEnd(text: Text, start: nat, quoted: bool): (end: nat)
    requires start <= |text|
    ensures start <= end <= |text|
  {
    if quoted && start < |text| && IsQuote(text[start]) then ClosingQuote(text, text[start], start + 1)
    else FirstBreak(text, VALUE_BREAKS, start)
  }

  /** Where the word after a scheme begins: the position that recognizedSchemeCredentialRange asks for. */
  function AfterScheme(r: Recognizer, text: Text, start: nat, end: nat): (word: Option<nat>)
    requires Sane(r) && start <= |text| && end <= |text|
    ensures word.Some? ==> start < word.value < end && Clear(text, start, word.value)
  {
    if end <= start then None
    else
      var cut := text[..end];
      var schemeStart := SkipSpace(r, cut, start);
      var limit := if schemeStart + r.maxSchemeBytes < end then schemeStart + r.maxSchemeBytes else end;
      var schemeEnd := r.wordEnd(text, schemeStart, limit);
      assert schemeStart <= schemeEnd <= limit;
      if schemeEnd == schemeStart || !r.isScheme(text[schemeStart..schemeEnd]) then None
      else
        assert Clear(text, schemeStart, schemeEnd) by {
          SchemeIsClear(r, text, schemeStart, schemeEnd);
        }
        var word := SkipSpace(r, cut, schemeEnd);
        if word >= end then None else Some(word)
  }

  lemma SchemeIsClear(r: Recognizer, text: Text, start: nat, end: nat)
    requires Sane(r) && start <= end <= |text| && r.isScheme(text[start..end])
    ensures Clear(text, start, end)
  {
    var word := text[start..end];
    assert Clear(word, 0, |word|);
    assert forall k :: start <= k < end ==> text[k] == word[k - start];
  }

  /** A range, and the positions asked of the value cursor and of the authorization cursor for it. */
  datatype Found = Found(range: Option<Range>, value: seq<nat>, authorization: seq<nat>)

  function SchemeRange(text: Text, word: nat, end: nat): Option<Range>
    requires word <= |text|
  {
    var wordEnd := FirstBreak(text, VALUE_BREAKS, word);
    var last := if wordEnd < end then wordEnd else end;
    if last <= word then None else Some(Range(word, last))
  }

  function AuthorizationRange(r: Recognizer, text: Text, start: nat, valueEnd: nat, quoted: bool): (f: Found)
    requires Sane(r) && 0 < start <= |text| && valueEnd <= |text|
    ensures f.range.Some?
  {
    var asked := if quoted then [] else [start];
    var end := if quoted then valueEnd else FirstBreak(text, AUTHORIZATION_BREAKS, start);
    var word := AfterScheme(r, text, start, end);
    var scheme := if word.Some? then SchemeRange(text, word.value, end) else None;
    var words := if word.Some? then [word.value] else [];
    if scheme.Some? then Found(scheme, words, asked)
    else if !quoted then Found(Some(Range(start, end)), words, asked)
    else
      Found(Some(Range(start, ValueEnd(text, start - 1, true))),
            if IsQuote(text[start - 1]) then words else words + [start - 1], asked)
  }

  /** Ranges that are empty or redacted already are not reported. */
  function Reported(text: Text, range: Range): Option<Range> {
    if range.start < range.end <= |text| && text[range.start..range.end] != "REDACTED" then Some(range) else None
  }

  function RangeAt(r: Recognizer, text: Text, delimiter: nat): Found
    requires Sane(r) && delimiter < |text|
  {
    var key := r.key(text, delimiter);
    var start := SkipSpace(r, text, delimiter + 1);
    if key.None? || start == |text| then Found(None, [], [])
    else
      var quoted := IsQuote(text[start]);
      var end := ValueEnd(text, start, quoted);
      var from := if quoted then start + 1 else start;
      var asked := if quoted then [] else [start];
      if key.value.authorization then
        var f := AuthorizationRange(r, text, from, end, key.value.quoted || quoted);
        Found(Reported(text, f.range.value), asked + f.value, f.authorization)
      else
        Found(Reported(text, Range(from, end)), asked, [])
  }

  /** The ranges at the first `n` bytes, and everything asked for them. */
  function Scan(r: Recognizer, text: Text, n: nat): (seq<Range>, seq<nat>, seq<nat>)
    requires Sane(r) && n <= |text|
  {
    if n == 0 then ([], [], [])
    else
      var (ranges, value, authorization) := Scan(r, text, n - 1);
      if !IsDelimiter(text[n - 1]) then (ranges, value, authorization)
      else
        var f := RangeAt(r, text, n - 1);
        (if f.range.Some? then ranges + [f.range.value] else ranges, value + f.value, authorization + f.authorization)
  }

  // ---------------------------------------------------------------- the discipline

  /** A position from `from` on, with no delimiter between. */
  predicate NearBy(text: Text, from: nat, asked: nat) {
    from <= asked <= |text| && Clear(text, from + 1, asked)
  }

  /** At most `n` such positions, each at most one before an earlier one. */
  ghost predicate Near(text: Text, asked: seq<nat>, from: nat, n: nat) {
    |asked| <= n && Disciplined(text, asked) && forall i :: 0 <= i < |asked| ==> NearBy(text, from, asked[i])
  }

  lemma FewAreNear(text: Text, from: nat, x: nat, y: nat)
    ensures Near(text, [], from, 1) && Near(text, [], from, 2)
    ensures NearBy(text, from, x) ==> Near(text, [x], from, 1) && Near(text, [x], from, 2)
    ensures NearBy(text, from, x) && NearBy(text, from, y) && x <= y + 1 ==> Near(text, [x, y], from, 2)
  {
  }

  /** A value that contains no break is a word on its own: after a scheme in it there is a range. */
  lemma NoBreakNoRetry(text: Text, start: nat, word: nat)
    requires start <= |text| && start <= word < FirstBreak(text, VALUE_BREAKS, start)
    ensures SchemeRange(text, word, FirstBreak(text, VALUE_BREAKS, start)).Some?
  {
    FirstBreakIsUnique(text, VALUE_BREAKS, word, FirstBreak(text, VALUE_BREAKS, start));
  }

  /** After a quoted value the scheme is asked for at most; after an unquoted one, which was asked for
      before, the scheme or, where there is none, one position back. */
  lemma AuthorizationAsks(r: Recognizer, text: Text, start: nat, valueEnd: nat, quotedKey: bool)
    requires Sane(r) && 0 < start <= |text| && valueEnd <= |text|
    requires !IsQuote(text[start - 1]) ==> valueEnd == FirstBreak(text, VALUE_BREAKS, start)
    ensures var quotedValue := IsQuote(text[start - 1]);
            var f := AuthorizationRange(r, text, start, valueEnd, quotedKey || quotedValue);
            && f.authorization in {[], [start]}
            && (f.value == [] || (f.value == [start - 1] && !quotedValue)
                || (|f.value| == 1 && start < f.value[0] <= |text| && Clear(text, start, f.value[0])))
  {
    hide AfterScheme, SchemeRange, Clear, ValueEnd, Sane, FirstBreak;
    var quoted := quotedKey || IsQuote(text[start - 1]);
    var end := if quoted then valueEnd else FirstBreak(text, AUTHORIZATION_BREAKS, start);
    var word := AfterScheme(r, text, start, end);
    if word.Some? && quoted && !IsQuote(text[start - 1]) {
      NoBreakNoRetry(text, start, word.value);
    }
  }

  lemma ClearJoins(text: Text, a: nat, b: nat, c: nat)
    requires Clear(text, a, b) && Clear(text, b, c)
    ensures Clear(text, a, c)
  {
  }

  lemma AuthorizationAsksNear(r: Recognizer, text: Text, delimiter: nat, start: nat, valueEnd: nat, quotedKey: bool)
    requires Sane(r) && delimiter < start <= |text| && valueEnd <= |text| && Clear(text, delimiter + 1, start)
    requires !IsQuote(text[start - 1]) ==> valueEnd == FirstBreak(text, VALUE_BREAKS, start)
    ensures var quotedValue := IsQuote(text[start - 1]);
            var f := AuthorizationRange(r, text, start, valueEnd, quotedKey || quotedValue);
            && Near(text, f.authorization, delimiter, 1)
            && Near(text, (if quotedValue then [] else [start]) + f.value, delimiter, 2)
  {
    hide AuthorizationRange, Sane, Near, FirstBreak;
    AuthorizationAsks(r, text, start, valueEnd, quotedKey);
    var f := AuthorizationRange(r, text, start, valueEnd, quotedKey || IsQuote(text[start - 1]));
    FewAreNear(text, delimiter, start, start - 1);
    if |f.value| == 1 {
      if f.value[0] > start {
        ClearJoins(text, delimiter + 1, start, f.value[0]);
      }
      FewAreNear(text, delimiter, start, f.value[0]);
      FewAreNear(text, delimiter, f.value[0], start);
      assert [start] + f.value == [start, f.value[0]] && [] + f.value == [f.value[0]];
    } else {
      assert [start] + f.value == [start] && [] + f.value == [];
    }
  }

  /** For one delimiter the scan asks for positions from there on, with no delimiter between. */
  lemma RangeAsksNear(r: Recognizer, text: Text, delimiter: nat)
    requires Sane(r) && delimiter < |text| && IsDelimiter(text[delimiter])
    ensures var f := RangeAt(r, text, delimiter);
            Near(text, f.value, delimiter, 2) && Near(text, f.authorization, delimiter, 1)
  {
    hide AuthorizationRange, Sane, Near, FirstBreak, SkipSpace, Reported, ClosingQuote;
    var start := SkipSpace(r, text, delimiter + 1);
    FewAreNear(text, delimiter, start, start);
    var key := r.key(text, delimiter);
    if key.Some? && start < |text| && key.value.authorization {
      var from := if IsQuote(text[start]) then start + 1 else start;
      assert Clear(text, delimiter + 1, from);
      assert from == start ==> !IsQuote(text[from - 1]);
      AuthorizationAsksNear(r, text, delimiter, from, ValueEnd(text, start, IsQuote(text[start])), key.value.quoted);
    }
  }

  /** Positions asked up to byte `n` are at most `per` for each byte, disciplined, and with no delimiter between
      there and them. */
  ghost predicate Behind(text: Text, asked: seq<nat>, n: nat, per: nat) {
    && |asked| <= per * n && Disciplined(text, asked)
    && (forall i :: 0 <= i < |asked| ==> asked[i] <= |text| && Clear(text, n, asked[i]))
  }

  lemma BehindGrows(text: Text, asked: seq<nat>, more: seq<nat>, n: nat, per: nat)
    requires Behind(text, asked, n, per) && n < |text|
    requires if IsDelimiter(text[n]) then Near(text, more, n, per) else more == []
    ensures Behind(text, asked + more, n + 1, per)
  {
    assert per * (n + 1) == per * n + per;
    var all := asked + more;
    forall i, j | 0 <= i < j < |all|
      ensures all[i] <= all[j] + 1
    {
      if i < |asked| <= j {
        assert NearBy(text, n, more[j - |asked|]);
        assert Clear(text, n, asked[i]);
      }
    }
    forall i | 0 <= i < |all|
      ensures all[i] <= |text| && Clear(text, n + 1, all[i])
    {
      assert i >= |asked| ==> NearBy(text, n, more[i - |asked|]);
    }
  }

  /** The scan asks each cursor in the discipline under which its work is linear. */
  lemma {:induction false} ScanIsDisciplined(r: Recognizer, text: Text, n: nat)
    requires Sane(r) && n <= |text|
    ensures Behind(text, Scan(r, text, n).1, n, 2) && Behind(text, Scan(r, text, n).2, n, 1)
  {
    hide RangeAt, Behind, Near, Sane;
    if n == 0 {
      NothingAsked(text);
    } else {
      ScanIsDisciplined(r, text, n - 1);
      var (_, value, authorization) := Scan(r, text, n - 1);
      var f := if IsDelimiter(text[n - 1]) then RangeAt(r, text, n - 1) else Found(None, [], []);
      if IsDelimiter(text[n - 1]) {
        RangeAsksNear(r, text, n - 1);
      }
      assert value + [] == value && authorization + [] == authorization;
      BehindGrows(text, value, f.value, n - 1, 2);
      BehindGrows(text, authorization, f.authorization, n - 1, 1);
    }
  }

  lemma NothingAsked(text: Text)
    ensures Behind(text, [], 0, 2) && Behind(text, [], 0, 1)
  {
  }

  /** Both cursors of one scan together look at no more than five times the bytes of the text. */
  lemma ScanIsLinear(r: Recognizer, text: Text)
    requires Sane(r)
    ensures var (_, value, authorization) := Scan(r, text, |text|);
            && InText(text, value) && InText(text, authorization)
            && Serve(text, VALUE_BREAKS, value).examined
             + Serve(text, AUTHORIZATION_BREAKS, authorization).examined <= 5 * |text|
  {
    hide Scan, Serve;
    var (_, value, authorization) := Scan(r, text, |text|);
    ScanIsDisciplined(r, text, |text|);
    TotalWorkIsLinear(text, VALUE_BREAKS, value);
    TotalWorkIsLinear(text, AUTHORIZATION_BREAKS, authorization);
  }

  // ---------------------------------------------------------------- the program

  method SkipCredentialSpace(r: Recognizer, text: Text, start: nat) returns (end: nat)
    requires Sane(r) && start <= |text|
    ensures end == SkipSpace(r, text, start)
  {
    end := start;
    while end < |text|
      invariant start <= end <= |text| && SkipSpace(r, text, start) == SkipSpace(r, text, end)
      decreases |text| - end
    {
      assert SpaceOk(text, end, r.spaceWidth(text, end));
      var width := r.spaceWidth(text, end);
      if width == 0 {
        return;
      }
      end := end + width;
    }
  }

  /** The quoted part of assignmentValueEnd. */
  method QuotedValueEnd(text: Text, start: nat) returns (end: nat)
    requires start < |text| && IsQuote(text[start])
    ensures end == ValueEnd(text, start, true)
  {
    var index := start + 1;
    while index < |text|
      invariant start < index <= |text|
      invariant ClosingQuote(text, text[start], start + 1) == ClosingQuote(text, text[start], index)
    {
      if text[index] == text[start] && !IsEscaped(text, index) {
        return index;
      }
      index := index + 1;
    }
    return |text|;
  }

  /** breakCursor.valueEnd: a quoted value needs no cursor. */
  method CursorValueEnd(text: Text, start: nat, quoted: bool, cursor: BreakCursor) returns (end: nat)
    requires start <= |text| && cursor.Serves(text) && cursor.breaks == VALUE_BREAKS
    modifies cursor
    ensures end == ValueEnd(text, start, quoted) && cursor.Serves(text)
    ensures cursor.asked ==
              old(cursor.asked) + (if quoted && start < |text| && IsQuote(text[start]) then [] else [start])
  {
    if quoted && start < |text| && IsQuote(text[start]) {
      end := QuotedValueEnd(text, start);
    } else {
      end := cursor.Next(text, start);
    }
  }

  /** The first half of recognizedSchemeCredentialRange: past a scheme word and the space after it. */
  method SkipScheme(r: Recognizer, text: Text, start: nat, end: nat) returns (word: Option<nat>)
    requires Sane(r) && start <= |text| && end <= |text|
    ensures word == AfterScheme(r, text, start, end)
  {
    hide Clear, SkipSpace;
    if end <= start {
      return None;
    }
    var schemeStart := SkipCredentialSpace(r, text[..end], start);
    var limit := if schemeStart + r.maxSchemeBytes < end then schemeStart + r.maxSchemeBytes else end;
    var schemeEnd := r.wordEnd(text, schemeStart, limit);
    assert schemeStart <= schemeEnd <= limit;
    if schemeEnd == schemeStart || !r.isScheme(text[schemeStart..schemeEnd]) {
      return None;
    }
    var next := SkipCredentialSpace(r, text[..end], schemeEnd);
    word := if next >= end then None else Some(next);
  }

  method RecognizedSchemeCredentialRange(r: Recognizer, text: Text, start: nat, end: nat, cursor: BreakCursor)
    returns (range: Option<Range>)
    requires Sane(r) && start <= |text| && end <= |text| && cursor.Serves(text) && cursor.breaks == VALUE_BREAKS
    modifies cursor
    ensures cursor.Serves(text)
    ensures var word := AfterScheme(r, text, start, end);
            && range == (if word.Some? then SchemeRange(text, word.value, end) else None)
            && cursor.asked == old(cursor.asked) + (if word.Some? then [word.value] else [])
  {
    hide AfterScheme, Sane, BreakCursor.Serves, Clear;
    var word := SkipScheme(r, text, start, end);
    if word.None? {
      return None;
    }
    var wordEnd := cursor.Next(text, word.value);
    var last := if wordEnd < end then wordEnd else end;
    if last <= word.value {
      return None;
    }
    return Some(Range(word.value, last));
  }

  method AuthorizationValueRange(r: Recognizer, text: Text, start: nat, valueEnd: nat, quoted: bool,
                                 value: BreakCursor, authorization: BreakCursor)
    returns (range: Range)
    requires Sane(r) && 0 < start <= |text| && valueEnd <= |text| && value != authorization
    requires value.Serves(text) && value.breaks == VALUE_BREAKS
    requires authorization.Serves(text) && authorization.breaks == AUTHORIZATION_BREAKS
    modifies value, authorization
    ensures value.Serves(text) && authorization.Serves(text)
    ensures var f := AuthorizationRange(r, text, start, valueEnd, quoted);
            && Some(range) == f.range
            && value.asked == old(value.asked) + f.value
            && authorization.asked == old(authorization.asked) + f.authorization
  {
    hide AfterScheme, SchemeRange, ValueEnd, FirstBreak, BreakCursor.Serves;
    var end := valueEnd;
    if !quoted {
      end := authorization.Next(text, start);
    }
    var scheme := RecognizedSchemeCredentialRange(r, text, start, end, value);
    if scheme.Some? {
      return scheme.value;
    }
    if quoted {
      end := CursorValueEnd(text, start - 1, true, value);
    }
    return Range(start, end);
  }

  method CanonicalCredentialRangeAt(r: Recognizer, text: Text, delimiter: nat, value: BreakCursor,
                                    authorization: BreakCursor)
    returns (range: Option<Range>)
    requires Sane(r) && delimiter < |text| && value != authorization
    requires value.Serves(text) && value.breaks == VALUE_BREAKS
    requires authorization.Serves(text) && authorization.breaks == AUTHORIZATION_BREAKS
    modifies value, authorization
    ensures value.Serves(text) && authorization.Serves(text)
    ensures var f := RangeAt(r, text, delimiter);
            && range == f.range
            && value.asked == old(value.asked) + f.value
            && authorization.asked == old(authorization.asked) + f.authorization
  {
    hide AuthorizationRange, ValueEnd, FirstBreak, BreakCursor.Serves, SkipSpace, Sane, Clear, Reported;
    var key := r.key(text, delimiter);
    if key.None? {
      return None;
    }
    var start := SkipCredentialSpace(r, text, delimiter + 1);
    if start >= |text| {
      return None;
    }
    var quoted := IsQuote(text[start]);
    var end := CursorValueEnd(text, start, quoted, value);
    if quoted {
      start := start + 1;
    }
    var found := Range(start, end);
    if key.value.authorization {
      found := AuthorizationValueRange(r, text, start, end, key.value.quoted || quoted, value, authorization);
    }
    return Reported(text, found);
  }

  /** The scan finds what a scan without remembered positions would, and both its cursors together look at
      no more than five times the bytes of the text. */
  method CanonicalCredentialValueRanges(r: Recognizer, text: Text) returns (ranges: seq<Range>, ghost examined: nat)
    requires Sane(r)
    ensures ranges == Scan(r, text, |text|).0
    ensures examined <= 5 * |text|
  {
    hide RangeAt, BreakCursor.Serves;
    var value := new BreakCursor(VALUE_BREAKS);
    var authorization := new BreakCursor(AUTHORIZATION_BREAKS);
    ranges := [];
    for delimiter := 0 to |text|
      invariant value != authorization && fresh(value) && fresh(authorization)
      invariant value.Serves(text) && value.breaks == VALUE_BREAKS
      invariant authorization.Serves(text) && authorization.breaks == AUTHORIZATION_BREAKS
      invariant Scan(r, text, delimiter) == (ranges, value.asked, authorization.asked)
    {
      if !IsDelimiter(text[delimiter]) {
        continue;
      }
      var range := CanonicalCredentialRangeAt(r, text, delimiter, value, authorization);
      if range.Some? {
        ranges := ranges + [range.value];
      }
    }
    ScanIsLinear(r, text);
    CursorsExamined(text, value, authorization);
    examined := value.examined + authorization.examined;
  }

  lemma CursorsExamined(text: Text, value: BreakCursor, authorization: BreakCursor)
    requires value.Serves(text) && authorization.Serves(text)
    ensures InText(text, value.asked) && value.examined == Serve(text, value.breaks, value.asked).examined
    ensures InText(text, authorization.asked)
    ensures authorization.examined == Serve(text, authorization.breaks, authorization.asked).examined
  {
  }
}
