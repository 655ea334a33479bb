/** What the canonical credential scan finds (internal/secrets/secrets.go:1673-1685, 1742-1856), said by the
    text alone: where white space ends, where a value ends and what a scheme word is are relations here, not
    the functions that the scan computes. */
module Credentials {
  import opened Ordering
  import opened BreakCursor
  import opened CredentialScan

  // ---------------------------------------------------------------- the relations

  const WORD_ENDS := " \t\r\n,;&}"
  const LINE_ENDS := "\r\n&"

  predicate Quotes(c: char) { c == '\"' || c == '\'' }

  /** Nothing but white space. */
  ghost predicate Spaces(r: Recognizer, text: Text, from: nat, to: nat)
    requires from <= to <= |text|
    decreases |text| - from
  {
    from == to || (var width := r.spaceWidth(text, from);
                   0 < width <= to - from && Spaces(r, text, from + width, to))
  }

  /** `to` is the first position from `from` on that is not white space. */
  ghost predicate AfterSpace(r: Recognizer, text: Text, from: nat, to: nat) {
    && from <= to <= |text| && Spaces(r, text, from, to)
    && (to < |text| ==> r.spaceWidth(text, to) == 0)
  }

  /** `to` is the first break from `from` on, or the end. */
  predicate EndsAt(text: Text, breaks: string, from: nat, to: nat) {
    && from <= to <= |text|
    && (forall k :: from <= k < to ==> text[k] !in breaks)
    && (to < |text| ==> text[to] in breaks)
  }

  function Backslashes(text: Text, index: nat): nat
    requires index <= |text|
  {
    if index > 0 && text[index - 1] == '\\' then Backslashes(text, index - 1) + 1 else 0
  }

  /** A quote of this kind that no odd number of backslashes precedes. */
  predicate Closing(text: Text, quote: char, index: nat)
    requires index < |text|
  {
    text[index] == quote && Backslashes(text, index) % 2 == 0
  }

  predicate ClosesAt(text: Text, quote: char, from: nat, to: nat) {
    && from <= to <= |text|
    && (forall k :: from <= k < to ==> !Closing(text, quote, k))
    && (to < |text| ==> Closing(text, quote, to))
  }

  /** The value that begins at `start`: what is between its quotes, or all up to the first break. */
  predicate Value(text: Text, start: nat, breaks: string, from: nat, to: nat)
    requires start < |text|
  {
    if Quotes(text[start]) then from == start + 1 && ClosesAt(text, text[start], from, to)
    else from == start && EndsAt(text, breaks, from, to)
  }

  /** A scheme word from `schemeStart` to `schemeEnd`, with only white space before it, and where the next
      word begins. */
  ghost predicate Scheme(r: Recognizer, text: Text, start: nat, end: nat, schemeStart: nat, schemeEnd: nat, word: nat) {
    && start < end <= |text|
    && AfterSpace(r, text[..end], start, schemeStart)
    && schemeStart < schemeEnd <= end && schemeEnd <= schemeStart + r.maxSchemeBytes
    && schemeEnd == r.wordEnd(text, schemeStart, Least(end, schemeStart + r.maxSchemeBytes))
    && r.isScheme(text[schemeStart..schemeEnd])
    && AfterSpace(r, text[..end], schemeEnd, word)
  }

  function Least(a: nat, b: nat): nat { if a < b then a else b }

  /** The word after a scheme: up to the first break, within the value. */
  ghost predicate WordAfterScheme(r: Recognizer, text: Text, start: nat, end: nat, from: nat, to: nat) {
    && from < to <= end
    && (exists schemeStart: nat, schemeEnd: nat :: Scheme(r, text, start, end, schemeStart, schemeEnd, from))
    && (exists stop: nat :: EndsAt(text, WORD_ENDS, from, stop) && to == Least(stop, end))
  }

  function Breaks(quotedKey: bool): string { if quotedKey then WORD_ENDS else LINE_ENDS }

  /** What is found after an authorization key. A value without quotes ends at the authorization breaks, unless
      the key is quoted. Where a quoted key has a value without quotes and without scheme, the search for the
      end of the value begins one byte before the value. */
  ghost predicate AuthorizationValue(r: Recognizer, text: Text, quotedKey: bool, start: nat, from: nat, to: nat)
    requires start < |text|
  {
    exists first: nat, end: nat ::
      && Value(text, start, Breaks(quotedKey), first, end)
      && (|| WordAfterScheme(r, text, first, end, from, to)
          || (&& (forall f: nat, t: nat :: !WordAfterScheme(r, text, first, end, f, t))
              && from == first
              && if quotedKey && !Quotes(text[start]) then first > 0 && EndsAt(text, WORD_ENDS, first - 1, to)
                 else to == end))
  }

  /** The credential of the delimiter at `delimiter`: the stretch from `from` to `to`. */
  ghost predicate Credential(r: Recognizer, text: Text, delimiter: nat, from: nat, to: nat) {
    && delimiter < |text| && (text[delimiter] == '=' || text[delimiter] == ':') && r.key(text, delimiter).Some?
    && var key := r.key(text, delimiter).value;
       exists start: nat ::
         && start < |text| && AfterSpace(r, text, delimiter + 1, start)
         && if key.authorization then AuthorizationValue(r, text, key.quoted, start, from, to)
            else Value(text, start, WORD_ENDS, from, to)
  }

  // ---------------------------------------------------------------- the relations are the functions

  lemma {:induction false} SkipSpaceIsExact(r: Recognizer, text: Text, from: nat, to: nat)
    requires Sane(r) && from <= |text|
    ensures SkipSpace(r, text, from) == to <==> AfterSpace(r, text, from, to)
    decreases |text| - from
  {
    if from < |text| {
      assert SpaceOk(text, from, r.spaceWidth(text, from));
      var width := r.spaceWidth(text, from);
      if width > 0 {
        SkipSpaceIsExact(r, text, from + width, to);
      }
    }
  }

  lemma FirstBreakIsExact(text: Text, breaks: string, from: nat, to: nat)
    requires from <= |text|
    ensures FirstBreak(text, breaks, from) == to <==> EndsAt(text, breaks, from, to)
  {
    if EndsAt(text, breaks, from, to) {
      FirstBreakIsUnique(text, breaks, from, to);
    }
  }

  lemma {:induction false} EscapedIsOdd(text: Text, index: nat)
    requires index <= |text|
    ensures IsEscaped(text, index) <==> Backslashes(text, index) % 2 == 1
  {
    if index > 0 {
      EscapedIsOdd(text, index - 1);
    }
  }

  lemma {:induction false} ClosingQuoteIsExact(text: Text, quote: char, from: nat, to: nat)
    requires from <= |text|
    ensures ClosingQuote(text, quote, from) == to <==> ClosesAt(text, quote, from, to)
    decreases |text| - from
  {
    if from < |text| {
      EscapedIsOdd(text, from);
      if !Closing(text, quote, from) {
        ClosingQuoteIsExact(text, quote, from + 1, to);
      }
    }
  }

  lemma AfterSchemeIsExact(r: Recognizer, text: Text, start: nat, end: nat, word: nat)
    requires Sane(r) && start <= |text| && end <= |text|
    ensures AfterScheme(r, text, start, end) == Some(word) <==>
              word < end && exists a: nat, b: nat :: Scheme(r, text, start, end, a, b, word)
  {
    hide AfterSpace, Clear;
    if start < end {
      var cut := text[..end];
      var schemeStart := SkipSpace(r, cut, start);
      SkipSpaceIsExact(r, cut, start, schemeStart);
      var schemeEnd := r.wordEnd(text, schemeStart, Least(end, schemeStart + r.maxSchemeBytes));
      SkipSpaceIsExact(r, cut, schemeEnd, word);
      forall a: nat, b: nat | Scheme(r, text, start, end, a, b, word)
        ensures a == schemeStart && b == schemeEnd
      {
        SkipSpaceIsExact(r, cut, start, a);
      }
      assert AfterScheme(r, text, start, end) == Some(word) ==>
          Scheme(r, text, start, end, schemeStart, schemeEnd, word);
    }
  }

  lemma ValueIsExact(text: Text, start: nat, breaks: string, from: nat, to: nat)
    requires start < |text|
    ensures Value(text, start, breaks, from, to) <==>
              if IsQuote(text[start]) then from == start + 1 && to == ClosingQuote(text, text[start], start + 1)
              else from == start && to == FirstBreak(text, breaks, start)
  {
    hide ClosesAt, EndsAt;
    if IsQuote(text[start]) {
      ClosingQuoteIsExact(text, text[start], start + 1, to);
    } else {
      FirstBreakIsExact(text, breaks, start, to);
    }
  }

  lemma WordAfterSchemeIsExact(r: Recognizer, text: Text, start: nat, end: nat, from: nat, to: nat)
    requires Sane(r) && start <= |text| && end <= |text|
    ensures var word := AfterScheme(r, text, start, end);
            (word.Some? && SchemeRange(text, word.value, end) == Some(Range(from, to))) <==>
              WordAfterScheme(r, text, start, end, from, to)
  {
    hide AfterScheme, Scheme, EndsAt, Sane, Clear;
    AfterSchemeIsExact(r, text, start, end, from);
    if from <= |text| {
      var stop := FirstBreak(text, VALUE_BREAKS, from);
      FirstBreakIsExact(text, VALUE_BREAKS, from, stop);
      forall other: nat | EndsAt(text, VALUE_BREAKS, from, other) ensures other == stop {
        FirstBreakIsExact(text, VALUE_BREAKS, from, other);
      }
    }
  }

  /** The range after an authorization key, before it is asked whether it is worth reporting. */
  lemma AuthorizationIsExact(r: Recognizer, text: Text, quotedKey: bool, start: nat, from: nat, to: nat)
    requires Sane(r) && 0 < start < |text| && !IsQuote(text[start - 1])
    ensures var quoted := IsQuote(text[start]);
            var first := if quoted then start + 1 else start;
            AuthorizationRange(r, text, first, ValueEnd(text, start, quoted), quotedKey || quoted).range
              == Some(Range(from, to)) <==>
              AuthorizationValue(r, text, quotedKey, start, from, to)
  {
    hide AfterScheme, SchemeRange, WordAfterScheme, EndsAt, ClosesAt, Sane, Value;
    var quoted := IsQuote(text[start]);
    var first := if quoted then start + 1 else start;
    var breaks := Breaks(quotedKey);
    var end := if quoted then ClosingQuote(text, text[start], start + 1) else FirstBreak(text, breaks, start);
    var word := AfterScheme(r, text, first, end);
    var scheme := if word.Some? then SchemeRange(text, word.value, end) else None;
    forall f: nat, t: nat ensures scheme == Some(Range(f, t)) <==> WordAfterScheme(r, text, first, end, f, t) {
      WordAfterSchemeIsExact(r, text, first, end, f, t);
    }
    assert scheme.Some? ==> WordAfterScheme(r, text, first, end, scheme.value.start, scheme.value.end);
    ValueIsExact(text, start, breaks, first, end);
    forall f: nat, e: nat | Value(text, start, breaks, f, e) ensures f == first && e == end {
      ValueIsExact(text, start, breaks, f, e);
    }
    FirstBreakIsExact(text, VALUE_BREAKS, first - 1, to);
  }

  /** Not empty, within the text, and not replaced already. */
  predicate Reportable(text: Text, from: nat, to: nat) {
    from < to <= |text| && text[from..to] != "REDACTED"
  }

  /** White space ends in one place, and not with a quote. */
  lemma SpaceEndsOnce(r: Recognizer, text: Text, from: nat)
    requires Sane(r) && 0 < from <= |text| && !IsQuote(text[from - 1])
    ensures var start := SkipSpace(r, text, from);
            && AfterSpace(r, text, from, start)
            && (forall other: nat :: AfterSpace(r, text, from, other) ==> other == start)
            && from <= start && !IsQuote(text[start - 1])
  {
    hide AfterSpace, Sane;
    SkipSpaceIsExact(r, text, from, SkipSpace(r, text, from));
    forall other: nat | AfterSpace(r, text, from, other)
      ensures other == SkipSpace(r, text, from)
    {
      SkipSpaceIsExact(r, text, from, other);
    }
  }

  lemma RangeAtIsExact(r: Recognizer, text: Text, delimiter: nat, from: nat, to: nat)
    requires Sane(r) && delimiter < |text| && IsDelimiter(text[delimiter])
    ensures RangeAt(r, text, delimiter).range == Some(Range(from, to)) <==>
              Credential(r, text, delimiter, from, to) && Reportable(text, from, to)
  {
    hide AuthorizationRange, AuthorizationValue, Value, ClosingQuote, FirstBreak, Sane, AfterSpace;
    var start := SkipSpace(r, text, delimiter + 1);
    SpaceEndsOnce(r, text, delimiter + 1);
    if r.key(text, delimiter).Some? && start < |text| {
      AuthorizationIsExact(r, text, r.key(text, delimiter).value.quoted, start, from, to);
      ValueIsExact(text, start, WORD_ENDS, from, to);
    }
  }

  // ---------------------------------------------------------------- what the scan finds

  ghost predicate FoundAt(r: Recognizer, text: Text, delimiter: nat, range: Range) {
    Credential(r, text, delimiter, range.start, range.end) && Reportable(text, range.start, range.end)
  }

  /** The ranges of the scan are the credentials of its delimiters, but for those that are empty or replaced
      already. */
  lemma {:induction false} ScanFindsCredentials(r: Recognizer, text: Text, n: nat, range: Range)
    requires Sane(r) && n <= |text|
    ensures range in Scan(r, text, n).0 <==>
              exists delimiter: nat :: delimiter < n && FoundAt(r, text, delimiter, range)
  {
    hide RangeAt, Credential, Sane;
    if n > 0 {
      ScanFindsCredentials(r, text, n - 1, range);
      if IsDelimiter(text[n - 1]) {
        RangeAtIsExact(r, text, n - 1, range.start, range.end);
      } else {
        NoDelimiterNoCredential(r, text, n - 1, range);
      }
      assert (exists d: nat :: d < n && FoundAt(r, text, d, range)) <==>
        (FoundAt(r, text, n - 1, range) || exists d: nat :: d < n - 1 && FoundAt(r, text, d, range));
    }
  }

  lemma NoDelimiterNoCredential(r: Recognizer, text: Text, n: nat, range: Range)
    requires n < |text| && !IsDelimiter(text[n])
    ensures !FoundAt(r, text, n, range)
  {
  }

  /** Every sensitive key has exactly one credential unless nothing but white space follows it, and it begins
      after the delimiter. */
  lemma OneCredentialEach(r: Recognizer, text: Text, delimiter: nat) returns (from: nat, to: nat)
    requires Sane(r) && delimiter < |text| && IsDelimiter(text[delimiter]) && r.key(text, delimiter).Some?
    requires !AfterSpace(r, text, delimiter + 1, |text|)
    ensures delimiter < from && to <= |text|
    ensures forall f: nat, t: nat :: Credential(r, text, delimiter, f, t) <==> f == from && t == to
  {
    hide AuthorizationRange, AuthorizationValue, Value, ClosingQuote, FirstBreak, Sane, AfterSpace;
    var start := SkipSpace(r, text, delimiter + 1);
    SpaceEndsOnce(r, text, delimiter + 1);
    var key, quoted := r.key(text, delimiter).value, IsQuote(text[start]);
    var first := if quoted then start + 1 else start;
    var end := ValueEnd(text, start, quoted);
    var range := if key.authorization then AuthorizationRange(r, text, first, end, key.quoted || quoted).range.value
                 else Range(first, end);
    from, to := range.start, range.end;
    forall f: nat, t: nat ensures Credential(r, text, delimiter, f, t) <==> f == from && t == to {
      AuthorizationIsExact(r, text, key.quoted, start, f, t);
      ValueIsExact(text, start, WORD_ENDS, f, t);
    }
    AuthorizationBounds(r, text, first, end, key.quoted || quoted);
  }

  lemma AuthorizationBounds(r: Recognizer, text: Text, start: nat, valueEnd: nat, quoted: bool)
    requires Sane(r) && 0 < start <= |text| && valueEnd <= |text|
    ensures var range := AuthorizationRange(r, text, start, valueEnd, quoted).range.value;
            start <= range.start && range.end <= |text|
  {
    hide FirstBreak, ClosingQuote, Clear;
  }

  // ---------------------------------------------------------------- a value that is not found

  /** After a quoted authorization key the value without quotes is found when it follows the delimiter or white
      space that is no break. After a space, say, the search for its end stops at once, and only a word after
      a scheme is found. */
  lemma QuotedKeyFindsIff(r: Recognizer, text: Text, delimiter: nat, start: nat, end: nat)
    requires Sane(r) && delimiter < |text| && IsDelimiter(text[delimiter])
    requires r.key(text, delimiter).Some? && r.key(text, delimiter).value == Key(true, true)
    requires AfterSpace(r, text, delimiter + 1, start) && start < |text| && !Quotes(text[start])
    requires EndsAt(text, WORD_ENDS, start, end)
    requires forall f: nat, t: nat :: !WordAfterScheme(r, text, start, end, f, t)
    ensures (exists range :: FoundAt(r, text, delimiter, range)) <==>
              text[start - 1] !in WORD_ENDS && Reportable(text, start, end)
  {
    hide AfterSpace, WordAfterScheme, Credential, EndsAt, Sane;
    SpaceEndsOnce(r, text, delimiter + 1);
    var stop := FirstBreak(text, WORD_ENDS, start - 1);
    FirstBreakIsExact(text, WORD_ENDS, start - 1, stop);
    ValueToStop(r, text, delimiter, start, end, stop);
    var from, to := OneCredentialEach(r, text, delimiter);
    if text[start - 1] !in WORD_ENDS {
      FirstBreakIsExact(text, WORD_ENDS, start, end);
      assert Reportable(text, start, end) ==> FoundAt(r, text, delimiter, Range(start, end));
    }
  }

  lemma ValueToStop(r: Recognizer, text: Text, delimiter: nat, start: nat, end: nat, stop: nat)
    requires delimiter < |text| && IsDelimiter(text[delimiter])
    requires r.key(text, delimiter).Some? && r.key(text, delimiter).value == Key(true, true)
    requires AfterSpace(r, text, delimiter + 1, start) && 0 < start < |text| && !Quotes(text[start])
    requires EndsAt(text, WORD_ENDS, start, end) && EndsAt(text, WORD_ENDS, start - 1, stop)
    requires forall f: nat, t: nat :: !WordAfterScheme(r, text, start, end, f, t)
    ensures Credential(r, text, delimiter, start, stop)
  {
    hide AfterSpace, WordAfterScheme, EndsAt;
    assert Value(text, start, Breaks(true), start, end);
    assert AuthorizationValue(r, text, true, start, start, stop);
  }

  const SPACED := "\"auth\": abc"

  /** Such a value. */
  lemma SpacedValueIsNotFound(r: Recognizer)
    requires Sane(r) && r.key(SPACED, 6) == Some(Key(true, true)) && (forall word :: !r.isScheme(word))
    requires r.spaceWidth(SPACED, 7) == 1 && r.spaceWidth(SPACED, 8) == 0
    ensures !exists range :: FoundAt(r, SPACED, 6, range)
  {
    assert SPACED[6] == ':' && SPACED[7] == ' ' && SPACED[8] == 'a';
    assert Spaces(r, SPACED, 8, 8);
    assert AfterSpace(r, SPACED, 7, 8);
    QuotedKeyFindsIff(r, SPACED, 6, 8, 11);
  }
}
