/** The remembered-position cursor of the credential scan (internal/secrets/secrets.go:1673-1730).

    `FirstBreak` is the naive forward scan. The cursor answers the same for any sequence of start
    positions on one text, and the bytes it looks at are bounded by the length of the text plus
    how far the requests step back, which CredentialScan keeps to one byte each. */
module BreakCursor {

  type Text = string

  const VALUE_BREAKS: string := " \t\r\n,;&}"
  const AUTHORIZATION_BREAKS: string := "\r\n&"

  /** The first break byte at or after `start`, or the length of the text. */
  function FirstBreak(value: Text, breaks: string, start: nat): (index: nat)
    requires start <= |value|
    ensures start <= index <= |value|
    ensures forall k :: start <= k < index ==> value[k] !in breaks
    ensures index < |value| ==> value[index] in breaks
    decreases |value| - start
  {
    if start == |value| || value[start] in breaks then start else FirstBreak(value, breaks, start + 1)
  }

  lemma {:induction false} FirstBreakIsUnique(value: Text, breaks: string, start: nat, index: nat)
    requires start <= index <= |value|
    requires forall k :: start <= k < index ==> value[k] !in breaks
    requires index < |value| ==> value[index] in breaks
    ensures FirstBreak(value, breaks, start) == index
  {
    var first := FirstBreak(value, breaks, start);
    assert !(first < index) && !(index < first);
  }

  /** assignmentValueEnd on a value that is not quoted: the naive scan, byte by byte. */
  method AssignmentValueEnd(value: Text, start: nat) returns (end: nat)
    requires start <= |value|
    ensures end == FirstBreak(value, VALUE_BREAKS, start)
  {
    var index := start;
    while index < |value|
      invariant start <= index <= |value|
      invariant forall k :: start <= k < index ==> value[k] !in VALUE_BREAKS
    {
      if value[index] in VALUE_BREAKS {
        FirstBreakIsUnique(value, VALUE_BREAKS, start, index);
        return index;
      }
      index := index + 1;
    }
    FirstBreakIsUnique(value, VALUE_BREAKS, start, index);
    return index;
  }

  // ---------------------------------------------------------------- one request

  datatype Cursor = Cursor(from: int, at: int)

  const NEW_CURSOR := Cursor(0, -1)

  /** A fresh cursor, or one that remembers a break-free stretch and the break that ends it. */
  ghost predicate Remembers(value: Text, breaks: string, c: Cursor) {
    c == NEW_CURSOR || (0 <= c.from <= c.at <= |value| && c.at == FirstBreak(value, breaks, c.from))
  }

  /** What a request leaves, and how many bytes it looks at. */
  datatype Answer = Answer(index: nat, cursor: Cursor, examined: nat)

  ghost function Request(value: Text, breaks: string, c: Cursor, start: nat): Answer
    requires start <= |value| && Remembers(value, breaks, c)
  {
    if start > c.at then
      var found := FirstBreak(value, breaks, start);
      Answer(found, Cursor(start, found), Cost(start, found, |value|))
    else if start < c.from then
      var found := FirstBreak(value, breaks, start);
      if found < c.from then Answer(found, c, Cost(start, found, c.from))
      else Answer(c.at, Cursor(start, c.at), Cost(start, c.from, c.from))
    else
      Answer(c.at, c, 0)
  }

  /** The bytes a search of [start, limit) looks at when it stops at `found`. */
  ghost function Cost(start: nat, found: nat, limit: nat): nat
    requires start <= found <= limit
  {
    if found < limit then found - start + 1 else limit - start
  }

  /** Every request is answered as the naive scan would, and the cursor keeps what it remembers true. */
  lemma RequestIsNaive(value: Text, breaks: string, c: Cursor, start: nat)
    requires start <= |value| && Remembers(value, breaks, c)
    ensures var a := Request(value, breaks, c, start);
            a.index == FirstBreak(value, breaks, start) && Remembers(value, breaks, a.cursor)
  {
    if c != NEW_CURSOR && start <= c.at {
      if c.from <= start || FirstBreak(value, breaks, start) >= c.from {
        FirstBreakIsUnique(value, breaks, start, c.at);
      }
    }
  }

  // ---------------------------------------------------------------- any sequence of requests

  datatype Run = Run(answers: seq<nat>, cursor: Cursor, examined: nat, furthest: nat, backward: nat)

  ghost predicate InText(value: Text, starts: seq<nat>) {
    forall i :: 0 <= i < |starts| ==> starts[i] <= |value|
  }

  /** A cursor serving `starts` from the first to the last. `furthest` is the furthest position
      asked for, and `backward` the sum of how far each request lies before it. */
  ghost function Serve(value: Text, breaks: string, starts: seq<nat>): (r: Run)
    requires InText(value, starts)
    ensures Remembers(value, breaks, r.cursor)
  {
    if starts == [] then Run([], NEW_CURSOR, 0, 0, 0)
    else
      var before := Serve(value, breaks, starts[..|starts| - 1]);
      var start := starts[|starts| - 1];
      RequestIsNaive(value, breaks, before.cursor, start);
      var a := Request(value, breaks, before.cursor, start);
      Run(before.answers + [a.index], a.cursor, before.examined + a.examined,
          if start > before.furthest then start else before.furthest,
          before.backward + (if start < before.furthest then before.furthest - start else 0))
  }

  lemma ServeOneMore(value: Text, breaks: string, starts: seq<nat>, start: nat)
    requires InText(value, starts) && start <= |value|
    ensures var before, after := Serve(value, breaks, starts), Serve(value, breaks, starts + [start]);
            var a := Request(value, breaks, before.cursor, start);
            after.cursor == a.cursor && after.examined == before.examined + a.examined
  {
    assert (starts + [start])[..|starts|] == starts;
  }

  class BreakCursor {
    const breaks: string
    var from: int
    var at: int
    ghost var examined: nat
    /** The positions asked for, in order. */
    ghost var asked: seq<nat>

    ghost function State(): Cursor
      reads this
    {
      Cursor(from, at)
    }

    /** All requests so far were on this text. */
    ghost predicate Serves(value: Text)
      reads this
    {
      && InText(value, asked)
      && State() == Serve(value, breaks, asked).cursor && examined == Serve(value, breaks, asked).examined
    }

    constructor (breaks: string)
      ensures this.breaks == breaks && asked == [] && forall value :: Serves(value)
    {
      this.breaks := breaks;
      this.from, this.at, this.examined, this.asked := 0, -1, 0, [];
    }

    /** strings.IndexAny on value[start:limit], counting the bytes it looks at. */
    method IndexAny(value: Text, start: nat, limit: nat) returns (index: int)
      requires start <= limit <= |value|
      modifies this`examined
      ensures var found := FirstBreak(value, breaks, start);
              && index == (if found < limit then found - start else -1)
              && examined == old(examined) + Cost(start, if found < limit then found else limit, limit)
    {
      var i := start;
      while i < limit
        invariant start <= i <= limit
        invariant forall k :: start <= k < i ==> value[k] !in breaks
        invariant examined == old(examined) + (i - start)
      {
        examined := examined + 1;
        if value[i] in breaks {
          FirstBreakIsUnique(value, breaks, start, i);
          return i - start;
        }
        i := i + 1;
      }
      return -1;
    }

    method Next(value: Text, start: nat) returns (index: nat)
      requires start <= |value| && Serves(value)
      modifies this
      ensures index == FirstBreak(value, breaks, start)
      ensures asked == old(asked) + [start] && Serves(value)
    {
      hide FirstBreak, Serve, Request, Remembers;
      ServeOneMore(value, breaks, asked, start);
      index := Search(value, start);
      asked := asked + [start];
    }

    method Search(value: Text, start: nat) returns (index: nat)
      requires start <= |value| && Remembers(value, breaks, State())
      modifies this`from, this`at, this`examined
      ensures index == FirstBreak(value, breaks, start)
      ensures var a := Request(value, breaks, old(State()), start);
              State() == a.cursor && examined == old(examined) + a.examined
    {
      RequestIsNaive(value, breaks, State(), start);
      if start > at {
        from, at := start, |value|;
        var found := IndexAny(value, start, |value|);
        if found >= 0 {
          at := start + found;
        }
      } else if start < from {
        var found := IndexAny(value, start, from);
        if found >= 0 {
          return start + found;
        }
        from := start;
      }
      return at;
    }
  }

  lemma {:induction false} EveryAnswerIsNaive(value: Text, breaks: string, starts: seq<nat>)
    requires InText(value, starts)
    ensures var answers := Serve(value, breaks, starts).answers;
            && |answers| == |starts|
            && forall i :: 0 <= i < |starts| ==> answers[i] == FirstBreak(value, breaks, starts[i])
  {
    if starts != [] {
      EveryAnswerIsNaive(value, breaks, starts[..|starts| - 1]);
      RequestIsNaive(value, breaks, Serve(value, breaks, starts[..|starts| - 1]).cursor, starts[|starts| - 1]);
    }
  }

  /** All requests together look at each byte of the text once, plus the bytes they step back. */
  lemma {:induction false} WorkIsBounded(value: Text, breaks: string, starts: seq<nat>)
    requires InText(value, starts)
    ensures var r := Serve(value, breaks, starts);
            && r.examined <= (if r.cursor.at < |value| then r.cursor.at + 1 else |value|) + r.backward
            && r.cursor.from <= r.furthest
  {
    if starts != [] {
      WorkIsBounded(value, breaks, starts[..|starts| - 1]);
      RequestIsNaive(value, breaks, Serve(value, breaks, starts[..|starts| - 1]).cursor, starts[|starts| - 1]);
    }
  }

  /** No request lies more than one byte before the furthest position asked for so far. */
  ghost predicate Disciplined(value: Text, starts: seq<nat>) {
    forall i, j :: 0 <= i < j < |starts| ==> starts[i] <= starts[j] + 1
  }

  lemma {:induction false} StepsBackAreShort(value: Text, breaks: string, starts: seq<nat>)
    requires InText(value, starts)
    requires Disciplined(value, starts)
    ensures var r := Serve(value, breaks, starts);
            && r.backward <= |starts|
            && (starts == [] || r.furthest == 0 || exists i :: 0 <= i < |starts| && starts[i] == r.furthest)
  {
    if starts != [] {
      var init := starts[..|starts| - 1];
      StepsBackAreShort(value, breaks, init);
      var before := Serve(value, breaks, init);
      var start := starts[|starts| - 1];
      if init != [] && before.furthest != 0 {
        var i :| 0 <= i < |init| && init[i] == before.furthest;
        assert starts[i] == before.furthest;
      }
      assert Serve(value, breaks, starts).furthest in {start, before.furthest};
      assert starts[|starts| - 1] == start;
    }
  }

  /** If the positions are asked for in this discipline, the total work is linear. */
  lemma TotalWorkIsLinear(value: Text, breaks: string, starts: seq<nat>)
    requires InText(value, starts)
    requires Disciplined(value, starts)
    ensures Serve(value, breaks, starts).examined <= |value| + |starts|
  {
    WorkIsBounded(value, breaks, starts);
    StepsBackAreShort(value, breaks, starts);
  }
}
