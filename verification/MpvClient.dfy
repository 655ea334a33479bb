/** The mpv request/response client (internal/player/client.go:141-157, 196-253, 290-305, 353-371).

    Requests are registered under a lock and answered by whoever takes them out of `pending`: the
    read loop, one at a time, or a shutdown, all at once. Taking out and sending are separate steps,
    and so is everything a waiting caller does, so the steps of all goroutines may interleave in any
    order. A response channel holds one result. */
module MpvClient {
  import opened Ordering

  datatype Result = Answer(id: int, body: string) | Ended(error: string)

  /** Where the caller of Command stands with its request. */
  datatype Caller = Awaiting | Returned(result: Option<Result>)

  /** `taken` are the results taken out of `pending` but not yet sent, by shutdown when `byShutdown`;
      `sends` counts every send on a channel and `channels` is what the channel holds. */
  datatype Requests = Requests(pending: set<int>, taken: map<int, Result>, byShutdown: set<int>,
                               channels: map<int, Option<Result>>, sends: map<int, nat>)

  datatype State = State(nextId: int, closed: bool, error: Option<string>, done: bool,
                         requests: Requests, callers: map<int, Caller>)

  const START := State(0, false, None, false, Requests({}, map[], {}, map[], map[]), map[])

  // ---------------------------------------------------------------- steps

  predicate CanRegister(s: State, maxPending: nat) { !s.closed && |s.requests.pending| < maxPending }

  function Registered(s: State): State {
    var id := s.nextId + 1;
    var r := s.requests;
    s.(nextId := id,
       requests := r.(pending := r.pending + {id}, channels := r.channels[id := None], sends := r.sends[id := 0]),
       callers := s.callers[id := Awaiting])
  }

  /** The locked part of deliverResponse. A response nobody waits for is ignored. */
  function Claimed(s: State, id: int, body: string): State {
    var r := s.requests;
    if id !in r.pending then s
    else s.(requests := r.(pending := r.pending - {id}, taken := r.taken[id := Answer(id, body)]))
  }

  predicate CanSend(s: State, id: int) {
    id in s.requests.taken && id in s.requests.channels && s.requests.channels[id].None? && id in s.requests.sends
  }

  /** Sending what was taken; a full channel would block. */
  function Sent(s: State, id: int): State
    requires CanSend(s, id)
  {
    var r := s.requests;
    s.(requests := r.(taken := r.taken - {id}, byShutdown := r.byShutdown - {id},
                      channels := r.channels[id := Some(r.taken[id])], sends := r.sends[id := r.sends[id] + 1]))
  }

  /** The locked part of shutdown, which runs once. */
  function Shut(s: State, error: string): State {
    if s.closed then s
    else
      var r := s.requests;
      s.(closed := true, error := Some(error),
         requests := r.(pending := {}, byShutdown := r.pending,
                        taken := r.taken + map id | id in r.pending :: Ended(error)))
  }

  /** close(done), after every send of shutdown. */
  predicate CanFinish(s: State) { s.closed && s.requests.byShutdown == {} }

  predicate Waits(s: State, id: int) { id in s.callers && s.callers[id].Awaiting? && id in s.requests.channels }

  predicate CanReceive(s: State, id: int) { Waits(s, id) && s.requests.channels[id].Some? }

  function Received(s: State, id: int): State
    requires CanReceive(s, id)
  {
    var r := s.requests;
    s.(callers := s.callers[id := Returned(r.channels[id])], requests := r.(channels := r.channels[id := None]))
  }

  /** The context ended, or the command could not be written: removePending, and no result. */
  function GivenUp(s: State, id: int): State {
    s.(callers := s.callers[id := Returned(None)], requests := s.requests.(pending := s.requests.pending - {id}))
  }

  /** Done is closed and the channel is empty: the terminal error. */
  predicate CanSeeDone(s: State, id: int) { Waits(s, id) && s.done && s.error.Some? && s.requests.channels[id].None? }

  function SawDone(s: State, id: int): State
    requires CanSeeDone(s, id)
  {
    s.(callers := s.callers[id := Returned(Some(Ended(s.error.value)))])
  }

  datatype Op = Register | Claim(id: int, body: string) | Send(id: int) | Shutdown(error: string) | Finish
              | Receive(id: int) | GiveUp(id: int) | SeeDone(id: int)

  predicate Enabled(s: State, op: Op, maxPending: nat) {
    match op
    case Register => CanRegister(s, maxPending)
    case Claim(id, _) => true
    case Send(id) => CanSend(s, id)
    case Shutdown(_) => true
    case Finish => CanFinish(s)
    case Receive(id) => CanReceive(s, id)
    case GiveUp(id) => Waits(s, id)
    case SeeDone(id) => CanSeeDone(s, id)
  }

  function Do(s: State, op: Op, maxPending: nat): State
    requires Enabled(s, op, maxPending)
  {
    match op
    case Register => Registered(s)
    case Claim(id, body) => Claimed(s, id, body)
    case Send(id) => Sent(s, id)
    case Shutdown(error) => Shut(s, error)
    case Finish => s.(done := true)
    case Receive(id) => Received(s, id)
    case GiveUp(id) => GivenUp(s, id)
    case SeeDone(id) => SawDone(s, id)
  }

  // ---------------------------------------------------------------- the invariant

  /** A result that may reach request `id`: its own answer, or the terminal error. */
  ghost predicate Fits(r: Result, id: int, error: Option<string>) {
    match r
    case Answer(other, _) => other == id
    case Ended(e) => error == Some(e)
  }

  /** One request, from registration on: it is in `pending` or taken, never both, until its one send. */
  ghost predicate RequestOk(s: State, id: int) {
    var r := s.requests;
    && id in r.channels && id in r.sends && id in s.callers
    && r.sends[id] <= 1
    && (id in r.pending ==> id !in r.taken && r.sends[id] == 0 && s.callers[id].Awaiting?)
    && (id in r.taken ==> r.sends[id] == 0 && Fits(r.taken[id], id, s.error))
    && (r.channels[id].Some? ==> r.sends[id] == 1 && Fits(r.channels[id].value, id, s.error))
    && (s.callers[id].Awaiting? && !s.done ==> id in r.pending || id in r.taken || r.channels[id].Some?)
    && (s.callers[id].Returned? && s.callers[id].result.Some? ==>
          && Fits(s.callers[id].result.value, id, s.error)
          && (s.callers[id].result.value.Answer? ==> r.sends[id] == 1))
  }

  ghost predicate Inv(s: State, maxPending: nat) {
    var r := s.requests;
    && s.nextId >= 0
    && (forall id :: 1 <= id <= s.nextId ==> RequestOk(s, id))
    && (forall id :: id in r.pending || id in r.taken || id in r.channels || id in s.callers ==> 1 <= id <= s.nextId)
    && |r.pending| <= maxPending
    && (s.closed <==> s.error.Some?)
    && (s.closed ==> r.pending == {})
    && (forall id :: id in r.byShutdown ==> id in r.taken)
    && (s.done ==> s.closed && r.byShutdown == {})
  }

  lemma RegisterKeepsInv(s: State, maxPending: nat)
    requires Inv(s, maxPending) && CanRegister(s, maxPending)
    ensures Inv(Registered(s), maxPending)
  {
    var t := Registered(s);
    forall id | 1 <= id <= t.nextId
      ensures RequestOk(t, id)
    {
      assert id <= s.nextId ==> RequestOk(s, id);
    }
  }

  lemma ClaimKeepsInv(s: State, maxPending: nat, id: int, body: string)
    requires Inv(s, maxPending)
    ensures Inv(Claimed(s, id, body), maxPending)
  {
    var t := Claimed(s, id, body);
    forall other | 1 <= other <= t.nextId
      ensures RequestOk(t, other)
    {
      assert RequestOk(s, other);
    }
    assert t.requests.pending <= s.requests.pending;
    FewerPending(s.requests.pending, t.requests.pending);
  }

  lemma FewerPending(a: set<int>, b: set<int>)
    requires b <= a
    ensures |b| <= |a|
  {
    assert a == b + (a - b);
  }

  lemma SendKeepsInv(s: State, maxPending: nat, id: int)
    requires Inv(s, maxPending) && CanSend(s, id)
    ensures Inv(Sent(s, id), maxPending)
  {
    var t := Sent(s, id);
    forall other | 1 <= other <= t.nextId
      ensures RequestOk(t, other)
    {
      assert RequestOk(s, other);
    }
  }

  lemma ShutKeepsInv(s: State, maxPending: nat, error: string)
    requires Inv(s, maxPending)
    ensures Inv(Shut(s, error), maxPending)
  {
    var t := Shut(s, error);
    if !s.closed {
      forall id | 1 <= id <= t.nextId
        ensures RequestOk(t, id)
      {
        assert RequestOk(s, id);
      }
    }
  }

  lemma CallerKeepsInv(s: State, maxPending: nat, op: Op)
    requires Inv(s, maxPending) && Enabled(s, op, maxPending) && (op.Receive? || op.GiveUp? || op.SeeDone?)
    ensures Inv(Do(s, op, maxPending), maxPending)
  {
    var t := Do(s, op, maxPending);
    forall id | 1 <= id <= t.nextId
      ensures RequestOk(t, id)
    {
      assert RequestOk(s, id);
    }
    assert t.requests.pending <= s.requests.pending;
    FewerPending(s.requests.pending, t.requests.pending);
  }

  lemma DoKeepsInv(s: State, op: Op, maxPending: nat)
    requires Inv(s, maxPending) && Enabled(s, op, maxPending)
    ensures Inv(Do(s, op, maxPending), maxPending)
  {
    match op
    case Register => RegisterKeepsInv(s, maxPending);
    case Claim(id, body) => ClaimKeepsInv(s, maxPending, id, body);
    case Send(id) => SendKeepsInv(s, maxPending, id);
    case Shutdown(error) => ShutKeepsInv(s, maxPending, error);
    case Finish => FinishKeepsInv(s, maxPending);
    case _ => CallerKeepsInv(s, maxPending, op);
  }

  lemma FinishKeepsInv(s: State, maxPending: nat)
    requires Inv(s, maxPending) && CanFinish(s)
    ensures Inv(s.(done := true), maxPending)
  {
    var t := s.(done := true);
    forall id | 1 <= id <= t.nextId
      ensures RequestOk(t, id)
    {
      assert RequestOk(s, id);
    }
  }

  // ---------------------------------------------------------------- runs

  ghost predicate Next(s: State, t: State, maxPending: nat) {
    exists op :: Enabled(s, op, maxPending) && t == Do(s, op, maxPending)
  }

  ghost predicate Run(states: seq<State>, maxPending: nat) {
    && states != [] && states[0] == START
    && forall i :: 0 < i < |states| ==> Next(states[i - 1], states[i], maxPending)
  }

  lemma {:induction false} InvariantHolds(states: seq<State>, i: nat, maxPending: nat)
    requires Run(states, maxPending) && i < |states|
    ensures Inv(states[i], maxPending)
  {
    if i > 0 {
      InvariantHolds(states, i - 1, maxPending);
      assert Next(states[i - 1], states[i], maxPending);
      var op :| Enabled(states[i - 1], op, maxPending) && states[i] == Do(states[i - 1], op, maxPending);
      DoKeepsInv(states[i - 1], op, maxPending);
    }
  }

  /** Pending requests are bounded, each channel gets at most one result, a result that was taken
      can be sent without blocking, and what a caller gets is its own answer or the terminal error. */
  lemma RequestsAreAnsweredOnce(states: seq<State>, i: nat, maxPending: nat, id: int)
    requires Run(states, maxPending) && i < |states| && id in states[i].callers
    ensures var s := states[i];
            && |s.requests.pending| <= maxPending
            && id in s.requests.sends && s.requests.sends[id] <= 1
            && (id in s.requests.taken ==> CanSend(s, id))
            && (s.callers[id].Returned? && s.callers[id].result.Some? ==> Fits(s.callers[id].result.value, id, s.error))
  {
    InvariantHolds(states, i, maxPending);
    assert RequestOk(states[i], id);
  }

  /** No response is lost: until done is closed, a waiting caller's request is pending, or its result
      has been taken, or is in its channel; and once done is closed the caller can always return. */
  lemma WaitersAreNotForgotten(states: seq<State>, i: nat, maxPending: nat, id: int)
    requires Run(states, maxPending) && i < |states| && id in states[i].callers && states[i].callers[id].Awaiting?
    ensures var s := states[i];
            && (!s.done ==> id in s.requests.pending || CanSend(s, id) || CanReceive(s, id))
            && (s.done ==> CanReceive(s, id) || CanSeeDone(s, id))
  {
    InvariantHolds(states, i, maxPending);
    assert RequestOk(states[i], id);
  }

  /** IDs are handed out once each: they only grow, and a registration's ID was never used before. */
  lemma IdsAreUnique(states: seq<State>, i: nat, maxPending: nat)
    requires Run(states, maxPending) && i < |states|
    ensures var s := states[i];
            && s.nextId + 1 !in s.callers && s.nextId + 1 !in s.requests.pending && s.nextId + 1 !in s.requests.channels
            && (CanRegister(s, maxPending) ==> s.nextId + 1 in Registered(s).requests.pending)
  {
    InvariantHolds(states, i, maxPending);
  }

  lemma {:induction false} IdsGrow(states: seq<State>, i: nat, j: nat, maxPending: nat)
    requires Run(states, maxPending) && i <= j < |states|
    ensures states[i].nextId <= states[j].nextId
    ensures states[i].closed ==>
        states[j].closed && states[j].error == states[i].error && states[j].nextId == states[i].nextId
    decreases j
  {
    if i < j {
      IdsGrow(states, i, j - 1, maxPending);
      assert Next(states[j - 1], states[j], maxPending);
    }
  }

  /** After a shutdown nothing is pending, nothing registers, and the terminal error stays the first one. */
  lemma ShutdownIsFinal(states: seq<State>, i: nat, j: nat, maxPending: nat)
    requires Run(states, maxPending) && i <= j < |states| && states[i].closed
    ensures states[j].closed && states[j].requests.pending == {} && !CanRegister(states[j], maxPending)
    ensures states[j].error == states[i].error && states[j].error.Some? && states[j].nextId == states[i].nextId
  {
    IdsGrow(states, i, j, maxPending);
    InvariantHolds(states, j, maxPending);
  }

  /** Where a result that was taken is from then on: still taken, in its channel, or with its caller; and
      nothing else is. */
  ghost predicate Carried(s: State, id: int, result: Result) {
    var r := s.requests;
    && id !in r.pending && id in r.channels && id in s.callers
    && (id in r.taken ==> r.taken[id] == result && r.channels[id].None?)
    && (r.channels[id].Some? ==> r.channels[id].value == result)
    && (s.callers[id].Returned? && s.callers[id].result.Some? && s.callers[id].result.value.Answer? ==>
          s.callers[id].result.value == result)
    && (id in r.taken || r.channels[id].Some? || s.callers[id] == Returned(Some(result)))
  }

  /** A response is delivered as it came: once taken it is in one place and unchanged, until its caller has it. */
  lemma {:induction false} ResponsesAreCarried(states: seq<State>, i: nat, j: nat, maxPending: nat, id: int)
    requires Run(states, maxPending) && i <= j < |states| && id in states[i].requests.taken
    ensures Carried(states[j], id, states[i].requests.taken[id])
    decreases j
  {
    hide Inv, Enabled, Do, Carried;
    if i == j {
      InvariantHolds(states, i, maxPending);
      TakenIsCarried(states[i], maxPending, id);
    } else {
      ResponsesAreCarried(states, i, j - 1, maxPending, id);
      InvariantHolds(states, j - 1, maxPending);
      assert Next(states[j - 1], states[j], maxPending);
      var op :| Enabled(states[j - 1], op, maxPending) && states[j] == Do(states[j - 1], op, maxPending);
      StepCarries(states[j - 1], op, maxPending, id, states[i].requests.taken[id]);
    }
  }

  lemma TakenIsCarried(s: State, maxPending: nat, id: int)
    requires Inv(s, maxPending) && id in s.requests.taken
    ensures Carried(s, id, s.requests.taken[id])
  {
    assert RequestOk(s, id);
  }

  lemma StepCarries(s: State, op: Op, maxPending: nat, id: int, result: Result)
    requires Inv(s, maxPending) && Enabled(s, op, maxPending) && Carried(s, id, result)
    ensures Carried(Do(s, op, maxPending), id, result)
  {
    assert RequestOk(s, id);
  }

  // ---------------------------------------------------------------- the program

  const LIMIT_REACHED := "mpv IPC pending command limit reached"

  method PickOne<T(==)>(s: set<T>) returns (x: T)
    requires s != {}
    ensures x in s
  {
    x :| x in s;
  }

  class Client {
    const maxPending: nat
    var pending: set<int>
    var nextId: int
    var closed: bool
    var error: Option<string>
    var done: bool
    var channels: map<int, Option<Result>>
    ghost var taken: map<int, Result>
    ghost var byShutdown: set<int>
    ghost var sends: map<int, nat>
    ghost var callers: map<int, Caller>

    ghost function View(): State
      reads this
    {
      State(nextId, closed, error, done, Requests(pending, taken, byShutdown, channels, sends), callers)
    }

    constructor (maxPending: nat)
      ensures View() == START && Inv(View(), maxPending) && this.maxPending == maxPending
    {
      this.maxPending := maxPending;
      pending, nextId, closed, error, done, channels := {}, 0, false, None, false, map[];
      taken, byShutdown, sends, callers := map[], {}, map[], map[];
    }

    /** registerPending: an ID and its channel, or the terminal error, or the pending limit. */
    method RegisterPending() returns (id: int, failure: Option<string>)
      requires Inv(View(), maxPending)
      modifies this
      ensures Inv(View(), maxPending)
      ensures failure.None? <==> !old(closed) && |old(pending)| < maxPending
      ensures failure == if old(closed) then old(error)
                         else if |old(pending)| < maxPending then None
                         else Some(LIMIT_REACHED)
      ensures if failure.None? then View() == Registered(old(View())) && id == nextId && id !in old(callers)
              else View() == old(View())
    {
      if closed {
        return 0, error;
      }
      if |pending| >= maxPending {
        return 0, Some(LIMIT_REACHED);
      }
      assert nextId + 1 !in callers;
      hide Inv;
      RegisterKeepsInv(View(), maxPending);
      nextId := nextId + 1;
      pending, channels := pending + {nextId}, channels[nextId := None];
      sends, callers := sends[nextId := 0], callers[nextId := Awaiting];
      return nextId, None;
    }

    /** The locked part of deliverResponse. */
    method ClaimResponse(id: int, body: string) returns (found: bool)
      requires Inv(View(), maxPending)
      modifies this
      ensures Inv(View(), maxPending)
      ensures View() == Claimed(old(View()), id, body) && found == (id in old(pending))
      ensures Next(old(View()), View(), maxPending)
      ensures found ==> pending == old(pending) - {id} && taken == old(taken)[id := Answer(id, body)]
      ensures !found ==> View() == old(View())
    {
      ClaimKeepsInv(View(), maxPending, id, body);
      found := id in pending;
      if found {
        pending := pending - {id};
        taken := taken[id := Answer(id, body)];
      }
      assert Enabled(old(View()), Op.Claim(id, body), maxPending)
          && View() == Do(old(View()), Op.Claim(id, body), maxPending);
    }

    /** The send of deliverResponse or shutdown: the channel is empty, so it does not block. */
    method Send(id: int, result: Result)
      requires Inv(View(), maxPending) && id in taken && taken[id] == result
      modifies this
      ensures old(CanSend(View(), id)) && View() == Sent(old(View()), id) && Inv(View(), maxPending)
      ensures channels == old(channels)[id := Some(result)] && taken == old(taken) - {id}
    {
      assert RequestOk(View(), id);
      SendKeepsInv(View(), maxPending, id);
      channels := channels[id := Some(result)];
      taken, byShutdown, sends := taken - {id}, byShutdown - {id}, sends[id := sends[id] + 1];
    }

    /** The locked part of shutdown; what was pending is returned to be sent the error. */
    method BeginShutdown(terminalError: string) returns (toSend: set<int>)
      requires Inv(View(), maxPending)
      modifies this
      ensures View() == Shut(old(View()), terminalError) && Inv(View(), maxPending)
      ensures Next(old(View()), View(), maxPending)
      ensures toSend == if old(closed) then {} else old(pending)
      ensures forall id :: id in toSend ==> id in taken && taken[id] == Ended(terminalError)
    {
      ShutKeepsInv(View(), maxPending, terminalError);
      ghost var op := Op.Shutdown(terminalError);
      assert Enabled(View(), op, maxPending) && Shut(View(), terminalError) == Do(View(), op, maxPending);
      if closed {
        return {};
      }
      closed, error := true, Some(terminalError);
      toSend := pending;
      taken := taken + map id | id in pending :: Ended(terminalError);
      byShutdown := pending;
      pending := {};
    }

    /** shutdown in one go: every pending request gets the error, then done is closed. */
    method Shutdown(terminalError: string)
      requires Inv(View(), maxPending) && (closed ==> done)
      modifies this
      ensures Inv(View(), maxPending) && closed && done && pending == {}
      ensures forall id :: id in old(pending) && !old(closed) ==>
          id in channels && channels[id] == Some(Ended(terminalError))
    {
      if closed {
        return;
      }
      var toSend := BeginShutdown(terminalError);
      ghost var all := toSend;
      while toSend != {}
        invariant Inv(View(), maxPending) && closed && toSend == byShutdown && toSend <= all
        invariant forall id :: id in toSend ==> id in taken && taken[id] == Ended(terminalError)
        invariant forall id :: id in all && id !in toSend ==>
                    id in channels && channels[id] == Some(Ended(terminalError))
        decreases |toSend|
      {
        var id := PickOne(toSend);
        toSend := toSend - {id};
        Send(id, Ended(terminalError));
      }
      FinishKeepsInv(View(), maxPending);
      assert Enabled(View(), Op.Finish, maxPending) && Do(View(), Op.Finish, maxPending) == View().(done := true);
      done := true;
    }

    /** awaitResponse, once something is ready: the result, or the terminal error. */
    method Await(id: int) returns (result: Option<Result>)
      requires Inv(View(), maxPending) && id in callers && callers[id].Awaiting?
      requires done || (id in channels && channels[id].Some?)
      modifies this
      ensures Inv(View(), maxPending)
      ensures result.Some? && Fits(result.value, id, error)
      ensures old(CanReceive(View(), id)) ==> View() == Received(old(View()), id) && result == old(channels[id])
      ensures !old(CanReceive(View(), id)) ==> old(CanSeeDone(View(), id)) && View() == SawDone(old(View()), id)
    {
      assert RequestOk(View(), id);
      if channels[id].Some? {
        CallerKeepsInv(View(), maxPending, Op.Receive(id));
        result := channels[id];
        channels := channels[id := None];
      } else {
        CallerKeepsInv(View(), maxPending, Op.SeeDone(id));
        result := Some(Ended(error.value));
      }
      callers := callers[id := Returned(result)];
    }

    method RemovePending(id: int)
      requires Inv(View(), maxPending) && id in callers && callers[id].Awaiting?
      modifies this
      ensures View() == GivenUp(old(View()), id) && Inv(View(), maxPending)
      ensures pending == old(pending) - {id} && channels == old(channels) && taken == old(taken)
    {
      assert RequestOk(View(), id);
      CallerKeepsInv(View(), maxPending, Op.GiveUp(id));
      pending := pending - {id};
      callers := callers[id := Returned(None)];
    }
  }
}
