/** The gate that lets one download at a time write a final output
    (internal/downloader/ffmpeg.go:16-24, 161-200).

    A gate is a channel holding one token and a count of the callers that refer to it; the table
    names the gates in use. Callers interleave between the atomic sections: entering the table,
    taking the token, giving up, and releasing. */
module OutputGate {

  datatype Gate = Gate(token: bool, refs: int)

  datatype Phase = Waiting(key: string, gate: nat) | Holding(key: string, gate: nat) | Finished

  /** `gates` is the heap: a gate dropped from the table stays there, unused. `callers` remembers
      where each call of acquireFinalOutput stands; it is bookkeeping, not part of the program. */
  datatype State = State(items: map<string, nat>, gates: map<nat, Gate>, next: nat, callers: map<nat, Phase>)

  const EMPTY := State(map[], map[], 0, map[])

  predicate Uses(p: Phase, g: nat) { !p.Finished? && p.gate == g }

  /** The callers that hold or wait for a gate. */
  function Users(callers: map<nat, Phase>, g: nat): set<nat> {
    set c | c in callers && Uses(callers[c], g)
  }

  predicate Holds(callers: map<nat, Phase>, c: nat, g: nat) {
    c in callers && callers[c].Holding? && callers[c].gate == g
  }

  ghost predicate Held(callers: map<nat, Phase>, g: nat) {
    exists c :: Holds(callers, c, g)
  }

  ghost predicate OneHolder(callers: map<nat, Phase>, g: nat) {
    forall c, d :: Holds(callers, c, g) && Holds(callers, d, g) ==> c == d
  }

  ghost predicate GateOk(gates: map<nat, Gate>, next: nat, callers: map<nat, Phase>, g: nat) {
    && g in gates && g < next
    && gates[g].refs == |Users(callers, g)| > 0
    && (gates[g].token <==> !Held(callers, g))
    && OneHolder(callers, g)
  }

  ghost predicate Inv(s: State) {
    && (forall c :: c in s.callers && !s.callers[c].Finished? ==>
          s.callers[c].key in s.items && s.items[s.callers[c].key] == s.callers[c].gate)
    && (forall k :: k in s.items ==> GateOk(s.gates, s.next, s.callers, s.items[k]))
    && (forall k, l :: k in s.items && l in s.items && s.items[k] == s.items[l] ==> k == l)
  }

  // ---------------------------------------------------------------- the atomic sections

  /** Find or make the gate of `key` and refer to it. */
  function Entered(s: State, c: nat, key: string): State {
    var found := key in s.items && s.items[key] in s.gates;
    var g := if found then s.items[key] else s.next;
    var gate := if found then s.gates[g] else Gate(true, 0);
    State(s.items[key := g], s.gates[g := gate.(refs := gate.refs + 1)], if found then s.next else s.next + 1,
          s.callers[c := Waiting(key, g)])
  }

  predicate CanTake(s: State, c: nat) {
    c in s.callers && s.callers[c].Waiting? && s.callers[c].gate in s.gates && s.gates[s.callers[c].gate].token
  }

  function Taken(s: State, c: nat): State
    requires CanTake(s, c)
  {
    var p := s.callers[c];
    s.(gates := s.gates[p.gate := s.gates[p.gate].(token := false)], callers := s.callers[c := Holding(p.key, p.gate)])
  }

  /** Stop referring to a gate, and drop it from the table with its last reference. */
  function Dropped(s: State, c: nat, token: bool): State
    requires c in s.callers && !s.callers[c].Finished? && s.callers[c].gate in s.gates
  {
    var p := s.callers[c];
    var gate := Gate(token, s.gates[p.gate].refs - 1);
    var items := if gate.refs == 0 then s.items - {p.key} else s.items;
    State(items, s.gates[p.gate := gate], s.next, s.callers[c := Finished])
  }

  predicate CanCancel(s: State, c: nat) {
    c in s.callers && s.callers[c].Waiting? && s.callers[c].gate in s.gates
  }

  /** The context ended first. */
  function Canceled(s: State, c: nat): State
    requires CanCancel(s, c)
  {
    Dropped(s, c, s.gates[s.callers[c].gate].token)
  }

  predicate CanRelease(s: State, c: nat) {
    c in s.callers && (s.callers[c].Finished? || (s.callers[c].Holding? && s.callers[c].gate in s.gates))
  }

  /** The release closure; sync.Once makes every call after the first do nothing. */
  function Released(s: State, c: nat): State
    requires CanRelease(s, c)
  {
    if s.callers[c].Finished? then s else Dropped(s, c, true)
  }

  ghost predicate Next(s: State, t: State) {
    exists c: nat ::
      || (c !in s.callers && exists key :: t == Entered(s, c, key))
      || (CanTake(s, c) && t == Taken(s, c))
      || (CanCancel(s, c) && t == Canceled(s, c))
      || (CanRelease(s, c) && t == Released(s, c))
  }

  // ---------------------------------------------------------------- every section keeps the invariant

  /** One caller moving to phase `p` changes only its own gates' users and holder. */
  lemma After(callers: map<nat, Phase>, c: nat, p: Phase, g: nat)
    ensures Uses(p, g) ==> Users(callers[c := p], g) == Users(callers, g) + {c}
    ensures !Uses(p, g) ==> Users(callers[c := p], g) == Users(callers, g) - {c}
    ensures Holds(callers[c := p], c, g) <==> p.Holding? && p.gate == g
    ensures forall d :: d != c ==> (Holds(callers[c := p], d, g) <==> Holds(callers, d, g))
  {
  }

  /** A gate that the caller neither leaves nor joins. */
  lemma OtherGate(s: State, t: State, c: nat, p: Phase, g: nat)
    requires GateOk(s.gates, s.next, s.callers, g)
    requires t.callers == s.callers[c := p] && !Uses(p, g) && !(c in s.callers && Uses(s.callers[c], g))
    requires g in t.gates && t.gates[g] == s.gates[g] && t.next >= s.next
    ensures GateOk(t.gates, t.next, t.callers, g)
  {
    After(s.callers, c, p, g);
    assert Users(t.callers, g) == Users(s.callers, g);
    hide Users;
    assert forall d :: Holds(t.callers, d, g) <==> Holds(s.callers, d, g);
    hide Holds;
  }

  lemma EnterKeepsInv(s: State, c: nat, key: string)
    requires Inv(s) && c !in s.callers
    ensures Inv(Entered(s, c, key))
  {
    hide GateOk;
    var t := Entered(s, c, key);
    EnteredGate(s, c, key);
    if key in s.items {
      GateIsOld(s, key);
    }
    forall k | k in t.items
      ensures GateOk(t.gates, t.next, t.callers, t.items[k])
      ensures k != key ==> t.items[k] != t.items[key]
    {
      if k != key {
        GateIsOld(s, k);
        OtherGate(s, t, c, t.callers[c], t.items[k]);
      }
    }
  }

  lemma GateIsOld(s: State, k: string)
    requires Inv(s) && k in s.items
    ensures s.items[k] in s.gates && s.items[k] < s.next
  {
  }

  lemma EnteredGate(s: State, c: nat, key: string)
    requires Inv(s) && c !in s.callers
    ensures var t := Entered(s, c, key); GateOk(t.gates, t.next, t.callers, t.items[key])
  {
    var t := Entered(s, c, key);
    var g := t.items[key];
    After(s.callers, c, Waiting(key, g), g);
    if key !in s.items {
      NoUsersYet(s);
    }
    hide Users;
    assert forall d :: Holds(t.callers, d, g) <==> Holds(s.callers, d, g);
    hide Holds;
  }

  lemma NoUsersYet(s: State)
    requires Inv(s)
    ensures Users(s.callers, s.next) == {} && !Held(s.callers, s.next)
  {
    forall c | c in s.callers && !s.callers[c].Finished?
      ensures s.callers[c].gate != s.next
    {
      GateIsOld(s, s.callers[c].key);
    }
  }

  lemma TakeKeepsInv(s: State, c: nat)
    requires Inv(s) && CanTake(s, c)
    ensures Inv(Taken(s, c))
  {
    hide GateOk;
    var t := Taken(s, c);
    TakenGate(s, c);
    forall k | k in t.items
      ensures GateOk(t.gates, t.next, t.callers, t.items[k])
    {
      if t.items[k] != s.callers[c].gate {
        GateIsOld(s, k);
        OtherGate(s, t, c, t.callers[c], t.items[k]);
      }
    }
  }

  lemma TakenGate(s: State, c: nat)
    requires Inv(s) && CanTake(s, c)
    ensures var t := Taken(s, c); GateOk(t.gates, t.next, t.callers, s.callers[c].gate)
  {
    var t := Taken(s, c);
    var g := s.callers[c].gate;
    assert GateOk(s.gates, s.next, s.callers, s.items[s.callers[c].key]);
    After(s.callers, c, t.callers[c], g);
    assert c in Users(s.callers, g);
    assert Users(t.callers, g) == Users(s.callers, g);
    hide Users;
    assert Holds(t.callers, c, g);
    assert forall d :: Holds(t.callers, d, g) && d != c ==> Holds(s.callers, d, g);
  }

  lemma DropKeepsInv(s: State, c: nat, token: bool)
    requires Inv(s) && c in s.callers && !s.callers[c].Finished? && s.callers[c].gate in s.gates
    requires token <==> s.callers[c].Holding? || s.gates[s.callers[c].gate].token
    ensures Inv(Dropped(s, c, token))
  {
    hide GateOk;
    var t := Dropped(s, c, token);
    var p := s.callers[c];
    DroppedGate(s, c, token);
    forall d | d in t.callers && !t.callers[d].Finished?
      ensures t.callers[d].key in t.items && t.items[t.callers[d].key] == t.callers[d].gate
    {
      assert d != c && t.callers[d] == s.callers[d];
      if t.callers[d].key == p.key {
        assert d in Users(t.callers, p.gate);
      }
    }
    forall k | k in t.items
      ensures GateOk(t.gates, t.next, t.callers, t.items[k])
    {
      if k != p.key {
        GateIsOld(s, k);
        OtherGate(s, t, c, Finished, t.items[k]);
      }
    }
  }

  lemma DroppedGate(s: State, c: nat, token: bool)
    requires Inv(s) && c in s.callers && !s.callers[c].Finished? && s.callers[c].gate in s.gates
    requires token <==> s.callers[c].Holding? || s.gates[s.callers[c].gate].token
    ensures var t := Dropped(s, c, token);
            var g := s.callers[c].gate;
            && t.gates[g].refs == |Users(t.callers, g)|
            && (t.gates[g].refs > 0 ==> GateOk(t.gates, t.next, t.callers, g))
  {
    var t := Dropped(s, c, token);
    var g := s.callers[c].gate;
    assert GateOk(s.gates, s.next, s.callers, s.items[s.callers[c].key]);
    After(s.callers, c, Finished, g);
    assert c in Users(s.callers, g);
    assert Users(t.callers, g) == Users(s.callers, g) - {c};
    hide Users;
    assert Holds(s.callers, c, g) <==> s.callers[c].Holding?;
    assert forall d :: Holds(t.callers, d, g) <==> Holds(s.callers, d, g) && d != c;
    hide Holds;
  }

  lemma NextKeepsInv(s: State, t: State)
    requires Inv(s) && Next(s, t)
    ensures Inv(t)
  {
    hide Inv;
    var c: nat :|
      || (c !in s.callers && exists key :: t == Entered(s, c, key))
      || (CanTake(s, c) && t == Taken(s, c))
      || (CanCancel(s, c) && t == Canceled(s, c))
      || (CanRelease(s, c) && t == Released(s, c));
    if c !in s.callers {
      var key :| t == Entered(s, c, key);
      EnterKeepsInv(s, c, key);
    } else if CanTake(s, c) && t == Taken(s, c) {
      TakeKeepsInv(s, c);
    } else if CanCancel(s, c) && t == Canceled(s, c) {
      DropKeepsInv(s, c, s.gates[s.callers[c].gate].token);
    } else if !s.callers[c].Finished? {
      DropKeepsInv(s, c, true);
    }
  }

  ghost predicate Run(states: seq<State>) {
    && states != [] && states[0] == EMPTY
    && forall i :: 0 < i < |states| ==> Next(states[i - 1], states[i])
  }

  lemma {:induction false} InvariantHolds(states: seq<State>, i: nat)
    requires Run(states) && i < |states|
    ensures Inv(states[i])
  {
    if i > 0 {
      InvariantHolds(states, i - 1);
      NextKeepsInv(states[i - 1], states[i]);
    }
  }

  // ---------------------------------------------------------------- what callers rely on

  /** At most one caller holds the gate of a key. */
  lemma MutualExclusion(states: seq<State>, i: nat, c: nat, d: nat)
    requires Run(states) && i < |states|
    requires c in states[i].callers && d in states[i].callers
    requires states[i].callers[c].Holding? && states[i].callers[d].Holding?
    requires states[i].callers[c].key == states[i].callers[d].key
    ensures c == d
  {
    InvariantHolds(states, i);
    var callers := states[i].callers;
    assert GateOk(states[i].gates, states[i].next, callers, states[i].items[callers[c].key]);
    assert Holds(callers, c, callers[c].gate) && Holds(callers, d, callers[c].gate);
  }

  /** A key is in the table exactly while somebody holds or waits for it. */
  lemma TableIsExact(states: seq<State>, i: nat, key: string)
    requires Run(states) && i < |states|
    ensures var s := states[i];
            key in s.items <==> exists c :: c in s.callers && !s.callers[c].Finished? && s.callers[c].key == key
  {
    InvariantHolds(states, i);
    var s := states[i];
    if key in s.items {
      var g := s.items[key];
      assert GateOk(s.gates, s.next, s.callers, g);
      var c :| c in Users(s.callers, g);
      assert s.items[s.callers[c].key] == g;
    }
  }

  /** The token is there exactly when nobody holds the gate: a holder's release finds the channel
      empty and never blocks, and when a gate has only waiters, every one of them could take it. */
  lemma TokenIsExact(states: seq<State>, i: nat, c: nat)
    requires Run(states) && i < |states| && c in states[i].callers
    ensures var s := states[i];
            && (s.callers[c].Holding? ==>
                s.callers[c].gate in s.gates && !s.gates[s.callers[c].gate].token && CanRelease(s, c))
            && (s.callers[c].Waiting? ==> (CanTake(s, c) <==> !Held(s.callers, s.callers[c].gate)) && CanCancel(s, c))
  {
    InvariantHolds(states, i);
    var s := states[i];
    if !s.callers[c].Finished? {
      assert GateOk(s.gates, s.next, s.callers, s.items[s.callers[c].key]);
      assert s.callers[c].Holding? ==> Holds(s.callers, c, s.callers[c].gate);
    }
  }

  // ---------------------------------------------------------------- the program

  class FinalOutputGates {
    var items: map<string, nat>
    var gates: map<nat, Gate>
    var next: nat
    ghost var callers: map<nat, Phase>

    ghost function View(): State
      reads this
    {
      State(items, gates, next, callers)
    }

    constructor ()
      ensures View() == EMPTY
    {
      items, gates, next, callers := map[], map[], 0, map[];
    }

    /** The first locked section of acquireFinalOutput. */
    method Enter(ghost c: nat, key: string) returns (gate: nat)
      requires Inv(View()) && c !in callers
      modifies this
      ensures View() == Entered(old(View()), c, key) && Inv(View()) && gate == View().items[key]
    {
      hide Inv;
      EnterKeepsInv(View(), c, key);
      if key in items {
        GateIsOld(View(), key);
      }
      if key in items {
        gate := items[key];
      } else {
        gate := next;
        next := next + 1;
        gates := gates[gate := Gate(true, 0)];
        items := items[key := gate];
      }
      gates := gates[gate := gates[gate].(refs := gates[gate].refs + 1)];
      callers := callers[c := Waiting(key, gate)];
      assert items == old(items)[key := gate];
    }

    /** The select received the token. */
    method Take(ghost c: nat, gate: nat)
      requires Inv(View()) && CanTake(View(), c) && callers[c].gate == gate
      modifies this
      ensures View() == Taken(old(View()), c) && Inv(View())
    {
      TakeKeepsInv(View(), c);
      gates := gates[gate := gates[gate].(token := false)];
      callers := callers[c := Holding(callers[c].key, gate)];
    }

    /** The select saw the context end. */
    method Cancel(ghost c: nat, key: string, gate: nat)
      requires Inv(View()) && CanCancel(View(), c) && callers[c] == Waiting(key, gate)
      modifies this
      ensures View() == Canceled(old(View()), c) && Inv(View())
    {
      DropKeepsInv(View(), c, gates[gate].token);
      gates := gates[gate := gates[gate].(refs := gates[gate].refs - 1)];
      if gates[gate].refs == 0 {
        items := items - {key};
      }
      callers := callers[c := Finished];
    }

    /** The release closure; `done` is its sync.Once. */
    method Release(ghost c: nat, key: string, gate: nat, done: bool) returns (nowDone: bool)
      requires Inv(View()) && c in callers
      requires if done then callers[c].Finished? else callers[c] == Holding(key, gate)
      modifies this
      ensures old(CanRelease(View(), c)) && View() == Released(old(View()), c) && Inv(View()) && nowDone
      ensures !done ==> !old(gates[gate].token)
    {
      if done {
        return true;
      }
      assert GateOk(gates, next, callers, items[key]);
      assert Holds(callers, c, gate);
      DropKeepsInv(View(), c, true);
      gates := gates[gate := gates[gate].(token := true)];
      gates := gates[gate := gates[gate].(refs := gates[gate].refs - 1)];
      if gates[gate].refs == 0 {
        items := items - {key};
      }
      callers := callers[c := Finished];
      return true;
    }
  }
}
