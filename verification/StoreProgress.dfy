/** What the job store can always still do (internal/server/persistence_coordinator.go): no wake-up is lost, a
    stopped worker can finish and lets Close return, and a flush begun while the worker runs can succeed. These
    are statements about every reachable state; that somebody takes the steps is up to the scheduler. */
module StoreProgress {
  import opened Ordering
  import opened Jobs
  import opened Coordinator
  import opened StoreSystem
  import opened StoreGuarantees

  // ---- Wake-ups ----

  /** A publication has been made, and its wake-up comes next. */
  predicate AboutToWake(m: Mutator) { m.Holding? && m.stage.Waking? }

  /** Whenever something was published that no save has tried yet, the worker is at it or has been or will be
      told. */
  ghost predicate Awake(s: Sys) {
    s.coord.pendingRevision > s.coord.attemptRevision ==>
      match s.worker
      case Idle => s.coord.wake || AboutToWake(s.mutator)
      case Rewaking(_, newer) => newer || s.coord.wake || AboutToWake(s.mutator)
      case Exited => false
      case _ => true
  }

  lemma WorkerKeepsAwake(s: Sys, step: WorkerStep)
    requires Invariant(s) && Awake(s) && WorkerExec(s, step).Some?
    ensures Awake(WorkerExec(s, step).value)
  {
    hide Content, Memory, History, Sound, Lifecycle, FlushersOk, Disk;
  }

  lemma MutatorKeepsAwake(s: Sys, step: MutatorStep)
    requires Invariant(s) && Awake(s) && MutatorExec(s, step).Some?
    ensures Awake(MutatorExec(s, step).value)
  {
    hide Content, Memory, History, Sound, FlushersOk, Disk, StepFlusher, Flushed, Apply, Applies, Admissible;
    hide TakeSnapshot, Durable;
    if step.Flush? && s.mutator.Holding? && s.mutator.stage.Flushing? {
      var Flushing(flusher, before, undoing) := s.mutator.stage;
      FlusherTouchesOnlyItsToken(s.coord, flusher, step.pick);
      var (coord, next) := StepFlusher(s.coord, flusher, step.pick).value;
      FlushedKeepsDisk(s.(coord := coord), next, before, undoing);
    }
  }

  lemma ClientKeepsAwake(s: Sys, step: ClientStep)
    requires Awake(s) && ClientExec(s, step).Some?
    ensures Awake(ClientExec(s, step).value)
  {
    hide ClientExec;
    ClientKeepsCore(s, step);
  }

  lemma StepKeepsAwake(s: Sys, step: Step)
    requires Invariant(s) && Awake(s) && Exec(s, step).Some?
    ensures Awake(Exec(s, step).value)
  {
    hide Invariant, Awake, MutatorExec, WorkerExec, ClientExec;
    match step
    case M(m) => MutatorKeepsAwake(s, m);
    case W(w) => WorkerKeepsAwake(s, w);
    case C(c) => ClientKeepsAwake(s, c);
  }

  lemma {:induction false} AwakeHolds(s: Sys, schedule: seq<Step>, t: Sys)
    requires Invariant(s) && Awake(s) && Reaches(s, schedule, t)
    ensures Awake(t)
    decreases |schedule|
  {
    hide Invariant, Awake, Exec;
    if schedule != [] {
      StepKeepsAwake(s, schedule[0]);
      StepKeepsInvariant(s, schedule[0]);
      AwakeHolds(Exec(s, schedule[0]).value, schedule[1..], t);
    }
  }

  /** No wake-up is lost: while a published revision is untried and its publisher is past waking, a worker that
      rests can take the wake-up, and one that is gone is not left with such a revision. */
  lemma NoLostWakeup(s: Sys, schedule: seq<Step>, t: Sys)
    requires Started(s, schedule, t)
    requires t.coord.pendingRevision > t.coord.attemptRevision && !AboutToWake(t.mutator)
    ensures !t.worker.Exited?
    ensures t.worker.Idle? ==>
      && Exec(t, W(Take(WakeSignal))).Some? && Exec(t, W(Take(WakeSignal))).value.worker.Debouncing?
      && Exec(Exec(t, W(Take(WakeSignal))).value, W(Take(Timer))).Some?
  {
    hide Reaches, Restore, Kept, TakeSnapshot;
    InitIsInvariant(s);
    hide Invariant;
    AwakeHolds(s, schedule, t);
  }

  // ---- The worker by itself ----

  /** What the worker's own steps leave as it is. */
  ghost predicate WorkerOnly(s: Sys, t: Sys) {
    && t == s.(coord := t.coord, worker := t.worker, possible := t.possible)
    && t.coord.pending == s.coord.pending && t.coord.pendingRevision == s.coord.pendingRevision
    && t.coord.closed == s.coord.closed && t.coord.stop == s.coord.stop && t.coord.flush == s.coord.flush
    && s.coord.attemptCount <= t.coord.attemptCount
    && (s.coord.attemptCount == t.coord.attemptCount ==> s.coord.writtenRevision == t.coord.writtenRevision)
  }

  /** The step that takes the worker on without waiting for anybody, its save succeeding. */
  function Onward(w: Worker): WorkerStep {
    match w
    case Debouncing => Take(Timer)
    case Capturing(_) => Capture
    case Saving(_, _, _) => Save(true)
    case Saved(_, _, _) => WorkerStep.Record
    case _ => Rewake
  }

  function Distance(w: Worker): nat {
    match w
    case Debouncing => 5
    case Capturing(_) => 4
    case Saving(_, _, _) => 3
    case Saved(_, _, _) => 2
    case Rewaking(_, _) => 1
    case _ => 0
  }

  predicate LastPass(w: Worker) {
    match w
    case Capturing(final) => final
    case Saving(final, _, _) => final
    case Saved(final, _, _) => final
    case Rewaking(final, _) => final
    case Exited => true
    case _ => false
  }

  /** This pass of the worker leaves everything pending written. */
  predicate WritesAll(s: Sys) {
    match s.worker
    case Debouncing => true
    case Capturing(_) => true
    case Saving(_, rev, _) => rev == s.coord.pendingRevision
    case Saved(_, rev, err) => rev == s.coord.pendingRevision && err.None?
    case _ => s.coord.writtenRevision == s.coord.pendingRevision
  }

  lemma OnwardMoves(s: Sys)
    requires Invariant(s) && Distance(s.worker) > 0
    ensures WorkerExec(s, Onward(s.worker)).Some?
    ensures var t := WorkerExec(s, Onward(s.worker)).value;
      && WorkerOnly(s, t) && Distance(t.worker) < Distance(s.worker)
      && LastPass(t.worker) == LastPass(s.worker) && (WritesAll(s) ==> WritesAll(t))
  {
    hide Content, Memory, History, Sound, Lifecycle, FlushersOk, Disk, WritesAll;
    OnwardWrites(s);
  }

  lemma OnwardWrites(s: Sys)
    requires Invariant(s) && Distance(s.worker) > 0 && WorkerExec(s, Onward(s.worker)).Some?
    ensures WritesAll(s) ==> WritesAll(WorkerExec(s, Onward(s.worker)).value)
  {
    hide Content, Memory, History, Sound, Lifecycle, FlushersOk, Disk, LastPass;
  }

  lemma {:induction false} WorkerRests(s: Sys) returns (schedule: seq<Step>, t: Sys)
    requires Invariant(s)
    ensures Reaches(s, schedule, t) && Invariant(t) && WorkerOnly(s, t)
    ensures if LastPass(s.worker) then t.worker.Exited? else t.worker.Idle?
    ensures WritesAll(s) ==> t.coord.writtenRevision == t.coord.pendingRevision
    decreases Distance(s.worker)
  {
    hide Invariant, WorkerExec, MutatorExec, ClientExec, Onward;
    if Distance(s.worker) == 0 {
      return [], s;
    }
    var step := W(Onward(s.worker));
    OnwardMoves(s);
    StepKeepsInvariant(s, step);
    var rest;
    rest, t := WorkerRests(Exec(s, step).value);
    schedule := [step] + rest;
    assert schedule[1..] == rest;
  }

  // ---- Schedules ----

  lemma OneStep(s: Sys, step: Step) returns (t: Sys)
    requires Invariant(s) && Exec(s, step).Some?
    ensures Exec(s, step) == Some(t) && Reaches(s, [step], t) && Invariant(t)
  {
    hide Invariant, Exec;
    StepKeepsInvariant(s, step);
    t := Exec(s, step).value;
    assert [step][1..] == [];
  }

  lemma {:induction false} Joined(s: Sys, a: seq<Step>, m: Sys, b: seq<Step>, t: Sys)
    requires Reaches(s, a, m) && Reaches(m, b, t)
    ensures Reaches(s, a + b, t)
    decreases |a|
  {
    hide Exec;
    if a == [] {
      assert a + b == b;
    } else {
      Joined(Exec(s, a[0]).value, a[1..], m, b, t);
      assert (a + b)[1..] == a[1..] + b;
    }
  }

  lemma WorkerOnlyJoins(s: Sys, m: Sys, t: Sys)
    requires WorkerOnly(s, m) && WorkerOnly(m, t)
    ensures WorkerOnly(s, t)
  {
  }

  lemma StopIsTaken(s: Sys)
    requires s.worker.Idle? && s.coord.stop
    ensures Exec(s, W(Take(StopSignal))).Some?
    ensures var t := Exec(s, W(Take(StopSignal))).value; WorkerOnly(s, t) && LastPass(t.worker)
  {
  }

  /** Once a close has signalled the worker, the worker by itself can finish, and then every close that waits
      for it can return. */
  lemma StoppedWorkerCanFinish(s: Sys) returns (schedule: seq<Step>, t: Sys)
    requires Invariant(s) && s.coord.stop
    ensures Reaches(s, schedule, t) && t.coord.done && WorkerOnly(s, t)
    ensures forall id :: id in s.closers && s.closers[id].WaitingDone? ==>
      Exec(t, C(AdvanceCloser(id, false))).Some?
  {
    hide Invariant, Exec, Reaches, WorkerOnly, LastPass;
    var first, rested := WorkerRests(s);
    StopStays(s, rested);
    if rested.worker.Exited? {
      schedule, t := first, rested;
    } else {
      StopIsTaken(rested);
      var told := OneStep(rested, W(Take(StopSignal)));
      var last;
      last, t := WorkerRests(told);
      Joined(s, first, rested, [W(Take(StopSignal))], told);
      Joined(s, first + [W(Take(StopSignal))], told, last, t);
      WorkerOnlyJoins(s, rested, told);
      WorkerOnlyJoins(s, told, t);
      schedule := first + [W(Take(StopSignal))] + last;
    }
    ExitedIsDone(t);
    ClosersCanReturn(s, t);
  }

  lemma StopStays(s: Sys, t: Sys)
    requires WorkerOnly(s, t)
    ensures t.coord.stop == s.coord.stop
  {
  }

  lemma ClosersCanReturn(s: Sys, t: Sys)
    requires WorkerOnly(s, t) && t.coord.done
    ensures forall id :: id in s.closers && s.closers[id].WaitingDone? ==>
      Exec(t, C(AdvanceCloser(id, false))).Some?
  {
  }

  lemma ExitedIsDone(s: Sys)
    requires Invariant(s) && s.worker.Exited?
    ensures s.coord.done
  {
  }

  // ---- Producers ----

  lemma OneLeaves(s: Sys)
    requires Lifecycle(s) && s.life.leaving > 0
    ensures Exec(s, M(Unregister)).Some?
    ensures var t := Exec(s, M(Unregister)).value;
      && t == s.(life := t.life) && t.life.closed == s.life.closed
      && t.life.leaving == s.life.leaving - 1 && t.life.waiting == s.life.waiting
  {
  }

  /** Once no producer waits for its turn or has it, the others can unregister, and then every close can go on to
      close the coordinator. */
  lemma {:induction false} ProducersCanLeave(s: Sys) returns (schedule: seq<Step>, t: Sys)
    requires Invariant(s) && s.life.waiting == 0 && s.mutator.Nobody?
    ensures Reaches(s, schedule, t) && t == s.(life := t.life) && t.life.producers == 0
    ensures forall id :: id in t.closers && t.closers[id].Draining? ==>
      && Exec(t, C(AdvanceCloser(id, false))).Some?
      && Exec(t, C(AdvanceCloser(id, false))).value.closers[id].Marking?
    decreases s.life.leaving
  {
    if s.life.leaving == 0 {
      return [], s;
    }
    hide Exec, Revisions, WorkerOk, Disk, Memory, History, Sound, FlushersOk;
    OneLeaves(s);
    StepKeepsInvariant(s, M(Unregister));
    var rest;
    rest, t := ProducersCanLeave(Exec(s, M(Unregister)).value);
    schedule := [M(Unregister)] + rest;
    assert schedule[1..] == rest;
  }

  // ---- A flush ----

  lemma FlusherMoves(s: Sys, id: nat, pick: Pick)
    requires id in s.flushers && StepFlusher(s.coord, s.flushers[id], pick).Some?
    ensures var (coord, next) := StepFlusher(s.coord, s.flushers[id], pick).value;
      Exec(s, C(AdvanceFlusher(id, pick))) == Some(s.(coord := coord, flushers := s.flushers[id := next]))
  {
    hide StepFlusher;
  }

  lemma Advanced(s: Sys, id: nat, pick: Pick) returns (t: Sys)
    requires Invariant(s) && id in s.flushers && StepFlusher(s.coord, s.flushers[id], pick).Some?
    ensures Reaches(s, [C(AdvanceFlusher(id, pick))], t) && Invariant(t)
    ensures var (coord, next) := StepFlusher(s.coord, s.flushers[id], pick).value;
      t == s.(coord := coord, flushers := s.flushers[id := next])
  {
    hide Invariant, Exec, Reaches, StepFlusher;
    FlusherMoves(s, id, pick);
    t := OneStep(s, C(AdvanceFlusher(id, pick)));
  }

  /** The flush is answered already, or it has signalled the worker and waits for an attempt. */
  ghost predicate Asked(s: Sys, t: Sys, id: nat) {
    && id in t.flushers && t == s.(coord := s.coord.(flush := t.coord.flush), flushers := t.flushers)
    && (|| t.flushers[id] == Answered(s.revision, None)
        || (&& t.flushers[id] == Waiting(s.revision, s.coord.attemptCount, s.coord.attemptCount)
            && t.coord.flush && s.coord.writtenRevision < s.revision))
  }

  lemma AskToFlush(s: Sys, id: nat) returns (schedule: seq<Step>, t: Sys)
    requires Invariant(s) && id !in s.flushers
    ensures Reaches(s, schedule, t) && Invariant(t) && Asked(s, t, id)
  {
    hide Invariant, Reaches, Exec;
    FlushCanBegin(s, id);
    var a := OneStep(s, C(OpenFlusher(id)));
    var b := Advanced(a, id, Changed);
    var go := [C(AdvanceFlusher(id, Changed))];
    schedule := [C(OpenFlusher(id))] + go;
    Joined(s, [C(OpenFlusher(id))], a, go, b);
    if s.revision == 0 {
      return schedule, b;
    }
    var c := Advanced(b, id, Changed);
    Joined(s, schedule, b, go, c);
    schedule := schedule + go;
    if s.coord.writtenRevision >= s.revision {
      return schedule, c;
    }
    t := Advanced(c, id, Changed);
    Joined(s, schedule, c, go, t);
    schedule := schedule + go;
  }

  lemma FlushCanBegin(s: Sys, id: nat)
    ensures Exec(s, C(OpenFlusher(id))) ==
      if id in s.flushers then None else Some(s.(flushers := s.flushers[id := Starting(s.revision)]))
  {
  }

  lemma FlushIsTaken(s: Sys)
    requires s.worker.Idle? && s.coord.flush
    ensures Exec(s, W(Take(FlushSignal))) == Some(s.(coord := s.coord.(flush := false), worker := Capturing(false)))
  {
  }

  lemma AllIsPending(s: Sys)
    requires Invariant(s) && !(s.mutator.Holding? && s.mutator.stage.Publishing?)
    ensures s.coord.pendingRevision == s.revision
  {
  }

  /** While the worker runs, a flush that begins once the last revision is published can succeed: some schedule,
      in which the disk works, answers it with nil. */
  lemma FlushCanSucceed(s: Sys, id: nat) returns (schedule: seq<Step>, t: Sys)
    requires Invariant(s) && id !in s.flushers && !LastPass(s.worker)
    requires !(s.mutator.Holding? && s.mutator.stage.Publishing?)
    ensures Reaches(s, schedule, t) && id in t.flushers && t.flushers[id] == Answered(s.revision, None)
  {
    hide Invariant, Exec, Reaches, LastPass;
    AllIsPending(s);
    var waiting;
    schedule, waiting := AskToFlush(s, id);
    if waiting.flushers[id].Answered? {
      return schedule, waiting;
    }
    var more, written := WorkerServes(waiting);
    Joined(s, schedule, waiting, more, written);
    schedule := schedule + more;
    var go := [C(AdvanceFlusher(id, Changed))];
    var looking := Advanced(written, id, Changed);
    Joined(s, schedule, written, go, looking);
    t := Advanced(looking, id, Changed);
    Joined(s, schedule + go, looking, go, t);
    schedule := schedule + go + go;
  }

  /** A running worker that has been signalled can write everything pending. */
  lemma WorkerServes(s: Sys) returns (schedule: seq<Step>, t: Sys)
    requires Invariant(s) && s.coord.flush && !LastPass(s.worker) && s.coord.writtenRevision < s.coord.pendingRevision
    ensures Reaches(s, schedule, t) && Invariant(t) && t.flushers == s.flushers
    ensures t.coord.writtenRevision == s.coord.pendingRevision && t.coord.attemptCount > s.coord.attemptCount
  {
    hide Invariant, Exec, Reaches, LastPass;
    var first, rested := WorkerRests(s);
    FlushIsTaken(rested);
    var told := OneStep(rested, W(Take(FlushSignal)));
    var last;
    last, t := WorkerRests(told);
    Joined(s, first, rested, [W(Take(FlushSignal))], told);
    Joined(s, first + [W(Take(FlushSignal))], told, last, t);
    schedule := first + [W(Take(FlushSignal))] + last;
  }
}
