/** The durable job store as one concurrent system (internal/server/store.go, store_lifecycle.go,
    store_persistence.go, persistence_coordinator.go): producers, external flushers and closers, the
    coordinator, its worker and the disk, interleaved at every point where a lock is released or a
    channel is used. The job-level effect of each mutation is Jobs.Apply; the critical sections of the
    coordinator are the functions of Coordinator; `possible` holds the revisions that a crash could leave in
    the live file, as far as the store can tell. StoreOnDisk relates it to the file writer. */
module StoreSystem {
  import opened Ordering
  import opened Jobs
  import opened Coordinator

  // ---- flushTo, one lock region at a time ----

  datatype Flusher =
    | Starting(revision: nat)
    | Looking(revision: nat, initial: nat)
    | Signalling(revision: nat, initial: nat, seen: nat)
    | Waiting(revision: nat, initial: nat, seen: nat)
    | Answered(revision: nat, err: Option<Error>)

  datatype Pick = Changed | WorkerGone | GiveUp

  function StepFlusher(c: Coord<Snapshot>, f: Flusher, pick: Pick): Option<(Coord<Snapshot>, Flusher)> {
    match f
    case Starting(r) => Some((c, if r == 0 then Answered(r, None) else Looking(r, c.attemptCount)))
    case Looking(r, initial) =>
      (match LookFor(c, r, initial)
       case Answer(err) => Some((c, Answered(r, err)))
       case Wait => Some((c, Signalling(r, initial, c.attemptCount))))
    case Signalling(r, initial, seen) => Some((c.(flush := true), Waiting(r, initial, seen)))
    case Waiting(r, initial, seen) =>
      (match pick
       case Changed => if c.attemptCount > seen then Some((c, Looking(r, initial))) else None
       case WorkerGone => if c.done then Some((c, Answered(r, AnswerWhenDone(c, r)))) else None
       case GiveUp => Some((c, Answered(r, Some(ContextDone)))))
    case Answered(_, _) => None
  }

  // ---- State ----

  datatype Outcome = NoChange | Committed | RolledBack(undo: Option<Error>)

  /** Where the holder of mutationMu stands. `before` is the captured pre-state of a durable mutation. */
  datatype Stage =
    | Entered
    | Publishing(rev: nat, snapshot: Snapshot, before: Option<State>, undoing: bool)
    | Waking(rev: nat, before: Option<State>, undoing: bool)
    | Flushing(flusher: Flusher, before: Option<State>, undoing: bool)
    | RollingBack(before: Option<State>)
    | Returning(outcome: Outcome)

  datatype Mutator = Nobody | Holding(op: Op, stage: Stage)

  datatype Worker =
    | Idle
    | Debouncing
    | Capturing(final: bool)
    | Saving(final: bool, rev: nat, snapshot: Snapshot)
    | Saved(final: bool, rev: nat, err: Option<Error>)
    | Rewaking(final: bool, newer: bool)
    | Exited

  datatype Closer = Draining(generation: nat) | Marking | Stopping | WaitingDone | Returned(err: Option<Error>)

  /** store_lifecycle.go: registered producers, which producersDone channel is current and whether it is
      closed, and the registered producers that do not hold mutationMu (before and after their turn). */
  datatype Life = Life(closed: bool, producers: nat, generation: nat, drained: bool, waiting: nat, leaving: nat)

  /** History, for stating properties only: the file and state at start, the committed mutations, those
      behind each issued revision, and the longest history a durable mutator has reported as saved. */
  datatype Past = Past(
    file: Snapshot, origin: State,
    log: seq<Op>, logs: seq<seq<Op>>,
    acked: seq<Op>, ackedRevision: nat)

  datatype Sys = Sys(
    life: Life,
    mem: State, revision: nat, mutator: Mutator,
    coord: Coord<Snapshot>, worker: Worker,
    possible: set<nat>,             // what a crash could leave, by revision; 0 is the file at start
    flushers: map<nat, Flusher>, closers: map<nat, Closer>,
    past: Past)

  ghost function Run(origin: State, log: seq<Op>): State {
    if log == [] then origin
    else
      var s := Run(origin, log[..|log| - 1]);
      var op := log[|log| - 1];
      if Applies(op, s) then Apply(op, s) else s
  }

  /** What the live file holds when it holds revision k. */
  ghost function Content(p: Past, k: nat): Snapshot {
    if 0 < k <= |p.logs| then TakeSnapshot(Run(p.origin, p.logs[k - 1]).jobs) else p.file
  }

  /** Readers take visibilityMu: they wait while a durable mutation is between its guards and its return. */
  predicate VisibilityHeld(s: Sys) {
    s.mutator.Holding? && Durable(s.mutator.op) && !s.mutator.stage.Returning?
  }

  // ---- Steps ----

  datatype MutatorStep =
    | Begin | Acquire(op: Op) | Mutate | Publish | Wake | Flush(pick: Pick) | RollBack | Leave | Unregister
  datatype Signal = StopSignal | FlushSignal | WakeSignal | Timer
  datatype WorkerStep = Take(signal: Signal) | Capture | Save(ok: bool) | Record | Rewake
  datatype ClientStep =
    | OpenFlusher(id: nat) | AdvanceFlusher(id: nat, pick: Pick)
    | OpenCloser(id: nat) | AdvanceCloser(id: nat, cancel: bool)
  datatype Step = M(m: MutatorStep) | W(w: WorkerStep) | C(c: ClientStep)

  ghost function MutatorExec(s: Sys, step: MutatorStep): Option<Sys> {
    match step
    case Begin =>
      if s.life.closed then None else Some(s.(life := Registered(s.life)))
    case Acquire(op) =>
      if s.life.waiting == 0 || s.mutator.Holding? || !InRange(op.now) then None
      else Some(s.(life := s.life.(waiting := s.life.waiting - 1), mutator := Holding(op, Entered)))
    case Unregister =>
      if s.life.leaving == 0 || s.life.producers == 0 then None
      else
        var producers := s.life.producers - 1;
        Some(s.(life := s.life.(leaving := s.life.leaving - 1, producers := producers, drained := producers == 0)))
    case _ => if s.mutator.Nobody? then None else HolderExec(s, step)
  }

  /** One more producer; the first one opens a new producersDone channel. */
  function Registered(life: Life): Life {
    var generation := if life.producers == 0 then life.generation + 1 else life.generation;
    life.(producers := life.producers + 1, waiting := life.waiting + 1, drained := false, generation := generation)
  }

  ghost function HolderExec(s: Sys, step: MutatorStep): Option<Sys>
    requires s.mutator.Holding?
  {
    var op := s.mutator.op;
    match (step, s.mutator.stage)
    case (Mutate, Entered) =>
      if !Applies(op, s.mem) then Some(At(s, Returning(NoChange)))
      else if !Admissible(op, s.mem) then None
      else
        var next := Apply(op, s.mem);
        var log := s.past.log + [op];
        var past := s.past.(logs := s.past.logs + [log], log := if Durable(op) then s.past.log else log);
        var before := if Durable(op) then Some(s.mem) else None;
        Some(At(s.(mem := next, revision := s.revision + 1, past := past),
                Publishing(s.revision + 1, TakeSnapshot(next.jobs), before, false)))
    case (Publish, Publishing(rev, snapshot, before, undoing)) =>
      if !s.coord.closed then
        Some(At(s.(coord := Coordinator.Publish(s.coord, rev, snapshot)), Waking(rev, before, undoing)))
      else
        Some(At(s, if undoing then Returning(RolledBack(Some(PersistenceClosed)))
                   else if before.Some? then RollingBack(before)
                   else Returning(Committed)))
    case (Wake, Waking(rev, before, undoing)) =>
      Some(At(s.(coord := s.coord.(wake := true)),
              if undoing || before.Some? then Flushing(Starting(rev), before, undoing) else Returning(Committed)))
    case (Flush(pick), Flushing(flusher, before, undoing)) =>
      if pick.GiveUp? then None
      else (match StepFlusher(s.coord, flusher, pick)
            case None => None
            case Some((coord, next)) => Some(Flushed(s.(coord := coord), next, before, undoing)))
    case (RollBack, RollingBack(before)) =>
      if before.None? then None
      else
        var past := s.past.(logs := s.past.logs + [s.past.log]);
        Some(At(s.(mem := before.value, revision := s.revision + 1, past := past),
                Publishing(s.revision + 1, TakeSnapshot(before.value.jobs), None, true)))
    case (Leave, Returning(_)) => Some(s.(mutator := Nobody, life := s.life.(leaving := s.life.leaving + 1)))
    case _ => None
  }

  function At(s: Sys, stage: Stage): Sys
    requires s.mutator.Holding?
  {
    s.(mutator := Holding(s.mutator.op, stage))
  }

  /** What the mutator does with the answer of its flush: commit, roll back, or finish the rollback. */
  function Flushed(s: Sys, f: Flusher, before: Option<State>, undoing: bool): Sys
    requires s.mutator.Holding?
  {
    if !f.Answered? then At(s, Flushing(f, before, undoing))
    else if undoing then At(s, Returning(RolledBack(f.err)))
    else if f.err.Some? then At(s, RollingBack(before))
    else
      var log := s.past.log + [s.mutator.op];
      At(s.(past := s.past.(log := log, acked := log, ackedRevision := f.revision)), Returning(Committed))
  }

  function WorkerExec(s: Sys, step: WorkerStep): Option<Sys> {
    match (step, s.worker)
    case (Take(signal), Idle) => if signal == Timer then None else TakeSignal(s, signal)
    case (Take(signal), Debouncing) => TakeSignal(s, signal)
    case (Capture, Capturing(final)) =>
      (match Latest(s.coord)
       case None => Some(EndPass(s, final))
       case Some((rev, snapshot)) =>
         Some(s.(worker := Saving(final, rev, snapshot), possible := s.possible + {rev})))
    case (Save(ok), Saving(_, _, _)) => Some(AfterSave(s, ok))
    case (Record, Saved(final, rev, err)) =>
      var newer := s.coord.pendingRevision > rev;
      Some(s.(coord := Coordinator.Record(s.coord, rev, err), worker := Rewaking(final, newer)))
    case (Rewake, Rewaking(final, newer)) =>
      Some(EndPass(s.(coord := s.coord.(wake := s.coord.wake || newer)), final))
    case _ => None
  }

  function AfterSave(s: Sys, ok: bool): Sys
    requires s.worker.Saving?
  {
    var Saving(final, rev, _) := s.worker;
    if ok then s.(worker := Saved(final, rev, None), possible := {rev})
    else s.(worker := Saved(final, rev, Some(SaveFailed)))
  }

  function TakeSignal(s: Sys, signal: Signal): Option<Sys> {
    match signal
    case StopSignal => if s.coord.stop then Some(s.(worker := Capturing(true))) else None
    case FlushSignal =>
      if s.coord.flush then Some(s.(coord := s.coord.(flush := false), worker := Capturing(false))) else None
    case WakeSignal =>
      if s.coord.wake then Some(s.(coord := s.coord.(wake := false), worker := Debouncing)) else None
    case Timer => Some(s.(worker := Capturing(false)))
  }

  function EndPass(s: Sys, final: bool): Sys {
    if final then s.(worker := Exited, coord := s.coord.(done := true)) else s.(worker := Idle)
  }

  function ClientExec(s: Sys, step: ClientStep): Option<Sys> {
    match step
    case OpenFlusher(id) =>
      if id in s.flushers then None else Some(s.(flushers := s.flushers[id := Starting(s.revision)]))
    case AdvanceFlusher(id, pick) =>
      if id !in s.flushers then None
      else (match StepFlusher(s.coord, s.flushers[id], pick)
            case None => None
            case Some((coord, next)) => Some(s.(coord := coord, flushers := s.flushers[id := next])))
    case OpenCloser(id) =>
      if id in s.closers then None
      else Some(CloserAt(s.(life := s.life.(closed := true)), id, Draining(s.life.generation)))
    case AdvanceCloser(id, cancel) => if id !in s.closers then None else CloserExec(s, id, cancel)
  }

  function CloserExec(s: Sys, id: nat, cancel: bool): Option<Sys>
    requires id in s.closers
  {
    match s.closers[id]
    case Draining(generation) =>
      if cancel then Some(CloserAt(s, id, Returned(Some(ContextDone))))
      else if generation < s.life.generation || s.life.drained then Some(CloserAt(s, id, Marking)) else None
    case Marking => Some(CloserAt(s.(coord := s.coord.(closed := true)), id, Stopping))
    case Stopping => Some(CloserAt(s.(coord := s.coord.(stop := true)), id, WaitingDone))
    case WaitingDone =>
      if cancel then Some(CloserAt(s, id, Returned(Some(ContextDone))))
      else if s.coord.done then Some(CloserAt(s, id, Returned(s.coord.lastErr))) else None
    case Returned(_) => None
  }

  function CloserAt(s: Sys, id: nat, closer: Closer): Sys {
    s.(closers := s.closers[id := closer])
  }

  ghost function Exec(s: Sys, step: Step): Option<Sys> {
    match step
    case M(m) => MutatorExec(s, m)
    case W(w) => WorkerExec(s, w)
    case C(c) => ClientExec(s, c)
  }

  /** NewJobStoreWithPersistence: restore the file and, when that changed anything, publish revision 1. */
  ghost predicate Init(s: Sys) {
    && WellFormed(s.past.file) && s.past.origin == Restore(s.past.file) && s.mem == s.past.origin
    && s.life == Life(false, 0, 0, true, 0, 0) && s.mutator == Nobody
    && s.worker == Idle && s.possible == {0} && s.flushers == map[] && s.closers == map[]
    && s.past.log == s.past.acked == [] && s.past.ackedRevision == 0
    && (Kept(s.past.file) == s.past.file ==> s.revision == 0 && s.past.logs == [] && s.coord == NewCoord())
    && (Kept(s.past.file) != s.past.file ==> s.revision == 1 && s.past.logs == [[]])
    && (Kept(s.past.file) != s.past.file ==>
          s.coord == Coordinator.Publish(NewCoord(), 1, TakeSnapshot(s.past.origin.jobs)).(wake := true))
  }

  /** Every interleaving: the states that some schedule of steps reaches. */
  ghost predicate Reaches(s: Sys, schedule: seq<Step>, t: Sys)
    decreases |schedule|
  {
    if schedule == [] then s == t
    else match Exec(s, schedule[0])
      case None => false
      case Some(next) => Reaches(next, schedule[1..], t)
  }

  // ---- Invariant, in parts ----

  ghost predicate Lifecycle(s: Sys) {
    && s.life.producers == s.life.waiting + s.life.leaving + (if s.mutator.Nobody? then 0 else 1)
    && (s.life.drained <==> s.life.producers == 0)
    && (s.coord.closed ==> s.life.closed && s.life.producers == 0)
    && (s.coord.stop ==> s.coord.closed)
    && (forall id :: id in s.closers ==> s.life.closed && CloserOk(s, s.closers[id]))
  }

  ghost predicate CloserOk(s: Sys, c: Closer) {
    match c
    case Draining(generation) => generation == s.life.generation
    case Marking => s.life.producers == 0
    case Stopping => s.coord.closed
    case WaitingDone => s.coord.stop
    case Returned(err) => (err.Some? && err.value == ContextDone) || (s.coord.done && err == s.coord.lastErr)
  }

  ghost predicate Revisions(s: Sys) {
    && Ordered(s.coord)
    && |s.past.logs| == s.revision
    && s.coord.pendingRevision == s.revision - (if s.mutator.Holding? && s.mutator.stage.Publishing? then 1 else 0)
    && (s.coord.pending.Some? ==> s.coord.pending.value == Content(s.past, s.coord.pendingRevision))
    && (s.mutator.Holding? ==> StageRevision(s, s.mutator.stage))
  }

  ghost predicate StageRevision(s: Sys, stage: Stage) {
    match stage
    case Publishing(rev, snapshot, _, _) => rev == s.revision > 0 && snapshot == Content(s.past, rev)
    case Waking(rev, _, _) => rev == s.revision > 0
    case Flushing(f, _, _) => f.revision == s.revision > 0
    case RollingBack(_) => s.revision > 0
    case _ => true
  }

  ghost predicate Settled(c: Coord<Snapshot>) {
    c.writtenRevision == c.pendingRevision || (c.lastErr.Some? && c.attemptRevision == c.pendingRevision)
  }

  ghost predicate WorkerOk(s: Sys) {
    && (s.worker.Exited? <==> s.coord.done)
    && (match s.worker
        case Capturing(final) => final ==> s.coord.stop
        case Saving(final, rev, snapshot) => WriteOk(s, final, rev) && snapshot == Content(s.past, rev)
        case Saved(final, rev, err) =>
          && WriteOk(s, final, rev)
          && (err.None? ==> s.possible == {rev})
          && (err.Some? ==> err.value == SaveFailed)
        case Rewaking(final, _) => final ==> s.coord.stop && Settled(s.coord)
        case Exited => s.coord.stop && Settled(s.coord)
        case _ => true)
    && (s.coord.lastErr.Some? ==> s.coord.lastErr.value == SaveFailed)
  }

  ghost predicate WriteOk(s: Sys, final: bool, rev: nat) {
    && s.coord.writtenRevision < rev && s.coord.attemptRevision <= rev <= s.coord.pendingRevision
    && rev in s.possible
    && (final ==> s.coord.stop && rev == s.coord.pendingRevision)
  }

  /** Everything a crash may leave is at least what was reported written and at most what was attempted. */
  ghost predicate Disk(s: Sys) {
    && s.possible != {}
    && (forall k :: k in s.possible ==> s.coord.writtenRevision <= k <= Top(s))
  }

  function Top(s: Sys): nat {
    if s.worker.Saving? || s.worker.Saved? then s.worker.rev else s.coord.attemptRevision
  }

  /** Memory holds exactly the committed mutations, plus the one in flight while nobody can look. */
  ghost predicate Memory(s: Sys) {
    match s.mutator
    case Nobody => s.mem == Run(s.past.origin, s.past.log)
    case Holding(op, stage) => StageMemory(s, op, stage)
  }

  ghost predicate StageMemory(s: Sys, op: Op, stage: Stage) {
    match stage
    case Entered => s.mem == Run(s.past.origin, s.past.log)
    case Publishing(_, _, before, undoing) => Uncommitted(s, op, before, undoing)
    case Waking(_, before, undoing) => Uncommitted(s, op, before, undoing)
    case Flushing(_, before, undoing) => (undoing || before.Some?) && Uncommitted(s, op, before, undoing)
    case RollingBack(before) => before.Some? && Uncommitted(s, op, before, false)
    case Returning(outcome) =>
      && s.mem == Run(s.past.origin, s.past.log)
      && (outcome.RolledBack? && outcome.undo.None? ==>
            s.coord.writtenRevision == s.revision && LastLog(s, s.past.log))
      && (outcome.Committed? && Durable(op) ==>
            s.past.acked == s.past.log && s.past.log != [] && s.past.log[|s.past.log| - 1] == op)
  }

  ghost predicate LastLog(s: Sys, log: seq<Op>) {
    s.revision > 0 && |s.past.logs| == s.revision && s.past.logs[s.revision - 1] == log
  }

  ghost predicate Uncommitted(s: Sys, op: Op, before: Option<State>, undoing: bool) {
    if before.Some? then
      && !undoing && Durable(op)
      && before.value == Run(s.past.origin, s.past.log) && Applies(op, before.value) && Admissible(op, before.value)
      && s.mem == Apply(op, before.value) && s.mem == Run(s.past.origin, s.past.log + [op])
      && LastLog(s, s.past.log + [op])
    else
      s.mem == Run(s.past.origin, s.past.log) && LastLog(s, s.past.log) && (undoing || !Durable(op))
  }

  /** Each issued revision carries committed mutations and at most one more at the end; every one at or
      after the last acknowledged revision carries everything acknowledged. */
  ghost predicate History(s: Sys) {
    && s.past.acked <= s.past.log && s.past.ackedRevision <= s.coord.writtenRevision
    && (s.past.ackedRevision == 0 ==> s.past.acked == [])
    && (forall k :: 0 <= k < |s.past.logs| ==> Extends(s.past.logs[k], s.past.log))
    && (forall k :: 0 <= k < |s.past.logs| && s.past.ackedRevision <= k + 1 ==> s.past.acked <= s.past.logs[k])
  }

  predicate Extends(log: seq<Op>, committed: seq<Op>) {
    log <= committed || (log != [] && log[..|log| - 1] <= committed)
  }

  /** Every state the file may describe satisfies the job-level invariant. */
  ghost predicate Sound(s: Sys) {
    && WellFormed(s.past.file) && s.past.origin == Restore(s.past.file)
    && Inv(Run(s.past.origin, s.past.log))
    && (forall k :: 0 <= k < |s.past.logs| ==> Inv(Run(s.past.origin, s.past.logs[k])))
  }

  ghost predicate FlushersOk(s: Sys) {
    forall id :: id in s.flushers && s.flushers[id].Answered? && s.flushers[id].err.None? ==>
      s.coord.writtenRevision >= s.flushers[id].revision
  }

  ghost predicate Invariant(s: Sys) {
    Lifecycle(s) && Revisions(s) && WorkerOk(s) && Disk(s) && Memory(s) && History(s) && Sound(s) && FlushersOk(s)
  }

  lemma RunAppend(origin: State, log: seq<Op>, op: Op)
    ensures var s := Run(origin, log); Run(origin, log + [op]) == if Applies(op, s) then Apply(op, s) else s
  {
    var longer := log + [op];
    assert longer[..|longer| - 1] == log && longer[|longer| - 1] == op;
  }

  lemma InitIsInvariant(s: Sys)
    requires Init(s)
    ensures Invariant(s)
  {
    hide Restore, Kept, WellFormed, Inv, TakeSnapshot;
    RestoreKeepsInv(s.past.file);
    assert Run(s.past.origin, []) == s.past.origin;
    assert Lifecycle(s) && WorkerOk(s) && Disk(s);
    assert Revisions(s) && Memory(s) && Sound(s);
  }

  // ---- Clients ----

  /** What a client's step leaves alone: everything but life.closed, the waits, and three coordinator flags. */
  ghost predicate SameCore(s: Sys, t: Sys) {
    && t.mem == s.mem && t.revision == s.revision && t.mutator == s.mutator && t.past == s.past
    && t.worker == s.worker && t.possible == s.possible
    && t.coord == s.coord.(flush := t.coord.flush, closed := t.coord.closed, stop := t.coord.stop)
    && (s.coord.stop ==> t.coord.stop)
  }

  lemma FlusherTouchesOnlyItsToken(c: Coord<Snapshot>, f: Flusher, pick: Pick)
    requires StepFlusher(c, f, pick).Some?
    ensures var (next, g) := StepFlusher(c, f, pick).value;
      && next == c.(flush := next.flush)
      && g.revision == f.revision
      && (Ordered(c) && g.Answered? && g.err.None? ==> c.writtenRevision >= g.revision)
  {
    hide LookFor, AnswerWhenDone, Ordered;
    if Ordered(c) && (f.Looking? || f.Waiting?) {
      NilMeansWritten(c, f.revision, f.initial);
    }
  }

  lemma CloserKeepsCore(s: Sys, id: nat, cancel: bool)
    requires id in s.closers && CloserExec(s, id, cancel).Some?
    ensures SameCore(s, CloserExec(s, id, cancel).value) && CloserExec(s, id, cancel).value.flushers == s.flushers
  {
  }

  lemma ClientKeepsCore(s: Sys, step: ClientStep)
    requires ClientExec(s, step).Some?
    ensures SameCore(s, ClientExec(s, step).value)
  {
    hide StepFlusher, CloserExec;
    match step
    case OpenFlusher(_) =>
    case AdvanceFlusher(id, pick) => FlusherTouchesOnlyItsToken(s.coord, s.flushers[id], pick);
    case OpenCloser(_) =>
    case AdvanceCloser(id, cancel) => CloserKeepsCore(s, id, cancel);
  }

  lemma SameCoreKeeps(s: Sys, t: Sys)
    requires SameCore(s, t)
    requires Revisions(s) && WorkerOk(s) && Disk(s) && Memory(s) && History(s) && Sound(s)
    ensures Revisions(t) && WorkerOk(t) && Disk(t) && Memory(t) && History(t) && Sound(t)
  {
    hide Run, Apply, Applies, Content, Inv, Restore, Durable;
  }

  lemma ClientKeepsLifecycle(s: Sys, step: ClientStep)
    requires Lifecycle(s) && ClientExec(s, step).Some?
    ensures Lifecycle(ClientExec(s, step).value)
  {
    hide StepFlusher;
    if step.AdvanceFlusher? {
      FlusherTouchesOnlyItsToken(s.coord, s.flushers[step.id], step.pick);
    }
  }

  lemma ClientKeepsFlushers(s: Sys, step: ClientStep)
    requires Ordered(s.coord) && FlushersOk(s) && ClientExec(s, step).Some?
    ensures FlushersOk(ClientExec(s, step).value)
  {
    hide StepFlusher, CloserExec;
    match step
    case OpenFlusher(_) =>
    case AdvanceFlusher(id, pick) => FlusherTouchesOnlyItsToken(s.coord, s.flushers[id], pick);
    case OpenCloser(_) =>
    case AdvanceCloser(id, cancel) => CloserKeepsCore(s, id, cancel);
  }

  lemma ClientStepKeeps(s: Sys, step: ClientStep)
    requires Invariant(s) && ClientExec(s, step).Some?
    ensures Invariant(ClientExec(s, step).value)
  {
    hide Lifecycle, FlushersOk, Disk, Memory, History, Sound, WorkerOk, ClientExec, SameCore;
    ClientKeepsCore(s, step);
    SameCoreKeeps(s, ClientExec(s, step).value);
    ClientKeepsLifecycle(s, step);
    ClientKeepsFlushers(s, step);
  }

  // ---- The worker ----

  ghost predicate SameStore(s: Sys, t: Sys) {
    && t.mem == s.mem && t.revision == s.revision && t.mutator == s.mutator && t.past == s.past
    && t.life == s.life && t.flushers == s.flushers && t.closers == s.closers
    && t.coord.pending == s.coord.pending && t.coord.pendingRevision == s.coord.pendingRevision
    && t.coord.closed == s.coord.closed && t.coord.stop == s.coord.stop
    && s.coord.writtenRevision <= t.coord.writtenRevision <= t.coord.pendingRevision
    && (s.coord.done ==> t.coord.done && t.coord.lastErr == s.coord.lastErr)
    && Ordered(t.coord)
  }

  /** What the worker's own steps keep. */
  ghost predicate WorkerSide(s: Sys) {
    && Ordered(s.coord) && WorkerOk(s) && Disk(s)
    && (s.coord.pending.Some? ==> s.coord.pending.value == Content(s.past, s.coord.pendingRevision))
  }

  ghost predicate WorkerMoves(s: Sys, t: Sys) {
    SameStore(s, t) && WorkerOk(t) && Disk(t)
  }

  lemma TakeKeeps(s: Sys, signal: Signal)
    requires WorkerSide(s) && WorkerExec(s, Take(signal)).Some?
    ensures WorkerMoves(s, WorkerExec(s, Take(signal)).value)
  {
    hide Content;
  }

  lemma EndPassKeeps(s: Sys, final: bool)
    requires WorkerSide(s) && (s.worker.Capturing? || s.worker.Rewaking?)
    requires final ==> s.coord.stop && Settled(s.coord)
    ensures WorkerMoves(s, EndPass(s, final))
  {
    hide Content, WriteOk;
  }

  lemma CaptureKeeps(s: Sys)
    requires WorkerSide(s) && WorkerExec(s, Capture).Some?
    ensures WorkerMoves(s, WorkerExec(s, Capture).value)
  {
    hide Content, EndPass;
    if Latest(s.coord).None? {
      EndPassKeeps(s, s.worker.final);
    }
  }

  lemma SaveKeeps(s: Sys, ok: bool)
    requires WorkerSide(s) && WorkerExec(s, Save(ok)).Some?
    ensures WorkerMoves(s, WorkerExec(s, Save(ok)).value)
  {
    hide Content;
  }

  lemma RecordKeeps(s: Sys)
    requires WorkerSide(s) && WorkerExec(s, Record).Some?
    ensures WorkerMoves(s, WorkerExec(s, Record).value)
  {
    hide Content;
  }

  lemma RewakeKeeps(s: Sys)
    requires WorkerSide(s) && WorkerExec(s, Rewake).Some?
    ensures WorkerMoves(s, WorkerExec(s, Rewake).value)
  {
    hide Content, EndPass;
    var Rewaking(final, newer) := s.worker;
    EndPassKeeps(s.(coord := s.coord.(wake := s.coord.wake || newer)), final);
  }

  lemma WorkerKeeps(s: Sys, step: WorkerStep)
    requires WorkerSide(s) && WorkerExec(s, step).Some?
    ensures WorkerMoves(s, WorkerExec(s, step).value)
  {
    hide WorkerSide, WorkerMoves, WorkerExec;
    match step
    case Take(signal) => TakeKeeps(s, signal);
    case Capture => CaptureKeeps(s);
    case Save(ok) => SaveKeeps(s, ok);
    case Record => RecordKeeps(s);
    case Rewake => RewakeKeeps(s);
  }

  lemma SameStoreKeeps(s: Sys, t: Sys)
    requires SameStore(s, t)
    requires Lifecycle(s) && Revisions(s) && Memory(s) && History(s) && Sound(s) && FlushersOk(s)
    ensures Lifecycle(t) && Revisions(t) && Memory(t) && History(t) && Sound(t) && FlushersOk(t)
  {
    hide Run, Apply, Applies, Content, Inv, Restore, Durable;
  }

  lemma WorkerStepKeeps(s: Sys, step: WorkerStep)
    requires Invariant(s) && WorkerExec(s, step).Some?
    ensures Invariant(WorkerExec(s, step).value)
  {
    hide Lifecycle, FlushersOk, Disk, Memory, History, Sound, WorkerOk, WorkerExec, SameStore;
    WorkerKeeps(s, step);
    SameStoreKeeps(s, WorkerExec(s, step).value);
  }

  // ---- Mutators ----

  ghost predicate SameDisk(s: Sys, t: Sys) {
    && t.worker == s.worker && t.possible == s.possible && t.flushers == s.flushers && t.closers == s.closers
    && t.past.file == s.past.file && t.past.origin == s.past.origin && s.past.logs <= t.past.logs
    && t.coord == s.coord.(pending := t.coord.pending, pendingRevision := t.coord.pendingRevision,
        wake := t.coord.wake, flush := t.coord.flush)
    && s.coord.pendingRevision <= t.coord.pendingRevision
    && (s.coord.closed ==> t.coord.pendingRevision == s.coord.pendingRevision)
  }

  lemma HolderKeepsDisk(s: Sys, step: MutatorStep)
    requires s.mutator.Holding? && HolderExec(s, step).Some?
    ensures SameDisk(s, HolderExec(s, step).value)
    ensures !step.Leave? ==> HolderExec(s, step).value.life == s.life && HolderExec(s, step).value.mutator.Holding?
  {
    hide StepFlusher, Flushed, Apply, Applies, Admissible, TakeSnapshot, Durable;
    if step.Flush? {
      var Flushing(flusher, before, undoing) := s.mutator.stage;
      FlusherTouchesOnlyItsToken(s.coord, flusher, step.pick);
      var (coord, next) := StepFlusher(s.coord, flusher, step.pick).value;
      FlushedKeepsDisk(s.(coord := coord), next, before, undoing);
    }
  }

  lemma FlushedKeepsDisk(s: Sys, f: Flusher, before: Option<State>, undoing: bool)
    requires s.mutator.Holding?
    ensures var t := Flushed(s, f, before, undoing);
      t == s.(mutator := t.mutator, past := t.past) && t.past.logs == s.past.logs && t.mutator.Holding?
      && t.past.file == s.past.file && t.past.origin == s.past.origin
  {
  }

  lemma MutatorKeepsDisk(s: Sys, step: MutatorStep)
    requires MutatorExec(s, step).Some?
    ensures SameDisk(s, MutatorExec(s, step).value)
  {
    hide HolderExec;
    if !step.Begin? && !step.Acquire? && !step.Unregister? {
      HolderKeepsDisk(s, step);
    }
  }

  lemma SameDiskKeeps(s: Sys, t: Sys)
    requires SameDisk(s, t) && (s.coord.stop ==> s.coord.closed) && Ordered(s.coord)
    requires s.coord.pendingRevision <= |s.past.logs|
    requires WorkerOk(s) && Disk(s) && FlushersOk(s)
    ensures WorkerOk(t) && Disk(t) && FlushersOk(t)
  {
    hide Run, TakeSnapshot;
  }

  lemma RegistrationKeepsLifecycle(s: Sys, step: MutatorStep)
    requires Lifecycle(s) && MutatorExec(s, step).Some?
    requires step.Begin? || step.Acquire? || step.Unregister? || (step.Leave? && s.mutator.Holding?)
    ensures Lifecycle(MutatorExec(s, step).value)
  {
  }

  lemma MutatorKeepsLifecycle(s: Sys, step: MutatorStep)
    requires Lifecycle(s) && MutatorExec(s, step).Some?
    ensures Lifecycle(MutatorExec(s, step).value)
  {
    hide HolderExec;
    if step.Begin? || step.Acquire? || step.Unregister? || step.Leave? {
      RegistrationKeepsLifecycle(s, step);
    } else {
      HolderKeepsDisk(s, step);
    }
  }

  ghost predicate StoreOk(s: Sys) {
    Revisions(s) && Memory(s) && History(s) && Sound(s)
  }

  predicate AtRest(m: Mutator) {
    m.Nobody? || m.stage.Entered? || m.stage.Returning?
  }

  /** Before and after its critical work a mutator leaves the store as it is. */
  lemma RestKeeps(s: Sys, t: Sys)
    requires StoreOk(s) && t == s.(life := t.life, mutator := t.mutator)
    requires s.mutator == t.mutator || (AtRest(s.mutator) && AtRest(t.mutator))
    requires s.mutator != t.mutator && t.mutator.Holding? && t.mutator.stage.Returning? ==>
               t.mutator.stage.outcome.NoChange?
    ensures StoreOk(t)
  {
    hide Run, Content, Inv, Restore, WellFormed, Apply, Applies, Durable, Extends;
    assert Revisions(t);
    assert History(t) && Sound(t);
  }

  lemma RegistrationKeeps(s: Sys, step: MutatorStep)
    requires StoreOk(s) && MutatorExec(s, step).Some?
    requires step.Begin? || step.Acquire? || step.Unregister? || (step.Leave? && s.mutator.Holding?)
    ensures StoreOk(MutatorExec(s, step).value)
  {
    hide StoreOk;
    RestKeeps(s, MutatorExec(s, step).value);
  }

  /** A new revision with its history behind it. */
  lemma IssueKeeps(s: Sys, t: Sys, log: seq<Op>)
    requires History(s) && Sound(s) && t.coord == s.coord
    requires t.past == s.past.(logs := s.past.logs + [log], log := t.past.log) && s.past.log <= t.past.log
    requires s.past.log <= log && Extends(log, t.past.log) && Inv(Run(s.past.origin, log))
    requires Inv(Run(s.past.origin, t.past.log))
    ensures History(t) && Sound(t)
  {
    hide Run, Inv, Restore, WellFormed;
    forall k | 0 <= k < |t.past.logs|
      ensures Extends(t.past.logs[k], t.past.log) && Inv(Run(t.past.origin, t.past.logs[k]))
    {
      assert k < |s.past.logs| ==> t.past.logs[k] == s.past.logs[k];
    }
  }

  lemma MutateKeeps(s: Sys)
    requires StoreOk(s) && s.mutator.Holding? && HolderExec(s, Mutate).Some?
    ensures StoreOk(HolderExec(s, Mutate).value)
  {
    hide Inv, Restore, WellFormed, Admissible, Apply, TakeSnapshot, Durable, Applies, Run, History;
    var op, log := s.mutator.op, s.past.log + [s.mutator.op];
    RunAppend(s.past.origin, s.past.log, op);
    var t := HolderExec(s, Mutate).value;
    if Applies(op, s.mem) {
      ApplyKeepsInv(op, s.mem);
      assert log[..|log| - 1] == s.past.log;
      IssueKeeps(s, t, log);
    } else {
      RestKeeps(s, t);
    }
  }

  lemma PublishKeeps(s: Sys)
    requires StoreOk(s) && !s.coord.closed && s.mutator.Holding? && HolderExec(s, Publish).Some?
    ensures StoreOk(HolderExec(s, Publish).value)
  {
    hide Run, Content, Inv, Restore, WellFormed, Apply, Applies;
  }

  lemma WakeKeeps(s: Sys)
    requires StoreOk(s) && s.mutator.Holding? && HolderExec(s, Wake).Some?
    ensures StoreOk(HolderExec(s, Wake).value)
  {
    hide Run, Content, Inv, Restore, WellFormed;
  }

  lemma FlushedKeeps(s: Sys, f: Flusher, before: Option<State>, undoing: bool)
    requires StoreOk(s) && s.mutator.Holding? && s.mutator.stage.Flushing?
    requires before == s.mutator.stage.before && undoing == s.mutator.stage.undoing && f.revision == s.revision
    requires f.Answered? && f.err.None? ==> s.coord.writtenRevision >= f.revision
    ensures StoreOk(Flushed(s, f, before, undoing))
  {
    hide Inv, Restore, WellFormed, Apply, Applies, Durable, Run, TakeSnapshot, History;
    CommitKeepsHistory(s, Flushed(s, f, before, undoing));
  }

  /** Committing the last issued revision acknowledges everything up to it. */
  lemma CommitKeepsHistory(s: Sys, t: Sys)
    requires History(s) && t.coord == s.coord
    requires t.past != s.past ==>
      && t.past == s.past.(log := t.past.log, acked := t.past.log, ackedRevision := s.revision)
      && LastLog(s, t.past.log) && s.past.log <= t.past.log && t.coord.writtenRevision >= s.revision
    ensures History(t)
  {
  }

  lemma TokenKeeps(s: Sys, coord: Coord<Snapshot>)
    requires StoreOk(s) && coord == s.coord.(flush := coord.flush)
    ensures StoreOk(s.(coord := coord))
  {
    hide Inv, Restore, WellFormed, Apply, Run, Content, Applies, Durable;
  }

  /** The answer to a flush commits the mutation, starts its rollback, or ends the rollback. */
  lemma FlushKeeps(s: Sys, pick: Pick)
    requires StoreOk(s) && s.mutator.Holding? && HolderExec(s, Flush(pick)).Some?
    ensures StoreOk(HolderExec(s, Flush(pick)).value)
  {
    hide Flushed, StepFlusher, Memory, History, Sound;
    var Flushing(flusher, before, undoing) := s.mutator.stage;
    FlusherTouchesOnlyItsToken(s.coord, flusher, pick);
    var (coord, next) := StepFlusher(s.coord, flusher, pick).value;
    TokenKeeps(s, coord);
    FlushedKeeps(s.(coord := coord), next, before, undoing);
  }

  lemma RollBackKeeps(s: Sys)
    requires StoreOk(s) && s.mutator.Holding? && HolderExec(s, RollBack).Some?
    ensures StoreOk(HolderExec(s, RollBack).value)
  {
    hide Inv, Restore, WellFormed, Apply, Run, TakeSnapshot, History;
    IssueKeeps(s, HolderExec(s, RollBack).value, s.past.log);
  }

  lemma MutatorStepKeeps(s: Sys, step: MutatorStep)
    requires Invariant(s) && MutatorExec(s, step).Some?
    ensures Invariant(MutatorExec(s, step).value)
  {
    hide FlushersOk, Disk, Memory, History, Sound, WorkerOk, HolderExec, SameDisk;
    MutatorKeepsDisk(s, step);
    SameDiskKeeps(s, MutatorExec(s, step).value);
    MutatorKeepsLifecycle(s, step);
    match step
    case Mutate => MutateKeeps(s);
    case Publish => PublishKeeps(s);
    case Wake => WakeKeeps(s);
    case Flush(pick) => FlushKeeps(s, pick);
    case RollBack => RollBackKeeps(s);
    case _ => RegistrationKeeps(s, step);
  }

  lemma StepKeepsInvariant(s: Sys, step: Step)
    requires Invariant(s) && Exec(s, step).Some?
    ensures Invariant(Exec(s, step).value)
  {
    hide Invariant, MutatorExec, WorkerExec, ClientExec;
    match step
    case M(m) => MutatorStepKeeps(s, m);
    case W(w) => WorkerStepKeeps(s, w);
    case C(c) => ClientStepKeeps(s, c);
  }

  /** Every state that any schedule reaches satisfies the invariant. */
  lemma {:induction false} InvariantHolds(s: Sys, schedule: seq<Step>, t: Sys)
    requires Invariant(s) && Reaches(s, schedule, t)
    ensures Invariant(t)
    decreases |schedule|
  {
    hide Invariant, Exec;
    if schedule != [] {
      StepKeepsInvariant(s, schedule[0]);
      InvariantHolds(Exec(s, schedule[0]).value, schedule[1..], t);
    }
  }
}
