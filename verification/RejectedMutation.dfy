/** A mutation that was reported as failed and may still be on disk after a crash
    (internal/server/store_persistence.go, persistence_coordinator.go, job_persistence.go): exactly when,
    on the disk and as far as the store itself can tell, and runs of both kinds. */
module RejectedMutation {
  import opened Ordering
  import opened Jobs
  import opened Coordinator
  import opened StoreSystem
  import opened StoreGuarantees
  import opened StoreOnDisk
  import SaveFile

  // ---- What the store can tell ----

  /** A save has succeeded and its result is not recorded yet. */
  predicate JustSaved(s: Sys) {
    s.worker.Saved? && s.worker.err.None?
  }

  /** The last failed attempt may still be on disk. */
  predicate FailureMayRemain(s: Sys) {
    s.coord.lastErr.Some? ==> s.coord.attemptRevision in s.possible || JustSaved(s)
  }

  /** A save of a revision beyond r has succeeded. */
  predicate Superseded(s: Sys, r: nat) {
    s.coord.writtenRevision > r || (JustSaved(s) && s.worker.rev > r)
  }

  /** The revision of the mutation that is being given up, or was. */
  function GivenUp(s: Sys): Option<int> {
    match s.mutator
    case Nobody => None
    case Holding(_, stage) =>
      match stage
      case RollingBack(_) => Some(s.revision)
      case Publishing(_, _, _, undoing) => if undoing then Some(s.revision - 1) else None
      case Waking(_, _, undoing) => if undoing then Some(s.revision - 1) else None
      case Flushing(_, _, undoing) => if undoing then Some(s.revision - 1) else None
      case Returning(outcome) => if outcome.RolledBack? then Some(s.revision - 1) else None
      case _ => None
  }

  /** It was attempted, and a crash may leave it unless the rollback has been saved. */
  ghost predicate Lingers(s: Sys, r: int) {
    && 0 < r <= s.coord.attemptRevision
    && (if Superseded(s, r) then s.possible == {r + 1} else r in s.possible)
  }

  /** A durable mutator that has failed and returns. */
  predicate Rejected(s: Sys) {
    s.mutator.Holding? && s.mutator.stage.Returning? && s.mutator.stage.outcome.RolledBack?
  }

  ghost predicate RejectionOk(s: Sys) {
    && FailureMayRemain(s)
    && (Rejected(s) ==> s.coord.attemptRevision == s.revision && LastLog(s, s.past.log))
    && (GivenUp(s).Some? ==>
          && Lingers(s, GivenUp(s).value)
          && LogOf(s.past, GivenUp(s).value) == s.past.log + [s.mutator.op]
          && ChangesFile(s.past, GivenUp(s).value))
  }

  /** The file of revision r is not that of what is committed. */
  ghost predicate ChangesFile(p: Past, r: int) {
    r >= 0 && Content(p, r) != TakeSnapshot(Run(p.origin, p.log).jobs)
  }

  lemma WorkerKeepsFailure(s: Sys, step: WorkerStep)
    requires WorkerSide(s) && FailureMayRemain(s) && WorkerExec(s, step).Some?
    ensures FailureMayRemain(WorkerExec(s, step).value)
    ensures s.coord.attemptRevision <= WorkerExec(s, step).value.coord.attemptRevision
  {
    hide Content, Settled;
  }

  lemma WorkerKeepsLingering(s: Sys, r: int, step: WorkerStep)
    requires WorkerSide(s) && s.coord.pendingRevision <= r + 1 && Lingers(s, r) && WorkerExec(s, step).Some?
    ensures Lingers(WorkerExec(s, step).value, r)
  {
    hide Content, Settled;
  }

  lemma WorkerKeepsRejection(s: Sys, step: WorkerStep)
    requires Invariant(s) && RejectionOk(s) && WorkerExec(s, step).Some?
    ensures RejectionOk(WorkerExec(s, step).value)
  {
    hide WorkerExec, FailureMayRemain, Lingers, Memory, History, Sound, Lifecycle, FlushersOk, Content;
    WorkerKeeps(s, step);
    WorkerKeepsFailure(s, step);
    if GivenUp(s).Some? {
      WorkerKeepsLingering(s, GivenUp(s).value, step);
    }
  }

  /** A flush that was answered with an error: its revision has been attempted in vain, for the
      coordinator is not closed while a mutator holds the store. */
  lemma FailedFlushLingers(s: Sys, pick: Pick)
    requires Invariant(s) && FailureMayRemain(s) && s.mutator.Holding? && s.mutator.stage.Flushing? && !pick.GiveUp?
    requires StepFlusher(s.coord, s.mutator.stage.flusher, pick).Some?
    ensures var (_, f) := StepFlusher(s.coord, s.mutator.stage.flusher, pick).value;
      && (f.Answered? ==> s.coord.attemptRevision == s.revision)
      && (f.Answered? && f.err.Some? ==> Lingers(s, s.revision))
  {
    hide Memory, History, Sound, FlushersOk, Content;
  }

  lemma LingeringIsIssued(s: Sys, r: int)
    requires Revisions(s) && Lingers(s, r)
    ensures 0 < r <= |s.past.logs|
  {
  }

  lemma SameDiskLingers(s: Sys, t: Sys, r: int)
    requires SameDisk(s, t) && Lingers(s, r)
    ensures Lingers(t, r)
  {
  }

  /** Only a failed flush begins to give up a mutation, and nothing takes that back before the return. */
  lemma GivesUpFrom(s: Sys, step: MutatorStep)
    requires Lifecycle(s) && MutatorExec(s, step).Some?
    ensures var t := MutatorExec(s, step).value;
      GivenUp(t).Some? ==>
        && s.mutator.Holding? && t.mutator.op == s.mutator.op && t.past.log == s.past.log
        && (GivenUp(s) == GivenUp(t)
            || (FlushesFirst(s) && step.Flush? && FlushFails(s, step.pick) && GivenUp(t) == Some(s.revision)))
  {
    hide StepFlusher, CloserOk, Apply, Applies, Admissible, Durable, TakeSnapshot;
  }

  predicate FlushFails(s: Sys, pick: Pick) {
    && s.mutator.Holding? && s.mutator.stage.Flushing? && !pick.GiveUp?
    && var next := StepFlusher(s.coord, s.mutator.stage.flusher, pick);
    next.Some? && next.value.1.Answered? && next.value.1.err.Some?
  }

  lemma FlushedLog(s: Sys)
    requires Invariant(s) && FlushesFirst(s)
    ensures LogOf(s.past, s.revision) == s.past.log + [s.mutator.op]
  {
    hide History, Sound, FlushersOk, WorkerOk, Disk, Lifecycle, Apply, Applies, Admissible, Durable, Run;
  }

  lemma MutatorGivesUp(s: Sys, step: MutatorStep)
    requires Invariant(s) && RejectionOk(s) && MutatorExec(s, step).Some?
    ensures var t := MutatorExec(s, step).value;
      GivenUp(t).Some? ==>
        && Lingers(s, GivenUp(t).value)
        && LogOf(t.past, GivenUp(t).value) == t.past.log + [t.mutator.op]
        && t.past.log == s.past.log
        && (GivenUp(s) == GivenUp(t) || (FlushesFirst(s) && GivenUp(t) == Some(s.revision)))
  {
    hide MutatorExec, FlushFails, GivenUp, Lingers, Content;
    hide Memory, History, Sound, FlushersOk, WorkerOk, Disk, Lifecycle;
    MutatorKeepsDisk(s, step);
    GivesUpFrom(s, step);
    var t := MutatorExec(s, step).value;
    if GivenUp(t).Some? {
      if GivenUp(s) != GivenUp(t) {
        FailureLingers(s, step.pick);
        FlushedLog(s);
      }
      LingeringIsIssued(s, GivenUp(t).value);
    }
  }

  lemma FailureLingers(s: Sys, pick: Pick)
    requires Invariant(s) && FailureMayRemain(s) && FlushFails(s, pick)
    ensures Lingers(s, s.revision)
  {
    hide StepFlusher, Invariant, Lingers, FailureMayRemain;
    FailedFlushLingers(s, pick);
  }

  /** It returns its failure once a save of the rollback has been attempted. */
  lemma MutatorReturnsFailure(s: Sys, step: MutatorStep)
    requires Invariant(s) && RejectionOk(s) && MutatorExec(s, step).Some?
    ensures var t := MutatorExec(s, step).value;
      Rejected(t) ==> s.coord.attemptRevision == s.revision == t.revision && LastLog(t, t.past.log)
  {
    hide StepFlusher, Lingers, LogOf, ChangesFile, FailureMayRemain, GivenUp;
    hide History, Sound, FlushersOk, WorkerOk, Disk, Content, Run, Apply, Applies, Admissible, Durable, TakeSnapshot;
    if step.Flush? && s.mutator.Holding? {
      FailedFlushLingers(s, step.pick);
    }
  }

  /** A durable mutator waits for its own revision, not yet for that of its rollback. */
  predicate FlushesFirst(s: Sys) {
    s.mutator.Holding? && s.mutator.stage.Flushing? && !s.mutator.stage.undoing
  }

  lemma ChangeStays(p: Past, q: Past, r: int)
    requires ChangesFile(p, r) && 0 < r <= |p.logs| && p.logs <= q.logs && q.log == p.log && q.origin == p.origin
    ensures ChangesFile(q, r)
  {
    hide Run, TakeSnapshot;
    assert q.logs[r - 1] == p.logs[r - 1];
  }

  lemma FlushedRevisionChangesFile(s: Sys)
    requires Invariant(s) && FlushesFirst(s)
    ensures ChangesFile(s.past, s.revision)
  {
    hide History, FlushersOk, WorkerOk, Disk, Lifecycle, Apply, Applies, Admissible, TakeSnapshot, Durable, Run, Inv;
    var before := s.mutator.stage.before.value;
    DurableChangesFile(s.mutator.op, before);
  }

  lemma MutatorKeepsRejection(s: Sys, step: MutatorStep)
    requires Invariant(s) && RejectionOk(s) && MutatorExec(s, step).Some?
    ensures RejectionOk(MutatorExec(s, step).value)
  {
    hide MutatorExec, Lingers, LogOf, GivenUp, ChangesFile, FlushesFirst;
    hide Memory, History, Sound, FlushersOk, WorkerOk, Disk, Lifecycle, Content;
    MutatorKeepsDisk(s, step);
    MutatorGivesUp(s, step);
    MutatorReturnsFailure(s, step);
    var t := MutatorExec(s, step).value;
    if GivenUp(t).Some? {
      var r := GivenUp(t).value;
      SameDiskLingers(s, t, r);
      LingeringIsIssued(s, r);
      if GivenUp(s) != GivenUp(t) {
        FlushedRevisionChangesFile(s);
      }
      ChangeStays(s.past, t.past, r);
    }
  }

  lemma SameCoreLingers(s: Sys, t: Sys)
    requires SameCore(s, t)
    ensures FailureMayRemain(s) ==> FailureMayRemain(t)
    ensures forall r: int :: Lingers(s, r) ==> Lingers(t, r)
  {
  }

  lemma ClientKeepsRejection(s: Sys, step: ClientStep)
    requires RejectionOk(s) && ClientExec(s, step).Some?
    ensures RejectionOk(ClientExec(s, step).value)
  {
    hide ClientExec, FailureMayRemain, Lingers, ChangesFile, LogOf;
    var t := ClientExec(s, step).value;
    ClientKeepsCore(s, step);
    SameCoreLingers(s, t);
  }

  lemma StepKeepsRejection(s: Sys, step: Step)
    requires Invariant(s) && RejectionOk(s) && Exec(s, step).Some?
    ensures RejectionOk(Exec(s, step).value)
  {
    hide Invariant, RejectionOk, MutatorExec, WorkerExec, ClientExec;
    match step
    case M(m) => MutatorKeepsRejection(s, m);
    case W(w) => WorkerKeepsRejection(s, w);
    case C(c) => ClientKeepsRejection(s, c);
  }

  lemma {:induction false} RejectionHolds(s: Sys, schedule: seq<Step>, t: Sys)
    requires Invariant(s) && RejectionOk(s) && Reaches(s, schedule, t)
    ensures RejectionOk(t)
    decreases |schedule|
  {
    hide Invariant, RejectionOk, Exec;
    if schedule != [] {
      StepKeepsInvariant(s, schedule[0]);
      StepKeepsRejection(s, schedule[0]);
      RejectionHolds(Exec(s, schedule[0]).value, schedule[1..], t);
    }
  }

  /** When a durable mutator returns its failure, its rejected revision is the last but one. As far as the
      store can tell, which is not told how a save failed, a crash may bring it back if and only if the
      rollback revision is not on disk alone, that is if and only if no save of the rollback has succeeded.
      WorstDisk shows that this may be so of the disk. */
  lemma RejectedMayReturnIff(s: Sys, schedule: seq<Step>, t: Sys)
    requires Started(s, schedule, t) && Rejected(t)
    ensures t.revision > 1 && LogOf(t.past, t.revision - 1) == t.past.log + [t.mutator.op]
    ensures t.revision - 1 in t.possible <==> t.possible != {t.revision}
    ensures t.revision - 1 in t.possible <==>
        t.coord.writtenRevision < t.revision && !(JustSaved(t) && t.worker.rev == t.revision)
    ensures t.worker.Saving? ==> t.worker.rev == t.revision
  {
    hide Reaches, Init, Content, Memory, History, Sound, Lifecycle, FlushersOk;
    InitIsInvariant(s);
    assert RejectionOk(s) by {
      InitRejectsNothing(s);
    }
    InvariantHolds(s, schedule, t);
    RejectionHolds(s, schedule, t);
  }

  lemma InitRejectsNothing(s: Sys)
    requires Init(s)
    ensures RejectionOk(s)
  {
  }

  // ---- What is on the disk ----

  /** The file with the rejected mutation is not the one that the rollback restores. */
  lemma RejectedFileDiffers(s: Sys, schedule: seq<Step>, t: Sys)
    requires Started(s, schedule, t) && Rejected(t)
    ensures t.revision > 1 && Content(t.past, t.revision - 1) != TakeSnapshot(t.mem.jobs)
    ensures Content(t.past, t.revision) == TakeSnapshot(t.mem.jobs)
  {
    hide Init, Invariant, Reaches, TakeSnapshot, Run;
    InitIsInvariant(s);
    InitRejectsNothing(s);
    RejectedMayReturnIff(s, schedule, t);
    RejectionHolds(s, schedule, t);
    MutatorOutcome(s, schedule, t);
  }

  lemma InvariantBoundsPossible(s: Sys, schedule: seq<Step>, t: Sys)
    requires Started(s, schedule, t)
    ensures forall k :: k in t.possible ==> k <= t.revision
  {
    hide Reaches, Init, Content, Sound, Memory, History;
    StartedIsInvariant(s, schedule, t);
  }

  /** On the disk, after any run: a crash may bring a rejected mutation back, with some surviving directory,
      if and only if its file survives the saves so far. Unless an older revision had that very file, this
      means that a save of its revision got past the rename, and whatever a save has put on disk for good
      from then on was again that revision. */
  lemma RejectedReturnsIff(found: Option<Snapshot>, w: World, turns: seq<Turn>, last: World)
    requires Begins(found, w) && Runs(w, turns, last) && Rejected(last.sys)
    ensures var r, past := last.sys.revision - 1, last.sys.past;
      && r > 0 && LogOf(past, r) == past.log + [last.sys.mutator.op]
      && Content(past, r) != TakeSnapshot(last.sys.mem.jobs)
      && (SaveFile.CrashMayLeave(last.fs, Some(Content(past, r)))
          <==> exists k :: Survives(last.saves, k) && FileAt(found, past, k) == Some(Content(past, r)))
      && ((forall k :: 0 <= k < r ==> FileAt(found, past, k) != Some(Content(past, r))) ==>
            (SaveFile.CrashMayLeave(last.fs, Some(Content(past, r))) <==> Survives(last.saves, r)))
  {
    hide Init, Invariant, Runs, Reaches, Content, Survives, SaveFile.CrashMayLeave, TakeSnapshot;
    var schedule := RunIsASchedule(w, turns, last);
    RejectedMayReturnIff(w.sys, schedule, last.sys);
    RejectedFileDiffers(w.sys, schedule, last.sys);
    var r, past := last.sys.revision - 1, last.sys.past;
    DiskIsExact(found, w, turns, last, Some(Content(past, r)));
    InvariantBoundsPossible(w.sys, schedule, last.sys);
    assert FileAt(found, past, r) == Some(Content(past, r)) && FileAt(found, past, r + 1) == Some(Content(past, r + 1));
    if forall k :: 0 <= k < r ==> FileAt(found, past, k) != Some(Content(past, r)) {
      assert forall k :: Survives(last.saves, k) && FileAt(found, past, k) == Some(Content(past, r)) ==> k == r;
    }
  }

  // ---- Runs in which it comes back, and does not ----

  const REJECTED := Create("job-1", Request(0, 0, 0, 0, ""), "", 0, 0)

  const EMPTY := Sys(
    Life(false, 0, 0, true, 0, 0), EmptyState, 0, Nobody, NewCoord(), Idle, {0}, map[], map[],
    Past(map[], EmptyState, [], [], [], 0))

  /** An empty store over an empty directory. */
  const START := World(EMPTY, SaveFile.Fs([], map[], {map[]}), [])

  /** The rename succeeds, but neither the sync of the directory nor the undoing of the rename. */
  const RENAMED_ONLY := SaveFile.ALL_WELL.(syncDir := false, rollback := false)

  const DISK_FULL := SaveFile.ALL_WELL.(writeTmp := false)

  ghost predicate Leads(turns: seq<Turn>, w: World) {
    Runs(START, turns, w)
  }

  predicate SameFs(w: World, next: World) {
    next.fs == w.fs && next.saves == w.saves
  }

  lemma OneMore(turns: seq<Turn>, w: World, step: Step) returns (longer: seq<Turn>, next: World)
    requires Leads(turns, w) && Exec(w.sys, step).Some? && !(step.W? && step.w.Save?)
    ensures Leads(longer, next) && next == w.(sys := Exec(w.sys, step).value)
  {
    hide Exec;
    RunsOneMore(START, turns, w, Other(step));
    longer, next := turns + [Other(step)], w.(sys := Exec(w.sys, step).value);
  }

  /** A durable mutator publishes and asks for its revision. */
  lemma PublishAndWake(turns: seq<Turn>, w: World) returns (longer: seq<Turn>, next: World)
    requires Leads(turns, w) && !w.sys.coord.closed && w.sys.mutator.Holding? && w.sys.mutator.stage.Publishing?
    requires w.sys.mutator.stage.undoing || w.sys.mutator.stage.before.Some?
    requires w.sys.coord.pendingRevision < w.sys.mutator.stage.rev
    ensures Leads(longer, next) && SameFs(w, next)
    ensures var Publishing(rev, snapshot, before, undoing) := w.sys.mutator.stage;
      next.sys == w.sys.(
        coord := w.sys.coord.(pendingRevision := rev, pending := Some(snapshot), wake := true),
        mutator := Holding(w.sys.mutator.op, Flushing(Starting(rev), before, undoing)))
  {
    hide Leads;
    longer, next := OneMore(turns, w, M(Publish));
    longer, next := OneMore(longer, next, M(Wake));
  }

  /** It publishes, asks and comes to wait. */
  lemma PublishAndWait(turns: seq<Turn>, w: World) returns (longer: seq<Turn>, next: World)
    requires Leads(turns, w) && !w.sys.coord.closed && w.sys.mutator.Holding? && w.sys.mutator.stage.Publishing?
    requires w.sys.mutator.stage.undoing || w.sys.mutator.stage.before.Some?
    requires var c, rev := w.sys.coord, w.sys.mutator.stage.rev;
      0 < rev && c.pendingRevision < rev && c.writtenRevision < rev && c.attemptRevision < rev
    ensures Leads(longer, next) && SameFs(w, next)
    ensures var Publishing(rev, snapshot, before, undoing) := w.sys.mutator.stage; var n := w.sys.coord.attemptCount;
      next.sys == w.sys.(
        coord := w.sys.coord.(pendingRevision := rev, pending := Some(snapshot), wake := true, flush := true),
        mutator := Holding(w.sys.mutator.op, Flushing(Waiting(rev, n, n), before, undoing)))
  {
    hide Leads, Coordinator.Publish;
    longer, next := PublishAndWake(turns, w);
    longer, next := OneMore(longer, next, M(Flush(Changed)));
    longer, next := OneMore(longer, next, M(Flush(Changed)));
    longer, next := OneMore(longer, next, M(Flush(Changed)));
  }

  /** The worker takes the flush signal and begins to save. */
  lemma BeginSave(turns: seq<Turn>, w: World) returns (longer: seq<Turn>, next: World)
    requires Leads(turns, w) && w.sys.worker.Idle? && w.sys.coord.flush && w.sys.coord.pending.Some?
    requires w.sys.coord.writtenRevision < w.sys.coord.pendingRevision
    ensures Leads(longer, next) && SameFs(w, next)
    ensures var c := w.sys.coord;
      next.sys == w.sys.(
        coord := c.(flush := false),
        worker := Saving(false, c.pendingRevision, c.pending.value),
        possible := w.sys.possible + {c.pendingRevision})
  {
    hide Leads, MutatorExec, ClientExec;
    longer, next := OneMore(turns, w, W(Take(FlushSignal)));
    longer, next := OneMore(longer, next, W(Capture));
  }

  lemma RecordFailure(turns: seq<Turn>, w: World) returns (longer: seq<Turn>, next: World)
    requires Leads(turns, w) && w.sys.worker == Saved(false, w.sys.coord.pendingRevision, Some(SaveFailed))
    ensures Leads(longer, next) && SameFs(w, next)
    ensures var c := w.sys.coord;
      var failed := c.(
        attemptRevision := c.pendingRevision, attemptCount := c.attemptCount + 1, lastErr := Some(SaveFailed));
      next.sys == w.sys.(coord := failed, worker := Idle)
  {
    hide Leads, MutatorExec, ClientExec;
    longer, next := OneMore(turns, w, W(Record));
    longer, next := OneMore(longer, next, W(Rewake));
  }

  /** The failure is recorded, and the waiting mutator learns of it. */
  lemma LearnOfFailure(turns: seq<Turn>, w: World) returns (longer: seq<Turn>, next: World)
    requires Leads(turns, w) && w.sys.worker == Saved(false, w.sys.coord.pendingRevision, Some(SaveFailed))
    requires w.sys.mutator.Holding? && w.sys.mutator.stage.Flushing? && w.sys.mutator.stage.flusher.Waiting?
    requires var Waiting(rev, initial, seen) := w.sys.mutator.stage.flusher;
      initial == seen == w.sys.coord.attemptCount && w.sys.coord.writtenRevision < rev == w.sys.coord.pendingRevision
    ensures Leads(longer, next) && SameFs(w, next)
    ensures var Flushing(f, before, undoing) := w.sys.mutator.stage; var c := w.sys.coord;
      next.sys == w.sys.(
        coord := c.(attemptRevision := f.revision, attemptCount := c.attemptCount + 1, lastErr := Some(SaveFailed)),
        worker := Idle,
        mutator := Holding(w.sys.mutator.op,
                           if undoing then Returning(RolledBack(Some(SaveFailed))) else RollingBack(before)))
  {
    hide Leads, WorkerExec, ClientExec;
    longer, next := RecordFailure(turns, w);
    longer, next := OneMore(longer, next, M(Flush(Changed)));
    longer, next := OneMore(longer, next, M(Flush(Changed)));
  }

  ghost function Mutated(s: Sys): Sys {
    var added := Write(REJECTED, EmptyState);
    s.(mem := added, revision := 1, past := EMPTY.past.(logs := [[REJECTED]]),
       mutator := Holding(REJECTED, Publishing(1, TakeSnapshot(added.jobs), Some(EmptyState), false)))
  }

  /** The first job of an empty store, up to its publication. */
  lemma MutateEmpty() returns (turns: seq<Turn>, w: World)
    ensures Leads(turns, w) && SameFs(START, w)
    ensures w.sys == Mutated(EMPTY.(life := Life(false, 1, 1, false, 0, 0)))
  {
    assert Leads([], START);
    hide Leads, WorkerExec, ClientExec, TakeSnapshot, Write;
    var registered := EMPTY.(life := Life(false, 1, 1, false, 1, 0));
    var entered := EMPTY.(life := Life(false, 1, 1, false, 0, 0), mutator := Holding(REJECTED, Entered));
    assert MutatorExec(EMPTY, Begin) == Some(registered);
    turns, w := OneMore([], START, M(Begin));
    assert MutatorExec(registered, Acquire(REJECTED)) == Some(entered);
    turns, w := OneMore(turns, w, M(Acquire(REJECTED)));
    MutateOnEmpty(entered);
    turns, w := OneMore(turns, w, M(Mutate));
  }

  lemma MutateOnEmpty(s: Sys)
    requires s == EMPTY.(life := s.life, mutator := Holding(REJECTED, Entered))
    ensures MutatorExec(s, Mutate) == Some(Mutated(s))
  {
    hide TakeSnapshot, Write;
    assert Applies(REJECTED, EmptyState) && Admissible(REJECTED, EmptyState) && Durable(REJECTED) && !Prunes(REJECTED);
    assert Apply(REJECTED, EmptyState) == Write(REJECTED, EmptyState);
    assert [] + [REJECTED] == [REJECTED] && [] + [[REJECTED]] == [[REJECTED]];
  }

  lemma StartBegins()
    ensures Begins(None, START)
  {
    assert Kept(map[]) == map[];
    assert KeyIndex(ReadBack(map[])) == map[];
  }

  /** A save by the worker on the disk of the run. */
  method SaveNow(p: SaveFile.Persistence<Snapshot>, snapshot: Snapshot, f: SaveFile.Faults, ghost turns: seq<Turn>,
                 ghost w: World)
    returns (err: Option<SaveFile.SaveError>, ghost longer: seq<Turn>, ghost next: World)
    requires Leads(turns, w) && w.fs == p.fs && w.sys.worker.Saving? && w.sys.worker.snapshot == snapshot
    modifies p
    ensures err == SaveFile.Answer(f, old(p.fs).dir)
    ensures Leads(longer, next) && next == SavedTo(w, p.fs, err)
  {
    hide Invariant, SaveFile.Answer, SavedTo, Begins, WorldOk, StoreOnDisk.Advance;
    StartBegins();
    BeginsOk(None, START);
    WorldHolds(None, START, turns, w);
    ghost var turn;
    err, turn := SaveLatest(p, snapshot, f, None, w);
    RunsOneMore(START, turns, w, turn);
    longer, next := turns + [turn], SavedTo(w, p.fs, err);
  }

  /** A durable mutator publishes, the worker's save of that fails, and the mutator learns of it. */
  method PublishInVain(p: SaveFile.Persistence<Snapshot>, snapshot: Snapshot, f: SaveFile.Faults,
                       ghost turns: seq<Turn>, ghost w: World)
    returns (ghost longer: seq<Turn>, ghost next: World)
    requires Leads(turns, w) && w.fs == p.fs && SaveFile.Answer(f, p.fs.dir).Some?
    requires w.sys.worker.Idle? && !w.sys.coord.closed
    requires w.sys.mutator.Holding? && w.sys.mutator.stage.Publishing? && w.sys.mutator.stage.snapshot == snapshot
    requires w.sys.mutator.stage.undoing || w.sys.mutator.stage.before.Some?
    requires var c, rev := w.sys.coord, w.sys.mutator.stage.rev;
      0 < rev && c.pendingRevision < rev && c.writtenRevision < rev && c.attemptRevision < rev
    modifies p
    ensures Leads(longer, next) && next.fs == p.fs
    ensures next.saves == w.saves + [SaveRecord(w.sys.mutator.stage.rev, SaveFile.Answer(f, old(p.fs).dir))]
    ensures var Publishing(rev, _, before, undoing) := w.sys.mutator.stage; var c := w.sys.coord;
      next.sys == w.sys.(
        coord := c.(pendingRevision := rev, pending := Some(snapshot), wake := true,
                    attemptRevision := rev, attemptCount := c.attemptCount + 1, lastErr := Some(SaveFailed),
                    flush := false),
        possible := w.sys.possible + {rev},
        mutator := Holding(w.sys.mutator.op,
                           if undoing then Returning(RolledBack(Some(SaveFailed))) else RollingBack(before)))
  {
    hide Leads, SaveFile.Answer;
    longer, next := PublishAndWait(turns, w);
    longer, next := BeginSave(longer, next);
    var err;
    err, longer, next := SaveNow(p, snapshot, f, longer, next);
    longer, next := LearnOfFailure(longer, next);
  }

  lemma RejectedIsAdded()
    ensures REJECTED.id in TakeSnapshot(Write(REJECTED, EmptyState).jobs)
  {
  }

  /** The first job of an empty store, with two saves in vain: the mutator returns an error, memory is empty
      again, and as far as the store can tell the job may come back. */
  method CreateInVain(first: SaveFile.Faults, second: SaveFile.Faults)
    returns (p: SaveFile.Persistence<Snapshot>, ghost turns: seq<Turn>, ghost w: World, ghost dir: SaveFile.Dir)
    requires forall d :: SaveFile.Answer(first, d).Some? && SaveFile.Answer(second, d).Some?
    ensures Leads(turns, w) && w.fs == p.fs
    ensures w.sys.mutator == Holding(REJECTED, Returning(RolledBack(Some(SaveFailed)))) && w.sys.mem == EmptyState
    ensures w.sys.revision == 2 && 1 in w.sys.possible && w.sys.coord.writtenRevision == 0 && w.sys.worker.Idle?
    ensures w.saves == [SaveRecord(1, SaveFile.Answer(first, map[])), SaveRecord(2, SaveFile.Answer(second, dir))]
    ensures FileAt(None, w.sys.past, 1) == Some(TakeSnapshot(Write(REJECTED, EmptyState).jobs))
  {
    hide Runs, Write, TakeSnapshot, SaveFile.Answer;
    p := new SaveFile.Persistence(START.fs);
    var added, none := TakeSnapshot(Write(REJECTED, EmptyState).jobs), TakeSnapshot(EmptyState.jobs);
    turns, w := MutateEmpty();
    turns, w := PublishInVain(p, added, first, turns, w);
    turns, w := OneMore(turns, w, M(RollBack));
    dir := p.fs.dir;
    turns, w := PublishInVain(p, none, second, turns, w);
    FirstContent(w.sys.past);
  }

  lemma FirstContent(p: Past)
    requires p == EMPTY.past.(logs := [[REJECTED], []])
    ensures FileAt(None, p, 1) == Some(TakeSnapshot(Write(REJECTED, EmptyState).jobs))
  {
    hide Write, TakeSnapshot;
    RunAppend(EmptyState, [], REJECTED);
    assert [] + [REJECTED] == [REJECTED];
    assert Apply(REJECTED, EmptyState) == Write(REJECTED, EmptyState);
  }

  /** The first save gets past the rename and cannot undo it: whatever directory a crash leaves, the file
      holds the rejected job. */
  method RejectedMutationSurvivesCrash()
    returns (p: SaveFile.Persistence<Snapshot>, ghost turns: seq<Turn>, ghost w: World)
    ensures Begins(None, START) && Runs(START, turns, w) && w.fs == p.fs
    ensures w.sys.mutator == Holding(REJECTED, Returning(RolledBack(Some(SaveFailed)))) && w.sys.mem == EmptyState
    ensures p.fs.versions != {}
    ensures forall d :: d in p.fs.versions ==>
      var file := SaveFile.LiveContent(SaveFile.Crash(p.fs, d)); file.Some? && REJECTED.id in file.value
  {
    hide Begins, Runs, SaveFile.Crash, SaveFile.LiveContent;
    ghost var dir;
    p, turns, w, dir := CreateInVain(RENAMED_ONLY, DISK_FULL);
    StartBegins();
    RejectedIsAdded();
    LeftByTwo(w.saves[0], w.saves[1]);
    OnlyLeft(turns, w, 1);
  }

  /** The disk is full both times: the store cannot tell, but no crash brings the rejected job back. */
  method RejectedMutationStaysOut()
    returns (p: SaveFile.Persistence<Snapshot>, ghost turns: seq<Turn>, ghost w: World)
    ensures Begins(None, START) && Runs(START, turns, w) && w.fs == p.fs
    ensures w.sys.mutator == Holding(REJECTED, Returning(RolledBack(Some(SaveFailed)))) && w.sys.mem == EmptyState
    ensures w.sys.revision == 2 && 1 in w.sys.possible && w.sys.coord.writtenRevision == 0 && !JustSaved(w.sys)
    ensures forall d :: d in p.fs.versions ==> SaveFile.LiveContent(SaveFile.Crash(p.fs, d)) == None
  {
    hide Begins, Runs, SaveFile.Crash, SaveFile.LiveContent;
    ghost var dir;
    p, turns, w, dir := CreateInVain(DISK_FULL, DISK_FULL);
    StartBegins();
    LeftByTwo(w.saves[0], w.saves[1]);
    OnlyLeft(turns, w, 0);
  }

  lemma LeftByTwo(a: SaveRecord, b: SaveRecord)
    ensures var live := SaveFile.LiveAfter(0, a.rev, a.err);
      LeftBy([a, b]) == SaveFile.LeftAfter(SaveFile.LeftAfter({0}, 0, a.rev, a.err), live, b.rev, b.err)
  {
    assert [a, b][..1] == [a] && [a][..0] == [];
    assert LeftBy([a]) == SaveFile.LeftAfter({0}, 0, a.rev, a.err);
    assert LiveBy([a]) == SaveFile.LiveAfter(0, a.rev, a.err);
  }

  /** When the saves leave one revision, every crash leaves its file. */
  lemma OnlyLeft(turns: seq<Turn>, w: World, k: nat)
    requires Leads(turns, w) && LeftBy(w.saves) == {k}
    ensures w.fs.versions != {}
    ensures forall d :: d in w.fs.versions ==>
      SaveFile.LiveContent(SaveFile.Crash(w.fs, d)) == FileAt(None, w.sys.past, k)
  {
    hide Begins, Runs, Invariant, LeftBy, LiveBy, SaveFile.Crash, SaveFile.LiveContent, SaveFile.Left, FileAt;
    StartBegins();
    BeginsOk(None, START);
    WorldHolds(None, START, turns, w);
    forall d | d in w.fs.versions
      ensures SaveFile.LiveContent(SaveFile.Crash(w.fs, d)) == FileAt(None, w.sys.past, k)
    {
      SaveFile.LeftIsExact(w.fs, SaveFile.LiveContent(SaveFile.Crash(w.fs, d)));
    }
  }
}
