/** What the job store guarantees in every run: the theorems about the system of StoreSystem. */
module StoreGuarantees {
  import opened Ordering
  import opened Jobs
  import opened Coordinator
  import opened StoreSystem

  /** A started store: some schedule leads to `s` from a restored file. */
  ghost predicate Started(s: Sys, schedule: seq<Step>, t: Sys) {
    Init(s) && Reaches(s, schedule, t)
  }

  lemma StartedIsInvariant(s: Sys, schedule: seq<Step>, t: Sys)
    requires Started(s, schedule, t)
    ensures Invariant(t)
  {
    InitIsInvariant(s);
    InvariantHolds(s, schedule, t);
  }

  /** Written never passes attempted, attempted never passes pending, pending never passes issued; and the
      worker only ever saves something newer than everything the live file can hold. */
  lemma RevisionsStayOrdered(s: Sys, schedule: seq<Step>, t: Sys)
    requires Started(s, schedule, t)
    ensures t.coord.writtenRevision <= t.coord.attemptRevision <= t.coord.pendingRevision <= t.revision
    ensures t.worker.Saving? ==>
      t.coord.writtenRevision < t.worker.rev && (forall k :: k in t.possible ==> k <= t.worker.rev)
  {
    hide Reaches, Init, Content, Sound, Memory, History;
    StartedIsInvariant(s, schedule, t);
  }

  /** flushTo answers nil only for a revision that a save has reported written. */
  lemma FlushNilMeansSaved(s: Sys, schedule: seq<Step>, t: Sys, id: nat)
    requires Started(s, schedule, t)
    requires id in t.flushers && t.flushers[id].Answered? && t.flushers[id].err.None?
    ensures t.coord.writtenRevision >= t.flushers[id].revision
    ensures forall k :: k in t.possible ==> k >= t.flushers[id].revision
  {
    hide Reaches, Init, Content, Sound, Memory, History;
    StartedIsInvariant(s, schedule, t);
  }

  /** Where a flush stands that began when `count` attempts had been made: an error it answers with comes from
      an attempt of its revision since then, unless it gave up or the worker has gone. */
  ghost predicate FlushIsFresh(c: Coord<Snapshot>, f: Flusher, count: nat) {
    count <= c.attemptCount &&
    match f
    case Starting(_) => true
    case Looking(_, initial) => count <= initial
    case Signalling(_, initial, _) => count <= initial
    case Waiting(_, initial, _) => count <= initial
    case Answered(revision, err) =>
      && (err.Some? && err.value != ContextDone && !c.done ==>
            err.value == SaveFailed && count < c.attemptCount && revision <= c.attemptRevision)
  }

  ghost predicate FreshAt(s: Sys, id: nat, count: nat) {
    count <= s.coord.attemptCount && (id in s.flushers ==> FlushIsFresh(s.coord, s.flushers[id], count))
  }

  /** A flush never answers with the error of an attempt made before it began. */
  lemma FlushErrorIsFresh(s: Sys, early: seq<Step>, m: Sys, late: seq<Step>, t: Sys, id: nat)
    requires Started(s, early, m) && Reaches(m, late, t) && id !in m.flushers
    requires id in t.flushers && t.flushers[id].Answered? && t.flushers[id].err.Some?
    ensures
      || t.flushers[id].err.value == ContextDone
      || t.coord.done
      || (&& t.flushers[id].err.value == SaveFailed
          && t.coord.attemptCount > m.coord.attemptCount && t.coord.attemptRevision >= t.flushers[id].revision)
  {
    hide Invariant, Init, Reaches;
    StartedIsInvariant(s, early, m);
    StaysFresh(m, late, t, id, m.coord.attemptCount);
  }

  lemma {:induction false} StaysFresh(s: Sys, schedule: seq<Step>, t: Sys, id: nat, count: nat)
    requires Invariant(s) && Reaches(s, schedule, t) && FreshAt(s, id, count)
    ensures FreshAt(t, id, count)
    decreases |schedule|
  {
    hide Invariant, Exec, FreshAt;
    if schedule != [] {
      StepKeepsInvariant(s, schedule[0]);
      FreshStep(s, schedule[0], id, count);
      StaysFresh(Exec(s, schedule[0]).value, schedule[1..], t, id, count);
    }
  }

  lemma FreshStep(s: Sys, step: Step, id: nat, count: nat)
    requires Invariant(s) && Exec(s, step).Some? && FreshAt(s, id, count)
    ensures FreshAt(Exec(s, step).value, id, count)
  {
    hide Content, Memory, History, Sound, Lifecycle, FlushersOk, Disk, MutatorExec, StepFlusher, CloserExec;
    match step
    case M(m) => MutatorKeepsDisk(s, m);
    case W(w) => AttemptsGrow(s, w);
    case C(c) =>
      match c {
        case AdvanceFlusher(other, pick) => FreshFlusher(s.coord, s.flushers[other], pick, count);
        case AdvanceCloser(other, cancel) => CloserKeepsCore(s, other, cancel);
        case _ =>
      }
  }

  lemma FreshFlusher(c: Coord<Snapshot>, f: Flusher, pick: Pick, count: nat)
    requires Ordered(c) && (c.lastErr.Some? ==> c.lastErr.value == SaveFailed) && count <= c.attemptCount
    requires StepFlusher(c, f, pick).Some?
    ensures var (next, g) := StepFlusher(c, f, pick).value;
      && next == c.(flush := next.flush)
      && (FlushIsFresh(c, f, count) ==> FlushIsFresh(next, g, count))
  {
  }

  /** The worker only adds attempts, of revisions that do not fall, and once gone it stays gone. */
  lemma AttemptsGrow(s: Sys, step: WorkerStep)
    requires WorkerOk(s) && WorkerExec(s, step).Some?
    ensures var t := WorkerExec(s, step).value;
      && s.coord.attemptCount <= t.coord.attemptCount && s.coord.attemptRevision <= t.coord.attemptRevision
      && (s.coord.done ==> t.coord.done) && t.flushers == s.flushers
  {
    hide Content;
  }

  /** Unless its own context gave up, Close returns nil exactly when the last issued revision is on disk;
      then the disk holds nothing else, nobody is registered and nobody can register. */
  lemma CloseNilMeansAllSaved(s: Sys, schedule: seq<Step>, t: Sys, id: nat)
    requires Started(s, schedule, t)
    requires id in t.closers && t.closers[id].Returned?
    requires t.closers[id].err.Some? ==> t.closers[id].err.value != ContextDone
    ensures t.closers[id].err.None? <==> t.coord.writtenRevision == t.revision
    ensures t.closers[id].err.None? ==> t.possible == {t.revision}
    ensures t.life.closed && t.life.producers == 0 && t.mutator.Nobody?
  {
    hide Reaches, Init, Invariant;
    StartedIsInvariant(s, schedule, t);
    ClosedIsSaved(t, id);
  }

  lemma ClosedIsSaved(t: Sys, id: nat)
    requires Invariant(t) && id in t.closers && t.closers[id].Returned?
    requires t.closers[id].err.Some? ==> t.closers[id].err.value != ContextDone
    ensures t.closers[id].err.None? <==> t.coord.writtenRevision == t.revision
    ensures t.closers[id].err.None? ==> t.possible == {t.revision}
    ensures t.life.closed && t.life.producers == 0 && t.mutator.Nobody?
  {
    hide Content, Sound, Memory, History;
    if t.closers[id].err.None? {
      var k :| k in t.possible;
      assert forall j :: j in t.possible ==> j == t.revision;
      assert t.possible == {t.revision};
    }
  }

  /** Once Close has drained the producers, no schedule changes the jobs, the revision or the history. */
  lemma {:induction false} NothingChangesAfterClose(s: Sys, schedule: seq<Step>, t: Sys)
    requires Invariant(s) && s.life.closed && s.life.producers == 0 && Reaches(s, schedule, t)
    ensures t.mem == s.mem && t.revision == s.revision && t.past == s.past && t.life == s.life
    decreases |schedule|
  {
    if schedule != [] {
      var next := Exec(s, schedule[0]).value;
      ClosedStep(s, schedule[0]);
      StepKeepsInvariant(s, schedule[0]);
      NothingChangesAfterClose(next, schedule[1..], t);
    }
  }

  lemma ClosedStep(s: Sys, step: Step)
    requires Lifecycle(s) && Revisions(s) && WorkerOk(s) && Disk(s)
    requires s.life.closed && s.life.producers == 0 && Exec(s, step).Some?
    ensures var t := Exec(s, step).value;
      t.mem == s.mem && t.revision == s.revision && t.past == s.past && t.life == s.life
  {
    hide HolderExec, Content, CloserOk;
    match step
    case M(m) =>
    case W(w) => WorkerKeeps(s, w);
    case C(c) => ClientKeepsCore(s, c);
  }

  lemma {:induction false} ReturnedStays(s: Sys, schedule: seq<Step>, t: Sys, id: nat)
    requires Reaches(s, schedule, t) && id in s.closers && s.closers[id].Returned?
    ensures id in t.closers && t.closers[id] == s.closers[id]
    decreases |schedule|
  {
    hide HolderExec, StepFlusher;
    if schedule != [] {
      ReturnedStaysStep(s, schedule[0], id);
      ReturnedStays(Exec(s, schedule[0]).value, schedule[1..], t, id);
    }
  }

  lemma ReturnedStaysStep(s: Sys, step: Step, id: nat)
    requires Exec(s, step).Some? && id in s.closers && s.closers[id].Returned?
    ensures id in Exec(s, step).value.closers && Exec(s, step).value.closers[id] == s.closers[id]
  {
    hide StepFlusher, MutatorExec;
    if step.M? {
      MutatorKeepsDisk(s, step.m);
    }
  }

  /** After a Close that returned nil, whatever anybody still does, memory and history stay as they are
      and a crash at any moment leaves exactly the last issued revision. */
  lemma AfterCloseAllIsOnDisk(s: Sys, early: seq<Step>, m: Sys, late: seq<Step>, t: Sys, id: nat)
    requires Started(s, early, m) && Reaches(m, late, t)
    requires id in m.closers && m.closers[id] == Returned(None)
    ensures t.mem == m.mem && t.past == m.past && t.revision == m.revision
    ensures t.coord.writtenRevision == t.revision && t.possible == {t.revision}
    ensures t.mem == Run(t.past.origin, t.past.log)
  {
    hide Reaches, Init, Invariant;
    StartedIsInvariant(s, early, m);
    InvariantHolds(m, late, t);
    ReturnedStays(m, late, t, id);
    ClosedIsSaved(m, id);
    ClosedIsSaved(t, id);
    NothingChangesAfterClose(m, late, t);
    IdleMemory(t);
  }

  lemma IdleMemory(t: Sys)
    requires Invariant(t) && t.mutator.Nobody?
    ensures t.mem == Run(t.past.origin, t.past.log)
  {
  }

  /** A reader that visibilityMu lets in sees the committed mutations, all of them and no other. */
  lemma ReadersSeeCommittedState(s: Sys, schedule: seq<Step>, t: Sys)
    requires Started(s, schedule, t) && !VisibilityHeld(t)
    ensures t.mem == Run(s.past.origin, t.past.log) && Inv(t.mem)
  {
    hide Run, Apply, Applies, Content, Inv, Restore, WellFormed, Init;
    StartedIsInvariant(s, schedule, t);
    OriginIsFixed(s, schedule, t);
  }

  lemma {:induction false} OriginIsFixed(s: Sys, schedule: seq<Step>, t: Sys)
    requires Reaches(s, schedule, t)
    ensures t.past.origin == s.past.origin && t.past.file == s.past.file
    ensures s.past.logs <= t.past.logs
    decreases |schedule|
  {
    hide MutatorExec, WorkerExec, ClientExec;
    if schedule != [] {
      var step, next := schedule[0], Exec(s, schedule[0]).value;
      match step {
        case M(m) => MutatorKeepsDisk(s, m);
        case W(w) => WorkerKeepsPast(s, w);
        case C(c) => ClientKeepsCore(s, c);
      }
      OriginIsFixed(next, schedule[1..], t);
    }
  }

  lemma WorkerKeepsPast(s: Sys, step: WorkerStep)
    requires WorkerExec(s, step).Some?
    ensures WorkerExec(s, step).value.past == s.past
  {
  }

  /** A durable mutator that returns success has itself and all before it acknowledged (CrashRecovers says
      what that is worth); one that fails has restored memory, and when the flush of its rollback succeeded
      the disk holds the restored state and nothing else. */
  lemma MutatorOutcome(s: Sys, schedule: seq<Step>, t: Sys)
    requires Started(s, schedule, t) && t.mutator.Holding? && t.mutator.stage.Returning?
    ensures t.mem == Run(t.past.origin, t.past.log)
    ensures t.mutator.stage.outcome.Committed? && Durable(t.mutator.op) ==>
      && t.past.acked == t.past.log && t.past.log != [] && t.past.log[|t.past.log| - 1] == t.mutator.op
      && (forall k :: k in t.possible ==> t.past.acked <= LogOf(t.past, k))
    ensures t.mutator.stage.outcome.RolledBack? && t.mutator.stage.outcome.undo.None? ==>
      && t.possible == {t.revision}
      && Content(t.past, t.revision) == TakeSnapshot(t.mem.jobs)
  {
    hide Reaches, Init, Sound, TakeSnapshot, Run;
    StartedIsInvariant(s, schedule, t);
    if t.mutator.stage.outcome.RolledBack? && t.mutator.stage.outcome.undo.None? {
      var k :| k in t.possible;
      assert forall j :: j in t.possible ==> j == t.revision;
    }
  }

  lemma {:induction false} AcknowledgedOnlyGrows(s: Sys, schedule: seq<Step>, t: Sys)
    requires Invariant(s) && Reaches(s, schedule, t)
    ensures s.past.acked <= t.past.acked && s.past.log <= t.past.log
    decreases |schedule|
  {
    hide Exec;
    if schedule != [] {
      var next := Exec(s, schedule[0]).value;
      AcknowledgedStep(s, schedule[0]);
      StepKeepsInvariant(s, schedule[0]);
      AcknowledgedOnlyGrows(next, schedule[1..], t);
    }
  }

  lemma AcknowledgedStep(s: Sys, step: Step)
    requires Invariant(s) && Exec(s, step).Some?
    ensures var t := Exec(s, step).value; s.past.acked <= t.past.acked && s.past.log <= t.past.log
  {
    hide Disk, Memory, Sound, FlushersOk, Lifecycle, WorkerOk, Revisions, MutatorExec, WorkerExec, ClientExec;
    match step
    case M(m) => AcknowledgedByMutator(s, m);
    case W(w) => WorkerKeepsPast(s, w);
    case C(c) => ClientKeepsCore(s, c);
  }

  lemma AcknowledgedByMutator(s: Sys, step: MutatorStep)
    requires s.past.acked <= s.past.log && MutatorExec(s, step).Some?
    ensures var t := MutatorExec(s, step).value; s.past.acked <= t.past.acked && s.past.log <= t.past.log
  {
    hide StepFlusher, Coordinator.Publish, Apply, Applies, Admissible, Durable, TakeSnapshot;
  }

  /** The history behind revision k. */
  function LogOf(p: Past, k: nat): seq<Op> {
    if 0 < k <= |p.logs| then p.logs[k - 1] else []
  }

  /** A crash at any moment, then a restart. The file is one issued revision (or the file at start), at
      least the last one reported written. It carries everything acknowledged before, plus other
      committed mutations and at most one more. The restarted store is sound and has no unfinished job. */
  lemma CrashRecovers(s: Sys, early: seq<Step>, m: Sys, late: seq<Step>, t: Sys, k: nat)
    requires Started(s, early, m) && Reaches(m, late, t) && k in t.possible
    ensures t.coord.writtenRevision <= k <= t.revision
    ensures m.past.acked <= LogOf(t.past, k)
    ensures Extends(LogOf(t.past, k), t.past.log)
    ensures k > 0 ==> Content(t.past, k) == TakeSnapshot(Run(s.past.origin, LogOf(t.past, k)).jobs)
    ensures k == 0 ==> Content(t.past, k) == s.past.file
    ensures WellFormed(Content(t.past, k)) && Inv(Restore(Content(t.past, k)))
    ensures forall id :: id in Restore(Content(t.past, k)).jobs ==>
        IsTerminalStatus(Restore(Content(t.past, k)).jobs[id].status)
  {
    hide Exec, Init, Lifecycle, Memory, FlushersOk, Apply, Applies, Restore, Inv, WellFormed, TakeSnapshot, Run;
    StartedIsInvariant(s, early, m);
    InvariantHolds(m, late, t);
    AcknowledgedOnlyGrows(m, late, t);
    OriginIsFixed(s, early, m);
    OriginIsFixed(m, late, t);
    if k > 0 {
      SoundContent(Run(t.past.origin, t.past.logs[k - 1]));
    }
    RestoreKeepsInv(Content(t.past, k));
  }

  lemma SoundContent(s: State)
    requires Inv(s)
    ensures WellFormed(TakeSnapshot(s.jobs))
  {
    SnapshotIsWellFormed(s);
  }
}
