/** Job events (internal/server/job_executor.go:50-101, 232-264; internal/server/handlers.go:250-262).

    The executor and the cancel handler hold one event lock around each store transition and the
    event that reports it, so a transition and its event are one step here; everything else may
    happen between steps. `log` is what was broadcast, in order. */
module JobEvents {
  import opened Ordering
  import opened Retention
  import opened Jobs
  import Store = JobStore

  datatype Event =
    | Progress(id: string, progress: real)
    | Started(id: string)
    | CompletedEvent(id: string, outputs: seq<string>)
    | FailedEvent(id: string, error: string)
    | CanceledEvent(id: string, progress: real)

  predicate IsTerminalEvent(e: Event) { e.CompletedEvent? || e.FailedEvent? || e.CanceledEvent? }

  const COMPLETED_PROGRESS := 100.0

  /** The progress an event carries, if it carries one. */
  function Carried(e: Event): Option<real> {
    match e
    case Progress(_, progress) => Some(progress)
    case CompletedEvent(_, _) => Some(COMPLETED_PROGRESS)
    case CanceledEvent(_, progress) => Some(progress)
    case _ => None
  }

  /** `used` are the IDs ever given out: IDs are random and not given out twice. `rewritten` are the
      jobs whose outputs SetOutputs replaced, which it may do after the job ended. */
  datatype System = System(store: State, log: seq<Event>, used: set<string>, rewritten: set<string>)

  // ---------------------------------------------------------------- steps

  /** updateRunningProgress. `open` is whether the store still accepts mutations. */
  ghost function Report(s: System, op: Op, open: bool): System
    requires op.UpdateRunning?
  {
    if open && Applies(op, s.store) then
      s.(store := Apply(op, s.store), log := s.log + [Progress(op.id, op.progress)])
    else s
  }

  const INITIAL_PROGRESS := 2.0

  ghost function Start(s: System, id: string, now: int, open: bool): System {
    var op := UpdateRunning(id, INITIAL_PROGRESS, now);
    var t := Report(s, op, open);
    if open && Applies(op, s.store) then t.(log := t.log + [Started(id)]) else t
  }

  /** An operation that ends a job, with the event that reports it when the disk took it. */
  ghost function End(s: System, op: Op, saved: bool, event: seq<Event>): System {
    if saved && Applies(op, s.store) then s.(store := Apply(op, s.store), log := s.log + event) else s
  }

  function CanceledAt(s: State, id: string): seq<Event> {
    if id in s.jobs then [CanceledEvent(id, s.jobs[id].progress)] else []
  }

  datatype Step =
    | Running(id: string, progress: real, now: int, open: bool)
    | Starting(id: string, now: int, open: bool)
    | Failing(id: string, error: string, now: int, saved: bool)
    | Completing(id: string, outputs: seq<string>, now: int, saved: bool)
    | CancelRequested(id: string, now: int, saved: bool)
    | CancelNoticed(id: string, now: int, saved: bool)
    | Other(op: Op, saved: bool)

  /** Mutations that no event reports. UpdateJob is not among them: the server does not call it. */
  predicate Silent(op: Op) { op.Create? || op.SetLectureProgress? || op.SetFilteredLectures? || op.SetOutputs? }

  predicate Allowed(s: System, step: Step) {
    step.Other? ==> Silent(step.op) && (step.op.Create? ==> step.op.id !in s.used)
  }

  ghost function Do(s: System, step: Step): System {
    match step
    case Running(id, progress, now, open) => Report(s, UpdateRunning(id, progress, now), open)
    case Starting(id, now, open) => Start(s, id, now, open)
    case Failing(id, error, now, saved) => End(s, Fail(id, error, now), saved, [FailedEvent(id, error)])
    case Completing(id, outputs, now, saved) => End(s, Complete(id, outputs, now), saved, [CompletedEvent(id, outputs)])
    case CancelRequested(id, now, saved) => End(s, Cancel(id, now), saved, CanceledAt(s.store, id))
    case CancelNoticed(id, now, saved) => End(s, Cancel(id, now), saved, [])
    case Other(op, saved) =>
      var t := End(s, op, saved, []);
      if op.Create? then t.(used := s.used + {op.id})
      else if op.SetOutputs? then t.(rewritten := s.rewritten + {op.id})
      else t
  }

  // ---------------------------------------------------------------- invariant

  /** What may follow an event of the same job: nothing after a terminal one, and no smaller progress,
      whether reported or carried by a cancellation. */
  predicate MayFollow(e: Event, f: Event) {
    e.id == f.id ==>
      && !IsTerminalEvent(e)
      && (e.Progress? && (f.Progress? || f.CanceledEvent?) ==> e.progress <= f.progress)
  }

  ghost predicate Orderly(log: seq<Event>) {
    forall i, j :: 0 <= i < j < |log| ==> MayFollow(log[i], log[j])
  }

  /** An event's job is as the event says, gone, or, while it has not been reported to have ended, further on. */
  predicate Reached(s: State, rewritten: set<string>, e: Event) {
    e.id in s.jobs ==>
      var j := s.jobs[e.id];
      match e
      case CompletedEvent(id, outputs) =>
        && j.status == Completed && j.progress == COMPLETED_PROGRESS && j.error == ""
        && (id !in rewritten ==> j.outputs == outputs)
      case FailedEvent(_, error) => j.status == Failed && j.progress == 0.0 && j.error == error
      case CanceledEvent(_, progress) => j.status == Canceled && j.progress == progress
      case Progress(_, progress) => IsTerminalStatus(j.status) || (j.status.Running? && progress <= j.progress)
      case Started(_) => IsTerminalStatus(j.status) || j.status.Running?
  }

  /** A job that ended by completing or failing was reported. */
  ghost predicate Reported(log: seq<Event>, j: JobRecord) {
    && (j.status == Completed ==> exists e :: e in log && e.CompletedEvent? && e.id == j.id)
    && (j.status == Failed ==> exists e :: e in log && e.FailedEvent? && e.id == j.id)
  }

  /** `restored` are the jobs read from disk at startup. */
  ghost predicate Inv(s: System, restored: set<string>) {
    && Orderly(s.log)
    && (forall e :: e in s.log ==> e.id in s.used && Reached(s.store, s.rewritten, e))
    && (forall id :: id in s.store.jobs ==> id in s.used && s.store.jobs[id].id == id)
    && (forall id :: id in s.store.jobs && id !in restored ==> Reported(s.log, s.store.jobs[id]))
  }

  /** Every job after an operation is an earlier one or the one named, as the operation left it. */
  lemma ApplyTouchesOne(op: Op, s: State)
    requires Applies(op, s)
    ensures var t := Apply(op, s);
            forall id :: id in t.jobs ==>
              if id == op.id then t.jobs[id] == (if op.Create? then NewJob(op) else Edit(op, s.jobs[id]))
              else id in s.jobs && t.jobs[id] == s.jobs[id]
  {
    var w := Write(op, s);
    if Prunes(op) {
      PruneRemovesOldestTerminal(w);
    }
  }

  /** A transition and the events that report it, for an operation that is not Create. */
  ghost predicate Reports(s: System, op: Op, events: seq<Event>) {
    && Applies(op, s.store) && !op.Create? && !op.Update?
    && (Silent(op) || !IsTerminalStatus(s.store.jobs[op.id].status))
    && (events != [] ==> !Silent(op))
    && (forall e :: e in events ==>
          e.id == op.id && Reached(State(map[op.id := Edit(op, s.store.jobs[op.id])], map[]), {}, e))
    && (forall e :: e in events && (e.Progress? || e.CanceledEvent?) ==> s.store.jobs[op.id].progress <= e.progress)
    && Orderly(events)
    && (op.Complete? ==> exists e :: e in events && e.CompletedEvent?)
    && (op.Fail? ==> exists e :: e in events && e.FailedEvent?)
  }

  ghost function After(s: System, op: Op, events: seq<Event>): System
    requires Applies(op, s.store)
  {
    System(Apply(op, s.store), s.log + events, s.used, if op.SetOutputs? then s.rewritten + {op.id} else s.rewritten)
  }

  lemma LogStaysOrderly(s: System, op: Op, events: seq<Event>, restored: set<string>)
    requires Inv(s, restored) && Reports(s, op, events)
    ensures Orderly(s.log + events)
  {
    hide Reported;
    forall e, f | e in s.log && f in events
      ensures MayFollow(e, f)
    {
      assert Reached(s.store, s.rewritten, e);
    }
    OrderlyConcat(s.log, events);
  }

  lemma EventsStayReached(s: System, op: Op, events: seq<Event>, restored: set<string>)
    requires Inv(s, restored) && Reports(s, op, events)
    ensures var t := After(s, op, events); forall e :: e in t.log ==> e.id in t.used && Reached(t.store, t.rewritten, e)
  {
    ApplyTouchesOne(op, s.store);
    hide Apply, Orderly, Reported;
    var t := After(s, op, events);
    forall e | e in t.log
      ensures e.id in t.used && Reached(t.store, t.rewritten, e)
    {
      if e in s.log {
        assert Reached(s.store, s.rewritten, e);
      }
    }
  }

  lemma EndsStayReported(s: System, op: Op, events: seq<Event>, restored: set<string>)
    requires Inv(s, restored) && Reports(s, op, events)
    ensures var t := Apply(op, s.store);
            forall id :: id in t.jobs && id !in restored ==> Reported(s.log + events, t.jobs[id])
  {
    ApplyTouchesOne(op, s.store);
    hide Apply, Orderly;
    var t := Apply(op, s.store);
    forall id | id in t.jobs && id !in restored
      ensures Reported(s.log + events, t.jobs[id])
    {
      assert Reported(s.log, s.store.jobs[id]);
      ReportedLater(s.log, events, s.store.jobs[id]);
      assert forall e :: e in events ==> e in s.log + events;
    }
  }

  lemma TransitionKeepsInv(s: System, op: Op, events: seq<Event>, restored: set<string>)
    requires Inv(s, restored) && Reports(s, op, events)
    ensures Inv(After(s, op, events), restored)
  {
    ApplyTouchesOne(op, s.store);
    hide Apply, Orderly, Reported, Reached;
    LogStaysOrderly(s, op, events, restored);
    EventsStayReached(s, op, events, restored);
    EndsStayReported(s, op, events, restored);
  }

  lemma OrderlyConcat(a: seq<Event>, b: seq<Event>)
    requires Orderly(a) && Orderly(b) && forall e, f :: e in a && f in b ==> MayFollow(e, f)
    ensures Orderly(a + b)
  {
    forall i, j | 0 <= i < j < |a + b|
      ensures MayFollow((a + b)[i], (a + b)[j])
    {
      if i < |a| <= j {
        assert a[i] in a && b[j - |a|] in b;
      }
    }
  }

  lemma ReportedLater(log: seq<Event>, more: seq<Event>, j: JobRecord)
    requires Reported(log, j)
    ensures Reported(log + more, j)
  {
  }

  lemma CreateKeepsInv(s: System, op: Op, restored: set<string>)
    requires Inv(s, restored) && op.Create? && op.id !in s.used && Applies(op, s.store)
    ensures Inv(s.(store := Apply(op, s.store), used := s.used + {op.id}), restored)
  {
    assert op.id !in s.store.jobs;
    var t := s.(store := Apply(op, s.store), used := s.used + {op.id});
    forall e | e in t.log
      ensures e.id in t.used && Reached(t.store, t.rewritten, e)
    {
      assert Reached(s.store, s.rewritten, e);
    }
    forall id | id in t.store.jobs && id !in restored
      ensures Reported(t.log, t.store.jobs[id])
    {
    }
  }

  lemma DoKeepsInv(s: System, step: Step, restored: set<string>)
    requires Inv(s, restored) && Allowed(s, step)
    ensures Inv(Do(s, step), restored)
  {
    hide Apply;
    match step
    case Running(id, progress, now, open) =>
      ReportKeepsInv(s, UpdateRunning(id, progress, now), open, [], restored);
    case Starting(id, now, open) =>
      ReportKeepsInv(s, UpdateRunning(id, INITIAL_PROGRESS, now), open, [Started(id)], restored);
      var op := UpdateRunning(id, INITIAL_PROGRESS, now);
      var progress := Progress(id, INITIAL_PROGRESS);
      assert s.log + [progress] + [Started(id)] == s.log + ([progress] + [Started(id)]);
    case Failing(id, error, now, saved) =>
      EndKeepsInv(s, Fail(id, error, now), saved, [FailedEvent(id, error)], restored);
    case Completing(id, outputs, now, saved) =>
      EndKeepsInv(s, Complete(id, outputs, now), saved, [CompletedEvent(id, outputs)], restored);
    case CancelRequested(id, now, saved) =>
      EndKeepsInv(s, Cancel(id, now), saved, CanceledAt(s.store, id), restored);
    case CancelNoticed(id, now, saved) =>
      EndKeepsInv(s, Cancel(id, now), saved, [], restored);
    case Other(op, saved) =>
      OtherKeepsInv(s, op, saved, restored);
  }

  lemma ReportKeepsInv(s: System, op: Op, open: bool, more: seq<Event>, restored: set<string>)
    requires Inv(s, restored) && op.UpdateRunning? && (more == [] || more == [Started(op.id)])
    ensures Inv(Report(s, op, open), restored)
    ensures open && Applies(op, s.store) ==>
              Inv(After(s, op, [Progress(op.id, op.progress)] + more), restored)
  {
    if open && Applies(op, s.store) {
      TransitionKeepsInv(s, op, [Progress(op.id, op.progress)], restored);
      TransitionKeepsInv(s, op, [Progress(op.id, op.progress)] + more, restored);
    }
  }

  lemma EndKeepsInv(s: System, op: Op, saved: bool, events: seq<Event>, restored: set<string>)
    requires Inv(s, restored) && (op.Fail? || op.Complete? || op.Cancel?)
    requires op.Fail? ==> events == [FailedEvent(op.id, op.error)]
    requires op.Complete? ==> events == [CompletedEvent(op.id, op.outputs)]
    requires op.Cancel? ==> events == [] || events == CanceledAt(s.store, op.id)
    ensures Inv(End(s, op, saved, events), restored)
  {
    if saved && Applies(op, s.store) {
      assert op.Complete? ==> CompletedEvent(op.id, op.outputs) in events;
      assert op.Fail? ==> FailedEvent(op.id, op.error) in events;
      TransitionKeepsInv(s, op, events, restored);
    }
  }

  lemma OtherKeepsInv(s: System, op: Op, saved: bool, restored: set<string>)
    requires Inv(s, restored) && Allowed(s, Other(op, saved))
    ensures Inv(Do(s, Other(op, saved)), restored)
  {
    hide Apply;
    if saved && Applies(op, s.store) {
      if op.Create? {
        CreateKeepsInv(s, op, restored);
        assert s.log + [] == s.log;
      } else {
        TransitionKeepsInv(s, op, [], restored);
      }
    } else if op.Create? {
      assert Inv(s.(used := s.used + {op.id}), restored);
    }
  }

  // ---------------------------------------------------------------- runs

  ghost predicate Next(s: System, t: System) {
    exists step :: Allowed(s, step) && t == Do(s, step)
  }

  /** A run from startup: the store holds what was read from disk, and nothing was broadcast yet. */
  ghost predicate Run(states: seq<System>) {
    && states != [] && states[0].log == [] && states[0].store.jobs.Keys <= states[0].used
    && (forall id :: id in states[0].store.jobs ==> states[0].store.jobs[id].id == id)
    && forall i :: 0 < i < |states| ==> Next(states[i - 1], states[i])
  }

  lemma {:induction false} InvariantHolds(states: seq<System>, i: nat)
    requires Run(states) && i < |states|
    ensures Inv(states[i], states[0].store.jobs.Keys)
  {
    if i > 0 {
      InvariantHolds(states, i - 1);
      assert Next(states[i - 1], states[i]);
      var step :| Allowed(states[i - 1], step) && states[i] == Do(states[i - 1], step);
      DoKeepsInv(states[i - 1], step, states[0].store.jobs.Keys);
    }
  }

  /** In any run, a job has at most one terminal event and nothing about it is reported after that. The
      progress its events carry never falls, but for one case: the completed event says 100, whatever was
      reported before. */
  lemma EventsAreOrderly(states: seq<System>, i: nat, a: nat, b: nat)
    requires Run(states) && i < |states| && a < b < |states[i].log| && states[i].log[a].id == states[i].log[b].id
    ensures !IsTerminalEvent(states[i].log[a])
    ensures var e, f := states[i].log[a], states[i].log[b];
            Carried(e).Some? && Carried(f).Some? ==>
              (Carried(e).value <= Carried(f).value <==> !(f.CompletedEvent? && Carried(e).value > COMPLETED_PROGRESS))
  {
    InvariantHolds(states, i);
    assert MayFollow(states[i].log[a], states[i].log[b]);
  }

  /** What the executor reports: fixed values, and shares of the lectures whose slides and whose streams
      are done. */
  datatype Phase =
    | Initializing | LoggingIn | FetchingLectures
    | DownloadingSlides(lecture: nat, lectures: nat)
    | FetchingPlaylists
    | Downloading(done: nat, total: nat)

  predicate ValidPhase(phase: Phase) {
    match phase
    case DownloadingSlides(lecture, lectures) => lecture < lectures
    case Downloading(done, total) => done <= total && 0 < total
    case _ => true
  }

  function ProgressOf(phase: Phase): real
    requires ValidPhase(phase)
  {
    match phase
    case Initializing => INITIAL_PROGRESS
    case LoggingIn => 8.0
    case FetchingLectures => 15.0
    case DownloadingSlides(lecture, lectures) => 15.0 + (lecture + 1) as real / lectures as real * 10.0
    case FetchingPlaylists => 30.0
    case Downloading(done, total) => 40.0 + done as real / total as real * 55.0
  }

  lemma ShareIsAtMostOne(part: nat, whole: nat)
    requires part <= whole && 0 < whole
    ensures var share := part as real / whole as real;
            0.0 <= share <= 1.0 && (share == 0.0 <==> part == 0) && (share == 1.0 <==> part == whole)
  {
    assert part as real / whole as real * whole as real == part as real;
  }

  /** So no report of the executor passes 100, and slides and streams stay within their own bands. */
  lemma ExecutorStaysBelowCompleted(phase: Phase)
    requires ValidPhase(phase)
    ensures 2.0 <= ProgressOf(phase) <= 95.0 < COMPLETED_PROGRESS
    ensures phase.DownloadingSlides? ==>
              15.0 < ProgressOf(phase) <= 25.0 && (ProgressOf(phase) == 25.0 <==> phase.lecture + 1 == phase.lectures)
    ensures phase.Downloading? ==>
              && 40.0 <= ProgressOf(phase) && (ProgressOf(phase) == 40.0 <==> phase.done == 0)
              && (ProgressOf(phase) == 95.0 <==> phase.done == phase.total)
  {
    match phase
    case DownloadingSlides(lecture, lectures) => ShareIsAtMostOne(lecture + 1, lectures);
    case Downloading(done, total) => ShareIsAtMostOne(done, total);
    case _ =>
  }

  /** In any run, a job with a terminal event is stored as that event says, unless it was dropped from the
      history, and no other event is ahead of the job it is about. */
  lemma EventsMatchTheStore(states: seq<System>, i: nat, e: Event)
    requires Run(states) && i < |states| && e in states[i].log && e.id in states[i].store.jobs
    ensures var j := states[i].store.jobs[e.id];
            match e
            case CompletedEvent(id, outputs) =>
              && j.status == Completed && j.progress == 100.0 && j.error == ""
              && (id !in states[i].rewritten ==> j.outputs == outputs)
            case FailedEvent(_, error) => j.status == Failed && j.progress == 0.0 && j.error == error
            case CanceledEvent(_, progress) => j.status == Canceled && j.progress == progress
            case Progress(_, progress) => IsTerminalStatus(j.status) || (j.status.Running? && progress <= j.progress)
            case Started(_) => j.status != Pending
  {
    InvariantHolds(states, i);
    assert Reached(states[i].store, states[i].rewritten, e);
  }

  /** The other way round: a job that completed or failed since startup has its event. */
  lemma EndedJobsWereReported(states: seq<System>, i: nat, id: string)
    requires Run(states) && i < |states| && id in states[i].store.jobs && id !in states[0].store.jobs
    ensures var j := states[i].store.jobs[id];
            && (j.status == Failed ==> FailedEvent(id, j.error) in states[i].log)
            && (j.status == Completed ==>
                  exists outputs :: CompletedEvent(id, outputs) in states[i].log
                    && (id !in states[i].rewritten ==> outputs == j.outputs))
  {
    InvariantHolds(states, i);
    var s, j := states[i], states[i].store.jobs[id];
    assert Reported(s.log, j);
    if j.status == Failed {
      var e :| e in s.log && e.FailedEvent? && e.id == id;
      assert Reached(s.store, s.rewritten, e);
    }
    if j.status == Completed {
      var e :| e in s.log && e.CompletedEvent? && e.id == id;
      assert Reached(s.store, s.rewritten, e);
      assert CompletedEvent(id, e.outputs) in s.log;
    }
  }

  /** A step broadcasts only when the transition it reports was applied in that step. */
  lemma NoEventWithoutTransition(s: System, step: Step)
    requires Allowed(s, step) && Do(s, step).log != s.log
    ensures !step.Other? && !step.CancelNoticed?
    ensures step.id in s.store.jobs && !IsTerminalStatus(s.store.jobs[step.id].status)
    ensures Do(s, step).store ==
            match step
            case Running(id, progress, now, _) => Apply(UpdateRunning(id, progress, now), s.store)
            case Starting(id, now, _) => Apply(UpdateRunning(id, INITIAL_PROGRESS, now), s.store)
            case Failing(id, error, now, _) => Apply(Fail(id, error, now), s.store)
            case Completing(id, outputs, now, _) => Apply(Complete(id, outputs, now), s.store)
            case CancelRequested(id, now, _) => Apply(Cancel(id, now), s.store)
            case _ => s.store
    ensures Do(s, step).log == s.log +
            match step
            case Running(id, progress, _, _) => [Progress(id, progress)]
            case Starting(id, _, _) => [Progress(id, 2.0), Started(id)]
            case Failing(id, error, _, _) => [FailedEvent(id, error)]
            case Completing(id, outputs, _, _) => [CompletedEvent(id, outputs)]
            case CancelRequested(id, _, _) => [CanceledEvent(id, s.store.jobs[id].progress)]
            case _ => []
  {
    hide Apply;
    assert s.log + [] == s.log;
  }

  // ---------------------------------------------------------------- the program

  class EventSource {
    const store: Store.JobStore
    var log: seq<Event>
    ghost var used: set<string>
    ghost var rewritten: set<string>

    ghost function View(): System
      reads this, store
    {
      System(store.View(), log, used, rewritten)
    }

    constructor (store: Store.JobStore)
      ensures this.store == store && log == [] && used == store.jobs.Keys && rewritten == {}
    {
      this.store, log, used, rewritten := store, [], store.jobs.Keys, {};
    }

    method UpdateRunningProgressLocked(id: string, progress: real, now: int) returns (applied: bool)
      modifies this, store
      ensures View() == Report(old(View()), UpdateRunning(id, progress, now), !old(store.closed))
      ensures applied <==> old(store.Accepts(UpdateRunning(id, progress, now)))
      ensures store.closed == old(store.closed)
    {
      hide Apply;
      var err;
      applied, err := store.UpdateRunningIfActive(UpdateRunning(id, progress, now));
      if err.Some? || !applied {
        return false;
      }
      log := log + [Progress(id, progress)];
    }

    method StartJob(id: string, now: int) returns (applied: bool)
      modifies this, store
      ensures View() == Start(old(View()), id, now, !old(store.closed))
    {
      hide Apply;
      applied := UpdateRunningProgressLocked(id, INITIAL_PROGRESS, now);
      if !applied {
        return false;
      }
      log := log + [Started(id)];
    }

    /** A durable mutation is saved when the store is open and the flush succeeds. */
    predicate Saves(persist: Option<string>)
      reads store
    {
      !store.closed && persist.None?
    }

    method CompleteJob(id: string, outputs: seq<string>, now: int, persist: Option<string>, undo: Option<string>)
      modifies this, store
      ensures View() == End(old(View()), Complete(id, outputs, now), old(Saves(persist)), [CompletedEvent(id, outputs)])
    {
      hide Apply;
      var err := store.CompleteJob(Complete(id, outputs, now), persist, undo);
      if err.Some? {
        return;
      }
      log := log + [CompletedEvent(id, outputs)];
    }

    method FailJob(id: string, error: string, now: int, persist: Option<string>, undo: Option<string>)
      modifies this, store
      ensures View() == End(old(View()), Fail(id, error, now), old(Saves(persist)), [FailedEvent(id, error)])
    {
      hide Apply;
      var applied, err := store.FailJobIfNonTerminal(Fail(id, error, now), persist, undo);
      if err.Some? {
        return;
      }
      if !applied {
        return;
      }
      log := log + [FailedEvent(id, error)];
    }

    /** The handler's cancelJob. */
    method CancelJob(id: string, now: int, persist: Option<string>, undo: Option<string>)
      returns (err: Option<Store.StoreError>)
      modifies this, store
      ensures View() == End(old(View()), Cancel(id, now), old(Saves(persist)), CanceledAt(old(store.View()), id))
    {
      hide Apply;
      var job;
      job, err := store.CancelJob(Cancel(id, now), persist, undo);
      if err.Some? {
        return;
      }
      log := log + [CanceledEvent(id, job.value.progress)];
    }

    /** The executor noticing that its context ended cancels the job without an event. */
    method HandleCancelIfNeeded(id: string, ended: bool, now: int, persist: Option<string>, undo: Option<string>)
      returns (handled: bool)
      modifies this, store
      ensures handled == ended
      ensures View() == if ended then End(old(View()), Cancel(id, now), old(Saves(persist)), []) else old(View())
    {
      hide Apply;
      if !ended {
        return false;
      }
      var _, _ := store.CancelJob(Cancel(id, now), persist, undo);
      assert log + [] == log;
      return true;
    }
  }
}
