/** The worst the disk can do (internal/server/job_persistence.go:64-134, persistence_coordinator.go:180-212):
    for every schedule of the job store there is a course of the disk, run by the file writer itself, in
    which a crash may leave every revision that the store counts as possible. So the set `possible` is the
    least that the store, which is not told how a save failed, could count on. */
module WorstDisk {
  import opened Ordering
  import opened Jobs
  import opened StoreSystem
  import opened StoreGuarantees
  import opened StoreOnDisk
  import opened RejectedMutation
  import SaveFile

  /** After the rename nothing succeeds: neither name binding is on disk for good. */
  const WORST := SaveFile.ALL_WELL.(syncDir := false, rollback := false, syncRollback := false)

  /** Every possible revision is left on the disk, or is being saved. */
  ghost predicate AllLeft(w: World) {
    w.sys.possible == Exposed(w)
  }

  /** What the worker saves in a schedule, and whether it succeeds. */
  ghost function Plan(s: Sys, schedule: seq<Step>): seq<(Snapshot, bool)>
    decreases |schedule|
  {
    if schedule == [] || Exec(s, schedule[0]).None? then []
    else
      var rest := Plan(Exec(s, schedule[0]).value, schedule[1..]);
      if IsSave(schedule[0]) && s.worker.Saving? then [(s.worker.snapshot, schedule[0].w.ok)] + rest else rest
  }

  predicate IsSave(step: Step) {
    step.W? && step.w.Save?
  }

  lemma OtherKeepsAllLeft(s: Sys, step: Step)
    requires Invariant(s) && Exec(s, step).Some? && !IsSave(step)
    ensures var t := Exec(s, step).value;
      if s.worker.Saving? then t.worker == s.worker && t.possible == s.possible
      else t.possible == s.possible + (if t.worker.Saving? then {t.worker.rev} else {})
  {
    hide Memory, History, Sound, FlushersOk, Lifecycle, MutatorExec, ClientExec, Content;
    match step
    case M(m) => MutatorKeepsDisk(s, m);
    case W(w) =>
    case C(c) => ClientKeepsCore(s, c);
  }

  /** Goes on to the next save, or to the end of the schedule. */
  lemma {:induction false} UpToSave(found: Option<Snapshot>, w: World, schedule: seq<Step>, t: Sys)
    returns (turns: seq<Turn>, last: World, rest: seq<Step>)
    requires WorldOk(found, w) && AllLeft(w) && Reaches(w.sys, schedule, t)
    ensures Runs(w, turns, last) && last.fs == w.fs && WorldOk(found, last) && AllLeft(last)
    ensures Reaches(last.sys, rest, t) && Plan(last.sys, rest) == Plan(w.sys, schedule)
    ensures if Plan(w.sys, schedule) == [] then rest == [] else rest != [] && IsSave(rest[0])
    decreases |schedule|
  {
    hide Exec, Invariant, DiskOk, LeftBy;
    if schedule == [] || IsSave(schedule[0]) {
      turns, last, rest := [], w, schedule;
      if schedule != [] {
        OnlySavingSaves(w.sys, schedule[0]);
      }
    } else {
      var turn := Other(schedule[0]);
      var next := Advance(w, turn).value;
      TurnKeepsWorld(found, w, turn);
      OtherKeepsAllLeft(w.sys, schedule[0]);
      turns, last, rest := UpToSave(found, next, schedule[1..], t);
      turns := [turn] + turns;
      assert turns[0] == turn;
    }
  }

  lemma OnlySavingSaves(s: Sys, step: Step)
    requires IsSave(step) && Exec(s, step).Some?
    ensures s.worker.Saving? && Exec(s, step).value == AfterSave(s, step.w.ok)
  {
  }

  lemma WorstAnswers(dir: SaveFile.Dir)
    ensures SaveFile.Answer(SaveFile.ALL_WELL, dir) == None
    ensures SaveFile.Answer(WORST, dir) == Some(SaveFile.SyncFailed(false, false))
  {
  }

  lemma WorstKeepsAllLeft(w: World, after: FileSystem, err: Option<SaveFile.SaveError>)
    requires w.sys.worker.Saving? && AllLeft(w)
    requires err == None || err == Some(SaveFile.SyncFailed(false, false))
    ensures AllLeft(SavedTo(w, after, err))
  {
    var t := SavedTo(w, after, err);
    assert t.saves[..|t.saves| - 1] == w.saves;
  }

  /** One more save, as the schedule says. */
  method SaveAsPlanned(p: SaveFile.Persistence<Snapshot>, snapshot: Snapshot, ok: bool, ghost found: Option<Snapshot>,
                       ghost w: World)
    returns (ghost turn: Turn, ghost next: World)
    requires WorldOk(found, w) && w.fs == p.fs && AllLeft(w)
    requires w.sys.worker.Saving? && w.sys.worker.snapshot == snapshot
    modifies p
    ensures Advance(w, turn) == Some(next) && next.fs == p.fs && next.sys == AfterSave(w.sys, ok)
    ensures WorldOk(found, next) && AllLeft(next)
  {
    hide Invariant, DiskOk, AllLeft, SaveFile.Answer, AfterSave, Advance;
    WorstAnswers(p.fs.dir);
    var err;
    err, turn := SaveLatest(p, snapshot, if ok then SaveFile.ALL_WELL else WORST, found, w);
    next := SavedTo(w, p.fs, err);
    WorstKeepsAllLeft(w, p.fs, err);
  }

  /** The file writer, failing in the worst way wherever the schedule says that a save fails. */
  method Course(p: SaveFile.Persistence<Snapshot>, plan: seq<(Snapshot, bool)>, ghost found: Option<Snapshot>,
                ghost w: World, ghost schedule: seq<Step>, ghost t: Sys)
    returns (ghost turns: seq<Turn>, ghost last: World)
    requires WorldOk(found, w) && w.fs == p.fs && AllLeft(w)
    requires Reaches(w.sys, schedule, t) && plan == Plan(w.sys, schedule)
    modifies p
    ensures Runs(w, turns, last) && last.sys == t && last.fs == p.fs && WorldOk(found, last) && AllLeft(last)
    decreases |plan|
  {
    hide Exec, WorldOk, AllLeft, Advance, AfterSave;
    ghost var m, rest;
    turns, m, rest := UpToSave(found, w, schedule, t);
    last := m;
    if |plan| > 0 {
      OnlySavingSaves(m.sys, rest[0]);
      ghost var turn, next, more;
      turn, next := SaveAsPlanned(p, plan[0].0, plan[0].1, found, m);
      RunsOneMore(w, turns, m, turn);
      more, last := Course(p, plan[1..], found, next, rest[1..], t);
      RunsJoin(w, turns + [turn], next, more, last);
      turns := turns + [turn] + more;
    }
  }

  lemma AllLeftIsOnDisk(found: Option<Snapshot>, w: World, k: nat)
    requires WorldOk(found, w) && AllLeft(w) && k in w.sys.possible && !(w.sys.worker.Saving? && w.sys.worker.rev == k)
    ensures SaveFile.CrashMayLeave(w.fs, FileAt(found, w.sys.past, k))
  {
    hide Invariant, FileAt, LeftBy, LiveBy, SaveFile.CrashMayLeave, SaveFile.LiveContent, SaveFile.Left, SaveFile.Sound;
    SaveFile.LeftIsExact(w.fs, FileAt(found, w.sys.past, k));
  }

  /** For every schedule there is a course of the disk in which a crash may leave each possible revision, but
      for one that is just being saved. A rejected mutation that may come back, as far as the store can
      tell, then does with some surviving directory. */
  method PossibleMeansPossible(p: SaveFile.Persistence<Snapshot>, plan: seq<(Snapshot, bool)>,
                               ghost found: Option<Snapshot>, ghost w: World, ghost schedule: seq<Step>, ghost t: Sys)
    returns (ghost turns: seq<Turn>, ghost last: World)
    requires Begins(found, w) && w.fs == p.fs && Reaches(w.sys, schedule, t) && plan == Plan(w.sys, schedule)
    modifies p
    ensures Runs(w, turns, last) && last.sys == t && last.fs == p.fs
    ensures forall k :: k in t.possible && !(t.worker.Saving? && t.worker.rev == k) ==>
      SaveFile.CrashMayLeave(p.fs, FileAt(found, t.past, k))
    ensures Rejected(t) && t.revision - 1 in t.possible ==>
      SaveFile.CrashMayLeave(p.fs, Some(Content(t.past, t.revision - 1)))
  {
    hide WorldOk, Runs, Reaches, Init, Plan, Rejected, Content, SaveFile.CrashMayLeave;
    BeginsOk(found, w);
    InitHoldsTheFile(w.sys);
    InitIsIdle(w.sys);
    turns, last := Course(p, plan, found, w, schedule, t);
    forall k | k in t.possible && !(t.worker.Saving? && t.worker.rev == k)
      ensures SaveFile.CrashMayLeave(p.fs, FileAt(found, t.past, k))
    {
      AllLeftIsOnDisk(found, last, k);
    }
    if Rejected(t) {
      RejectedMayReturnIff(w.sys, schedule, t);
    }
  }

  lemma InitIsIdle(s: Sys)
    requires Init(s)
    ensures s.worker.Idle?
  {
  }
}
