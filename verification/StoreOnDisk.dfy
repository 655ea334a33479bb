/** The job store on its disk: the system of StoreSystem with the file writer of SaveFile doing the
    worker's saves (internal/server/persistence_coordinator.go, job_persistence.go, store_persistence.go).
    Here the revisions of StoreSystem get their meaning on the file system: which files a crash may leave
    is exactly what the answers of the saves so far say, and never more than the set `possible`. */
module StoreOnDisk {
  import opened Ordering
  import opened Jobs
  import opened StoreSystem
  import opened StoreGuarantees
  import SaveFile

  type FileSystem = SaveFile.Fs<Snapshot>

  /** A live file as load reads it: a missing file is no jobs. */
  function Loaded(file: Option<Snapshot>): Snapshot {
    if file.None? then map[] else file.value
  }

  /** The live file that stands for revision k, when the process found `found` at its start. */
  ghost function FileAt(found: Option<Snapshot>, p: Past, k: nat): Option<Snapshot> {
    if k == 0 then found else Some(Content(p, k))
  }

  ghost function Recorded(found: Option<Snapshot>, p: Past, revisions: set<nat>): set<Option<Snapshot>> {
    set k | k in revisions :: FileAt(found, p, k)
  }

  // ---- What the answers of the saves say ----

  datatype SaveRecord = SaveRecord(rev: nat, err: Option<SaveFile.SaveError>)

  /** The revision that is live after these saves; 0 is the file at start. */
  function LiveBy(saves: seq<SaveRecord>): nat {
    if saves == [] then 0
    else
      var x := saves[|saves| - 1];
      SaveFile.LiveAfter(LiveBy(saves[..|saves| - 1]), x.rev, x.err)
  }

  /** The revisions that a crash after these saves may leave. */
  function LeftBy(saves: seq<SaveRecord>): set<nat> {
    if saves == [] then {0}
    else
      var x, init := saves[|saves| - 1], saves[..|saves| - 1];
      SaveFile.LeftAfter(LeftBy(init), LiveBy(init), x.rev, x.err)
  }

  /** Revision k got under the live name with the i-th save, or was there at the start. */
  predicate PutAt(saves: seq<SaveRecord>, k: nat, i: nat) {
    i <= |saves| && (if i == 0 then k == 0 else saves[i - 1].rev == k && SaveFile.Replaced(saves[i - 1].err))
  }

  /** From that save on, no save has put another revision on disk for good. */
  predicate KeptFrom(saves: seq<SaveRecord>, k: nat, i: nat) {
    forall j :: 0 <= j < |saves| && i <= j + 1 && SaveFile.Settled(saves[j].err) ==> LiveBy(saves[..j + 1]) == k
  }

  ghost predicate Survives(saves: seq<SaveRecord>, k: nat) {
    exists i: nat :: PutAt(saves, k, i) && KeptFrom(saves, k, i)
  }

  lemma {:induction false} LiveIsLeft(saves: seq<SaveRecord>)
    ensures LiveBy(saves) in LeftBy(saves)
  {
    if saves != [] {
      LiveIsLeft(saves[..|saves| - 1]);
    }
  }

  lemma KeptOneMore(saves: seq<SaveRecord>, k: nat, i: nat)
    requires saves != [] && i < |saves|
    ensures var init, x := saves[..|saves| - 1], saves[|saves| - 1];
      && (PutAt(saves, k, i) <==> PutAt(init, k, i))
      && (KeptFrom(saves, k, i) <==> KeptFrom(init, k, i) && (SaveFile.Settled(x.err) ==> LiveBy(saves) == k))
  {
    hide LiveBy;
    var init := saves[..|saves| - 1];
    assert saves[..|saves|] == saves;
    assert forall j :: 0 <= j < |init| ==> init[j] == saves[j] && init[..j + 1] == saves[..j + 1];
  }

  lemma KeptByLast(saves: seq<SaveRecord>, k: nat)
    requires saves != []
    ensures KeptFrom(saves, k, |saves|) <==> (SaveFile.Settled(saves[|saves| - 1].err) ==> LiveBy(saves) == k)
  {
    hide LiveBy;
    assert saves[..|saves|] == saves;
  }

  /** A crash may leave revision k if and only if a save of it got past the rename, or it was there at the
      start, and from then on whatever a save put on disk for good was again k. */
  lemma {:induction false} SurvivesIff(saves: seq<SaveRecord>, k: nat)
    ensures k in LeftBy(saves) <==> Survives(saves, k)
  {
    if saves == [] {
      if k == 0 {
        assert PutAt(saves, k, 0) && KeptFrom(saves, k, 0);
      }
    } else {
      var n := |saves| - 1;
      var init, x := saves[..n], saves[n];
      SurvivesIff(init, k);
      LiveIsLeft(init);
      KeptByLast(saves, k);
      if i: nat :| PutAt(init, k, i) && KeptFrom(init, k, i) {
        KeptOneMore(saves, k, i);
      }
      if i: nat :| PutAt(saves, k, i) && KeptFrom(saves, k, i) {
        if i <= n {
          KeptOneMore(saves, k, i);
        }
      }
      if x.rev == k && SaveFile.Replaced(x.err) {
        assert PutAt(saves, k, n + 1);
      }
    }
  }

  // ---- Turns ----

  /** `saves` is history: the saves that have ended, with their answers. */
  datatype World = World(sys: Sys, fs: FileSystem, saves: seq<SaveRecord>)

  /** Everything but a save leaves the disk alone. A save takes it to `after` by way of `during`. */
  datatype Turn =
    | Other(step: Step)
    | Saves(during: seq<FileSystem>, after: FileSystem, err: Option<SaveFile.SaveError>)

  /** A saving turn is what the contract of SaveFile.Persistence.Save says of the snapshot at hand. */
  ghost function Advance(w: World, turn: Turn): Option<World> {
    match turn
    case Other(step) =>
      if step.W? && step.w.Save? then None
      else (match Exec(w.sys, step)
            case None => None
            case Some(next) => Some(w.(sys := next)))
    case Saves(during, after, err) =>
      if w.sys.worker.Saving? && SaveFile.Promised(w.fs, w.sys.worker.snapshot, during, after, err) then
        Some(SavedTo(w, after, err))
      else
        None
  }

  function SavedTo(w: World, after: FileSystem, err: Option<SaveFile.SaveError>): World
    requires w.sys.worker.Saving?
  {
    World(AfterSave(w.sys, err.None?), after, w.saves + [SaveRecord(w.sys.worker.rev, err)])
  }

  ghost predicate Runs(w: World, turns: seq<Turn>, last: World)
    decreases |turns|
  {
    if turns == [] then w == last
    else match Advance(w, turns[0])
      case None => false
      case Some(next) => Runs(next, turns[1..], last)
  }

  lemma {:induction false} RunsJoin(w: World, early: seq<Turn>, m: World, late: seq<Turn>, last: World)
    requires Runs(w, early, m) && Runs(m, late, last)
    ensures Runs(w, early + late, last)
    decreases |early|
  {
    hide Advance;
    if early == [] {
      assert early + late == late;
    } else {
      RunsJoin(Advance(w, early[0]).value, early[1..], m, late, last);
      assert (early + late)[0] == early[0] && (early + late)[1..] == early[1..] + late;
    }
  }

  lemma RunsOneMore(w: World, turns: seq<Turn>, last: World, turn: Turn)
    requires Runs(w, turns, last) && Advance(last, turn).Some?
    ensures Runs(w, turns + [turn], Advance(last, turn).value)
  {
    hide Advance;
    var next := Advance(last, turn).value;
    assert [turn][1..] == [] && Runs(next, [], next);
    RunsJoin(w, turns, last, [turn], next);
  }

  /** A process that starts on a disk whose live file is `found`, whatever directory a crash leaves. */
  ghost predicate Begins(found: Option<Snapshot>, w: World) {
    Init(w.sys) && w.sys.past.file == Loaded(found) && SaveFile.Safe(w.fs, {found}) && w.saves == []
  }

  /** What a crash may leave are exactly the files of the revisions that the saves have left, each of them
      possible, and the live file is that of the live one. */
  ghost predicate DiskOk(found: Option<Snapshot>, w: World) {
    && SaveFile.Sound(w.fs)
    && SaveFile.Left(w.fs) == Recorded(found, w.sys.past, LeftBy(w.saves))
    && SaveFile.LiveContent(w.fs) == FileAt(found, w.sys.past, LiveBy(w.saves))
    && LeftBy(w.saves) <= w.sys.possible
  }

  ghost predicate WorldOk(found: Option<Snapshot>, w: World) {
    Invariant(w.sys) && w.sys.past.file == Loaded(found) && DiskOk(found, w)
  }

  lemma BeginsOk(found: Option<Snapshot>, w: World)
    requires Begins(found, w)
    ensures WorldOk(found, w)
  {
    hide Init, Invariant, SaveFile.Safe, SaveFile.Left, SaveFile.LiveContent, SaveFile.Sound;
    InitIsInvariant(w.sys);
    InitHoldsTheFile(w.sys);
    SaveFile.SafeIsSound(w.fs, {found});
    assert Recorded(found, w.sys.past, {0}) == {found};
  }

  lemma InitHoldsTheFile(s: Sys)
    requires Init(s)
    ensures s.possible == {0}
  {
  }

  // ---- Every turn ----

  /** Issued revisions keep their content, and the set of possible ones only grows outside a save. */
  lemma OtherKeepsFiles(found: Option<Snapshot>, s: Sys, step: Step)
    requires Invariant(s) && Exec(s, step).Some? && !(step.W? && step.w.Save?)
    ensures var t := Exec(s, step).value;
      && s.possible <= t.possible && t.past.file == s.past.file
      && forall k :: k in s.possible ==> FileAt(found, t.past, k) == FileAt(found, s.past, k)
  {
    hide Memory, History, Sound, FlushersOk, Lifecycle, MutatorExec, ClientExec, Run, TakeSnapshot;
    var t := Exec(s, step).value;
    match step {
      case M(m) => MutatorKeepsDisk(s, m);
      case W(w) => WorkerKeepsPast(s, w);
      case C(c) => ClientKeepsCore(s, c);
    }
    assert s.possible <= t.possible && s.past.logs <= t.past.logs;
  }

  lemma OtherKeepsDisk(found: Option<Snapshot>, w: World, step: Step)
    requires WorldOk(found, w) && Exec(w.sys, step).Some? && !(step.W? && step.w.Save?)
    ensures DiskOk(found, w.(sys := Exec(w.sys, step).value))
  {
    hide Invariant, Exec, FileAt, LeftBy, LiveBy, SaveFile.Sound, SaveFile.Left, SaveFile.LiveContent;
    OtherKeepsFiles(found, w.sys, step);
    LiveIsLeft(w.saves);
    var t := Exec(w.sys, step).value;
    assert Recorded(found, t.past, LeftBy(w.saves)) == Recorded(found, w.sys.past, LeftBy(w.saves));
  }

  /** The files of what a save leaves are what it leaves of the files. */
  lemma RecordedAfter(found: Option<Snapshot>, p: Past, left: set<nat>, was: nat, rev: nat,
                      err: Option<SaveFile.SaveError>)
    ensures Recorded(found, p, SaveFile.LeftAfter(left, was, rev, err))
         == SaveFile.LeftAfter(Recorded(found, p, left), FileAt(found, p, was), FileAt(found, p, rev), err)
  {
    hide FileAt;
  }

  lemma SnapshotIsTheFile(found: Option<Snapshot>, s: Sys)
    requires Invariant(s) && s.worker.Saving?
    ensures FileAt(found, s.past, s.worker.rev) == Some(s.worker.snapshot) && s.worker.rev in s.possible
  {
    hide Memory, History, Sound, FlushersOk, Lifecycle, Content;
  }

  lemma SaveKeepsDisk(found: Option<Snapshot>, w: World, during: seq<FileSystem>, after: FileSystem,
                      err: Option<SaveFile.SaveError>)
    requires WorldOk(found, w) && w.sys.worker.Saving?
    requires SaveFile.Promised(w.fs, w.sys.worker.snapshot, during, after, err)
    ensures DiskOk(found, SavedTo(w, after, err))
  {
    hide Invariant, FileAt, Recorded, SaveFile.Sound, SaveFile.Left, SaveFile.LiveContent;
    var t, rev := SavedTo(w, after, err), w.sys.worker.rev;
    assert t.saves[..|t.saves| - 1] == w.saves;
    SnapshotIsTheFile(found, w.sys);
    RecordedAfter(found, w.sys.past, LeftBy(w.saves), LiveBy(w.saves), rev, err);
    LiveIsLeft(w.saves);
  }

  lemma SaveIsAStep(s: Sys, ok: bool)
    requires s.worker.Saving?
    ensures Exec(s, W(Save(ok))) == Some(AfterSave(s, ok)) && AfterSave(s, ok).past == s.past
  {
  }

  lemma TurnKeepsWorld(found: Option<Snapshot>, w: World, turn: Turn)
    requires WorldOk(found, w) && Advance(w, turn).Some?
    ensures WorldOk(found, Advance(w, turn).value)
  {
    hide Invariant, Exec, AfterSave, DiskOk, SaveFile.Promised;
    match turn
    case Other(step) =>
      StepKeepsInvariant(w.sys, step);
      OtherKeepsFiles(found, w.sys, step);
      OtherKeepsDisk(found, w, step);
    case Saves(during, after, err) =>
      SaveIsAStep(w.sys, err.None?);
      StepKeepsInvariant(w.sys, W(Save(err.None?)));
      SaveKeepsDisk(found, w, during, after, err);
  }

  lemma {:induction false} WorldHolds(found: Option<Snapshot>, w: World, turns: seq<Turn>, last: World)
    requires WorldOk(found, w) && Runs(w, turns, last)
    ensures WorldOk(found, last)
    decreases |turns|
  {
    hide WorldOk, Advance;
    if turns != [] {
      TurnKeepsWorld(found, w, turns[0]);
      WorldHolds(found, Advance(w, turns[0]).value, turns[1..], last);
    }
  }

  /** In every run, a crash may leave exactly the files of the revisions that survive the saves so far. */
  lemma DiskIsExact(found: Option<Snapshot>, w: World, turns: seq<Turn>, last: World, file: Option<Snapshot>)
    requires Begins(found, w) && Runs(w, turns, last)
    ensures SaveFile.CrashMayLeave(last.fs, file)
       <==> (exists k :: Survives(last.saves, k) && FileAt(found, last.sys.past, k) == file)
    ensures forall k :: Survives(last.saves, k) ==> k in last.sys.possible
  {
    hide Begins, Runs, Invariant, LeftBy, LiveBy, Survives, FileAt;
    hide SaveFile.Sound, SaveFile.Left, SaveFile.LiveContent, SaveFile.CrashMayLeave;
    BeginsOk(found, w);
    WorldHolds(found, w, turns, last);
    SaveFile.LeftIsExact(last.fs, file);
    forall k: nat
      ensures k in LeftBy(last.saves) <==> Survives(last.saves, k)
    {
      SurvivesIff(last.saves, k);
    }
  }

  /** A run on the disk is a run of the system. */
  lemma {:induction false} RunIsASchedule(w: World, turns: seq<Turn>, last: World) returns (schedule: seq<Step>)
    requires Runs(w, turns, last)
    ensures Reaches(w.sys, schedule, last.sys)
    decreases |turns|
  {
    hide Exec, AfterSave, SaveFile.Promised;
    if turns == [] {
      schedule := [];
    } else {
      var next := Advance(w, turns[0]).value;
      var step := if turns[0].Other? then turns[0].step else W(Save(turns[0].err.None?));
      if turns[0].Saves? {
        SaveIsAStep(w.sys, turns[0].err.None?);
      }
      var rest := RunIsASchedule(next, turns[1..], last);
      schedule := [step] + rest;
      assert schedule[0] == step && schedule[1..] == rest;
    }
  }

  // ---- The file writer does what a saving turn says ----

  /** writeLatest's call of save. */
  method SaveLatest(p: SaveFile.Persistence<Snapshot>, snapshot: Snapshot, f: SaveFile.Faults,
                    ghost found: Option<Snapshot>, ghost w: World)
    returns (err: Option<SaveFile.SaveError>, ghost turn: Turn)
    requires WorldOk(found, w) && w.fs == p.fs && w.sys.worker.Saving? && w.sys.worker.snapshot == snapshot
    modifies p
    ensures err == SaveFile.Answer(f, old(p.fs).dir)
    ensures turn.Saves? && Advance(w, turn) == Some(SavedTo(w, p.fs, err))
    ensures WorldOk(found, SavedTo(w, p.fs, err))
  {
    hide Invariant, AfterSave, DiskOk, SaveFile.Answer;
    assert SaveFile.Sound(p.fs) by {
      DiskIsSound(found, w);
    }
    err := p.Save(snapshot, f);
    turn := Saves(p.trace[|old(p.trace)|..], p.fs, err);
    TurnKeepsWorld(found, w, turn);
  }

  lemma DiskIsSound(found: Option<Snapshot>, w: World)
    requires DiskOk(found, w)
    ensures SaveFile.Sound(w.fs)
  {
  }

  // ---- Crashes ----

  /** The disk at a crash: between two turns, or anywhere within a save. */
  ghost predicate CaughtAt(w: World, fs: FileSystem) {
    fs == w.fs || exists turn: Turn :: turn.Saves? && Advance(w, turn).Some? && fs in turn.during
  }

  /** The revisions that a crash may leave at this moment: those the saves so far have left, and the one
      being saved. */
  ghost function Exposed(w: World): set<nat> {
    LeftBy(w.saves) + (if w.sys.worker.Saving? then {w.sys.worker.rev} else {})
  }

  lemma CaughtSafe(found: Option<Snapshot>, w: World, fs: FileSystem)
    requires WorldOk(found, w) && CaughtAt(w, fs)
    ensures SaveFile.Safe(fs, Recorded(found, w.sys.past, Exposed(w))) && Exposed(w) <= w.sys.possible
  {
    hide Invariant, SaveFile.Safe, SaveFile.Left, SaveFile.LiveContent, AfterSave, LeftBy, FileAt;
    var exposed := Recorded(found, w.sys.past, Exposed(w));
    if w.sys.worker.Saving? {
      SnapshotIsTheFile(found, w.sys);
      assert exposed == SaveFile.Left(w.fs) + {Some(w.sys.worker.snapshot)};
    }
    if fs == w.fs {
      SaveFile.SafeGrows(fs, SaveFile.Left(fs), exposed);
    } else {
      var turn: Turn :| turn.Saves? && Advance(w, turn).Some? && fs in turn.during;
    }
  }

  /** NewJobStoreWithPersistence over a file. */
  ghost function NewStore(file: Snapshot): Sys
    requires WellFormed(file)
  {
    var origin := Restore(file);
    var changed := Kept(file) != file;
    var coord := Coordinator.NewCoord();
    Sys(Life(false, 0, 0, true, 0, 0), origin, if changed then 1 else 0, Nobody,
        if changed then Coordinator.Publish(coord, 1, TakeSnapshot(origin.jobs)).(wake := true) else coord,
        Idle, {0}, map[], map[], Past(file, origin, [], if changed then [[]] else [], [], 0))
  }

  /** A crash at any moment of any run, within a save or not, whatever directory survives. The live file is
      that of one revision `k`, at least the last reported written, which carries everything acknowledged
      before; and the next process begins on that disk with a sound store, so that all of this holds of it
      again, after any number of crashes. */
  lemma EveryCrashRecovers(found: Option<Snapshot>, w: World, early: seq<Turn>, m: World, late: seq<Turn>, last: World,
                           fs: FileSystem, dir: SaveFile.Dir)
    returns (k: nat)
    requires Begins(found, w) && Runs(w, early, m) && Runs(m, late, last)
    requires CaughtAt(last, fs) && dir in fs.versions
    ensures var disk := SaveFile.Crash(fs, dir); var file := SaveFile.LiveContent(disk);
      && k in Exposed(last) && last.sys.coord.writtenRevision <= k <= last.sys.revision
      && file == FileAt(found, last.sys.past, k)
      && m.sys.past.acked <= LogOf(last.sys.past, k) && Extends(LogOf(last.sys.past, k), last.sys.past.log)
      && WellFormed(Loaded(file)) && Begins(file, World(NewStore(Loaded(file)), disk, []))
  {
    hide Invariant, Init, Runs, Advance, SaveFile.Safe, SaveFile.Crash, SaveFile.LiveContent, WellFormed, CaughtAt;
    hide Exposed, DiskOk;
    BeginsOk(found, w);
    WorldHolds(found, w, early, m);
    WorldHolds(found, m, late, last);
    CaughtSafe(found, last, fs);
    SaveFile.CrashKeepsSafe(fs, dir, Recorded(found, last.sys.past, Exposed(last)));
    var file := SaveFile.LiveContent(SaveFile.Crash(fs, dir));
    k :| k in Exposed(last) && file == FileAt(found, last.sys.past, k);
    var before := RunIsASchedule(w, early, m);
    var after := RunIsASchedule(m, late, last);
    CrashRecovers(w.sys, before, m.sys, after, last.sys, k);
    FileLoads(found, last.sys, k);
    NewStoreBegins(Loaded(file));
  }

  lemma FileLoads(found: Option<Snapshot>, s: Sys, k: nat)
    requires s.past.file == Loaded(found)
    ensures Loaded(FileAt(found, s.past, k)) == Content(s.past, k)
  {
  }

  lemma NewStoreBegins(file: Snapshot)
    requires WellFormed(file)
    ensures Init(NewStore(file)) && NewStore(file).past.file == file
  {
    hide WellFormed, Restore, Kept, TakeSnapshot;
  }
}
