/** The values the job store keeps, what each mutation does to them, and how they are written to
    and restored from disk (internal/server/store.go, store_persistence.go, store_retention.go,
    job_persistence.go). Locks, revisions and failures are in JobStore and StoreSystem. */
module Jobs {
  import opened Ordering
  import opened Retention

  datatype JobStatus = Pending | Running | Completed | Failed | Canceled

  predicate IsTerminalStatus(status: JobStatus) {
    status == Completed || status == Failed || status == Canceled
  }

  /** What the client asked for; never changed after creation. */
  datatype Request = Request(subjectID: int, sessionID: int, startIndex: int, endIndex: int, config: string)

  /** A job's exported fields. Instants count nanoseconds from the zero time (year 1). */
  datatype JobRecord = JobRecord(
    id: string, request: Request, idempotencyKey: string, createdAt: int,
    status: JobStatus, progress: real, error: string,
    totalLectures: int, completedLectures: int, filteredLectures: int,
    outputs: seq<string>, updatedAt: int)

  /** The job map and the idempotency index. */
  datatype State = State(jobs: map<string, JobRecord>, keys: map<string, string>)

  const EmptyState := State(map[], map[])

  // ---- Timestamps on disk ----

  const NS_PER_DAY := 86_400_000_000_000
  const ZERO_TIME := 0
  /** Years 0 to 9999, which is what a four-digit year can spell. */
  const MIN_TIME := -366 * NS_PER_DAY
  const MAX_TIME := 3_652_059 * NS_PER_DAY

  predicate InRange(t: int) { MIN_TIME <= t < MAX_TIME }

  type DiskInstant = t: int | InRange(t)

  datatype TimeText = Rfc3339Nano(instant: DiskInstant) | Unparseable

  function FormatTime(t: int): TimeText {
    if InRange(t) then Rfc3339Nano(t) else Unparseable
  }

  function ParseTime(text: TimeText): int {
    match text
    case Rfc3339Nano(t) => t
    case Unparseable => ZERO_TIME
  }

  datatype PersistedJob = PersistedJob(
    id: string, request: Request, idempotencyKey: string, createdAt: TimeText,
    status: JobStatus, progress: real, error: string,
    totalLectures: int, completedLectures: int, filteredLectures: int,
    outputs: seq<string>, updatedAt: TimeText)

  type Snapshot = map<string, PersistedJob>

  function JobToPersisted(j: JobRecord): PersistedJob {
    PersistedJob(j.id, j.request, j.idempotencyKey, FormatTime(j.createdAt), j.status, j.progress, j.error,
                 j.totalLectures, j.completedLectures, j.filteredLectures, j.outputs, FormatTime(j.updatedAt))
  }

  function PersistedToJob(p: PersistedJob): JobRecord {
    JobRecord(p.id, p.request, p.idempotencyKey, ParseTime(p.createdAt), p.status, p.progress, p.error,
              p.totalLectures, p.completedLectures, p.filteredLectures, p.outputs, ParseTime(p.updatedAt))
  }

  function TakeSnapshot(jobs: map<string, JobRecord>): Snapshot {
    map id | id in jobs :: JobToPersisted(jobs[id])
  }

  // ---- Retention ----

  function TerminalTimes(jobs: map<string, JobRecord>): Times {
    map id | id in jobs && IsTerminalStatus(jobs[id].status) :: jobs[id].updatedAt
  }

  function PersistedTerminalTimes(p: Snapshot): Times {
    map id | id in p && IsTerminalStatus(p[id].status) :: ParseTime(p[id].updatedAt)
  }

  /** The idempotency keys a set of jobs carries. */
  ghost function KeysOf(jobs: map<string, JobRecord>, ids: set<string>): set<string> {
    set id | id in ids && id in jobs && jobs[id].idempotencyKey != "" :: jobs[id].idempotencyKey
  }

  ghost function Prune(s: State): State {
    var victims := Victims(TerminalTimes(s.jobs));
    State(s.jobs - victims, s.keys - KeysOf(s.jobs, victims))
  }

  ghost function PrunePersisted(p: Snapshot): Snapshot {
    p - Victims(PersistedTerminalTimes(p))
  }

  // ---- Mutations ----

  datatype Op =
    | Create(id: string, request: Request, key: string, createdAt: int, now: int)
    | Update(id: string, status: JobStatus, progress: real, error: string, now: int)
    | UpdateRunning(id: string, progress: real, now: int)
    | Fail(id: string, error: string, now: int)
    | Complete(id: string, outputs: seq<string>, now: int)
    | Cancel(id: string, now: int)
    | SetLectureProgress(id: string, completed: int, total: int, now: int)
    | SetFilteredLectures(id: string, count: int, now: int)
    | SetOutputs(id: string, outputs: seq<string>, now: int)

  /** Whether the operation gets past its guards; otherwise it returns early and changes nothing. */
  predicate Applies(op: Op, s: State) {
    match op
    case Create(_, _, key, _, _) => key == "" || key !in s.keys || s.keys[key] !in s.jobs
    case SetFilteredLectures(_, _, _) => op.id in s.jobs
    case SetOutputs(_, _, _) => op.id in s.jobs
    case UpdateRunning(_, progress, _) =>
      op.id in s.jobs && !IsTerminalStatus(s.jobs[op.id].status) && s.jobs[op.id].progress <= progress
    case SetLectureProgress(_, completed, _, _) =>
      op.id in s.jobs && !IsTerminalStatus(s.jobs[op.id].status) && s.jobs[op.id].completedLectures <= completed
    case _ => op.id in s.jobs && !IsTerminalStatus(s.jobs[op.id].status)
  }

  /** Operations that wait for the disk and roll back when it fails. The others publish and return. */
  predicate Durable(op: Op) {
    op.Create? || op.Fail? || op.Complete? || op.Cancel? || (op.Update? && IsTerminalStatus(op.status))
  }

  function NewJob(op: Op): JobRecord
    requires op.Create?
  {
    JobRecord(op.id, op.request, op.key, op.createdAt, Pending, 0.0, "", 0, 0, 0, [], op.now)
  }

  /** What an operation writes into the job it names. */
  function Edit(op: Op, j: JobRecord): JobRecord
    requires !op.Create?
  {
    match op
    case Update(_, status, progress, error, now) =>
      j.(status := status, progress := progress, error := error, updatedAt := now)
    case UpdateRunning(_, progress, now) =>
      j.(status := Running, progress := progress, error := "", updatedAt := now)
    case Fail(_, error, now) => j.(status := Failed, progress := 0.0, error := error, updatedAt := now)
    case Complete(_, outputs, now) =>
      j.(outputs := outputs, status := Completed, progress := 100.0, error := "", updatedAt := now)
    case Cancel(_, now) => j.(status := Canceled, updatedAt := now)
    case SetLectureProgress(_, completed, total, now) =>
      j.(completedLectures := completed, totalLectures := total, updatedAt := now)
    case SetFilteredLectures(_, count, now) => j.(filteredLectures := count, updatedAt := now)
    case SetOutputs(_, outputs, now) => j.(outputs := outputs, updatedAt := now)
  }

  /** The operation's write, before retention. */
  function Write(op: Op, s: State): State
    requires Applies(op, s)
  {
    if op.Create? then
      State(s.jobs[op.id := NewJob(op)], if op.key != "" then s.keys[op.key := op.id] else s.keys)
    else
      s.(jobs := s.jobs[op.id := Edit(op, s.jobs[op.id])])
  }

  /** Only operations that end a job enforce the history bound. */
  predicate Prunes(op: Op) { Durable(op) && !op.Create? }

  ghost function Apply(op: Op, s: State): State
    requires Applies(op, s)
  {
    if Prunes(op) then Prune(Write(op, s)) else Write(op, s)
  }

  /** What the caller supplies: a clock within four-digit years and, for Create, a fresh UUID. */
  predicate Admissible(op: Op, s: State) {
    InRange(op.now) && (op.Create? ==> op.id !in s.jobs && InRange(op.createdAt))
  }

  // ---- Invariant ----

  /** Job map and idempotency index agree, in both directions. */
  ghost predicate Indexed(s: State) {
    && (forall id :: id in s.jobs ==> s.jobs[id].id == id)
    && (forall k :: k in s.keys ==> k != "" && s.keys[k] in s.jobs && s.jobs[s.keys[k]].idempotencyKey == k)
    && (forall id :: id in s.jobs && s.jobs[id].idempotencyKey != "" ==>
          s.jobs[id].idempotencyKey in s.keys && s.keys[s.jobs[id].idempotencyKey] == id)
  }

  ghost predicate Timely(s: State) {
    forall id :: id in s.jobs ==> InRange(s.jobs[id].createdAt) && InRange(s.jobs[id].updatedAt)
  }

  ghost predicate Bounded(s: State) {
    |TerminalTimes(s.jobs)| <= MAX_RETAINED_TERMINAL_JOBS
  }

  ghost predicate Inv(s: State) {
    Indexed(s) && Timely(s) && Bounded(s)
  }

  lemma PruneKeepsIndexed(s: State)
    requires Indexed(s) && Timely(s)
    ensures Inv(Prune(s))
  {
    var t := TerminalTimes(s.jobs);
    VictimsAreTheOldest(t);
    var p := Prune(s);
    assert TerminalTimes(p.jobs).Keys == t.Keys - Victims(t);
    assert |TerminalTimes(p.jobs)| == |TerminalTimes(p.jobs).Keys|;
    forall k | k in p.keys ensures p.keys[k] in p.jobs {
      assert k !in KeysOf(s.jobs, Victims(t));
    }
    forall id | id in p.jobs && p.jobs[id].idempotencyKey != "" ensures p.jobs[id].idempotencyKey in p.keys {
      assert s.jobs[id].idempotencyKey !in KeysOf(s.jobs, Victims(t));
    }
  }

  lemma WriteKeepsIndexed(op: Op, s: State)
    requires Indexed(s) && Applies(op, s) && Admissible(op, s)
    ensures Indexed(Write(op, s))
  {
    var w := Write(op, s);
    if op.Create? {
    } else {
      var j := Edit(op, s.jobs[op.id]);
      assert j.id == s.jobs[op.id].id && j.idempotencyKey == s.jobs[op.id].idempotencyKey;
      assert w.keys == s.keys && w.jobs.Keys == s.jobs.Keys;
      assert forall id :: id in w.jobs ==> w.jobs[id].idempotencyKey == s.jobs[id].idempotencyKey;
    }
  }

  lemma WriteKeepsTimely(op: Op, s: State)
    requires Timely(s) && Applies(op, s) && Admissible(op, s)
    ensures Timely(Write(op, s))
  {
  }

  /** A write that does not prune neither starts nor ends a terminal state. */
  lemma PlainWriteKeepsBounded(op: Op, s: State)
    requires Bounded(s) && Applies(op, s) && Admissible(op, s) && !Prunes(op)
    ensures Bounded(Write(op, s))
  {
    var w := Write(op, s);
    var before, after := TerminalTimes(s.jobs), TerminalTimes(w.jobs);
    assert |before| == |before.Keys| && |after| == |after.Keys|;
    assert before.Keys == after.Keys;
  }

  /** Every mutation keeps the index exact and the terminal history within its bound. */
  lemma ApplyKeepsInv(op: Op, s: State)
    requires Inv(s) && Applies(op, s) && Admissible(op, s)
    ensures Inv(Apply(op, s))
  {
    WriteKeepsIndexed(op, s);
    WriteKeepsTimely(op, s);
    if Prunes(op) {
      PruneKeepsIndexed(Write(op, s));
    } else {
      PlainWriteKeepsBounded(op, s);
    }
  }

  /** No mutation changes a terminal job's status; it stays as it is or leaves the history. */
  lemma TerminalStatusIsFinal(op: Op, s: State, id: string)
    requires Applies(op, s) && Admissible(op, s)
    requires id in s.jobs && IsTerminalStatus(s.jobs[id].status)
    ensures id in Apply(op, s).jobs ==> Apply(op, s).jobs[id].status == s.jobs[id].status
  {
  }

  /** Retention removes terminal jobs only, and each removed job precedes every kept terminal job in
      (updatedAt, id) order. */
  lemma PruneRemovesOldestTerminal(s: State)
    ensures var p := Prune(s); var t := TerminalTimes(s.jobs);
      && p.jobs.Keys <= s.jobs.Keys
      && (forall id :: id in p.jobs ==> p.jobs[id] == s.jobs[id])
      && (forall id :: id in s.jobs && id !in p.jobs ==> IsTerminalStatus(s.jobs[id].status))
      && (forall gone, kept :: gone in s.jobs && gone !in p.jobs && kept in p.jobs && kept in t ==>
            gone in t && Before(t, gone, kept))
      && |s.jobs.Keys - p.jobs.Keys| == Excess(t)
  {
    VictimsAreTheOldest(TerminalTimes(s.jobs));
    assert s.jobs.Keys - Prune(s).jobs.Keys == Victims(TerminalTimes(s.jobs));
  }

  /** Ending a job adds it to the finished ones, at the time of the operation. */
  lemma EndAddsOne(op: Op, s: State)
    requires Applies(op, s) && Prunes(op)
    ensures var before, t := TerminalTimes(s.jobs), TerminalTimes(Write(op, s).jobs);
      op.id !in before && t == before[op.id := op.now] && |t| == |before| + 1
  {
    var before, t := TerminalTimes(s.jobs), TerminalTimes(Write(op, s).jobs);
    assert t == before[op.id := op.now];
  }

  /** A durable operation changes the file: its job is new there, or has ended, or is gone. */
  lemma DurableChangesFile(op: Op, s: State)
    requires Applies(op, s) && Admissible(op, s) && Durable(op)
    ensures TakeSnapshot(Apply(op, s).jobs) != TakeSnapshot(s.jobs)
  {
    hide Victims;
    var before, after := TakeSnapshot(s.jobs), TakeSnapshot(Apply(op, s).jobs);
    if op.Create? {
      assert op.id in after && op.id !in before;
    } else {
      assert op.id in before && !IsTerminalStatus(before[op.id].status);
      assert op.id in after ==> IsTerminalStatus(after[op.id].status);
    }
  }

  /** The operation that ends a job may lose that very job to retention. It survives exactly when
      the history has room or some other terminal job is older. */
  lemma EndedJobSurvivesIff(op: Op, s: State)
    requires Inv(s) && Applies(op, s) && Prunes(op)
    ensures var t := TerminalTimes(Write(op, s).jobs);
      op.id in Apply(op, s).jobs <==> |t| <= MAX_RETAINED_TERMINAL_JOBS || (exists x :: x in t && Before(t, x, op.id))
  {
    hide TerminalTimes, Indexed, Timely, Victims;
    var t := TerminalTimes(Write(op, s).jobs);
    EndAddsOne(op, s);
    SurvivesIffNotOldest(t, op.id);
    assert (exists x :: x in t && Before(t, x, op.id)) <==> Older(t, op.id) != {} by {
      if x :| x in t && Before(t, x, op.id) {
        assert x in Older(t, op.id);
      }
    }
  }

  /** With a full history and a clock behind all of it, the operation that ends a job removes that job. */
  lemma ClockBehindLosesJob(op: Op, s: State)
    requires Inv(s) && Applies(op, s) && Prunes(op) && |TerminalTimes(s.jobs)| == MAX_RETAINED_TERMINAL_JOBS
    requires forall x :: x in TerminalTimes(s.jobs) ==> op.now < TerminalTimes(s.jobs)[x]
    ensures op.id !in Apply(op, s).jobs
  {
    hide Inv, Apply, Write, TerminalTimes;
    EndAddsOne(op, s);
    TextLessIrreflexive(op.id);
    EndedJobSurvivesIff(op, s);
  }

  // Such a state.

  const ACTIVE := JobRecord("job", Request(0, 0, 0, 0, ""), "", 0, Running, 0.0, "", 0, 0, 0, [], 0)

  function FinishedId(i: nat): string {
    seq(i, _ => 'f')
  }

  function FinishedIds(n: nat): set<string> {
    set i: nat | i < n :: FinishedId(i)
  }

  const FULL_HISTORY := State(
    map id | id in FinishedIds(MAX_RETAINED_TERMINAL_JOBS) + {"job"} ::
      if id == "job" then ACTIVE else ACTIVE.(id := id, status := Completed, updatedAt := 1),
    map[])

  lemma {:induction false} FinishedIdsDiffer(n: nat)
    ensures |FinishedIds(n)| == n && "job" !in FinishedIds(n)
  {
    if n == 0 {
    } else {
      FinishedIdsDiffer(n - 1);
      assert FinishedIds(n) == FinishedIds(n - 1) + {FinishedId(n - 1)};
      assert forall i: nat :: |FinishedId(i)| == i;
      assert FinishedId(n - 1) != "job" by {
        if n > 1 {
          assert FinishedId(n - 1)[0] == 'f';
        }
      }
    }
  }

  lemma FullHistoryIsSound()
    ensures Inv(FULL_HISTORY) && TerminalTimes(FULL_HISTORY.jobs).Keys == FinishedIds(MAX_RETAINED_TERMINAL_JOBS)
  {
    var times := TerminalTimes(FULL_HISTORY.jobs);
    FinishedIdsDiffer(MAX_RETAINED_TERMINAL_JOBS);
    assert times.Keys == FinishedIds(MAX_RETAINED_TERMINAL_JOBS) && |times| == |times.Keys|;
  }

  /** With a thousand jobs finished at instant 1, canceling a job at instant 0 removes that job. */
  lemma EndedJobCanBePruned()
    ensures var s, op := FULL_HISTORY, Cancel("job", 0);
      && Inv(s) && Applies(op, s) && Admissible(op, s) && Prunes(op)
      && op.id !in Apply(op, s).jobs
  {
    hide Inv, Apply, FinishedIds;
    FullHistoryIsSound();
    FinishedIdsDiffer(MAX_RETAINED_TERMINAL_JOBS);
    assert |TerminalTimes(FULL_HISTORY.jobs)| == |TerminalTimes(FULL_HISTORY.jobs).Keys|;
    ClockBehindLosesJob(Cancel("job", 0), FULL_HISTORY);
  }

  /** Pruning the live map and then writing it gives the file that pruning the written map gives. */
  lemma PruneCommutesWithSnapshot(s: State)
    requires Timely(s)
    ensures TakeSnapshot(Prune(s).jobs) == PrunePersisted(TakeSnapshot(s.jobs))
  {
    hide Victims, JobToPersisted;
    SameTimesOnDisk(s);
  }

  lemma SameTimesOnDisk(s: State)
    requires Timely(s)
    ensures TerminalTimes(s.jobs) == PersistedTerminalTimes(TakeSnapshot(s.jobs))
  {
  }

  // ---- Restart ----

  const INTERRUPTED := "job interrupted by server restart"

  function Interrupt(p: PersistedJob): PersistedJob {
    if IsTerminalStatus(p.status) then p
    else p.(status := Failed, error := if p.error == "" then INTERRUPTED else p.error)
  }

  function InterruptAll(p: Snapshot): Snapshot {
    map id | id in p :: Interrupt(p[id])
  }

  /** A file this store wrote: entries sit under their own ID and no two share an idempotency key. */
  ghost predicate WellFormed(p: Snapshot) {
    && (forall id :: id in p ==> p[id].id == id)
    && (forall a, b :: a in p && b in p && p[a].idempotencyKey != "" ==>
          p[a].idempotencyKey == p[b].idempotencyKey ==> a == b)
  }

  ghost predicate DistinctKeys(jobs: map<string, JobRecord>) {
    forall a, b :: a in jobs && b in jobs && jobs[a].idempotencyKey != "" ==>
      jobs[a].idempotencyKey == jobs[b].idempotencyKey ==> a == b
  }

  ghost function KeyIndex(jobs: map<string, JobRecord>): map<string, string>
    requires DistinctKeys(jobs)
  {
    map id | id in jobs && jobs[id].idempotencyKey != "" :: jobs[id].idempotencyKey := id
  }

  function ReadBack(p: Snapshot): map<string, JobRecord> {
    map id | id in p :: PersistedToJob(p[id])
  }

  lemma ReadBackIsSound(p: Snapshot)
    requires WellFormed(p)
    ensures DistinctKeys(ReadBack(p))
    ensures forall id :: id in p ==> ReadBack(p)[id].id == id
    ensures TerminalTimes(ReadBack(p)) == PersistedTerminalTimes(p)
  {
  }

  ghost function Kept(p: Snapshot): Snapshot {
    PrunePersisted(InterruptAll(p))
  }

  lemma TimesAfterPruning(p: Snapshot)
    ensures var before := PersistedTerminalTimes(p);
      PersistedTerminalTimes(PrunePersisted(p)).Keys == before.Keys - Victims(before)
  {
    hide Victims;
  }

  lemma PrunePersistedBounds(p: Snapshot)
    ensures |PersistedTerminalTimes(PrunePersisted(p))| <= MAX_RETAINED_TERMINAL_JOBS
  {
    hide PersistedTerminalTimes, PrunePersisted;
    var after := PersistedTerminalTimes(PrunePersisted(p));
    VictimsAreTheOldest(PersistedTerminalTimes(p));
    TimesAfterPruning(p);
    assert |after| == |after.Keys|;
  }

  lemma InterruptKeepsWellFormed(p: Snapshot)
    requires WellFormed(p)
    ensures WellFormed(InterruptAll(p))
    ensures forall id :: id in p ==> IsTerminalStatus(InterruptAll(p)[id].status)
  {
  }

  lemma SubfileIsWellFormed(p: Snapshot, q: Snapshot)
    requires WellFormed(p)
    requires forall id :: id in q ==> id in p && q[id] == p[id]
    ensures WellFormed(q)
  {
  }

  lemma KeptIsWellFormed(p: Snapshot)
    requires WellFormed(p)
    ensures WellFormed(Kept(p))
    ensures forall id :: id in Kept(p) ==> IsTerminalStatus(Kept(p)[id].status)
    ensures |PersistedTerminalTimes(Kept(p))| <= MAX_RETAINED_TERMINAL_JOBS
  {
    InterruptKeepsWellFormed(p);
    PrunePersistedBounds(InterruptAll(p));
    SubfileIsWellFormed(InterruptAll(p), Kept(p));
  }

  /** loadFromDisk on a file this store wrote. */
  ghost function Restore(p: Snapshot): State
    requires WellFormed(p)
  {
    KeptIsWellFormed(p);
    ReadBackIsSound(Kept(p));
    var jobs := ReadBack(Kept(p));
    State(jobs, KeyIndex(jobs))
  }

  lemma SnapshotIsWellFormed(s: State)
    requires Indexed(s)
    ensures WellFormed(TakeSnapshot(s.jobs))
  {
    var p := TakeSnapshot(s.jobs);
    forall a, b | a in p && b in p && p[a].idempotencyKey != "" && p[a].idempotencyKey == p[b].idempotencyKey
      ensures a == b
    {
      assert s.keys[s.jobs[a].idempotencyKey] == a && s.keys[s.jobs[b].idempotencyKey] == b;
    }
  }

  lemma KeyIndexIsExact(jobs: map<string, JobRecord>)
    requires DistinctKeys(jobs) && forall id :: id in jobs ==> jobs[id].id == id
    ensures Indexed(State(jobs, KeyIndex(jobs)))
  {
    var keys := KeyIndex(jobs);
    forall k | k in keys ensures k != "" && keys[k] in jobs && jobs[keys[k]].idempotencyKey == k {
      var id :| id in jobs && jobs[id].idempotencyKey != "" && jobs[id].idempotencyKey == k;
      assert keys[k] == id;
    }
  }

  /** A restart rebuilds an exact index, ends every unfinished job and enforces the history bound. */
  lemma RestoreKeepsInv(p: Snapshot)
    requires WellFormed(p)
    ensures Inv(Restore(p))
    ensures forall id :: id in Restore(p).jobs ==> IsTerminalStatus(Restore(p).jobs[id].status)
  {
    KeptIsWellFormed(p);
    ReadBackIsSound(Kept(p));
    KeyIndexIsExact(ReadBack(Kept(p)));
  }

  /** A restart keeps a finished job exactly as it was written, unless retention drops it, and turns
      an unfinished one into a failed one; nothing else appears. */
  lemma RestoreContents(s: State, id: string)
    requires Inv(s) && WellFormed(TakeSnapshot(s.jobs))
    ensures var p := TakeSnapshot(s.jobs);
      var victims := Victims(PersistedTerminalTimes(InterruptAll(p)));
      && (id in Restore(p).jobs <==> id in s.jobs && id !in victims)
      && (id in Restore(p).jobs && IsTerminalStatus(s.jobs[id].status) ==> Restore(p).jobs[id] == s.jobs[id])
      && (id in Restore(p).jobs && !IsTerminalStatus(s.jobs[id].status) ==>
            Restore(p).jobs[id] ==
              s.jobs[id].(status := Failed, error := if s.jobs[id].error == "" then INTERRUPTED else s.jobs[id].error))
  {
  }
}
