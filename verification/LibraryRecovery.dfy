/** Recovery of interrupted library jobs as turns among other writers (internal/library/jobs.go:352-423).

    Between any two transactions other writers may change the tables, files on disk may change and
    the database may fail: `World` holds those choices, as functions of the number of steps taken. */
module LibraryRecovery {
  import opened Ordering
  import opened LibraryTables

  // ---------------------------------------------------------------- everyone else

  /** What the process does not control: other writers, the files, and database failures. */
  datatype World = World(others: (nat, Tables) -> Tables, disk: nat -> Disk, fails: nat -> bool)

  /** Other writers use the same operations. */
  ghost predicate Lawful(w: World) {
    forall n, t :: Inv(t) ==> Inv(w.others(n, t)) && Follows(t, w.others(n, t))
  }

  /** While one process holds the producer lock of `kind`, the others may still fail or cancel its
      jobs, and may add new ones, but none of them runs or completes such a job. */
  ghost predicate LockHeld(w: World, kind: Kind) {
    forall n, t :: Inv(t) ==> OthersStayOff(t, w.others(n, t), kind)
  }

  ghost predicate OthersStayOff(t: Tables, u: Tables, kind: Kind) {
    forall id :: id in u.jobs && u.jobs[id].kind == kind ==>
      if id in t.jobs then u.jobs[id] == t.jobs[id] || u.jobs[id].status.Failed? || u.jobs[id].status.Canceled?
      else u.jobs[id].status.Pending? || u.jobs[id].status.Failed? || u.jobs[id].status.Canceled?
  }

  /** Nobody else writes. */
  ghost predicate Quiet(w: World) {
    forall n, t :: w.others(n, t) == t
  }

  /** Files do not change either. */
  ghost predicate Still(w: World, disk: Disk) {
    forall n :: w.disk(n) == disk
  }

  /** Every file that can be read has a digest. */
  ghost predicate Readable(disk: Disk) {
    forall p :: p in disk ==> disk[p].sha256 != ""
  }

  // ---------------------------------------------------------------- recovery results

  datatype Verdict = IsRecovered(manifest: Manifest) | IsPending | IsSkipped

  datatype RecoveryResult = RecoveryResult(recovered: seq<string>, pending: seq<string>, skipped: seq<string>,
                                           artifacts: seq<(string, Manifest)>)

  function Filed(r: RecoveryResult, id: string, v: Verdict): RecoveryResult {
    match v
    case IsRecovered(m) => r.(recovered := r.recovered + [id], artifacts := r.artifacts + [(id, m)])
    case IsPending => r.(pending := r.pending + [id])
    case IsSkipped => r.(skipped := r.skipped + [id])
  }

  ghost predicate Distinct(ids: seq<string>) {
    forall i, j :: 0 <= i < j < |ids| ==> ids[i] != ids[j]
  }

  /** `ids` are dealt out, each once and to exactly one of the three lists, and every recovered one comes with
      a manifest. */
  ghost predicate Partitions(r: RecoveryResult, ids: set<string>) {
    && |r.artifacts| == |r.recovered| && (forall i :: 0 <= i < |r.artifacts| ==> r.artifacts[i].0 == r.recovered[i])
    && Distinct(r.recovered) && Distinct(r.pending) && Distinct(r.skipped)
    && (forall id :: id in ids <==> id in r.recovered || id in r.pending || id in r.skipped)
    && (forall id :: id in r.recovered ==> id !in r.pending && id !in r.skipped)
    && (forall id :: id in r.pending ==> id !in r.skipped)
  }

  lemma PartitionMembers(r: RecoveryResult, ids: set<string>)
    requires Partitions(r, ids)
    ensures forall id :: id in ids <==> id in r.recovered || id in r.pending || id in r.skipped
    ensures forall id :: id in r.recovered ==> id !in r.pending && id !in r.skipped
  {
  }

  /** The manifests are those that the files of their jobs make. */
  ghost predicate ManifestsBuilt(t: Tables, disk: Disk, r: RecoveryResult) {
    forall i :: 0 <= i < |r.artifacts| ==>
      var (id, m) := r.artifacts[i];
      id in t.jobs && Built(t.jobs[id].expected, disk) == Some(m)
  }

  lemma FiledPartitions(r: RecoveryResult, ids: set<string>, id: string, v: Verdict)
    requires Partitions(r, ids) && id !in ids
    ensures Partitions(Filed(r, id, v), ids + {id})
  {
  }

  /** A job of the kind under recovery: no producer runs it and it cannot be pending again. */
  ghost predicate Stopped(t: Tables, id: string, kind: Kind) {
    && id in t.jobs && t.jobs[id].kind == kind
    && (t.jobs[id].status.Recoverable? || t.jobs[id].status.Failed? || t.jobs[id].status.Canceled?)
  }

  /** Where a dealt-out job can stand from then on. */
  ghost predicate Stands(t: Tables, id: string, kind: Kind, v: Verdict) {
    && id in t.jobs && t.jobs[id].kind == kind
    && match v
       case IsRecovered(_) => t.jobs[id].status.Completed?
       case IsPending => t.jobs[id].status.Recoverable? || t.jobs[id].status.Failed? || t.jobs[id].status.Canceled?
       case IsSkipped => t.jobs[id].status.Failed? || t.jobs[id].status.Canceled?
  }

  ghost predicate AllStand(t: Tables, kind: Kind, r: RecoveryResult) {
    && (forall id :: id in r.recovered ==> id in t.jobs && t.jobs[id].kind == kind && t.jobs[id].status.Completed?)
    && (forall id :: id in r.pending ==> Stopped(t, id, kind))
    && (forall id :: id in r.skipped ==> Stopped(t, id, kind) && !t.jobs[id].status.Recoverable?)
  }

  ghost predicate Summarized(t: Tables, u: Tables, jobId: string) {
    u == t || exists summary, now :: u == WithSummary(t, jobId, summary, now)
  }

  ghost predicate Committed(t: Tables, u: Tables, jobId: string) {
    && OnlyChanges(t, u, {jobId})
    && jobId in u.jobs && jobId in t.jobs
    && u.jobs[jobId].status.Completed? && u.jobs[jobId].kind == t.jobs[jobId].kind
  }

  /** What a turn of the recovery loop does to the tables `t` that the other writers leave it. */
  ghost predicate Turn(w: World, n: nat, before: Tables, after: Tables, jobId: string, expected: Expected,
                       error: Option<Error>, verdict: Verdict)
  {
    var t := w.others(n + 1, before);
    var built := Built(expected, w.disk(n));
    && (error.Some? ==> error == Some(Database) && Summarized(t, after, jobId))
    && (error.None? ==>
          match verdict
          case IsRecovered(m) => built == Some(m) && Committed(t, after, jobId)
          case IsPending => Summarized(t, after, jobId) && (built.None? || Digested(built.value, w.disk(n + 1)).None?)
          case IsSkipped => after == t && jobId in t.jobs && !t.jobs[jobId].status.Recoverable?)
  }

  // The turns by their verdict.

  lemma PendingTurn(w: World, n: nat, before: Tables, after: Tables, jobId: string, expected: Expected,
                    error: Option<Error>, summary: string, now: string)
    requires var t := w.others(n + 1, before); after == t || after == WithSummary(t, jobId, summary, now)
    requires error == None || error == Some(Database)
    requires var built := Built(expected, w.disk(n)); built.None? || Digested(built.value, w.disk(n + 1)).None?
    ensures Turn(w, n, before, after, jobId, expected, error, IsPending)
  {
    hide Built, Digested, WithSummary;
  }

  lemma RecoveredTurn(w: World, n: nat, before: Tables, after: Tables, jobId: string, expected: Expected, m: Manifest)
    requires Built(expected, w.disk(n)) == Some(m) && Committed(w.others(n + 1, before), after, jobId)
    ensures Turn(w, n, before, after, jobId, expected, None, IsRecovered(m))
  {
    hide Built, Digested, Committed;
  }

  /** A turn that changed nothing. */
  lemma IdleTurn(w: World, n: nat, before: Tables, after: Tables, jobId: string, expected: Expected,
                 error: Option<Error>, verdict: Verdict)
    requires var t := w.others(n + 1, before);
      after == t && (error.None? ==> verdict.IsSkipped? && jobId in t.jobs && !t.jobs[jobId].status.Recoverable?)
    requires error == None || error == Some(Database)
    ensures Turn(w, n, before, after, jobId, expected, error, verdict)
  {
    hide Built, Digested;
  }

  /** With the producer lock held, a turn leaves the job where its verdict says, and takes no
      verdict back. */
  lemma TurnUnderLock(w: World, n: nat, before: Tables, after: Tables, jobId: string, expected: Expected, kind: Kind,
                      error: Option<Error>, verdict: Verdict)
    requires Turn(w, n, before, after, jobId, expected, error, verdict)
    requires Inv(before) && Lawful(w) && LockHeld(w, kind) && Stopped(before, jobId, kind)
    ensures OthersStayOff(before, after.(jobs := after.jobs - {jobId}), kind)
    ensures jobId in after.jobs && !after.jobs[jobId].status.Running?
    ensures error.None? ==> Stands(after, jobId, kind, verdict)
  {
    hide Inv, Built, Digested;
    var t := w.others(n + 1, before);
    assert Follows(before, t) && OthersStayOff(before, t, kind);
  }

  /** With no other writer and unchanging readable files, a job is recovered exactly when all of
      its expected outputs are valid, and nothing but its row, its artifact and its files changes. */
  lemma TurnAlone(w: World, n: nat, before: Tables, after: Tables, jobId: string, expected: Expected, disk: Disk,
                  error: Option<Error>, verdict: Verdict)
    requires Turn(w, n, before, after, jobId, expected, error, verdict)
    requires Inv(before) && Quiet(w) && Still(w, disk) && Readable(disk)
    requires jobId in before.jobs && before.jobs[jobId].expected == expected && before.jobs[jobId].status.Recoverable?
    requires error.None?
    ensures !verdict.IsSkipped? && (verdict.IsRecovered? <==> Built(expected, disk).Some?)
    ensures verdict.IsRecovered? ==> Built(expected, disk) == Some(verdict.manifest)
    ensures OnlyChanges(before, after, {jobId})
    ensures jobId in after.jobs
    ensures !verdict.IsRecovered? ==>
              && after.artifacts == before.artifacts && after.files == before.files
              && after.jobs[jobId].status.Recoverable?
  {
    hide Inv, Built, Digested, Readable, Fits;
    assert w.others(n + 1, before) == before;
    assert w.disk(n) == disk && w.disk(n + 1) == disk;
    if Built(expected, disk).Some? {
      FollowsItself(before, {});
      BuiltFits(before, before, jobId, expected, disk);
    }
  }

  // Where the loop stands, under the lock and alone.

  ghost predicate UnderLock(t: Tables, kind: Kind, r: RecoveryResult, todo: set<string>) {
    NoneRunning(t, kind) && AllStand(t, kind, r) && forall id :: id in todo ==> Stopped(t, id, kind)
  }

  lemma UnderLockTurn(before: Tables, after: Tables, kind: Kind, r: RecoveryResult, todo: set<string>, jobId: string,
          verdict: Verdict)
    requires UnderLock(before, kind, r, todo) && jobId in todo && Follows(before, after)
    requires jobId !in r.recovered && jobId !in r.pending && jobId !in r.skipped
    requires OthersStayOff(before, after.(jobs := after.jobs - {jobId}), kind)
    requires jobId in after.jobs && !after.jobs[jobId].status.Running? && Stands(after, jobId, kind, verdict)
    ensures UnderLock(after, kind, Filed(r, jobId, verdict), todo - {jobId})
  {
    hide Filed, UnderLock, Stands, Stopped;
    var filed := Filed(r, jobId, verdict);
    UnderLockRows(before, after, kind, r, todo, jobId);
    FiledIsOneMore(r, jobId, verdict);
    StandsWhereFiled(after, kind, jobId, verdict);
    AllStandGrows(after, kind, r, filed, jobId, verdict);
    UnderLockFrom(after, kind, filed, todo - {jobId});
  }

  lemma UnderLockFrom(t: Tables, kind: Kind, r: RecoveryResult, todo: set<string>)
    requires NoneRunning(t, kind) && AllStand(t, kind, r) && forall id :: id in todo ==> Stopped(t, id, kind)
    ensures UnderLock(t, kind, r, todo)
  {
  }

  lemma UnderLockRows(before: Tables, after: Tables, kind: Kind, r: RecoveryResult, todo: set<string>, jobId: string)
    requires UnderLock(before, kind, r, todo) && Follows(before, after)
    requires jobId !in r.recovered && jobId !in r.pending && jobId !in r.skipped
    requires OthersStayOff(before, after.(jobs := after.jobs - {jobId}), kind)
    requires jobId in after.jobs && !after.jobs[jobId].status.Running?
    ensures NoneRunning(after, kind) && AllStand(after, kind, r)
    ensures forall id :: id in todo && id != jobId ==> Stopped(after, id, kind)
  {
    assert OnlyStop(before, after, kind, jobId);
    forall id | id in before.jobs && before.jobs[id].kind == kind && id != jobId
      ensures id in after.jobs && after.jobs[id].kind == kind
      ensures after.jobs[id] == before.jobs[id] || after.jobs[id].status.Failed? || after.jobs[id].status.Canceled?
      ensures before.jobs[id].status.Completed? ==> after.jobs[id].status.Completed?
      ensures before.jobs[id].status.Failed? || before.jobs[id].status.Canceled? ==> after.jobs[id] == before.jobs[id]
    {
    }
    hide Follows, OthersStayOff, OnlyStop;
  }

  lemma FiledIsOneMore(r: RecoveryResult, jobId: string, verdict: Verdict)
    ensures var f := Filed(r, jobId, verdict);
            && (forall id :: id in f.recovered <==> id in r.recovered || (id == jobId && verdict.IsRecovered?))
            && (forall id :: id in f.pending <==> id in r.pending || (id == jobId && verdict.IsPending?))
            && (forall id :: id in f.skipped <==> id in r.skipped || (id == jobId && verdict.IsSkipped?))
  {
  }

  lemma StandsWhereFiled(t: Tables, kind: Kind, jobId: string, verdict: Verdict)
    requires Stands(t, jobId, kind, verdict)
    ensures jobId in t.jobs && t.jobs[jobId].kind == kind
    ensures verdict.IsRecovered? ==> t.jobs[jobId].status.Completed?
    ensures !verdict.IsRecovered? ==> Stopped(t, jobId, kind)
    ensures verdict.IsSkipped? ==> !t.jobs[jobId].status.Recoverable?
  {
  }

  lemma AllStandGrows(t: Tables, kind: Kind, r: RecoveryResult, f: RecoveryResult, jobId: string, verdict: Verdict)
    requires AllStand(t, kind, r) && Stands(t, jobId, kind, verdict)
    requires forall id :: id in f.recovered <==> id in r.recovered || (id == jobId && verdict.IsRecovered?)
    requires forall id :: id in f.pending <==> id in r.pending || (id == jobId && verdict.IsPending?)
    requires forall id :: id in f.skipped <==> id in r.skipped || (id == jobId && verdict.IsSkipped?)
    ensures AllStand(t, kind, f)
  {
    hide Stopped;
    StandsWhereFiled(t, kind, jobId, verdict);
  }

  ghost predicate OnlyStop(before: Tables, after: Tables, kind: Kind, jobId: string) {
    forall id :: id in before.jobs && id in after.jobs && id != jobId && after.jobs[id].kind == kind ==>
      after.jobs[id] == before.jobs[id] || after.jobs[id].status.Failed? || after.jobs[id].status.Canceled?
  }

  /** `t` is the listed state `t0` after the jobs in `dealt` had their turns, with nobody else writing. */
  ghost predicate Alone(t0: Tables, t: Tables, disk: Disk, r: RecoveryResult, dealt: set<string>) {
    && OnlyChanges(t0, t, dealt) && r.skipped == [] && ManifestsBuilt(t0, disk, r)
    && (forall id :: id in r.recovered ==> id in t0.jobs && Built(t0.jobs[id].expected, disk).Some?)
    && (forall id :: id in r.pending ==>
          && id in t0.jobs && Built(t0.jobs[id].expected, disk).None?
          && id in t.jobs && t.jobs[id].status.Recoverable?)
    && (r.recovered == [] ==> t.artifacts == t0.artifacts && t.files == t0.files)
  }

  lemma AloneTurn(t0: Tables, before: Tables, after: Tables, disk: Disk, r: RecoveryResult, dealt: set<string>,
                  jobId: string, verdict: Verdict)
    requires Alone(t0, before, disk, r, dealt) && jobId in t0.jobs && jobId !in dealt
    requires forall id :: id in r.pending ==> id in dealt
    requires !verdict.IsSkipped? && (verdict.IsRecovered? <==> Built(t0.jobs[jobId].expected, disk).Some?)
    requires verdict.IsRecovered? ==> Built(t0.jobs[jobId].expected, disk) == Some(verdict.manifest)
    requires OnlyChanges(before, after, {jobId}) && jobId in after.jobs
    requires !verdict.IsRecovered? ==>
               && after.artifacts == before.artifacts && after.files == before.files
               && after.jobs[jobId].status.Recoverable?
    ensures Alone(t0, after, disk, Filed(r, jobId, verdict), dealt + {jobId})
  {
    hide Built;
  }

  /** A manifest that fits can only be refused because the job has ended or has not started. */
  lemma CompletionVerdict(t: Tables, jobId: string, m: Manifest, disk: Disk, now: string)
    requires Inv(t) && m.id == IdOf(m.origin) && Fits(t, jobId, m)
    ensures Digested(m, disk).Some? ==>
              var o := Complete(t, jobId, m, Digested(m, disk).value, now);
              && OnlyChanges(t, o.tables, {jobId})
              && (o.error.None? ==> jobId in o.tables.jobs && o.tables.jobs[jobId].status.Completed?
                                    && o.tables.jobs[jobId].kind == t.jobs[jobId].kind)
              && (o.error.Some? ==> o.tables == t && (o.error == Some(Terminal) || o.error == Some(Transition)))
              && (t.jobs[jobId].status.Recoverable? ==> o.error.None?)
  {
    hide Recorded, Matches, Digested;
    if Digested(m, disk).Some? {
      DigestedFills(m, disk);
      CompleteKeepsInv(t, jobId, m, Digested(m, disk).value, now);
      CompleteErrors(t, jobId, m, Digested(m, disk).value, now);
    }
  }

  lemma BuiltFits(t: Tables, u: Tables, jobId: string, expected: Expected, disk: Disk)
    requires Inv(t) && Follows(t, u) && jobId in t.jobs && t.jobs[jobId].expected == expected
    requires Built(expected, disk).Some?
    ensures Built(expected, disk).value.id == IdOf(Built(expected, disk).value.origin)
    ensures Fits(u, jobId, Built(expected, disk).value)
    ensures Readable(disk) ==> Digested(Built(expected, disk).value, disk).Some?
  {
    assert JobOk(t, t.jobs[jobId]);
    BuiltMatches(expected, disk);
  }

  lemma NoneDealt()
    ensures Partitions(RecoveryResult([], [], [], []), {})
  {
  }

  lemma RowsPersist(t: Tables, u: Tables, jobId: string)
    requires Follows(t, u) && jobId in t.jobs
    ensures jobId in u.jobs
    ensures u.jobs[jobId].expected == t.jobs[jobId].expected && u.jobs[jobId].kind == t.jobs[jobId].kind
  {
  }

  lemma TurnErrors(w: World, n: nat, before: Tables, after: Tables, jobId: string, expected: Expected,
                   error: Option<Error>, verdict: Verdict)
    requires Turn(w, n, before, after, jobId, expected, error, verdict)
    ensures error.Some? ==> error == Some(Database)
  {
  }

  /** A recovery by itself: every interrupted or recoverable job of the kind is recovered exactly
      when its outputs are all valid and otherwise stays recoverable, none is skipped, and no other
      job's row changes. */
  ghost predicate RecoveredAlone(t: Tables, u: Tables, kind: Kind, disk: Disk, r: RecoveryResult) {
    var ids := WithStatus(t, kind, Recoverable) + WithStatus(t, kind, Running);
    && Partitions(r, ids) && r.skipped == [] && ManifestsBuilt(t, disk, r)
    && (forall id :: id in ids ==> id in u.jobs && u.jobs[id].expected == t.jobs[id].expected)
    && (forall id :: id in ids ==> (id in r.recovered <==> Built(t.jobs[id].expected, disk).Some?))
    && NoneRunning(u, kind) && AllStand(u, kind, r)
    && (forall id :: id in r.pending ==> u.jobs[id].status.Recoverable?)
    && OnlyChanges(t, u, ids)
    && (r.recovered == [] ==> u.artifacts == t.artifacts && u.files == t.files)
  }

  lemma NonEmptyHasAMember(ids: seq<string>)
    ensures ids == [] || exists id :: id in ids
  {
    if ids != [] {
      assert ids[0] in ids;
    }
  }

  /** Recovering again, with the files unchanged, recovers nothing more, leaves the same jobs
      pending, and changes no status, artifact or file row. */
  lemma RecoveryIsIdempotent(t: Tables, u: Tables, v: Tables, kind: Kind, disk: Disk, first: RecoveryResult,
          second: RecoveryResult)
    requires RecoveredAlone(t, u, kind, disk, first) && RecoveredAlone(u, v, kind, disk, second)
    ensures second.recovered == [] && second.skipped == []
    ensures forall id :: id in second.pending <==> id in first.pending
    ensures v.artifacts == u.artifacts && v.files == u.files && v.jobs.Keys == u.jobs.Keys
    ensures forall id :: id in u.jobs ==> v.jobs[id].status == u.jobs[id].status
  {
    hide Built, WithStatus;
    var ids := WithStatus(t, kind, Recoverable) + WithStatus(t, kind, Running);
    var again := WithStatus(u, kind, Recoverable) + WithStatus(u, kind, Running);
    NonEmptyHasAMember(second.recovered);
    PendingAreTheRest(t, u, kind, disk, first);
    forall id | id in again
      ensures id !in second.recovered && u.jobs[id].status.Recoverable?
    {
      assert id in first.pending && id in ids && id !in first.recovered;
    }
    assert forall id :: id in second.recovered ==> id in again;
  }

  /** After a recovery the jobs still to recover are exactly the pending ones. */
  lemma PendingAreTheRest(t: Tables, u: Tables, kind: Kind, disk: Disk, r: RecoveryResult)
    requires RecoveredAlone(t, u, kind, disk, r)
    ensures forall id :: id in WithStatus(u, kind, Recoverable) + WithStatus(u, kind, Running) <==> id in r.pending
  {
    PartitionMembers(r, WithStatus(t, kind, Recoverable) + WithStatus(t, kind, Running));
    hide Built, Partitions;
    var ids := WithStatus(t, kind, Recoverable) + WithStatus(t, kind, Running);
    assert forall id :: id in t.jobs && id !in ids ==> u.jobs[id] == t.jobs[id];
  }

  /** Alone is a special case of holding the lock. */
  lemma QuietHoldsLock(w: World, kind: Kind)
    requires Quiet(w)
    ensures LockHeld(w, kind)
  {
    forall n, t | Inv(t)
      ensures OthersStayOff(t, w.others(n, t), kind)
    {
    }
  }

  lemma StartUnderLock(w: World, found: Tables, stopped: Tables, m: nat, kind: Kind, now: string)
    requires Lawful(w) && LockHeld(w, kind) && Inv(found) && stopped == Interrupted(found, kind, now)
    ensures var t0 := w.others(m, stopped);
            UnderLock(t0, kind, RecoveryResult([], [], [], []), WithStatus(t0, kind, Recoverable))
  {
    hide Inv, Follows;
    InterruptedKeepsInv(found, kind, now);
    InterruptedStopsRunning(found, kind, now);
    var t0 := w.others(m, stopped);
    assert OthersStayOff(stopped, t0, kind);
    hide LockHeld, Lawful, Interrupted, OnlyChanges;
    assert NoneRunning(t0, kind);
  }

  lemma StartAlone(w: World, n: nat, m: nat, t: Tables, found: Tables, stopped: Tables, t0: Tables, kind: Kind,
          disk: Disk, now: string)
    requires Quiet(w) && found == w.others(n, t)
    requires stopped == Interrupted(found, kind, now) && t0 == w.others(m, stopped)
    ensures WithStatus(t0, kind, Recoverable) == WithStatus(t, kind, Recoverable) + WithStatus(t, kind, Running)
    ensures OnlyChanges(t, t0, WithStatus(t, kind, Running))
    ensures t0.artifacts == t.artifacts && t0.files == t.files
    ensures Alone(t0, t0, disk, RecoveryResult([], [], [], []), {})
  {
    assert found == t && t0 == stopped;
    hide Quiet;
    InterruptedStopsRunning(found, kind, now);
  }

  lemma RecoveryTurn(w: World, n: nat, t0: Tables, before: Tables, after: Tables, jobId: string, kind: Kind,
          verdict: Verdict, r: RecoveryResult, dealt: set<string>, todo: set<string>, alone: bool)
    requires jobId in t0.jobs && t0.jobs[jobId].kind == kind && Follows(t0, before)
    requires Turn(w, n, before, after, jobId, t0.jobs[jobId].expected, None, verdict)
    requires Inv(before) && Lawful(w) && Follows(before, after)
    requires Partitions(r, dealt) && jobId !in dealt && jobId in todo && t0.jobs[jobId].status.Recoverable?
    requires LockHeld(w, kind) ==> UnderLock(before, kind, r, todo)
    requires alone ==> Alone(t0, before, w.disk(0), r, dealt)
    requires alone ==> Quiet(w) && Still(w, w.disk(0)) && Readable(w.disk(0))
    ensures LockHeld(w, kind) ==> UnderLock(after, kind, Filed(r, jobId, verdict), todo - {jobId})
    ensures alone ==> Alone(t0, after, w.disk(0), Filed(r, jobId, verdict), dealt + {jobId})
  {
    hide Inv, Lawful, LockHeld, Quiet, Still, Readable, Turn, Built;
    var expected := t0.jobs[jobId].expected;
    if LockHeld(w, kind) {
      TurnUnderLock(w, n, before, after, jobId, expected, kind, None, verdict);
      UnderLockTurn(before, after, kind, r, todo, jobId, verdict);
    }
    if alone {
      assert before.jobs[jobId] == t0.jobs[jobId];
      TurnAlone(w, n, before, after, jobId, expected, w.disk(0), None, verdict);
      AloneTurn(t0, before, after, w.disk(0), r, dealt, jobId, verdict);
    }
  }

  /** The recovery loop before its turn `i`: `dealt` are the jobs it has filed, `todo` the rest. */
  ghost predicate Dealing(w: World, t0: Tables, t: Tables, kind: Kind, ids: seq<string>, i: nat,
                          dealt: set<string>, todo: set<string>, r: RecoveryResult, alone: bool)
  {
    && i <= |ids| && Distinct(ids)
    && (forall id :: id in ids <==> id in t0.jobs && t0.jobs[id].status.Recoverable?)
    && (forall id :: id in todo <==> id in ids[i..] && t0.jobs[id].kind == kind)
    && (forall id :: id in dealt <==> id in ids[..i] && t0.jobs[id].kind == kind)
    && Partitions(r, dealt)
    && (LockHeld(w, kind) ==> UnderLock(t, kind, r, todo))
    && (alone ==> Alone(t0, t, w.disk(0), r, dealt))
  }

  lemma DealingStarts(w: World, t0: Tables, kind: Kind, ids: seq<string>, todo: set<string>, alone: bool)
    requires Distinct(ids) && todo == WithStatus(t0, kind, Recoverable)
    requires forall id :: id in ids <==> id in t0.jobs && t0.jobs[id].status == Recoverable
    requires LockHeld(w, kind) ==> UnderLock(t0, kind, RecoveryResult([], [], [], []), todo)
    requires alone ==> Alone(t0, t0, w.disk(0), RecoveryResult([], [], [], []), {})
    ensures Dealing(w, t0, t0, kind, ids, 0, {}, todo, RecoveryResult([], [], [], []), alone)
  {
    hide LockHeld, UnderLock, Alone;
    assert ids[0..] == ids && ids[..0] == [];
  }

  /** Turn `i` moves one job from the rest to the filed ones. */
  lemma SplitAt(ids: seq<string>, i: nat)
    requires Distinct(ids) && i < |ids|
    ensures forall id :: id in ids[i + 1..] <==> id in ids[i..] && id != ids[i]
    ensures forall id :: id in ids[..i + 1] <==> id in ids[..i] || id == ids[i]
    ensures ids[i] in ids[i..] && ids[i] !in ids[..i] && ids[i] in ids
  {
    assert ids[i..] == [ids[i]] + ids[i + 1..];
    assert ids[..i + 1] == ids[..i] + [ids[i]];
  }

  lemma DealingSkips(w: World, t0: Tables, t: Tables, kind: Kind, ids: seq<string>, i: nat,
                     dealt: set<string>, todo: set<string>, r: RecoveryResult, alone: bool)
    requires Dealing(w, t0, t, kind, ids, i, dealt, todo, r, alone) && i < |ids|
    requires ids[i] in t0.jobs && t0.jobs[ids[i]].kind != kind
    ensures Dealing(w, t0, t, kind, ids, i + 1, dealt, todo, r, alone)
  {
    hide LockHeld, UnderLock, Alone, Partitions;
    SplitAt(ids, i);
  }

  lemma DealingGrows(w: World, n: nat, t0: Tables, before: Tables, after: Tables, kind: Kind, ids: seq<string>, i: nat,
                     dealt: set<string>, todo: set<string>, r: RecoveryResult, verdict: Verdict, alone: bool)
    requires Dealing(w, t0, before, kind, ids, i, dealt, todo, r, alone) && i < |ids|
    requires ids[i] in t0.jobs && t0.jobs[ids[i]].kind == kind && Follows(t0, before)
    requires Turn(w, n, before, after, ids[i], t0.jobs[ids[i]].expected, None, verdict)
    requires Inv(before) && Lawful(w) && Follows(before, after)
    requires alone ==> Quiet(w) && Still(w, w.disk(0)) && Readable(w.disk(0))
    ensures Dealing(w, t0, after, kind, ids, i + 1, dealt + {ids[i]}, todo - {ids[i]}, Filed(r, ids[i], verdict), alone)
  {
    hide LockHeld, UnderLock, Alone, Partitions, Inv, Lawful, Follows, Quiet, Still, Readable, Turn, Filed;
    SplitAt(ids, i);
    RecoveryTurn(w, n, t0, before, after, ids[i], kind, verdict, r, dealt, todo, alone);
    FiledPartitions(r, dealt, ids[i], verdict);
  }

  lemma AllDealt(w: World, t0: Tables, t: Tables, kind: Kind, ids: seq<string>, dealt: set<string>, todo: set<string>,
                 r: RecoveryResult, alone: bool)
    requires Dealing(w, t0, t, kind, ids, |ids|, dealt, todo, r, alone)
    ensures dealt == WithStatus(t0, kind, Recoverable) && Partitions(r, dealt)
    ensures LockHeld(w, kind) ==> UnderLock(t, kind, r, {})
    ensures alone ==> Alone(t0, t, w.disk(0), r, dealt)
  {
    hide LockHeld, UnderLock, Alone, Partitions;
    assert ids[..|ids|] == ids && ids[|ids|..] == [];
    assert todo == {};
  }

  lemma KeysGrow(t: Tables, u: Tables)
    requires Follows(t, u)
    ensures t.jobs.Keys <= u.jobs.Keys
  {
  }

  lemma EndAlone(t: Tables, t0: Tables, u: Tables, kind: Kind, disk: Disk, r: RecoveryResult, dealt: set<string>)
    requires Partitions(r, dealt) && dealt == WithStatus(t0, kind, Recoverable)
    requires Alone(t0, u, disk, r, dealt) && UnderLock(u, kind, r, {})
    requires dealt == WithStatus(t, kind, Recoverable) + WithStatus(t, kind, Running)
    requires OnlyChanges(t, t0, WithStatus(t, kind, Running)) && Follows(t, t0) && Follows(t0, u)
    requires t0.artifacts == t.artifacts && t0.files == t.files
    ensures RecoveredAlone(t, u, kind, disk, r)
  {
    hide Built, Follows, Stopped;
    forall id | id in dealt
      ensures id in u.jobs && id in t0.jobs && u.jobs[id].expected == t0.jobs[id].expected == t.jobs[id].expected
    {
      RowsPersist(t, t0, id);
      RowsPersist(t0, u, id);
    }
    AloneVerdicts(t0, u, disk, r, dealt);
    AloneManifests(t, t0, disk, r, dealt);
    assert OnlyChanges(t, u, dealt);
    hide ManifestsBuilt;
    hide OnlyChanges, Partitions;
  }

  lemma AloneManifests(t: Tables, t0: Tables, disk: Disk, r: RecoveryResult, dealt: set<string>)
    requires Partitions(r, dealt) && ManifestsBuilt(t0, disk, r)
    requires forall id :: id in dealt ==> id in t.jobs && id in t0.jobs && t0.jobs[id].expected == t.jobs[id].expected
    ensures ManifestsBuilt(t, disk, r)
  {
    hide Built;
    forall i | 0 <= i < |r.artifacts|
      ensures var (id, m) := r.artifacts[i]; id in t.jobs && Built(t.jobs[id].expected, disk) == Some(m)
    {
      assert r.artifacts[i].0 == r.recovered[i];
    }
  }

  lemma AloneVerdicts(t0: Tables, u: Tables, disk: Disk, r: RecoveryResult, dealt: set<string>)
    requires Partitions(r, dealt) && Alone(t0, u, disk, r, dealt) && forall id :: id in dealt ==> id in t0.jobs
    ensures forall id :: id in dealt ==> (id in r.recovered <==> Built(t0.jobs[id].expected, disk).Some?)
  {
    hide Built, OnlyChanges;
  }
}
