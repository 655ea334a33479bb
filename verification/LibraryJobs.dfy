/** The local library's job lifecycle (internal/library/jobs.go). Every SQL statement or transaction is
    one atomic step. A crash between two steps leaves one of the committed states, which the store
    keeps in `history`. */
module LibraryJobs {
  import opened Ordering
  import opened LibraryTables
  import opened LibraryRecovery

  // ---------------------------------------------------------------- the store

  /** Committed states, each following the one before: where a crash can leave the library. */
  ghost predicate Lawfully(history: seq<Tables>) {
    && (forall i :: 0 <= i < |history| ==> Inv(history[i]))
    && (forall i :: 0 < i < |history| ==> Follows(history[i - 1], history[i]))
  }

  lemma {:induction false} HistoryFollows(history: seq<Tables>, i: nat, j: nat)
    requires Lawfully(history) && i <= j < |history|
    ensures Follows(history[i], history[j])
    decreases j
  {
    hide Inv, Follows;
    if i == j {
      FollowsItself(history[i], {});
    } else {
      HistoryFollows(history, i, j - 1);
      FollowsIsTransitive(history[i], history[j - 1], history[j]);
    }
  }

  /** In any two committed states, the earlier one's terminal jobs are unchanged in the later one,
      and each of its completed jobs still has its artifact and file rows there. */
  lemma TerminalIsForever(history: seq<Tables>, i: nat, j: nat, id: string)
    requires Lawfully(history) && i <= j < |history|
    requires id in history[i].jobs && IsTerminal(history[i].jobs[id].status)
    ensures id in history[j].jobs && history[j].jobs[id] == history[i].jobs[id]
    ensures history[i].jobs[id].status.Completed? ==>
              var job := history[i].jobs[id];
              && job.logicalId == IdOf(job.expected.origin) && job.logicalId in history[j].artifacts
              && forall k :: 0 <= k < |job.expected.files| ==>
                  HasRow(history[j].files, job.logicalId, job.expected.files[k].path)
  {
    HistoryFollows(history, i, j);
    assert JobOk(history[j], history[j].jobs[id]);
  }

  const UNSTABLE_OUTPUTS := "completed outputs changed or became unreadable before recording"

  class Store {
    var tables: Tables
    var clock: nat
    const world: World
    ghost var history: seq<Tables>

    ghost predicate Valid()
      reads this
    {
      && Lawful(world)
      && Lawfully(history) && history != [] && history[|history| - 1] == tables
    }

    /** What every operation keeps, whatever its outcome and wherever in it a crash happens. */
    twostate predicate Advances()
      reads this
    {
      Valid() && old(history) <= history && Follows(old(tables), tables)
    }

    /** The state in which the next statement runs: other writers come first. */
    ghost function Next(): Tables
      reads this
    {
      world.others(clock, tables)
    }

    /** A transition that changed nothing itself: the database failed, or the update met the tables
        `met` and found no row to change, and a second look says why. */
    ghost predicate Refused(met: Tables, n: nat, error: Error)
      reads this
    {
      if world.fails(n) then tables == met && error == Database
      else tables == world.others(n + 1, met) && (error in {Database, NotFound, Terminal, Transition})
    }

    /** The tables `met`, with this row under `id` and nothing else changed. */
    ghost predicate Sets(met: Tables, id: string, row: Job)
      reads this
    {
      tables == met.(jobs := met.jobs[id := row])
    }

    constructor (world: World)
      requires Lawful(world)
      ensures Valid() && this.world == world && tables == Tables(map[], map[], map[]) && clock == 0
    {
      this.world := world;
      tables, clock := Tables(map[], map[], map[]), 0;
      history := [Tables(map[], map[], map[])];
    }

    method Commit(t: Tables)
      requires Valid() && Inv(t) && Follows(tables, t)
      modifies this`tables, this`history
      ensures Valid() && tables == t && history == old(history) + [t]
    {
      tables := t;
      history := history + [t];
    }

    method Step() returns (fails: bool)
      requires Valid()
      modifies this
      ensures Valid() && tables == old(Next()) && fails == world.fails(old(clock))
      ensures clock == old(clock) + 1 && history == old(history) + [tables]
      ensures Follows(old(tables), tables)
    {
      fails := world.fails(clock);
      Commit(world.others(clock, tables));
      clock := clock + 1;
    }

    /** `id` and `kind` are what the given texts parse to, if they do: a version 4 UUID in canonical form,
        and one of the two kinds. */
    method CreateJob(id: Option<string>, kind: Option<Kind>, expected: Expected, now: string)
      returns (error: Option<Error>)
      requires Valid()
      modifies this
      ensures Advances()
      ensures error == Some(Invalid) <==>
                id.None? || kind.None? || expected.files == [] || !UniquePaths(expected.files)
      ensures error.None? <==>
                && id.Some? && kind.Some? && expected.files != [] && UniquePaths(expected.files)
                && !world.fails(old(clock)) && id.value !in old(Next()).jobs
      ensures error.None? ==>
                var row := Job(kind.value, Pending, IdOf(expected.origin), None, expected, 0, "", None, None, now, now);
                tables == old(Next()).(jobs := old(Next()).jobs[id.value := row])
      ensures error == Some(Invalid) ==> tables == old(tables) && clock == old(clock)
      ensures error.Some? && error != Some(Invalid) ==> error == Some(Database) && tables == old(Next())
    {
      if id.None? || kind.None? || |expected.files| == 0 {
        assert Advances() by { HistoryFollows(history, |history| - 1, |history| - 1); }
        return Some(Invalid);
      }
      var jobId := id.value;
      var seen: set<string> := {};
      var i := 0;
      while i < |expected.files|
        invariant 0 <= i <= |expected.files|
        invariant forall p :: p in seen <==> exists j :: 0 <= j < i && expected.files[j].path == p
        invariant forall j, k :: 0 <= j < k < i ==> expected.files[j].path != expected.files[k].path
      {
        if expected.files[i].path in seen {
          assert Advances() by { HistoryFollows(history, |history| - 1, |history| - 1); }
          return Some(Invalid);
        }
        seen := seen + {expected.files[i].path};
        i := i + 1;
      }
      var fails := Step();
      if fails || jobId in tables.jobs {
        return Some(Database);
      }
      var row := Job(kind.value, Pending, IdOf(expected.origin), None, expected, 0, "", None, None, now, now);
      ghost var before := tables;
      RowKeepsInv(tables, jobId, row);
      Commit(tables.(jobs := tables.jobs[jobId := row]));
      FollowsIsTransitive(old(tables), before, tables);
      return None;
    }

    /** requireJobTransition, after an UPDATE that matched no row. */
    method RequireJobTransition(jobId: string) returns (error: Error)
      requires Valid()
      modifies this
      ensures Advances() && tables == old(Next())
      ensures error == if world.fails(old(clock)) then Database
                       else if jobId !in tables.jobs then NotFound
                       else if IsTerminal(tables.jobs[jobId].status) then Terminal
                       else Transition
    {
      var fails := Step();
      if fails {
        return Database;
      }
      if jobId !in tables.jobs {
        return NotFound;
      }
      return if IsTerminal(tables.jobs[jobId].status) then Terminal else Transition;
    }

    method StartJob(jobId: string, now: string) returns (error: Option<Error>)
      requires Valid()
      modifies this
      ensures Advances()
      ensures error.None? <==>
                && !world.fails(old(clock)) && jobId in old(Next()).jobs
                && (old(Next()).jobs[jobId].status.Pending? || old(Next()).jobs[jobId].status.Recoverable?)
      ensures error.None? ==>
                var job := old(Next()).jobs[jobId];
                Sets(old(Next()), jobId, job.(
                    status := Running, attempts := job.attempts + 1, startedAt := Some(now), finishedAt := None,
                    summary := "", updatedAt := now))
      ensures error.Some? ==> Refused(old(Next()), old(clock), error.value)
    {
      var fails := Step();
      if fails {
        return Some(Database);
      }
      ghost var before := tables;
      if jobId in tables.jobs && (tables.jobs[jobId].status.Pending? || tables.jobs[jobId].status.Recoverable?) {
        assert JobOk(tables, tables.jobs[jobId]);
        var row := tables.jobs[jobId].(
          status := Running, attempts := tables.jobs[jobId].attempts + 1, startedAt := Some(now), finishedAt := None,
          summary := "", updatedAt := now);
        RowKeepsInv(tables, jobId, row);
        Commit(tables.(jobs := tables.jobs[jobId := row]));
        FollowsIsTransitive(old(tables), before, tables);
        return None;
      }
      var why := RequireJobTransition(jobId);
      FollowsIsTransitive(old(tables), before, tables);
      return Some(why);
    }

    /** finishJob, for FailJob and CancelJob. */
    method FinishJob(jobId: string, status: Status, summary: string, now: string) returns (error: Option<Error>)
      requires Valid() && (status.Failed? || status.Canceled?)
      modifies this
      ensures Advances()
      ensures error.None? <==>
                !world.fails(old(clock)) && jobId in old(Next()).jobs && !IsTerminal(old(Next()).jobs[jobId].status)
      ensures error.None? ==>
                Sets(old(Next()), jobId, old(Next()).jobs[jobId].(
                    status := status, summary := summary, finishedAt := Some(now), updatedAt := now))
      ensures error.Some? ==> Refused(old(Next()), old(clock), error.value)
    {
      var fails := Step();
      if fails {
        return Some(Database);
      }
      ghost var before := tables;
      if jobId in tables.jobs && !IsTerminal(tables.jobs[jobId].status) {
        assert JobOk(tables, tables.jobs[jobId]);
        var row := tables.jobs[jobId].(
          status := status, summary := summary, finishedAt := Some(now), updatedAt := now);
        RowKeepsInv(tables, jobId, row);
        Commit(tables.(jobs := tables.jobs[jobId := row]));
        FollowsIsTransitive(old(tables), before, tables);
        return None;
      }
      var why := RequireJobTransition(jobId);
      FollowsIsTransitive(old(tables), before, tables);
      return Some(why);
    }

    /** completeValidatedJob: digest first, outside the transaction, then one transaction. */
    method CompleteValidatedJob(jobId: string, m: Manifest, now: string) returns (error: Option<Error>)
      requires Valid() && m.id == IdOf(m.origin)
      modifies this
      ensures Advances()
      ensures var digested := Digested(m, world.disk(old(clock)));
              if digested.None? then error == Some(OutputUnstable) && tables == old(tables) && clock == old(clock)
              else if world.fails(old(clock)) then error == Some(Database) && tables == old(Next())
              else
                var o := Complete(old(Next()), jobId, m, digested.value, now);
                error == o.error && tables == o.tables
      ensures error.None? ==> CompletedFrom(old(Next()), tables, jobId, m.id, now)
      ensures OnlyChanges(if clock == old(clock) then old(tables) else old(Next()), tables, {jobId})
    {
      hide Inv, Follows, Lawfully, Lawful, OnlyChanges, Matches, Recorded, Digested, WithFiles, Fills;
      FollowsItself(tables, {jobId});
      var digested := DigestManifestFiles(m, world.disk(clock));
      if digested.None? {
        return Some(OutputUnstable);
      }
      DigestedFills(m, world.disk(clock));
      var fails := Step();
      FollowsItself(tables, {jobId});
      if fails {
        return Some(Database);
      }
      ghost var before := tables;
      CurrentKeepsInv();
      ghost var o := Complete(before, jobId, m, digested.value, now);
      CompleteKeepsInv(before, jobId, m, digested.value, now);
      if jobId !in tables.jobs {
        return Some(NotFound);
      }
      var job := tables.jobs[jobId];
      if job.logicalId != m.id {
        return Some(Mismatch);
      }
      var matches := MatchesManifest(job.expected, m);
      if !matches {
        return Some(Mismatch);
      }
      if AlreadyCompleted(job, m.id) {
        return None;
      }
      if Lifecycle(job, m.id).Some? {
        return Lifecycle(job, m.id);
      }
      var recorded := RecordManifestTx(tables, digested.value, now);
      if recorded.None? {
        return Some(Mismatch);
      }
      RecordedKeepsJobs(tables, digested.value, now);
      var t := recorded.value;
      t := t.(jobs := t.jobs[jobId := CompletedRow(t.jobs[jobId], m.id, now)]);
      Commit(t);
      FollowsIsTransitive(old(tables), before, tables);
      return None;
    }

    /** CompleteJob: the caller's manifest is built again from the files before it is believed. */
    method CompleteJob(jobId: string, m: Manifest, now: string) returns (error: Option<Error>)
      requires Valid()
      modifies this
      ensures Advances()
      ensures error.None? ==>
                && jobId in tables.jobs && tables.jobs[jobId].status.Completed?
                && tables.jobs[jobId].completedId == Some(m.id) && m.id == IdOf(m.origin)
                && CompletedFrom(world.others(old(clock) + 1, old(tables)), tables, jobId, m.id, now)
                && Built(Respecified(m), world.disk(old(clock))).Some?
    {
      hide Inv, Follows, Lawfully, Lawful, Built, Digested, Matches, Recorded;
      FollowsItself(tables, {});
      var rebuilt := Build(Respecified(m), world.disk(clock));
      clock := clock + 1;
      if rebuilt.None? {
        return Some(Invalid);
      }
      BuiltId(Respecified(m), world.disk(clock - 1));
      if m.id != rebuilt.value.id {
        return Some(Invalid);
      }
      error := CompleteValidatedJob(jobId, rebuilt.value, now);
    }

    lemma CurrentKeepsInv()
      requires Valid()
      ensures Inv(tables)
    {
    }

    method SetRecoverableSummary(jobId: string, summary: string, now: string) returns (error: Option<Error>)
      requires Valid()
      modifies this
      ensures Advances()
      ensures error == if world.fails(old(clock)) then Some(Database) else None
      ensures tables == if error.Some? then old(Next()) else WithSummary(old(Next()), jobId, summary, now)
      ensures if error.None? && jobId in old(Next()).jobs && old(Next()).jobs[jobId].status.Recoverable?
              then Sets(old(Next()), jobId, old(Next()).jobs[jobId].(summary := summary, updatedAt := now))
              else tables == old(Next())
    {
      var fails := Step();
      if fails {
        return Some(Database);
      }
      ghost var before := tables;
      if jobId in tables.jobs && tables.jobs[jobId].status.Recoverable? {
        var row := tables.jobs[jobId].(summary := summary, updatedAt := now);
        assert JobOk(tables, tables.jobs[jobId]);
        RowKeepsInv(tables, jobId, row);
        Commit(tables.(jobs := tables.jobs[jobId := row]));
        FollowsIsTransitive(old(tables), before, tables);
      }
      return None;
    }

    /** containRecoveryError: which list a failed completion puts the job on, or the error to
        give up with. */
    method ContainRecoveryError(jobId: string, failure: Error, now: string)
      returns (error: Option<Error>, verdict: Verdict)
      requires Valid()
      modifies this
      ensures Advances()
      ensures match failure
              case Terminal | Transition | NotFound =>
                error.None? && verdict.IsSkipped? && tables == old(tables) && clock == old(clock)
              case OutputUnstable =>
                && verdict.IsPending?
                && error == (if world.fails(old(clock)) then Some(Database) else None)
                && tables == (if error.Some? then old(Next())
                              else WithSummary(old(Next()), jobId, UNSTABLE_OUTPUTS, now))
              case _ =>
                error == Some(failure) && tables == old(tables) && clock == old(clock)
    {
      assert Follows(tables, tables);
      match failure
      case Terminal | Transition | NotFound =>
        return None, IsSkipped;
      case OutputUnstable =>
        error := SetRecoverableSummary(jobId, UNSTABLE_OUTPUTS, now);
        verdict := IsPending;
      case _ =>
        return Some(failure), IsSkipped;
    }

    /** One turn of the recovery loop. Files may change between the build and the digest. */
    method RecoverOne(jobId: string, expected: Expected, now: string) returns (error: Option<Error>, verdict: Verdict)
      requires Valid() && jobId in tables.jobs && tables.jobs[jobId].expected == expected
      modifies this
      ensures Advances()
      ensures Turn(world, old(clock), old(tables), tables, jobId, expected, error, verdict)
    {
      hide Inv, Follows, Lawfully, OnlyChanges, Matches, Recorded, Digested, Built, WithFiles, Complete, Fits, Readable;
      hide WithSummary, CompletedFrom, Sets, Turn;
      CurrentKeepsInv();
      ghost var before, n := tables, clock;
      var built := Build(expected, world.disk(clock));
      clock := clock + 1;
      ghost var t := Next();
      NextFollows();
      if built.None? {
        var summary := "expected outputs are not yet valid";
        error := SetRecoverableSummary(jobId, summary, now);
        PendingTurn(world, n, before, tables, jobId, expected, error, summary, now);
        return error, IsPending;
      }
      BuiltFits(before, t, jobId, expected, world.disk(n));
      CompletionVerdict(t, jobId, built.value, world.disk(clock), now);
      var failure := CompleteValidatedJob(jobId, built.value, now);
      if failure.Some? {
        error, verdict := ContainRecoveryError(jobId, failure.value, now);
        if failure == Some(OutputUnstable) {
          PendingTurn(world, n, before, tables, jobId, expected, error, UNSTABLE_OUTPUTS, now);
        } else {
          IdleTurn(world, n, before, tables, jobId, expected, error, verdict);
        }
      } else {
        error, verdict := None, IsRecovered(built.value);
        RecoveredTurn(world, n, before, tables, jobId, expected, built.value);
      }
    }

    /** jobsByStatus; the order of the rows plays no part here. */
    method JobsByStatus(status: Status) returns (fails: bool, ids: seq<string>)
      requires Valid()
      modifies this
      ensures Valid() && tables == old(Next()) && fails == world.fails(old(clock))
      ensures clock == old(clock) + 1 && history == old(history) + [tables]
      ensures Follows(old(tables), tables)
      ensures Distinct(ids)
      ensures forall id :: id in ids <==> id in tables.jobs && tables.jobs[id].status == status
    {
      hide Inv, Follows, Lawfully, Lawful;
      fails := Step();
      ids := [];
      var left := tables.jobs.Keys;
      while left != {}
        invariant left <= tables.jobs.Keys
        invariant Distinct(ids)
        invariant forall id :: id in ids <==> id in tables.jobs && id !in left && tables.jobs[id].status == status
        decreases |left|
      {
        var id :| id in left;
        left := left - {id};
        if tables.jobs[id].status == status {
          ids := ids + [id];
        }
      }
    }

    /** The first statement of recovery: running jobs of the kind become recoverable. */
    method InterruptRunning(kind: Kind, now: string) returns (fails: bool)
      requires Valid()
      modifies this
      ensures Advances() && fails == world.fails(old(clock)) && clock == old(clock) + 1
      ensures Inv(old(Next())) && (!fails ==> tables == Interrupted(old(Next()), kind, now))
      ensures !fails ==>
                && tables.jobs.Keys == old(Next()).jobs.Keys
                && tables.artifacts == old(Next()).artifacts && tables.files == old(Next()).files
                && forall id :: id in tables.jobs ==>
                    var job := old(Next()).jobs[id];
                    tables.jobs[id] ==
                    if job.status.Running? && job.kind == kind then
                      job.(status := Recoverable, summary := "interrupted before durable completion", updatedAt := now)
                    else job
    {
      hide Inv, Follows, Lawfully, Lawful;
      fails := Step();
      CurrentKeepsInv();
      if fails {
        return;
      }
      ghost var found := tables;
      InterruptedKeepsInv(found, kind, now);
      Commit(Interrupted(tables, kind, now));
      FollowsIsTransitive(old(tables), found, tables);
    }

    /** RecoverInterruptedJobs. `listing` is where in the history the recoverable jobs were listed. */
    method RecoverInterruptedJobs(kind: Kind, now: string)
      returns (error: Option<Error>, result: RecoveryResult, ghost listing: nat)
      requires Valid()
      modifies this
      ensures Advances()
      ensures error.Some? ==> error == Some(Database)
      ensures error.None? ==>
                && listing < |history| && history[listing].jobs.Keys <= tables.jobs.Keys
                && Partitions(result, WithStatus(history[listing], kind, Recoverable))
                && (LockHeld(world, kind) ==> UnderLock(tables, kind, result, {}))
      ensures error.None? && Quiet(world) && Still(world, world.disk(0)) && Readable(world.disk(0)) ==>
                RecoveredAlone(old(tables), tables, kind, world.disk(0), result)
    {
      hide Inv, Follows, Lawfully, Lawful, LockHeld, Quiet, Still, Readable, UnderLock, Alone, OnlyChanges;
      hide Partitions, Turn, Dealing, Interrupted, WithStatus, Filed, RecoveredAlone;
      result := RecoveryResult([], [], [], []);
      ghost var found := Next();
      var fails := InterruptRunning(kind, now);
      if fails {
        return Some(Database), result, 0;
      }
      ghost var stopped := tables;
      var listFails, ids := JobsByStatus(Recoverable);
      FollowsIsTransitive(old(tables), stopped, tables);
      if listFails {
        return Some(Database), result, 0;
      }
      listing := |history| - 1;
      var rows := tables.jobs;
      ghost var t0 := tables;
      ghost var dealt: set<string> := {};
      ghost var alone: bool := Quiet(world) && Still(world, world.disk(0)) && Readable(world.disk(0));
      ghost var todo := WithStatus(t0, kind, Recoverable);
      CurrentKeepsInv();
      NoneDealt();
      FollowsItself(t0, {});
      if LockHeld(world, kind) {
        StartUnderLock(world, found, stopped, clock - 1, kind, now);
      }
      if alone {
        QuietHoldsLock(world, kind);
        StartAlone(world, old(clock), clock - 1, old(tables), found, stopped, t0, kind, world.disk(0), now);
      }
      DealingStarts(world, t0, kind, ids, todo, alone);
      var i := 0;
      while i < |ids|
        invariant 0 <= i <= |ids|
        invariant Valid() && old(history) <= history && Follows(old(tables), tables)
        invariant listing < |history| && history[listing] == t0 && rows == t0.jobs && Follows(t0, tables)
        invariant Dealing(world, t0, tables, kind, ids, i, dealt, todo, result, alone)
      {
        var jobId := ids[i];
        i := i + 1;
        if rows[jobId].kind != kind {
          DealingSkips(world, t0, tables, kind, ids, i - 1, dealt, todo, result, alone);
          continue;
        }
        ghost var before := tables;
        ghost var n := clock;
        RowsPersist(t0, tables, jobId);
        CurrentKeepsInv();
        var verdict;
        error, verdict := RecoverOne(jobId, rows[jobId].expected, now);
        FollowsIsTransitive(old(tables), before, tables);
        FollowsIsTransitive(t0, before, tables);
        if error.Some? {
          TurnErrors(world, n, before, tables, jobId, rows[jobId].expected, error, verdict);
          return error, result, listing;
        }
        DealingGrows(world, n, t0, before, tables, kind, ids, i - 1, dealt, todo, result, verdict, alone);
        result := Filed(result, jobId, verdict);
        dealt, todo := dealt + {jobId}, todo - {jobId};
      }
      AllDealt(world, t0, tables, kind, ids, dealt, todo, result, alone);
      error := None;
      KeysGrow(t0, tables);
      if alone {
        QuietHoldsLock(world, kind);
        EndAlone(old(tables), t0, tables, kind, world.disk(0), result, dealt);
      }
    }

    lemma NextFollows()
      requires Valid()
      ensures Inv(Next()) && Follows(tables, Next()) && forall id :: id in tables.jobs ==>
          id in Next().jobs && JobFollows(tables.jobs[id], Next().jobs[id])
    {
    }
  }
}
