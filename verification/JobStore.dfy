/** The job store object (internal/server/store.go and its persistence and retention parts).
    What the disk answers is a parameter: `persist` for the flush of the mutation's own revision,
    `undo` for the flush of the rollback revision. The interleaving of these calls with readers, the
    writer and crashes is in StoreSystem, which uses the same functions of the state. */
module JobStore {
  import opened Ordering
  import opened Retention
  import opened Jobs

  datatype StoreError =
    | StoreClosed
    | JobNotFound
    | TerminalStatus(status: JobStatus)
    | PersistFailed(cause: string)
    | RollbackFailed(cause: string, rollbackCause: string)

  /** The error of a durable mutator, from what its flush and the flush of its rollback answered. */
  function Failure(persist: Option<string>, undo: Option<string>): Option<StoreError> {
    if persist.None? then None
    else if undo.None? then Some(PersistFailed(persist.value))
    else Some(RollbackFailed(persist.value, undo.value))
  }

  /** The one job named is as given, unless it was dropped, and of the others only terminal ones were. */
  ghost predicate Leaving(before: map<string, JobRecord>, after: map<string, JobRecord>, id: string, job: JobRecord) {
    && (id in after ==> after[id] == job)
    && (forall x :: x in after && x != id ==> x in before && after[x] == before[x])
    && (forall x :: x in before && x !in after ==> x == id || IsTerminalStatus(before[x].status))
  }

  lemma WriteReplaces(op: Op, s: State)
    requires Applies(op, s) && !op.Create?
    ensures Write(op, s) == s.(jobs := s.jobs[op.id := Edit(op, s.jobs[op.id])])
  {
    hide Edit;
  }

  lemma VictimsAreTerminal(jobs: map<string, JobRecord>)
    ensures forall x :: x in Victims(TerminalTimes(jobs)) ==> x in jobs && IsTerminalStatus(jobs[x].status)
  {
    hide Victims;
    VictimsAreTheOldest(TerminalTimes(jobs));
  }

  lemma PruneLeaves(s: State, id: string, job: JobRecord)
    requires id in s.jobs
    ensures Leaving(s.jobs, Prune(s.(jobs := s.jobs[id := job])).jobs, id, job)
    ensures Prune(s.(jobs := s.jobs[id := job])).jobs.Keys <= s.jobs.Keys
  {
    hide TerminalTimes, Victims, KeysOf;
    VictimsAreTerminal(s.jobs[id := job]);
  }

  class JobStore {
    var jobs: map<string, JobRecord>
    var idempotencyKeys: map<string, string>
    var revision: nat
    /** Contexts that have been canceled, named by the job they belong to. */
    var canceled: set<string>
    /** Set by Close; beginMutation refuses from then on. */
    var closed: bool
    /** Every snapshot handed to the persistence coordinator, with its revision. */
    var published: seq<(nat, Snapshot)>

    function View(): State
      reads this
    {
      State(jobs, idempotencyKeys)
    }

    constructor ()
      ensures View() == EmptyState && revision == 0 && published == [] && canceled == {} && !closed
    {
      jobs, idempotencyKeys, revision, canceled, published, closed := map[], map[], 0, {}, [], false;
    }

    /** The locked part of Close. */
    method BeginClose()
      modifies this`closed
      ensures closed
    {
      closed := true;
    }

    /** Builds the snapshot of the job map entry by entry under a new revision, and hands it over. */
    method SnapshotAndPublish()
      modifies this`revision, this`published
      ensures revision == old(revision) + 1
      ensures published == old(published) + [(revision, TakeSnapshot(jobs))]
    {
      revision := revision + 1;
      var snapshot: Snapshot, rest := map[], jobs.Keys;
      while rest != {}
        invariant rest <= jobs.Keys && snapshot.Keys == jobs.Keys - rest
        invariant forall id :: id in snapshot ==> snapshot[id] == JobToPersisted(jobs[id])
      {
        var id :| id in rest;
        snapshot := snapshot[id := JobToPersisted(jobs[id])];
        rest := rest - {id};
      }
      assert snapshot == TakeSnapshot(jobs);
      published := published + [(revision, snapshot)];
    }

    method CollectTerminal() returns (times: Times, terminal: seq<string>)
      ensures times == TerminalTimes(jobs)
      ensures forall id :: id in terminal <==> id in times
      ensures forall i, j :: 0 <= i < j < |terminal| ==> terminal[i] != terminal[j]
    {
      times, terminal := map[], [];
      var rest := jobs.Keys;
      while rest != {}
        invariant rest <= jobs.Keys
        invariant forall id :: id in times <==> id in jobs && id !in rest && IsTerminalStatus(jobs[id].status)
        invariant forall id :: id in times ==> times[id] == jobs[id].updatedAt
        invariant forall id :: id in terminal <==> id in times
        invariant forall i, j :: 0 <= i < j < |terminal| ==> terminal[i] != terminal[j]
      {
        var id :| id in rest;
        rest := rest - {id};
        if IsTerminalStatus(jobs[id].status) {
          times, terminal := times[id := jobs[id].updatedAt], terminal + [id];
        }
      }
    }

    /** Collects the terminal jobs, sorts them oldest first, and deletes the excess from the front,
        each with the index entry under its key. */
    method PruneTerminalJobsLocked() returns (pruned: set<string>)
      modifies this`jobs, this`idempotencyKeys
      ensures View() == Prune(old(View()))
      ensures pruned == Victims(TerminalTimes(old(jobs)))
    {
      hide Victims, KeysOf, Prune, Without;
      ghost var before := View();
      var times, terminal := CollectTerminal();
      var excess := OldestExcess(times, terminal);
      pruned := {};
      WithoutNone(before);
      assert forall id :: id in excess ==> id in times && id in jobs;
      for i := 0 to |excess|
        invariant pruned == Elements(excess[..i])
        invariant View() == Without(before, pruned)
        invariant forall j :: i <= j < |excess| ==> excess[j] in jobs
      {
        WithoutOneMore(before, pruned, excess[i]);
        assert Elements(excess[..i + 1]) == pruned + {excess[i]};
        var job := jobs[excess[i]];
        if job.idempotencyKey != "" {
          idempotencyKeys := idempotencyKeys - {job.idempotencyKey};
        }
        jobs := jobs - {excess[i]};
        pruned := pruned + {excess[i]};
      }
      assert excess[..|excess|] == excess;
      PruneIs(before, pruned);
    }

    /** Puts the captured state back, publishes it under a new revision, and cancels the contexts of
        jobs that only the failed mutation had introduced. */
    method RollbackMutation(saved: State, cause: string, undo: Option<string>) returns (err: StoreError)
      modifies this`jobs, this`idempotencyKeys, this`revision, this`published, this`canceled
      ensures View() == saved && revision == old(revision) + 1
      ensures published == old(published) + [(revision, TakeSnapshot(saved.jobs))]
      ensures canceled == old(canceled) + (old(jobs).Keys - saved.jobs.Keys)
      ensures undo == None ==> err == PersistFailed(cause)
      ensures undo.Some? ==> err == RollbackFailed(cause, undo.value)
    {
      canceled := canceled + (jobs.Keys - saved.jobs.Keys);
      jobs, idempotencyKeys := saved.jobs, saved.keys;
      SnapshotAndPublish();
      err := if undo.Some? then RollbackFailed(cause, undo.value) else PersistFailed(cause);
    }

    /** An unfinished job of a store that is not closed. */
    predicate Active(id: string)
      reads this
    {
      !closed && id in jobs && !IsTerminalStatus(jobs[id].status)
    }

    /** Whether a mutator gets past beginMutation and its own guards. */
    predicate Accepts(op: Op)
      reads this
    {
      !closed && Applies(op, View())
    }

    /** The contract of a durable mutator: committed with its effect, or as if never called. Either way
        the coordinator has been given the committed state, and after a failure the old one again. */
    twostate predicate AllOrNothing(op: Op, failed: bool)
      requires old(Applies(op, View()))
      reads this
    {
      var committed := Apply(op, old(View()));
      var attempt := (old(revision) + 1, TakeSnapshot(committed.jobs));
      if failed then
        && View() == old(View()) && revision == old(revision) + 2
        && published == old(published) + [attempt] + [(revision, TakeSnapshot(jobs))]
      else
        && View() == committed && revision == old(revision) + 1
        && published == old(published) + [attempt]
    }

    /** The same for one that ends a job: once saved, the contexts of the jobs that retention dropped are
        canceled, and those of `ended`. */
    twostate predicate EndsOrNothing(op: Op, failed: bool, ended: set<string>)
      requires Prunes(op) && old(Applies(op, View()))
      reads this
    {
      var dropped := Victims(TerminalTimes(Write(op, old(View())).jobs));
      AllOrNothing(op, failed) && canceled == (if failed then old(canceled) else old(canceled) + dropped + ended)
    }

    twostate predicate Leaves(id: string, job: JobRecord)
      reads this
    {
      Leaving(old(jobs), jobs, id, job)
    }

    /** The jobs afterwards: the one named as given, and the others as they were. */
    twostate predicate Sets(id: string, job: JobRecord)
      reads this
    {
      jobs == old(jobs)[id := job] && idempotencyKeys == old(idempotencyKeys)
    }

    twostate predicate Untouched()
      reads this
    {
      View() == old(View()) && revision == old(revision) && published == old(published) && canceled == old(canceled)
    }

    method CreateJobWithKeyDurable(op: Op, persist: Option<string>, undo: Option<string>)
      returns (job: Option<JobRecord>, created: bool, err: Option<StoreError>)
      requires op.Create? && op.id !in jobs
      modifies this
      ensures closed == old(closed)
      ensures created <==>
        !closed && (op.key == "" || op.key !in old(idempotencyKeys) || old(idempotencyKeys)[op.key] !in old(jobs))
      ensures closed ==> Untouched() && job == None && !created && err == Some(StoreClosed)
      ensures !closed && !created ==>
        Untouched() && err == None && job == Some(jobs[idempotencyKeys[op.key]])
      ensures created ==>
        && old(Accepts(op)) && AllOrNothing(op, persist.Some?)
        && job.Some? && err == Failure(persist, undo) && (err == None <==> persist == None)
        && job.value == JobRecord(op.id, op.request, op.key, op.createdAt, Pending, progress := 0.0, error := "",
                                  totalLectures := 0, completedLectures := 0, filteredLectures := 0, outputs := [],
                                  updatedAt := op.now)
        && (err == None ==>
              && jobs == old(jobs)[op.id := job.value]
              && idempotencyKeys ==
                 if op.key == "" then old(idempotencyKeys) else old(idempotencyKeys)[op.key := op.id])
        && canceled == if persist.Some? then old(canceled) + {op.id} else old(canceled)
    {
      if closed {
        return None, false, Some(StoreClosed);
      }
      if op.key != "" && op.key in idempotencyKeys {
        var existing := idempotencyKeys[op.key];
        if existing in jobs {
          return Some(jobs[existing]), false, None;
        }
      }
      var saved := View();
      job, created, err := Some(NewJob(op)), true, None;
      jobs := jobs[op.id := NewJob(op)];
      if op.key != "" {
        idempotencyKeys := idempotencyKeys[op.key := op.id];
      }
      SnapshotAndPublish();
      if persist.Some? {
        assert jobs.Keys - saved.jobs.Keys == {op.id};
        var e := RollbackMutation(saved, persist.value, undo);
        err := Some(e);
      }
    }

    /** What every operation that ends a job does after its guards: capture, edit, prune, publish,
        wait, and either cancel the pruned jobs' contexts or roll back. */
    method EndDurably(op: Op, edited: JobRecord, persist: Option<string>, undo: Option<string>)
      returns (err: Option<StoreError>)
      requires Prunes(op) && Applies(op, View()) && edited == Edit(op, jobs[op.id])
      modifies this`jobs, this`idempotencyKeys, this`revision, this`published, this`canceled
      ensures EndsOrNothing(op, persist.Some?, {}) && err == Failure(persist, undo)
      ensures err == None ==> Leaves(op.id, edited)
    {
      hide Write, Edit, Prune, Leaving, Victims, TerminalTimes, TakeSnapshot;
      var saved := View();
      WriteReplaces(op, saved);
      PruneLeaves(saved, op.id, edited);
      jobs := jobs[op.id := edited];
      var pruned := PruneTerminalJobsLocked();
      SnapshotAndPublish();
      err := None;
      if persist.Some? {
        assert jobs.Keys - saved.jobs.Keys == {};
        var e := RollbackMutation(saved, persist.value, undo);
        err := Some(e);
      } else {
        canceled := canceled + pruned;
      }
    }

    method FailJobIfNonTerminal(op: Op, persist: Option<string>, undo: Option<string>)
      returns (applied: bool, err: Option<StoreError>)
      requires op.Fail?
      modifies this
      ensures closed == old(closed)
      ensures applied <==> old(Active(op.id)) && persist.None?
      ensures !old(Active(op.id)) ==> Untouched() && err == if closed then Some(StoreClosed) else None
      ensures old(Active(op.id)) ==>
        && old(Accepts(op)) && EndsOrNothing(op, persist.Some?, {}) && err == Failure(persist, undo)
        && (applied ==>
              var job := old(jobs)[op.id];
              Leaves(op.id, job.(status := Failed, progress := 0.0, error := op.error, updatedAt := op.now)))
    {
      hide Victims, TakeSnapshot;
      if closed {
        return false, Some(StoreClosed);
      }
      if op.id !in jobs || IsTerminalStatus(jobs[op.id].status) {
        return false, None;
      }
      var edited := jobs[op.id].(status := Failed, progress := 0.0, error := op.error, updatedAt := op.now);
      err := EndDurably(op, edited, persist, undo);
      applied := err.None?;
    }

    method CompleteJob(op: Op, persist: Option<string>, undo: Option<string>) returns (err: Option<StoreError>)
      requires op.Complete?
      modifies this
      ensures closed == old(closed)
      ensures err == None <==> old(Active(op.id)) && persist == None
      ensures !old(Active(op.id)) ==>
        && Untouched()
        && err == Some(if closed then StoreClosed
                       else if op.id !in jobs then JobNotFound
                       else TerminalStatus(jobs[op.id].status))
      ensures old(Active(op.id)) ==>
        && old(Accepts(op)) && EndsOrNothing(op, persist.Some?, {}) && err == Failure(persist, undo)
        && (err == None ==>
              var job := old(jobs)[op.id];
              Leaves(op.id, job.(status := Completed, progress := 100.0, error := "", outputs := op.outputs,
                                 updatedAt := op.now)))
    {
      hide Victims, TakeSnapshot;
      if closed {
        return Some(StoreClosed);
      }
      if op.id !in jobs {
        return Some(JobNotFound);
      }
      if IsTerminalStatus(jobs[op.id].status) {
        return Some(TerminalStatus(jobs[op.id].status));
      }
      var edited := jobs[op.id].(
        outputs := op.outputs, status := Completed, progress := 100.0, error := "", updatedAt := op.now);
      err := EndDurably(op, edited, persist, undo);
    }

    /** The job's own context is canceled only once the disk has accepted the cancellation. */
    method CancelJob(op: Op, persist: Option<string>, undo: Option<string>)
      returns (job: Option<JobRecord>, err: Option<StoreError>)
      requires op.Cancel?
      modifies this
      ensures closed == old(closed)
      ensures err == None <==> old(Active(op.id)) && persist == None
      ensures !old(Active(op.id)) ==>
        && Untouched() && job == None
        && err == Some(if closed then StoreClosed
                       else if op.id !in jobs then JobNotFound
                       else TerminalStatus(jobs[op.id].status))
      ensures old(Active(op.id)) ==>
        && old(Accepts(op)) && EndsOrNothing(op, persist.Some?, {op.id}) && err == Failure(persist, undo)
        && job == Some(old(jobs)[op.id].(status := Canceled, updatedAt := op.now))
        && (err == None ==> Leaves(op.id, job.value))
    {
      hide Victims, TakeSnapshot;
      if closed {
        return None, Some(StoreClosed);
      }
      if op.id !in jobs {
        return None, Some(JobNotFound);
      }
      if IsTerminalStatus(jobs[op.id].status) {
        return None, Some(TerminalStatus(jobs[op.id].status));
      }
      var edited := jobs[op.id].(status := Canceled, updatedAt := op.now);
      job := Some(edited);
      err := EndDurably(op, edited, persist, undo);
      if err.None? {
        canceled := canceled + {op.id};
      }
    }

    method UpdateJobDurable(op: Op, persist: Option<string>, undo: Option<string>) returns (err: Option<StoreError>)
      requires op.Update?
      modifies this
      ensures closed == old(closed)
      ensures !old(Active(op.id)) ==> Untouched() && err == if closed then Some(StoreClosed) else None
      ensures old(Active(op.id)) && IsTerminalStatus(op.status) ==>
        old(Accepts(op)) && EndsOrNothing(op, persist.Some?, {}) && err == Failure(persist, undo)
      ensures old(Active(op.id)) && !IsTerminalStatus(op.status) ==>
        old(Accepts(op)) && AllOrNothing(op, false) && err == None && canceled == old(canceled)
      ensures old(Active(op.id)) && persist == None ==> err == None
      ensures old(Active(op.id)) && err == None ==>
        var job := old(jobs)[op.id];
        Leaves(op.id, job.(status := op.status, progress := op.progress, error := op.error, updatedAt := op.now))
    {
      hide Victims, TakeSnapshot;
      if closed {
        return Some(StoreClosed);
      }
      if op.id !in jobs || IsTerminalStatus(jobs[op.id].status) {
        return None;
      }
      var edited := jobs[op.id].(status := op.status, progress := op.progress, error := op.error, updatedAt := op.now);
      if IsTerminalStatus(op.status) {
        err := EndDurably(op, edited, persist, undo);
      } else {
        jobs := jobs[op.id := edited];
        SnapshotAndPublish();
        err := None;
      }
    }

    /** Progress, counters and outputs are published without waiting for the disk. */
    method UpdateRunningIfActive(op: Op) returns (applied: bool, err: Option<StoreError>)
      requires op.UpdateRunning?
      modifies this
      ensures closed == old(closed) && canceled == old(canceled)
      ensures applied <==> old(Active(op.id)) && old(jobs)[op.id].progress <= op.progress
      ensures applied == old(Accepts(op))
      ensures err == if closed then Some(StoreClosed) else None
      ensures if applied then AllOrNothing(op, false) else Untouched()
      ensures applied ==>
        var job := old(jobs)[op.id];
        Sets(op.id, job.(status := Running, progress := op.progress, error := "", updatedAt := op.now))
    {
      if closed {
        return false, Some(StoreClosed);
      }
      if op.id !in jobs || IsTerminalStatus(jobs[op.id].status) || op.progress < jobs[op.id].progress {
        return false, None;
      }
      var edited := jobs[op.id].(status := Running, progress := op.progress, error := "", updatedAt := op.now);
      jobs := jobs[op.id := edited];
      SnapshotAndPublish();
      return true, None;
    }

    method SetLectureProgress(op: Op)
      requires op.SetLectureProgress?
      modifies this
      ensures closed == old(closed) && canceled == old(canceled)
      ensures if old(Accepts(op)) then AllOrNothing(op, false) else Untouched()
      ensures old(Accepts(op)) <==> old(Active(op.id)) && old(jobs)[op.id].completedLectures <= op.completed
      ensures old(Accepts(op)) ==>
        var job := old(jobs)[op.id];
        Sets(op.id, job.(completedLectures := op.completed, totalLectures := op.total, updatedAt := op.now))
    {
      if closed {
        return;
      }
      if op.id !in jobs || IsTerminalStatus(jobs[op.id].status) || op.completed < jobs[op.id].completedLectures {
        return;
      }
      var edited := jobs[op.id].(completedLectures := op.completed, totalLectures := op.total, updatedAt := op.now);
      jobs := jobs[op.id := edited];
      SnapshotAndPublish();
    }

    method SetFilteredLectures(op: Op)
      requires op.SetFilteredLectures?
      modifies this
      ensures closed == old(closed) && canceled == old(canceled)
      ensures if old(Accepts(op)) then AllOrNothing(op, false) else Untouched()
      ensures old(Accepts(op)) <==> !closed && op.id in old(jobs)
      ensures old(Accepts(op)) ==> Sets(op.id, old(jobs)[op.id].(filteredLectures := op.count, updatedAt := op.now))
    {
      if closed || op.id !in jobs {
        return;
      }
      jobs := jobs[op.id := jobs[op.id].(filteredLectures := op.count, updatedAt := op.now)];
      SnapshotAndPublish();
    }

    method SetOutputs(op: Op)
      requires op.SetOutputs?
      modifies this
      ensures closed == old(closed) && canceled == old(canceled)
      ensures if old(Accepts(op)) then AllOrNothing(op, false) else Untouched()
      ensures old(Accepts(op)) <==> !closed && op.id in old(jobs)
      ensures old(Accepts(op)) ==> Sets(op.id, old(jobs)[op.id].(outputs := op.outputs, updatedAt := op.now))
    {
      if closed || op.id !in jobs {
        return;
      }
      jobs := jobs[op.id := jobs[op.id].(outputs := op.outputs, updatedAt := op.now)];
      SnapshotAndPublish();
    }

    /** loadFromDisk: ends interrupted jobs, prunes, then rebuilds map and index entry by entry.
        `changed` tells the caller to write the corrected file back. */
    method LoadFromDisk(file: Snapshot) returns (changed: bool)
      requires View() == EmptyState
      modifies this`jobs, this`idempotencyKeys
      ensures WellFormed(file) ==> View() == Restore(file)
      ensures changed <==> Kept(file) != file
    {
      var persisted: Snapshot, rest := file, file.Keys;
      changed := false;
      while rest != {}
        invariant rest <= file.Keys && persisted.Keys == file.Keys
        invariant forall id :: id in file ==> persisted[id] == if id in rest then file[id] else Interrupt(file[id])
        invariant changed <==> persisted != file
      {
        var id :| id in rest;
        rest := rest - {id};
        if !IsTerminalStatus(persisted[id].status) {
          var pj := persisted[id].(status := Failed);
          if pj.error == "" {
            pj := pj.(error := INTERRUPTED);
          }
          persisted, changed := persisted[id := pj], true;
          assert persisted[id] != file[id];
        }
      }
      assert persisted == InterruptAll(file);
      var kept := PrunePersistedTerminalJobs(persisted);
      changed := changed || kept != persisted;
      PruneOnlyRemoves(file);
      if WellFormed(file) {
        KeptIsWellFormed(file);
      }
      FillFrom(kept, WellFormed(file));
      if WellFormed(file) {
        IndexIsKeyIndex(kept);
      }
    }

    /** Creates a job and an index entry for each entry kept. */
    method FillFrom(kept: Snapshot, ghost wellFormed: bool)
      requires View() == EmptyState && (wellFormed ==> WellFormed(kept))
      modifies this`jobs, this`idempotencyKeys
      ensures wellFormed ==> jobs == ReadBack(kept) && WellFormed(kept) && idempotencyKeys == IndexOf(kept)
    {
      hide ReadBack, IndexOf;
      NothingReadBack();
      var rest := kept.Keys;
      ghost var done: Snapshot := map[];
      while rest != {}
        invariant rest <= kept.Keys && done == kept - rest
        invariant wellFormed ==> WellFormed(done) && jobs == ReadBack(done) && idempotencyKeys == IndexOf(done)
      {
        var id :| id in rest;
        var pj := kept[id];
        jobs := jobs[pj.id := PersistedToJob(pj)];
        if pj.idempotencyKey != "" {
          idempotencyKeys := idempotencyKeys[pj.idempotencyKey := pj.id];
        }
        if wellFormed {
          ReadBackOneMore(kept, done, id);
          IndexOneMore(done, id, pj);
        }
        rest := rest - {id};
        done := done[id := pj];
      }
      assert done == kept;
    }
  }

  method CollectPersistedTerminal(p: Snapshot) returns (times: Times, terminal: seq<string>)
    ensures times == PersistedTerminalTimes(p)
    ensures forall id :: id in terminal <==> id in times
    ensures forall i, j :: 0 <= i < j < |terminal| ==> terminal[i] != terminal[j]
  {
    times, terminal := map[], [];
    var rest := p.Keys;
    while rest != {}
      invariant rest <= p.Keys
      invariant forall id :: id in times <==> id in p && id !in rest && IsTerminalStatus(p[id].status)
      invariant forall id :: id in times ==> times[id] == ParseTime(p[id].updatedAt)
      invariant forall id :: id in terminal <==> id in times
      invariant forall i, j :: 0 <= i < j < |terminal| ==> terminal[i] != terminal[j]
    {
      var id :| id in rest;
      rest := rest - {id};
      if IsTerminalStatus(p[id].status) {
        times, terminal := times[id := ParseTime(p[id].updatedAt)], terminal + [id];
      }
    }
  }

  /** prunePersistedTerminalJobs: the same rule on a file's entries. */
  method PrunePersistedTerminalJobs(p: Snapshot) returns (kept: Snapshot)
    ensures kept == PrunePersisted(p)
  {
    hide Victims;
    var times, terminal := CollectPersistedTerminal(p);
    var excess := OldestExcess(times, terminal);
    kept := p;
    for i := 0 to |excess|
      invariant kept == p - Elements(excess[..i])
    {
      assert Elements(excess[..i + 1]) == Elements(excess[..i]) + {excess[i]};
      kept := kept - {excess[i]};
    }
    assert excess[..|excess|] == excess;
  }

  /** Sorts the collected IDs oldest first and takes the excess over the bound from the front. */
  method OldestExcess(times: Times, terminal: seq<string>) returns (excess: seq<string>)
    requires forall id :: id in terminal <==> id in times
    requires forall i, j :: 0 <= i < j < |terminal| ==> terminal[i] != terminal[j]
    ensures Elements(excess) == Victims(times)
    ensures forall id :: id in excess ==> id in times
    ensures forall i, j :: 0 <= i < j < |excess| ==> excess[i] != excess[j]
  {
    hide OldestFirst, Victims;
    OldestFirstSorts(times, terminal);
    var sorted := OldestFirst(times, terminal);
    SortedIndexIsRank(times, sorted);
    if |terminal| <= MAX_RETAINED_TERMINAL_JOBS {
      NoExcess(times, sorted);
      return [];
    }
    PrefixIsVictims(times, sorted);
    excess := sorted[..|terminal| - MAX_RETAINED_TERMINAL_JOBS];
  }

  ghost function IndexOf(p: Snapshot): map<string, string>
    requires WellFormed(p)
  {
    map id | id in p && p[id].idempotencyKey != "" :: p[id].idempotencyKey := id
  }

  lemma NothingReadBack()
    ensures WellFormed(map[]) && ReadBack(map[]) == map[] && IndexOf(map[]) == map[]
  {
  }

  lemma IndexIsKeyIndex(p: Snapshot)
    requires WellFormed(p)
    ensures DistinctKeys(ReadBack(p)) && IndexOf(p) == KeyIndex(ReadBack(p))
  {
    ReadBackIsSound(p);
  }

  lemma ReadBackOneMore(all: Snapshot, done: Snapshot, id: string)
    requires WellFormed(all) && id in all && id !in done
    requires forall d :: d in done ==> d in all && done[d] == all[d]
    ensures WellFormed(done[id := all[id]])
    ensures ReadBack(done[id := all[id]]) == ReadBack(done)[id := PersistedToJob(all[id])]
  {
    SubfileIsWellFormed(all, done[id := all[id]]);
  }

  lemma IndexOneMore(done: Snapshot, id: string, pj: PersistedJob)
    requires WellFormed(done) && WellFormed(done[id := pj]) && id !in done
    ensures IndexOf(done[id := pj]) ==
      if pj.idempotencyKey != "" then IndexOf(done)[pj.idempotencyKey := id] else IndexOf(done)
  {
    hide IndexOf, WellFormed;
    var more := done[id := pj];
    var key := pj.idempotencyKey;
    var a, b := IndexOf(more), if key != "" then IndexOf(done)[key := id] else IndexOf(done);
    forall k
      ensures k in a ==> k in b && a[k] == b[k]
      ensures k in b ==> k in a
    {
      if k in a {
        var d := IndexedBy(more, k);
        if d != id {
          IndexHas(done, d);
          IndexHas(more, id);
        }
      }
      if k in b && (k != key || key == "") {
        var d := IndexedBy(done, k);
        IndexHas(more, d);
      }
      IndexHas(more, id);
    }
    assert a.Keys == b.Keys;
  }

  lemma IndexHas(p: Snapshot, id: string)
    requires WellFormed(p) && id in p
    ensures p[id].idempotencyKey != "" ==>
              p[id].idempotencyKey in IndexOf(p) && IndexOf(p)[p[id].idempotencyKey] == id
  {
  }

  lemma IndexedBy(p: Snapshot, key: string) returns (id: string)
    requires WellFormed(p) && key in IndexOf(p)
    ensures id in p && key != "" && p[id].idempotencyKey == key && IndexOf(p)[key] == id
  {
    id :| id in p && p[id].idempotencyKey != "" && p[id].idempotencyKey == key;
  }

  lemma PruneOnlyRemoves(p: Snapshot)
    ensures Kept(p) == p <==> InterruptAll(p) == p && Kept(p) == InterruptAll(p)
  {
    var q := InterruptAll(p);
    SmallerUnlessEqual(q, Victims(PersistedTerminalTimes(q)));
    if Kept(p) == p {
      assert Kept(p).Keys == q.Keys;
      assert Kept(p) == q;
    }
  }

  lemma SmallerUnlessEqual(q: Snapshot, v: set<string>)
    ensures (q - v).Keys == q.Keys ==> q - v == q
  {
  }

  /** The state without a set of jobs and without their index entries. */
  ghost function Without(s: State, ids: set<string>): State {
    State(s.jobs - ids, s.keys - KeysOf(s.jobs, ids))
  }

  lemma WithoutNone(s: State)
    ensures Without(s, {}) == s
  {
    assert KeysOf(s.jobs, {}) == {};
  }

  lemma WithoutOneMore(s: State, ids: set<string>, id: string)
    requires id in s.jobs && id !in ids
    ensures id in Without(s, ids).jobs && Without(s, ids).jobs[id] == s.jobs[id]
    ensures var w, key := Without(s, ids), s.jobs[id].idempotencyKey;
      Without(s, ids + {id}) == State(w.jobs - {id}, if key != "" then w.keys - {key} else w.keys)
  {
    var key := s.jobs[id].idempotencyKey;
    assert KeysOf(s.jobs, ids + {id}) == KeysOf(s.jobs, ids) + (if key != "" then {key} else {});
  }

  lemma PruneIs(s: State, victims: set<string>)
    requires victims == Victims(TerminalTimes(s.jobs))
    ensures Prune(s) == Without(s, victims)
  {
  }

  lemma NoExcess(t: Times, sorted: seq<string>)
    requires forall x :: x in sorted <==> x in t
    requires forall i, j :: 0 <= i < j < |sorted| ==> Before(t, sorted[i], sorted[j])
    requires |sorted| == |t| <= MAX_RETAINED_TERMINAL_JOBS
    ensures Elements([]) == Victims(t) == {}
  {
    SortedIndexIsRank(t, sorted);
  }

  lemma PrefixIsVictims(t: Times, sorted: seq<string>)
    requires forall x :: x in sorted <==> x in t
    requires forall i, j :: 0 <= i < j < |sorted| ==> Before(t, sorted[i], sorted[j])
    requires |sorted| == |t| && |t| > MAX_RETAINED_TERMINAL_JOBS
    ensures Elements(sorted[..Excess(t)]) == Victims(t)
    ensures forall i, j :: 0 <= i < j < |sorted| ==> sorted[i] != sorted[j]
  {
    SortedIndexIsRank(t, sorted);
    forall x | x in Victims(t) ensures x in Elements(sorted[..Excess(t)]) {
      var i :| 0 <= i < |sorted| && sorted[i] == x;
      assert |Older(t, sorted[i])| == i;
    }
    forall x | x in Elements(sorted[..Excess(t)]) ensures x in Victims(t) {
      var i :| 0 <= i < Excess(t) && sorted[i] == x;
      assert |Older(t, sorted[i])| == i;
    }
    forall i, j | 0 <= i < j < |sorted| ensures sorted[i] != sorted[j] {
      BeforeIsStrictTotal(t, sorted[i], sorted[i], sorted[i]);
    }
  }
}
