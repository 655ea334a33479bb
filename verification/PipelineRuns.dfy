/** More of every run of the pipeline (internal/downloader/pipeline.go): how full its channels get, when a chunk
    waits for memory, what becomes of a chunk whose worker gives up, where each result comes from, and that a
    run without any failure exists. */
module PipelineRuns {
  import opened Ordering
  import opened Pipeline

  // ---- Channels ----

  /** Two places for each worker, and at least one. */
  function Capacity(workers: nat): nat { if workers == 0 then 1 else 2 * workers }

  ghost function Chunks(stages: seq<Stage>, p: Stage -> bool): set<nat> {
    set c | 0 <= c < |stages| && p(stages[c])
  }

  lemma {:induction false} SumIsSize(stages: seq<Stage>, p: Stage -> bool, f: Stage -> nat)
    requires forall s :: f(s) == if p(s) then 1 else 0
    ensures Sum(stages, f) == |Chunks(stages, p)|
  {
    if stages == [] {
      assert Chunks(stages, p) == {};
    } else {
      var last := |stages| - 1;
      SumIsSize(stages[..last], p, f);
      assert Chunks(stages, p) == Chunks(stages[..last], p) + (if p(stages[last]) then {last} else {});
    }
  }

  ghost predicate WithinBuffers(cfg: Config, s: State) {
    && Sum(s.stages, IsQueued) <= DownloadBuffer(cfg) && Sum(s.stages, IsReady) <= DownloadBuffer(cfg)
    && Sum(s.stages, IsDelivered) <= DecryptBuffer(cfg)
  }

  lemma StepKeepsBuffers(cfg: Config, s: State, step: Step)
    requires WithinBuffers(cfg, s) && Enabled(cfg, s, step)
    ensures WithinBuffers(cfg, Next(cfg, s, step))
  {
    hide Sum, Held, MustWait, DownloadBuffer, DecryptBuffer, DownloadBusy, DecryptBusy;
    SumNext(cfg, s, step, IsQueued);
    SumNext(cfg, s, step, IsReady);
    SumNext(cfg, s, step, IsDelivered);
  }

  lemma {:induction false} BuffersHold(cfg: Config, s: State, run: seq<Step>, t: State)
    requires WithinBuffers(cfg, s) && Reaches(cfg, s, run, t)
    ensures WithinBuffers(cfg, t)
    decreases |run|
  {
    hide WithinBuffers, Enabled, Next;
    if run != [] {
      StepKeepsBuffers(cfg, s, run[0]);
      BuffersHold(cfg, Next(cfg, s, run[0]), run[1..], t);
    }
  }

  /** No channel holds more chunks than its capacity. */
  lemma QueuesAreBounded(cfg: Config, run: seq<Step>, s: State)
    requires Reaches(cfg, Start(cfg), run, s)
    ensures |Chunks(s.stages, (x: Stage) => x.Queued?)| <= Capacity(cfg.downloadWorkers)
    ensures |Chunks(s.stages, (x: Stage) => x.Ready?)| <= Capacity(cfg.downloadWorkers)
    ensures |Chunks(s.stages, (x: Stage) => x.Delivered?)| <= Capacity(cfg.decryptWorkers)
  {
    AllUnsubmitted(|cfg.tasks|, IsQueued);
    AllUnsubmitted(|cfg.tasks|, IsReady);
    AllUnsubmitted(|cfg.tasks|, IsDelivered);
    hide Sum, Reaches, Chunks;
    BuffersHold(cfg, Start(cfg), run, s);
    SumIsSize(s.stages, (x: Stage) => x.Queued?, IsQueued);
    SumIsSize(s.stages, (x: Stage) => x.Ready?, IsReady);
    SumIsSize(s.stages, (x: Stage) => x.Delivered?, IsDelivered);
  }

  // ---- Memory ----

  /** A fetched chunk is let in exactly when nothing is in flight or it fits the budget beside what is; after
      a cancellation it stops waiting in any case. */
  lemma AdmittedExactlyWhen(cfg: Config, s: State, c: nat, size: nat)
    requires c < |s.stages| && s.stages[c] == Acquiring(size)
    ensures Enabled(cfg, s, Acquire(c)) <==> s.canceled || s.inFlight == 0 || s.inFlight + size <= cfg.budget
  {
    hide Sum;
  }

  // ---- Giving up ----

  function IsDropped(s: Stage): nat { if s.Dropped? then 1 else 0 }

  ghost predicate DroppersLeft(s: State) {
    Sum(s.stages, IsDropped) <= s.downloadExited + s.decryptExited
  }

  lemma StepKeepsDroppers(cfg: Config, s: State, step: Step)
    requires DroppersLeft(s) && Enabled(cfg, s, step)
    ensures DroppersLeft(Next(cfg, s, step))
  {
    hide Sum, Held, MustWait, DownloadBuffer, DecryptBuffer, DownloadBusy, DecryptBusy;
    SumNext(cfg, s, step, IsDropped);
  }

  lemma {:induction false} DroppersHold(cfg: Config, s: State, run: seq<Step>, t: State)
    requires DroppersLeft(s) && Reaches(cfg, s, run, t)
    ensures DroppersLeft(t)
    decreases |run|
  {
    hide DroppersLeft, Enabled, Next;
    if run != [] {
      StepKeepsDroppers(cfg, s, run[0]);
      DroppersHold(cfg, Next(cfg, s, run[0]), run[1..], t);
    }
  }

  /** A worker that abandons a chunk is gone, so at most one chunk a worker is abandoned. */
  lemma OneDroppedEach(cfg: Config, run: seq<Step>, s: State)
    requires Reaches(cfg, Start(cfg), run, s)
    ensures |Chunks(s.stages, (x: Stage) => x.Dropped?)| <= s.downloadExited + s.decryptExited
    ensures s.downloadExited <= cfg.downloadWorkers && s.decryptExited <= cfg.decryptWorkers
  {
    AllUnsubmitted(|cfg.tasks|, IsDropped);
    StartIsInvariant(cfg);
    InvariantHolds(cfg, Start(cfg), run, s);
    hide Sum, Reaches, Chunks;
    DroppersHold(cfg, Start(cfg), run, s);
    SumIsSize(s.stages, (x: Stage) => x.Dropped?, IsDropped);
  }

  // ---- Results ----

  /** The step that a result of chunk c comes from: a decryption, or a download that failed. */
  ghost predicate ComesFrom(steps: seq<Step>, c: nat, result: Result) {
    match result
    case Decrypted => Decrypt(c, true) in steps
    case Failed(canceled) =>
      Fetched(c, DownloadFailed(canceled)) in steps || (!canceled && Decrypt(c, false) in steps)
  }

  ghost predicate Sourced(steps: seq<Step>, c: nat, stage: Stage) {
    match stage
    case Handing(DownloadFailed(canceled)) => Fetched(c, DownloadFailed(canceled)) in steps
    case Ready(DownloadFailed(canceled)) => Fetched(c, DownloadFailed(canceled)) in steps
    case Delivering(result) => ComesFrom(steps, c, result)
    case Delivered(result) => ComesFrom(steps, c, result)
    case Collected(result) => ComesFrom(steps, c, result)
    case _ => true
  }

  ghost predicate AllSourced(steps: seq<Step>, s: State) {
    forall c :: 0 <= c < |s.stages| ==> Sourced(steps, c, s.stages[c])
  }

  lemma StepSources(cfg: Config, steps: seq<Step>, s: State, step: Step)
    requires AllSourced(steps, s) && Enabled(cfg, s, step)
    ensures AllSourced(steps + [step], Next(cfg, s, step))
  {
    hide Sum, Held, MustWait, DownloadBuffer, DecryptBuffer, DownloadBusy, DecryptBusy;
    SumNext(cfg, s, step, IsDropped);
    var t, more := Next(cfg, s, step), steps + [step];
    assert step in more;
    forall c | 0 <= c < |t.stages|
      ensures Sourced(more, c, t.stages[c])
    {
      assert Sourced(steps, c, s.stages[c]);
      SourcedLater(steps, step, c, s.stages[c]);
    }
  }

  lemma SourcedLater(steps: seq<Step>, step: Step, c: nat, stage: Stage)
    requires Sourced(steps, c, stage)
    ensures Sourced(steps + [step], c, stage)
  {
  }

  lemma {:induction false} SourcesHold(cfg: Config, steps: seq<Step>, s: State, run: seq<Step>, t: State)
    requires AllSourced(steps, s) && Reaches(cfg, s, run, t)
    ensures AllSourced(steps + run, t)
    decreases |run|
  {
    hide AllSourced, Enabled, Next;
    if run == [] {
      assert steps + run == steps;
    } else {
      StepSources(cfg, steps, s, run[0]);
      SourcesHold(cfg, steps + [run[0]], Next(cfg, s, run[0]), run[1..], t);
      assert (steps + [run[0]]) + run[1..] == steps + run;
    }
  }

  /** Every result that arrived is of a step of the run: success of a successful decryption, failure of a failed
      one or of a failed download, and canceled only of a download that was. */
  lemma ResultsComeFromSteps(cfg: Config, run: seq<Step>, s: State, k: nat)
    requires Reaches(cfg, Start(cfg), run, s) && k < |s.arrived|
    ensures ComesFrom(run, s.arrived[k].0, s.arrived[k].1)
  {
    StartIsInvariant(cfg);
    InvariantHolds(cfg, Start(cfg), run, s);
    SourcesHold(cfg, [], Start(cfg), run, s);
    assert [] + run == run;
    hide Sum, Reaches, ComesFrom;
    assert Sourced(run, s.arrived[k].0, s.stages[s.arrived[k].0]);
  }

  // ---- A run without failures ----

  predicate CleanStage(s: Stage) {
    match s
    case Handing(download) => download.Bytes?
    case Ready(download) => download.Bytes?
    case Delivering(result) => result.Decrypted?
    case Delivered(result) => result.Decrypted?
    case Collected(result) => result.Decrypted?
    case _ => true
  }

  ghost predicate Clean(s: State) {
    !s.canceled && forall c :: 0 <= c < |s.stages| ==> CleanStage(s.stages[c])
  }

  /** The same step, with the operation it stands for successful. */
  function Succeeding(step: Step): Step {
    match step
    case Fetched(c, _) => Fetched(c, Bytes(1))
    case Decrypt(c, _) => Decrypt(c, true)
    case _ => step
  }

  lemma SucceedingKeepsClean(cfg: Config, s: State, step: Step)
    requires Clean(s) && Enabled(cfg, s, step) && !step.CancelContext?
    ensures Enabled(cfg, s, Succeeding(step)) && Clean(Next(cfg, s, Succeeding(step)))
  {
    hide Sum, Held, MustWait, DownloadBuffer, DecryptBuffer, DownloadBusy, DecryptBusy;
  }

  lemma MeasureIsNatural(cfg: Config, s: State)
    requires Accounted(cfg, s)
    ensures Measure(cfg, s) >= 0
  {
  }

  lemma {:induction false} CleanRunFrom(cfg: Config, s: State) returns (run: seq<Step>, t: State)
    requires Invariant(cfg, s) && Clean(s) && cfg.downloadWorkers > 0 && cfg.decryptWorkers > 0
    ensures Reaches(cfg, s, run, t) && Invariant(cfg, t) && Clean(t) && t.collectorDone && t.queueClosed
    decreases Measure(cfg, s)
  {
    assert !s.canceled;
    hide Clean, Enabled, Next, Succeeding, Measure, Invariant;
    if s.collectorDone && s.queueClosed {
      return [], s;
    }
    var step := NeverStuck(cfg, s);
    SucceedingKeepsClean(cfg, s, step);
    step := Succeeding(step);
    InvariantIsAccounted(cfg, s);
    MeasureIsNatural(cfg, s);
    StepLowersMeasure(cfg, s, step);
    InvariantStep(cfg, s, step);
    var rest;
    rest, t := CleanRunFrom(cfg, Next(cfg, s, step));
    run := [step] + rest;
    assert run[1..] == rest;
  }

  /** For every playlist there is a run in which nothing is canceled, every chunk is decrypted and both sides
      finish. */
  lemma CleanRunExists(cfg: Config) returns (run: seq<Step>, s: State)
    requires cfg.downloadWorkers > 0 && cfg.decryptWorkers > 0
    ensures Reaches(cfg, Start(cfg), run, s) && s.collectorDone && s.queueClosed && !s.canceled
    ensures forall k :: 0 <= k < |s.arrived| ==> s.arrived[k].1.Decrypted?
  {
    StartIsInvariant(cfg);
    run, s := CleanRunFrom(cfg, Start(cfg));
    hide Sum, Reaches;
    forall k | 0 <= k < |s.arrived|
      ensures s.arrived[k].1.Decrypted?
    {
      assert CleanStage(s.stages[s.arrived[k].0]);
    }
  }
}
