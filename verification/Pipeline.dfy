/** The per-lecture download and decrypt pipeline (internal/downloader/pipeline.go and its driver in
    downloader.go) as a transition system over per-chunk stages: two bounded worker pools, three bounded
    channels, a byte budget, a submitter, a collector, and cancellation at any moment. A channel is the set
    of chunks in the stage it stands for, so every order of delivery is covered. The condition variable is
    its guard, evaluated again whenever a step is taken. */
module Pipeline {
  import opened Ordering

  datatype View = First | Second

  datatype Task = Task(chunkID: nat, view: View, url: string)

  datatype Config = Config(tasks: seq<Task>, downloadWorkers: nat, decryptWorkers: nat, budget: nat)

  function DownloadBuffer(c: Config): nat { if 2 * c.downloadWorkers < 1 then 1 else 2 * c.downloadWorkers }

  function DecryptBuffer(c: Config): nat { if 2 * c.decryptWorkers < 1 then 1 else 2 * c.decryptWorkers }

  datatype Download = Bytes(size: nat) | DownloadFailed(canceled: bool)

  datatype Result = Decrypted | Failed(canceled: bool)

  datatype Stage =
    | Unsubmitted
    | Queued                       // in downloadQueue
    | Fetching                     // a download worker is at it
    | Acquiring(size: nat)         // that worker waits for memory
    | Handing(download: Download)  // that worker sends the result on
    | Ready(download: Download)    // in downloadedChunks
    | Decrypting(size: nat)        // a decrypt worker is at it
    | Delivering(result: Result)   // that worker sends the result on
    | Delivered(result: Result)    // in decryptedChunks
    | Collected(result: Result)
    | Dropped                      // abandoned by a worker that saw the cancellation

  datatype State = State(
    stages: seq<Stage>, next: nat, queueClosed: bool, submitFailed: bool, canceled: bool, inFlight: nat,
    downloadExited: nat, decryptExited: nat, collectorDone: bool,
    arrived: seq<(nat, Result)>,   // what Collect has received, in order
    written: set<nat>)             // chunks whose decrypted file has been written

  function Start(c: Config): State {
    State(seq(|c.tasks|, _ => Unsubmitted), 0, false, false, false, 0, 0, 0, false, [], {})
  }

  // ---- Counting chunks by stage ----

  function Sum(stages: seq<Stage>, f: Stage -> nat): nat {
    if stages == [] then 0 else Sum(stages[..|stages| - 1], f) + f(stages[|stages| - 1])
  }

  lemma {:induction false} SumUpdate(stages: seq<Stage>, i: nat, stage: Stage, f: Stage -> nat)
    requires i < |stages|
    ensures Sum(stages[i := stage], f) == Sum(stages, f) - f(stages[i]) + f(stage)
    ensures f(stages[i]) <= Sum(stages, f)
  {
    var last := |stages| - 1;
    var updated := stages[i := stage];
    if i == last {
      assert updated[..last] == stages[..last];
    } else {
      SumUpdate(stages[..last], i, stage, f);
      assert updated[..last] == stages[..last][i := stage];
    }
  }

  lemma {:induction false} SumZero(stages: seq<Stage>, f: Stage -> nat)
    ensures Sum(stages, f) == 0 <==> forall i :: 0 <= i < |stages| ==> f(stages[i]) == 0
  {
    if stages != [] {
      var last := |stages| - 1;
      SumZero(stages[..last], f);
      assert forall i :: 0 <= i < last ==> stages[..last][i] == stages[i];
    }
  }

  function IsQueued(s: Stage): nat { if s.Queued? then 1 else 0 }
  function IsReady(s: Stage): nat { if s.Ready? then 1 else 0 }
  function IsHanding(s: Stage): nat { if s.Handing? then 1 else 0 }
  function IsDelivered(s: Stage): nat { if s.Delivered? then 1 else 0 }
  function IsCollected(s: Stage): nat { if s.Collected? then 1 else 0 }
  function DownloadBusy(s: Stage): nat { if s.Fetching? || s.Acquiring? || s.Handing? then 1 else 0 }
  function DecryptBusy(s: Stage): nat { if s.Decrypting? || s.Delivering? then 1 else 0 }

  /** Bytes acquired for a chunk and not yet released. */
  function Held(s: Stage): nat {
    match s
    case Handing(Bytes(n)) => n
    case Ready(Bytes(n)) => n
    case Decrypting(n) => n
    case _ => 0
  }

  /** How many steps a chunk still has before it. */
  function Remaining(s: Stage): nat {
    match s
    case Unsubmitted => 9
    case Queued => 8
    case Fetching => 7
    case Acquiring(_) => 6
    case Handing(_) => 5
    case Ready(_) => 4
    case Decrypting(_) => 3
    case Delivering(_) => 2
    case Delivered(_) => 1
    case Collected(_) => 0
    case Dropped => 0
  }

  // ---- Steps ----

  datatype Step =
    | CancelContext
    | Submit | SubmitFails | FinishSubmission
    | TakeTask(c: nat) | Fetched(c: nat, download: Download) | Acquire(c: nat)
    | Hand(c: nat) | HandCanceled(c: nat) | DownloadExit
    | TakeReady(c: nat) | Decrypt(c: nat, ok: bool) | Deliver(c: nat) | DeliverCanceled(c: nat) | DecryptExit
    | Receive(c: nat) | CollectorEnds

  function At(s: State, c: nat, stage: Stage): State
    requires c < |s.stages|
  {
    s.(stages := s.stages[c := stage])
  }

  /** The loop condition of acquireMemory: wait while there is something in flight and this would not fit. */
  predicate MustWait(cfg: Config, s: State, size: nat) {
    s.inFlight > 0 && s.inFlight + size > cfg.budget
  }

  predicate Enabled(cfg: Config, s: State, step: Step) {
    match step
    case CancelContext => !s.canceled
    case Submit => s.next < |cfg.tasks| && s.next < |s.stages| && !s.queueClosed
        && Sum(s.stages, IsQueued) < DownloadBuffer(cfg)
    case SubmitFails => s.next < |cfg.tasks| && !s.queueClosed && s.canceled
    case FinishSubmission => s.next == |cfg.tasks| && !s.queueClosed
    case TakeTask(c) => c < |s.stages| && s.stages[c].Queued?
        && s.downloadExited + Sum(s.stages, DownloadBusy) < cfg.downloadWorkers
    case Fetched(c, _) => c < |s.stages| && s.stages[c].Fetching?
    case Acquire(c) => c < |s.stages| && s.stages[c].Acquiring? && (s.canceled || !MustWait(cfg, s, s.stages[c].size))
    case Hand(c) => c < |s.stages| && s.stages[c].Handing? && Sum(s.stages, IsReady) < DownloadBuffer(cfg)
    case HandCanceled(c) => c < |s.stages| && s.stages[c].Handing? && s.canceled
    case DownloadExit =>
      && s.downloadExited + Sum(s.stages, DownloadBusy) < cfg.downloadWorkers
      && (s.canceled || (s.queueClosed && Sum(s.stages, IsQueued) == 0))
    case TakeReady(c) => c < |s.stages| && s.stages[c].Ready?
        && s.decryptExited + Sum(s.stages, DecryptBusy) < cfg.decryptWorkers
    case Decrypt(c, _) => c < |s.stages| && s.stages[c].Decrypting?
    case Deliver(c) => c < |s.stages| && s.stages[c].Delivering? && Sum(s.stages, IsDelivered) < DecryptBuffer(cfg)
    case DeliverCanceled(c) => c < |s.stages| && s.stages[c].Delivering? && s.canceled
    case DecryptExit =>
      && s.decryptExited + Sum(s.stages, DecryptBusy) < cfg.decryptWorkers
      && (s.canceled || (s.downloadExited == cfg.downloadWorkers && Sum(s.stages, IsReady) == 0))
    case Receive(c) => c < |s.stages| && s.stages[c].Delivered? && !s.collectorDone
    case CollectorEnds =>
      && !s.collectorDone && s.downloadExited == cfg.downloadWorkers && s.decryptExited == cfg.decryptWorkers
      && Sum(s.stages, IsDelivered) == 0
  }

  function Next(cfg: Config, s: State, step: Step): State
    requires Enabled(cfg, s, step)
  {
    match step
    case CancelContext => s.(canceled := true)
    case Submit => At(s, s.next, Queued).(next := s.next + 1)
    case SubmitFails => s.(submitFailed := true, queueClosed := true)
    case FinishSubmission => s.(queueClosed := true)
    case TakeTask(c) => At(s, c, Fetching)
    case Fetched(c, download) =>
      At(s, c, if download.Bytes? && download.size > 0 then Acquiring(download.size) else Handing(download))
    case Acquire(c) =>
      if s.canceled then At(s, c, Dropped).(downloadExited := s.downloadExited + 1)
      else At(s, c, Handing(Bytes(s.stages[c].size))).(inFlight := s.inFlight + s.stages[c].size)
    case Hand(c) => At(s, c, Ready(s.stages[c].download))
    case HandCanceled(c) => Release(At(s, c, Dropped).(downloadExited := s.downloadExited + 1), Held(s.stages[c]))
    case DownloadExit => s.(downloadExited := s.downloadExited + 1)
    case TakeReady(c) =>
      (match s.stages[c].download
       case Bytes(n) => At(s, c, Decrypting(n))
       case DownloadFailed(canceled) => At(s, c, Delivering(Failed(canceled))))
    case Decrypt(c, ok) =>
      var written := if ok then s.written + {c} else s.written;
      Release(At(s, c, Delivering(if ok then Decrypted else Failed(false))).(written := written), s.stages[c].size)
    case Deliver(c) => At(s, c, Delivered(s.stages[c].result))
    case DeliverCanceled(c) => At(s, c, Dropped).(decryptExited := s.decryptExited + 1)
    case DecryptExit => s.(decryptExited := s.decryptExited + 1)
    case Receive(c) => At(s, c, Collected(s.stages[c].result)).(arrived := s.arrived + [(c, s.stages[c].result)])
    case CollectorEnds => s.(collectorDone := true)
  }

  function Release(s: State, size: nat): State {
    s.(inFlight := if s.inFlight < size then 0 else s.inFlight - size)
  }

  ghost predicate Reaches(cfg: Config, s: State, run: seq<Step>, t: State)
    decreases |run|
  {
    if run == [] then s == t
    else Enabled(cfg, s, run[0]) && Reaches(cfg, Next(cfg, s, run[0]), run[1..], t)
  }

  // ---- Invariant ----

  /** Nothing is lost or invented: submission goes in order, workers and bytes add up. */
  ghost predicate Accounted(cfg: Config, s: State) {
    && |s.stages| == |cfg.tasks| && s.next <= |cfg.tasks|
    && (forall c :: 0 <= c < |s.stages| ==> (s.stages[c].Unsubmitted? <==> s.next <= c))
    && s.downloadExited + Sum(s.stages, DownloadBusy) <= cfg.downloadWorkers
    && s.decryptExited + Sum(s.stages, DecryptBusy) <= cfg.decryptWorkers
    && s.inFlight == Sum(s.stages, Held)
  }

  /** Within the budget, or all of it owed to one chunk. */
  ghost predicate WithinBudget(cfg: Config, s: State) {
    s.inFlight <= cfg.budget || (exists c :: 0 <= c < |s.stages| && Held(s.stages[c]) == s.inFlight)
  }

  /** What cannot have happened without a cancellation. */
  ghost predicate Orderly(cfg: Config, s: State) {
    && (s.submitFailed ==> s.canceled && s.queueClosed && s.next < |cfg.tasks|)
    && (s.queueClosed && !s.submitFailed ==> s.next == |cfg.tasks|)
    && (!s.canceled ==>
          && (forall c :: 0 <= c < |s.stages| ==> !s.stages[c].Dropped?)
          && (s.downloadExited > 0 ==> s.queueClosed && Sum(s.stages, IsQueued) == 0)
          && (s.decryptExited > 0 ==> s.downloadExited == cfg.downloadWorkers && Sum(s.stages, IsReady) == 0))
    && (s.collectorDone ==>
          s.downloadExited == cfg.downloadWorkers && s.decryptExited == cfg.decryptWorkers
              && Sum(s.stages, IsDelivered) == 0)
  }

  /** The collector has each finished chunk once. */
  ghost predicate Faithful(cfg: Config, s: State) {
    && |s.arrived| == Sum(s.stages, IsCollected)
    && (forall k :: 0 <= k < |s.arrived| ==>
        s.arrived[k].0 < |s.stages| && s.stages[s.arrived[k].0] == Collected(s.arrived[k].1))
    && (forall j, k :: 0 <= j < k < |s.arrived| ==> s.arrived[j].0 != s.arrived[k].0)
  }

  /** A chunk succeeds only after its file was written. */
  ghost predicate Backed(s: State) {
    forall c :: 0 <= c < |s.stages| && Succeeded(s.stages[c]) ==> c in s.written
  }

  predicate Succeeded(s: Stage) {
    (s.Delivering? || s.Delivered? || s.Collected?) && s.result.Decrypted?
  }

  ghost predicate Invariant(cfg: Config, s: State) {
    Accounted(cfg, s) && WithinBudget(cfg, s) && Orderly(cfg, s) && Faithful(cfg, s) && Backed(s)
  }

  lemma {:induction false} AllUnsubmitted(n: nat, f: Stage -> nat)
    requires f(Unsubmitted) == 0
    ensures Sum(seq(n, _ => Unsubmitted), f) == 0
  {
    SumZero(seq(n, _ => Unsubmitted), f);
  }

  lemma StartIsInvariant(cfg: Config)
    ensures Invariant(cfg, Start(cfg))
  {
    AllUnsubmitted(|cfg.tasks|, DownloadBusy);
    AllUnsubmitted(|cfg.tasks|, DecryptBusy);
    AllUnsubmitted(|cfg.tasks|, Held);
    AllUnsubmitted(|cfg.tasks|, IsCollected);
  }

  function Chunk(s: State, step: Step): nat {
    match step
    case Submit => s.next
    case TakeTask(c) => c
    case Fetched(c, _) => c
    case Acquire(c) => c
    case Hand(c) => c
    case HandCanceled(c) => c
    case TakeReady(c) => c
    case Decrypt(c, _) => c
    case Deliver(c) => c
    case DeliverCanceled(c) => c
    case Receive(c) => c
    case _ => |s.stages|
  }

  /** The effect of a step on every count at once. */
  lemma SumNext(cfg: Config, s: State, step: Step, f: Stage -> nat)
    requires Enabled(cfg, s, step)
    ensures var c, t := Chunk(s, step), Next(cfg, s, step);
      && |t.stages| == |s.stages|
      && (forall i :: 0 <= i < |s.stages| && i != c ==> t.stages[i] == s.stages[i])
      && (c < |s.stages| ==>
            && Sum(t.stages, f) == Sum(s.stages, f) - f(s.stages[c]) + f(t.stages[c])
            && f(s.stages[c]) <= Sum(s.stages, f))
      && (c >= |s.stages| ==> t.stages == s.stages)
  {
    var c, t := Chunk(s, step), Next(cfg, s, step);
    if c < |s.stages| {
      SumUpdate(s.stages, c, t.stages[c], f);
      assert t.stages == s.stages[c := t.stages[c]];
    }
  }

  lemma SubmittedStep(cfg: Config, s: State, step: Step)
    requires Accounted(cfg, s) && Enabled(cfg, s, step)
    ensures var t := Next(cfg, s, step);
      && |t.stages| == |cfg.tasks| && t.next <= |cfg.tasks|
      && (forall c :: 0 <= c < |t.stages| ==> (t.stages[c].Unsubmitted? <==> t.next <= c))
  {
    hide Sum, Held, DownloadBusy, DecryptBusy, MustWait, DownloadBuffer, DecryptBuffer;
  }

  lemma WorkersStep(cfg: Config, s: State, step: Step)
    requires Accounted(cfg, s) && Enabled(cfg, s, step)
    ensures var t := Next(cfg, s, step);
      && t.downloadExited + Sum(t.stages, DownloadBusy) <= cfg.downloadWorkers
      && t.decryptExited + Sum(t.stages, DecryptBusy) <= cfg.decryptWorkers
  {
    hide Accounted, Enabled, Next, Sum;
    DownloadersStep(cfg, s, step);
    DecryptersStep(cfg, s, step);
  }

  lemma DownloadersStep(cfg: Config, s: State, step: Step)
    requires Accounted(cfg, s) && Enabled(cfg, s, step)
    ensures var t := Next(cfg, s, step); t.downloadExited + Sum(t.stages, DownloadBusy) <= cfg.downloadWorkers
  {
    hide Sum, Held, MustWait, DownloadBuffer, DecryptBuffer, DecryptBusy;
    SumNext(cfg, s, step, DownloadBusy);
  }

  lemma DecryptersStep(cfg: Config, s: State, step: Step)
    requires Accounted(cfg, s) && Enabled(cfg, s, step)
    ensures var t := Next(cfg, s, step); t.decryptExited + Sum(t.stages, DecryptBusy) <= cfg.decryptWorkers
  {
    hide Sum, Held, MustWait, DownloadBuffer, DecryptBuffer, DownloadBusy;
    SumNext(cfg, s, step, DecryptBusy);
  }

  lemma BytesStep(cfg: Config, s: State, step: Step)
    requires Accounted(cfg, s) && Enabled(cfg, s, step)
    ensures var t := Next(cfg, s, step); t.inFlight == Sum(t.stages, Held)
  {
    hide Sum, DownloadBusy, DecryptBusy, MustWait, DownloadBuffer, DecryptBuffer;
    SumNext(cfg, s, step, Held);
  }

  lemma AccountedStep(cfg: Config, s: State, step: Step)
    requires Accounted(cfg, s) && Enabled(cfg, s, step)
    ensures Accounted(cfg, Next(cfg, s, step))
  {
    hide Sum, Next, Enabled;
    SubmittedStep(cfg, s, step);
    WorkersStep(cfg, s, step);
    BytesStep(cfg, s, step);
  }

  /** In-flight bytes only grow to within the budget, or from nothing. */
  lemma GrowthIsBounded(cfg: Config, s: State, step: Step)
    requires Enabled(cfg, s, step)
    ensures var t := Next(cfg, s, step); t.inFlight > s.inFlight ==> s.inFlight == 0 || t.inFlight <= cfg.budget
  {
    hide Sum, Held, DownloadBuffer, DecryptBuffer;
  }

  lemma BudgetStep(cfg: Config, s: State, step: Step)
    requires Accounted(cfg, s) && WithinBudget(cfg, s) && Enabled(cfg, s, step)
    ensures WithinBudget(cfg, Next(cfg, s, step))
  {
    assert Held(Dropped) == 0;
    hide Sum, Held, Next, Enabled, Chunk;
    SumNext(cfg, s, step, Held);
    AccountedStep(cfg, s, step);
    GrowthIsBounded(cfg, s, step);
    var c, t := Chunk(s, step), Next(cfg, s, step);
    if s.inFlight > cfg.budget {
      var big :| 0 <= big < |s.stages| && Held(s.stages[big]) == s.inFlight;
      if c < |s.stages| && c != big {
        SumUpdate(s.stages, big, Dropped, Held);
        SumUpdate(s.stages[big := Dropped], c, Dropped, Held);
      }
      assert t.inFlight <= cfg.budget || Held(t.stages[big]) == t.inFlight by {
        assert c != big ==> t.stages[big] == s.stages[big];
      }
    } else if t.inFlight > cfg.budget {
      assert Held(t.stages[c]) == t.inFlight;
    }
  }

  lemma OrderlyStep(cfg: Config, s: State, step: Step)
    requires Accounted(cfg, s) && Orderly(cfg, s) && Enabled(cfg, s, step)
    ensures Orderly(cfg, Next(cfg, s, step))
  {
    hide Sum, Held, MustWait, DownloadBuffer, DecryptBuffer;
    SumNext(cfg, s, step, IsQueued);
    SumNext(cfg, s, step, IsReady);
    SumNext(cfg, s, step, IsDelivered);
    SumNext(cfg, s, step, DownloadBusy);
    SumNext(cfg, s, step, DecryptBusy);
  }

  lemma FaithfulStep(cfg: Config, s: State, step: Step)
    requires Accounted(cfg, s) && Faithful(cfg, s) && Enabled(cfg, s, step)
    ensures Faithful(cfg, Next(cfg, s, step))
  {
    hide Sum, Held;
    SumNext(cfg, s, step, IsCollected);
    var c, t := Chunk(s, step), Next(cfg, s, step);
    assert c < |s.stages| ==> !s.stages[c].Collected?;
    assert t.arrived == s.arrived || (c < |s.stages| && t.stages[c].Collected?
        && t.arrived == s.arrived + [(c, t.stages[c].result)]);
    assert t.arrived == s.arrived ==> (c < |s.stages| ==> !t.stages[c].Collected?);
    ArrivedGrows(s, t, c);
  }

  lemma ArrivedGrows(s: State, t: State, c: nat)
    requires |t.stages| == |s.stages| && forall i :: 0 <= i < |s.stages| && i != c ==> t.stages[i] == s.stages[i]
    requires c < |s.stages| ==> !s.stages[c].Collected?
    requires forall k :: 0 <= k < |s.arrived| ==>
        s.arrived[k].0 < |s.stages| && s.stages[s.arrived[k].0] == Collected(s.arrived[k].1)
    requires forall j, k :: 0 <= j < k < |s.arrived| ==> s.arrived[j].0 != s.arrived[k].0
    requires t.arrived == s.arrived || (c < |s.stages| && t.stages[c].Collected?
        && t.arrived == s.arrived + [(c, t.stages[c].result)])
    ensures forall k :: 0 <= k < |t.arrived| ==>
        t.arrived[k].0 < |t.stages| && t.stages[t.arrived[k].0] == Collected(t.arrived[k].1)
    ensures forall j, k :: 0 <= j < k < |t.arrived| ==> t.arrived[j].0 != t.arrived[k].0
  {
  }

  lemma BackedStep(cfg: Config, s: State, step: Step)
    requires Accounted(cfg, s) && Backed(s) && Enabled(cfg, s, step)
    ensures Backed(Next(cfg, s, step))
  {
    hide Sum, Held, MustWait, DownloadBuffer, DecryptBuffer;
  }

  lemma InvariantStep(cfg: Config, s: State, step: Step)
    requires Invariant(cfg, s) && Enabled(cfg, s, step)
    ensures Invariant(cfg, Next(cfg, s, step))
  {
    AccountedStep(cfg, s, step);
    BudgetStep(cfg, s, step);
    OrderlyStep(cfg, s, step);
    FaithfulStep(cfg, s, step);
    BackedStep(cfg, s, step);
  }

  lemma {:induction false} InvariantHolds(cfg: Config, s: State, run: seq<Step>, t: State)
    requires Invariant(cfg, s) && Reaches(cfg, s, run, t)
    ensures Invariant(cfg, t)
    decreases |run|
  {
    hide Invariant, Enabled, Next;
    if run != [] {
      InvariantStep(cfg, s, run[0]);
      InvariantHolds(cfg, Next(cfg, s, run[0]), run[1..], t);
    }
  }

  // ---- Memory ----

  ghost predicate HoldsAll(s: State, c: nat)
    requires c < |s.stages|
  {
    Held(s.stages[c]) == s.inFlight && forall d :: 0 <= d < |s.stages| && d != c ==> Held(s.stages[d]) == 0
  }

  /** In-flight bytes are exactly those acquired and not released; above the budget they all belong to one
      chunk that is larger than the budget on its own. */
  lemma BytesInFlight(cfg: Config, run: seq<Step>, s: State)
    requires Reaches(cfg, Start(cfg), run, s)
    ensures s.inFlight == Sum(s.stages, Held)
    ensures s.inFlight > cfg.budget ==> exists c :: 0 <= c < |s.stages| && HoldsAll(s, c)
  {
    hide Sum, Next, Enabled, Reaches;
    StartIsInvariant(cfg);
    InvariantHolds(cfg, Start(cfg), run, s);
    if s.inFlight > cfg.budget {
      var c :| 0 <= c < |s.stages| && Held(s.stages[c]) == s.inFlight;
      forall d | 0 <= d < |s.stages| && d != c ensures Held(s.stages[d]) == 0 {
        SumUpdate(s.stages, c, Unsubmitted, Held);
        SumUpdate(s.stages[c := Unsubmitted], d, Unsubmitted, Held);
      }
      assert HoldsAll(s, c);
    }
  }

  // ---- Progress ----

  function One(b: bool): nat { if b then 1 else 0 }

  /** Bounds the number of steps left. */
  function Measure(cfg: Config, s: State): int {
    Sum(s.stages, Remaining) + (cfg.downloadWorkers - s.downloadExited) + (cfg.decryptWorkers - s.decryptExited)
    + One(!s.queueClosed) + One(!s.canceled) + One(!s.collectorDone)
  }

  lemma StepLowersMeasure(cfg: Config, s: State, step: Step)
    requires Accounted(cfg, s) && Enabled(cfg, s, step)
    ensures Measure(cfg, Next(cfg, s, step)) < Measure(cfg, s)
  {
    hide Accounted, Sum, Next, Remaining;
    SumNext(cfg, s, step, Remaining);
    ChunksAdvance(cfg, s, step);
    WorkersLeave(cfg, s, step);
  }

  /** A step takes its chunk, if it has one, to a stage with fewer steps before it. */
  lemma ChunksAdvance(cfg: Config, s: State, step: Step)
    requires Accounted(cfg, s) && Enabled(cfg, s, step)
    ensures var c, t := Chunk(s, step), Next(cfg, s, step);
      c < |s.stages| && c < |t.stages| ==> Remaining(t.stages[c]) < Remaining(s.stages[c])
  {
    hide Sum, Held, MustWait, DownloadBuffer, DecryptBuffer;
  }

  /** Without a chunk a step moves a worker, the queue, the context or the collector on, and never back. */
  lemma WorkersLeave(cfg: Config, s: State, step: Step)
    requires Accounted(cfg, s) && Enabled(cfg, s, step)
    ensures var t := Next(cfg, s, step);
      && s.downloadExited <= t.downloadExited && s.decryptExited <= t.decryptExited
      && (s.queueClosed ==> t.queueClosed) && (s.canceled ==> t.canceled) && (s.collectorDone ==> t.collectorDone)
      && (Chunk(s, step) >= |s.stages| ==>
            || s.downloadExited < t.downloadExited || s.decryptExited < t.decryptExited
            || s.queueClosed != t.queueClosed || s.canceled != t.canceled || s.collectorDone != t.collectorDone)
  {
    hide Sum, Held, MustWait, DownloadBuffer, DecryptBuffer;
  }

  lemma InvariantIsAccounted(cfg: Config, s: State)
    requires Invariant(cfg, s)
    ensures Accounted(cfg, s)
  {
  }

  lemma {:induction false} AllRemaining(n: nat)
    ensures Sum(seq(n, _ => Unsubmitted), Remaining) == 9 * n
  {
    var all := seq(n, _ => Unsubmitted);
    if n > 0 {
      AllRemaining(n - 1);
      assert all[..n - 1] == seq(n - 1, _ => Unsubmitted);
    }
  }

  /** No schedule is longer than nine steps a chunk, one a worker, and three. */
  lemma {:induction false} RunsAreBounded(cfg: Config, s: State, run: seq<Step>, t: State)
    requires Invariant(cfg, s) && Reaches(cfg, s, run, t)
    ensures |run| + Measure(cfg, t) <= Measure(cfg, s)
    decreases |run|
  {
    hide Invariant, Enabled, Next, Measure;
    if run != [] {
      InvariantIsAccounted(cfg, s);
      StepLowersMeasure(cfg, s, run[0]);
      InvariantStep(cfg, s, run[0]);
      RunsAreBounded(cfg, Next(cfg, s, run[0]), run[1..], t);
    }
  }

  lemma BoundOfAnyRun(cfg: Config, run: seq<Step>, t: State)
    requires Reaches(cfg, Start(cfg), run, t)
    ensures |run| <= 9 * |cfg.tasks| + cfg.downloadWorkers + cfg.decryptWorkers + 3
  {
    StartIsInvariant(cfg);
    RunsAreBounded(cfg, Start(cfg), run, t);
    InvariantHolds(cfg, Start(cfg), run, t);
    AllRemaining(|cfg.tasks|);
    hide Sum;
    assert Measure(cfg, t) >= 0;
  }

  /** A chunk that a count says is there, or none at all. */
  lemma Find(s: State, f: Stage -> nat) returns (c: nat)
    ensures c < |s.stages| ==> f(s.stages[c]) > 0 && Sum(s.stages, f) > 0
    ensures c >= |s.stages| ==> Sum(s.stages, f) == 0 && forall i :: 0 <= i < |s.stages| ==> f(s.stages[i]) == 0
  {
    SumZero(s.stages, f);
    if i :| 0 <= i < |s.stages| && f(s.stages[i]) > 0 {
      c := i;
    } else {
      c := |s.stages|;
    }
  }

  /** Until the collector and the submitter are done, some step other than cancelling is enabled, provided
      there is a worker of each kind or the context has been canceled. With BoundOfAnyRun: every maximal
      run ends with both done. */
  lemma NeverStuck(cfg: Config, s: State) returns (step: Step)
    requires Invariant(cfg, s) && !(s.collectorDone && s.queueClosed)
    requires s.canceled || (cfg.downloadWorkers > 0 && cfg.decryptWorkers > 0)
    ensures Enabled(cfg, s, step) && !step.CancelContext?
  {
    hide Sum, Faithful, Backed;
    if !s.queueClosed && s.next == |cfg.tasks| {
      return FinishSubmission;
    }
    if !s.queueClosed && s.canceled {
      return SubmitFails;
    }
    if s.canceled {
      step := NextWhenCanceled(cfg, s);
    } else {
      step := NextInOrder(cfg, s);
    }
  }

  lemma NextWhenCanceled(cfg: Config, s: State) returns (step: Step)
    requires Invariant(cfg, s) && s.queueClosed && !s.collectorDone && s.canceled
    ensures Enabled(cfg, s, step) && !step.CancelContext?
  {
    hide Sum, Faithful, Backed, WithinBudget, Orderly;
    var c := Find(s, DownloadBusy);
    if c < |s.stages| {
      return
        if s.stages[c].Fetching? then Fetched(c, DownloadFailed(true))
        else if s.stages[c].Acquiring? then Acquire(c)
        else HandCanceled(c);
    }
    if s.downloadExited < cfg.downloadWorkers {
      return DownloadExit;
    }
    c := Find(s, DecryptBusy);
    if c < |s.stages| {
      return if s.stages[c].Decrypting? then Decrypt(c, false) else DeliverCanceled(c);
    }
    if s.decryptExited < cfg.decryptWorkers {
      return DecryptExit;
    }
    c := Find(s, IsDelivered);
    return if c < |s.stages| then Receive(c) else CollectorEnds;
  }

  /** Without a cancellation the chunk that is furthest along can move. */
  lemma NextInOrder(cfg: Config, s: State) returns (step: Step)
    requires Invariant(cfg, s) && !(s.collectorDone && s.queueClosed) && !s.canceled
    requires s.queueClosed || s.next < |cfg.tasks|
    requires cfg.downloadWorkers > 0 && cfg.decryptWorkers > 0
    ensures Enabled(cfg, s, step) && !step.CancelContext?
  {
    hide Sum, Faithful, Backed, WithinBudget;
    var c := Find(s, IsDelivered);
    if c < |s.stages| {
      return Receive(c);
    }
    c := Find(s, DecryptBusy);
    if c < |s.stages| {
      return if s.stages[c].Decrypting? then Decrypt(c, false) else Deliver(c);
    }
    c := Find(s, IsReady);
    if c < |s.stages| {
      return TakeReady(c);
    }
    c := Find(s, IsHanding);
    if c < |s.stages| {
      return Hand(c);
    }
    c := Find(s, DownloadBusy);
    if c < |s.stages| {
      SumZero(s.stages, Held);
      return if s.stages[c].Fetching? then Fetched(c, DownloadFailed(false)) else Acquire(c);
    }
    c := Find(s, IsQueued);
    if c < |s.stages| {
      return TakeTask(c);
    }
    if !s.queueClosed {
      return Submit;
    }
    return if s.downloadExited < cfg.downloadWorkers then DownloadExit
           else if s.decryptExited < cfg.decryptWorkers then DecryptExit else CollectorEnds;
  }
}
