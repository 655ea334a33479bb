/** What the collector makes of the results that arrive in any order, and what the driver returns
    (internal/downloader/pipeline.go, downloader.go): per-view maps, ordered lists, failures, and the
    decision whether the download is complete. */
module Collector {
  import opened Ordering
  import opened Decimal
  import opened Pipeline

  // ---- Tasks and paths ----

  function ViewTasks(urls: seq<string>, view: View, enabled: bool): seq<Task> {
    if enabled then seq(|urls|, i requires 0 <= i < |urls| => Task(i, view, urls[i])) else []
  }

  /** submitPipelineTasks: the selected views one after the other, chunk IDs restarting at zero. */
  function Tasks(first: seq<string>, second: seq<string>, left: bool, right: bool): seq<Task> {
    ViewTasks(first, First, left) + ViewTasks(second, Second, right)
  }

  function ViewName(v: View): string { if v == First then "first" else "second" }

  /** The decrypted file of a chunk; `base` is the directory and lecture ID. */
  function PathOf(base: string, task: Task): string {
    base + "_" + ViewName(task.view) + "_" + Pad(Digits(task.chunkID), 4) + ".ts"
  }

  /** The names of the two views' files. */
  lemma PathsByView(base: string, id: nat, url: string)
    ensures PathOf(base, Task(id, First, url)) == base + "_first_" + Pad(Digits(id), 4) + ".ts"
    ensures PathOf(base, Task(id, Second, url)) == base + "_second_" + Pad(Digits(id), 4) + ".ts"
  {
  }

  lemma SamePathSameChunk(base: string, a: Task, b: Task)
    requires PathOf(base, a) == PathOf(base, b)
    ensures a.view == b.view && a.chunkID == b.chunkID
  {
    var p := PathOf(base, a);
    assert p[|base| + 1] == ViewName(a.view)[0] == ViewName(b.view)[0];
    assert a.view == b.view;
    var prefix := base + "_" + ViewName(a.view) + "_";
    var x, y := Pad(Digits(a.chunkID), 4), Pad(Digits(b.chunkID), 4);
    assert p == prefix + x + ".ts" == prefix + y + ".ts";
    assert x == p[|prefix|..|p| - 3] == y;
    PadIsInjective(a.chunkID, b.chunkID, 4);
  }

  /** No two tasks of one playlist share view and chunk ID. */
  lemma TasksAreDistinct(first: seq<string>, second: seq<string>, left: bool, right: bool, i: nat, j: nat)
    requires var t := Tasks(first, second, left, right);
      i < |t| && j < |t| && t[i].view == t[j].view && t[i].chunkID == t[j].chunkID
    ensures i == j
  {
  }

  // ---- Collect ----

  datatype Failure = Failure(chunkID: nat, view: View, canceled: bool)

  datatype PipelineResult = PipelineResult(first: seq<string>, second: seq<string>, failures: seq<Failure>)

  type Arrived = seq<(nat, Result)>

  ghost predicate Refers(tasks: seq<Task>, arrived: Arrived) {
    forall k :: 0 <= k < |arrived| ==> arrived[k].0 < |tasks|
  }

  function ViewMap(base: string, tasks: seq<Task>, arrived: Arrived, view: View): map<nat, string>
    requires Refers(tasks, arrived)
  {
    if arrived == [] then map[]
    else
      var rest := ViewMap(base, tasks, arrived[..|arrived| - 1], view);
      var (c, result) := arrived[|arrived| - 1];
      if result.Decrypted? && tasks[c].view == view then rest[tasks[c].chunkID := PathOf(base, tasks[c])] else rest
  }

  function Failures(tasks: seq<Task>, arrived: Arrived): seq<Failure>
    requires Refers(tasks, arrived)
  {
    if arrived == [] then []
    else
      var rest := Failures(tasks, arrived[..|arrived| - 1]);
      var (c, result) := arrived[|arrived| - 1];
      if result.Failed? then rest + [Failure(tasks[c].chunkID, tasks[c].view, result.canceled)] else rest
  }

  /** The order in which failures are reported: by view, then by chunk. */
  predicate FailureLess(a: Failure, b: Failure) {
    if a.view != b.view then a.view == First
    else if a.chunkID != b.chunkID then a.chunkID < b.chunkID
    else !a.canceled && b.canceled
  }

  function SortedFailures(tasks: seq<Task>, arrived: Arrived): seq<Failure>
    requires Refers(tasks, arrived)
  {
    Sort(Failures(tasks, arrived), FailureLess)
  }

  /** The entries with IDs below a bound, by ascending ID. */
  function InOrder(m: map<nat, string>, below: nat): seq<string> {
    if below == 0 then []
    else if below - 1 in m then InOrder(m, below - 1) + [m[below - 1]]
    else InOrder(m, below - 1)
  }

  ghost predicate Bounds(m: map<nat, string>, bound: nat) {
    forall id :: id in m ==> id < bound
  }

  lemma {:induction false} InOrderPastTheEnd(m: map<nat, string>, bound: nat, larger: nat)
    requires Bounds(m, bound) && bound <= larger
    ensures InOrder(m, larger) == InOrder(m, bound)
    decreases larger
  {
    if bound < larger {
      InOrderPastTheEnd(m, bound, larger - 1);
    }
  }

  function IdsBelow(m: map<nat, string>, below: nat): set<nat> {
    set id | id in m && id < below
  }

  lemma {:induction false} InOrderLength(m: map<nat, string>, below: nat)
    ensures |InOrder(m, below)| == |IdsBelow(m, below)|
  {
    if below == 0 {
      assert IdsBelow(m, below) == {};
    } else {
      InOrderLength(m, below - 1);
      assert IdsBelow(m, below) == IdsBelow(m, below - 1) + (if below - 1 in m then {below - 1} else {});
    }
  }

  lemma {:induction false} InOrderOfAll(m: map<nat, string>, n: nat)
    requires forall i :: 0 <= i < n ==> i in m
    ensures |InOrder(m, n)| == n && forall i :: 0 <= i < n ==> InOrder(m, n)[i] == m[i]
  {
    if n > 0 {
      InOrderOfAll(m, n - 1);
    }
  }

  /** buildOrderedList: find the largest ID, then append what is there from zero up to it. */
  method BuildOrderedList(m: map<nat, string>) returns (list: seq<string>)
    ensures |list| == |m|
    ensures forall bound: nat :: Bounds(m, bound) ==> list == InOrder(m, bound)
  {
    if |m| == 0 {
      assert m.Keys == {};
      forall bound: nat | Bounds(m, bound) ensures [] == InOrder(m, bound) {
        InOrderPastTheEnd(m, 0, bound);
      }
      return [];
    }
    var maxID, rest := 0, m.Keys;
    while rest != {}
      invariant rest <= m.Keys
      invariant forall id :: id in m && id !in rest ==> id <= maxID
    {
      var id :| id in rest;
      if id > maxID {
        maxID := id;
      }
      rest := rest - {id};
    }
    list := [];
    for i := 0 to maxID + 1
      invariant list == InOrder(m, i)
    {
      if i in m {
        list := list + [m[i]];
      }
    }
    assert |list| == |m| by {
      InOrderLength(m, maxID + 1);
      assert IdsBelow(m, maxID + 1) == m.Keys && |m.Keys| == |m|;
    }
    forall bound: nat | Bounds(m, bound) ensures list == InOrder(m, bound) {
      if bound <= maxID {
        InOrderPastTheEnd(m, bound, maxID + 1);
      } else {
        InOrderPastTheEnd(m, maxID + 1, bound);
      }
    }
  }

  /** Collect: sort each result into its view's map or the failures, then order the maps. */
  method Collect(base: string, tasks: seq<Task>, arrived: Arrived) returns (result: PipelineResult)
    requires Refers(tasks, arrived)
    ensures result.failures == SortedFailures(tasks, arrived)
    ensures |result.first| == |ViewMap(base, tasks, arrived, First)|
        && |result.second| == |ViewMap(base, tasks, arrived, Second)|
    ensures forall bound: nat :: Bounds(ViewMap(base, tasks, arrived, First), bound) ==>
        result.first == InOrder(ViewMap(base, tasks, arrived, First), bound)
    ensures forall bound: nat :: Bounds(ViewMap(base, tasks, arrived, Second), bound) ==>
        result.second == InOrder(ViewMap(base, tasks, arrived, Second), bound)
  {
    var first: map<nat, string>, second: map<nat, string>, failures: seq<Failure> := map[], map[], [];
    for k := 0 to |arrived|
      invariant Refers(tasks, arrived[..k])
      invariant first == ViewMap(base, tasks, arrived[..k], First)
      invariant second == ViewMap(base, tasks, arrived[..k], Second)
      invariant failures == Failures(tasks, arrived[..k])
    {
      assert arrived[..k + 1][..k] == arrived[..k];
      var (c, r) := arrived[k];
      if r.Failed? {
        failures := failures + [Failure(tasks[c].chunkID, tasks[c].view, r.canceled)];
      } else if tasks[c].view == First {
        first := first[tasks[c].chunkID := PathOf(base, tasks[c])];
      } else {
        second := second[tasks[c].chunkID := PathOf(base, tasks[c])];
      }
    }
    assert arrived[..|arrived|] == arrived;
    var firstList := BuildOrderedList(first);
    var secondList := BuildOrderedList(second);
    result := PipelineResult(firstList, secondList, Sort(failures, FailureLess));
  }

  // ---- The driver ----

  datatype Outcome =
    | Downloaded(first: seq<string>, second: seq<string>)
    | ContextError                 // canceled, and some chunk failed because of it
    | Incomplete(canceled: bool)
    | SubmitError
    | ChunkFailures

  /** The tail of downloadPlaylistPipelined, with pipelineCancellationError and pipelineFailureError. */
  function Conclude(total: nat, result: PipelineResult, canceled: bool, submitFailed: bool): Outcome {
    if total == 0 then Downloaded([], [])
    else if |result.first| + |result.second| + |result.failures| != total then Incomplete(canceled)
    else if canceled && exists k :: 0 <= k < |result.failures| && result.failures[k].canceled then ContextError
    else if submitFailed then SubmitError
    else if result.failures != [] then ChunkFailures
    else Downloaded(result.first, result.second)
  }

  // ---- Every result is counted once ----

  /** Results of different chunks of one playlist. */
  ghost predicate OncePerChunk(tasks: seq<Task>, arrived: Arrived) {
    && Refers(tasks, arrived)
    && (forall j, k :: 0 <= j < k < |arrived| ==>
          || tasks[arrived[j].0].view != tasks[arrived[k].0].view
          || tasks[arrived[j].0].chunkID != tasks[arrived[k].0].chunkID)
  }

  predicate Gives(tasks: seq<Task>, entry: (nat, Result), view: View, id: nat) {
    entry.0 < |tasks| && entry.1.Decrypted? && tasks[entry.0].view == view && tasks[entry.0].chunkID == id
  }

  lemma {:induction false} ViewMapContents(base: string, tasks: seq<Task>, arrived: Arrived, view: View, id: nat)
    requires Refers(tasks, arrived)
    ensures id in ViewMap(base, tasks, arrived, view) <==>
      exists k :: 0 <= k < |arrived| && Gives(tasks, arrived[k], view, id)
    ensures id in ViewMap(base, tasks, arrived, view) ==>
      ViewMap(base, tasks, arrived, view)[id] == PathOf(base, Task(id, view, ""))
  {
    if arrived != [] {
      var init := arrived[..|arrived| - 1];
      ViewMapContents(base, tasks, init, view, id);
      forall k | 0 <= k < |init| ensures init[k] == arrived[k] {
      }
      if id in ViewMap(base, tasks, init, view) {
        var k :| 0 <= k < |init| && Gives(tasks, init[k], view, id);
        assert Gives(tasks, arrived[k], view, id);
      }
      if k :| 0 <= k < |arrived| && Gives(tasks, arrived[k], view, id) {
        assert k < |init| ==> Gives(tasks, init[k], view, id);
      }
    }
  }

  /** First-view, second-view and failed results partition what has arrived. */
  lemma {:induction false} ResultsPartition(base: string, tasks: seq<Task>, arrived: Arrived)
    requires OncePerChunk(tasks, arrived)
    ensures var first, second := ViewMap(base, tasks, arrived, First), ViewMap(base, tasks, arrived, Second);
      |first| + |second| + |Failures(tasks, arrived)| == |arrived|
  {
    if arrived != [] {
      var last := |arrived| - 1;
      var init := arrived[..last];
      assert OncePerChunk(tasks, init);
      ResultsPartition(base, tasks, init);
      var (c, r) := arrived[last];
      if r.Decrypted? {
        var m := ViewMap(base, tasks, init, tasks[c].view);
        ViewMapContents(base, tasks, init, tasks[c].view, tasks[c].chunkID);
        assert tasks[c].chunkID !in m;
      }
    }
  }

  predicate Reports(tasks: seq<Task>, entry: (nat, Result), f: Failure) {
    entry.0 < |tasks| && entry.1.Failed? && f == Failure(tasks[entry.0].chunkID, tasks[entry.0].view, entry.1.canceled)
  }

  lemma {:induction false} FailureIsAResult(tasks: seq<Task>, arrived: Arrived, f: Failure)
    requires Refers(tasks, arrived) && f in Failures(tasks, arrived)
    ensures exists k :: 0 <= k < |arrived| && Reports(tasks, arrived[k], f)
  {
    var last := |arrived| - 1;
    var init := arrived[..last];
    if f in Failures(tasks, init) {
      FailureIsAResult(tasks, init, f);
      var k :| 0 <= k < last && Reports(tasks, init[k], f);
      assert arrived[k] == init[k];
    } else {
      assert Reports(tasks, arrived[last], f);
    }
  }

  /** No two of them are of one chunk. */
  ghost predicate AllDiffer(fs: seq<Failure>) {
    forall i, j :: 0 <= i < j < |fs| ==> fs[i].view != fs[j].view || fs[i].chunkID != fs[j].chunkID
  }

  lemma {:induction false} FailuresDiffer(tasks: seq<Task>, arrived: Arrived)
    requires OncePerChunk(tasks, arrived)
    ensures AllDiffer(Failures(tasks, arrived))
  {
    if arrived != [] {
      var last := |arrived| - 1;
      var init := arrived[..last];
      assert OncePerChunk(tasks, init);
      FailuresDiffer(tasks, init);
      forall f | f in Failures(tasks, init)
        ensures f.view != tasks[arrived[last].0].view || f.chunkID != tasks[arrived[last].0].chunkID
      {
        FailureIsAResult(tasks, init, f);
        var k :| 0 <= k < last && Reports(tasks, init[k], f);
        assert arrived[k] == init[k];
      }
    }
  }

  /** The failures reported are those that arrived, each once, in strictly ascending order of view and
      chunk, so the report does not depend on the order of arrival. */
  lemma FailuresAreSorted(tasks: seq<Task>, arrived: Arrived)
    requires OncePerChunk(tasks, arrived)
    ensures var fs := SortedFailures(tasks, arrived);
      && multiset(fs) == multiset(Failures(tasks, arrived))
      && (forall i, j :: 0 <= i < j < |fs| ==>
            if fs[i].view == fs[j].view then fs[i].chunkID < fs[j].chunkID
            else fs[i].view == First && fs[j].view == Second)
  {
    var fs, unsorted := SortedFailures(tasks, arrived), Failures(tasks, arrived);
    SortSorts(unsorted, FailureLess);
    FailuresDiffer(tasks, arrived);
    forall i, j | 0 <= i < j < |fs|
      ensures fs[i].view != fs[j].view || fs[i].chunkID != fs[j].chunkID
    {
      SameElementsDiffer(unsorted, fs, i, j);
    }
  }

  /** A rearrangement of failures of different chunks is again one. */
  lemma SameElementsDiffer(a: seq<Failure>, b: seq<Failure>, i: nat, j: nat)
    requires multiset(a) == multiset(b) && i < j < |b| && AllDiffer(a)
    ensures b[i].view != b[j].view || b[i].chunkID != b[j].chunkID
  {
    assert b[i] in multiset(a) && b[j] in multiset(a);
    var x, y :| 0 <= x < |a| && 0 <= y < |a| && a[x] == b[i] && a[y] == b[j];
    if x == y {
      forall z | 0 <= z < |a| && z != x ensures a[z] != a[x] {
        assert if z < x then a[z].view != a[x].view || a[z].chunkID != a[x].chunkID
               else a[x].view != a[z].view || a[x].chunkID != a[z].chunkID;
      }
      OnceInOnce(a, x);
      TwiceInTwice(b, i, j);
    }
  }

  lemma OnceInOnce(a: seq<Failure>, x: nat)
    requires x < |a| && forall y :: 0 <= y < |a| && y != x ==> a[y] != a[x]
    ensures multiset(a)[a[x]] == 1
  {
    assert a == a[..x] + [a[x]] + a[x + 1..];
    assert a[x] !in a[..x] && a[x] !in a[x + 1..];
  }

  lemma TwiceInTwice(b: seq<Failure>, i: nat, j: nat)
    requires i < j < |b| && b[i] == b[j]
    ensures multiset(b)[b[i]] >= 2
  {
    assert b == b[..j] + [b[j]] + b[j + 1..];
    assert b[i] in b[..j];
  }

  lemma {:induction false} NoFailuresMeansAllDecrypted(tasks: seq<Task>, arrived: Arrived)
    requires Refers(tasks, arrived) && Failures(tasks, arrived) == []
    ensures forall k :: 0 <= k < |arrived| ==> arrived[k].1.Decrypted?
  {
    if arrived != [] {
      NoFailuresMeansAllDecrypted(tasks, arrived[..|arrived| - 1]);
      forall k | 0 <= k < |arrived| ensures arrived[k].1.Decrypted? {
        assert k < |arrived| - 1 ==> arrived[k] == arrived[..|arrived| - 1][k];
      }
    }
  }

  // ---- The whole download ----

  datatype Playlist = Playlist(first: seq<string>, second: seq<string>, left: bool, right: bool)

  function TasksOf(p: Playlist): seq<Task> { Tasks(p.first, p.second, p.left, p.right) }

  /** The files of a download by path: the URL whose chunk, decrypted, a file holds, or None for a file
      of which nothing is known. */
  type Files = map<string, Option<string>>

  /** A decrypt worker writes its chunk's file, whatever was there; when it fails, any part may be left. */
  function WriteFile(base: string, tasks: seq<Task>, files: Files, step: Step): Files {
    if step.Decrypt? && step.c < |tasks| then
      files[PathOf(base, tasks[step.c]) := if step.ok then Some(tasks[step.c].url) else None]
    else
      files
  }

  function FilesAfter(base: string, tasks: seq<Task>, files: Files, run: seq<Step>): Files
    decreases |run|
  {
    if run == [] then files
    else FilesAfter(base, tasks, WriteFile(base, tasks, files, run[0]), run[1..])
  }

  /** A run of the pipeline on a playlist, both sides finished. */
  ghost predicate Finished(p: Playlist, cfg: Config, run: seq<Step>, s: State) {
    cfg.tasks == TasksOf(p) && Reaches(cfg, Start(cfg), run, s) && s.collectorDone && s.queueClosed
  }

  ghost predicate IsResult(base: string, tasks: seq<Task>, arrived: Arrived, r: PipelineResult)
    requires Refers(tasks, arrived)
  {
    && r.failures == SortedFailures(tasks, arrived)
    && |r.first| == |ViewMap(base, tasks, arrived, First)| && |r.second| == |ViewMap(base, tasks, arrived, Second)|
    && (forall bound: nat :: Bounds(ViewMap(base, tasks, arrived, First), bound) ==>
        r.first == InOrder(ViewMap(base, tasks, arrived, First), bound))
    && (forall bound: nat :: Bounds(ViewMap(base, tasks, arrived, Second), bound) ==>
        r.second == InOrder(ViewMap(base, tasks, arrived, Second), bound))
  }

  lemma ArrivedOncePerChunk(p: Playlist, cfg: Config, s: State)
    requires Invariant(cfg, s) && cfg.tasks == TasksOf(p)
    ensures OncePerChunk(cfg.tasks, s.arrived)
  {
    hide Sum;
    forall j, k | 0 <= j < k < |s.arrived|
      ensures
        || cfg.tasks[s.arrived[j].0].view != cfg.tasks[s.arrived[k].0].view
        || cfg.tasks[s.arrived[j].0].chunkID != cfg.tasks[s.arrived[k].0].chunkID
    {
      var a, b := s.arrived[j].0, s.arrived[k].0;
      if cfg.tasks[a].view == cfg.tasks[b].view && cfg.tasks[a].chunkID == cfg.tasks[b].chunkID {
        TasksAreDistinct(p.first, p.second, p.left, p.right, a, b);
      }
    }
  }

  /** As many results as chunks means a result for every chunk. */
  lemma FullCount(cfg: Config, s: State, c: nat)
    requires Invariant(cfg, s) && |s.arrived| == |cfg.tasks| && c < |cfg.tasks|
    ensures exists k :: 0 <= k < |s.arrived| && s.arrived[k].0 == c
  {
    PigeonHole(s.arrived, |cfg.tasks|, c);
  }

  lemma {:induction false} PigeonHole(arrived: Arrived, n: nat, c: nat)
    requires |arrived| == n && c < n
    requires forall k :: 0 <= k < |arrived| ==> arrived[k].0 < n
    requires forall j, k :: 0 <= j < k < |arrived| ==> arrived[j].0 != arrived[k].0
    ensures exists k :: 0 <= k < |arrived| && arrived[k].0 == c
  {
    var seen := ChunksOf(arrived, n);
    ChunksDiffer(arrived, n);
    assert seen <= Range(n);
    if c !in seen {
      assert seen <= Range(n) - {c};
      SetSize(seen, Range(n) - {c});
    }
  }

  /** The chunks of the first n results. */
  ghost function ChunksOf(arrived: Arrived, n: nat): set<nat>
    requires n <= |arrived|
  {
    set k | 0 <= k < n :: arrived[k].0
  }

  lemma {:induction false} ChunksDiffer(arrived: Arrived, n: nat)
    requires n <= |arrived|
    requires forall j, k :: 0 <= j < k < |arrived| ==> arrived[j].0 != arrived[k].0
    ensures |ChunksOf(arrived, n)| == n
  {
    if n > 0 {
      ChunksDiffer(arrived, n - 1);
      assert ChunksOf(arrived, n) == ChunksOf(arrived, n - 1) + {arrived[n - 1].0};
    }
  }

  ghost function Range(n: nat): (r: set<nat>)
    ensures |r| == n && forall x: nat :: x in r <==> x < n
  {
    if n == 0 then {} else Range(n - 1) + {n - 1}
  }

  lemma {:induction false} SetSize(a: set<nat>, b: set<nat>)
    requires a <= b
    ensures |a| <= |b|
  {
    if a != {} {
      var x :| x in a;
      SetSize(a - {x}, b - {x});
    }
  }

  /** If no error is returned, each selected view's list has one path per URL in URL order, and at the end
      of the run the file at each path holds the decryption of that URL's chunk, whatever the interleaving
      was and whatever files were there before. */
  lemma DownloadIsComplete(base: string, p: Playlist, cfg: Config, run: seq<Step>, s: State, r: PipelineResult,
          canceled: bool, view: View, before: Files)
    requires Finished(p, cfg, run, s) && Refers(cfg.tasks, s.arrived) && IsResult(base, cfg.tasks, s.arrived, r)
    requires cfg.tasks != [] && Conclude(|cfg.tasks|, r, canceled, s.submitFailed).Downloaded?
    ensures var list, urls := if view == First then r.first else r.second, UrlsOf(p, view);
      var files := FilesAfter(base, cfg.tasks, before, run);
      && |list| == |urls|
      && (forall i :: 0 <= i < |urls| ==> list[i] == PathOf(base, Task(i, view, urls[i])))
      && (forall i :: 0 <= i < |urls| ==> list[i] in files && files[list[i]] == Some(urls[i]))
  {
    hide Reaches, Sum, PathOf, FilesAfter;
    StartIsInvariant(cfg);
    InvariantHolds(cfg, Start(cfg), run, s);
    ArrivedOncePerChunk(p, cfg, s);
    ResultsPartition(base, cfg.tasks, s.arrived);
    var list := if view == First then r.first else r.second;
    ListIsExpected(base, p, cfg, s, view, list);
    FilesHold(base, p, cfg, Start(cfg), run, s, before);
    forall i | 0 <= i < |list|
      ensures var files := FilesAfter(base, cfg.tasks, before, run);
        list[i] in files && files[list[i]] == Some(UrlsOf(p, view)[i])
    {
      TaskAt(p, view, i);
      EntryIsThere(base, p, cfg, s, view, i);
    }
  }

  /** A chunk that has been through decryption. */
  predicate Past(stage: Stage) {
    stage.Delivering? || stage.Delivered? || stage.Collected? || stage.Dropped?
  }

  /** The file of every chunk written so far holds that chunk. */
  ghost predicate FilesOk(base: string, cfg: Config, s: State, files: Files) {
    && |s.stages| == |cfg.tasks|
    && (forall c :: c in s.written ==>
          && c < |cfg.tasks| && Past(s.stages[c])
          && PathOf(base, cfg.tasks[c]) in files && files[PathOf(base, cfg.tasks[c])] == Some(cfg.tasks[c].url))
  }

  /** No step takes a chunk back to before its decryption. */
  lemma PastStaysPast(cfg: Config, s: State, step: Step)
    requires Accounted(cfg, s) && Enabled(cfg, s, step)
    ensures |Next(cfg, s, step).stages| == |s.stages|
    ensures forall c :: 0 <= c < |s.stages| && Past(s.stages[c]) ==> Past(Next(cfg, s, step).stages[c])
    ensures step.Decrypt? ==> Past(Next(cfg, s, step).stages[step.c]) && !Past(s.stages[step.c])
  {
    hide Sum, Held, MustWait, DownloadBuffer, DecryptBuffer;
    SumNext(cfg, s, step, IsDelivered);
    var c, t := Chunk(s, step), Next(cfg, s, step);
    assert c < |s.stages| && Past(s.stages[c]) ==> Past(t.stages[c]);
  }

  lemma OnlyDecryptWrites(cfg: Config, s: State, step: Step)
    requires Enabled(cfg, s, step)
    ensures step.Decrypt? ==> step.c < |s.stages|
    ensures Next(cfg, s, step).written == s.written + if step.Decrypt? && step.ok then {step.c} else {}
  {
    hide Sum, Held, MustWait, DownloadBuffer, DecryptBuffer;
  }

  lemma StepKeepsFiles(base: string, p: Playlist, cfg: Config, s: State, step: Step, files: Files)
    requires cfg.tasks == TasksOf(p) && Accounted(cfg, s) && FilesOk(base, cfg, s, files) && Enabled(cfg, s, step)
    ensures FilesOk(base, cfg, Next(cfg, s, step), WriteFile(base, cfg.tasks, files, step))
  {
    hide PathOf, Past, TasksOf, Next, Enabled, Accounted;
    OnlyDecryptWrites(cfg, s, step);
    PastStaysPast(cfg, s, step);
    if step.Decrypt? {
      forall c | c in s.written
        ensures PathOf(base, cfg.tasks[c]) != PathOf(base, cfg.tasks[step.c])
      {
        if PathOf(base, cfg.tasks[c]) == PathOf(base, cfg.tasks[step.c]) {
          PathsAreDistinct(base, p, c, step.c);
        }
      }
    }
  }

  lemma {:induction false} FilesHold(base: string, p: Playlist, cfg: Config, s: State, run: seq<Step>, t: State,
          files: Files)
    requires cfg.tasks == TasksOf(p) && Invariant(cfg, s) && FilesOk(base, cfg, s, files) && Reaches(cfg, s, run, t)
    ensures FilesOk(base, cfg, t, FilesAfter(base, cfg.tasks, files, run))
    decreases |run|
  {
    hide FilesOk, Enabled, Next, WriteFile, TasksOf, Invariant;
    if run != [] {
      InvariantIsAccounted(cfg, s);
      InvariantStep(cfg, s, run[0]);
      StepKeepsFiles(base, p, cfg, s, run[0], files);
      FilesHold(base, p, cfg, Next(cfg, s, run[0]), run[1..], t, WriteFile(base, cfg.tasks, files, run[0]));
    }
  }

  function UrlsOf(p: Playlist, view: View): seq<string> {
    if view == First then (if p.left then p.first else []) else (if p.right then p.second else [])
  }

  function Offset(p: Playlist, view: View): nat {
    if view == First then 0 else |UrlsOf(p, First)|
  }

  lemma TaskAt(p: Playlist, view: View, i: nat)
    requires i < |UrlsOf(p, view)|
    ensures Offset(p, view) + i < |TasksOf(p)|
    ensures TasksOf(p)[Offset(p, view) + i] == Task(i, view, UrlsOf(p, view)[i])
  {
  }

  /** A finished chunk's path is in its view's map, and its file has been written. */
  lemma EntryIsThere(base: string, p: Playlist, cfg: Config, s: State, view: View, i: nat)
    requires Invariant(cfg, s) && cfg.tasks == TasksOf(p) && |s.arrived| == |cfg.tasks|
    requires Refers(cfg.tasks, s.arrived) && Failures(cfg.tasks, s.arrived) == []
    requires i < |UrlsOf(p, view)|
    ensures var m := ViewMap(base, cfg.tasks, s.arrived, view); i in m && m[i] == PathOf(base, Task(i, view, ""))
    ensures Offset(p, view) + i in s.written
  {
    hide Sum, PathOf, ViewMap, Failures, Orderly, WithinBudget, Accounted, TasksOf;
    TaskAt(p, view, i);
    var c := Offset(p, view) + i;
    NoFailuresMeansAllDecrypted(cfg.tasks, s.arrived);
    FullCount(cfg, s, c);
    var k :| 0 <= k < |s.arrived| && s.arrived[k].0 == c;
    assert Gives(cfg.tasks, s.arrived[k], view, i);
    ViewMapContents(base, cfg.tasks, s.arrived, view, i);
    assert Succeeded(s.stages[c]);
  }

  lemma NoOtherEntry(base: string, p: Playlist, arrived: Arrived, view: View, id: nat)
    requires Refers(TasksOf(p), arrived) && id in ViewMap(base, TasksOf(p), arrived, view)
    ensures id < |UrlsOf(p, view)|
  {
    hide PathOf, ViewMap;
    ViewMapContents(base, TasksOf(p), arrived, view, id);
  }

  lemma ListIsExpected(base: string, p: Playlist, cfg: Config, s: State, view: View, list: seq<string>)
    requires Invariant(cfg, s) && cfg.tasks == TasksOf(p) && |s.arrived| == |cfg.tasks|
    requires Refers(cfg.tasks, s.arrived) && Failures(cfg.tasks, s.arrived) == []
    requires forall bound: nat :: Bounds(ViewMap(base, cfg.tasks, s.arrived, view), bound) ==>
        list == InOrder(ViewMap(base, cfg.tasks, s.arrived, view), bound)
    ensures |list| == |UrlsOf(p, view)|
    ensures forall i :: 0 <= i < |list| ==> list[i] == PathOf(base, Task(i, view, UrlsOf(p, view)[i]))
  {
    hide Sum, PathOf, ViewMap, Failures, Invariant, TasksOf, Refers, InOrder, UrlsOf;
    var urls := UrlsOf(p, view);
    var m := ViewMap(base, cfg.tasks, s.arrived, view);
    forall i | 0 <= i < |urls| ensures i in m && m[i] == PathOf(base, Task(i, view, "")) {
      EntryIsThere(base, p, cfg, s, view, i);
    }
    forall id | id in m ensures id < |urls| {
      NoOtherEntry(base, p, s.arrived, view, id);
    }
    InOrderOfAll(m, |urls|);
    assert Bounds(m, |urls|);
    assert list == InOrder(m, |urls|);
    forall i | 0 <= i < |list| ensures list[i] == PathOf(base, Task(i, view, urls[i])) {
      PathIgnoresURL(base, i, view, urls[i]);
    }
  }

  lemma PathIgnoresURL(base: string, id: nat, view: View, url: string)
    ensures PathOf(base, Task(id, view, url)) == PathOf(base, Task(id, view, ""))
  {
  }

  /** All paths of a download are different, so no decrypted file replaces another. */
  lemma PathsAreDistinct(base: string, p: Playlist, i: nat, j: nat)
    requires var t := TasksOf(p); i < |t| && j < |t| && PathOf(base, t[i]) == PathOf(base, t[j])
    ensures i == j
  {
    var t := TasksOf(p);
    SamePathSameChunk(base, t[i], t[j]);
    TasksAreDistinct(p.first, p.second, p.left, p.right, i, j);
  }

  /** Without a cancellation every chunk has ended, each in exactly one of the three places. */
  lemma UncanceledRunsAreComplete(base: string, p: Playlist, cfg: Config, run: seq<Step>, s: State)
    requires Finished(p, cfg, run, s) && !s.canceled && cfg.downloadWorkers > 0 && cfg.decryptWorkers > 0
    ensures forall c :: 0 <= c < |s.stages| ==> s.stages[c].Collected?
    ensures Refers(cfg.tasks, s.arrived) && |s.arrived| == |cfg.tasks|
    ensures var first := ViewMap(base, cfg.tasks, s.arrived, First);
      var second := ViewMap(base, cfg.tasks, s.arrived, Second);
      |first| + |second| + |Failures(cfg.tasks, s.arrived)| == |cfg.tasks|
  {
    hide Reaches, Sum, ViewMap, Failures;
    StartIsInvariant(cfg);
    InvariantHolds(cfg, Start(cfg), run, s);
    SumZero(s.stages, IsQueued);
    SumZero(s.stages, IsReady);
    SumZero(s.stages, IsDelivered);
    SumZero(s.stages, DownloadBusy);
    SumZero(s.stages, DecryptBusy);
    AllCollected(s.stages);
    ArrivedOncePerChunk(p, cfg, s);
    ResultsPartition(base, cfg.tasks, s.arrived);
  }

  lemma {:induction false} AllCollected(stages: seq<Stage>)
    requires forall c :: 0 <= c < |stages| ==>
      && !stages[c].Unsubmitted? && !stages[c].Dropped?
      && IsQueued(stages[c]) == IsReady(stages[c]) == IsDelivered(stages[c]) == DownloadBusy(stages[c])
          == DecryptBusy(stages[c]) == 0
    ensures forall c :: 0 <= c < |stages| ==> stages[c].Collected?
    ensures Sum(stages, IsCollected) == |stages|
  {
    if stages != [] {
      AllCollected(stages[..|stages| - 1]);
    }
  }

  // ---- What the driver returns ----

  ghost predicate HasArrived(arrived: Arrived, c: nat) {
    exists k :: 0 <= k < |arrived| && arrived[k].0 == c
  }

  ghost predicate AllArrived(n: nat, arrived: Arrived) {
    forall c: nat :: c < n ==> HasArrived(arrived, c)
  }

  predicate IsFailure(entry: (nat, Result), canceled: bool) {
    entry.1.Failed? && (canceled ==> entry.1.canceled)
  }

  /** Some chunk failed; with `canceled`, some chunk failed because of the cancellation. */
  ghost predicate SomeFailed(arrived: Arrived, canceled: bool) {
    exists k :: 0 <= k < |arrived| && IsFailure(arrived[k], canceled)
  }

  lemma CompleteIffAllArrived(cfg: Config, s: State)
    requires Invariant(cfg, s)
    ensures |s.arrived| == |cfg.tasks| <==> AllArrived(|cfg.tasks|, s.arrived)
  {
    hide Sum, Orderly, WithinBudget, Accounted;
    var n := |cfg.tasks|;
    assert |s.stages| == n by {
      InvariantIsAccounted(cfg, s);
    }
    if |s.arrived| == n {
      forall c: nat | c < n ensures HasArrived(s.arrived, c) {
        FullCount(cfg, s, c);
      }
    }
    if AllArrived(n, s.arrived) {
      var seen := ChunksOf(s.arrived, |s.arrived|);
      ChunksDiffer(s.arrived, |s.arrived|);
      forall c | c in Range(n) ensures c in seen {
        assert HasArrived(s.arrived, c);
      }
      assert seen == Range(n);
    }
  }

  /** A submission that fails leaves its chunk out, so not every result arrives. */
  lemma FailedSubmissionIsIncomplete(cfg: Config, s: State)
    requires Invariant(cfg, s) && s.submitFailed
    ensures !AllArrived(|cfg.tasks|, s.arrived)
  {
    hide Sum, WithinBudget;
    assert s.stages[s.next].Unsubmitted?;
    assert !HasArrived(s.arrived, s.next);
  }

  lemma {:induction false} FailuresAreExact(tasks: seq<Task>, arrived: Arrived, canceled: bool)
    requires Refers(tasks, arrived)
    ensures (exists f :: f in Failures(tasks, arrived) && (canceled ==> f.canceled)) <==> SomeFailed(arrived, canceled)
  {
    if f :| f in Failures(tasks, arrived) && (canceled ==> f.canceled) {
      FailureIsAResult(tasks, arrived, f);
      var k :| 0 <= k < |arrived| && Reports(tasks, arrived[k], f);
      assert IsFailure(arrived[k], canceled);
    }
    if SomeFailed(arrived, canceled) {
      var last := |arrived| - 1;
      var init := arrived[..last];
      var (c, r) := arrived[last];
      if IsFailure(arrived[last], canceled) {
        assert Failure(tasks[c].chunkID, tasks[c].view, r.canceled) in Failures(tasks, arrived);
      } else {
        var k :| 0 <= k < |arrived| && IsFailure(arrived[k], canceled);
        assert init[k] == arrived[k];
        FailuresAreExact(tasks, init, canceled);
        var f :| f in Failures(tasks, init) && (canceled ==> f.canceled);
        assert f in Failures(tasks, arrived);
      }
    }
  }

  lemma SortedFailuresAreExact(tasks: seq<Task>, arrived: Arrived)
    requires Refers(tasks, arrived)
    ensures var fs := SortedFailures(tasks, arrived);
      && (fs != [] <==> SomeFailed(arrived, false))
      && ((exists k :: 0 <= k < |fs| && fs[k].canceled) <==> SomeFailed(arrived, true))
      && |fs| == |Failures(tasks, arrived)|
  {
    hide Failures, SomeFailed, Sort;
    var fs, unsorted := SortedFailures(tasks, arrived), Failures(tasks, arrived);
    SortSorts(unsorted, FailureLess);
    assert |multiset(fs)| == |fs| && |multiset(unsorted)| == |unsorted|;
    assert forall f :: f in fs <==> f in multiset(fs);
    assert forall f :: f in unsorted <==> f in multiset(unsorted);
    FailuresAreExact(tasks, arrived, false);
    FailuresAreExact(tasks, arrived, true);
    if fs != [] {
      assert fs[0] in unsorted;
    }
  }

  lemma NothingToArrive(arrived: Arrived)
    requires Refers([], arrived)
    ensures AllArrived(0, arrived) && !SomeFailed(arrived, false)
  {
    if arrived != [] {
      var c := arrived[0].0;
      assert false;
    }
  }

  /** What the driver returns for each run, in terms of the results that arrived. A submission error is
      never what it returns: a submission that fails leaves the download incomplete, which comes first. */
  lemma ConcludesExactly(base: string, p: Playlist, cfg: Config, run: seq<Step>, s: State, r: PipelineResult,
          canceled: bool)
    requires Finished(p, cfg, run, s) && Refers(cfg.tasks, s.arrived) && IsResult(base, cfg.tasks, s.arrived, r)
    ensures var outcome := Conclude(|cfg.tasks|, r, canceled, s.submitFailed);
      var complete := AllArrived(|cfg.tasks|, s.arrived);
      && (outcome.Incomplete? <==> !complete)
      && (outcome.Incomplete? ==> outcome.canceled == canceled)
      && (outcome.ContextError? <==> complete && canceled && SomeFailed(s.arrived, true))
      && (outcome.ChunkFailures? <==>
            complete && SomeFailed(s.arrived, false) && !(canceled && SomeFailed(s.arrived, true)))
      && (outcome.Downloaded? <==> complete && !SomeFailed(s.arrived, false))
      && !outcome.SubmitError?
  {
    hide Reaches, Sum, ViewMap, Failures, SomeFailed, AllArrived, SortedFailures, InOrder, Bounds, Invariant;
    StartIsInvariant(cfg);
    InvariantHolds(cfg, Start(cfg), run, s);
    ArrivedOncePerChunk(p, cfg, s);
    ResultsPartition(base, cfg.tasks, s.arrived);
    SortedFailuresAreExact(cfg.tasks, s.arrived);
    CompleteIffAllArrived(cfg, s);
    if s.submitFailed {
      FailedSubmissionIsIncomplete(cfg, s);
    }
    CanceledFailuresFailed(s.arrived);
    if cfg.tasks == [] {
      NothingToArrive(s.arrived);
    }
  }

  lemma CanceledFailuresFailed(arrived: Arrived)
    ensures SomeFailed(arrived, true) ==> SomeFailed(arrived, false)
  {
    if SomeFailed(arrived, true) {
      var k :| 0 <= k < |arrived| && IsFailure(arrived[k], true);
      assert IsFailure(arrived[k], false);
    }
  }

  /** The lists a download ends with: a path per URL, in URL order. */
  ghost predicate Lists(base: string, p: Playlist, view: View, list: seq<string>) {
    && |list| == |UrlsOf(p, view)|
    && (forall i :: 0 <= i < |list| ==> list[i] == PathOf(base, Task(i, view, UrlsOf(p, view)[i])))
  }

  /** Without a cancellation during the run the download succeeds exactly when every chunk was decrypted, with
      the complete lists of both views, and fails exactly when some chunk failed. */
  lemma UncanceledRunsConclude(base: string, p: Playlist, cfg: Config, run: seq<Step>, s: State, r: PipelineResult)
    requires Finished(p, cfg, run, s) && !s.canceled && cfg.downloadWorkers > 0 && cfg.decryptWorkers > 0
    requires Refers(cfg.tasks, s.arrived) && IsResult(base, cfg.tasks, s.arrived, r)
    ensures var outcome := Conclude(|cfg.tasks|, r, false, s.submitFailed);
      && (outcome == ChunkFailures <==> SomeFailed(s.arrived, false))
      && (outcome.Downloaded? <==> forall k :: 0 <= k < |s.arrived| ==> s.arrived[k].1.Decrypted?)
      && (outcome.Downloaded? ==> Lists(base, p, First, outcome.first) && Lists(base, p, Second, outcome.second))
  {
    hide Reaches, Sum, ViewMap, Failures, AllArrived, SortedFailures, InOrder, Bounds, Invariant, PathOf, FilesAfter;
    ConcludesExactly(base, p, cfg, run, s, r, false);
    UncanceledRunsAreComplete(base, p, cfg, run, s);
    StartIsInvariant(cfg);
    InvariantHolds(cfg, Start(cfg), run, s);
    CompleteIffAllArrived(cfg, s);
    forall k | 0 <= k < |s.arrived| && !s.arrived[k].1.Decrypted? ensures SomeFailed(s.arrived, false) {
      assert IsFailure(s.arrived[k], false);
    }
    if cfg.tasks != [] && Conclude(|cfg.tasks|, r, false, s.submitFailed).Downloaded? {
      DownloadIsComplete(base, p, cfg, run, s, r, false, First, map[]);
      DownloadIsComplete(base, p, cfg, run, s, r, false, Second, map[]);
    }
  }
}
