/** The local library's tables, and each of its transactions as one step on them
    (internal/library/jobs.go:114-350, 658-703; internal/library/artifact.go:111-193). Tables are maps. */
module LibraryTables {
  import opened Ordering

  // ---------------------------------------------------------------- rows

  datatype Kind = Download | Watch

  datatype Status = Pending | Running | Recoverable | Completed | Failed | Canceled

  predicate IsTerminal(s: Status) { s.Completed? || s.Failed? || s.Canceled? }

  /** artifact.NewID encodes the identifying fields one to one. */
  datatype ArtifactId = ArtifactId(identity: string, selection: string)

  datatype Shape = Shape(role: string, view: string, container: string)

  /** Where a manifest comes from: everything it says beside its files. */
  datatype Origin = Origin(identity: string, lecture: string, selection: string, producedAt: int, producer: string)

  datatype ExpectedFile = ExpectedFile(path: string, shape: Shape, sha256: string)

  datatype Expected = Expected(origin: Origin, files: seq<ExpectedFile>)

  datatype File = File(path: string, shape: Shape, bytes: nat, sha256: string)

  datatype Manifest = Manifest(id: ArtifactId, origin: Origin, files: seq<File>)

  datatype Job = Job(kind: Kind, status: Status, logicalId: ArtifactId, completedId: Option<ArtifactId>,
                     expected: Expected, attempts: nat, summary: string,
                     startedAt: Option<string>, finishedAt: Option<string>, createdAt: string, updatedAt: string)

  datatype ArtifactRow = ArtifactRow(identity: string, selection: string, manifest: Manifest, createdAt: string,
      updatedAt: string)

  datatype FileRow = FileRow(shape: Shape, bytes: nat, sha256: string, present: bool,
                             lastVerifiedAt: string, createdAt: string, updatedAt: string)

  type FileKey = (ArtifactId, string)

  datatype Tables = Tables(
    jobs: map<string, Job>, artifacts: map<ArtifactId, ArtifactRow>, files: map<FileKey, FileRow>)

  datatype Error = NotFound | Terminal | Transition | OutputUnstable | Invalid | Mismatch | Database

  function IdOf(o: Origin): ArtifactId { ArtifactId(o.identity, o.selection) }

  // ---------------------------------------------------------------- what every state keeps

  ghost predicate UniquePaths(files: seq<ExpectedFile>) {
    forall i, j :: 0 <= i < j < |files| ==> files[i].path != files[j].path
  }

  /** A job that was ever started says so, and a completed one has its artifact row and one file
      row, with a digest, for every path it expected, all under its logical ID. */
  ghost predicate JobOk(t: Tables, j: Job) {
    && j.logicalId == IdOf(j.expected.origin)
    && j.expected.files != [] && UniquePaths(j.expected.files)
    && (j.status.Running? || j.status.Recoverable? || j.status.Completed? ==> j.attempts > 0)
    && (j.status.Completed? ==>
          && j.completedId == Some(j.logicalId)
          && j.logicalId in t.artifacts
          && forall i :: 0 <= i < |j.expected.files| ==>
               HasRow(t.files, j.logicalId, j.expected.files[i].path))
  }

  ghost predicate HasRow(files: map<FileKey, FileRow>, id: ArtifactId, path: string) {
    (id, path) in files && files[(id, path)].sha256 != ""
  }

  ghost predicate Inv(t: Tables) {
    && (forall id :: id in t.jobs ==> JobOk(t, t.jobs[id]))
    && (forall a :: a in t.artifacts ==> ArtifactId(t.artifacts[a].identity, t.artifacts[a].selection) == a)
  }

  /** How one row may have changed after any number of steps. */
  ghost predicate JobFollows(x: Job, y: Job) {
    && y.kind == x.kind && y.logicalId == x.logicalId && y.expected == x.expected && y.createdAt == x.createdAt
    && x.attempts <= y.attempts
    && (IsTerminal(x.status) ==> y == x)
    && (y.status.Pending? ==> x.status.Pending?)
  }

  /** How the tables may have changed: jobs, artifacts and files are never dropped, a terminal job
      never changes again, and no job returns to pending. */
  ghost predicate Follows(a: Tables, b: Tables) {
    && (forall id :: id in a.jobs ==> id in b.jobs && JobFollows(a.jobs[id], b.jobs[id]))
    && (forall id :: id in a.artifacts ==> id in b.artifacts)
    && (forall k :: k in a.files ==> k in b.files && (a.files[k].sha256 != "" ==> b.files[k].sha256 != ""))
  }

  lemma FollowsIsTransitive(a: Tables, b: Tables, c: Tables)
    requires Follows(a, b) && Follows(b, c)
    ensures Follows(a, c)
  {
  }

  /** No row is added, and the jobs outside `ids` keep theirs. */
  ghost predicate OnlyChanges(t: Tables, u: Tables, ids: set<string>) {
    && u.jobs.Keys == t.jobs.Keys
    && forall id :: id in t.jobs && id !in ids ==> u.jobs[id] == t.jobs[id]
  }

  ghost predicate NoneRunning(t: Tables, kind: Kind) {
    forall id :: id in t.jobs && t.jobs[id].kind == kind ==> !t.jobs[id].status.Running?
  }

  ghost function WithStatus(t: Tables, kind: Kind, status: Status): set<string> {
    set id | id in t.jobs && t.jobs[id].kind == kind && t.jobs[id].status == status
  }

  // ---------------------------------------------------------------- files on disk

  datatype Content = Content(regular: bool, bytes: nat, container: string, sha256: string)

  type Disk = map<string, Content>

  /** verifyFile: a regular file that is not empty, with the container its name promises and, when
      the expectation fixes a digest, with that digest. */
  predicate FileValid(disk: Disk, f: ExpectedFile) {
    && f.path in disk
    && disk[f.path].regular && disk[f.path].bytes > 0
    && disk[f.path].container == f.shape.container
    && (f.sha256 != "" ==> disk[f.path].sha256 == f.sha256)
  }

  /** Regular, not empty, in its container, and with its digest, if the expectation has one. */
  predicate GoodFile(disk: Disk, f: ExpectedFile) {
    && f.path in disk && disk[f.path].regular && disk[f.path].bytes != 0
    && f.shape.container == disk[f.path].container && f.sha256 in {"", disk[f.path].sha256}
  }

  /** What a manifest says of a file: path, shape and digest as expected, and the size found. */
  predicate Describes(file: File, f: ExpectedFile, disk: Disk) {
    && file.path == f.path && file.shape == f.shape && file.sha256 == f.sha256
    && f.path in disk && file.bytes == disk[f.path].bytes
  }

  predicate AllValid(disk: Disk, files: seq<ExpectedFile>) {
    forall i :: 0 <= i < |files| ==> FileValid(disk, files[i])
  }

  /** artifact.Build on the expected files: the manifest of a complete output set, or nothing. */
  method Build(expected: Expected, disk: Disk) returns (m: Option<Manifest>)
    ensures m == Built(expected, disk)
    ensures m.Some? <==>
              && expected.files != [] && UniquePaths(expected.files)
              && forall i :: 0 <= i < |expected.files| ==> GoodFile(disk, expected.files[i])
    ensures m.Some? ==>
              && m.value.id == IdOf(expected.origin) && m.value.origin == expected.origin
              && |m.value.files| == |expected.files|
              && forall i :: 0 <= i < |expected.files| ==> Describes(m.value.files[i], expected.files[i], disk)
  {
    BuiltIs(expected, disk);
    hide GoodFile, Describes;
    if |expected.files| == 0 {
      return None;
    }
    var files: seq<File> := [];
    var seen: set<string> := {};
    var i := 0;
    while i < |expected.files|
      invariant 0 <= i <= |expected.files|
      invariant BuiltSoFar(expected.files[..i], disk, files, seen)
    {
      hide BuiltSoFar, FileValid, Built;
      var f := expected.files[i];
      OneMoreFile(expected, disk, i, files, seen);
      if !FileValid(disk, f) || f.path in seen {
        return None;
      }
      files := files + [File(f.path, f.shape, disk[f.path].bytes, f.sha256)];
      seen := seen + {f.path};
      i := i + 1;
    }
    assert expected.files[..i] == expected.files;
    return Some(Manifest(IdOf(expected.origin), expected.origin, files));
  }

  ghost predicate BuiltSoFar(done: seq<ExpectedFile>, disk: Disk, files: seq<File>, seen: set<string>) {
    && AllValid(disk, done) && UniquePaths(done)
    && files == Materialized(done, disk)
    && forall p :: p in seen <==> exists j :: 0 <= j < |done| && done[j].path == p
  }

  lemma OneMoreFile(expected: Expected, disk: Disk, i: nat, files: seq<File>, seen: set<string>)
    requires i < |expected.files| && BuiltSoFar(expected.files[..i], disk, files, seen)
    ensures var f := expected.files[i];
            if FileValid(disk, f) && f.path !in seen then
              && f.path in disk
              && (var file := File(f.path, f.shape, disk[f.path].bytes, f.sha256);
                  BuiltSoFar(expected.files[..i + 1], disk, files + [file], seen + {f.path}))
            else Built(expected, disk).None?
  {
    var f := expected.files[i];
    var done, more := expected.files[..i], expected.files[..i + 1];
    assert more[..i] == done && more[i] == f;
    if FileValid(disk, f) && f.path !in seen {
      forall p
        ensures p in seen + {f.path} <==> exists j :: 0 <= j < |more| && more[j].path == p
      {
        if p == f.path {
          assert more[i].path == p;
        } else if p in seen {
          var j :| 0 <= j < |done| && done[j].path == p;
          assert more[j].path == p;
        }
      }
      hide FileValid;
      assert AllValid(disk, more) && UniquePaths(more);
    } else if f.path in seen {
      var j :| 0 <= j < |done| && done[j].path == f.path;
      assert expected.files[j].path == expected.files[i].path;
    }
  }

  function Materialized(files: seq<ExpectedFile>, disk: Disk): (r: seq<File>)
    requires AllValid(disk, files)
    ensures |r| == |files|
    ensures forall i :: 0 <= i < |files| ==>
              && FileValid(disk, files[i])
              && r[i] == File(files[i].path, files[i].shape, disk[files[i].path].bytes, files[i].sha256)
  {
    if files == [] then []
    else
      var last := files[|files| - 1];
      assert FileValid(disk, last);
      Materialized(files[..|files| - 1], disk) + [File(last.path, last.shape, disk[last.path].bytes, last.sha256)]
  }

  ghost function Built(expected: Expected, disk: Disk): Option<Manifest> {
    if expected.files != [] && AllValid(disk, expected.files) && UniquePaths(expected.files) then
      Some(Manifest(IdOf(expected.origin), expected.origin, Materialized(expected.files, disk)))
    else
      None
  }

  lemma BuiltIs(expected: Expected, disk: Disk)
    ensures var m := Built(expected, disk);
            && (m.Some? <==>
                  && expected.files != [] && UniquePaths(expected.files)
                  && forall i :: 0 <= i < |expected.files| ==> GoodFile(disk, expected.files[i]))
            && (m.Some? ==>
                  && m.value.id == IdOf(expected.origin) && m.value.origin == expected.origin
                  && |m.value.files| == |expected.files|
                  && forall i :: 0 <= i < |expected.files| ==> Describes(m.value.files[i], expected.files[i], disk))
  {
    hide UniquePaths;
    assert forall i :: 0 <= i < |expected.files| ==>
        (FileValid(disk, expected.files[i]) <==> GoodFile(disk, expected.files[i]));
  }

  lemma BuiltId(expected: Expected, disk: Disk)
    requires Built(expected, disk).Some?
    ensures Built(expected, disk).value.id == IdOf(expected.origin)
    ensures Built(expected, disk).value.origin == expected.origin
  {
  }

  /** The file specifications that validateCompletedManifest builds a manifest from again. */
  function Respecified(m: Manifest): Expected {
    var files := seq(|m.files|, i requires 0 <= i < |m.files| =>
      ExpectedFile(m.files[i].path, m.files[i].shape, m.files[i].sha256));
    Expected(m.origin, files)
  }

  predicate Unstable(disk: Disk, f: File) {
    && f.sha256 == ""
    && !(f.path in disk && disk[f.path].regular && disk[f.path].bytes == f.bytes && disk[f.path].sha256 != "")
  }

  /** digestManifestFiles: fill the digests the manifest leaves open, from files whose size is
      still the recorded one. */
  method DigestManifestFiles(m: Manifest, disk: Disk) returns (r: Option<Manifest>)
    ensures r == Digested(m, disk)
  {
    var files := m.files;
    var i := 0;
    while i < |files|
      invariant 0 <= i <= |files| == |m.files|
      invariant forall j :: 0 <= j < i ==> !Unstable(disk, m.files[j]) && files[j] == WithDigest(m.files[j], disk)
      invariant forall j :: i <= j < |files| ==> files[j] == m.files[j]
    {
      if Unstable(disk, files[i]) {
        return None;
      }
      files := files[i := WithDigest(files[i], disk)];
      i := i + 1;
    }
    assert AllStable(m.files, disk) && files == WithDigests(m.files, disk);
    return Some(m.(files := files));
  }

  function WithDigest(f: File, disk: Disk): (r: File)
    requires !Unstable(disk, f)
    ensures r.path == f.path && r.shape == f.shape && r.bytes == f.bytes && r.sha256 != ""
  {
    if f.sha256 == "" then f.(sha256 := disk[f.path].sha256) else f
  }

  ghost predicate AllStable(files: seq<File>, disk: Disk) {
    forall i :: 0 <= i < |files| ==> !Unstable(disk, files[i])
  }

  ghost function WithDigests(files: seq<File>, disk: Disk): (r: seq<File>)
    requires AllStable(files, disk)
    ensures |r| == |files|
    ensures forall i :: 0 <= i < |files| ==> !Unstable(disk, files[i]) && r[i] == WithDigest(files[i], disk)
  {
    if files == [] then [] else
      assert !Unstable(disk, files[|files| - 1]);
      WithDigests(files[..|files| - 1], disk) + [WithDigest(files[|files| - 1], disk)]
  }

  ghost function Digested(m: Manifest, disk: Disk): (r: Option<Manifest>)
    ensures r.Some? ==>
              && r.value.id == m.id && r.value.origin == m.origin && |r.value.files| == |m.files|
              && forall i :: 0 <= i < |m.files| ==>
                   r.value.files[i].path == m.files[i].path && r.value.files[i].sha256 != ""
  {
    if AllStable(m.files, disk) then Some(m.(files := WithDigests(m.files, disk))) else None
  }

  // ---------------------------------------------------------------- manifests against expectations

  ghost function ByPath(files: seq<File>): (r: map<string, File>)
    ensures forall p :: p in r <==> exists i :: 0 <= i < |files| && files[i].path == p
    ensures forall p :: p in r ==> r[p] in files && r[p].path == p
  {
    if files == [] then map[] else
      var last := files[|files| - 1];
      ByPath(files[..|files| - 1])[last.path := last]
  }

  predicate FileMatches(byPath: map<string, File>, f: ExpectedFile) {
    && f.path in byPath
    && byPath[f.path].shape == f.shape
    && (f.sha256 != "" ==> byPath[f.path].sha256 == f.sha256)
  }

  ghost predicate Matches(expected: Expected, m: Manifest) {
    && expected.origin == m.origin
    && |expected.files| == |m.files|
    && forall i :: 0 <= i < |expected.files| ==> FileMatches(ByPath(m.files), expected.files[i])
  }

  method MatchesManifest(expected: Expected, m: Manifest) returns (ok: bool)
    ensures ok <==> Matches(expected, m)
  {
    if expected.origin != m.origin {
      return false;
    }
    if |expected.files| != |m.files| {
      return false;
    }
    var byPath: map<string, File> := map[];
    var i := 0;
    while i < |m.files|
      invariant 0 <= i <= |m.files|
      invariant byPath == ByPath(m.files[..i])
    {
      assert m.files[..i + 1][..i] == m.files[..i];
      byPath := byPath[m.files[i].path := m.files[i]];
      i := i + 1;
    }
    assert m.files[..i] == m.files;
    i := 0;
    while i < |expected.files|
      invariant 0 <= i <= |expected.files|
      invariant forall j :: 0 <= j < i ==> FileMatches(byPath, expected.files[j])
    {
      if !FileMatches(byPath, expected.files[i]) {
        return false;
      }
      i := i + 1;
    }
    return true;
  }

  lemma {:induction false} ByPathFinds(files: seq<File>, i: nat)
    requires i < |files|
    requires forall j, k :: 0 <= j < k < |files| ==> files[j].path != files[k].path
    ensures files[i].path in ByPath(files) && ByPath(files)[files[i].path] == files[i]
  {
    if i < |files| - 1 {
      ByPathFinds(files[..|files| - 1], i);
      assert files[i].path != files[|files| - 1].path;
    }
  }

  /** For a manifest whose paths differ: the same origin, as many files, and for every expected one a file at
      its path, of its shape, and with its digest, if the expectation has one. */
  lemma MatchesIs(expected: Expected, m: Manifest)
    requires forall j, k :: 0 <= j < k < |m.files| ==> m.files[j].path != m.files[k].path
    ensures Matches(expected, m) <==>
              && m.origin == expected.origin && |m.files| == |expected.files|
              && forall i :: 0 <= i < |expected.files| ==>
                  exists k :: 0 <= k < |m.files| && Meets(m.files[k], expected.files[i])
  {
    hide ByPath;
    forall k | 0 <= k < |m.files|
      ensures m.files[k].path in ByPath(m.files) && ByPath(m.files)[m.files[k].path] == m.files[k]
    {
      ByPathFinds(m.files, k);
    }
    forall i | 0 <= i < |expected.files|
      ensures FileMatches(ByPath(m.files), expected.files[i]) <==>
                exists k :: 0 <= k < |m.files| && Meets(m.files[k], expected.files[i])
    {
      if FileMatches(ByPath(m.files), expected.files[i]) {
        var k :| 0 <= k < |m.files| && m.files[k].path == expected.files[i].path;
        assert Meets(m.files[k], expected.files[i]);
      }
    }
  }

  predicate Meets(file: File, f: ExpectedFile) {
    file.path == f.path && file.shape == f.shape && f.sha256 in {"", file.sha256}
  }

  /** A manifest built from an expectation always matches it, so recovery never stops on a mismatch. */
  lemma BuiltMatches(expected: Expected, disk: Disk)
    requires Built(expected, disk).Some?
    ensures Matches(expected, Built(expected, disk).value)
  {
    var files := Built(expected, disk).value.files;
    hide AllValid, Materialized, FileValid, ByPath;
    forall j, k | 0 <= j < k < |files|
      ensures files[j].path != files[k].path
    {
      assert files[j].path == expected.files[j].path && files[k].path == expected.files[k].path;
    }
    forall i | 0 <= i < |expected.files|
      ensures FileMatches(ByPath(files), expected.files[i])
    {
      assert files[i].path == expected.files[i].path;
      ByPathFinds(files, i);
    }
  }

  // ---------------------------------------------------------------- one transaction each

  /** recordManifestTx: insert or update the artifact row, unless the stored identity differs, and
      then one row per file. */
  function Recorded(t: Tables, m: Manifest, now: string): Option<Tables> {
    if m.id in t.artifacts
       && (t.artifacts[m.id].identity != m.origin.identity || t.artifacts[m.id].selection != m.origin.selection)
    then None
    else
      var createdAt := if m.id in t.artifacts then t.artifacts[m.id].createdAt else now;
      var row := ArtifactRow(m.origin.identity, m.origin.selection, m, createdAt, now);
      Some(t.(artifacts := t.artifacts[m.id := row], files := WithFiles(t.files, m.id, m.files, now)))
  }

  function WithFiles(rows: map<FileKey, FileRow>, id: ArtifactId, files: seq<File>, now: string)
    : map<FileKey, FileRow>
  {
    if files == [] then rows
    else
      var last := files[|files| - 1];
      var before := WithFiles(rows, id, files[..|files| - 1], now);
      before[(id, last.path) := Verified(before, (id, last.path), last, now)]
  }

  function Verified(rows: map<FileKey, FileRow>, key: FileKey, f: File, now: string): FileRow {
    FileRow(f.shape, f.bytes, f.sha256, true, now, if key in rows then rows[key].createdAt else now, now)
  }

  /** Every file has a row that says what it says, and no other row changes. */
  lemma {:induction false} WithFilesHasRows(rows: map<FileKey, FileRow>, id: ArtifactId, files: seq<File>, now: string)
    ensures var r := WithFiles(rows, id, files, now);
            && (forall k :: k in rows ==> k in r)
            && (forall k :: k in r && !(k in rows && r[k] == rows[k]) ==> k.0 == id && RowOf(r[k], files, k.1))
            && (forall i :: 0 <= i < |files| ==>
                (id, files[i].path) in r && RowOf(r[(id, files[i].path)], files, files[i].path))
  {
    if files != [] {
      var init, last := files[..|files| - 1], files[|files| - 1];
      WithFilesHasRows(rows, id, init, now);
      var before, r := WithFiles(rows, id, init, now), WithFiles(rows, id, files, now);
      var own := (id, last.path);
      var row := Verified(before, own, last, now);
      assert r == before[own := row];
      assert RowOf(row, files, last.path) by { assert files[|files| - 1] == last; }
      hide WithFiles, RowOf, Verified;
      forall k | k in r && !(k in rows && r[k] == rows[k])
        ensures k.0 == id && RowOf(r[k], files, k.1)
      {
        if k != own {
          RowOfPrefix(before[k], init, files, k.1);
        }
      }
      forall i | 0 <= i < |files|
        ensures (id, files[i].path) in r && RowOf(r[(id, files[i].path)], files, files[i].path)
      {
        var k := (id, files[i].path);
        if k != own {
          assert init[i] == files[i];
          RowOfPrefix(before[k], init, files, files[i].path);
        }
      }
    }
  }

  /** A row that changes is verified and updated now, and keeps the instant it was created, if it was there. */
  lemma {:induction false} WithFilesDates(rows: map<FileKey, FileRow>, id: ArtifactId, files: seq<File>, now: string,
                                          k: FileKey)
    requires k in WithFiles(rows, id, files, now)
    ensures var row := WithFiles(rows, id, files, now)[k];
            || (k in rows && row == rows[k])
            || (&& row.lastVerifiedAt == row.updatedAt == now
                && row.createdAt == if k in rows then rows[k].createdAt else now)
  {
    if files != [] {
      var init, last := files[..|files| - 1], files[|files| - 1];
      if k in WithFiles(rows, id, init, now) {
        WithFilesDates(rows, id, init, now, k);
      }
      WithFilesHasRows(rows, id, init, now);
    }
  }

  lemma RowOfPrefix(row: FileRow, init: seq<File>, files: seq<File>, path: string)
    requires init <= files && RowOf(row, init, path)
    ensures RowOf(row, files, path)
  {
    var i :| 0 <= i < |init| && init[i].path == path
      && row.shape == init[i].shape && row.bytes == init[i].bytes && row.sha256 == init[i].sha256 && row.present;
    assert files[i] == init[i];
  }

  /** The row is what some file of that path says. */
  predicate RowOf(row: FileRow, files: seq<File>, path: string) {
    exists i :: 0 <= i < |files| && files[i].path == path
      && row.shape == files[i].shape && row.bytes == files[i].bytes && row.sha256 == files[i].sha256 && row.present
  }

  method RecordManifestTx(t: Tables, m: Manifest, now: string) returns (r: Option<Tables>)
    ensures r == Recorded(t, m, now)
    ensures r.None? <==>
              && m.id in t.artifacts
              && !(t.artifacts[m.id].identity == m.origin.identity && t.artifacts[m.id].selection == m.origin.selection)
    ensures r.Some? ==>
              var createdAt := if m.id in t.artifacts then t.artifacts[m.id].createdAt else now;
              && r.value.jobs == t.jobs
              && r.value.artifacts == t.artifacts[m.id := ArtifactRow(
                     identity := m.origin.identity, selection := m.origin.selection, manifest := m,
                     createdAt := createdAt, updatedAt := now)]
  {
    if m.id in t.artifacts
      && (t.artifacts[m.id].identity != m.origin.identity || t.artifacts[m.id].selection != m.origin.selection)
    {
      return None;
    }
    var createdAt := if m.id in t.artifacts then t.artifacts[m.id].createdAt else now;
    var artifacts := t.artifacts[m.id := ArtifactRow(m.origin.identity, m.origin.selection, m, createdAt, now)];
    var files := t.files;
    var i := 0;
    while i < |m.files|
      invariant 0 <= i <= |m.files|
      invariant files == WithFiles(t.files, m.id, m.files[..i], now)
    {
      assert m.files[..i + 1][..i] == m.files[..i];
      var f := m.files[i];
      files := files[(m.id, f.path) := Verified(files, (m.id, f.path), f, now)];
      i := i + 1;
    }
    assert m.files[..i] == m.files;
    return Some(t.(artifacts := artifacts, files := files));
  }

  /** validateCompletion, after the manifest was found to match. */
  function Lifecycle(j: Job, id: ArtifactId): Option<Error> {
    if j.status.Completed? && j.completedId == Some(id) then None
    else if IsTerminal(j.status) then Some(Terminal)
    else if !j.status.Running? && !j.status.Recoverable? then Some(Transition)
    else None
  }

  predicate AlreadyCompleted(j: Job, id: ArtifactId) { j.status.Completed? && j.completedId == Some(id) }

  datatype Outcome = Outcome(tables: Tables, error: Option<Error>)

  function CompletedRow(j: Job, id: ArtifactId, now: string): Job {
    j.(status := Completed, completedId := Some(id), summary := "", finishedAt := Some(now), updatedAt := now)
  }

  /** How a completion leaves the job: as it was, if it was completed already, and otherwise with the artifact,
      the instant and no summary. */
  predicate CompletedFrom(t: Tables, u: Tables, jobId: string, id: ArtifactId, now: string) {
    && jobId in t.jobs && jobId in u.jobs
    && var job := t.jobs[jobId];
       if job.status.Completed? then u == t && job.completedId == Some(id)
       else
         && (job.status.Running? || job.status.Recoverable?)
         && u.jobs == t.jobs[jobId := job.(status := Completed, completedId := Some(id), summary := "",
                                           finishedAt := Some(now), updatedAt := now)]
  }

  /** The transaction of completeValidatedJob on the tables it finds. */
  ghost function Complete(t: Tables, jobId: string, m: Manifest, digested: Manifest, now: string): Outcome {
    if jobId !in t.jobs then Outcome(t, Some(NotFound))
    else if t.jobs[jobId].logicalId != m.id || !Matches(t.jobs[jobId].expected, m) then Outcome(t, Some(Mismatch))
    else if AlreadyCompleted(t.jobs[jobId], m.id) then Outcome(t, None)
    else if Lifecycle(t.jobs[jobId], m.id).Some? then Outcome(t, Lifecycle(t.jobs[jobId], m.id))
    else if Recorded(t, digested, now).None? then Outcome(t, Some(Mismatch))
    else
      var r := Recorded(t, digested, now).value;
      Outcome(r.(jobs := r.jobs[jobId := CompletedRow(r.jobs[jobId], m.id, now)]), None)
  }

  function Interrupted(t: Tables, kind: Kind, now: string): Tables {
    t.(jobs := map id | id in t.jobs ::
         if t.jobs[id].status.Running? && t.jobs[id].kind == kind
         then t.jobs[id].(status := Recoverable, summary := "interrupted before durable completion", updatedAt := now)
         else t.jobs[id])
  }

  function WithSummary(t: Tables, jobId: string, summary: string, now: string): Tables {
    if jobId in t.jobs && t.jobs[jobId].status.Recoverable?
    then t.(jobs := t.jobs[jobId := t.jobs[jobId].(summary := summary, updatedAt := now)])
    else t
  }

  /** No file row is lost or loses its digest, and every file of the manifest has one. */
  lemma RecordedRows(rows: map<FileKey, FileRow>, id: ArtifactId, files: seq<File>, now: string)
    requires forall i :: 0 <= i < |files| ==> files[i].sha256 != ""
    ensures var r := WithFiles(rows, id, files, now);
            && (forall k :: k in rows ==> k in r && (rows[k].sha256 != "" ==> r[k].sha256 != ""))
            && (forall i :: 0 <= i < |files| ==> HasRow(r, id, files[i].path))
  {
    WithFilesHasRows(rows, id, files, now);
    hide WithFiles;
    assert forall row, p :: RowOf(row, files, p) ==> row.sha256 != "";
    hide RowOf;
  }

  lemma RecordedKeepsInv(t: Tables, m: Manifest, now: string)
    requires Inv(t) && m.id == IdOf(m.origin) && forall i :: 0 <= i < |m.files| ==> m.files[i].sha256 != ""
    ensures Recorded(t, m, now).Some?
    ensures var r := Recorded(t, m, now).value;
            && Inv(r) && Follows(t, r) && r.jobs == t.jobs && m.id in r.artifacts
            && forall i :: 0 <= i < |m.files| ==> HasRow(r.files, m.id, m.files[i].path)
  {
    hide WithFiles;
    var r := Recorded(t, m, now).value;
    RecordedRows(t.files, m.id, m.files, now);
    assert Follows(t, r);
    forall id | id in r.jobs
      ensures JobOk(r, r.jobs[id])
    {
      JobOkLater(t, r, t.jobs[id]);
    }
  }

  lemma JobOkLater(t: Tables, u: Tables, j: Job)
    requires JobOk(t, j) && Follows(t, u)
    ensures JobOk(u, j)
  {
    hide UniquePaths;
  }

  /** Digests filled in: the same files under the same ID, none of them without a digest. */
  ghost predicate Fills(digested: Manifest, m: Manifest) {
    && digested.id == m.id && digested.origin == m.origin && |digested.files| == |m.files|
    && forall i :: 0 <= i < |m.files| ==> digested.files[i].path == m.files[i].path && digested.files[i].sha256 != ""
  }

  ghost predicate Fits(t: Tables, jobId: string, m: Manifest) {
    jobId in t.jobs && t.jobs[jobId].logicalId == m.id && Matches(t.jobs[jobId].expected, m)
  }

  /** The transaction that gets past every check. */
  lemma CommitKeepsInv(t: Tables, jobId: string, m: Manifest, digested: Manifest, now: string)
    requires Inv(t) && m.id == IdOf(m.origin) && Fills(digested, m)
    requires Fits(t, jobId, m) && Lifecycle(t.jobs[jobId], m.id).None? && !AlreadyCompleted(t.jobs[jobId], m.id)
    ensures Recorded(t, digested, now).Some?
    ensures var r := Recorded(t, digested, now).value;
            jobId in r.jobs
            && var u := r.(jobs := r.jobs[jobId := CompletedRow(r.jobs[jobId], m.id, now)]);
            Inv(u) && Follows(t, u) && OnlyChanges(t, u, {jobId})
  {
    hide Recorded, Matches, WithFiles, Follows;
    RecordedKeepsInv(t, digested, now);
    var r := Recorded(t, digested, now).value;
    assert JobOk(r, t.jobs[jobId]);
    ExpectedPathsRecorded(t.jobs[jobId].expected, m, digested, r.files);
    CompletedRowKeepsInv(r, jobId, m.id, now);
    FollowsIsTransitive(t, r, r.(jobs := r.jobs[jobId := CompletedRow(r.jobs[jobId], m.id, now)]));
  }

  /** Completing a job records its artifact and a row with a digest for every expected path. */
  lemma CompleteKeepsInv(t: Tables, jobId: string, m: Manifest, digested: Manifest, now: string)
    requires Inv(t) && m.id == IdOf(m.origin) && Fills(digested, m)
    ensures var o := Complete(t, jobId, m, digested, now);
            && Inv(o.tables) && Follows(t, o.tables)
            && OnlyChanges(t, o.tables, {jobId})
            && (o.error.None? ==> jobId in o.tables.jobs && o.tables.jobs[jobId].status.Completed?)
            && (o.error.None? ==> CompletedFrom(t, o.tables, jobId, m.id, now))
  {
    hide Recorded, Matches, Inv, Follows;
    FollowsItself(t, {jobId});
    if Recorded(t, digested, now).Some? {
      RecordedKeepsJobs(t, digested, now);
    }
    if Fits(t, jobId, m) && Lifecycle(t.jobs[jobId], m.id).None? && !AlreadyCompleted(t.jobs[jobId], m.id) {
      CommitKeepsInv(t, jobId, m, digested, now);
    }
  }

  lemma CompletedRowKeepsInv(t: Tables, jobId: string, id: ArtifactId, now: string)
    requires Inv(t) && jobId in t.jobs && t.jobs[jobId].logicalId == id && id in t.artifacts
    requires t.jobs[jobId].status.Running? || t.jobs[jobId].status.Recoverable?
    requires forall i :: 0 <= i < |t.jobs[jobId].expected.files| ==>
        HasRow(t.files, id, t.jobs[jobId].expected.files[i].path)
    ensures var u := t.(jobs := t.jobs[jobId := CompletedRow(t.jobs[jobId], id, now)]); Inv(u) && Follows(t, u)
  {
    var u := t.(jobs := t.jobs[jobId := CompletedRow(t.jobs[jobId], id, now)]);
    assert JobOk(t, t.jobs[jobId]);
    forall other | other in u.jobs
      ensures JobOk(u, u.jobs[other])
    {
      assert JobOk(t, t.jobs[other]);
    }
  }

  /** The errors a completion can end in, and when it is a mismatch. */
  lemma CompleteErrors(t: Tables, jobId: string, m: Manifest, digested: Manifest, now: string)
    requires Inv(t) && m.id == IdOf(m.origin) && Fills(digested, m)
    ensures var o := Complete(t, jobId, m, digested, now);
            && (o.error.Some? ==> o.tables == t)
            && o.error in {None, Some(NotFound), Some(Mismatch), Some(Terminal), Some(Transition)}
            && (o.error == Some(NotFound) <==> jobId !in t.jobs)
            && (o.error == Some(Mismatch) <==> jobId in t.jobs && !Fits(t, jobId, m))
            && (Fits(t, jobId, m) ==>
                  var job := t.jobs[jobId];
                  && (o.error == Some(Transition) <==> job.status.Pending?)
                  && (o.error == Some(Terminal) <==>
                        || job.status.Failed? || job.status.Canceled?
                        || (job.status.Completed? && job.completedId != Some(m.id))))
  {
    hide Recorded, Matches, WithFiles;
    RecordedKeepsInv(t, digested, now);
  }

  lemma RecordedKeepsJobs(t: Tables, m: Manifest, now: string)
    requires Recorded(t, m, now).Some?
    ensures Recorded(t, m, now).value.jobs == t.jobs
  {
  }

  lemma FollowsItself(t: Tables, ids: set<string>)
    ensures Follows(t, t) && OnlyChanges(t, t, ids)
  {
  }

  lemma DigestedFills(m: Manifest, disk: Disk)
    requires Digested(m, disk).Some?
    ensures Fills(Digested(m, disk).value, m)
  {
  }

  lemma ExpectedPathsRecorded(expected: Expected, m: Manifest, digested: Manifest, rows: map<FileKey, FileRow>)
    requires Matches(expected, m) && Fills(digested, m)
    requires forall i :: 0 <= i < |digested.files| ==> HasRow(rows, digested.id, digested.files[i].path)
    ensures forall i :: 0 <= i < |expected.files| ==> HasRow(rows, m.id, expected.files[i].path)
  {
    forall i | 0 <= i < |expected.files|
      ensures HasRow(rows, m.id, expected.files[i].path)
    {
      var p := expected.files[i].path;
      assert FileMatches(ByPath(m.files), expected.files[i]);
      var k :| 0 <= k < |m.files| && m.files[k].path == p;
      assert digested.files[k].path == p;
    }
  }

  lemma InterruptedKeepsInv(t: Tables, kind: Kind, now: string)
    requires Inv(t)
    ensures Inv(Interrupted(t, kind, now)) && Follows(t, Interrupted(t, kind, now))
  {
    hide UniquePaths, HasRow;
    var u := Interrupted(t, kind, now);
    forall id | id in t.jobs
      ensures JobOk(u, u.jobs[id]) && JobFollows(t.jobs[id], u.jobs[id])
    {
      assert JobOk(t, t.jobs[id]);
    }
  }

  lemma InterruptedStopsRunning(t: Tables, kind: Kind, now: string)
    ensures var u := Interrupted(t, kind, now);
            && NoneRunning(u, kind)
            && WithStatus(u, kind, Recoverable) == WithStatus(t, kind, Recoverable) + WithStatus(t, kind, Running)
            && OnlyChanges(t, u, WithStatus(t, kind, Running))
  {
  }

  lemma RowKeepsInv(t: Tables, id: string, row: Job)
    requires Inv(t) && JobOk(t, row) && (id in t.jobs ==> JobFollows(t.jobs[id], row))
    ensures var u := t.(jobs := t.jobs[id := row]); Inv(u) && Follows(t, u)
  {
    var u := t.(jobs := t.jobs[id := row]);
    forall other | other in u.jobs
      ensures JobOk(u, u.jobs[other])
    {
      assert other != id ==> JobOk(t, t.jobs[other]);
    }
  }
}
