/** How one snapshot replaces another on disk (internal/server/job_persistence.go).
    A file system of three names in one directory. What survives a crash is modelled: an inode's data
    only once it has been fsynced, and the directory as it was at any moment since its last sync.
    Every operation may fail, independently of the others. */
module SaveFile {
  import opened Ordering

  datatype Name = Live | Tmp | Backup

  /** A file holds one complete snapshot, or something that does not parse. */
  datatype FileData<+T> = Torn | Whole(value: T)

  datatype Inode<+T> = Inode(data: FileData<T>, durable: bool)

  type Dir = map<Name, nat>

  /** `versions` are the directory states a crash may leave, the present one included. */
  datatype Fs<T> = Fs(inodes: seq<Inode<T>>, dir: Dir, versions: set<Dir>)

  // ---- File operations; `ok` says whether the operation succeeds ----

  function WithDir<T>(fs: Fs<T>, dir: Dir): Fs<T> {
    fs.(dir := dir, versions := fs.versions + {dir})
  }

  function Unlink<T>(fs: Fs<T>, name: Name, ok: bool): Fs<T> {
    if ok && name in fs.dir then WithDir(fs, fs.dir - {name}) else fs
  }

  /** O_CREATE|O_TRUNC: an existing file is emptied in place. */
  function Create<T>(fs: Fs<T>, name: Name, ok: bool): Fs<T>
    requires name in fs.dir ==> fs.dir[name] < |fs.inodes|
  {
    if !ok then fs
    else if name in fs.dir then fs.(inodes := fs.inodes[fs.dir[name] := Inode(Torn, false)])
    else WithDir(fs.(inodes := fs.inodes + [Inode(Torn, false)]), fs.dir[name := |fs.inodes|])
  }

  /** A write that fails may leave any part of the data behind. */
  function WriteAll<T>(fs: Fs<T>, name: Name, data: FileData<T>, ok: bool): Fs<T>
    requires name in fs.dir && fs.dir[name] < |fs.inodes|
  {
    fs.(inodes := fs.inodes[fs.dir[name] := Inode(if ok then data else Torn, false)])
  }

  function Fsync<T>(fs: Fs<T>, name: Name, ok: bool): Fs<T>
    requires name in fs.dir && fs.dir[name] < |fs.inodes|
  {
    if ok then fs.(inodes := fs.inodes[fs.dir[name] := fs.inodes[fs.dir[name]].(durable := true)]) else fs
  }

  /** A hard link needs a free name. */
  predicate CanLink<T>(fs: Fs<T>, from: Name, to: Name, ok: bool) { ok && from in fs.dir && to !in fs.dir }

  function Link<T>(fs: Fs<T>, from: Name, to: Name, ok: bool): Fs<T> {
    if CanLink(fs, from, to, ok) then WithDir(fs, fs.dir[to := fs.dir[from]]) else fs
  }

  /** Renaming onto another link of the same file does nothing. */
  function Rename<T>(fs: Fs<T>, from: Name, to: Name, ok: bool): Fs<T> {
    if !ok || from !in fs.dir || (to in fs.dir && fs.dir[to] == fs.dir[from]) then fs
    else WithDir(fs, fs.dir[to := fs.dir[from]] - {from})
  }

  function SyncDir<T>(fs: Fs<T>, ok: bool): Fs<T> {
    if ok then fs.(versions := {fs.dir}) else fs
  }

  // ---- What the live file holds ----

  /** The complete snapshot under the live name: None when there is no file. */
  predicate LiveIs<T(==)>(fs: Fs<T>, dir: Dir, content: Option<T>) {
    match content
    case None => Live !in dir
    case Some(v) => Live in dir && dir[Live] < |fs.inodes| && fs.inodes[dir[Live]].data == Whole(v)
  }

  /** The snapshot under the live name now. */
  function LiveContent<T>(fs: Fs<T>): Option<T> {
    if Live in fs.dir && fs.dir[Live] < |fs.inodes| && fs.inodes[fs.dir[Live]].data.Whole? then
      Some(fs.inodes[fs.dir[Live]].data.value)
    else
      None
  }

  predicate LiveAllowed<T(==)>(fs: Fs<T>, dir: Dir, allowed: set<Option<T>>)
    requires Live in dir ==> dir[Live] < |fs.inodes|
  {
    if Live !in dir then None in allowed
    else var file := fs.inodes[dir[Live]];
      file.durable && file.data.Whole? && Some(file.data.value) in allowed
  }

  /** Whatever directory a crash leaves, the live file is complete, on disk, and one of `allowed`. */
  ghost predicate Safe<T(!new)>(fs: Fs<T>, allowed: set<Option<T>>) {
    && fs.dir in fs.versions
    && (forall d, n :: d in fs.versions && n in d ==> d[n] < |fs.inodes|)
    && (forall d :: d in fs.versions ==> LiveAllowed(fs, d, allowed))
    && (forall d :: d in fs.versions && Live in d && Tmp in d ==> d[Tmp] != d[Live])
    && (Tmp in fs.dir ==> NeverLive(fs, fs.dir[Tmp]))
  }

  ghost predicate NeverLive<T>(fs: Fs<T>, inode: nat) {
    forall d :: d in fs.versions && Live in d ==> d[Live] != inode
  }

  /** The snapshot that a crash leaves under the live name, when this directory survives it. */
  function ContentIn<T>(fs: Fs<T>, dir: Dir): Option<T> {
    if Live in dir && dir[Live] < |fs.inodes| && fs.inodes[dir[Live]].durable && fs.inodes[dir[Live]].data.Whole? then
      Some(fs.inodes[dir[Live]].data.value)
    else
      None
  }

  /** Everything that a crash may leave there, and nothing else. */
  ghost function Left<T(!new)>(fs: Fs<T>): set<Option<T>> {
    set d | d in fs.versions :: ContentIn(fs, d)
  }

  /** Safe for exactly what a crash may leave. */
  ghost predicate Sound<T(!new)>(fs: Fs<T>) {
    Safe(fs, Left(fs))
  }

  lemma SafeIsSound<T(!new)>(fs: Fs<T>, allowed: set<Option<T>>)
    requires Safe(fs, allowed)
    ensures Sound(fs) && Left(fs) <= allowed
    ensures LiveContent(fs) in Left(fs) && LiveIs(fs, fs.dir, LiveContent(fs))
  {
    assert ContentIn(fs, fs.dir) == LiveContent(fs);
  }

  /** The disk as the next process finds it: some surviving directory, unsynced data lost. */
  function Crash<T>(fs: Fs<T>, dir: Dir): Fs<T> {
    var inodes := seq(|fs.inodes|, i requires 0 <= i < |fs.inodes| =>
      if fs.inodes[i].durable then fs.inodes[i] else Inode(Torn, true));
    Fs(inodes, dir, {dir})
  }

  /** A crash at a safe point leaves a safe disk, whose live file is one of the allowed snapshots. */
  lemma CrashKeepsSafe<T(!new)>(fs: Fs<T>, dir: Dir, allowed: set<Option<T>>)
    requires Safe(fs, allowed) && dir in fs.versions
    ensures Safe(Crash(fs, dir), allowed) && Safe(Crash(fs, dir), {LiveContent(Crash(fs, dir))})
    ensures LiveContent(Crash(fs, dir)) in allowed && LiveIs(Crash(fs, dir), dir, LiveContent(Crash(fs, dir)))
    ensures dir == fs.dir ==> LiveContent(Crash(fs, dir)) == LiveContent(fs)
  {
  }

  /** Some directory may survive a crash with which the next process finds this content. */
  ghost predicate CrashMayLeave<T(!new)>(fs: Fs<T>, content: Option<T>) {
    exists d :: d in fs.versions && LiveContent(Crash(fs, d)) == content
  }

  lemma LeftIsExact<T(!new)>(fs: Fs<T>, content: Option<T>)
    ensures content in Left(fs) <==> CrashMayLeave(fs, content)
  {
    forall d | d in fs.versions
      ensures LiveContent(Crash(fs, d)) == ContentIn(fs, d)
    {
    }
  }

  lemma SafeGrows<T(!new)>(fs: Fs<T>, a: set<Option<T>>, b: set<Option<T>>)
    requires Safe(fs, a) && a <= b
    ensures Safe(fs, b)
  {
  }

  // ---- Each operation, where save uses it, keeps the disk safe ----

  lemma SameLive<T(!new)>(fs: Fs<T>, dir: Dir, allowed: set<Option<T>>)
    requires Safe(fs, allowed)
    requires Live in dir <==> Live in fs.dir
    requires Live in dir ==> dir[Live] == fs.dir[Live]
    requires forall n :: n in dir ==> dir[n] < |fs.inodes|
    requires Tmp in dir ==> NeverLive(fs, dir[Tmp])
    ensures Safe(WithDir(fs, dir), allowed)
    ensures Left(WithDir(fs, dir)) == Left(fs)
  {
    assert ContentIn(fs, dir) == ContentIn(fs, fs.dir);
    OneMoreVersion(fs, dir);
  }

  lemma OneMoreVersion<T(!new)>(fs: Fs<T>, dir: Dir)
    requires fs.dir in fs.versions
    ensures Left(WithDir(fs, dir)) == Left(fs) + {ContentIn(fs, dir)}
  {
    var more := WithDir(fs, dir);
    forall d | d in more.versions
      ensures ContentIn(more, d) == ContentIn(fs, d)
    {
    }
    forall c | c in Left(fs)
      ensures c in Left(more)
    {
      var d :| d in fs.versions && ContentIn(fs, d) == c;
      assert d in more.versions;
    }
    assert dir in more.versions;
  }

  /** As long as no surviving directory is read differently, the same is left. */
  lemma SameContents<T(!new)>(fs: Fs<T>, next: Fs<T>)
    requires next.versions == fs.versions
    requires forall d :: d in fs.versions ==> ContentIn(next, d) == ContentIn(fs, d)
    ensures Left(next) == Left(fs)
  {
    forall c | c in Left(fs)
      ensures c in Left(next)
    {
      var d :| d in fs.versions && ContentIn(fs, d) == c;
      assert ContentIn(next, d) == c;
    }
  }

  /** Editing a file that is the live one in no surviving directory. */
  lemma EditElsewhere<T(!new)>(fs: Fs<T>, inode: nat, edited: Inode<T>, allowed: set<Option<T>>)
    requires Safe(fs, allowed) && inode < |fs.inodes|
    requires NeverLive(fs, inode)
    ensures Safe(fs.(inodes := fs.inodes[inode := edited]), allowed)
    ensures Left(fs.(inodes := fs.inodes[inode := edited])) == Left(fs)
  {
    SameContents(fs, fs.(inodes := fs.inodes[inode := edited]));
  }

  lemma NewFile<T(!new)>(fs: Fs<T>, allowed: set<Option<T>>)
    requires Safe(fs, allowed)
    ensures Safe(fs.(inodes := fs.inodes + [Inode(Torn, false)]), allowed)
    ensures NeverLive(fs.(inodes := fs.inodes + [Inode(Torn, false)]), |fs.inodes|)
    ensures Left(fs.(inodes := fs.inodes + [Inode(Torn, false)])) == Left(fs)
  {
    SameContents(fs, fs.(inodes := fs.inodes + [Inode(Torn, false)]));
  }

  lemma CreateIsSafe<T(!new)>(fs: Fs<T>, name: Name, ok: bool, allowed: set<Option<T>>)
    requires Safe(fs, allowed)
    requires name == Tmp || (name == Backup && Backup !in fs.dir)
    ensures Safe(Create(fs, name, ok), allowed)
    ensures ok ==> name in Create(fs, name, ok).dir && NeverLive(Create(fs, name, ok), Create(fs, name, ok).dir[name])
    ensures Left(Create(fs, name, ok)) == Left(fs)
  {
    hide Left;
    if ok {
      if name in fs.dir {
        EditElsewhere(fs, fs.dir[name], Inode(Torn, false), allowed);
      } else {
        NewFile(fs, allowed);
        SameLive(fs.(inodes := fs.inodes + [Inode(Torn, false)]), fs.dir[name := |fs.inodes|], allowed);
      }
    }
  }

  /** Putting a synced, complete file under the live name is the only step that changes what a crash
      can leave there. */
  lemma RenameIsSafe<T(!new)>(fs: Fs<T>, from: Name, ok: bool, v: T, allowed: set<Option<T>>)
    requires Safe(fs, allowed) && from != Live && from in fs.dir
    requires fs.inodes[fs.dir[from]] == Inode(Whole(v), true)
    requires Some(v) in allowed
    requires from == Backup ==> Tmp !in fs.dir
    ensures Safe(Rename(fs, from, Live, ok), allowed)
    ensures ok ==> LiveIs(Rename(fs, from, Live, ok), Rename(fs, from, Live, ok).dir, Some(v))
    ensures Left(Rename(fs, from, Live, ok)) == Left(fs) + (if ok then {Some(v)} else {})
  {
    var next := Rename(fs, from, Live, ok);
    if next != fs {
      OneMoreVersion(fs, next.dir);
    } else if ok {
      assert ContentIn(fs, fs.dir) == Some(v);
    }
  }

  lemma UnlinkLiveIsSafe<T(!new)>(fs: Fs<T>, ok: bool, allowed: set<Option<T>>)
    requires Safe(fs, allowed) && None in allowed
    ensures Safe(Unlink(fs, Live, ok), allowed)
    ensures ok ==> LiveIs(Unlink(fs, Live, ok), Unlink(fs, Live, ok).dir, None)
    ensures Left(Unlink(fs, Live, ok)) == Left(fs) + (if ok then {None} else {})
  {
    var next := Unlink(fs, Live, ok);
    if next != fs {
      OneMoreVersion(fs, next.dir);
    } else if ok {
      assert ContentIn(fs, fs.dir) == None;
    }
  }

  lemma SyncDirIsSafe<T(!new)>(fs: Fs<T>, ok: bool, content: Option<T>, allowed: set<Option<T>>)
    requires Safe(fs, allowed) && LiveIs(fs, fs.dir, content)
    ensures Safe(SyncDir(fs, ok), allowed)
    ensures ok ==> Safe(SyncDir(fs, ok), {content})
    ensures Left(SyncDir(fs, ok)) == if ok then {content} else Left(fs)
  {
    assert ContentIn(SyncDir(fs, ok), fs.dir) == content;
  }

  // ---- save ----

  /** Which of the operations of one save succeed. */
  datatype Faults = Faults(
    marshal: bool,
    removeStaleTmp: bool, openTmp: bool, chmodTmp: bool, writeTmp: bool, syncTmp: bool, closeTmp: bool,
    removeStaleBackup: bool, stat: bool, link: bool,
    openLive: bool, openBackup: bool, copy: bool, syncBackup: bool, closeBackup: bool, removeFailedBackup: bool,
    rename: bool, removeBackup: bool,
    syncDir: bool, rollback: bool, syncRollback: bool,
    removeTmp: bool)

  const ALL_WELL := Faults(
    true, true, true, true, true, true, true, true, true, true, true,
    true, true, true, true, true, true, true, true, true, true, true)

  datatype SaveError =
    | BeforeReplace        // the live name was never touched
    | ReplaceFailed        // the rename itself failed
    | SyncFailed(rolledBack: bool, synced: bool)   // whether the rename was undone, and whether that was synced

  /** The same files are there, apart from the temporary one. */
  predicate SameFiles(a: Dir, b: Dir) {
    (Live in a <==> Live in b) && (Backup in a <==> Backup in b)
  }

  predicate TmpWritten(f: Faults) {
    f.marshal && f.openTmp && f.chmodTmp && f.writeTmp && f.syncTmp && f.closeTmp
  }

  predicate CopySucceeds(f: Faults) {
    f.openLive && f.openBackup && f.copy && f.syncBackup && f.closeBackup
  }

  /** Whether the old file, if there is one, gets a rollback file: by link or by copy, unless a stale
      rollback file stays in the way. */
  predicate BackedUp(f: Faults, dir: Dir) {
    f.stat && (Live in dir ==> (Backup in dir ==> f.removeStaleBackup) && (f.link || CopySucceeds(f)))
  }

  /** What a save answers, as the operations that succeed and the files that are there decide it. */
  function Answer(f: Faults, dir: Dir): Option<SaveError> {
    if !TmpWritten(f) || !BackedUp(f, dir) then Some(BeforeReplace)
    else if !f.rename then Some(ReplaceFailed)
    else if !f.syncDir then Some(SyncFailed(f.rollback, f.syncRollback))
    else None
  }

  /** What a save needs before the rename: a synced temporary file and, for a file that is there, a rollback
      file. */
  predicate Ready(f: Faults, dir: Dir) {
    && f.marshal && f.openTmp && f.chmodTmp && f.writeTmp && f.syncTmp && f.closeTmp && f.stat
    && (Live in dir && Backup in dir ==> f.removeStaleBackup)
    && (Live in dir && !f.link ==> f.openLive && f.openBackup && f.copy && f.syncBackup && f.closeBackup)
  }

  /** Which answer a save gives, by the operations that fail; the clean-up operations play no part. */
  lemma AnswerIs(f: Faults, dir: Dir)
    ensures Answer(f, dir) == None <==> Ready(f, dir) && f.rename && f.syncDir
    ensures Answer(f, dir) == Some(BeforeReplace) <==> !Ready(f, dir)
    ensures Answer(f, dir) == Some(ReplaceFailed) <==> Ready(f, dir) && !f.rename
    ensures forall undone, synced :: Answer(f, dir) == Some(SyncFailed(undone, synced)) <==>
      Ready(f, dir) && f.rename && !f.syncDir && undone == f.rollback && synced == f.syncRollback
  {
  }

  /** Whether a save with this answer got past the rename. */
  predicate Replaced(err: Option<SaveError>) {
    err.None? || err.value.SyncFailed?
  }

  /** Whether the last thing it did to the live name is on disk for good. */
  predicate Settled(err: Option<SaveError>) {
    err.None? || (err.value.SyncFailed? && err.value.synced)
  }

  /** What is live after a save of `v` over `was`. */
  function LiveAfter<K>(was: K, v: K, err: Option<SaveError>): K {
    if Replaced(err) && (err.Some? ==> !err.value.rolledBack) then v else was
  }

  /** What a crash may leave after a save, when it might have left `left` before. */
  function LeftAfter<K(==)>(left: set<K>, was: K, v: K, err: Option<SaveError>): set<K> {
    if Settled(err) then {LiveAfter(was, v, err)}
    else if Replaced(err) then left + {v}
    else left
  }

  /** What a save of `v` promises of the disk states `during` it and `after` it. */
  ghost predicate Promised<T(!new)>(before: Fs<T>, v: T, during: seq<Fs<T>>, after: Fs<T>, err: Option<SaveError>) {
    var was, left := LiveContent(before), Left(before);
    && (forall i :: 0 <= i < |during| ==>
          && Safe(during[i], left + {Some(v)})
          && (LiveIs(during[i], during[i].dir, was) || LiveIs(during[i], during[i].dir, Some(v))))
    && Sound(after)
    && Left(after) == LeftAfter(left, was, Some(v), err)
    && LiveContent(after) == LiveAfter(was, Some(v), err)
  }

  /** What one save must keep true: the contents a crash may leave, and the old and new snapshots. */
  datatype Goal<T(==)> = Goal(start: nat, allowed: set<Option<T>>, was: Option<T>, v: T)

  class Persistence<T(==, !new)> {
    var fs: Fs<T>
    /** Every state the disk has been in, oldest first. */
    ghost var trace: seq<Fs<T>>

    constructor (initial: Fs<T>)
      ensures fs == initial && trace == []
    {
      fs, trace := initial, [];
    }

    /** Every state since the start of this save was safe, and its live file was the old or the new one. */
    ghost predicate SafeSince(g: Goal<T>)
      reads this
    {
      && g.start <= |trace|
      && (forall i :: g.start <= i < |trace| ==>
            && Safe(trace[i], g.allowed)
            && (LiveIs(trace[i], trace[i].dir, g.was) || LiveIs(trace[i], trace[i].dir, Some(g.v))))
    }

    ghost predicate Keeps(g: Goal<T>, live: Option<T>)
      reads this
    {
      SafeSince(g) && Safe(fs, g.allowed) && LiveIs(fs, fs.dir, live) && (live == g.was || live == Some(g.v))
    }

    ghost predicate Holds(name: Name, v: T)
      reads this
    {
      name in fs.dir && fs.dir[name] < |fs.inodes| && fs.inodes[fs.dir[name]] == Inode(Whole(v), true)
    }

    method Do(next: Fs<T>, ghost g: Goal<T>, ghost live: Option<T>)
      requires SafeSince(g) && Safe(next, g.allowed) && LiveIs(next, next.dir, live)
      requires live == g.was || live == Some(g.v)
      modifies this
      ensures fs == next && trace == old(trace) + [next] && Keeps(g, live)
    {
      fs, trace := next, trace + [next];
    }

    /** os.Remove of the temporary or the rollback file. */
    method Remove(name: Name, ok: bool, ghost g: Goal<T>, ghost live: Option<T>)
      requires Keeps(g, live) && name != Live
      modifies this
      ensures old(trace) <= trace && Keeps(g, live)
      ensures fs == Unlink(old(fs), name, ok)
      ensures Left(fs) == Left(old(fs))
    {
      hide Left;
      SameLive(fs, fs.dir - {name}, g.allowed);
      Do(Unlink(fs, name, ok), g, live);
    }

    /** Opens a file for writing under a name other than the live one. */
    method Open(name: Name, ghost g: Goal<T>, ghost live: Option<T>)
      requires Keeps(g, live)
      requires name == Tmp || (name == Backup && Backup !in fs.dir)
      modifies this
      ensures old(trace) <= trace && Keeps(g, live)
      ensures name in fs.dir && fs.dir[name] < |fs.inodes| && NeverLive(fs, fs.dir[name])
      ensures name == Backup ==> fs.dir == old(fs).dir[Backup := |old(fs).inodes|] && old(fs).inodes <= fs.inodes
      ensures name == Tmp ==> SameFiles(old(fs).dir, fs.dir)
      ensures Left(fs) == Left(old(fs))
    {
      hide Left;
      CreateIsSafe(fs, name, true, g.allowed);
      Do(Create(fs, name, true), g, live);
    }

    /** Writes and fsyncs the file just opened. */
    method WriteAndSync(name: Name, data: FileData<T>, writeOk: bool, syncOk: bool, ghost g: Goal<T>,
                        ghost live: Option<T>)
      returns (ok: bool)
      requires Keeps(g, live) && name in fs.dir && fs.dir[name] < |fs.inodes| && NeverLive(fs, fs.dir[name])
      modifies this
      ensures old(trace) <= trace && Keeps(g, live)
      ensures ok == (writeOk && syncOk) && fs.dir == old(fs).dir && |fs.inodes| == |old(fs).inodes|
      ensures ok ==> fs.inodes == old(fs).inodes[fs.dir[name] := Inode(data, true)]
      ensures Left(fs) == Left(old(fs))
    {
      hide Left;
      EditElsewhere(fs, fs.dir[name], Inode(if writeOk then data else Torn, false), g.allowed);
      Do(WriteAll(fs, name, data, writeOk), g, live);
      if !writeOk {
        return false;
      }
      EditElsewhere(fs, fs.dir[name], Inode(data, true), g.allowed);
      Do(Fsync(fs, name, syncOk), g, live);
      ok := syncOk;
    }

    /** The temporary file just opened: restricted, written, synced and closed. */
    method FillTmp(v: T, f: Faults, ghost g: Goal<T>) returns (ok: bool)
      requires Keeps(g, g.was) && g.v == v
      requires Tmp in fs.dir && fs.dir[Tmp] < |fs.inodes| && NeverLive(fs, fs.dir[Tmp])
      modifies this
      ensures old(trace) <= trace && Keeps(g, g.was) && fs.dir == old(fs).dir
      ensures ok == (f.chmodTmp && f.writeTmp && f.syncTmp && f.closeTmp) && (ok ==> Holds(Tmp, g.v))
      ensures Left(fs) == Left(old(fs))
    {
      hide Safe, SafeSince, Left;
      if !f.chmodTmp {
        return false;
      }
      ok := WriteAndSync(Tmp, Whole(v), f.writeTmp, f.syncTmp, g, g.was);
      ok := ok && f.closeTmp;
    }

    /** The temporary file, created afresh, and removed again when anything after that fails. */
    method WriteTmp(v: T, f: Faults, ghost g: Goal<T>) returns (ok: bool)
      requires Keeps(g, g.was) && g.v == v && f.marshal
      modifies this
      ensures old(trace) <= trace && Keeps(g, g.was) && SameFiles(old(fs).dir, fs.dir)
      ensures ok == TmpWritten(f) && (ok ==> Holds(Tmp, g.v))
      ensures Left(fs) == Left(old(fs))
    {
      hide Safe, SafeSince, Keeps, NeverLive, Left;
      Remove(Tmp, f.removeStaleTmp, g, g.was);
      if !f.openTmp {
        return false;
      }
      Open(Tmp, g, g.was);
      ok := FillTmp(v, f, g);
      if !ok {
        Remove(Tmp, f.removeTmp, g, g.was);
      }
    }

    /** createRollbackFile: a hard link to the live file, or a synced copy where links are refused. */
    method CreateRollbackFile(f: Faults, ghost g: Goal<T>) returns (hadPrevious: bool, ok: bool)
      requires Keeps(g, g.was) && Holds(Tmp, g.v)
      modifies this
      ensures old(trace) <= trace && Keeps(g, g.was) && (ok ==> Holds(Tmp, g.v))
      ensures ok ==> if hadPrevious then g.was.Some? && Holds(Backup, g.was.value) else g.was == None
      ensures ok == (f.stat && (Live in old(fs).dir ==> Backup !in old(fs).dir && (f.link || CopySucceeds(f))))
      ensures Left(fs) == Left(old(fs))
    {
      hide Left;
      if !f.stat {
        return false, false;
      }
      if Live !in fs.dir {
        return false, true;
      }
      var linked := LinkLive(f.link, g);
      if linked {
        return true, true;
      }
      ok := CopyLive(f, g);
      hadPrevious := true;
    }

    method LinkLive(linkOk: bool, ghost g: Goal<T>) returns (linked: bool)
      requires Keeps(g, g.was) && Holds(Tmp, g.v) && Live in fs.dir
      modifies this
      ensures old(trace) <= trace && Keeps(g, g.was) && Holds(Tmp, g.v) && Live in fs.dir
      ensures linked ==> g.was.Some? && Holds(Backup, g.was.value)
      ensures linked == (linkOk && Backup !in old(fs).dir) && (!linked ==> fs == old(fs))
      ensures Left(fs) == Left(old(fs))
    {
      hide Left;
      linked := CanLink(fs, Live, Backup, linkOk);
      if linked {
        SameLive(fs, fs.dir[Backup := fs.dir[Live]], g.allowed);
        Do(Link(fs, Live, Backup, linkOk), g, g.was);
      }
    }

    /** copyRollbackFile: never overwrites a rollback file that is still there. */
    method CopyLive(f: Faults, ghost g: Goal<T>) returns (ok: bool)
      requires Keeps(g, g.was) && Holds(Tmp, g.v) && Live in fs.dir
      modifies this
      ensures old(trace) <= trace && Keeps(g, g.was) && (ok ==> Holds(Tmp, g.v))
      ensures ok ==> g.was.Some? && Holds(Backup, g.was.value)
      ensures ok == (Backup !in old(fs).dir && CopySucceeds(f))
      ensures Left(fs) == Left(old(fs))
    {
      hide Safe, SafeSince, Left;
      if !f.openLive || !f.openBackup || Backup in fs.dir {
        return false;
      }
      Open(Backup, g, g.was);
      ok := WriteAndSync(Backup, fs.inodes[fs.dir[Live]].data, f.copy, f.syncBackup, g, g.was);
      ok := ok && f.closeBackup;
      if !ok {
        Remove(Backup, f.removeFailedBackup, g, g.was);
      }
    }

    /** Renames the temporary file over the live one. */
    method Replace(ghost g: Goal<T>)
      requires Keeps(g, g.was) && Holds(Tmp, g.v) && Some(g.v) in g.allowed
      modifies this
      ensures old(trace) <= trace && Keeps(g, Some(g.v)) && Tmp !in fs.dir
      ensures forall x :: old(Holds(Backup, x)) ==> Holds(Backup, x)
      ensures Left(fs) == Left(old(fs)) + {Some(g.v)}
    {
      hide Left;
      RenameIsSafe(fs, Tmp, true, g.v, g.allowed);
      Do(Rename(fs, Tmp, Live, true), g, Some(g.v));
    }

    method SyncDirectory(ok: bool, ghost g: Goal<T>, ghost live: Option<T>)
      requires Keeps(g, live)
      modifies this
      ensures old(trace) <= trace && Keeps(g, live) && fs.dir == old(fs).dir && fs.inodes == old(fs).inodes
      ensures ok ==> Safe(fs, {live})
      ensures Left(fs) == if ok then {live} else Left(old(fs))
    {
      hide Left;
      SyncDirIsSafe(fs, ok, live, g.allowed);
      Do(SyncDir(fs, ok), g, live);
    }

    /** rollbackPersistenceRename: the old file back under the live name, or no file if there was none. */
    method UndoRename(ok: bool, hadPrevious: bool, ghost g: Goal<T>)
      requires Keeps(g, Some(g.v)) && g.was in g.allowed && Tmp !in fs.dir
      requires if hadPrevious then g.was.Some? && Holds(Backup, g.was.value) else g.was == None
      modifies this
      ensures old(trace) <= trace && Keeps(g, if ok then g.was else Some(g.v))
      ensures Left(fs) == Left(old(fs)) + (if ok then {g.was} else {})
    {
      hide Left;
      if hadPrevious {
        RenameIsSafe(fs, Backup, ok, g.was.value, g.allowed);
        Do(Rename(fs, Backup, Live, ok), g, if ok then g.was else Some(g.v));
      } else {
        UnlinkLiveIsSafe(fs, ok, g.allowed);
        Do(Unlink(fs, Live, ok), g, if ok then g.was else Some(g.v));
      }
    }

    /** A goal that allows more is kept as well. */
    lemma KeepsGrows(g: Goal<T>, more: Goal<T>, live: Option<T>)
      requires Keeps(g, live) && more == g.(allowed := more.allowed) && g.allowed <= more.allowed
      ensures Keeps(more, live)
    {
    }

    /** Up to the rename: a synced temporary file and a rollback point, or the disk as good as before. */
    method Prepare(v: T, f: Faults, ghost g: Goal<T>) returns (hadPrevious: bool, ready: bool)
      requires Keeps(g, g.was) && g.v == v
      modifies this
      ensures old(trace) <= trace && Keeps(g, g.was)
      ensures ready == (TmpWritten(f) && BackedUp(f, old(fs).dir))
      ensures Left(fs) == Left(old(fs))
      ensures ready ==> Holds(Tmp, v)
      ensures ready ==> if hadPrevious then g.was.Some? && Holds(Backup, g.was.value) else g.was == None
    {
      hide Safe, SafeSince, Left;
      hadPrevious, ready := false, false;
      if f.marshal {
        ready := WriteTmp(v, f, g);
      }
      if ready {
        Remove(Backup, f.removeStaleBackup, g, g.was);
        hadPrevious, ready := CreateRollbackFile(f, g);
        if !ready {
          Remove(Tmp, f.removeTmp, g, g.was);
        }
      }
    }

    /** From the rename on: the directory is synced, or the rename is undone. */
    method Finish(f: Faults, hadPrevious: bool, ghost g: Goal<T>) returns (err: Option<SaveError>)
      requires Keeps(g, g.was) && Holds(Tmp, g.v) && g.was in g.allowed && Some(g.v) in g.allowed && f.rename
      requires if hadPrevious then g.was.Some? && Holds(Backup, g.was.value) else g.was == None
      requires g.was in Left(fs)
      modifies this
      ensures old(trace) <= trace
      ensures err == if f.syncDir then None else Some(SyncFailed(f.rollback, f.syncRollback))
      ensures Keeps(g, LiveAfter(g.was, Some(g.v), err))
      ensures Left(fs) == LeftAfter(Left(old(fs)), g.was, Some(g.v), err)
    {
      hide Safe, SafeSince, Left;
      Replace(g);
      SyncDirectory(f.syncDir, g, Some(g.v));
      if !f.syncDir {
        UndoRename(f.rollback, hadPrevious, g);
        SyncDirectory(f.syncRollback, g, if f.rollback then g.was else Some(g.v));
        return Some(SyncFailed(f.rollback, f.syncRollback));
      }
      Remove(Backup, f.removeBackup, g, Some(g.v));
      return None;
    }

    /** save: write and sync a temporary file, keep a rollback point, rename over the live file, and
        report success only when the directory has been synced. */
    method Save(v: T, f: Faults) returns (err: Option<SaveError>)
      requires Sound(fs)
      modifies this
      ensures err == Answer(f, old(fs).dir)
      ensures old(trace) <= trace && Promised(old(fs), v, trace[|old(trace)|..], fs, err)
    {
      hide Safe, LiveIs, Left, LiveContent;
      ghost var g := Goal(|trace|, Left(fs), LiveContent(fs), v);
      SafeIsSound(fs, g.allowed);
      var hadPrevious, ready := Prepare(v, f, g);
      ghost var more := g.(allowed := g.allowed + {Some(v)});
      KeepsGrows(g, more, g.was);
      if !ready {
        err := Some(BeforeReplace);
      } else if !f.rename {
        Remove(Backup, f.removeBackup, more, g.was);
        Remove(Tmp, f.removeTmp, more, g.was);
        err := Some(ReplaceFailed);
      } else {
        err := Finish(f, hadPrevious, more);
      }
      SafeIsSound(fs, more.allowed);
      LiveIsContent(fs, LiveAfter(g.was, Some(v), err));
    }
  }

  lemma LiveIsContent<T(!new)>(fs: Fs<T>, content: Option<T>)
    requires LiveIs(fs, fs.dir, content)
    ensures LiveContent(fs) == content
  {
  }
}
