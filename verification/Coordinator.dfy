/** The single-writer persistence coordinator (internal/server/persistence_coordinator.go): what each
    critical section does to its fields, and the class whose methods are those sections.
    The channel `changed` is closed and replaced exactly when attemptCount grows, so a wait on a captured
    channel is a wait for attemptCount to pass the count seen when it was captured. */
module Coordinator {
  import opened Ordering

  datatype Error = PersistenceClosed | SaveFailed | ContextDone

  datatype Coord<S> = Coord(
    pending: Option<S>, pendingRevision: nat, writtenRevision: nat,
    attemptRevision: nat, attemptCount: nat, lastErr: Option<Error>,
    closed: bool, wake: bool, flush: bool, stop: bool, done: bool)

  function NewCoord<S>(): Coord<S> {
    Coord(None, 0, 0, 0, 0, None, false, false, false, false, false)
  }

  function Publish<S>(c: Coord<S>, revision: nat, snapshot: S): Coord<S> {
    if !c.closed && revision > c.pendingRevision then c.(pendingRevision := revision, pending := Some(snapshot)) else c
  }

  /** What writeLatest sets out to save, if anything. */
  function Latest<S>(c: Coord<S>): Option<(nat, S)> {
    if c.pendingRevision <= c.writtenRevision || c.pending.None? then None
    else Some((c.pendingRevision, c.pending.value))
  }

  /** What writeLatest records after the save of one revision. */
  function Record<S>(c: Coord<S>, revision: nat, err: Option<Error>): Coord<S> {
    c.(attemptRevision := revision, attemptCount := c.attemptCount + 1, lastErr := err,
       writtenRevision := if err.None? && revision > c.writtenRevision then revision else c.writtenRevision)
  }

  /** One look of flushTo at the fields: an answer, or a wait. */
  datatype Look = Answer(err: Option<Error>) | Wait

  function LookFor<S>(c: Coord<S>, revision: nat, initial: nat): Look {
    if c.writtenRevision >= revision then Answer(None)
    else if c.attemptRevision >= revision && c.attemptCount > initial then Answer(c.lastErr)
    else Wait
  }

  /** The answer flushTo gives once the worker has gone. */
  function AnswerWhenDone<S>(c: Coord<S>, revision: nat): Option<Error> {
    if c.writtenRevision >= revision then None
    else if c.attemptRevision < revision && c.lastErr.None? then Some(PersistenceClosed)
    else c.lastErr
  }

  /** Revisions only move forward, and the last error tells whether the last attempt was written. */
  ghost predicate Ordered<S>(c: Coord<S>) {
    && c.writtenRevision <= c.attemptRevision <= c.pendingRevision
    && (c.lastErr.None? <==> c.writtenRevision == c.attemptRevision)
    && (c.pending.None? <==> c.pendingRevision == 0)
  }

  /** flushTo answers nil exactly for a revision that has been saved; and once the worker has gone, with the
      error of the last attempt, or that the coordinator is closed when that attempt succeeded. */
  lemma NilMeansWritten<S>(c: Coord<S>, revision: nat, initial: nat)
    requires Ordered(c)
    ensures LookFor(c, revision, initial) == Answer(None) <==> c.writtenRevision >= revision
    ensures AnswerWhenDone(c, revision) == None <==> c.writtenRevision >= revision
    ensures c.writtenRevision < revision ==>
      AnswerWhenDone(c, revision) == if c.lastErr.Some? then c.lastErr else Some(PersistenceClosed)
  {
  }

  /** A write begun from an ordered state and recorded over any number of publications stays ordered,
      and only a larger revision can replace the written one. */
  lemma RecordKeepsOrdered<S>(began: Coord<S>, c: Coord<S>, err: Option<Error>)
    requires Ordered(began) && Latest(began).Some? && Ordered(c)
    requires began.(pending := c.pending, pendingRevision := c.pendingRevision, closed := c.closed, wake := c.wake,
        flush := c.flush, stop := c.stop) == c
    requires began.pendingRevision <= c.pendingRevision
    ensures var r := Latest(began).value.0;
      && began.writtenRevision < r && began.attemptRevision <= r
      && Ordered(Record(c, r, err))
      && Record(c, r, err).writtenRevision == if err.None? then r else began.writtenRevision
  {
  }

  class PersistenceCoordinator<S> {
    var pending: Option<S>
    var pendingRevision: nat
    var writtenRevision: nat
    var attemptRevision: nat
    var attemptCount: nat
    var lastErr: Option<Error>
    var closed: bool
    /** The one-place channels, and the two that are closed once. */
    var wake: bool
    var flush: bool
    var stop: bool
    var done: bool

    ghost function View(): Coord<S>
      reads this
    {
      Coord(pending, pendingRevision, writtenRevision, attemptRevision, attemptCount, lastErr, closed, wake, flush,
          stop, done)
    }

    constructor ()
      ensures View() == NewCoord() && Ordered(View())
    {
      pending, pendingRevision, writtenRevision, attemptRevision, attemptCount := None, 0, 0, 0, 0;
      lastErr, closed, wake, flush, stop, done := None, false, false, false, false, false;
    }

    method PublishSnapshot(revision: nat, snapshot: S) returns (err: Option<Error>)
      requires Ordered(View())
      modifies this
      ensures Ordered(View()) && writtenRevision == old(writtenRevision)
      ensures err == if old(closed) then Some(PersistenceClosed) else None
      ensures View() == if old(closed) then old(View()) else Publish(old(View()), revision, snapshot).(wake := true)
      ensures !old(closed) ==>
        && wake && pendingRevision == (if revision > old(pendingRevision) then revision else old(pendingRevision))
        && pending == (if revision > old(pendingRevision) then Some(snapshot) else old(pending))
    {
      if closed {
        return Some(PersistenceClosed);
      }
      if revision > pendingRevision {
        pendingRevision, pending := revision, Some(snapshot);
      }
      wake := true;
      return None;
    }

    method BeginWrite() returns (work: Option<(nat, S)>)
      requires Ordered(View())
      ensures work == Latest(View())
      ensures work.Some? <==> writtenRevision < pendingRevision
      ensures work.Some? ==> work.value.0 == pendingRevision && Some(work.value.1) == pending
    {
      var revision := pendingRevision;
      if revision <= writtenRevision || pending.None? {
        return None;
      }
      return Some((revision, pending.value));
    }

    /** Records the outcome of a save and tells whether something newer arrived meanwhile. */
    method EndWrite(revision: nat, err: Option<Error>) returns (newerPending: bool)
      requires Ordered(View()) && writtenRevision < revision && attemptRevision <= revision <= pendingRevision
      modifies this
      ensures View() == Record(old(View()), revision, err) && Ordered(View())
      ensures attemptRevision == revision && attemptCount == old(attemptCount) + 1 && lastErr == err
      ensures writtenRevision == if err.None? then revision else old(writtenRevision)
      ensures newerPending == (pendingRevision > revision)
    {
      attemptRevision, attemptCount, lastErr := revision, attemptCount + 1, err;
      if err.None? && revision > writtenRevision {
        writtenRevision := revision;
      }
      newerPending := pendingRevision > revision;
    }

    method Look(revision: nat, initial: nat) returns (look: Look)
      requires Ordered(View())
      ensures look == LookFor(View(), revision, initial)
      ensures look == Answer(None) <==> writtenRevision >= revision
      ensures look.Answer? && look.err.Some? <==>
        writtenRevision < revision <= attemptRevision && initial < attemptCount
      ensures look.Answer? && look.err.Some? ==> look.err == lastErr
    {
      if writtenRevision >= revision {
        return Answer(None);
      }
      if attemptRevision >= revision && attemptCount > initial {
        return Answer(lastErr);
      }
      return Wait;
    }

    /** The locked part of close; repeating it changes nothing. */
    method Close()
      modifies this
      ensures View() == old(View()).(closed := true, stop := true)
    {
      closed, stop := true, true;
    }
  }
}
