/** Resume points (internal/library/playback.go:23-82).

    `Upsert` is the conditional insert-or-update. The reference is `Summary`: the largest position
    and duration among exactly the checkpoints that carry the greatest timestamp, whatever order
    they were delivered in. */
module Playback {
  import opened Ordering
  import opened DatabaseTime

  datatype Float = NaN | Infinite(negative: bool) | Finite(value: real)

  datatype Checkpoint = Checkpoint(
    artifactId: string, position: Float, duration: Float, completed: bool, playedAt: Option<Instant>)

  datatype Row = Row(position: real, duration: real, completed: bool, playedAt: string, updatedAt: string)

  datatype Error =
    | IdRequired | InvalidSeconds | PositionExceedsDuration | TimeRequired | TimeInFuture
    | RecordFailed         // the statement failed, or no such artifact

  predicate Invalid(f: Float) { !f.Finite? || f.value < 0.0 }

  predicate Seconds(f: Float) { f.Finite? && 0.0 <= f.value }

  /** What a checkpoint has to be: a time not in the future, and a position within the duration, if any. */
  ghost predicate Acceptable(c: Checkpoint, limit: Instant) {
    && c.artifactId != "" && Seconds(c.position) && Seconds(c.duration)
    && (c.duration.value == 0.0 || c.position.value <= c.duration.value)
    && c.playedAt.Some? && !Before(limit, c.playedAt.value)
  }

  /** `limit` is the clock plus the tolerance of five minutes. */
  ghost function Refused(c: Checkpoint, limit: Instant): Option<Error> {
    if c.artifactId == "" then Some(IdRequired)
    else if Invalid(c.position) || Invalid(c.duration) then Some(InvalidSeconds)
    else if c.duration.value > 0.0 && c.position.value > c.duration.value then Some(PositionExceedsDuration)
    else if c.playedAt.None? then Some(TimeRequired)
    else if Before(limit, c.playedAt.value) then Some(TimeInFuture)
    else None
  }

  /** A checkpoint that passed the checks, with its timestamp as it is stored. */
  datatype Point = Point(position: real, duration: real, completed: bool, playedAt: string)

  predicate ValidPoint(p: Point) {
    0.0 <= p.position && 0.0 <= p.duration && (p.duration == 0.0 || p.position <= p.duration)
  }

  function Max(a: real, b: real): real { if a >= b then a else b }

  /** The duration kept beside a position: none when it is shorter than the position. */
  function Settled(position: real, duration: real): real {
    if duration == 0.0 || position <= duration then duration else 0.0
  }

  /** INSERT ... ON CONFLICT DO UPDATE ... WHERE. */
  function Upsert(stored: Option<Row>, p: Point, now: string): Row {
    match stored
    case None => Row(p.position, p.duration, p.completed, p.playedAt, now)
    case Some(row) =>
      if TextLess(p.playedAt, row.playedAt) then row
      else if p.playedAt == row.playedAt then
        Row(Max(row.position, p.position),
            Settled(Max(row.position, p.position), Max(row.duration, p.duration)),
            row.completed || p.completed, p.playedAt, now)
      else
        Row(p.position, p.duration, row.completed || p.completed, p.playedAt, now)
  }

  class Library {
    /** The IDs of the artifacts table, which the playback table refers to. */
    const artifacts: set<string>
    var playback: map<string, Row>

    ghost predicate Valid()
      reads this
    {
      playback.Keys <= artifacts
    }

    ghost function StoredFor(artifactId: string): Option<Row>
      reads this
    {
      if artifactId in playback then Some(playback[artifactId]) else None
    }

    constructor (artifacts: set<string>)
      ensures Valid() && this.artifacts == artifacts && playback == map[]
    {
      this.artifacts, playback := artifacts, map[];
    }

    static method Check(c: Checkpoint, limit: Instant) returns (error: Option<Error>)
      ensures error == Refused(c, limit)
      ensures error == None <==> Acceptable(c, limit)
      ensures error == Some(IdRequired) <==> c.artifactId == ""
      ensures error == Some(InvalidSeconds) ==> !(Seconds(c.position) && Seconds(c.duration))
      ensures error == Some(PositionExceedsDuration) ==> 0.0 < c.duration.value < c.position.value
      ensures error == Some(TimeRequired) ==> c.playedAt == None
      ensures error == Some(TimeInFuture) ==> Before(limit, c.playedAt.value)
      ensures error != Some(RecordFailed)
    {
      if c.artifactId == "" {
        return Some(IdRequired);
      }
      if Invalid(c.position) || Invalid(c.duration) {
        return Some(InvalidSeconds);
      }
      if c.duration.value > 0.0 && c.position.value > c.duration.value {
        return Some(PositionExceedsDuration);
      }
      if c.playedAt.None? {
        return Some(TimeRequired);
      }
      FieldsBeforeIsBefore(limit, c.playedAt.value);
      if FieldsBefore(limit, c.playedAt.value) {
        return Some(TimeInFuture);
      }
      return None;
    }

    /** The statement: inserts the row, or updates it column by column where the new time is not older. */
    method Execute(artifactId: string, p: Point, now: string)
      requires Valid() && artifactId in artifacts
      modifies `playback
      ensures Valid() && playback == old(playback)[artifactId := Upsert(old(StoredFor(artifactId)), p, now)]
      ensures if artifactId in old(playback) && TextLess(p.playedAt, old(playback)[artifactId].playedAt)
              then playback == old(playback)
              else playback[artifactId].playedAt == p.playedAt && playback[artifactId].updatedAt == now
    {
      var row := Row(p.position, p.duration, p.completed, p.playedAt, now);
      if artifactId in playback {
        var stored := playback[artifactId];
        if TextLess(p.playedAt, stored.playedAt) {
          assert playback == playback[artifactId := stored];
          return;
        }
        if p.playedAt == stored.playedAt {
          var position := if stored.position >= row.position then stored.position else row.position;
          var duration := if stored.duration >= row.duration then stored.duration else row.duration;
          if duration != 0.0 && position > duration {
            duration := 0.0;
          }
          row := row.(position := position, duration := duration);
        }
        row := row.(completed := stored.completed || row.completed);
      }
      playback := playback[artifactId := row];
    }

    /** `executes` says whether the database carries out the statement. */
    method RecordPlayback(c: Checkpoint, limit: Instant, now: string, executes: bool) returns (error: Option<Error>)
      requires Valid()
      modifies `playback
      ensures Valid()
      ensures error ==
        if Refused(c, limit).Some? then Refused(c, limit)
        else if executes && c.artifactId in artifacts then None
        else Some(RecordFailed)
      ensures error == None <==> Acceptable(c, limit) && executes && c.artifactId in artifacts
      ensures error.Some? ==> playback == old(playback)
      ensures error.None? ==>
        var p := Point(c.position.value, c.duration.value, c.completed, Format(c.playedAt.value));
        && ValidPoint(p)
        && playback == old(playback)[c.artifactId := Upsert(old(StoredFor(c.artifactId)), p, now)]
    {
      hide Upsert;
      error := Check(c, limit);
      if error.Some? {
        return;
      }
      if !executes || c.artifactId !in artifacts {
        return Some(RecordFailed);
      }
      var p := Point(c.position.value, c.duration.value, c.completed, Format(c.playedAt.value));
      Execute(c.artifactId, p, now);
    }
  }

  // ---------------------------------------------------------------- any delivery order

  /** What is stored after the checkpoints of one artifact arrived in this order. */
  function Stored(points: seq<Point>, now: string): Option<Row> {
    if points == [] then None
    else Some(Upsert(Stored(points[..|points| - 1], now), points[|points| - 1], now))
  }

  /** The greatest timestamp of any point. */
  ghost predicate IsLatest(points: seq<Point>, t: string) {
    && (exists i :: 0 <= i < |points| && points[i].playedAt == t)
    && (forall i :: 0 <= i < |points| ==> !TextLess(t, points[i].playedAt))
  }

  /** The largest of a quantity over the points with timestamp `t`, or zero. */
  function Largest(points: seq<Point>, t: string, f: Point -> real): (x: real)
    ensures forall i :: 0 <= i < |points| && points[i].playedAt == t ==> f(points[i]) <= x
    ensures x == 0.0 || exists i :: 0 <= i < |points| && points[i].playedAt == t && f(points[i]) == x
  {
    if points == [] then 0.0
    else
      var init, last := points[..|points| - 1], points[|points| - 1];
      var x := Largest(init, t, f);
      assert forall i :: 0 <= i < |init| ==> init[i] == points[i];
      assert points[|points| - 1] == last;
      if last.playedAt == t then Max(x, f(last)) else x
  }

  function PositionOf(p: Point): real { p.position }

  function DurationOf(p: Point): real { p.duration }

  ghost predicate AllValid(points: seq<Point>) {
    forall i :: 0 <= i < |points| ==> ValidPoint(points[i])
  }

  /** No point carries a timestamp later than all of them. */
  lemma NoneLater(points: seq<Point>, latest: string, t: string, f: Point -> real)
    requires IsLatest(points, latest) && TextLess(latest, t)
    ensures Largest(points, t, f) == 0.0
  {
  }

  lemma LatestGrows(points: seq<Point>, latest: string)
    requires points != [] && (|points| == 1 || IsLatest(points[..|points| - 1], latest))
    ensures var last := points[|points| - 1].playedAt;
            IsLatest(points, if |points| > 1 && TextLess(last, latest) then latest else last)
  {
    var init, last := points[..|points| - 1], points[|points| - 1].playedAt;
    TextLessIrreflexive(last);
    assert points[|points| - 1].playedAt == last;
    if |points| > 1 {
      TextLessTotal(last, latest);
      TextLessAsymmetric(last, latest);
      var k :| 0 <= k < |init| && init[k].playedAt == latest;
      assert points[k].playedAt == latest;
      forall i | 0 <= i < |points| - 1
        ensures points[i] == init[i]
        ensures !TextLess(last, latest) ==> !TextLess(last, points[i].playedAt)
      {
        if !TextLess(last, latest) && TextLess(last, points[i].playedAt) && last != latest {
          TextLessTransitive(latest, last, points[i].playedAt);
        }
      }
    }
  }

  /** Merging one more point of the same time into a settled pair. */
  lemma SettledMerges(p: real, d: real, q: real, e: real)
    requires 0.0 <= p && 0.0 <= d && 0.0 <= q && 0.0 <= e && (e == 0.0 || q <= e)
    ensures Settled(Max(p, q), Max(Settled(p, d), e)) == Settled(Max(p, q), Max(d, e))
  {
  }

  /** What an upsert makes of a stored point and another of the same time. */
  function Merge(a: Point, b: Point): Point {
    Point(Max(a.position, b.position), Settled(Max(a.position, b.position), Max(a.duration, b.duration)),
          a.completed || b.completed, a.playedAt)
  }

  lemma UpsertMerges(a: Point, b: Point, now: string)
    requires a.playedAt == b.playedAt
    ensures var m := Merge(a, b);
            Upsert(Some(Row(a.position, a.duration, a.completed, a.playedAt, now)), b, now)
            == Row(m.position, m.duration, m.completed, m.playedAt, now)
  {
    TextLessIrreflexive(a.playedAt);
  }

  lemma MergeIsAssociative(a: Point, b: Point, c: Point)
    requires ValidPoint(a) && ValidPoint(b) && ValidPoint(c)
    ensures Merge(Merge(a, b), c) == Merge(a, Merge(b, c))
  {
    SettledMerges(Max(a.position, b.position), Max(a.duration, b.duration), c.position, c.duration);
    SettledMerges(Max(b.position, c.position), Max(b.duration, c.duration), a.position, a.duration);
    hide Settled;
    assert Max(Max(a.position, b.position), c.position) == Max(a.position, Max(b.position, c.position));
    assert Max(Max(a.duration, b.duration), c.duration) == Max(a.duration, Max(b.duration, c.duration));
    assert forall x, y :: Max(x, y) == Max(y, x);
  }

  /** The merge of equal times is what the upsert does, keeps points valid, and neither grouping nor
      order matters to it. */
  lemma MergeIsAssociativeAndCommutative(a: Point, b: Point, c: Point, now: string)
    requires ValidPoint(a) && ValidPoint(b) && ValidPoint(c) && a.playedAt == b.playedAt == c.playedAt
    ensures Merge(a, b) == Merge(b, a) && ValidPoint(Merge(a, b))
    ensures Merge(Merge(a, b), c) == Merge(a, Merge(b, c))
    ensures var m := Merge(a, b);
            Upsert(Some(Row(a.position, a.duration, a.completed, a.playedAt, now)), b, now)
            == Row(m.position, m.duration, m.completed, m.playedAt, now)
  {
    hide Upsert;
    UpsertMerges(a, b, now);
    MergeIsAssociative(a, b, c);
  }

  lemma {:induction false} StoredIsTheLatestSettled(points: seq<Point>, now: string)
    requires points != [] && AllValid(points)
    ensures var row := Stored(points, now).value;
            var p, d := Largest(points, row.playedAt, PositionOf), Largest(points, row.playedAt, DurationOf);
            && IsLatest(points, row.playedAt)
            && row.position == p && row.duration == Settled(p, d)
            && 0.0 <= p && 0.0 <= d
    decreases |points|
  {
    var init, last := points[..|points| - 1], points[|points| - 1];
    if |points| == 1 {
      LatestGrows(points, "");
      assert Stored(init, now) == None;
      assert Largest(init, last.playedAt, PositionOf) == 0.0 && Largest(init, last.playedAt, DurationOf) == 0.0;
    } else {
      StoredIsTheLatestSettled(init, now);
      var row := Stored(init, now).value;
      LatestGrows(points, row.playedAt);
      TextLessTotal(row.playedAt, last.playedAt);
      TextLessIrreflexive(row.playedAt);
      if TextLess(row.playedAt, last.playedAt) {
        NoneLater(init, row.playedAt, last.playedAt, PositionOf);
        NoneLater(init, row.playedAt, last.playedAt, DurationOf);
      }
      var p, d := Largest(init, row.playedAt, PositionOf), Largest(init, row.playedAt, DurationOf);
      assert ValidPoint(last);
      SettledMerges(p, d, last.position, last.duration);
    }
  }

  /** Whatever the delivery order, what is stored is the merge of exactly the points that carry the greatest
      timestamp: their largest position, and their largest duration unless that is shorter. */
  lemma StoredIsTheLatestMerged(points: seq<Point>, now: string)
    requires points != [] && AllValid(points)
    ensures var row := Stored(points, now).value;
            var p, d := Largest(points, row.playedAt, PositionOf), Largest(points, row.playedAt, DurationOf);
            && IsLatest(points, row.playedAt)
            && row.position == p && row.duration == (if p <= d then d else 0.0)
            && 0.0 <= row.position && (row.duration == 0.0 || row.position <= row.duration)
  {
    hide Stored, Largest, IsLatest;
    StoredIsTheLatestSettled(points, now);
  }

  lemma LatestIsUnique(points: seq<Point>, s: string, t: string)
    requires IsLatest(points, s) && IsLatest(points, t)
    ensures s == t
  {
    TextLessTotal(s, t);
  }

  ghost predicate SameMembers(a: seq<Point>, b: seq<Point>) {
    && (forall i :: 0 <= i < |a| ==> a[i] in b)
    && (forall i :: 0 <= i < |b| ==> b[i] in a)
  }

  lemma LargestOfSubset(a: seq<Point>, b: seq<Point>, t: string, f: Point -> real)
    requires SameMembers(a, b) && AllValid(a) && (f == PositionOf || f == DurationOf)
    ensures Largest(a, t, f) <= Largest(b, t, f)
  {
    if Largest(a, t, f) != 0.0 {
      var i :| 0 <= i < |a| && a[i].playedAt == t && f(a[i]) == Largest(a, t, f);
      assert a[i] in b;
    } else {
      var x := Largest(b, t, f);
      if x != 0.0 {
        var j :| 0 <= j < |b| && b[j].playedAt == t && f(b[j]) == x;
        assert b[j] in a;
      }
    }
  }

  lemma LatestOfSame(a: seq<Point>, b: seq<Point>, t: string)
    requires SameMembers(a, b) && IsLatest(a, t)
    ensures IsLatest(b, t)
  {
    var i :| 0 <= i < |a| && a[i].playedAt == t;
    assert a[i] in b;
    forall j | 0 <= j < |b|
      ensures !TextLess(t, b[j].playedAt)
    {
      assert b[j] in a;
    }
  }

  /** The same checkpoints in any order, repeated or not, store the same resume point. */
  lemma DeliveryOrderDoesNotMatter(a: seq<Point>, b: seq<Point>, now: string, later: string)
    requires a != [] && b != [] && AllValid(a) && SameMembers(a, b)
    ensures var x, y := Stored(a, now).value, Stored(b, later).value;
            x.position == y.position && x.duration == y.duration && x.playedAt == y.playedAt
  {
    forall i | 0 <= i < |b|
      ensures ValidPoint(b[i])
    {
      assert b[i] in a;
    }
    StoredIsTheLatestMerged(a, now);
    StoredIsTheLatestMerged(b, later);
    var t := Stored(a, now).value.playedAt;
    LatestOfSame(a, b, t);
    LatestIsUnique(b, t, Stored(b, later).value.playedAt);
    LargestOfSubset(a, b, t, PositionOf);
    LargestOfSubset(b, a, t, PositionOf);
    LargestOfSubset(a, b, t, DurationOf);
    LargestOfSubset(b, a, t, DurationOf);
  }

  /** Point `i` is completed and, when it arrived, nothing later was stored. */
  ghost predicate Completes(points: seq<Point>, i: nat) {
    i < |points| && points[i].completed && forall j :: 0 <= j < i ==> !TextLess(points[i].playedAt, points[j].playedAt)
  }

  /** The completed flag depends on the order, and exactly so: a point sets it unless a later one
      was already stored. */
  lemma {:induction false} CompletedExactlyWhen(points: seq<Point>, now: string)
    requires points != [] && AllValid(points)
    ensures Stored(points, now).value.completed <==> exists i :: Completes(points, i)
    decreases |points|
  {
    hide Completes, TextLess;
    var init, last := points[..|points| - 1], points[|points| - 1];
    var n := |init|;
    CompletesInPrefix(points);
    if n == 0 {
      assert Stored(init, now) == None;
    } else {
      CompletedExactlyWhen(init, now);
      StoredIsTheLatestMerged(init, now);
      var row := Stored(init, now).value;
      NewestSoFar(init, row.playedAt, last.playedAt);
    }
  }

  const MORNING := Instant(2024, 5, 1, 8, 0, 0, 0)
  const EVENING := Instant(2024, 5, 1, 20, 0, 0, 0)

  /** The same two checkpoints, delivered in one order and in the other, differ in the completed flag. */
  lemma CompletedDependsOnOrder(now: string)
    ensures var early := Point(1.0, 2.0, true, Format(MORNING));
            var late := Point(1.0, 2.0, false, Format(EVENING));
            && ValidPoint(early) && ValidPoint(late)
            && Stored([early, late], now).value.completed && !Stored([late, early], now).value.completed
  {
    hide Format;
    var early, late := Point(1.0, 2.0, true, Format(MORNING)), Point(1.0, 2.0, false, Format(EVENING));
    assert Before(MORNING, EVENING) by {
      assert Fields(MORNING)[3] < Fields(EVENING)[3];
    }
    TextOrderIsTimeOrder(MORNING, EVENING);
    TextLessAsymmetric(early.playedAt, late.playedAt);
    assert [early, late][..1] == [early] && [late, early][..1] == [late];
    assert [early][..0] == [] && [late][..0] == [];
    assert Stored([early], now) == Some(Upsert(None, early, now));
    assert Stored([late], now) == Some(Upsert(None, late, now));
  }

  /** Whether an earlier point completes does not depend on the last one, and the last one completes
      unless something later was there. */
  lemma CompletesInPrefix(points: seq<Point>)
    requires points != []
    ensures var init, last, n := points[..|points| - 1], points[|points| - 1], |points| - 1;
            && (forall i: nat :: i < n ==> (Completes(init, i) <==> Completes(points, i)))
            && (forall i: nat :: i >= n ==> !Completes(init, i))
            && (forall i: nat :: i > n ==> !Completes(points, i))
            && (Completes(points, n) <==>
                  last.completed && !exists j :: 0 <= j < n && TextLess(last.playedAt, init[j].playedAt))
  {
    hide TextLess;
    var init, n := points[..|points| - 1], |points| - 1;
    assert forall j :: 0 <= j < n ==> init[j] == points[j];
    forall i: nat | i < n
      ensures Completes(init, i) <==> Completes(points, i)
    {
      assert init[i] == points[i];
      assert forall j :: 0 <= j < i ==> init[j] == points[j];
    }
  }

  lemma NewestSoFar(points: seq<Point>, latest: string, t: string)
    requires IsLatest(points, latest)
    ensures TextLess(t, latest) <==> exists j :: 0 <= j < |points| && TextLess(t, points[j].playedAt)
  {
    var i :| 0 <= i < |points| && points[i].playedAt == latest;
    if j :| 0 <= j < |points| && TextLess(t, points[j].playedAt) {
      TextLessTotal(points[j].playedAt, latest);
      if points[j].playedAt != latest {
        TextLessTransitive(t, points[j].playedAt, latest);
      }
    }
  }

  /** Once stored, completed stays. */
  lemma CompletedNeverReverts(stored: Row, p: Point, now: string)
    ensures stored.completed ==> Upsert(Some(stored), p, now).completed
    ensures !TextLess(Upsert(Some(stored), p, now).playedAt, stored.playedAt)
  {
    TextLessIrreflexive(stored.playedAt);
  }
}
