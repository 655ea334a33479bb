/** Which terminal jobs a bounded history drops (internal/server/store_retention.go).
    The rule is stated by rank, independently of the sort that computes it: a terminal job is a
    victim when fewer terminal jobs are older than it than there are jobs in excess. */
module Retention {
  import opened Ordering

  const MAX_RETAINED_TERMINAL_JOBS := 1000

  /** Terminal jobs by ID, with the instant of their last update. */
  type Times = map<string, int>

  predicate Before(t: Times, x: string, y: string)
    requires x in t && y in t
  {
    t[x] < t[y] || (t[x] == t[y] && TextLess(x, y))
  }

  ghost function Older(t: Times, id: string): set<string>
    requires id in t
  {
    set x | x in t && Before(t, x, id)
  }

  function Excess(t: Times): nat {
    if |t| <= MAX_RETAINED_TERMINAL_JOBS then 0 else |t| - MAX_RETAINED_TERMINAL_JOBS
  }

  ghost function RankBelow(t: Times, k: nat): set<string> {
    set x | x in t && |Older(t, x)| < k
  }

  ghost function Victims(t: Times): set<string> {
    RankBelow(t, Excess(t))
  }

  lemma BeforeIsStrictTotal(t: Times, x: string, y: string, z: string)
    requires x in t && y in t && z in t
    ensures !Before(t, x, x)
    ensures Before(t, x, y) && Before(t, y, z) ==> Before(t, x, z)
    ensures Before(t, x, y) || Before(t, y, x) || x == y
  {
    TextLessIrreflexive(x);
    TextLessTotal(x, y);
    if TextLess(x, y) && TextLess(y, z) {
      TextLessTransitive(x, y, z);
    }
  }

  /** An older job has strictly fewer elders. */
  lemma OlderIsMonotone(t: Times, x: string, y: string)
    requires x in t && y in t && Before(t, x, y)
    ensures Older(t, x) < Older(t, y)
    ensures |Older(t, x)| < |Older(t, y)|
  {
    forall e | e in Older(t, x) ensures e in Older(t, y) {
      BeforeIsStrictTotal(t, e, x, y);
    }
    BeforeIsStrictTotal(t, x, x, x);
    assert x in Older(t, y) && x !in Older(t, x);
    assert |Older(t, y) - Older(t, x)| == |Older(t, y)| - |Older(t, x)|;
    assert Older(t, y) - Older(t, x) != {};
  }

  /** A non-empty history has a newest job. */
  lemma {:induction false} NewestExists(t: Times, s: set<string>) returns (m: string)
    requires s != {} && s <= t.Keys
    ensures m in s
    ensures forall x :: x in s && x != m ==> Before(t, x, m)
    decreases |s|
  {
    var a :| a in s;
    if s == {a} {
      m := a;
    } else {
      var b := NewestExists(t, s - {a});
      BeforeIsStrictTotal(t, a, b, b);
      m := if Before(t, a, b) then b else a;
      forall x | x in s && x != m ensures Before(t, x, m) {
        if m == a && x != b {
          BeforeIsStrictTotal(t, x, b, a);
        }
        BeforeIsStrictTotal(t, b, a, a);
      }
    }
  }

  /** Exactly k jobs have fewer than k elders: the order leaves no ties and no gaps. */
  lemma {:induction false} RanksAreDense(t: Times, k: nat)
    requires k <= |t|
    ensures |RankBelow(t, k)| == k
    decreases |t|
  {
    if |t| == 0 {
    } else {
      assert |t.Keys| == |t|;
      var m := NewestExists(t, t.Keys);
      var rest := t - {m};
      assert rest.Keys == t.Keys - {m};
      assert |rest| == |t| - 1 by { assert |rest| == |rest.Keys|; }
      BeforeIsStrictTotal(t, m, m, m);
      forall x | x in rest ensures Older(t, x) == Older(rest, x) && |Older(t, x)| < |t| - 1 {
        assert Before(t, x, m);
        BeforeIsStrictTotal(t, m, x, m);
        assert Older(t, x) == Older(rest, x);
        BeforeIsStrictTotal(t, x, x, x);
        assert x !in Older(t, x) && Older(t, x) <= rest.Keys - {x};
        SubsetSize(Older(t, x), rest.Keys - {x});
      }
      assert Older(t, m) == rest.Keys;
      if k == |t| {
        assert RankBelow(t, k) == t.Keys;
      } else {
        RanksAreDense(rest, k);
        assert RankBelow(t, k) == RankBelow(rest, k);
      }
    }
  }

  lemma {:induction false} SubsetSize<T>(a: set<T>, b: set<T>)
    requires a <= b
    ensures |a| <= |b|
  {
    if a != {} {
      var x :| x in a;
      SubsetSize(a - {x}, b - {x});
    }
  }

  /** Pruning drops exactly the excess, and every dropped job is older than every kept one. */
  lemma VictimsAreTheOldest(t: Times)
    ensures Victims(t) <= t.Keys
    ensures |Victims(t)| == Excess(t)
    ensures |t.Keys - Victims(t)| == |t| - Excess(t) <= MAX_RETAINED_TERMINAL_JOBS
    ensures forall v, k :: v in Victims(t) && k in t && k !in Victims(t) ==> Before(t, v, k)
  {
    RanksAreDense(t, Excess(t));
    assert Victims(t) <= t.Keys;
    assert |t.Keys - Victims(t)| == |t.Keys| - |Victims(t)|;
    forall v, k | v in Victims(t) && k in t && k !in Victims(t) ensures Before(t, v, k) {
      BeforeIsStrictTotal(t, v, k, k);
      if Before(t, k, v) {
        OlderIsMonotone(t, k, v);
      }
    }
  }

  /** With one job in excess, the victim is the oldest, so a job survives exactly when some
      other terminal job is older. */
  lemma SurvivesIffNotOldest(t: Times, id: string)
    requires id in t && Excess(t) <= 1
    ensures id in Victims(t) <==> Excess(t) == 1 && Older(t, id) == {}
  {
  }

  /** The library sort of the IDs puts the job with i elders at index i. */
  lemma SortedIndexIsRank(t: Times, s: seq<string>)
    requires forall x :: x in s <==> x in t
    requires forall i, j :: 0 <= i < j < |s| ==> Before(t, s[i], s[j])
    ensures forall i :: 0 <= i < |s| ==> Older(t, s[i]) == Elements(s[..i]) && |Older(t, s[i])| == i
    ensures |s| == |t|
  {
    DistinctSize(t, s);
    assert Elements(s) == t.Keys;
    forall i | 0 <= i < |s|
      ensures Older(t, s[i]) == Elements(s[..i]) && |Older(t, s[i])| == i
    {
      forall x | x in t ensures x in Older(t, s[i]) <==> x in Elements(s[..i]) {
        var j :| 0 <= j < |s| && s[j] == x;
        BeforeIsStrictTotal(t, s[i], s[j], s[i]);
        BeforeIsStrictTotal(t, x, x, x);
        if x in Elements(s[..i]) {
          var j' :| 0 <= j' < i && s[j'] == x;
        }
      }
      DistinctSize(t, s[..i]);
    }
  }

  ghost function Elements<T>(s: seq<T>): set<T> { set x | x in s }

  lemma {:induction false} DistinctSize(t: Times, s: seq<string>)
    requires forall x :: x in s ==> x in t
    requires forall i, j :: 0 <= i < j < |s| ==> Before(t, s[i], s[j])
    ensures |Elements(s)| == |s|
  {
    if s != [] {
      var last := |s| - 1;
      DistinctSize(t, s[..last]);
      if s[last] in s[..last] {
        BeforeIsStrictTotal(t, s[last], s[last], s[last]);
      }
      assert Elements(s) == Elements(s[..last]) + {s[last]};
    }
  }

  /** sort.Slice over the terminal jobs, oldest first. */
  function OldestFirst(t: Times, ids: seq<string>): (s: seq<string>)
    requires forall x :: x in ids ==> x in t
    ensures multiset(s) == multiset(ids)
  {
    Sort(ids, LessIn(t))
  }

  /** Before, made total over all strings so that it can be passed to the sort. */
  function LessIn(t: Times): (string, string) -> bool {
    (x, y) => if x in t && y in t then Before(t, x, y) else if x in t then true
              else if y in t then false else TextLess(x, y)
  }

  lemma LessInIsStrict(t: Times)
    ensures StrictOrder(LessIn(t))
  {
    var less := LessIn(t);
    forall x, y, z
      ensures !less(x, x)
      ensures less(x, y) && less(y, z) ==> less(x, z)
      ensures less(x, y) || less(y, x) || x == y
    {
      TextLessIrreflexive(x);
      TextLessTotal(x, y);
      if TextLess(x, y) && TextLess(y, z) {
        TextLessTransitive(x, y, z);
      }
    }
  }

  lemma OldestFirstSorts(t: Times, ids: seq<string>)
    requires forall x :: x in ids ==> x in t
    requires forall i, j :: 0 <= i < j < |ids| ==> ids[i] != ids[j]
    ensures var s := OldestFirst(t, ids);
      && |s| == |ids|
      && (forall x :: x in s <==> x in ids)
      && (forall i, j :: 0 <= i < j < |s| ==> Before(t, s[i], s[j]))
  {
    var s := OldestFirst(t, ids);
    LessInIsStrict(t);
    SortSorts(ids, LessIn(t));
    assert |multiset(s)| == |multiset(ids)|;
    forall x ensures x in s <==> x in ids {
      assert x in multiset(s) <==> x in multiset(ids);
    }
    DistinctInMultiset(ids);
    forall i, j | 0 <= i < j < |s| ensures Before(t, s[i], s[j]) {
      assert s[i] in ids && s[j] in ids;
      if s[i] == s[j] {
        TwiceInMultiset(s, i, j);
      }
      BeforeIsStrictTotal(t, s[i], s[j], s[i]);
      assert !LessIn(t)(s[j], s[i]);
    }
  }

  lemma {:induction false} DistinctInMultiset<T>(s: seq<T>)
    requires forall i, j :: 0 <= i < j < |s| ==> s[i] != s[j]
    ensures forall x :: multiset(s)[x] <= 1
  {
    if s != [] {
      var last := |s| - 1;
      DistinctInMultiset(s[..last]);
      assert s == s[..last] + [s[last]];
      assert s[last] !in s[..last];
    }
  }

  lemma TwiceInMultiset<T>(s: seq<T>, i: nat, j: nat)
    requires i < j < |s| && s[i] == s[j]
    ensures multiset(s)[s[i]] >= 2
  {
    assert s == s[..i] + [s[i]] + s[i + 1..j] + [s[j]] + s[j + 1..];
  }
}
