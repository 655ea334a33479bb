/** The login limiter: a sliding window per address over a bounded, least-recently-used table
    (internal/server/ratelimiter.go).

    Times are nanoseconds of a clock that does not go back. `History` remembers every grant since
    an address was last evicted or reset, and the main result bounds the grants in any window. */
module RateLimiter {

  const MAX_ENTRIES := 10000

  /** An element of the list; its identity is what `elements` points to. */
  datatype Node = Node(id: nat, ip: string)

  datatype State = State(entries: map<string, seq<int>>, order: seq<Node>, elements: map<string, nat>, next: nat)

  const EMPTY := State(map[], [], map[], 0)

  // ---------------------------------------------------------------- the operations

  /** The list without an element. */
  function Without(order: seq<Node>, id: nat): seq<Node> {
    if order == [] then []
    else if order[0].id == id then order[1..]
    else [order[0]] + Without(order[1..], id)
  }

  /** The timestamps after `cutoff`. */
  function Pruned(ts: seq<int>, cutoff: int): seq<int> {
    if ts == [] then []
    else Pruned(ts[..|ts| - 1], cutoff) + (if ts[|ts| - 1] > cutoff then [ts[|ts| - 1]] else [])
  }

  function Evicted(s: State): State {
    if s.order == [] then s
    else
      var ip := s.order[|s.order| - 1].ip;
      State(s.entries - {ip}, s.order[..|s.order| - 1], s.elements - {ip}, s.next)
  }

  function Added(s: State, ip: string, now: int): State {
    State(s.entries[ip := [now]], [Node(s.next, ip)] + s.order, s.elements[ip := s.next], s.next + 1)
  }

  function Touched(s: State, ip: string): State {
    if ip in s.elements then s.(order := [Node(s.elements[ip], ip)] + Without(s.order, s.elements[ip])) else s
  }

  datatype Verdict = Verdict(state: State, granted: bool)

  function Rule(s: State, ip: string, now: int, limit: int, window: nat): Verdict {
    if ip !in s.entries then
      Verdict(Added(if |s.entries| >= MAX_ENTRIES then Evicted(s) else s, ip, now), true)
    else
      var ts := Pruned(s.entries[ip], now - window);
      var t := Touched(s, ip);
      if |ts| >= limit then Verdict(t.(entries := t.entries[ip := ts]), false)
      else Verdict(t.(entries := t.entries[ip := ts + [now]]), true)
  }

  function Removed(s: State, ip: string): State {
    var order := if ip in s.elements then Without(s.order, s.elements[ip]) else s.order;
    State(s.entries - {ip}, order, s.elements - {ip}, s.next)
  }

  predicate Stale(ts: seq<int>, cutoff: int) { ts == [] || ts[|ts| - 1] < cutoff }

  function StaleIps(s: State, cutoff: int): set<string> {
    set ip | ip in s.entries && Stale(s.entries[ip], cutoff)
  }

  function Keep(order: seq<Node>, gone: set<string>): seq<Node> {
    if order == [] then []
    else if order[0].ip in gone then Keep(order[1..], gone)
    else [order[0]] + Keep(order[1..], gone)
  }

  function RemovedAll(s: State, gone: set<string>): State {
    State(s.entries - gone, Keep(s.order, gone), s.elements - gone, s.next)
  }

  function Cleaned(s: State, now: int, window: nat): State {
    RemovedAll(s, StaleIps(s, now - 2 * window))
  }

  // ---------------------------------------------------------------- the table, the list and the index agree

  ghost predicate Fresh(n: Node, order: seq<Node>) {
    forall m :: m in order ==> m.id != n.id && m.ip != n.ip
  }

  ghost predicate Distinct(order: seq<Node>) {
    order == [] || (Fresh(order[0], order[1..]) && Distinct(order[1..]))
  }

  ghost predicate Indexed(order: seq<Node>, elements: map<string, nat>) {
    && (forall ip :: ip in elements ==> Node(elements[ip], ip) in order)
    && (forall n :: n in order ==> n.ip in elements && elements[n.ip] == n.id)
  }

  /** The same addresses in the map, the index and the list, none of them twice, and not too many. */
  ghost predicate Agree(s: State) {
    && s.entries.Keys == s.elements.Keys
    && Indexed(s.order, s.elements) && Distinct(s.order)
    && (forall n :: n in s.order ==> n.id < s.next)
    && |s.entries| <= MAX_ENTRIES
  }

  /** `seen` says when an address was last asked about: the list is in that order, latest first. */
  ghost predicate Recent(order: seq<Node>, seen: map<string, nat>) {
    order == [] ||
    (&& order[0].ip in seen
     && (forall m :: m in order[1..] ==> m.ip in seen && seen[m.ip] < seen[order[0].ip])
     && Recent(order[1..], seen))
  }

  lemma {:induction false} KeepFilters(order: seq<Node>, gone: set<string>, seen: map<string, nat>)
    ensures forall n :: n in Keep(order, gone) <==> n in order && n.ip !in gone
    ensures Distinct(order) ==> Distinct(Keep(order, gone))
    ensures Recent(order, seen) ==> Recent(Keep(order, gone), seen)
  {
    if order != [] {
      KeepFilters(order[1..], gone, seen);
      assert order == [order[0]] + order[1..];
      if order[0].ip !in gone {
        assert Keep(order, gone)[1..] == Keep(order[1..], gone);
      }
    }
  }

  lemma {:induction false} KeepAll(order: seq<Node>, gone: set<string>)
    requires forall n :: n in order ==> n.ip !in gone
    ensures Keep(order, gone) == order
  {
    if order != [] {
      KeepAll(order[1..], gone);
    }
  }

  /** Removing an element from the list is keeping all addresses but its own. */
  lemma {:induction false} WithoutIsKeep(order: seq<Node>, n: Node)
    requires Distinct(order) && n in order
    ensures Without(order, n.id) == Keep(order, {n.ip})
  {
    var rest := order[1..];
    if order[0] == n {
      KeepAll(rest, {n.ip});
    } else {
      assert n in rest;
      WithoutIsKeep(rest, n);
    }
  }

  lemma {:induction false} LastIsKept(order: seq<Node>)
    requires Distinct(order) && order != []
    ensures order[..|order| - 1] == Keep(order, {order[|order| - 1].ip})
  {
    var last := order[|order| - 1];
    if |order| > 1 {
      var rest := order[1..];
      assert last == rest[|rest| - 1] && last in rest;
      LastIsKept(rest);
      assert order[..|order| - 1] == [order[0]] + rest[..|rest| - 1];
    }
  }

  lemma {:induction false} KeepTwice(order: seq<Node>, a: set<string>, b: set<string>)
    ensures Keep(Keep(order, a), b) == Keep(order, a + b)
  {
    if order != [] {
      KeepTwice(order[1..], a, b);
      if order[0].ip !in a {
        var kept := Keep(order, a);
        assert kept[0] == order[0] && kept[1..] == Keep(order[1..], a);
      }
    }
  }

  lemma {:induction false} ListLength(order: seq<Node>, ips: set<string>)
    requires Distinct(order)
    requires forall n :: n in order ==> n.ip in ips
    requires forall ip :: ip in ips ==> exists n :: n in order && n.ip == ip
    ensures |order| == |ips|
    decreases |order|
  {
    if order != [] {
      var rest, fewer := order[1..], ips - {order[0].ip};
      assert order == [order[0]] + rest;
      forall ip | ip in fewer
        ensures exists n :: n in rest && n.ip == ip
      {
        var n :| n in order && n.ip == ip;
        assert n in rest;
      }
      ListLength(rest, fewer);
    } else {
      assert ips == {};
    }
  }

  /** The list is as long as the table is large. */
  lemma ListCountsEntries(s: State)
    requires Agree(s)
    ensures |s.order| == |s.entries|
  {
    forall ip | ip in s.entries.Keys
      ensures exists n :: n in s.order && n.ip == ip
    {
      assert Node(s.elements[ip], ip) in s.order;
    }
    ListLength(s.order, s.entries.Keys);
    assert |s.entries| == |s.entries.Keys|;
  }

  /** Removals by any route are the same thing: dropping some addresses everywhere. */
  lemma RemovedAllKeepsAgree(s: State, gone: set<string>)
    requires Agree(s)
    ensures Agree(RemovedAll(s, gone))
  {
    KeepFilters(s.order, gone, map[]);
    var t := RemovedAll(s, gone);
    assert t.entries.Keys <= s.entries.Keys;
    FewerKeys(s.entries.Keys, t.entries.Keys);
    assert |t.entries| == |t.entries.Keys| && |s.entries| == |s.entries.Keys|;
  }

  lemma {:induction false} FewerKeys(a: set<string>, b: set<string>)
    requires b <= a
    ensures |b| <= |a|
  {
    assert a == b + (a - b);
  }

  lemma RemovedIsRemovedAll(s: State, ip: string)
    requires Agree(s)
    ensures Removed(s, ip) == RemovedAll(s, {ip})
  {
    if ip in s.elements {
      WithoutIsKeep(s.order, Node(s.elements[ip], ip));
    } else {
      KeepAll(s.order, {ip});
    }
  }

  lemma EvictedIsRemovedAll(s: State)
    requires Agree(s) && s.order != []
    ensures var ip := s.order[|s.order| - 1].ip;
            ip in s.entries && Evicted(s) == RemovedAll(s, {ip}) && |Evicted(s).entries| < |s.entries|
  {
    var last := s.order[|s.order| - 1];
    assert last in s.order;
    LastIsKept(s.order);
    hide Keep, Distinct;
    assert Evicted(s).entries.Keys == s.entries.Keys - {last.ip};
    assert |Evicted(s).entries| == |Evicted(s).entries.Keys| && |s.entries| == |s.entries.Keys|;
  }

  /** Eviction takes the least recently used address. */
  lemma EvictedIsLeastRecent(s: State, seen: map<string, nat>)
    requires Agree(s) && s.order != [] && Recent(s.order, seen)
    ensures var ip := s.order[|s.order| - 1].ip;
            forall other :: other in s.entries ==> other in seen && ip in seen && seen[ip] <= seen[other]
  {
    LastIsOldest(s.order, seen);
    hide Recent, Distinct;
    forall other | other in s.entries
      ensures Node(s.elements[other], other) in s.order
    {
    }
  }

  lemma {:induction false} LastIsOldest(order: seq<Node>, seen: map<string, nat>)
    requires Recent(order, seen) && order != []
    ensures forall n :: n in order ==>
        n.ip in seen && order[|order| - 1].ip in seen && seen[order[|order| - 1].ip] <= seen[n.ip]
  {
    if |order| > 1 {
      var rest := order[1..];
      LastIsOldest(rest, seen);
      assert rest[|rest| - 1] == order[|order| - 1] && rest[|rest| - 1] in rest;
      assert order == [order[0]] + rest;
    }
  }

  lemma AddedKeepsAgree(s: State, ip: string, now: int)
    requires Agree(s) && ip !in s.entries && |s.entries| < MAX_ENTRIES
    ensures Agree(Added(s, ip, now))
  {
    NewFront(s.order, s.elements, ip, s.next);
    hide Indexed, Distinct;
    OneMoreKey(s.entries, ip, [now]);
    OneMoreKey(s.elements, ip, s.next);
  }

  lemma OneMoreKey<V>(m: map<string, V>, key: string, value: V)
    requires key !in m
    ensures |m[key := value]| == |m| + 1 && m[key := value].Keys == m.Keys + {key}
  {
    assert m[key := value].Keys == m.Keys + {key};
    assert |m[key := value]| == |m[key := value].Keys| && |m| == |m.Keys|;
  }

  lemma NewFront(order: seq<Node>, elements: map<string, nat>, ip: string, next: nat)
    requires Indexed(order, elements) && Distinct(order) && ip !in elements
    requires forall n :: n in order ==> n.id < next
    ensures var front := [Node(next, ip)] + order;
            Indexed(front, elements[ip := next]) && Distinct(front) && forall n :: n in front ==> n.id < next + 1
  {
    var front := [Node(next, ip)] + order;
    assert front[1..] == order;
    assert forall n :: n in front <==> n == Node(next, ip) || n in order;
  }

  lemma TouchedOrder(s: State, ip: string)
    requires Agree(s) && ip in s.entries
    ensures var t := Touched(s, ip);
            && t == s.(order := [Node(s.elements[ip], ip)] + Keep(s.order, {ip}))
            && t.order[0] == Node(s.elements[ip], ip) && t.order[1..] == Keep(s.order, {ip})
  {
    WithoutIsKeep(s.order, Node(s.elements[ip], ip));
  }

  lemma TouchedKeepsAgree(s: State, ip: string, ts: seq<int>)
    requires Agree(s) && ip in s.entries
    ensures var t := Touched(s, ip); Agree(t.(entries := t.entries[ip := ts]))
  {
    TouchedOrder(s, ip);
    KeepFilters(s.order, {ip}, map[]);
    hide Touched, Keep;
    FrontAgrees(s, ip, Touched(s, ip), Keep(s.order, {ip}), ts);
  }

  lemma FrontAgrees(s: State, ip: string, t: State, rest: seq<Node>, ts: seq<int>)
    requires Agree(s) && ip in s.entries
    requires t == s.(order := [Node(s.elements[ip], ip)] + rest)
    requires Distinct(rest) && forall n :: n in rest <==> n in s.order && n.ip !in {ip}
    ensures Agree(t.(entries := t.entries[ip := ts]))
  {
    FrontList(s.order, s.elements, ip, rest, s.next);
    hide Indexed, Distinct;
    assert t.entries[ip := ts].Keys == s.entries.Keys;
    assert |t.entries[ip := ts]| == |t.entries[ip := ts].Keys| && |s.entries| == |s.entries.Keys|;
  }

  lemma FrontList(order: seq<Node>, elements: map<string, nat>, ip: string, rest: seq<Node>, next: nat)
    requires Indexed(order, elements) && Distinct(order) && ip in elements && Distinct(rest)
    requires forall n :: n in order ==> n.id < next
    requires forall n :: n in rest <==> n in order && n.ip !in {ip}
    ensures var front := [Node(elements[ip], ip)] + rest;
            Indexed(front, elements) && Distinct(front) && forall n :: n in front ==> n.id < next
  {
    var node := Node(elements[ip], ip);
    var front := [node] + rest;
    assert node in order && front[1..] == rest;
    assert forall n :: n in front <==> n == node || n in rest;
    forall m | m in rest
      ensures m.id != node.id && m.ip != node.ip
    {
      if m.id == node.id {
        SameIdSameNode(order, m, node);
      }
    }
    forall a | a in elements
      ensures Node(elements[a], a) in front
    {
      assert Node(elements[a], a) in order;
    }
  }

  lemma {:induction false} SameIdSameNode(order: seq<Node>, m: Node, n: Node)
    requires Distinct(order) && m in order && n in order && m.id == n.id
    ensures m == n
  {
    var rest := order[1..];
    assert order == [order[0]] + rest;
    if order[0] != m && order[0] != n {
      SameIdSameNode(rest, m, n);
    }
  }

  lemma AllowKeepsAgree(s: State, ip: string, now: int, limit: int, window: nat)
    requires Agree(s)
    ensures Agree(Rule(s, ip, now, limit, window).state)
  {
    hide Agree, Evicted, Added, Touched, RemovedAll, Pruned;
    if ip in s.entries {
      var ts := Pruned(s.entries[ip], now - window);
      TouchedKeepsAgree(s, ip, ts);
      TouchedKeepsAgree(s, ip, ts + [now]);
    } else if |s.entries| >= MAX_ENTRIES {
      ListMisses(s, ip);
      EvictedIsRemovedAll(s);
      var oldest := s.order[|s.order| - 1].ip;
      RemovedAllKeepsAgree(s, {oldest});
      EvictedStays(s, ip);
      AddedKeepsAgree(Evicted(s), ip, now);
    } else {
      AddedKeepsAgree(s, ip, now);
    }
  }

  lemma EvictedStays(s: State, ip: string)
    requires Agree(s) && ip !in s.entries
    ensures ip !in Evicted(s).entries && |Evicted(s).entries| < MAX_ENTRIES
  {
    if s.order != [] {
      EvictedIsRemovedAll(s);
    } else {
      ListCountsEntries(s);
    }
  }

  // ---------------------------------------------------------------- runs

  datatype Op = Ask(ip: string, now: int) | Cleanup(now: int) | Reset(ip: string)

  /** The limiter with what happened so far: the grants to each address since it was last evicted
      or reset, the step at which each was last asked about, and the latest time. */
  datatype History = History(state: State, granted: map<string, seq<int>>, seen: map<string, nat>, step: nat, now: int)

  const START := History(EMPTY, map[], map[], 0, 0)

  function GrantsOf(h: History, ip: string): seq<int> { if ip in h.granted then h.granted[ip] else [] }

  /** The address that a call evicts, if it evicts one. */
  function Victim(s: State, ip: string): set<string> {
    if ip !in s.entries && |s.entries| >= MAX_ENTRIES && s.order != [] then {s.order[|s.order| - 1].ip} else {}
  }

  function Do(h: History, op: Op, limit: int, window: nat): History {
    match op
    case Ask(ip, now) =>
      var v := Rule(h.state, ip, now, limit, window);
      var kept := h.granted - Victim(h.state, ip);
      var granted := if v.granted then kept[ip := (if ip in kept then kept[ip] else []) + [now]] else kept;
      History(v.state, granted, h.seen[ip := h.step], h.step + 1, now)
    case Cleanup(now) => h.(state := Cleaned(h.state, now, window), step := h.step + 1, now := now)
    case Reset(ip) => h.(state := Removed(h.state, ip), granted := h.granted - {ip}, step := h.step + 1)
  }

  predicate OnTime(h: History, op: Op) { op.Reset? || op.now >= h.now }

  ghost predicate Run(hs: seq<History>, limit: int, window: nat) {
    && hs != [] && (exists t :: hs[0] == START.(now := t))
    && forall i :: 0 < i < |hs| ==> Next(hs[i - 1], hs[i], limit, window)
  }

  ghost predicate Next(h: History, k: History, limit: int, window: nat) {
    exists op :: OnTime(h, op) && k == Do(h, op, limit, window)
  }

  // ---------------------------------------------------------------- grants in a window

  ghost predicate Sorted(ts: seq<int>) {
    forall i, j :: 0 <= i <= j < |ts| ==> ts[i] <= ts[j]
  }

  /** Any `limit` + 1 consecutive grants span at least a window. */
  ghost predicate Spread(g: seq<int>, limit: nat, window: nat) {
    forall i :: 0 <= i < |g| - limit ==> g[i] + window <= g[i + limit]
  }

  /** The entry holds the latest grants, and those it no longer holds are a window old. */
  ghost predicate Tracks(g: seq<int>, ts: seq<int>, window: nat, now: int) {
    && |ts| <= |g| && g[|g| - |ts|..] == ts
    && Sorted(g) && (forall i :: 0 <= i < |g| ==> g[i] <= now)
    && forall i :: 0 <= i < |g| - |ts| ==> g[i] + window <= now
  }

  /** Pruning a sorted list drops a prefix. */
  lemma {:induction false} PrunedIsSuffix(ts: seq<int>, cutoff: int) returns (k: nat)
    requires Sorted(ts)
    ensures k <= |ts| && Pruned(ts, cutoff) == ts[k..] && forall i :: 0 <= i < k ==> ts[i] <= cutoff
  {
    if ts == [] {
      k := 0;
    } else {
      var n := |ts| - 1;
      if ts[n] <= cutoff {
        AllPruned(ts, cutoff);
        k := |ts|;
      } else {
        assert Sorted(ts[..n]);
        k := PrunedIsSuffix(ts[..n], cutoff);
        hide Sorted;
        OneMoreSuffix(ts, k);
        assert forall i :: 0 <= i < k ==> ts[..n][i] == ts[i];
      }
    }
  }

  lemma OneMoreSuffix(ts: seq<int>, k: nat)
    requires k < |ts|
    ensures ts[k..] == ts[..|ts| - 1][k..] + [ts[|ts| - 1]]
  {
  }

  lemma {:induction false} AllPruned(ts: seq<int>, cutoff: int)
    requires forall i :: 0 <= i < |ts| ==> ts[i] <= cutoff
    ensures Pruned(ts, cutoff) == []
  {
    if ts != [] {
      AllPruned(ts[..|ts| - 1], cutoff);
    }
  }

  lemma PruneTracks(g: seq<int>, ts: seq<int>, window: nat, before: int, now: int)
    requires Tracks(g, ts, window, before) && before <= now
    ensures Tracks(g, Pruned(ts, now - window), window, now)
  {
    assert forall i :: 0 <= i < |ts| ==> ts[i] == g[|g| - |ts| + i];
    var k := PrunedIsSuffix(ts, now - window);
    var left := Pruned(ts, now - window);
    assert g[|g| - |left|..] == ts[k..];
  }

  lemma GrantKeepsSpread(g: seq<int>, ts: seq<int>, limit: nat, window: nat, now: int)
    requires Tracks(g, ts, window, now) && Spread(g, limit, window) && |ts| < limit
    ensures Tracks(g + [now], ts + [now], window, now) && Spread(g + [now], limit, window)
  {
    var more := g + [now];
    assert more[|more| - |ts| - 1..] == ts + [now];
    forall i | 0 <= i < |more| - limit
      ensures more[i] + window <= more[i + limit]
    {
      if i + limit == |g| {
        assert i < |g| - |ts|;
      }
    }
  }

  /** The grants after `from` and up to `to`. */
  function CountIn(g: seq<int>, from: int, to: int): nat {
    if g == [] then 0
    else CountIn(g[..|g| - 1], from, to) + (if from < g[|g| - 1] <= to then 1 else 0)
  }

  lemma {:induction false} CountAtMost(g: seq<int>, from: int, to: int, m: nat)
    requires m <= |g| && forall i :: 0 <= i < m ==> g[i] <= from
    ensures CountIn(g, from, to) <= |g| - m
  {
    if g != [] {
      if m == |g| {
        CountAtMost(g[..|g| - 1], from, to, m - 1);
      } else {
        CountAtMost(g[..|g| - 1], from, to, m);
      }
    }
  }

  lemma SpreadPrefix(g: seq<int>, n: nat, limit: nat, window: nat)
    requires n <= |g| && Sorted(g) && Spread(g, limit, window)
    ensures Sorted(g[..n]) && Spread(g[..n], limit, window)
  {
  }

  /** Spread grants cannot crowd into one window, wherever it ends. */
  lemma {:induction false} SpreadBoundsWindows(g: seq<int>, limit: nat, window: nat, to: int)
    requires Sorted(g) && Spread(g, limit, window)
    ensures CountIn(g, to - window, to) <= limit
  {
    if g != [] {
      var n := |g| - 1;
      if g[n] > to {
        SpreadPrefix(g, n, limit, window);
        SpreadBoundsWindows(g[..n], limit, window, to);
      } else {
        var m := if |g| > limit then |g| - limit else 0;
        forall i | 0 <= i < m
          ensures g[i] <= to - window
        {
          assert g[i] + window <= g[i + limit] <= g[n];
        }
        CountAtMost(g, to - window, to, m);
      }
    }
  }

  // ---------------------------------------------------------------- every run

  function Timestamps(s: State, ip: string): seq<int> { if ip in s.entries then s.entries[ip] else [] }

  ghost predicate Inv(h: History, limit: nat, window: nat) {
    && Agree(h.state)
    && Recent(h.state.order, h.seen) && (forall ip :: ip in h.seen ==> h.seen[ip] < h.step)
    && forall ip: string :: Accounted(h, ip, limit, window)
  }

  ghost predicate Accounted(h: History, ip: string, limit: nat, window: nat) {
    Tracks(GrantsOf(h, ip), Timestamps(h.state, ip), window, h.now) && Spread(GrantsOf(h, ip), limit, window)
  }

  lemma RecentLater(order: seq<Node>, seen: map<string, nat>, ip: string, step: nat)
    requires Recent(order, seen) && forall n :: n in order ==> n.ip != ip
    ensures Recent(order, seen[ip := step])
  {
    if order != [] {
      RecentLater(order[1..], seen, ip, step);
    }
  }

  lemma AskKeepsRecent(h: History, ip: string, now: int, limit: int, window: nat)
    requires Agree(h.state) && Recent(h.state.order, h.seen) && forall a :: a in h.seen ==> h.seen[a] < h.step
    ensures Recent(Rule(h.state, ip, now, limit, window).state.order, h.seen[ip := h.step])
  {
    var s := h.state;
    var t := Rule(s, ip, now, limit, window).state;
    var gone := {ip} + Victim(s, ip);
    hide Rule, Agree, Recent;
    AllowOrder(s, ip, now, limit, window);
    KeepFilters(s.order, gone, h.seen);
    RecentLater(Keep(s.order, gone), h.seen, ip, h.step);
    FrontIsRecent(t.order, h.seen[ip := h.step], h.seen, ip, h.step);
  }

  /** A call puts its address in front, and drops the evicted one. */
  lemma AllowOrder(s: State, ip: string, now: int, limit: int, window: nat)
    requires Agree(s)
    ensures var t := Rule(s, ip, now, limit, window).state;
            t.order != [] && t.order[0].ip == ip && t.order[1..] == Keep(s.order, {ip} + Victim(s, ip))
  {
    hide Pruned, Keep, Touched, Agree;
    if ip in s.entries {
      TouchedOrder(s, ip);
      assert {ip} + Victim(s, ip) == {ip};
    } else {
      ListMisses(s, ip);
      KeepAll(s.order, {ip});
      KeepTwice(s.order, {ip}, Victim(s, ip));
      if Victim(s, ip) == {} {
        KeepAll(s.order, {});
      } else {
        AgreeIsDistinct(s);
        LastIsKept(s.order);
      }
    }
  }

  lemma AgreeIsDistinct(s: State)
    requires Agree(s)
    ensures Distinct(s.order)
  {
  }

  lemma ListMisses(s: State, ip: string)
    requires Agree(s) && ip !in s.entries
    ensures forall n :: n in s.order ==> n.ip !in {ip}
    ensures |s.entries| >= MAX_ENTRIES ==> s.order != []
  {
    ListCountsEntries(s);
  }

  lemma FrontIsRecent(order: seq<Node>, seen: map<string, nat>, before: map<string, nat>, ip: string, step: nat)
    requires order != [] && order[0].ip == ip && seen == before[ip := step] && Recent(order[1..], seen)
    requires forall n :: n in order[1..] ==> n.ip != ip
    requires forall a :: a in before ==> before[a] < step
    ensures Recent(order, seen)
  {
    RecentMembers(order[1..], seen);
  }

  lemma {:induction false} RecentMembers(order: seq<Node>, seen: map<string, nat>)
    requires Recent(order, seen)
    ensures forall n :: n in order ==> n.ip in seen
  {
    if order != [] {
      RecentMembers(order[1..], seen);
    }
  }

  lemma AskAccounts(h: History, ip: string, now: int, other: string, limit: nat, window: nat)
    requires limit >= 1 && Agree(h.state) && now >= h.now && Accounted(h, other, limit, window)
    ensures Accounted(Do(h, Ask(ip, now), limit, window), other, limit, window)
  {
    hide Agree, Keep, Without, Pruned, Tracks, Spread;
    var h' := Do(h, Ask(ip, now), limit, window);
    var s := h.state;
    AskEntries(s, ip, now, other, limit, window);
    var g, ts := GrantsOf(h, other), Timestamps(s, other);
    if other in Victim(s, ip) && other != ip {
      NothingTracks(window, now, limit);
    } else if other == ip {
      AskVictimIsOther(s, ip);
      PruneTracks(g, ts, window, h.now, now);
      var left := Pruned(ts, now - window);
      if ip in s.entries {
        if |left| < limit {
          GrantKeepsSpread(g, left, limit, window, now);
        }
      } else {
        AllPruned([], now - window);
        GrantKeepsSpread(g, [], limit, window, now);
        assert [] + [now] == [now];
      }
    } else {
      TimePasses(g, ts, window, h.now, now);
    }
  }

  lemma AskVictimIsOther(s: State, ip: string)
    requires Agree(s)
    ensures ip !in Victim(s, ip)
  {
    if Victim(s, ip) != {} {
      assert s.order[|s.order| - 1] in s.order;
    }
  }

  lemma AskEntries(s: State, ip: string, now: int, other: string, limit: nat, window: nat)
    requires Agree(s)
    ensures var v := Rule(s, ip, now, limit, window);
            && (other != ip && other !in Victim(s, ip) ==> Timestamps(v.state, other) == Timestamps(s, other))
            && (other != ip && other in Victim(s, ip) ==> Timestamps(v.state, other) == [])
            && (ip !in s.entries ==> v.granted && Timestamps(v.state, ip) == [now])
            && (ip in s.entries ==>
                  var left := Pruned(s.entries[ip], now - window);
                  && v.granted == (|left| < limit)
                  && Timestamps(v.state, ip) == if v.granted then left + [now] else left)
  {
    hide Pruned;
    ListCountsEntries(s);
  }

  lemma NothingTracks(window: nat, now: int, limit: nat)
    ensures Tracks([], [], window, now) && Spread([], limit, window)
  {
  }

  lemma TimePasses(g: seq<int>, ts: seq<int>, window: nat, before: int, now: int)
    requires Tracks(g, ts, window, before) && before <= now
    ensures Tracks(g, ts, window, now)
  {
  }

  /** What cleanup forgets is two windows old. */
  lemma CleanupAccounts(h: History, now: int, other: string, limit: nat, window: nat)
    requires now >= h.now && Accounted(h, other, limit, window)
    ensures Accounted(Do(h, Cleanup(now), limit, window), other, limit, window)
  {
    var g, ts := GrantsOf(h, other), Timestamps(h.state, other);
    TimePasses(g, ts, window, h.now, now);
    if other in h.state.entries && Stale(ts, now - 2 * window) {
      assert forall i :: 0 <= i < |ts| ==> ts[i] == g[|g| - |ts| + i];
      assert Tracks(g, [], window, now);
    }
  }

  lemma DoKeepsInv(h: History, op: Op, limit: nat, window: nat)
    requires limit >= 1 && Inv(h, limit, window) && OnTime(h, op)
    ensures Inv(Do(h, op, limit, window), limit, window)
  {
    hide Accounted, Agree, Recent, Rule, Keep, Removed, RemovedAll;
    var h' := Do(h, op, limit, window);
    match op
    case Ask(ip, now) =>
      AllowKeepsAgree(h.state, ip, now, limit, window);
      AskKeepsRecent(h, ip, now, limit, window);
      forall other: string
        ensures Accounted(h', other, limit, window)
      {
        AskAccounts(h, ip, now, other, limit, window);
      }
    case Cleanup(now) =>
      var gone := StaleIps(h.state, now - 2 * window);
      RemovedAllKeepsAgree(h.state, gone);
      RemovedAllOrder(h.state, gone, h.seen);
      forall other: string
        ensures Accounted(h', other, limit, window)
      {
        CleanupAccounts(h, now, other, limit, window);
      }
    case Reset(ip) =>
      RemovedIsRemovedAll(h.state, ip);
      RemovedAllKeepsAgree(h.state, {ip});
      RemovedAllOrder(h.state, {ip}, h.seen);
      forall other: string
        ensures Accounted(h', other, limit, window)
      {
        ResetAccounts(h, ip, other, limit, window);
      }
  }

  lemma RemovedAllOrder(s: State, gone: set<string>, seen: map<string, nat>)
    requires Recent(s.order, seen)
    ensures Recent(RemovedAll(s, gone).order, seen)
  {
    KeepFilters(s.order, gone, seen);
  }

  lemma ResetAccounts(h: History, ip: string, other: string, limit: nat, window: nat)
    requires Accounted(h, other, limit, window)
    ensures Accounted(Do(h, Reset(ip), limit, window), other, limit, window)
  {
    NothingTracks(window, h.now, limit);
  }

  lemma {:induction false} InvariantHolds(hs: seq<History>, i: nat, limit: nat, window: nat)
    requires limit >= 1 && Run(hs, limit, window) && i < |hs|
    ensures Inv(hs[i], limit, window)
  {
    if i > 0 {
      InvariantHolds(hs, i - 1, limit, window);
      assert Next(hs[i - 1], hs[i], limit, window);
      var op :| OnTime(hs[i - 1], op) && hs[i] == Do(hs[i - 1], op, limit, window);
      DoKeepsInv(hs[i - 1], op, limit, window);
    }
  }

  /** In any run, no window holds more than `limit` grants to an address that was not evicted or
      reset meanwhile, however often the table was cleaned up. */
  lemma AtMostLimitPerWindow(hs: seq<History>, i: nat, limit: nat, window: nat, ip: string, to: int)
    requires limit >= 1 && Run(hs, limit, window) && i < |hs|
    ensures CountIn(GrantsOf(hs[i], ip), to - window, to) <= limit
  {
    InvariantHolds(hs, i, limit, window);
    assert Accounted(hs[i], ip, limit, window);
    SpreadBoundsWindows(GrantsOf(hs[i], ip), limit, window, to);
  }

  /** The other half: in any run an attempt is granted exactly when fewer than `limit` grants to the address lie
      in the window that ends now, so nobody is refused for less. */
  lemma GrantedExactlyWhen(hs: seq<History>, i: nat, limit: nat, window: nat, ip: string, now: int)
    requires limit >= 1 && Run(hs, limit, window) && i < |hs| && hs[i].now <= now
    ensures Rule(hs[i].state, ip, now, limit, window).granted <==>
              CountIn(GrantsOf(hs[i], ip), now - window, now) < limit
  {
    hide Rule, Spread, Tracks, Run, Agree, Recent;
    InvariantHolds(hs, i, limit, window);
    assert Accounted(hs[i], ip, limit, window);
    TrackedAreCounted(GrantsOf(hs[i], ip), Timestamps(hs[i].state, ip), window, hs[i].now, now);
    RuleCases(hs[i].state, ip, now, limit, window);
  }

  lemma TrackedAreCounted(g: seq<int>, ts: seq<int>, window: nat, before: int, now: int)
    requires Tracks(g, ts, window, before) && before <= now
    ensures CountIn(g, now - window, now) == |Pruned(ts, now - window)|
  {
    PruneTracks(g, ts, window, before, now);
    PrunedAreAfter(ts, now - window);
    var left := Pruned(ts, now - window);
    var m := |g| - |left|;
    assert forall i :: m <= i < |g| ==> g[i] == left[i - m];
    CountIsRest(g, now - window, now, m);
  }

  lemma {:induction false} PrunedAreAfter(ts: seq<int>, cutoff: int)
    ensures forall i :: 0 <= i < |Pruned(ts, cutoff)| ==> Pruned(ts, cutoff)[i] > cutoff
    ensures |Pruned(ts, cutoff)| <= |ts|
  {
    if ts != [] {
      PrunedAreAfter(ts[..|ts| - 1], cutoff);
    }
  }

  /** All but the first `m` are counted. */
  lemma {:induction false} CountIsRest(g: seq<int>, from: int, to: int, m: nat)
    requires m <= |g| && (forall i :: 0 <= i < m ==> g[i] <= from) && (forall i :: m <= i < |g| ==> from < g[i] <= to)
    ensures CountIn(g, from, to) == |g| - m
    decreases |g|
  {
    if m < |g| {
      CountIsRest(g[..|g| - 1], from, to, m);
    } else {
      CountAtMost(g, from, to, m);
    }
  }

  predicate Bounded(h: History, limit: int, window: nat, ip: string, to: int) {
    CountIn(GrantsOf(h, ip), to - window, to) <= limit
  }

  /** The bound needs a limit of at least one: a first attempt is always granted. */
  lemma LimitMustBePositive(limit: int, window: nat, ip: string)
    requires window > 0
    ensures (forall hs, i: nat, to :: Run(hs, limit, window) && i < |hs| ==> Bounded(hs[i], limit, window, ip, to))
       <==> limit >= 1
  {
    if limit >= 1 {
      forall hs, i: nat, to | Run(hs, limit, window) && i < |hs|
        ensures Bounded(hs[i], limit, window, ip, to)
      {
        AtMostLimitPerWindow(hs, i, limit, window, ip, to);
      }
    } else {
      var hs := FirstAttempt(limit, window, ip);
      assert Run(hs, limit, window) && 1 < |hs| && !Bounded(hs[1], limit, window, ip, 0);
    }
  }

  lemma FirstAttempt(limit: int, window: nat, ip: string) returns (hs: seq<History>)
    requires window > 0 && limit < 1
    ensures Run(hs, limit, window) && 1 < |hs| && !Bounded(hs[1], limit, window, ip, 0)
  {
    var first := Do(START, Ask(ip, 0), limit, window);
    hs := [START, first];
    assert GrantsOf(first, ip) == [0] && [0][..0] == [];
    assert CountIn([0], 0 - window, 0) == 1;
    hide Do;
    assert START == START.(now := 0);
    assert OnTime(hs[0], Ask(ip, 0)) && hs[1] == Do(hs[0], Ask(ip, 0), limit, window);
  }

  lemma VictimIsLeastRecent(s: State, seen: map<string, nat>, ip: string, v: string)
    requires Agree(s) && Recent(s.order, seen) && v in Victim(s, ip)
    ensures v != ip && v in s.entries && v in seen
    ensures forall other :: other in s.entries ==> other in seen && seen[v] <= seen[other]
  {
    EvictedIsRemovedAll(s);
    EvictedIsLeastRecent(s, seen);
    AskVictimIsOther(s, ip);
  }

  lemma VictimWhenFull(s: State, ip: string)
    requires Agree(s)
    ensures Victim(s, ip) != {} <==> ip !in s.entries && |s.entries| == 10000
  {
    ListCountsEntries(s);
  }

  /** In any run the three structures agree, and an address is evicted exactly to make room in a full table
      for another: the one asked about least recently. */
  lemma EvictsLeastRecentlyUsed(hs: seq<History>, i: nat, limit: nat, window: nat, ip: string)
    requires limit >= 1 && Run(hs, limit, window) && i < |hs|
    ensures var h := hs[i];
            && Agree(h.state)
            && (Victim(h.state, ip) != {} <==> ip !in h.state.entries && |h.state.entries| == 10000)
            && forall v :: v in Victim(h.state, ip) ==>
                 && v != ip && v in h.state.entries && v in h.seen
                 && forall other :: other in h.state.entries ==> other in h.seen && h.seen[v] <= h.seen[other]
  {
    hide Agree, Recent, Accounted, Victim, Run;
    InvariantHolds(hs, i, limit, window);
    VictimWhenFull(hs[i].state, ip);
    forall v | v in Victim(hs[i].state, ip)
      ensures
        && v != ip && v in hs[i].state.entries && v in hs[i].seen
        && forall other :: other in hs[i].state.entries ==> other in hs[i].seen && hs[i].seen[v] <= hs[i].seen[other]
    {
      VictimIsLeastRecent(hs[i].state, hs[i].seen, ip, v);
    }
  }

  // ---------------------------------------------------------------- the program

  lemma NoneRemoved(s: State)
    ensures RemovedAll(s, {}) == s
  {
    KeepAll(s.order, {});
  }

  lemma StillThere(s: State, gone: set<string>, ip: string)
    requires ip in s.entries && ip !in gone
    ensures ip in RemovedAll(s, gone).entries && RemovedAll(s, gone).entries[ip] == s.entries[ip]
  {
  }

  lemma RemoveOneMore(s: State, gone: set<string>, ip: string)
    requires Agree(RemovedAll(s, gone))
    ensures Removed(RemovedAll(s, gone), ip) == RemovedAll(s, gone + {ip}) && Agree(RemovedAll(s, gone + {ip}))
  {
    hide Agree, Keep, Removed;
    var t := RemovedAll(s, gone);
    RemovedIsRemovedAll(t, ip);
    RemovedAllKeepsAgree(t, {ip});
    KeepTwice(s.order, gone, {ip});
    MinusTwice(s.entries, gone, {ip});
    MinusTwice(s.elements, gone, {ip});
  }

  lemma MinusTwice<V>(m: map<string, V>, a: set<string>, b: set<string>)
    ensures (m - a) - b == m - (a + b)
  {
  }

  lemma RuleCases(s: State, ip: string, now: int, limit: int, window: nat)
    ensures ip !in s.entries ==>
              var room := if |s.entries| >= MAX_ENTRIES then Evicted(s) else s;
              Rule(s, ip, now, limit, window) == Verdict(Added(room, ip, now), true)
    ensures ip in s.entries ==>
              var ts := Pruned(s.entries[ip], now - window);
              var granted := |ts| < limit;
              var t := Touched(s, ip);
              && t.entries == s.entries
              && Rule(s, ip, now, limit, window)
                 == Verdict(t.(entries := s.entries[ip := if granted then ts + [now] else ts]), granted)
  {
    hide Pruned, Added, Evicted, Without;
  }

  /** What remains are the entries whose last timestamp is not before the cutoff, as they were. */
  ghost predicate StaleAreGone(before: map<string, seq<int>>, after: map<string, seq<int>>, cutoff: int) {
    && (forall ip :: ip in after ==> ip in before && after[ip] == before[ip])
    && (forall ip :: ip in before ==>
          (ip in after <==> before[ip] != [] && cutoff <= before[ip][|before[ip]| - 1]))
  }

  lemma AllStaleGone(s: State, gone: set<string>, now: int, window: nat)
    requires gone <= s.entries.Keys
    requires forall ip :: ip in s.entries ==> (ip in gone <==> Stale(s.entries[ip], now - 2 * window))
    ensures RemovedAll(s, gone) == Cleaned(s, now, window)
  {
    assert gone == StaleIps(s, now - 2 * window);
  }

  lemma CleanedEntries(s: State, now: int, window: nat)
    ensures StaleAreGone(s.entries, Cleaned(s, now, window).entries, now - 2 * window)
  {
  }

  /** A cleanup in a run forgets exactly the stale addresses, and none of the grants that are remembered. */
  lemma CleanupForgetsStale(h: History, now: int, limit: int, window: nat)
    ensures var k := Do(h, Cleanup(now), limit, window);
            StaleAreGone(h.state.entries, k.state.entries, now - 2 * window) && k.granted == h.granted && k.now == now
  {
    CleanedEntries(h.state, now, window);
  }

  class LoginRateLimiter {
    var entries: map<string, seq<int>>
    var order: seq<Node>
    var elements: map<string, nat>
    var next: nat
    const limit: int
    const window: nat

    ghost function View(): State
      reads this
    {
      State(entries, order, elements, next)
    }

    constructor (limit: int, window: nat)
      ensures View() == EMPTY && Agree(View()) && this.limit == limit && this.window == window
    {
      this.limit, this.window := limit, window;
      entries, order, elements, next := map[], [], map[], 0;
    }

    method EvictOldestUnsafe()
      modifies this
      ensures View() == Evicted(old(View()))
    {
      if order == [] {
        return;
      }
      var ip := order[|order| - 1].ip;
      order := order[..|order| - 1];
      elements := elements - {ip};
      entries := entries - {ip};
    }

    method Allow(ip: string, now: int) returns (granted: bool)
      requires Agree(View())
      modifies this
      ensures Verdict(View(), granted) == Rule(old(View()), ip, now, limit, window)
      ensures Agree(View())
    {
      hide Agree, Touched, Evicted, Added, Rule, Pruned;
      AllowKeepsAgree(View(), ip, now, limit, window);
      RuleCases(View(), ip, now, limit, window);
      if ip !in entries {
        MakeRoomAndAdd(ip, now);
        return true;
      }
      MoveToFront(ip);
      granted := TryGrant(ip, now);
    }

    /** What allow does with the timestamps of an address it knows. */
    method TryGrant(ip: string, now: int) returns (granted: bool)
      requires ip in entries
      modifies this`entries
      ensures var ts := Pruned(old(entries)[ip], now - window);
              && granted == (|ts| < limit)
              && View() == old(View()).(entries := old(entries)[ip := if granted then ts + [now] else ts])
    {
      var pruned := Prune(entries[ip], now - window);
      hide Pruned;
      entries := entries[ip := pruned];
      if |pruned| >= limit {
        return false;
      }
      entries := entries[ip := pruned + [now]];
      assert entries == old(entries)[ip := pruned + [now]];
      return true;
    }

    method MakeRoomAndAdd(ip: string, now: int)
      modifies this
      ensures View() == Added(if |old(entries)| >= MAX_ENTRIES then Evicted(old(View())) else old(View()), ip, now)
    {
      hide Evicted, Added;
      if |entries| >= MAX_ENTRIES {
        EvictOldestUnsafe();
      }
      Add(ip, now);
    }

    method Add(ip: string, now: int)
      modifies this
      ensures View() == Added(old(View()), ip, now)
    {
      entries := entries[ip := [now]];
      order := [Node(next, ip)] + order;
      elements := elements[ip := next];
      next := next + 1;
    }

    method MoveToFront(ip: string)
      modifies this`order
      ensures View() == Touched(old(View()), ip)
    {
      if ip in elements {
        order := [Node(elements[ip], ip)] + Without(order, elements[ip]);
      }
    }

    /** The loop of allow that drops timestamps outside the window. */
    method Prune(timestamps: seq<int>, cutoff: int) returns (pruned: seq<int>)
      ensures pruned == Pruned(timestamps, cutoff)
    {
      pruned := [];
      var i := 0;
      while i < |timestamps|
        invariant 0 <= i <= |timestamps|
        invariant pruned == Pruned(timestamps[..i], cutoff)
      {
        assert timestamps[..i + 1][..i] == timestamps[..i];
        if timestamps[i] > cutoff {
          pruned := pruned + [timestamps[i]];
        }
        i := i + 1;
      }
      assert timestamps[..i] == timestamps;
    }

    method Remove(ip: string)
      modifies this
      ensures View() == Removed(old(View()), ip)
    {
      if ip in elements {
        order := Without(order, elements[ip]);
        elements := elements - {ip};
      }
      entries := entries - {ip};
      assert ip !in old(elements) ==> elements == old(elements) - {ip};
    }

    /** Visits the entries in any order, dropping the stale ones. */
    method Cleanup(now: int)
      requires Agree(View())
      modifies this
      ensures View() == Cleaned(old(View()), now, window) && Agree(View())
      ensures StaleAreGone(old(entries), entries, now - 2 * window)
    {
      hide Agree, Keep, Removed, RemovedAll, Stale, StaleIps, Cleaned, StaleAreGone;
      ghost var s := View();
      var cutoff := now - 2 * window;
      var left := entries.Keys;
      ghost var gone: set<string> := {};
      NoneRemoved(s);
      while left != {}
        invariant gone + left <= s.entries.Keys && gone !! left
        invariant forall ip :: ip in s.entries && ip !in left ==> (ip in gone <==> Stale(s.entries[ip], cutoff))
        invariant View() == RemovedAll(s, gone) && Agree(View())
        decreases |left|
      {
        var ip :| ip in left;
        left := left - {ip};
        StillThere(s, gone, ip);
        if Stale(entries[ip], cutoff) {
          RemoveOneMore(s, gone, ip);
          Remove(ip);
          gone := gone + {ip};
        }
      }
      AllStaleGone(s, gone, now, window);
      CleanedEntries(s, now, window);
    }

    method Reset(ip: string)
      requires Agree(View())
      modifies this
      ensures View() == Removed(old(View()), ip) && Agree(View())
      ensures entries == old(entries) - {ip} && elements == old(elements) - {ip}
    {
      RemovedIsRemovedAll(View(), ip);
      RemovedAllKeepsAgree(View(), {ip});
      Remove(ip);
    }
  }
}
