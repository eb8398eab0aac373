/** The double scan of a lock-table snapshot for waiter/holder pairs. */
module LockScan {
  import opened Digraph
  import opened Interning

  datatype LockTag = LockTag(kind: int, field1: int, field2: int, field3: int, field4: int, lockMethod: int)

  /** `awaited` is 0 when the instance waits for nothing; `held` is the set of
      modes in the hold mask; times are in microseconds. */
  datatype LockInstance = LockInstance(pid: int, awaited: int, waitStart: int, held: set<int>, tag: LockTag)

  /** What the scan asks the server: the clock, its own pid, and the lock
      manager's conflict table over modes `1 .. maxModes - 1`. */
  datatype Server = Server(now: int, myPid: int, maxModes: nat, conflicts: (int, int) -> bool)

  predicate Waits(s: Server, w: LockInstance) {
    w.pid > 0 && w.awaited != 0 && w.pid != s.myPid
  }

  function BlockedFor(s: Server, w: LockInstance): real {
    if w.waitStart > 0 && s.now >= w.waitStart then (s.now - w.waitStart) as real / 1000000.0 else 0.0
  }

  predicate HoldsAgainst(s: Server, held: set<int>, awaited: int) {
    exists m :: 1 <= m < s.maxModes && m in held && s.conflicts(m, awaited)
  }

  predicate Blocks(s: Server, w: LockInstance, h: LockInstance) {
    h.pid > 0 && h.pid != w.pid && h.held != {} && w.tag == h.tag && HoldsAgainst(s, h.held, w.awaited)
  }

  predicate Hit(s: Server, locks: seq<LockInstance>, i: nat, j: nat)
    requires i < |locks| && j < |locks|
  {
    Waits(s, locks[i]) && Blocks(s, locks[i], locks[j])
  }

  ghost predicate Position(locks: seq<LockInstance>, i: nat, j: nat) {
    if i < |locks| then j <= |locks| else i == |locks| && j == 0
  }

  /** Scan order: row by row. */
  ghost predicate Before(i: nat, j: nat, i': nat, j': nat) {
    i < i' || (i == i' && j < j')
  }

  /** The hits met before position `(i, j)`, in the order they are met. */
  ghost function HitsBefore(s: Server, locks: seq<LockInstance>, i: nat, j: nat): seq<(nat, nat)>
    requires Position(locks, i, j)
    decreases i, j
  {
    if j > 0 then
      HitsBefore(s, locks, i, j - 1) + (if Hit(s, locks, i, j - 1) then [(i, j - 1)] else [])
    else if i > 0 then HitsBefore(s, locks, i - 1, |locks|)
    else []
  }

  ghost function AllHits(s: Server, locks: seq<LockInstance>): seq<(nat, nat)> {
    HitsBefore(s, locks, |locks|, 0)
  }

  ghost predicate InOrder(h: seq<(nat, nat)>) {
    forall x, y :: 0 <= x < y < |h| ==> Before(h[x].0, h[x].1, h[y].0, h[y].1)
  }

  /** Independent of the recursion: the list holds every hit of the snapshot
      exactly once, and in scan order. */
  lemma {:induction false} HitsBeforeExact(s: Server, locks: seq<LockInstance>, i: nat, j: nat)
    requires Position(locks, i, j)
    ensures forall a: nat, b: nat :: (a, b) in HitsBefore(s, locks, i, j) <==>
              a < |locks| && b < |locks| && Before(a, b, i, j) && Hit(s, locks, a, b)
    ensures InOrder(HitsBefore(s, locks, i, j))
    decreases i, j
  {
    if j > 0 {
      HitsBeforeExact(s, locks, i, j - 1);
      var h, h' := HitsBefore(s, locks, i, j - 1), HitsBefore(s, locks, i, j);
      forall x | 0 <= x < |h| ensures Before(h[x].0, h[x].1, i, j - 1) {
        assert (h[x].0, h[x].1) in h;
      }
    } else if i > 0 {
      HitsBeforeExact(s, locks, i - 1, |locks|);
      assert HitsBefore(s, locks, i, 0) == HitsBefore(s, locks, i - 1, |locks|);
    }
  }

  lemma {:induction false} HitsGrow(s: Server, locks: seq<LockInstance>, i: nat, j: nat, i': nat, j': nat)
    requires Position(locks, i, j) && Position(locks, i', j') && (Before(i, j, i', j') || (i == i' && j == j'))
    ensures HitsBefore(s, locks, i, j) <= HitsBefore(s, locks, i', j')
    decreases i', j'
  {
    if i != i' || j != j' {
      if j' > 0 {
        HitsGrow(s, locks, i, j, i', j' - 1);
      } else {
        HitsGrow(s, locks, i, j, i' - 1, |locks|);
      }
    }
  }

  lemma {:induction false} NoHitsInRow(s: Server, locks: seq<LockInstance>, i: nat, j: nat)
    requires i < |locks| && j <= |locks| && !Waits(s, locks[i])
    ensures HitsBefore(s, locks, i, j) == HitsBefore(s, locks, i, 0)
  {
    if j > 0 { NoHitsInRow(s, locks, i, j - 1); }
  }

  ghost function EdgeOf(s: Server, locks: seq<LockInstance>, h: (nat, nat)): Edge
    requires h.0 < |locks| && h.1 < |locks|
  {
    Edge(locks[h.0].pid, locks[h.1].pid, BlockedFor(s, locks[h.0]))
  }

  /** `edges` are the edges of exactly these hits. */
  ghost predicate EdgesOf(s: Server, locks: seq<LockInstance>, hits: seq<(nat, nat)>, edges: seq<Edge>) {
    |edges| == |hits| && forall k :: 0 <= k < |hits| ==>
      hits[k].0 < |locks| && hits[k].1 < |locks| && edges[k] == EdgeOf(s, locks, hits[k])
  }

  /** No session waits for itself and the scanning session is never a waiter. */
  lemma EdgesAreProper(s: Server, locks: seq<LockInstance>, n: nat, edges: seq<Edge>)
    requires n <= |AllHits(s, locks)| && EdgesOf(s, locks, AllHits(s, locks)[..n], edges)
    ensures forall e :: e in edges ==>
              e.blocked != e.blocking && e.blocked != s.myPid && e.blocked > 0 && e.blocking > 0 && e.blockedFor >= 0.0
  {
    HitsBeforeExact(s, locks, |locks|, 0);
    forall e | e in edges
      ensures e.blocked != e.blocking && e.blocked != s.myPid && e.blocked > 0 && e.blocking > 0 && e.blockedFor >= 0.0
    {
      var k :| 0 <= k < |edges| && edges[k] == e;
      var h := AllHits(s, locks)[..n][k];
      assert (h.0, h.1) in AllHits(s, locks);
    }
  }

  // ---------- what the scan means, on the fields of the snapshot ----------

  /** Row `a` waits for a lock that row `b`, another session's instance of the same
      lock, holds in a conflicting mode. The scanning session is no waiter. */
  ghost predicate Obstructed(s: Server, locks: seq<LockInstance>, a: nat, b: nat) {
    && a < |locks| && b < |locks|
    && locks[a].pid > 0 && locks[b].pid > 0 && locks[a].pid != locks[b].pid && locks[a].pid != s.myPid
    && locks[a].tag == locks[b].tag && locks[a].awaited != 0
    && exists m :: 1 <= m < s.maxModes && m in locks[b].held && s.conflicts(m, locks[a].awaited)
  }

  /** `t` seconds have passed since row `a` began to wait; a row without a beginning,
      or with one in the future, has waited for no time. */
  ghost predicate WaitedFor(s: Server, locks: seq<LockInstance>, a: nat, t: real) {
    && a < |locks| && t >= 0.0
    && (locks[a].waitStart > 0 && s.now > locks[a].waitStart ==> t * 1000000.0 == (s.now - locks[a].waitStart) as real)
    && (locks[a].waitStart <= 0 || s.now <= locks[a].waitStart ==> t == 0.0)
  }

  /** Row `a` belongs to a waiting session other than the scanning one. */
  ghost predicate WaitingRow(s: Server, locks: seq<LockInstance>, a: nat) {
    a < |locks| && locks[a].pid > 0 && locks[a].pid != s.myPid && locks[a].awaited != 0
  }

  /** `at` are the rows behind the edges: exactly the first obstructed pairs in scan
      order, all of them while there is room. */
  ghost predicate FirstPairs(s: Server, locks: seq<LockInstance>, maxEdges: nat, at: seq<(nat, nat)>) {
    && |at| <= maxEdges && InOrder(at)
    && (forall p :: p in at ==> Obstructed(s, locks, p.0, p.1))
    && (forall a: nat, b: nat :: Obstructed(s, locks, a, b) && (a, b) !in at ==>
          |at| == maxEdges && forall p :: p in at ==> Before(p.0, p.1, a, b))
  }

  ghost predicate EdgesAt(s: Server, locks: seq<LockInstance>, at: seq<(nat, nat)>, edges: seq<Edge>) {
    |edges| == |at| && forall k :: 0 <= k < |at| ==>
      && at[k].0 < |locks| && at[k].1 < |locks|
      && edges[k].blocked == locks[at[k].0].pid && edges[k].blocking == locks[at[k].1].pid
      && WaitedFor(s, locks, at[k].0, edges[k].blockedFor)
  }

  /** `worst` is the longest wait of the first `n` rows, or 0. */
  ghost predicate LongestWait(s: Server, locks: seq<LockInstance>, n: nat, worst: real) {
    && worst >= 0.0
    && (forall a: nat, t :: a < n && WaitingRow(s, locks, a) && WaitedFor(s, locks, a, t) ==> t <= worst)
    && (worst == 0.0 || exists a: nat :: a < n && WaitingRow(s, locks, a) && WaitedFor(s, locks, a, worst))
  }

  /** The rows looked at: all, unless row `n - 1` has the first pair without room. */
  ghost predicate RowsRead(s: Server, locks: seq<LockInstance>, at: seq<(nat, nat)>, n: nat) {
    if forall a: nat, b: nat :: Obstructed(s, locks, a, b) ==> (a, b) in at then n == |locks|
    else
      && (exists a: nat, b: nat :: a + 1 == n && Obstructed(s, locks, a, b) && (a, b) !in at)
      && (forall a: nat, b: nat :: Obstructed(s, locks, a, b) && (a, b) !in at ==> n <= a + 1)
  }

  /** What a scan reports, without reference to how it goes about it. */
  ghost predicate Reported(s: Server, locks: seq<LockInstance>, maxEdges: nat, edges: seq<Edge>,
                           nblocked: nat, nblocking: nat, worst: real) {
    && (exists at, n: nat :: FirstPairs(s, locks, maxEdges, at) && EdgesAt(s, locks, at, edges)
          && RowsRead(s, locks, at, n) && LongestWait(s, locks, n, worst))
    && nblocked == |(set e | e in edges :: e.blocked)| && nblocking == |(set e | e in edges :: e.blocking)|
  }

  lemma HitMeans(s: Server, locks: seq<LockInstance>, a: nat, b: nat)
    ensures Obstructed(s, locks, a, b) <==> a < |locks| && b < |locks| && Hit(s, locks, a, b)
  {
  }

  lemma WaitMeans(s: Server, locks: seq<LockInstance>, a: nat)
    requires a < |locks|
    ensures WaitedFor(s, locks, a, BlockedFor(s, locks[a]))
    ensures forall t :: WaitedFor(s, locks, a, t) ==> t == BlockedFor(s, locks[a])
  {
  }

  lemma KeptPairs(s: Server, locks: seq<LockInstance>, maxEdges: nat) returns (at: seq<(nat, nat)>)
    ensures var all := AllHits(s, locks); at == all[..if |all| <= maxEdges then |all| else maxEdges]
    ensures FirstPairs(s, locks, maxEdges, at)
  {
    hide Hit, Obstructed;
    HitsBeforeExact(s, locks, |locks|, 0);
    var all := AllHits(s, locks);
    at := all[..if |all| <= maxEdges then |all| else maxEdges];
    forall p | p in at ensures Obstructed(s, locks, p.0, p.1) {
      assert (p.0, p.1) in all;
      HitMeans(s, locks, p.0, p.1);
    }
    forall a: nat, b: nat | Obstructed(s, locks, a, b) && (a, b) !in at
      ensures |at| == maxEdges && forall p :: p in at ==> Before(p.0, p.1, a, b)
    {
      HitMeans(s, locks, a, b);
      assert (a, b) in all;
      var k :| 0 <= k < |all| && all[k] == (a, b);
      assert k >= |at|;
    }
  }

  lemma ReadRows(s: Server, locks: seq<LockInstance>, maxEdges: nat, at: seq<(nat, nat)>, n: nat)
    requires var all := AllHits(s, locks);
             && at == all[..if |all| <= maxEdges then |all| else maxEdges]
             && n == if |all| <= maxEdges then |locks| else all[maxEdges].0 + 1
    ensures RowsRead(s, locks, at, n)
  {
    hide Hit, Obstructed;
    HitsBeforeExact(s, locks, |locks|, 0);
    var all := AllHits(s, locks);
    forall a: nat, b: nat ensures Obstructed(s, locks, a, b) <==> (a, b) in all { HitMeans(s, locks, a, b); }
    if |all| > maxEdges {
      var c := all[maxEdges];
      assert (c.0, c.1) in all;
      assert (c.0, c.1) !in at;
      forall a: nat, b: nat | Obstructed(s, locks, a, b) && (a, b) !in at ensures n <= a + 1 {
        var k :| 0 <= k < |all| && all[k] == (a, b);
        assert k >= maxEdges;
      }
    }
  }

  lemma WorstMeans(s: Server, locks: seq<LockInstance>, n: nat, worst: real)
    requires Dominates(s, locks, n, worst)
    ensures LongestWait(s, locks, n, worst)
  {
    hide BlockedFor, WaitedFor;
    forall a: nat, t | a < n && WaitingRow(s, locks, a) && WaitedFor(s, locks, a, t) ensures t <= worst {
      WaitMeans(s, locks, a);
    }
    if worst != 0.0 {
      var k: nat :| k < n && Waits(s, locks[k]) && BlockedFor(s, locks[k]) == worst;
      WaitMeans(s, locks, k);
      assert WaitingRow(s, locks, k);
    }
  }

  /** The edges are the obstructed pairs of the snapshot, as many as fit, first come
      first kept; the counts and the longest wait are exact. */
  lemma ScanMeans(s: Server, locks: seq<LockInstance>, maxEdges: nat, edges: seq<Edge>,
                  nblocked: nat, nblocking: nat, worst: real)
    requires Scanned(s, locks, maxEdges, edges, nblocked, nblocking, worst)
    ensures Reported(s, locks, maxEdges, edges, nblocked, nblocking, worst)
  {
    hide FirstPairs, RowsRead, Dominates, LongestWait, AllHits, WaitedFor, BlockedFor;
    var at := KeptPairs(s, locks, maxEdges);
    var all := AllHits(s, locks);
    var n := if |all| <= maxEdges then |locks| else all[maxEdges].0 + 1;
    ReadRows(s, locks, maxEdges, at, n);
    WorstMeans(s, locks, n, worst);
    forall k | 0 <= k < |at| ensures at[k].0 < |locks| && WaitedFor(s, locks, at[k].0, edges[k].blockedFor) {
      WaitMeans(s, locks, at[k].0);
    }
    assert EdgesAt(s, locks, at, edges);
  }

  /** Edge `e` is that of the pair of rows `a` and `b`. */
  ghost predicate EdgeFor(s: Server, locks: seq<LockInstance>, a: nat, b: nat, e: Edge) {
    && Obstructed(s, locks, a, b) && e.blocked == locks[a].pid && e.blocking == locks[b].pid
    && WaitedFor(s, locks, a, e.blockedFor)
  }

  /** In particular an edge joins two sessions at one lock, and while there is room
      every such pair has its edge. */
  lemma EdgesJoinSameLock(s: Server, locks: seq<LockInstance>, maxEdges: nat, edges: seq<Edge>,
                          nblocked: nat, nblocking: nat, worst: real)
    requires Reported(s, locks, maxEdges, edges, nblocked, nblocking, worst)
    ensures forall e :: e in edges ==> exists a: nat, b: nat :: EdgeFor(s, locks, a, b, e)
    ensures |edges| < maxEdges ==>
              forall a: nat, b: nat :: Obstructed(s, locks, a, b) ==>
                exists e :: e in edges && EdgeFor(s, locks, a, b, e)
  {
    hide FirstPairs, EdgesAt, Obstructed, EdgeFor, LongestWait, RowsRead;
    var at: seq<(nat, nat)>, n: nat :| FirstPairs(s, locks, maxEdges, at) && EdgesAt(s, locks, at, edges)
          && RowsRead(s, locks, at, n) && LongestWait(s, locks, n, worst);
    SameNumber(s, locks, at, edges);
    forall k: nat | k < |at| ensures EdgeFor(s, locks, at[k].0, at[k].1, edges[k]) {
      EdgeAtIndex(s, locks, maxEdges, at, edges, k);
    }
    forall a: nat, b: nat | |edges| < maxEdges && Obstructed(s, locks, a, b)
      ensures exists e :: e in edges && EdgeFor(s, locks, a, b, e)
    {
      var k := KeptWhileRoom(s, locks, maxEdges, at, a, b);
      assert edges[k] in edges;
    }
  }

  lemma SameNumber(s: Server, locks: seq<LockInstance>, at: seq<(nat, nat)>, edges: seq<Edge>)
    requires EdgesAt(s, locks, at, edges)
    ensures |at| == |edges|
  {
  }

  lemma EdgeAtIndex(s: Server, locks: seq<LockInstance>, maxEdges: nat, at: seq<(nat, nat)>, edges: seq<Edge>, k: nat)
    requires FirstPairs(s, locks, maxEdges, at) && EdgesAt(s, locks, at, edges) && k < |at|
    ensures |edges| == |at| && EdgeFor(s, locks, at[k].0, at[k].1, edges[k])
  {
    hide Obstructed, WaitedFor;
    assert at[k] in at;
  }

  lemma KeptWhileRoom(s: Server, locks: seq<LockInstance>, maxEdges: nat, at: seq<(nat, nat)>, a: nat, b: nat)
      returns (k: nat)
    requires FirstPairs(s, locks, maxEdges, at) && |at| < maxEdges && Obstructed(s, locks, a, b)
    ensures k < |at| && at[k] == (a, b)
  {
    hide Obstructed;
    assert (a, b) in at;
    k :| 0 <= k < |at| && at[k] == (a, b);
  }

  // ---------- the scan ----------

  method ModesConflict(s: Server, held: set<int>, awaited: int) returns (conflict: bool)
    ensures conflict == HoldsAgainst(s, held, awaited)
  {
    conflict := false;
    var mode := 1;
    while mode < s.maxModes
      invariant 1 <= mode && !conflict
      invariant forall m :: 1 <= m < mode && m < s.maxModes ==> !(m in held && s.conflicts(m, awaited))
    {
      if mode in held && s.conflicts(mode, awaited) {
        conflict := true;
        break;
      }
      mode := mode + 1;
    }
  }

  /** `arr[..n]` lists a set of pids without repetition. */
  ghost predicate Lists(arr: array<int>, n: nat, pids: set<int>)
    reads arr
  {
    n <= arr.Length && Distinct(arr[..n]) && Elements(arr[..n]) == pids
  }

  method AddDistinct(arr: array<int>, n: nat, pid: int, ghost pids: set<int>) returns (n': nat)
    requires Lists(arr, n, pids) && n < arr.Length
    modifies arr
    ensures Lists(arr, n', pids + {pid}) && n' <= n + 1
  {
    n' := n;
    var seen := PidIndex(arr, n, pid);
    if seen < 0 && n < arr.Length {
      ghost var before := arr[..n];
      arr[n] := pid;
      n' := n + 1;
      assert arr[..n'] == before + [pid];
    }
  }

  /** `worst` is exactly the longest wait among the waiters of the first `i`
      rows, or 0. */
  ghost predicate Dominates(s: Server, locks: seq<LockInstance>, i: nat, worst: real) {
    && i <= |locks|
    && (forall k :: 0 <= k < i && Waits(s, locks[k]) ==> BlockedFor(s, locks[k]) <= worst)
    && worst >= 0.0
    && (worst == 0.0 || exists k :: 0 <= k < i && Waits(s, locks[k]) && BlockedFor(s, locks[k]) == worst)
  }

  /** The result of a scan that keeps at most `maxEdges` edges: the first ones in
      scan order, the exact numbers of different sessions at either end, and the
      longest wait of the rows looked at, which are all rows unless a hit found
      no room. */
  ghost predicate Scanned(s: Server, locks: seq<LockInstance>, maxEdges: nat,
                          edges: seq<Edge>, nblocked: nat, nblocking: nat, worst: real) {
    var all := AllHits(s, locks);
    && |edges| == (if |all| <= maxEdges then |all| else maxEdges)
    && EdgesOf(s, locks, all[..|edges|], edges)
    && nblocked == |BlockedPids(edges)| && nblocking == |BlockingPids(edges)|
    && (forall e :: e in edges ==> e.blockedFor <= worst)
    && Dominates(s, locks, if |all| <= maxEdges then |locks| else all[maxEdges].0 + 1, worst)
  }

  /** The accumulated state at position `(i, j)`. */
  ghost predicate ScanState(s: Server, locks: seq<LockInstance>, i: nat, j: nat, edges: seq<Edge>, worst: real) {
    && Position(locks, i, j)
    && EdgesOf(s, locks, HitsBefore(s, locks, i, j), edges)
    && (forall e :: e in edges ==> e.blockedFor <= worst)
  }

  lemma Miss(s: Server, locks: seq<LockInstance>, i: nat, j: nat, edges: seq<Edge>, worst: real)
    requires ScanState(s, locks, i, j, edges, worst) && i < |locks| && j < |locks| && !Hit(s, locks, i, j)
    ensures ScanState(s, locks, i, j + 1, edges, worst)
  {
  }

  lemma Append(s: Server, locks: seq<LockInstance>, i: nat, j: nat, edges: seq<Edge>, worst: real)
    requires ScanState(s, locks, i, j, edges, worst) && i < |locks| && j < |locks| && Hit(s, locks, i, j)
    requires BlockedFor(s, locks[i]) <= worst
    ensures ScanState(s, locks, i, j + 1, edges + [EdgeOf(s, locks, (i, j))], worst)
  {
    assert HitsBefore(s, locks, i, j + 1) == HitsBefore(s, locks, i, j) + [(i, j)];
  }

  lemma NextRow(s: Server, locks: seq<LockInstance>, i: nat, edges: seq<Edge>, worst: real)
    requires i < |locks| && ScanState(s, locks, i, |locks|, edges, worst)
    ensures ScanState(s, locks, i + 1, 0, edges, worst)
  {
  }

  lemma SkipRow(s: Server, locks: seq<LockInstance>, i: nat, edges: seq<Edge>, worst: real)
    requires i < |locks| && ScanState(s, locks, i, 0, edges, worst) && !Waits(s, locks[i])
    ensures ScanState(s, locks, i + 1, 0, edges, worst)
  {
    NoHitsInRow(s, locks, i, |locks|);
  }

  /** Out of room at a further hit: what was kept is a proper prefix. */
  lemma CutShort(s: Server, locks: seq<LockInstance>, i: nat, j: nat, edges: seq<Edge>, worst: real)
    requires ScanState(s, locks, i, j, edges, worst) && i < |locks| && j < |locks| && Hit(s, locks, i, j)
    ensures |edges| < |AllHits(s, locks)| && EdgesOf(s, locks, AllHits(s, locks)[..|edges|], edges)
    ensures AllHits(s, locks)[|edges|] == (i, j)
  {
    HitsGrow(s, locks, i, j + 1, |locks|, 0);
    assert HitsBefore(s, locks, i, j + 1) == HitsBefore(s, locks, i, j) + [(i, j)];
    assert AllHits(s, locks)[..|edges|] == HitsBefore(s, locks, i, j);
  }

  lemma Whole(s: Server, locks: seq<LockInstance>, edges: seq<Edge>, worst: real)
    requires ScanState(s, locks, |locks|, 0, edges, worst)
    ensures |edges| == |AllHits(s, locks)| && EdgesOf(s, locks, AllHits(s, locks)[..|edges|], edges)
  {
    assert AllHits(s, locks)[..|edges|] == HitsBefore(s, locks, |locks|, 0);
  }

  lemma BlockedPidsStep(edges: seq<Edge>, e: Edge)
    ensures BlockedPids(edges + [e]) == BlockedPids(edges) + {e.blocked}
    ensures BlockingPids(edges + [e]) == BlockingPids(edges) + {e.blocking}
  {
  }

  /** All holders for one waiter; `full` means that the edge list had no room
      for another hit and the whole scan ends. */
  method ScanRow(s: Server, locks: seq<LockInstance>, i: nat, maxEdges: nat, worst: real, edges0: seq<Edge>,
                 blockedPids: array<int>, nblocked0: nat, blockingPids: array<int>, nblocking0: nat)
      returns (edges: seq<Edge>, nblocked: nat, nblocking: nat, full: bool, ghost j': nat)
    requires i < |locks| && Waits(s, locks[i]) && BlockedFor(s, locks[i]) <= worst
    requires ScanState(s, locks, i, 0, edges0, worst)
    requires blockedPids.Length == blockingPids.Length == maxEdges && blockedPids != blockingPids
    requires nblocked0 <= |edges0| <= maxEdges && nblocking0 <= |edges0|
    requires Lists(blockedPids, nblocked0, BlockedPids(edges0)) && Lists(blockingPids, nblocking0, BlockingPids(edges0))
    modifies blockedPids, blockingPids
    ensures nblocked <= |edges| <= maxEdges && nblocking <= |edges|
    ensures Lists(blockedPids, nblocked, BlockedPids(edges)) && Lists(blockingPids, nblocking, BlockingPids(edges))
    ensures j' <= |locks| && ScanState(s, locks, i, j', edges, worst)
    ensures if full then |edges| == maxEdges && j' < |locks| && Hit(s, locks, i, j') else j' == |locks|
  {
    hide ScanState, Lists, BlockedPids, BlockingPids, HoldsAgainst;
    edges, nblocked, nblocking, full, j' := edges0, nblocked0, nblocking0, false, |locks|;
    var waiter := locks[i];
    for j := 0 to |locks|
      invariant nblocked <= |edges| <= maxEdges && nblocking <= |edges|
      invariant Lists(blockedPids, nblocked, BlockedPids(edges)) && Lists(blockingPids, nblocking, BlockingPids(edges))
      invariant ScanState(s, locks, i, j, edges, worst) && j' == |locks| && !full
    {
      var holder := locks[j];
      if holder.pid <= 0 || holder.pid == waiter.pid || holder.held == {} || waiter.tag != holder.tag {
        Miss(s, locks, i, j, edges, worst);
        continue;
      }
      var conflict := ModesConflict(s, holder.held, waiter.awaited);
      if !conflict {
        Miss(s, locks, i, j, edges, worst);
        continue;
      }
      if |edges| >= maxEdges {
        full, j' := true, j;
        return;
      }
      var edge := Edge(waiter.pid, holder.pid, BlockedFor(s, waiter));
      Append(s, locks, i, j, edges, worst);
      BlockedPidsStep(edges, edge);
      nblocked := AddDistinct(blockedPids, nblocked, waiter.pid, BlockedPids(edges));
      nblocking := AddDistinct(blockingPids, nblocking, holder.pid, BlockingPids(edges));
      edges := edges + [edge];
    }
  }

  method Scan(s: Server, locks: seq<LockInstance>, maxEdges: nat)
      returns (edges: seq<Edge>, nblocked: nat, nblocking: nat, worst: real)
    ensures Scanned(s, locks, maxEdges, edges, nblocked, nblocking, worst)
    ensures Reported(s, locks, maxEdges, edges, nblocked, nblocking, worst)
  {
    hide Reported, ScanState, Lists, BlockedPids, BlockingPids, EdgesOf, AllHits, Dominates;
    var blockedPids := new int[maxEdges];
    var blockingPids := new int[maxEdges];
    edges, nblocked, nblocking, worst := [], 0, 0, 0.0;
    NothingScanned(s, locks, blockedPids, blockingPids);
    for i := 0 to |locks|
      invariant nblocked <= |edges| <= maxEdges && nblocking <= |edges| && worst >= 0.0
      invariant Lists(blockedPids, nblocked, BlockedPids(edges)) && Lists(blockingPids, nblocking, BlockingPids(edges))
      invariant ScanState(s, locks, i, 0, edges, worst) && Dominates(s, locks, i, worst)
    {
      if locks[i].pid <= 0 || locks[i].awaited == 0 || locks[i].pid == s.myPid {
        SkipRow(s, locks, i, edges, worst);
        SkipWorst(s, locks, i, worst);
        continue;
      }
      var blockedFor := BlockedFor(s, locks[i]);
      RaiseWorst(s, locks, i, edges, worst);
      if blockedFor > worst {
        worst := blockedFor;
      }
      var full;
      ghost var j;
      edges, nblocked, nblocking, full, j :=
        ScanRow(s, locks, i, maxEdges, worst, edges, blockedPids, nblocked, blockingPids, nblocking);
      ListsCount(blockedPids, nblocked, BlockedPids(edges));
      ListsCount(blockingPids, nblocking, BlockingPids(edges));
      EdgesDominated(s, locks, i, j, edges, worst);
      if full {
        CutShort(s, locks, i, j, edges, worst);
        ScanMeans(s, locks, maxEdges, edges, nblocked, nblocking, worst);
        return;
      }
      NextRow(s, locks, i, edges, worst);
    }
    ListsCount(blockedPids, nblocked, BlockedPids(edges));
    ListsCount(blockingPids, nblocking, BlockingPids(edges));
    EdgesDominated(s, locks, |locks|, 0, edges, worst);
    Whole(s, locks, edges, worst);
    ScanMeans(s, locks, maxEdges, edges, nblocked, nblocking, worst);
  }

  lemma NothingScanned(s: Server, locks: seq<LockInstance>, a: array<int>, b: array<int>)
    ensures ScanState(s, locks, 0, 0, [], 0.0) && Dominates(s, locks, 0, 0.0)
    ensures Lists(a, 0, BlockedPids([])) && Lists(b, 0, BlockingPids([]))
  {
    assert HitsBefore(s, locks, 0, 0) == [];
  }

  lemma RaiseWorst(s: Server, locks: seq<LockInstance>, i: nat, edges: seq<Edge>, worst: real)
    requires i < |locks| && Waits(s, locks[i])
    requires ScanState(s, locks, i, 0, edges, worst) && Dominates(s, locks, i, worst)
    ensures var b := BlockedFor(s, locks[i]); var w := if b > worst then b else worst;
            ScanState(s, locks, i, 0, edges, w) && Dominates(s, locks, i + 1, w)
  {
  }

  lemma SkipWorst(s: Server, locks: seq<LockInstance>, i: nat, worst: real)
    requires i < |locks| && !Waits(s, locks[i]) && Dominates(s, locks, i, worst)
    ensures Dominates(s, locks, i + 1, worst)
  {
  }

  lemma EdgesDominated(s: Server, locks: seq<LockInstance>, i: nat, j: nat, edges: seq<Edge>, worst: real)
    requires ScanState(s, locks, i, j, edges, worst)
    ensures forall e :: e in edges ==> e.blockedFor <= worst
  {
  }

  lemma ListsCount(arr: array<int>, n: nat, pids: set<int>)
    requires Lists(arr, n, pids)
    ensures n == |pids|
  {
    DistinctCount(arr[..n]);
  }
}
