/** Breadth-first search from one root blocker, over the raw edge list. */
module Bfs {
  import opened Digraph
  import opened Interning

  /** `e` is the largest distance of a descendant from `r`. */
  ghost predicate IsEccentricity(g: Graph, r: int, e: nat) {
    && (forall v, d: nat :: v in Descendants(g, r) && IsDist(g, v, r, d) ==> d <= e)
    && exists v :: v in Descendants(g, r) && IsDist(g, v, r, e)
  }

  // ---------- the search state: queue `q` of slots, depths `d` by slot ----------

  ghost predicate Queue(t: seq<int>, q: seq<int>, d: seq<int>, r: int) {
    && |d| >= |t| && |q| >= 1
    && (forall x :: 0 <= x < |q| ==> 0 <= q[x] < |t|)
    && t[q[0]] == r && d[q[0]] == 0
    && (forall x, y :: 0 <= x < y < |q| ==> q[x] != q[y] && d[q[x]] <= d[q[y]])
  }

  ghost predicate Sound(g: Graph, t: seq<int>, q: seq<int>, d: seq<int>, r: int)
    requires Queue(t, q, d, r)
  {
    forall x :: 0 <= x < |q| ==> d[q[x]] >= 0 && HasWalk(g, t[q[x]], r, d[q[x]])
  }

  /** Everyone who waits for slot `cur` according to `h` is queued, at most one
      step deeper. */
  ghost predicate Covered(h: Graph, t: seq<int>, q: seq<int>, d: seq<int>, cur: int)
    requires 0 <= cur < |t| <= |d|
  {
    forall c :: 0 <= c < |t| && (t[c], t[cur]) in h ==> c in q && d[c] <= d[cur] + 1
  }

  ghost predicate Expanded(g: Graph, t: seq<int>, q: seq<int>, d: seq<int>, r: int, m: int)
    requires Queue(t, q, d, r) && m <= |q|
  {
    forall x :: 0 <= x < m ==> Covered(g, t, q, d, q[x])
  }

  lemma QueueFits(t: seq<int>, q: seq<int>, d: seq<int>, r: int, child: int)
    requires Queue(t, q, d, r) && 0 <= child < |t| && child !in q
    ensures |q| < |t|
  {
    assert Distinct(q);
    DistinctCount(q);
    assert Elements(q) <= Slots(|t|) - {child};
    SubsetCount(Elements(q), Slots(|t|) - {child});
  }

  ghost function Slots(n: nat): (s: set<int>)
    ensures |s| == n && forall i :: i in s <==> 0 <= i < n
  {
    if n == 0 then {} else Slots(n - 1) + {n - 1}
  }

  /** Appending a new waiter of the slot being expanded keeps the queue in
      order of depth and every recorded depth realised by a walk. */
  lemma Push(g: Graph, t: seq<int>, q: seq<int>, d: seq<int>, r: int, m: nat, child: int)
    requires Queue(t, q, d, r) && Sound(g, t, q, d, r)
    requires m < |q| && d[q[|q| - 1]] <= d[q[m]] + 1
    requires 0 <= child < |t| && child !in q && (t[child], t[q[m]]) in g
    ensures Queue(t, q + [child], d[child := d[q[m]] + 1], r)
    ensures Sound(g, t, q + [child], d[child := d[q[m]] + 1], r)
  {
    Prepend(g, t[child], t[q[m]], r, d[q[m]]);
  }

  lemma PushKeepsCovered(h: Graph, t: seq<int>, q: seq<int>, d: seq<int>, cur: int, child: int, z: int)
    requires 0 <= cur < |t| <= |d| && cur in q && 0 <= child < |t| && child !in q
    requires Covered(h, t, q, d, cur)
    ensures Covered(h, t, q + [child], d[child := z], cur)
  {
  }

  /** Once every queued slot is expanded, no walk to the root can start outside
      the queue or be shorter than the recorded depth. */
  lemma {:induction false} NoShorterWalk(g: Graph, t: seq<int>, q: seq<int>, d: seq<int>, r: int, p: seq<int>)
      returns (x: nat)
    requires On(g, t) && Distinct(t)
    requires Queue(t, q, d, r) && Expanded(g, t, q, d, r, |q|)
    requires Walk(g, p) && p[|p| - 1] == r
    ensures x < |q| && t[q[x]] == p[0] && d[q[x]] <= |p| - 1
    decreases |p|
  {
    if |p| == 1 {
      x := 0;
    } else {
      assert Walk(g, p[1..]);
      var y := NoShorterWalk(g, t, q, d, r, p[1..]);
      assert (p[0], p[0 + 1]) in g;
      var c :| 0 <= c < |t| && t[c] == p[0];
      assert Covered(g, t, q, d, q[y]);
      x :| 0 <= x < |q| && q[x] == c;
    }
  }

  lemma Located(g: Graph, t: seq<int>, q: seq<int>, d: seq<int>, r: int, v: int) returns (x: nat)
    requires On(g, t) && Distinct(t) && Root(g, r)
    requires Queue(t, q, d, r) && Sound(g, t, q, d, r) && Expanded(g, t, q, d, r, |q|)
    requires v in Descendants(g, r)
    ensures 0 < x < |q| && t[q[x]] == v && IsDist(g, v, r, d[q[x]])
  {
    var n: nat :| n >= 1 && HasWalk(g, v, r, n);
    var p :| WalkFromTo(g, p, v, r) && |p| == n + 1;
    x := NoShorterWalk(g, t, q, d, r, p);
    forall m: nat | HasWalk(g, v, r, m) ensures d[q[x]] <= m {
      var p' :| WalkFromTo(g, p', v, r) && |p'| == m + 1;
      var y := NoShorterWalk(g, t, q, d, r, p');
      assert q[x] == q[y];
    }
  }

  lemma IsLocated(g: Graph, t: seq<int>, q: seq<int>, d: seq<int>, r: int, x: nat)
    requires On(g, t) && Distinct(t) && Root(g, r)
    requires Queue(t, q, d, r) && Sound(g, t, q, d, r) && Expanded(g, t, q, d, r, |q|)
    requires 0 < x < |q|
    ensures t[q[x]] in Descendants(g, r) && IsDist(g, t[q[x]], r, d[q[x]])
  {
    var v := t[q[x]];
    assert v != r by { assert q[0] != q[x]; }
    var p :| WalkFromTo(g, p, v, r) && |p| == d[q[x]] + 1;
    assert |p| >= 2;
    assert (p[0], p[0 + 1]) in g;
    var y := Located(g, t, q, d, r, v);
    assert q[x] == q[y];
  }

  ghost function Found(t: seq<int>, q: seq<int>, d: seq<int>, r: int): seq<int>
    requires Queue(t, q, d, r)
  {
    seq(|q| - 1, i requires 0 <= i < |q| - 1 => t[q[i + 1]])
  }

  lemma FoundIsDescendants(g: Graph, t: seq<int>, q: seq<int>, d: seq<int>, r: int)
    requires On(g, t) && Distinct(t) && Root(g, r)
    requires Queue(t, q, d, r) && Sound(g, t, q, d, r) && Expanded(g, t, q, d, r, |q|)
    ensures Elements(Found(t, q, d, r)) == Descendants(g, r)
  {
    hide Descendants;
    var found := Found(t, q, d, r);
    forall v | v in Descendants(g, r) ensures v in found {
      var x := Located(g, t, q, d, r, v);
      assert found[x - 1] == v;
    }
    forall v | v in found ensures v in Descendants(g, r) {
      var i :| 0 <= i < |found| && found[i] == v;
      IsLocated(g, t, q, d, r, i + 1);
    }
  }

  /** The finished search: it queued exactly the descendants, and the depth of
      the last one is the root's eccentricity. */
  lemma SearchIsExact(g: Graph, t: seq<int>, q: seq<int>, d: seq<int>, r: int)
    requires On(g, t) && Distinct(t) && Root(g, r)
    requires Queue(t, q, d, r) && Sound(g, t, q, d, r) && Expanded(g, t, q, d, r, |q|)
    ensures |Descendants(g, r)| == |q| - 1
    ensures d[q[|q| - 1]] >= 0 && IsEccentricity(g, r, d[q[|q| - 1]])
  {
    hide Descendants, Root;
    assert |Descendants(g, r)| == |q| - 1 by {
      FoundIsDescendants(g, t, q, d, r);
      DistinctCount(Found(t, q, d, r));
    }
    RootHasDescendant(g, r);
    assert |q| > 1;
    IsLocated(g, t, q, d, r, |q| - 1);
    forall v, e: nat | v in Descendants(g, r) && IsDist(g, v, r, e) ensures e <= d[q[|q| - 1]] {
      var x := Located(g, t, q, d, r, v);
      assert HasWalk(g, v, r, d[q[x]]);
    }
  }

  // ---------- one edge of one expansion ----------

  /** The search while the `m`-th queued slot is being expanded and `k` edges
      have been looked at. */
  ghost predicate State(edges: seq<Edge>, k: nat, t: seq<int>, q: seq<int>, d: seq<int>, r: int, m: nat) {
    && k <= |edges| && Distinct(t) && |d| >= |t|
    && Queue(t, q, d, r) && m < |q|
    && Sound(Induced(edges, |edges|, t), t, q, d, r)
    && Expanded(Induced(edges, |edges|, t), t, q, d, r, m)
    && Covered(Induced(edges, k, t), t, q, d, q[m])
    && d[q[|q| - 1]] <= d[q[m]] + 1
  }

  lemma StateBounds(edges: seq<Edge>, k: nat, t: seq<int>, q: seq<int>, d: seq<int>, r: int, m: nat)
    requires State(edges, k, t, q, d, r, m)
    ensures m < |q| && 0 <= q[m] < |t| <= |d| && 0 <= q[|q| - 1] < |t|
    ensures d[q[|q| - 1]] <= d[q[m]] + 1
    ensures forall child :: 0 <= child < |t| && child !in q ==> |q| < |t|
  {
    forall child | 0 <= child < |t| && child !in q ensures |q| < |t| { QueueFits(t, q, d, r, child); }
  }

  /** An edge with nothing new to say. */
  lemma SkipEdge(edges: seq<Edge>, k: nat, t: seq<int>, q: seq<int>, d: seq<int>, r: int, m: nat)
    requires State(edges, k, t, q, d, r, m) && k < |edges|
    requires var e := edges[k];
             e.blocking != t[q[m]] || e.blocked !in t || exists c :: 0 <= c < |t| && t[c] == e.blocked && c in q
    ensures State(edges, k + 1, t, q, d, r, m)
  {
    InducedStep(edges, k, t, t);
    var h, h' := Induced(edges, k, t), Induced(edges, k + 1, t);
    forall c | 0 <= c < |t| && (t[c], t[q[m]]) in h' ensures c in q && d[c] <= d[q[m]] + 1 {
      if (t[c], t[q[m]]) !in h {
        assert t[c] == edges[k].blocked;
        var x :| 0 <= x < |q| && q[x] == c;
      }
    }
  }

  lemma PushEdge(edges: seq<Edge>, k: nat, t: seq<int>, q: seq<int>, d: seq<int>, r: int, m: nat, child: int)
    requires State(edges, k, t, q, d, r, m) && k < |edges|
    requires 0 <= child < |t| && child !in q && edges[k].blocked == t[child] && edges[k].blocking == t[q[m]]
    ensures State(edges, k + 1, t, q + [child], d[child := d[q[m]] + 1], r, m)
  {
    var g, h, h' := Induced(edges, |edges|, t), Induced(edges, k, t), Induced(edges, k + 1, t);
    var q', d' := q + [child], d[child := d[q[m]] + 1];
    assert Usable(edges[k], t);
    assert (t[child], t[q[m]]) in g;
    Push(g, t, q, d, r, m, child);
    forall x | 0 <= x < m ensures Covered(g, t, q', d', q'[x]) {
      assert Covered(g, t, q, d, q[x]);
      PushKeepsCovered(g, t, q, d, q[x], child, d[q[m]] + 1);
    }
    PushKeepsCovered(h, t, q, d, q[m], child, d[q[m]] + 1);
    InducedStep(edges, k, t, t);
    assert Covered(h', t, q', d', q[m]);
  }

  ghost predicate Marked(visited: seq<bool>, n: nat, q: seq<int>) {
    n <= |visited| && forall c :: 0 <= c < n ==> (visited[c] <==> c in q)
  }

  lemma MarkMeans(visited: seq<bool>, n: nat, q: seq<int>, c: int)
    requires Marked(visited, n, q) && 0 <= c < n
    ensures visited[c] <==> c in q
  {
  }

  lemma Mark(visited: seq<bool>, n: nat, q: seq<int>, child: int)
    requires Marked(visited, n, q) && 0 <= child < n
    ensures Marked(visited[child := true], n, q + [child])
  {
  }

  /** The search between two expansions: the first `m` queued slots are done. */
  ghost predicate Between(edges: seq<Edge>, t: seq<int>, q: seq<int>, d: seq<int>, r: int, m: nat) {
    && Distinct(t) && |d| >= |t|
    && Queue(t, q, d, r) && m <= |q|
    && Sound(Induced(edges, |edges|, t), t, q, d, r)
    && Expanded(Induced(edges, |edges|, t), t, q, d, r, m)
    && (m < |q| ==> d[q[|q| - 1]] <= d[q[m]] + 1)
  }

  lemma Start(edges: seq<Edge>, t: seq<int>, d: seq<int>, root: nat)
    requires Distinct(t) && root < |t| <= |d| && d[root] == 0
    ensures Between(edges, t, [root], d, t[root], 0)
  {
    Trivial(Induced(edges, |edges|, t), t[root]);
  }

  lemma BeginExpansion(edges: seq<Edge>, t: seq<int>, q: seq<int>, d: seq<int>, r: int, m: nat)
    requires Between(edges, t, q, d, r, m) && m < |q|
    ensures State(edges, 0, t, q, d, r, m)
  {
  }

  lemma EndExpansion(edges: seq<Edge>, t: seq<int>, q: seq<int>, d: seq<int>, r: int, m: nat)
    requires State(edges, |edges|, t, q, d, r, m)
    ensures Between(edges, t, q, d, r, m + 1)
  {
  }

  lemma Finish(edges: seq<Edge>, t: seq<int>, q: seq<int>, d: seq<int>, r: int)
    requires Between(edges, t, q, d, r, |q|) && Root(Induced(edges, |edges|, t), r)
    ensures var g := Induced(edges, |edges|, t); var e := d[q[|q| - 1]];
            |Descendants(g, r)| == |q| - 1 && e >= 0 && IsEccentricity(g, r, e)
  {
    SearchIsExact(Induced(edges, |edges|, t), t, q, d, r);
  }

  /** The counters that go with a queue. */
  ghost predicate Counted(q: seq<int>, d: seq<int>, descendants: int, deepest: int) {
    |q| >= 1 && 0 <= q[|q| - 1] < |d| && descendants == |q| - 1 && deepest == d[q[|q| - 1]]
  }

  // ---------- the array code ----------

  /** Scanning all edges for those that wait for the `m`-th queued slot. The
      bound on the queue never bites. */
  method Expand(edges: seq<Edge>, pids: array<int>, npids: nat, ghost t: seq<int>, ghost r: int,
                visited: array<bool>, queue: array<int>, depth: array<int>, m: nat, qt0: nat,
                descendants0: int, deepest0: int)
      returns (qt: nat, descendants: int, deepest: int)
    requires npids <= pids.Length == visited.Length == queue.Length == depth.Length
    requires queue != depth && pids != queue && pids != depth
    requires t == pids[..npids] && m < qt0 <= npids
    requires State(edges, 0, t, queue[..qt0], depth[..], r, m)
    requires Marked(visited[..], npids, queue[..qt0])
    requires Counted(queue[..qt0], depth[..], descendants0, deepest0)
    modifies visited, queue, depth
    ensures qt0 <= qt <= npids
    ensures State(edges, |edges|, t, queue[..qt], depth[..], r, m)
    ensures Marked(visited[..], npids, queue[..qt])
    ensures Counted(queue[..qt], depth[..], descendants, deepest)
  {
    hide State, Marked;
    qt, descendants, deepest := qt0, descendants0, deepest0;
    for k := 0 to |edges|
      invariant qt0 <= qt <= npids && t == pids[..npids]
      invariant State(edges, k, t, queue[..qt], depth[..], r, m)
      invariant Marked(visited[..], npids, queue[..qt])
      invariant Counted(queue[..qt], depth[..], descendants, deepest)
    {
      var e := edges[k];
      ghost var q, d, v := queue[..qt], depth[..], visited[..];
      StateBounds(edges, k, t, q, d, r, m);
      assert m < qt && queue[m] == q[m];
      var cur := queue[m];
      assert pids[cur] == t[cur];
      if e.blocking != pids[cur] {
        SkipEdge(edges, k, t, q, d, r, m);
        continue;
      }
      var child := PidIndex(pids, npids, e.blocked);
      if child < 0 {
        SkipEdge(edges, k, t, q, d, r, m);
        continue;
      }
      assert t[child] == e.blocked;
      assert visited[child] <==> child in q by { MarkMeans(v, npids, q, child); }
      if visited[child] {
        SkipEdge(edges, k, t, q, d, r, m);
        continue;
      }
      PushEdge(edges, k, t, q, d, r, m, child);
      Mark(v, npids, q, child);
      assert qt < npids;
      visited[child] := true;
      depth[child] := depth[cur] + 1;
      if depth[child] > deepest {
        deepest := depth[child];
      }
      descendants := descendants + 1;
      queue[qt] := child;
      qt := qt + 1;
      assert queue[..qt] == q + [child] && depth[..] == d[child := d[cur] + 1] && visited[..] == v[child := true];
    }
  }

  /** From a root: how many sessions wait for it, and how far the farthest is. */
  method BfsFrom(edges: seq<Edge>, pids: array<int>, npids: nat, root: nat)
      returns (descendants: int, deepest: int)
    requires root < npids <= pids.Length && Distinct(pids[..npids])
    requires Root(Induced(edges, |edges|, pids[..npids]), pids[root])
    ensures var g := Induced(edges, |edges|, pids[..npids]);
            descendants == |Descendants(g, pids[root])| && deepest >= 0 && IsEccentricity(g, pids[root], deepest)
  {
    hide State, Between, Descendants, IsEccentricity, Root;
    var visited := new bool[pids.Length](_ => false);
    var queue := new int[pids.Length];
    var depth := new int[pids.Length];
    ghost var t, r := pids[..npids], pids[root];
    var qh, qt := 0, 0;
    descendants, deepest := 0, 0;
    queue[qt] := root;
    depth[root] := 0;
    visited[root] := true;
    qt := qt + 1;
    assert queue[..qt] == [root];
    Start(edges, t, depth[..], root);
    while qh < qt
      invariant 1 <= qt <= npids && qh <= qt && t == pids[..npids]
      invariant Between(edges, t, queue[..qt], depth[..], r, qh)
      invariant Marked(visited[..], npids, queue[..qt])
      invariant Counted(queue[..qt], depth[..], descendants, deepest)
      decreases npids - qh
    {
      BeginExpansion(edges, t, queue[..qt], depth[..], r, qh);
      qt, descendants, deepest := Expand(edges, pids, npids, t, r, visited, queue, depth, qh, qt, descendants, deepest);
      EndExpansion(edges, t, queue[..qt], depth[..], r, qh);
      qh := qh + 1;
    }
    Finish(edges, t, queue[..qt], depth[..], r);
  }
}
