/** Severity of the blocker chains: the maxima of the searches from all roots,
    and what the two numbers mean together with the cycle check. */
module ChainSeverity {
  import opened Digraph
  import opened Interning
  import opened Bfs

  /** `depth` and `count` are the exact maxima over the roots of eccentricity
      and number of descendants, and 0 when there is no root. */
  ghost predicate IsSeverity(g: Graph, depth: int, count: int) {
    && depth >= 0 && count >= 0
    && (forall r :: Root(g, r) ==> |Descendants(g, r)| <= count)
    && (forall r, e: nat :: Root(g, r) && IsEccentricity(g, r, e) ==> e <= depth)
    && (count > 0 ==> exists r :: Root(g, r) && |Descendants(g, r)| == count)
    && (depth > 0 ==> exists r :: Root(g, r) && IsEccentricity(g, r, depth))
  }

  // ---------- the meaning of the numbers ----------

  lemma EccentricityUnique(g: Graph, r: int, e: nat, f: nat)
    requires IsEccentricity(g, r, e) && IsEccentricity(g, r, f)
    ensures e == f
  {
  }

  lemma SeverityUnique(g: Graph, depth: int, count: int, depth': int, count': int)
    requires IsSeverity(g, depth, count) && IsSeverity(g, depth', count')
    ensures depth == depth' && count == count'
  {
  }

  lemma {:induction false} EccentricityExists(g: Graph, r: int, s: set<int>) returns (e: nat, v: int)
    requires s <= Descendants(g, r) && s != {}
    ensures v in s && IsDist(g, v, r, e)
    ensures forall u, d: nat :: u in s && IsDist(g, u, r, d) ==> d <= e
    decreases s
  {
    hide IsDist;
    var w :| w in s;
    var n: nat :| n >= 1 && HasWalk(g, w, r, n);
    var d := ShortestExists(g, w, r, n);
    e, v := d, w;
    if s != {w} {
      var e', v' := EccentricityExists(g, r, s - {w});
      if e' > d { e, v := e', v'; }
    }
    forall u, c: nat | u in s && IsDist(g, u, r, c) ensures c <= e {
      if u == w { DistUnique(g, w, r, c, d); }
    }
  }

  lemma DistUnique(g: Graph, u: int, v: int, c: nat, d: nat)
    requires IsDist(g, u, v, c) && IsDist(g, u, v, d)
    ensures c == d
  {
  }

  /** A farthest descendant is at the end of a shortest walk all of whose other
      vertices are descendants too, and different ones. */
  lemma DepthWithinCount(g: Graph, r: int, e: nat)
    requires Root(g, r) && IsEccentricity(g, r, e)
    ensures e <= |Descendants(g, r)|
  {
    var v :| v in Descendants(g, r) && IsDist(g, v, r, e);
    var p :| WalkFromTo(g, p, v, r) && |p| == e + 1;
    ShortestWalkIsSimple(g, p, v, r);
    forall x | x in p[..e] ensures x in Descendants(g, r) {
      var i :| 0 <= i < e && p[i] == x;
      assert WalkFromTo(g, p[i..], x, r) && |p[i..]| == e - i + 1;
      assert HasWalk(g, x, r, e - i);
      assert (p[i], p[i + 1]) in g;
    }
    assert Distinct(p[..e]);
    Pigeonhole(p[..e], Descendants(g, r));
  }

  /** Every layer of the search is inhabited, every descendant is a different
      blocked session of the table, and a root is not among its own. */
  lemma SeverityBounds(edges: seq<Edge>, cap: nat, depth: int, count: int)
    requires IsSeverity(WaitGraph(edges, cap), depth, count)
    ensures depth <= count <= |BlockedPids(edges)|
    ensures count > 0 ==> count <= cap - 1
  {
    var g, t := WaitGraph(edges, cap), Table(edges, |edges|, cap);
    if count > 0 {
      var r :| Root(g, r) && |Descendants(g, r)| == count;
      assert Descendants(g, r) <= BlockedPids(edges);
      SubsetCount(Descendants(g, r), BlockedPids(edges));
      assert Descendants(g, r) + {r} <= Elements(t);
      RootIsNoDescendant(g, r);
      SubsetCount(Descendants(g, r) + {r}, Elements(t));
      TableDistinct(edges, |edges|, cap);
      DistinctCount(t);
      TableFits(edges, |edges|, cap);
    }
    if depth > 0 {
      var r :| Root(g, r) && IsEccentricity(g, r, depth);
      DepthWithinCount(g, r, depth);
    }
  }

  lemma RootMakesSeverity(g: Graph, r: int, depth: int, count: int)
    requires Root(g, r) && IsSeverity(g, depth, count)
    ensures depth >= 1 && count >= 1
  {
    hide IsDist;
    RootHasDescendant(g, r);
    assert |Descendants(g, r)| >= 1;
    var e, v := EccentricityExists(g, r, Descendants(g, r));
    assert IsEccentricity(g, r, e);
    assert e >= 1 by {
      if e == 0 { DistZero(g, v, r); RootIsNoDescendant(g, r); }
    }
  }

  lemma DistZero(g: Graph, v: int, r: int)
    requires IsDist(g, v, r, 0)
    ensures v == r
  {
  }

  /** The two analyses agree: whenever something waits and no cycle is
      reported, there is a chain to report, however many sessions did not fit
      in the table. */
  lemma AcyclicHasChain(edges: seq<Edge>, cap: nat, depth: int, count: int)
    requires edges != [] && cap >= 2
    requires IsSeverity(WaitGraph(edges, cap), depth, count)
    ensures !Cyclic(WaitGraph(edges, cap)) ==> depth >= 1 && count >= 1
    ensures count == 0 || depth == 0 ==> Cyclic(WaitGraph(edges, cap))
  {
    hide Induced, IsSeverity;
    var g := WaitGraph(edges, cap);
    WaitGraphNonEmpty(edges, cap);
    var a :| a in g;
    if !Cyclic(g) {
      var r, _ := AcyclicHasRoot(g, [a.0, a.1]);
      RootMakesSeverity(g, r, depth, count);
    }
  }

  // ---------- depth against longest chains ----------

  /** No chain of waits that ends at a root is longer than `depth`. */
  ghost predicate RootChainsWithin(g: Graph, depth: int) {
    forall r, v, n: nat :: Root(g, r) && HasWalk(g, v, r, n) ==> n <= depth
  }

  /** No chain of waits at all is. */
  ghost predicate ChainsWithin(g: Graph, depth: int) {
    forall p :: Walk(g, p) ==> |p| - 1 <= depth
  }

  ghost predicate Leads(g: Graph, v: int) {
    exists r, n: nat :: Root(g, r) && HasWalk(g, v, r, n)
  }

  /** A labelling with heights from 0 to `depth` that falls along every arc on the
      way to a root. */
  ghost predicate Heights(g: Graph, h: int -> int, depth: int) {
    forall u, w :: (u, w) in g && Leads(g, w) ==> 0 <= h(w) < h(u) <= depth
  }

  ghost function Largest(s: set<nat>): (r: nat)
    ensures s != {} ==> r in s
    ensures forall m :: m in s ==> m <= r
  {
    if s == {} then 0
    else
      var x :| x in s;
      var r := Largest(s - {x});
      assert forall m :: m in s ==> m == x || m in s - {x};
      if x > r || s == {x} then x else r
  }

  lemma HeightFalls(g: Graph, h: int -> int, depth: int, u: int, w: int)
    requires Heights(g, h, depth) && (u, w) in g && Leads(g, w)
    ensures 0 <= h(w) < h(u) <= depth
  {
  }

  lemma {:induction false} WalkFalls(g: Graph, h: int -> int, depth: int, p: seq<int>, r: int)
    requires Heights(g, h, depth) && Root(g, r) && Walk(g, p) && |p| >= 2 && p[|p| - 1] == r
    ensures |p| - 1 <= h(p[0]) <= depth
    decreases |p|
  {
    var q := p[1..];
    assert WalkFromTo(g, q, p[1], r);
    assert HasWalk(g, p[1], r, |q| - 1);
    assert (p[0], p[0 + 1]) in g && Leads(g, p[1]);
    HeightFalls(g, h, depth, p[0], p[1]);
    if |p| > 2 { WalkFalls(g, h, depth, q, r); }
  }

  lemma HeightsBoundChains(g: Graph, h: int -> int, depth: int)
    requires Heights(g, h, depth) && depth >= 0
    ensures RootChainsWithin(g, depth)
  {
    forall r, v, n: nat | Root(g, r) && HasWalk(g, v, r, n) ensures n <= depth {
      var p :| WalkFromTo(g, p, v, r) && |p| == n + 1;
      if n > 0 { WalkFalls(g, h, depth, p, r); }
    }
  }

  ghost predicate ToSomeRoot(g: Graph, v: int, n: nat) {
    exists r :: Root(g, r) && HasWalk(g, v, r, n)
  }

  ghost function LongestToRoot(g: Graph, v: int, depth: nat): (m: nat)
    ensures (exists n: nat :: n <= depth && ToSomeRoot(g, v, n)) ==> ToSomeRoot(g, v, m)
    ensures forall n: nat :: n <= depth && ToSomeRoot(g, v, n) ==> n <= m <= depth
  {
    var lengths := set n: nat | n <= depth && ToSomeRoot(g, v, n);
    assert forall n: nat :: n <= depth && ToSomeRoot(g, v, n) ==> n in lengths;
    Largest(lengths)
  }

  /** Bounded chains give heights: the length of the longest chain to a root. */
  lemma ChainsGiveHeights(g: Graph, depth: nat) returns (h: int -> int)
    requires RootChainsWithin(g, depth)
    ensures Heights(g, h, depth)
  {
    h := v => LongestToRoot(g, v, depth);
    forall u, w | (u, w) in g && Leads(g, w) ensures 0 <= h(w) < h(u) <= depth {
      var r0, n: nat :| Root(g, r0) && HasWalk(g, w, r0, n);
      assert ToSomeRoot(g, w, n);
      var m := LongestToRoot(g, w, depth);
      var r :| Root(g, r) && HasWalk(g, w, r, m);
      Prepend(g, u, w, r, m);
      assert ToSomeRoot(g, u, m + 1);
    }
  }

  lemma {:induction false} AllChainsWithinIff(g: Graph, depth: nat)
    ensures ChainsWithin(g, depth) <==> RootChainsWithin(g, depth) && !Cyclic(g)
  {
    if ChainsWithin(g, depth) {
      forall r, v, n: nat | Root(g, r) && HasWalk(g, v, r, n) ensures n <= depth {
        var p :| WalkFromTo(g, p, v, r) && |p| == n + 1;
      }
      if Cyclic(g) {
        var p :| Walk(g, p) && |p| >= 2 && p[0] == p[|p| - 1];
        var q := Pump(g, p, depth + 1);
        assert false;
      }
    }
    if RootChainsWithin(g, depth) && !Cyclic(g) {
      forall p | Walk(g, p) ensures |p| - 1 <= depth {
        if |p| >= 2 {
          var r, climb := AcyclicHasRoot(g, p);
          assert HasWalk(g, p[0], r, |climb| - 1);
        }
      }
    }
  }

  /** Heights up to the distance of some session from some root. */
  ghost predicate HasTightHeights(g: Graph) {
    exists h, d: nat :: Heights(g, h, d) && (d == 0 || exists r, v :: Root(g, r) && IsDist(g, v, r, d))
  }

  /** The reported depth is the length of the longest chain of waits to a root
      exactly if the arcs towards roots can be labelled with falling heights up to
      some distance from a root, and of the longest chain whatever exactly if,
      besides, there is no cycle. A depth above 0 is always the length of some
      chain. */
  lemma DepthIsLongestIff(g: Graph, depth: int, count: int)
    requires IsSeverity(g, depth, count)
    ensures RootChainsWithin(g, depth) <==> HasTightHeights(g)
    ensures ChainsWithin(g, depth) <==> !Cyclic(g) && HasTightHeights(g)
    ensures depth > 0 ==> exists r, v :: Root(g, r) && HasWalk(g, v, r, depth)
  {
    hide Heights, RootChainsWithin, ChainsWithin, Root, IsDist;
    SeverityNonNegative(g, depth, count);
    DepthIsDistance(g, depth, count);
    if RootChainsWithin(g, depth) { var h := ChainsGiveHeights(g, depth); }
    if HasTightHeights(g) { TightHeightsBound(g, depth, count); }
    AllChainsWithinIff(g, depth);
  }

  lemma DepthIsDistance(g: Graph, depth: int, count: int)
    requires IsSeverity(g, depth, count)
    ensures depth > 0 ==> exists r, v :: Root(g, r) && IsDist(g, v, r, depth)
    ensures depth > 0 ==> exists r, v :: Root(g, r) && HasWalk(g, v, r, depth)
  {
    if depth > 0 {
      var r :| Root(g, r) && IsEccentricity(g, r, depth);
      var v :| v in Descendants(g, r) && IsDist(g, v, r, depth);
      assert HasWalk(g, v, r, depth);
    }
  }

  lemma TightHeightsBound(g: Graph, depth: int, count: int)
    requires IsSeverity(g, depth, count) && HasTightHeights(g)
    ensures RootChainsWithin(g, depth)
  {
    hide IsSeverity, Heights, IsDist, Root;
    SeverityNonNegative(g, depth, count);
    var h, d: nat :| Heights(g, h, d) && (d == 0 || exists r, v :: Root(g, r) && IsDist(g, v, r, d));
    HeightsBoundChains(g, h, d);
    if d > 0 {
      var r, v :| Root(g, r) && IsDist(g, v, r, d);
      DistWithinDepth(g, depth, count, r, v, d);
    }
  }

  /** For any number at all, heights up to it are what bounds the chains. */
  lemma ChainsWithinIff(g: Graph, depth: nat)
    ensures RootChainsWithin(g, depth) <==> exists h :: Heights(g, h, depth)
    ensures ChainsWithin(g, depth) <==> !Cyclic(g) && exists h :: Heights(g, h, depth)
  {
    if h :| Heights(g, h, depth) { HeightsBoundChains(g, h, depth); }
    if RootChainsWithin(g, depth) { var h := ChainsGiveHeights(g, depth); }
    AllChainsWithinIff(g, depth);
  }

  lemma DistWithinDepth(g: Graph, depth: int, count: int, r: int, v: int, d: nat)
    requires IsSeverity(g, depth, count) && Root(g, r) && IsDist(g, v, r, d)
    ensures d <= depth
  {
    if d > 0 {
      var p :| WalkFromTo(g, p, v, r) && |p| == d + 1;
      assert (p[0], p[0 + 1]) in g;
      assert v in Descendants(g, r);
      var e, w := EccentricityExists(g, r, Descendants(g, r));
      assert IsEccentricity(g, r, e);
    }
  }

  /** Every waiter of somebody `n` steps from the root is itself `n + 1` steps
      away: no wait jumps over a layer. */
  ghost predicate Layered(g: Graph, r: int) {
    forall u, w, n: nat, m: nat :: (u, w) in g && IsDist(g, w, r, n) && IsDist(g, u, r, m) ==> m == n + 1
  }

  /** Exactly then is every chain into the root, and not only the longest, as short
      as it can be. */
  lemma ChainsAreShortestIffLayered(g: Graph, r: int)
    requires Root(g, r)
    ensures Layered(g, r) <==>
            forall v, n: nat, d: nat :: HasWalk(g, v, r, n) && IsDist(g, v, r, d) ==> n == d
  {
    if Layered(g, r) {
      forall v, n: nat, d: nat | HasWalk(g, v, r, n) && IsDist(g, v, r, d) ensures n == d {
        var p :| WalkFromTo(g, p, v, r) && |p| == n + 1;
        LayeredWalk(g, r, p, d);
      }
    }
    if forall v, n: nat, d: nat :: HasWalk(g, v, r, n) && IsDist(g, v, r, d) ==> n == d {
      forall u, w, n: nat, m: nat | (u, w) in g && IsDist(g, w, r, n) && IsDist(g, u, r, m) ensures m == n + 1 {
        Prepend(g, u, w, r, n);
      }
    }
  }

  lemma {:induction false} LayeredWalk(g: Graph, r: int, p: seq<int>, d: nat)
    requires Root(g, r) && Layered(g, r)
    requires Walk(g, p) && p[|p| - 1] == r && IsDist(g, p[0], r, d)
    ensures d == |p| - 1
    decreases |p|
  {
    if |p| == 1 {
      Trivial(g, r);
    } else {
      var q := p[1..];
      assert WalkFromTo(g, q, q[0], r);
      assert HasWalk(g, q[0], r, |q| - 1);
      var e := ShortestExists(g, q[0], r, |q| - 1);
      LayeredWalk(g, r, q, e);
      assert (p[0], p[0 + 1]) in g;
    }
  }

  /** Nobody waits for two sessions at once. */
  ghost predicate SingleBlocker(g: Graph) {
    forall a, b :: a in g && b in g && a.0 == b.0 ==> a == b
  }

  ghost predicate AtDist(g: Graph, v: int, d: nat) {
    exists r :: Root(g, r) && IsDist(g, v, r, d)
  }

  ghost function FarthestRoot(g: Graph, v: int, depth: nat): (m: nat)
    ensures (exists d: nat :: d <= depth && AtDist(g, v, d)) ==> AtDist(g, v, m)
    ensures forall d: nat :: d <= depth && AtDist(g, v, d) ==> d <= m <= depth
  {
    var distances := set d: nat | d <= depth && AtDist(g, v, d);
    assert forall d: nat :: d <= depth && AtDist(g, v, d) ==> d in distances;
    Largest(distances)
  }

  /** Where no wait jumps over a layer, and so where everybody waits for one session
      only, the distances themselves are such heights. */
  lemma LayeredDepthIsLongest(g: Graph, depth: int, count: int)
    requires IsSeverity(g, depth, count)
    requires SingleBlocker(g) || forall r :: Root(g, r) ==> Layered(g, r)
    ensures RootChainsWithin(g, depth)
  {
    hide IsSeverity, Layered, IsDist;
    SeverityNonNegative(g, depth, count);
    var h: int -> int := v => FarthestRoot(g, v, depth);
    forall u, w | (u, w) in g && Leads(g, w) ensures 0 <= h(w) < h(u) <= depth {
      var r0, n: nat :| Root(g, r0) && HasWalk(g, w, r0, n);
      var d0 := ShortestExists(g, w, r0, n);
      DistWithinDepth(g, depth, count, r0, w, d0);
      assert AtDist(g, w, d0);
      var n0 := FarthestRoot(g, w, depth);
      var r :| Root(g, r) && IsDist(g, w, r, n0);
      if SingleBlocker(g) { SingleBlockerIsLayered(g, r); }
      var m := NextLayer(g, r, u, w, n0);
      DistWithinDepth(g, depth, count, r, u, m);
      assert AtDist(g, u, m);
    }
    HeightsBoundChains(g, h, depth);
  }

  lemma SeverityNonNegative(g: Graph, depth: int, count: int)
    requires IsSeverity(g, depth, count)
    ensures depth >= 0
  {
  }

  lemma NextLayer(g: Graph, r: int, u: int, w: int, n: nat) returns (m: nat)
    requires Layered(g, r) && (u, w) in g && IsDist(g, w, r, n)
    ensures m == n + 1 && IsDist(g, u, r, m)
  {
    Prepend(g, u, w, r, n);
    m := ShortestExists(g, u, r, n + 1);
  }

  lemma SingleBlockerIsLayered(g: Graph, r: int)
    requires SingleBlocker(g) && Root(g, r)
    ensures Layered(g, r)
  {
    forall u, w, n: nat, m: nat | (u, w) in g && IsDist(g, w, r, n) && IsDist(g, u, r, m) ensures m == n + 1 {
      Prepend(g, u, w, r, n);
      var p :| WalkFromTo(g, p, u, r) && |p| == m + 1;
      assert |p| >= 2 by { assert u in Tails(g); }
      assert (p[0], p[0 + 1]) in g;
      assert p[1] == w by { assert (u, p[1]) == (u, w); }
      assert WalkFromTo(g, p[1..], w, r);
      assert HasWalk(g, w, r, m - 1);
    }
  }

  /** In general it is not: 1 waits for 2 and for 3, and 2 waits for 3. The
      chain 1, 2, 3 has length 2, the search reports depth 1. */
  lemma DepthIsNotLongest()
    ensures var g := WaitGraph([Edge(1, 2, 0.0), Edge(1, 3, 0.0), Edge(2, 3, 0.0)], 64);
            IsSeverity(g, 1, 2) && Root(g, 3) && HasWalk(g, 1, 3, 2) && !HasTightHeights(g)
  {
    hide Induced, InternEnds, Table, WaitGraph, ArcsSoFar;
    var es := [Edge(1, 2, 0.0), Edge(1, 3, 0.0), Edge(2, 3, 0.0)];
    var g := WaitGraph(es, 64);
    TriangleGraph();
    assert Root(g, 3);
    assert WalkFromTo(g, [1, 2, 3], 1, 3);
    assert HasWalk(g, 1, 3, 2);
    Trivial(g, 3);
    Prepend(g, 1, 3, 3, 0);
    Prepend(g, 2, 3, 3, 0);
    assert Descendants(g, 3) == {1, 2};
    forall v, d: nat | v in {1, 2} && IsDist(g, v, 3, d) ensures d <= 1 {
    }
    assert IsDist(g, 1, 3, 1) by { assert !HasWalk(g, 1, 3, 0); }
    assert IsEccentricity(g, 3, 1);
    forall r | Root(g, r) ensures r == 3 {
    }
    DepthIsLongestIff(g, 1, 2);
  }

  lemma TriangleGraph()
    ensures WaitGraph([Edge(1, 2, 0.0), Edge(1, 3, 0.0), Edge(2, 3, 0.0)], 64) == {(1, 2), (1, 3), (2, 3)}
  {
    var es := [Edge(1, 2, 0.0), Edge(1, 3, 0.0), Edge(2, 3, 0.0)];
    assert Table(es, 1, 64) == [1, 2];
    assert Table(es, 2, 64) == [1, 2, 3];
    assert Table(es, 3, 64) == [1, 2, 3];
    InducedStep(es, 0, [1, 2, 3], [1, 2, 3]);
    InducedStep(es, 1, [1, 2, 3], [1, 2, 3]);
    InducedStep(es, 2, [1, 2, 3], [1, 2, 3]);
  }

  // ---------- the array code ----------

  ghost predicate Flags(blocked: array<bool>, blocker: array<bool>, t: seq<int>, g: Graph)
    reads blocked, blocker
  {
    && blocked.Length == blocker.Length && |t| <= blocked.Length
    && (forall i :: 0 <= i < |t| ==> (blocked[i] <==> t[i] in Tails(g)) && (blocker[i] <==> t[i] in Heads(g)))
    && (forall i :: |t| <= i < blocked.Length ==> !blocked[i] && !blocker[i])
  }

  /** Second reading of the edges: who is blocked and who blocks. */
  method FlagEnds(edges: seq<Edge>, pids: array<int>, blocked: array<bool>, blocker: array<bool>) returns (npids: nat)
    requires pids.Length == blocked.Length == blocker.Length && blocked != blocker
    requires forall i :: 0 <= i < pids.Length ==> !blocked[i] && !blocker[i]
    modifies pids, blocked, blocker
    ensures npids <= pids.Length && pids[..npids] == Table(edges, |edges|, pids.Length)
    ensures Flags(blocked, blocker, pids[..npids], WaitGraph(edges, pids.Length))
  {
    hide InternEnds, Table, Induced;
    ghost var cap := pids.Length;
    npids := 0;
    assert Table(edges, 0, cap) == [] && ArcsSoFar(edges, 0, cap) == {} by { NothingRead(edges, cap); }
    for k := 0 to |edges|
      invariant 0 <= npids <= cap && pids[..npids] == Table(edges, k, cap)
      invariant Flags(blocked, blocker, pids[..npids], ArcsSoFar(edges, k, cap))
    {
      ghost var s, g := pids[..npids], ArcsSoFar(edges, k, cap);
      TableDistinct(edges, k, cap);
      TableDistinct(edges, k + 1, cap);
      ArcsOnTable(edges, k, cap);
      ArcsStep(edges, k, cap);
      TableStep(edges, k, cap);
      var a, b;
      npids, a, b := InternEdge(pids, npids, edges[k]);
      ghost var t := pids[..npids];
      assert t[..|s|] == s;
      FlagsLonger(blocked, blocker, s, t, g);
      if a < 0 || b < 0 { continue; }
      SetFlags(blocked, blocker, a, b, t, g);
    }
  }

  lemma NothingRead(edges: seq<Edge>, cap: nat)
    ensures Table(edges, 0, cap) == [] && ArcsSoFar(edges, 0, cap) == {}
  {
  }

  lemma TableStep(edges: seq<Edge>, k: nat, cap: nat)
    requires k < |edges|
    ensures Table(edges, k + 1, cap) == InternEnds(Table(edges, k, cap), edges[k], cap)
  {
  }

  lemma FlagsLonger(blocked: array<bool>, blocker: array<bool>, s: seq<int>, t: seq<int>, g: Graph)
    requires s <= t && |t| <= blocked.Length && Distinct(t)
    requires Flags(blocked, blocker, s, g) && On(g, s)
    ensures Flags(blocked, blocker, t, g)
  {
    assert forall x :: 0 <= x < |s| ==> t[x] == s[x];
    assert forall i :: |s| <= i < |t| ==> t[i] !in s;
  }

  method SetFlags(blocked: array<bool>, blocker: array<bool>, a: nat, b: nat, ghost t: seq<int>, ghost g: Graph)
    requires Flags(blocked, blocker, t, g) && blocked != blocker && Distinct(t) && a < |t| && b < |t|
    modifies blocked, blocker
    ensures Flags(blocked, blocker, t, g + {(t[a], t[b])})
  {
    assert Tails(g + {(t[a], t[b])}) == Tails(g) + {t[a]};
    assert Heads(g + {(t[a], t[b])}) == Heads(g) + {t[b]};
    blocked[a] := true;
    blocker[b] := true;
  }

  /** The maxima over the roots among the first `n` slots. */
  ghost predicate SeveritySoFar(g: Graph, t: seq<int>, n: nat, depth: int, count: int) {
    && n <= |t| && depth >= 0 && count >= 0
    && (forall i :: 0 <= i < n && Root(g, t[i]) ==> |Descendants(g, t[i])| <= count)
    && (forall i, e: nat :: 0 <= i < n && Root(g, t[i]) && IsEccentricity(g, t[i], e) ==> e <= depth)
    && (count > 0 ==> exists r :: Root(g, r) && |Descendants(g, r)| == count)
    && (depth > 0 ==> exists r :: Root(g, r) && IsEccentricity(g, r, depth))
  }

  lemma SeverityStep(g: Graph, t: seq<int>, n: nat, depth: int, count: int, e: nat, c: int)
    requires SeveritySoFar(g, t, n, depth, count) && n < |t| && Root(g, t[n])
    requires c == |Descendants(g, t[n])| && IsEccentricity(g, t[n], e)
    ensures SeveritySoFar(g, t, n + 1, if e > depth then e else depth, if c > count then c else count)
  {
    hide Root, Descendants, IsEccentricity;
    forall f: nat | IsEccentricity(g, t[n], f) ensures f == e { EccentricityUnique(g, t[n], e, f); }
  }

  lemma SeverityDone(g: Graph, t: seq<int>, depth: int, count: int)
    requires SeveritySoFar(g, t, |t|, depth, count) && On(g, t)
    ensures IsSeverity(g, depth, count)
  {
    forall r | Root(g, r) ensures exists i :: 0 <= i < |t| && t[i] == r {
      var a :| a in g && a.1 == r;
    }
  }

  /** The numbers that go into the graph: see `IsSeverity`. */
  method ComputeChainSeverity(edges: seq<Edge>, cap: nat) returns (depth: int, count: int)
    ensures IsSeverity(WaitGraph(edges, cap), depth, count)
    ensures IsSeverity(SeatedArcs(edges, cap), depth, count)
  {
    hide Descendants, IsEccentricity, Induced, SeveritySoFar, IsSeverity, Table;
    var pids := new int[cap];
    var blocked := new bool[cap](_ => false);
    var blocker := new bool[cap](_ => false);
    var npids := FlagEnds(edges, pids, blocked, blocker);
    ghost var t, g := pids[..npids], WaitGraph(edges, cap);
    TableDistinct(edges, |edges|, cap);
    depth, count := 0, 0;
    NoSeverity(g, t);
    for i := 0 to npids
      invariant t == pids[..npids] && Flags(blocked, blocker, t, g)
      invariant SeveritySoFar(g, t, i, depth, count)
    {
      if !blocker[i] || blocked[i] {
        SkipSlot(g, t, i, depth, count);
        continue;
      }
      var descendants, deepest := BfsFrom(edges, pids, npids, i);
      SeverityStep(g, t, i, depth, count, deepest, descendants);
      if descendants > count {
        count := descendants;
      }
      if deepest > depth {
        depth := deepest;
      }
    }
    ArcsOnTable(edges, |edges|, cap);
    SeverityDone(g, t, depth, count);
    WaitGraphIsSeated(edges, cap);
  }

  lemma NoSeverity(g: Graph, t: seq<int>)
    ensures SeveritySoFar(g, t, 0, 0, 0)
  {
  }

  lemma SkipSlot(g: Graph, t: seq<int>, n: nat, depth: int, count: int)
    requires SeveritySoFar(g, t, n, depth, count) && n < |t| && !Root(g, t[n])
    ensures SeveritySoFar(g, t, n + 1, depth, count)
  {
  }
}
