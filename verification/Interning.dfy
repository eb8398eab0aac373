/** The bounded pid table that both graph passes build while reading the edge
    list, and the subgraph it induces. */
module Interning {
  import opened Digraph

  datatype Edge = Edge(blocked: int, blocking: int, blockedFor: real)

  /** The table after trying to give `pid` a slot. */
  ghost function Intern(t: seq<int>, pid: int, cap: nat): seq<int> {
    if pid in t || |t| >= cap then t else t + [pid]
  }

  ghost function InternEnds(t: seq<int>, e: Edge, cap: nat): seq<int> {
    Intern(Intern(t, e.blocked, cap), e.blocking, cap)
  }

  /** The table after the first `k` edges. */
  ghost function Table(edges: seq<Edge>, k: nat, cap: nat): seq<int>
    requires k <= |edges|
  {
    if k == 0 then []
    else
      InternEnds(Table(edges, k - 1, cap), edges[k - 1], cap)
  }

  /** An edge is used exactly if both its ends got a slot. */
  ghost predicate Usable(e: Edge, t: seq<int>) {
    e.blocked in t && e.blocking in t
  }

  /** The arcs among the first `k` edges that have both ends in `t`. */
  ghost function Induced(edges: seq<Edge>, k: nat, t: seq<int>): Graph
    requires k <= |edges|
  {
    set i | 0 <= i < k && Usable(edges[i], t) :: (edges[i].blocked, edges[i].blocking)
  }

  ghost function ArcsSoFar(edges: seq<Edge>, k: nat, cap: nat): Graph
    requires k <= |edges|
  {
    Induced(edges, k, Table(edges, k, cap))
  }

  /** The relation that both passes work on. */
  ghost function WaitGraph(edges: seq<Edge>, cap: nat): Graph {
    ArcsSoFar(edges, |edges|, cap)
  }

  ghost function FullGraph(edges: seq<Edge>): Graph {
    set e | e in edges :: (e.blocked, e.blocking)
  }

  ghost function BlockedPids(edges: seq<Edge>): set<int> { set e | e in edges :: e.blocked }
  ghost function BlockingPids(edges: seq<Edge>): set<int> { set e | e in edges :: e.blocking }

  // ---------- facts about the table ----------

  ghost predicate AllUsable(edges: seq<Edge>, k: nat, t: seq<int>)
    requires k <= |edges|
  {
    forall i :: 0 <= i < k ==> Usable(edges[i], t)
  }

  /** A full table stays as it is; in one with a free slot everybody fits. */
  lemma InternEndsStep(t: seq<int>, e: Edge, cap: nat)
    requires |t| <= cap
    ensures |t| <= |InternEnds(t, e, cap)| <= cap
    ensures forall x :: x in t ==> x in InternEnds(t, e, cap)
    ensures |t| == cap ==> InternEnds(t, e, cap) == t
    ensures |InternEnds(t, e, cap)| < cap ==> Usable(e, InternEnds(t, e, cap))
  {
  }

  lemma {:induction false} TableFits(edges: seq<Edge>, k: nat, cap: nat)
    requires k <= |edges|
    ensures |Table(edges, k, cap)| <= cap
  {
    hide InternEnds;
    if k > 0 {
      TableFits(edges, k - 1, cap);
      InternEndsStep(Table(edges, k - 1, cap), edges[k - 1], cap);
    }
  }

  lemma {:induction false} TableDistinct(edges: seq<Edge>, k: nat, cap: nat)
    requires k <= |edges|
    ensures Distinct(Table(edges, k, cap))
  {
    if k > 0 {
      TableDistinct(edges, k - 1, cap);
    }
  }

  /** While a slot is free nothing has been turned away. */
  lemma {:induction false} FreeSlotMeansComplete(edges: seq<Edge>, k: nat, cap: nat)
    requires k <= |edges|
    ensures |Table(edges, k, cap)| < cap ==> AllUsable(edges, k, Table(edges, k, cap))
  {
    hide InternEnds;
    if k > 0 {
      TableFits(edges, k - 1, cap);
      FreeSlotMeansComplete(edges, k - 1, cap);
      InternEndsStep(Table(edges, k - 1, cap), edges[k - 1], cap);
    }
  }

  lemma {:induction false} TableGrows(edges: seq<Edge>, k: nat, m: nat, cap: nat)
    requires k <= m <= |edges|
    ensures forall x :: x in Table(edges, k, cap) ==> x in Table(edges, m, cap)
    ensures |Table(edges, k, cap)| == cap ==> Table(edges, k, cap) == Table(edges, m, cap)
    decreases m
  {
    hide InternEnds;
    if k < m {
      TableGrows(edges, k, m - 1, cap);
      TableFits(edges, m - 1, cap);
      InternEndsStep(Table(edges, m - 1, cap), edges[m - 1], cap);
    }
  }

  /** An edge turned away when it was read never becomes usable later: what was
      decided at its turn agrees with every later table. */
  lemma DecidedOnce(edges: seq<Edge>, i: nat, k: nat, m: nat, cap: nat)
    requires i < k <= m <= |edges|
    ensures Usable(edges[i], Table(edges, k, cap)) <==> Usable(edges[i], Table(edges, m, cap))
  {
    TableGrows(edges, k, m, cap);
    TableFits(edges, k, cap);
    FreeSlotMeansComplete(edges, k, cap);
  }

  lemma InducedStep(edges: seq<Edge>, k: nat, s: seq<int>, t: seq<int>)
    requires k < |edges|
    requires forall i :: 0 <= i < k ==> (Usable(edges[i], s) <==> Usable(edges[i], t))
    ensures var e := edges[k];
            Induced(edges, k + 1, t) ==
            Induced(edges, k, s) + (if Usable(e, t) then {(e.blocked, e.blocking)} else {})
  {
  }

  /** So the relation can be accumulated edge by edge. */
  lemma ArcsStep(edges: seq<Edge>, k: nat, cap: nat)
    requires k < |edges|
    ensures var e := edges[k];
            ArcsSoFar(edges, k + 1, cap) ==
            ArcsSoFar(edges, k, cap) + (if Usable(e, Table(edges, k + 1, cap)) then {(e.blocked, e.blocking)} else {})
  {
    hide Table;
    var s, t := Table(edges, k, cap), Table(edges, k + 1, cap);
    forall i | 0 <= i < k ensures Usable(edges[i], s) <==> Usable(edges[i], t) {
      DecidedOnce(edges, i, k, k + 1, cap);
    }
    InducedStep(edges, k, s, t);
  }

  /** Taking part is decided per edge by the final table, whatever the order of
      the edges made of it. */
  lemma WaitGraphIsInduced(edges: seq<Edge>, cap: nat, e: Edge)
    requires e in edges
    ensures var t := Table(edges, |edges|, cap);
            (e.blocked, e.blocking) in WaitGraph(edges, cap) <==> Usable(e, t)
  {
    var i :| 0 <= i < |edges| && edges[i] == e;
  }

  lemma ArcsOnTable(edges: seq<Edge>, k: nat, cap: nat)
    requires k <= |edges|
    ensures On(ArcsSoFar(edges, k, cap), Table(edges, k, cap))
  {
  }

  /** With two slots or more the first edge always fits. */
  lemma WaitGraphNonEmpty(edges: seq<Edge>, cap: nat)
    requires edges != [] && cap >= 2
    ensures WaitGraph(edges, cap) != {}
  {
    assert Table(edges, 0, cap) == [];
    assert Usable(edges[0], Table(edges, 1, cap));
    DecidedOnce(edges, 0, 1, |edges|, cap);
    assert (edges[0].blocked, edges[0].blocking) in WaitGraph(edges, cap);
  }

  /** Truncation only removes arcs, and removes none while a slot is free: a
      reported cycle is a real one. */
  lemma TruncationIsSound(edges: seq<Edge>, cap: nat)
    ensures WaitGraph(edges, cap) <= FullGraph(edges)
    ensures |Table(edges, |edges|, cap)| < cap ==> WaitGraph(edges, cap) == FullGraph(edges)
    ensures Cyclic(WaitGraph(edges, cap)) ==> Cyclic(FullGraph(edges))
  {
    FreeSlotMeansComplete(edges, |edges|, cap);
    var g, h := WaitGraph(edges, cap), FullGraph(edges);
    if Cyclic(g) {
      var p :| Walk(g, p) && |p| >= 2 && p[0] == p[|p| - 1];
      assert Walk(h, p);
    }
  }

  // ---------- who gets a slot ----------

  /** The pids in the order in which they are read: of every edge the blocked one,
      then the blocking one. */
  ghost function EndAt(edges: seq<Edge>, p: int): int
    requires 0 <= p < 2 * |edges|
  {
    if p % 2 == 0 then edges[p / 2].blocked else edges[p / 2].blocking
  }

  ghost function EndsBefore(edges: seq<Edge>, p: int): set<int>
    requires 0 <= p <= 2 * |edges|
  {
    set q | 0 <= q < p :: EndAt(edges, q)
  }

  /** At some place, fewer than `cap` different pids have been read before `pid`. */
  ghost predicate Early(edges: seq<Edge>, n: int, cap: nat, pid: int)
    requires 0 <= n <= 2 * |edges|
  {
    exists p :: 0 <= p < n && EndAt(edges, p) == pid && |EndsBefore(edges, p)| < cap
  }

  ghost predicate Seated(edges: seq<Edge>, cap: nat, pid: int) { Early(edges, 2 * |edges|, cap, pid) }

  /** The edges between such pids. */
  ghost function SeatedArcs(edges: seq<Edge>, cap: nat): Graph {
    set e | e in edges && Seated(edges, cap, e.blocked) && Seated(edges, cap, e.blocking) :: (e.blocked, e.blocking)
  }

  /** Slots follow the order of first occurrence. */
  ghost predicate ByFirstOccurrence(edges: seq<Edge>, n: int, t: seq<int>)
    requires 0 <= n <= 2 * |edges|
  {
    forall i, j, q :: 0 <= i < j < |t| && 0 <= q < n && EndAt(edges, q) == t[j] ==> t[i] in EndsBefore(edges, q)
  }

  /** The table after `n` pids. */
  ghost predicate FirstComers(edges: seq<Edge>, n: int, cap: nat, t: seq<int>)
    requires 0 <= n <= 2 * |edges|
  {
    && |t| <= cap && Distinct(t) && ByFirstOccurrence(edges, n, t)
    && (if |EndsBefore(edges, n)| < cap then Elements(t) == EndsBefore(edges, n) else |t| == cap)
    && (forall x :: x in t ==> x in EndsBefore(edges, n))
    && (forall x :: x in t <==> Early(edges, n, cap, x))
  }

  lemma EndsBeforeStep(edges: seq<Edge>, n: int)
    requires 0 <= n < 2 * |edges|
    ensures EndsBefore(edges, n + 1) == EndsBefore(edges, n) + {EndAt(edges, n)}
    ensures |EndsBefore(edges, n)| <= |EndsBefore(edges, n + 1)| <= |EndsBefore(edges, n)| + 1
  {
    var a, b := EndsBefore(edges, n), EndsBefore(edges, n + 1);
    if EndAt(edges, n) in a { assert b == a; }
  }

  lemma EarlyStep(edges: seq<Edge>, n: int, cap: nat, x: int)
    requires 0 <= n < 2 * |edges|
    ensures Early(edges, n + 1, cap, x) <==>
            Early(edges, n, cap, x) || (EndAt(edges, n) == x && |EndsBefore(edges, n)| < cap)
  {
  }

  lemma InternKeepsFirstComers(edges: seq<Edge>, n: int, cap: nat, t: seq<int>)
    requires 0 <= n < 2 * |edges| && FirstComers(edges, n, cap, t)
    ensures FirstComers(edges, n + 1, cap, Intern(t, EndAt(edges, n), cap))
  {
    hide EndsBefore, Early, EndAt, Distinct, ByFirstOccurrence;
    var y := EndAt(edges, n);
    var t' := Intern(t, y, cap);
    EndsBeforeStep(edges, n);
    DistinctCount(t);
    forall x
      ensures Early(edges, n + 1, cap, x) <==> Early(edges, n, cap, x) || (y == x && |EndsBefore(edges, n)| < cap)
    {
      EarlyStep(edges, n, cap, x);
    }
    InternKeepsOrder(edges, n, cap, t);
    InternKeepsDistinct(t, y, cap);
    if t' == t + [y] {
      assert Elements(t') == Elements(t) + {y};
      assert y !in EndsBefore(edges, n);
      assert |EndsBefore(edges, n + 1)| == |t| + 1;
    }
  }

  lemma InternKeepsDistinct(t: seq<int>, y: int, cap: nat)
    requires Distinct(t)
    ensures Distinct(Intern(t, y, cap))
  {
  }

  lemma InternKeepsOrder(edges: seq<Edge>, n: int, cap: nat, t: seq<int>)
    requires 0 <= n < 2 * |edges| && ByFirstOccurrence(edges, n, t)
    requires forall x :: x in t ==> x in EndsBefore(edges, n)
    requires |t| < cap ==> EndsBefore(edges, n) == Elements(t)
    ensures ByFirstOccurrence(edges, n + 1, Intern(t, EndAt(edges, n), cap))
  {
    var t' := Intern(t, EndAt(edges, n), cap);
    forall i, j, q | 0 <= i < j < |t'| && 0 <= q < n + 1 && EndAt(edges, q) == t'[j]
      ensures t'[i] in EndsBefore(edges, q)
    {
      assert t'[i] == t[i] && t[i] in t;
      assert q < n ==> EndAt(edges, q) in EndsBefore(edges, n);
      assert q < n && j < |t| ==> t'[j] == t[j];
    }
  }

  lemma {:induction false} TableIsFirstComers(edges: seq<Edge>, k: nat, cap: nat)
    requires k <= |edges|
    ensures FirstComers(edges, 2 * k, cap, Table(edges, k, cap))
  {
    hide FirstComers, EndAt, Intern;
    if k == 0 {
      NobodyCame(edges, cap);
    } else {
      TableIsFirstComers(edges, k - 1, cap);
      var t := Table(edges, k - 1, cap);
      EdgeEnds(edges, k - 1);
      InternKeepsFirstComers(edges, 2 * k - 2, cap, t);
      InternKeepsFirstComers(edges, 2 * k - 1, cap, Intern(t, edges[k - 1].blocked, cap));
    }
  }

  lemma EdgeEnds(edges: seq<Edge>, k: nat)
    requires k < |edges|
    ensures EndAt(edges, 2 * k) == edges[k].blocked && EndAt(edges, 2 * k + 1) == edges[k].blocking
  {
  }

  lemma NobodyCame(edges: seq<Edge>, cap: nat)
    ensures FirstComers(edges, 0, cap, [])
  {
    assert EndsBefore(edges, 0) == {};
  }

  /** From the edge list alone: the table holds the first `cap` different pids, in
      the order in which they are first read. */
  lemma TableHoldsFirstComers(edges: seq<Edge>, cap: nat)
    ensures forall x :: x in Table(edges, |edges|, cap) <==> Seated(edges, cap, x)
    ensures ByFirstOccurrence(edges, 2 * |edges|, Table(edges, |edges|, cap))
  {
    hide Early, Table;
    TableIsFirstComers(edges, |edges|, cap);
  }

  /** So the arcs that take part are those between pids that were read early
      enough. */
  lemma WaitGraphIsSeated(edges: seq<Edge>, cap: nat)
    ensures WaitGraph(edges, cap) == SeatedArcs(edges, cap)
  {
    hide Seated, Table;
    TableHoldsFirstComers(edges, cap);
    var g, h := WaitGraph(edges, cap), SeatedArcs(edges, cap);
    forall a | a in h ensures a in g {
      var e :| e in edges && Seated(edges, cap, e.blocked) && Seated(edges, cap, e.blocking)
               && a == (e.blocked, e.blocking);
      WaitGraphIsInduced(edges, cap, e);
    }
  }

  /** Reading the blocking end first would give the last slot to somebody else: with
      three slots, 1, 2 and 3 get them here, and their cycle is seen. */
  lemma BlockedEndFirst()
    ensures var edges := [Edge(1, 2, 0.0), Edge(3, 4, 0.0), Edge(2, 3, 0.0), Edge(3, 1, 0.0)];
            Table(edges, 4, 3) == [1, 2, 3] && Cyclic(WaitGraph(edges, 3))
  {
    var edges := [Edge(1, 2, 0.0), Edge(3, 4, 0.0), Edge(2, 3, 0.0), Edge(3, 1, 0.0)];
    assert Table(edges, 1, 3) == [1, 2];
    assert Table(edges, 2, 3) == [1, 2, 3];
    assert Table(edges, 3, 3) == [1, 2, 3];
    assert Table(edges, 4, 3) == [1, 2, 3];
    WaitGraphIsInduced(edges, 3, edges[0]);
    WaitGraphIsInduced(edges, 3, edges[2]);
    WaitGraphIsInduced(edges, 3, edges[3]);
    assert Walk(WaitGraph(edges, 3), [1, 2, 3, 1]);
  }

  // ---------- the array code ----------

  /** Linear search in the first `n` slots. */
  method PidIndex(pids: array<int>, n: nat, pid: int) returns (k: int)
    requires n <= pids.Length
    ensures k == -1 ==> pid !in pids[..n]
    ensures k != -1 ==> 0 <= k < n && pids[k] == pid
  {
    k := 0;
    while k < n
      invariant 0 <= k <= n && pid !in pids[..k]
    {
      if pids[k] == pid { return; }
      k := k + 1;
    }
    k := -1;
  }

  /** The slot handling shared by both passes: `a` and `b` are the slots of the
      two ends, and a negative one means that the caller skips the edge. */
  method InternEdge(pids: array<int>, npids: nat, e: Edge) returns (n: nat, a: int, b: int)
    requires npids <= pids.Length && Distinct(pids[..npids])
    modifies pids
    ensures npids <= n <= pids.Length
    ensures pids[..npids] == old(pids[..npids])
    ensures pids[..n] == InternEnds(old(pids[..npids]), e, pids.Length)
    ensures Usable(e, pids[..n]) <==> a >= 0 && b >= 0
    ensures a >= 0 && b >= 0 ==> a < n && b < n && pids[a] == e.blocked && pids[b] == e.blocking
  {
    ghost var before := pids[..npids];
    n, b := npids, -1;
    a := PidIndex(pids, n, e.blocked);
    if a < 0 {
      if n >= pids.Length { return; }
      a := n;
      pids[n] := e.blocked;
      n := n + 1;
      assert pids[..n] == before + [e.blocked];
    }
    ghost var middle := pids[..n];
    assert a < n && e.blocked == middle[a];
    b := PidIndex(pids, n, e.blocking);
    if b < 0 {
      if n >= pids.Length { return; }
      b := n;
      pids[n] := e.blocking;
      n := n + 1;
      assert pids[..n] == middle + [e.blocking];
      assert pids[..n][b] == e.blocking && pids[..n][a] == e.blocked;
    } else {
      assert pids[..n][b] == e.blocking && pids[..n][a] == e.blocked;
    }
  }
}
