/** Deadlock detection: a matrix of the interned relation, closed in place. */
module CycleCheck {
  import opened Digraph
  import opened Interning

  /** What the matrix `adj` says about the slots of table `t`. */
  ghost predicate Represents(adj: array2<bool>, t: seq<int>, g: Graph)
    requires |t| <= adj.Length0 && |t| <= adj.Length1
    reads adj
  {
    forall i, j :: 0 <= i < adj.Length0 && 0 <= j < adj.Length1 ==>
      (adj[i, j] <==> i < |t| && j < |t| && (t[i], t[j]) in g)
  }

  /** Row `i` of stage `k` of Warshall's algorithm. Row `k` is read while row
      `i` is written; when they coincide nothing changes. */
  method CloseRow(adj: array2<bool>, t: seq<int>, k: nat, i: nat, ghost g: Graph)
    requires k < |t| <= adj.Length0 && |t| <= adj.Length1 && i < |t|
    requires forall j :: 0 <= j < |t| ==> adj[i, j] == Via(g, t[..k], t[i], t[j])
    requires forall j :: 0 <= j < |t| ==> adj[k, j] == Via(g, t[..k], t[k], t[j])
    modifies adj
    ensures forall j :: 0 <= j < |t| ==> adj[i, j] == Via(g, t[..k + 1], t[i], t[j])
    ensures forall i', j :: 0 <= i' < adj.Length0 && i' != i && 0 <= j < adj.Length1 ==>
              adj[i', j] == old(adj[i', j])
  {
    assert t[..k + 1][..k] == t[..k];
    if adj[i, k] {
      for j := 0 to |t|
        invariant forall c :: 0 <= c < j ==> adj[i, c] == Via(g, t[..k + 1], t[i], t[c])
        invariant forall c :: j <= c < |t| ==> adj[i, c] == Via(g, t[..k], t[i], t[c])
        invariant forall c :: 0 <= c < |t| ==> adj[k, c] == Via(g, t[..k], t[k], t[c])
        invariant forall i', c :: 0 <= i' < adj.Length0 && i' != i && 0 <= c < adj.Length1 ==>
                    adj[i', c] == old(adj[i', c])
      {
        if adj[k, j] {
          adj[i, j] := true;
        }
      }
    }
  }

  method Warshall(adj: array2<bool>, t: seq<int>, ghost g: Graph)
    requires |t| <= adj.Length0 && |t| <= adj.Length1
    requires Represents(adj, t, g)
    modifies adj
    ensures forall i, j :: 0 <= i < |t| && 0 <= j < |t| ==> adj[i, j] == Via(g, t, t[i], t[j])
  {
    for k := 0 to |t|
      invariant forall i, j :: 0 <= i < |t| && 0 <= j < |t| ==> adj[i, j] == Via(g, t[..k], t[i], t[j])
    {
      assert t[..k + 1][..k] == t[..k];
      for i := 0 to |t|
        invariant forall a, j :: 0 <= a < i && 0 <= j < |t| ==> adj[a, j] == Via(g, t[..k + 1], t[a], t[j])
        invariant forall a, j :: i <= a < |t| && 0 <= j < |t| ==> adj[a, j] == Via(g, t[..k], t[a], t[j])
      {
        // closing row k itself is a no-op, so it still holds the previous stage
        assert forall j :: 0 <= j < |t| ==> Via(g, t[..k + 1], t[k], t[j]) == Via(g, t[..k], t[k], t[j]);
        CloseRow(adj, t, k, i, g);
      }
    }
    assert t[..|t|] == t;
  }

  /** New slots carry no arc yet. */
  lemma RepresentsLonger(adj: array2<bool>, s: seq<int>, t: seq<int>, g: Graph)
    requires s <= t && |t| <= adj.Length0 && |t| <= adj.Length1
    requires Represents(adj, s, g) && On(g, s) && Distinct(t)
    ensures Represents(adj, t, g)
  {
    forall i, j | 0 <= i < |t| && 0 <= j < |t| && (t[i], t[j]) in g
      ensures i < |s| && j < |s|
    {
      var x, y :| 0 <= x < |s| && 0 <= y < |s| && s[x] == t[i] && s[y] == t[j];
      assert t[x] == s[x] && t[y] == s[y];
    }
  }

  method SetArc(adj: array2<bool>, a: nat, b: nat, ghost t: seq<int>, ghost g: Graph)
    requires |t| <= adj.Length0 && |t| <= adj.Length1 && Distinct(t)
    requires Represents(adj, t, g) && a < |t| && b < |t|
    modifies adj
    ensures Represents(adj, t, g + {(t[a], t[b])})
  {
    adj[a, b] := true;
  }

  /** The effect of one edge on the table and the matrix. */
  method ReadEdge(e: Edge, pids: array<int>, npids: nat, adj: array2<bool>, ghost g: Graph) returns (n: nat)
    requires npids <= pids.Length == adj.Length0 == adj.Length1 && Distinct(pids[..npids])
    requires Represents(adj, pids[..npids], g) && On(g, pids[..npids])
    modifies pids, adj
    ensures n <= pids.Length
    ensures pids[..n] == InternEnds(old(pids[..npids]), e, pids.Length)
    ensures Represents(adj, pids[..n], g + (if Usable(e, pids[..n]) then {(e.blocked, e.blocking)} else {}))
  {
    ghost var s := pids[..npids];
    var a, b;
    n, a, b := InternEdge(pids, npids, e);
    ghost var t := pids[..n];
    assert t[..|s|] == s;
    RepresentsLonger(adj, s, t, g);
    if a < 0 || b < 0 {
      assert g + {} == g;
    } else {
      SetArc(adj, a, b, t, g);
    }
  }

  /** Reading all edges: the matrix ends up holding the induced relation. */
  method FillMatrix(edges: seq<Edge>, pids: array<int>, adj: array2<bool>) returns (npids: nat)
    requires pids.Length == adj.Length0 == adj.Length1
    requires forall i, j :: 0 <= i < adj.Length0 && 0 <= j < adj.Length1 ==> !adj[i, j]
    modifies pids, adj
    ensures npids <= pids.Length && pids[..npids] == Table(edges, |edges|, pids.Length)
    ensures Represents(adj, pids[..npids], WaitGraph(edges, pids.Length))
  {
    ghost var cap := pids.Length;
    npids := 0;
    for k := 0 to |edges|
      invariant 0 <= npids <= cap && pids[..npids] == Table(edges, k, cap)
      invariant Represents(adj, pids[..npids], ArcsSoFar(edges, k, cap))
    {
      TableDistinct(edges, k, cap);
      ArcsOnTable(edges, k, cap);
      ArcsStep(edges, k, cap);
      npids := ReadEdge(edges[k], pids, npids, adj, ArcsSoFar(edges, k, cap));
    }
  }

  method AnyOnDiagonal(adj: array2<bool>, n: nat) returns (found: bool)
    requires n <= adj.Length0 && n <= adj.Length1
    ensures found <==> exists i :: 0 <= i < n && adj[i, i]
  {
    for i := 0 to n
      invariant forall c :: 0 <= c < i ==> !adj[c, c]
    {
      if adj[i, i] { return true; }
    }
    return false;
  }

  /** True exactly if some chain of waits among the interned sessions closes. */
  method HasCycle(edges: seq<Edge>, cap: nat) returns (found: bool)
    ensures found <==> Cyclic(WaitGraph(edges, cap))
    ensures found <==> Cyclic(SeatedArcs(edges, cap))
  {
    WaitGraphIsSeated(edges, cap);
    var pids := new int[cap];
    var adj := new bool[cap, cap]((_, _) => false);
    var npids := FillMatrix(edges, pids, adj);
    var t := pids[..npids];
    ghost var g := WaitGraph(edges, cap);
    Warshall(adj, t, g);
    ArcsOnTable(edges, |edges|, cap);
    ViaDiagonalIsCyclic(g, t);
    found := AnyOnDiagonal(adj, npids);
    assert forall i :: 0 <= i < npids ==> t[i] in t && adj[i, i] == Via(g, t, t[i], t[i]);
  }
}
