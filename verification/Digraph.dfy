/** Finite digraphs over backend pids, as the blocker graph uses them.

    An arc `(u, v)` says "u waits for v": arcs run from the blocked pid to the
    blocking pid. A walk therefore climbs from a waiter towards the session at
    the head of its queue. */
module Digraph {
  type Graph = set<(int, int)>

  ghost predicate Walk(g: Graph, p: seq<int>) {
    |p| >= 1 && forall i :: 0 <= i < |p| - 1 ==> (p[i], p[i + 1]) in g
  }

  /** `p` is a walk from `u` to `v`; its length is `|p| - 1`. */
  ghost predicate WalkFromTo(g: Graph, p: seq<int>, u: int, v: int) {
    Walk(g, p) && p[0] == u && p[|p| - 1] == v
  }

  ghost predicate HasWalk(g: Graph, u: int, v: int, n: nat) {
    exists p :: WalkFromTo(g, p, u, v) && |p| == n + 1
  }

  /** Some non-empty walk returns to where it started. */
  ghost predicate Cyclic(g: Graph) {
    exists p :: Walk(g, p) && |p| >= 2 && p[0] == p[|p| - 1]
  }

  /** `d` is the length of a shortest walk from `u` to `v`. */
  ghost predicate IsDist(g: Graph, u: int, v: int, d: nat) {
    HasWalk(g, u, v, d) && forall n: nat :: HasWalk(g, u, v, n) ==> d <= n
  }

  ghost function Tails(g: Graph): set<int> { set e | e in g :: e.0 }
  ghost function Heads(g: Graph): set<int> { set e | e in g :: e.1 }

  ghost predicate On(g: Graph, t: seq<int>) {
    forall e :: e in g ==> e.0 in t && e.1 in t
  }

  // ---------- walks ----------

  lemma Join(g: Graph, p: seq<int>, q: seq<int>)
    requires Walk(g, p) && Walk(g, q) && p[|p| - 1] == q[0]
    ensures WalkFromTo(g, p + q[1..], p[0], q[|q| - 1])
  {
    var w := p + q[1..];
    forall i | 0 <= i < |w| - 1 ensures (w[i], w[i + 1]) in g {
      if i >= |p| - 1 {
        assert w[i + 1] == q[i + 1 - |p| + 1];
        assert w[i] == q[i - |p| + 1];
      }
    }
  }

  lemma Prepend(g: Graph, u: int, v: int, w: int, n: nat)
    requires (u, v) in g && HasWalk(g, v, w, n)
    ensures HasWalk(g, u, w, n + 1)
  {
    var p :| WalkFromTo(g, p, v, w) && |p| == n + 1;
    Join(g, [u, v], p);
    assert |[u, v] + p[1..]| == n + 2;
  }

  lemma Trivial(g: Graph, v: int)
    ensures HasWalk(g, v, v, 0)
  {
    assert WalkFromTo(g, [v], v, v);
  }

  /** Every walk has a shortest one beside it. */
  lemma ShortestExists(g: Graph, u: int, v: int, n: nat) returns (d: nat)
    requires HasWalk(g, u, v, n)
    ensures IsDist(g, u, v, d) && d <= n
  {
    if m: nat :| m < n && HasWalk(g, u, v, m) {
      d := ShortestExists(g, u, v, m);
    } else {
      d := n;
    }
  }

  // ---------- counting ----------

  ghost predicate Distinct(s: seq<int>) {
    forall i, j :: 0 <= i < j < |s| ==> s[i] != s[j]
  }

  ghost function Elements(s: seq<int>): set<int> { set x | x in s }

  lemma {:induction false} DistinctCount(s: seq<int>)
    requires Distinct(s)
    ensures |Elements(s)| == |s|
  {
    if |s| > 0 {
      var k := |s| - 1;
      DistinctCount(s[..k]);
      assert Elements(s) == Elements(s[..k]) + {s[k]};
      assert s[k] !in s[..k];
    }
  }

  lemma SubsetCount(a: set<int>, b: set<int>)
    requires a <= b
    ensures |a| <= |b|
  {
    assert a + (b - a) == b;
    assert |a + (b - a)| == |a| + |b - a|;
  }

  /** Distinct values drawn from `b` number at most `|b|`. */
  lemma Pigeonhole(s: seq<int>, b: set<int>)
    requires Distinct(s) && forall x :: x in s ==> x in b
    ensures |s| <= |b|
  {
    DistinctCount(s);
    SubsetCount(Elements(s), b);
  }

  // ---------- shortest walks ----------

  /** Cutting out the stretch between two visits to the same vertex. */
  lemma Shortcut(g: Graph, p: seq<int>, i: nat, j: nat)
    requires Walk(g, p) && i < j < |p| && p[i] == p[j]
    ensures HasWalk(g, p[0], p[|p| - 1], |p| - 1 - (j - i))
  {
    Join(g, p[..i + 1], p[j..]);
    assert |p[..i + 1] + p[j..][1..]| == |p| - (j - i);
  }

  /** A shortest walk never repeats a vertex. */
  lemma ShortestWalkIsSimple(g: Graph, p: seq<int>, u: int, v: int)
    requires WalkFromTo(g, p, u, v) && IsDist(g, u, v, |p| - 1)
    ensures Distinct(p)
  {
    forall i, j | 0 <= i < j < |p| ensures p[i] != p[j] {
      if p[i] == p[j] { Shortcut(g, p, i, j); }
    }
  }

  // ---------- transitive closure ----------

  ghost predicate InnerIn(p: seq<int>, t: seq<int>) {
    forall i :: 0 < i < |p| - 1 ==> p[i] in t
  }

  /** Warshall's recurrence: v is reachable from u through intermediate
      vertices taken from `t` only. */
  ghost predicate Via(g: Graph, t: seq<int>, u: int, v: int)
    decreases |t|
  {
    if t == [] then (u, v) in g
    else
      var s, w := t[..|t| - 1], t[|t| - 1];
      Via(g, s, u, v) || (Via(g, s, u, w) && Via(g, s, w, v))
  }

  lemma {:induction false} ViaGivesWalk(g: Graph, t: seq<int>, u: int, v: int) returns (p: seq<int>)
    requires Via(g, t, u, v)
    ensures WalkFromTo(g, p, u, v) && |p| >= 2 && InnerIn(p, t)
    decreases |t|
  {
    if t == [] {
      p := [u, v];
    } else {
      var s, w := t[..|t| - 1], t[|t| - 1];
      if Via(g, s, u, v) {
        p := ViaGivesWalk(g, s, u, v);
      } else {
        var a := ViaGivesWalk(g, s, u, w);
        var b := ViaGivesWalk(g, s, w, v);
        Join(g, a, b);
        p := a + b[1..];
        forall i | 0 < i < |p| - 1 ensures p[i] in t {
          if i >= |a| { assert p[i] == b[i - |a| + 1]; }
        }
      }
    }
  }

  lemma {:induction false} WalkGivesVia(g: Graph, t: seq<int>, p: seq<int>)
    requires Walk(g, p) && |p| >= 2 && InnerIn(p, t)
    ensures Via(g, t, p[0], p[|p| - 1])
    decreases |t|, |p|
  {
    var first := p[1];
    if t == [] {
      assert (p[0], p[0 + 1]) in g;
    } else {
      var s, w := t[..|t| - 1], t[|t| - 1];
      if m :| 0 < m < |p| - 1 && p[m] == w {
        // each half unfolds to a connection that avoids w altogether
        WalkGivesVia(g, t, p[..m + 1]);
        assert InnerIn(p[m..], t) by {
          forall i | 0 < i < |p[m..]| - 1 ensures p[m..][i] in t { assert p[m + i] in t; }
        }
        WalkGivesVia(g, t, p[m..]);
      } else {
        assert InnerIn(p, s);
        WalkGivesVia(g, s, p);
      }
    }
  }

  /** With every vertex allowed as intermediate, `Via` on the diagonal says
      exactly that the graph has a closed walk. */
  lemma ViaDiagonalIsCyclic(g: Graph, t: seq<int>)
    requires On(g, t)
    ensures Cyclic(g) <==> exists u :: u in t && Via(g, t, u, u)
  {
    if Cyclic(g) {
      var p :| Walk(g, p) && |p| >= 2 && p[0] == p[|p| - 1];
      assert (p[0], p[1]) in g;
      assert InnerIn(p, t) by {
        forall i | 0 < i < |p| - 1 ensures p[i] in t { assert (p[i], p[i + 1]) in g; }
      }
      WalkGivesVia(g, t, p);
    }
    if u :| u in t && Via(g, t, u, u) {
      var p := ViaGivesWalk(g, t, u, u);
    }
  }

  // ---------- roots and descendants ----------

  /** A root blocks somebody and waits for nobody. */
  ghost predicate Root(g: Graph, r: int) {
    r in Heads(g) && r !in Tails(g)
  }

  /** The sessions that wait, directly or through others, for `r`. */
  ghost function Descendants(g: Graph, r: int): set<int> {
    set v | v in Tails(g) && exists n: nat :: n >= 1 && HasWalk(g, v, r, n)
  }

  lemma RootHasDescendant(g: Graph, r: int)
    requires Root(g, r)
    ensures Descendants(g, r) != {}
  {
    var e :| e in g && e.1 == r;
    Trivial(g, r);
    Prepend(g, e.0, r, r, 0);
    assert e.0 in Descendants(g, r);
  }

  lemma RootIsNoDescendant(g: Graph, r: int)
    requires Root(g, r)
    ensures r !in Descendants(g, r)
  {
  }

  lemma AcyclicWalkIsSimple(g: Graph, p: seq<int>)
    requires Walk(g, p) && !Cyclic(g)
    ensures Distinct(p)
  {
    forall i, j | 0 <= i < j < |p| ensures p[i] != p[j] {
      if p[i] == p[j] { ClosedStretch(g, p, i, j); }
    }
  }

  lemma ClosedStretch(g: Graph, p: seq<int>, i: nat, j: nat)
    requires Walk(g, p) && i < j < |p| && p[i] == p[j]
    ensures Cyclic(g)
  {
    assert Walk(g, p[i..j + 1]);
  }

  /** Climbing from waiter to blocker either reaches a root or closes a walk:
      without a cycle every walk extends to one that ends at a root. */
  lemma {:induction false} AcyclicHasRoot(g: Graph, p: seq<int>) returns (r: int, climb: seq<int>)
    requires Walk(g, p) && |p| >= 2 && !Cyclic(g)
    ensures Root(g, r) && p <= climb && WalkFromTo(g, climb, p[0], r)
    decreases |Tails(g) + Heads(g)| - |p|
  {
    var x := p[|p| - 1];
    assert (p[|p| - 2], p[|p| - 1]) in g;
    if x !in Tails(g) {
      r, climb := x, p;
    } else {
      var e :| e in g && e.0 == x;
      var q := p + [e.1];
      assert Walk(g, q);
      AcyclicWalkIsSimple(g, q);
      forall y | y in q ensures y in Tails(g) + Heads(g) {
        var i :| 0 <= i < |q| && q[i] == y;
        if i < |q| - 1 { assert (q[i], q[i + 1]) in g; } else { assert e.1 in Heads(g); }
      }
      Pigeonhole(q, Tails(g) + Heads(g));
      r, climb := AcyclicHasRoot(g, q);
    }
  }

  /** Going round a closed walk gives walks of any length. */
  lemma {:induction false} Pump(g: Graph, p: seq<int>, n: nat) returns (q: seq<int>)
    requires Walk(g, p) && |p| >= 2 && p[0] == p[|p| - 1]
    ensures Walk(g, q) && q[0] == p[0] && |q| - 1 >= n
    decreases n
  {
    if n == 0 {
      q := p;
    } else {
      var t := Pump(g, p, n - 1);
      Join(g, p, t);
      q := p + t[1..];
    }
  }
}
