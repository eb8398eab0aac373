/** The blocker graph of one lock-table snapshot. */
module BlockerGraph {
  import opened Digraph
  import opened Interning
  import opened LockScan
  import CycleCheck
  import opened ChainSeverity

  class Report {
    var edges: seq<Edge>
    var blockedSessions: int
    var blockingSessions: int
    var maxBlockedFor: real
    var hasCycle: bool
    var maxChainDepth: int
    var maxDescendantCount: int

    constructor ()
      ensures edges == [] && blockedSessions == blockingSessions == maxChainDepth == maxDescendantCount == 0
      ensures maxBlockedFor == 0.0 && !hasCycle
    {
      edges, blockedSessions, blockingSessions, maxBlockedFor := [], 0, 0, 0.0;
      hasCycle, maxChainDepth, maxDescendantCount := false, 0, 0;
    }

    /** Fills the report from a snapshot. The first clauses say what each field
        is; the last three relate the fields that different passes computed. */
    method Build(s: Server, locks: seq<LockInstance>, maxEdges: nat, maxPids: nat)
      modifies this
      ensures blockedSessions >= 0 && blockingSessions >= 0
      ensures Scanned(s, locks, maxEdges, edges, blockedSessions, blockingSessions, maxBlockedFor)
      ensures Reported(s, locks, maxEdges, edges, blockedSessions, blockingSessions, maxBlockedFor)
      ensures hasCycle <==> Cyclic(SeatedArcs(edges, maxPids))
      ensures IsSeverity(SeatedArcs(edges, maxPids), maxChainDepth, maxDescendantCount)
      ensures maxChainDepth <= maxDescendantCount <= blockedSessions
      ensures maxDescendantCount > 0 ==> maxDescendantCount <= maxPids - 1
      ensures edges != [] && maxPids >= 2 && !hasCycle ==> maxChainDepth >= 1 && maxDescendantCount >= 1
      ensures hasCycle ==> Cyclic(FullGraph(edges))
    {
      hide Scanned, Reported, IsSeverity, Cyclic, WaitGraph, FullGraph;
      edges, blockedSessions, blockingSessions, maxBlockedFor := Scan(s, locks, maxEdges);
      ScannedCounts(s, locks, maxEdges, edges, blockedSessions, blockingSessions, maxBlockedFor);
      hasCycle := CycleCheck.HasCycle(edges, maxPids);
      maxChainDepth, maxDescendantCount := ComputeChainSeverity(edges, maxPids);
      SeverityBounds(edges, maxPids, maxChainDepth, maxDescendantCount);
      WaitGraphIsSeated(edges, maxPids);
      TruncationIsSound(edges, maxPids);
      if edges != [] && maxPids >= 2 {
        AcyclicHasChain(edges, maxPids, maxChainDepth, maxDescendantCount);
      }
    }
  }

  lemma ScannedCounts(s: Server, locks: seq<LockInstance>, maxEdges: nat,
                      edges: seq<Edge>, nblocked: nat, nblocking: nat, worst: real)
    requires Scanned(s, locks, maxEdges, edges, nblocked, nblocking, worst)
    ensures nblocked == |BlockedPids(edges)|
  {
  }
}
