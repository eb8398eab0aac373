# PG Circuit in Dafny

This project models the parts of PG Circuit (Community) whose correctness is
not visible from one function at a time, and proves what they guarantee.

* **Blocker graph** (`Digraph`, `Interning`, `CycleCheck`, `Bfs`,
  `ChainSeverity`, `LockScan`, `BlockerGraph`). A lock-table snapshot becomes a
  bounded list of blocked/blocking edges, a bounded pid table, a matrix closed
  in place, and one breadth-first search per root blocker. Arcs run from the
  blocked to the blocking pid. The two caps (256 edges, 64 pids) are parameters
  everywhere. The theorems say that each pass computes what it should on the
  relation induced by the table, and that the passes agree with one another.
* **Event ring and watcher** (`EventRing`, `Watcher`). The ring in shared memory
  refines an unbounded log; the polling watcher's guarantees are proved over
  every interleaving of appends, successful polls and failed polls in one
  server lifetime.
* **WAL rate cache** (`WalCache`), which shares the ring's lock.
* **Decision pipeline** (`Risk`, `Utility`, `Ratings`, `Pipeline`, `Backends`,
  `EndToEnd`). A parse tree is filtered, classified, scored and decided, which
  `Ratings` sums up per form of statement; every stage may raise, and the
  failure policy decides what an error means. `Backends` lets any number of
  sessions interleave, each statement writing its event and taking its effect in
  two separate steps; `EndToEnd` runs them beside the watcher and follows a blocked
  statement to the attempt to send it to the webhook.
* **Bounded formatting and sorting** (`Grouping`, `RuleIds`, `Pressure`, with
  `Strings` and `Wrappers` for what they share).
* **SQL file segmenter** (`Segmenter`, `CheckSql`), with the patterns as a
  parameter. `CheckSql` says what is kept, opened and reported by characters and
  lines of the file.

Code that changes things step by step is a method over arrays, loops or fields
and is proved against a specification function or predicate; the theorems are
lemmas about those. A body that holds the lock is one atomic method.

Assumptions. Ages, rates, lags and ratios are exact reals, and times are integer
microseconds. Integers are unbounded: the sums of the pressure factors are
bounded by the number of backends, event ids by the number of records of one
server lifetime, and the one place where width decides something, the buffers of
the separator code, states the 64-bit bound. Names are cut to `NAMEDATALEN` and
rule lists to their slots where the code does so; a character counts as one byte.

## Findings

Five things that the code does differently from what its documentation or
comments suggest. Each has a concrete instance and an exact condition.

* `include/blocker_graph.h:35` calls the chain depth the longest path. The code
  computes shortest distances. `ChainSeverity.DepthIsNotLongest` gives three
  edges on which they differ. `ChainSeverity.DepthIsLongestIff` says when they do
  not: the depth is the longest chain to a root exactly if the arcs towards roots
  can be labelled with heights that fall along every arc and do not exceed some
  distance from a root, and the longest chain whatever exactly if, besides, no
  cycle is reported. A sufficient condition is that no wait jumps over a layer of
  a search (`ChainSeverity.LayeredDepthIsLongest`), in particular that everybody
  waits for one session only; that one is necessary only for the stronger property
  that every single chain is shortest (`ChainSeverity.ChainsAreShortestIffLayered`).
* `docs/hardening.md:7-9` lets observe and warn mode always fail open. Two kinds
  of error abort the statement in every mode: one of insufficient privilege in a
  stage, which the handler passes through (`Pipeline.ObserveCanAbort`), and any
  error of the classification, which happens outside the handler
  (`Pipeline.ClassificationCanAbort`). These are all: `Pipeline.SoftModeAbortsIff`
  for the utility hook, `Backends.SoftModesAbortIff` for every run,
  `Pipeline.FailsOpenIff` for enforce mode with `fail_closed` off as well.
* A recorded BLOCK does not imply that the statement was stopped:
  `Pipeline.RecordedBlockProceeds` has a TRUNCATE that goes on,
  `Pipeline.RecordedBlockProceedsIff` the exact condition.
* `DROP TABLE IF EXISTS a, b` is not recognised as a DROP TABLE when `a` does not
  exist, whatever `b` is (`Utility.DropTableEscapes`,
  `Utility.DropTableRecognisedIff`).
* A change of the WAL thresholds can leave the cached level behind the score until
  the next refresh (`WalCache.LevelGoesStale`). It does unless the cached rate is
  on the same side of the old and of the new thresholds, the lower one counting
  only below the higher (`WalCache.LevelAgreesIff`).

## Model

| member | source | states |
|---|---|---|
| `Digraph.ViaDiagonalIsCyclic` | src/blocker_graph.c:149-160 | the diagonal of Warshall's recurrence over a table that holds all ends is true somewhere exactly if the graph has a non-empty closed walk |
| `Digraph.WalkGivesVia` | src/blocker_graph.c:149-155 | completeness of the recurrence: a walk with inner vertices from the table is found |
| `Digraph.ViaGivesWalk` | src/blocker_graph.c:149-155 | soundness of the recurrence: what it reports is a walk through the table |
| `Digraph.AcyclicHasRoot` | src/blocker_graph.c:339-341 | in a graph without a cycle every walk extends to one that ends at a root |
| `Digraph.ShortestWalkIsSimple` | src/blocker_graph.c:362-366 | a shortest walk never repeats a vertex |
| `Interning.PidIndex` | src/blocker_graph.c:95-106 | a slot of the pid, or -1 exactly if it has none |
| `Interning.InternEdge` | src/blocker_graph.c:130-145 | the table after one edge, and that the edge is used exactly if both ends are in it |
| `Interning.TableDistinct` | src/blocker_graph.c:130-145 | no pid has two slots |
| `Interning.FreeSlotMeansComplete` | src/blocker_graph.c:133-142 | while a slot is free no edge has been turned away |
| `Interning.DecidedOnce` | src/blocker_graph.c:124-147 | an edge skipped at its turn never becomes usable later |
| `Interning.ArcsStep` | src/blocker_graph.c:124-147 | accumulating edges one by one builds the relation induced by the final table |
| `Interning.WaitGraphNonEmpty` | src/blocker_graph.c:302-326 | with two slots the first edge always takes part |
| `Interning.TruncationIsSound` | src/blocker_graph.c:133-142 | the bounded relation is part of the full one, equal to it while a slot is free, and its cycles are real |
| `Interning.WaitGraphIsInduced` | src/blocker_graph.c:353-362 | an edge's arc takes part exactly if both ends are in the final table |
| `Interning.TableHoldsFirstComers` | src/blocker_graph.c:130-145 | from the edge list alone, each edge read blocked end first: a pid has a slot exactly if fewer than `cap` different pids are read before some occurrence of it, and slots follow the order of first occurrence |
| `Interning.WaitGraphIsSeated` | src/blocker_graph.c:302-326 | the edges that take part are exactly those between such pids |
| `Interning.BlockedEndFirst` | src/blocker_graph.c:130-145 | an instance with a full table in which the order of the two ends decides whether a cycle is seen |
| `CycleCheck.Warshall` | src/blocker_graph.c:149-155 | the in-place triple loop leaves exactly the transitive closure in the matrix |
| `CycleCheck.FillMatrix` | src/blocker_graph.c:124-147 | the table and the matrix after reading all edges |
| `CycleCheck.HasCycle` | src/blocker_graph.c:111-161 | true exactly if a non-empty closed walk exists among the edges whose pids are read early enough to get a slot |
| `Bfs.NoShorterWalk` | src/blocker_graph.c:349-371 | when the queue is exhausted, every walk to the root starts at a visited slot and is at least as long as its depth |
| `Bfs.SearchIsExact` | src/blocker_graph.c:343-371 | the finished search has visited exactly the descendants, and its last depth is the root's eccentricity |
| `Bfs.Expand` | src/blocker_graph.c:353-370 | one expansion covers every waiter of the current slot, keeps depths ordered, and the queue guard never drops a node |
| `Bfs.BfsFrom` | src/blocker_graph.c:330-371 | from a root: the exact number of descendants and the exact largest shortest distance |
| `ChainSeverity.ComputeChainSeverity` | src/blocker_graph.c:287-378 | depth and count are the exact maxima over all roots of the relation of those edges |
| `ChainSeverity.FlagEnds` | src/blocker_graph.c:302-326 | the second reading marks exactly the blocked and the blocking slots, with the table of the first |
| `ChainSeverity.SeverityUnique` | src/blocker_graph.c:373-376 | only one pair of numbers meets the description |
| `ChainSeverity.DepthWithinCount` | src/blocker_graph.c:364-376 | every layer of a search is inhabited by different descendants |
| `ChainSeverity.SeverityBounds` | src/blocker_graph.c:339-376 | depth <= descendants <= blocked sessions, and descendants <= cap - 1 |
| `ChainSeverity.RootMakesSeverity` | src/blocker_graph.c:339-376 | a root makes both numbers at least 1 |
| `ChainSeverity.AcyclicHasChain` | src/blocker_graph.c:274-275 | edges without a reported cycle give depth and count of at least 1, and zero descendants imply a cycle, in spite of truncation |
| `ChainSeverity.DepthIsLongestIff` | include/blocker_graph.h:35 | the reported depth is the longest chain to a root exactly if heights up to some distance from a root can fall along all arcs towards roots, the longest chain of all exactly if moreover there is no cycle; a positive depth is always attained |
| `ChainSeverity.HeightsBoundChains` | include/blocker_graph.h:35 | falling heights bound every chain to a root |
| `ChainSeverity.ChainsGiveHeights` | include/blocker_graph.h:35 | bounded chains to roots yield falling heights |
| `ChainSeverity.AllChainsWithinIff` | include/blocker_graph.h:35 | all chains are bounded exactly if those to roots are and nothing is cyclic |
| `ChainSeverity.ChainsWithinIff` | include/blocker_graph.h:35 | any number at all bounds the chains exactly if heights up to it exist, and all chains if moreover there is no cycle |
| `ChainSeverity.ChainsAreShortestIffLayered` | src/blocker_graph.c:362-369 | every single chain into a root has the distance that the search gives its first session, exactly if no wait jumps over a layer |
| `ChainSeverity.LayeredDepthIsLongest` | include/blocker_graph.h:35 | a sufficient condition for the depth to be the longest chain to a root: no jumps, in particular one blocker each |
| `ChainSeverity.DepthIsNotLongest` | include/blocker_graph.h:35 | three edges on which the depth is 1, a chain has length 2, and no heights exist up to any distance from the root |
| `LockScan.ModesConflict` | src/blocker_graph.c:222-230 | some held mode conflicts with the awaited one |
| `LockScan.HitsBeforeExact` | src/blocker_graph.c:181-232 | the hits of the scan are exactly the conflicting pairs, once each, row by row |
| `LockScan.EdgesAreProper` | src/blocker_graph.c:187-216 | no self-edges, no edge of the scanning backend, only positive pids and non-negative waits |
| `LockScan.ScanRow` | src/blocker_graph.c:206-268 | all holders for one waiter, or the position of the hit that found no room |
| `LockScan.Scan` | src/blocker_graph.c:181-273 | the edges are the first hits up to the cap, both session counts are exact distinct counts, the maximum wait is that of the rows looked at and dominates every edge; and the same on the fields of the snapshot, see the next row |
| `LockScan.ScanMeans` | src/blocker_graph.c:181-273 | on the fields of the snapshot: the edges belong, in scan order, to exactly the first pairs of rows of different sessions at one lock whose awaited and held modes conflict; waits are seconds since the wait began; the maximum is over exactly the rows read |
| `LockScan.EdgesJoinSameLock` | src/blocker_graph.c:219 | every edge comes from such a pair, and while there is room every such pair has its edge |
| `BlockerGraph.Report.Build` | src/blocker_graph.c:163-279 | all fields of the report, and the relations between those that different passes computed |
| `EventRing.SnapshotIsNewest` | src/shmem.c:208-217 | a snapshot holds exactly the newest records, with consecutive descending ids |
| `EventRing.Ring.constructor` | src/shmem.c:80-93 | an empty ring of capacity at least one |
| `EventRing.FillSlot` | src/shmem.c:163-189 | every field of the slot, texts cut to their sizes, an absent rule list replaced by the primary rule |
| `EventRing.SlotReads` | src/shmem.c:163-189 | what a reader finds in each field: every text is the longest front of its own source that 15, 63 or 32 characters allow |
| `EventRing.Ring.Record` | src/shmem.c:124-196 | the unbounded log grows by exactly the slot that is due, with all its fields and the next number, and the ring goes on refining it; nothing is added for an ALLOW without audit or when the full fault is set |
| `EventRing.Ring.TakeSnapshot` | src/shmem.c:198-221 | the newest min(total, capacity, max_out) records, newest first; the index wrap stays in bounds |
| `Watcher.Poller.Seed` | internal/cli/notify.go:109-123 | everything fetched is seen; with catch-up, wanted events are tried up to the first refusal, which ends the program |
| `Watcher.Poller.Poll` | internal/cli/notify.go:143-164 | exactly the unseen wanted rows are tried, in order, refused ones too being marked as seen |
| `Watcher.FetchAndSeed` | src/pg_circuit.c:459-463 | snapshot and seeding loop together start the world of the run theorems, or end the program |
| `Watcher.FetchAndPoll` | src/pg_circuit.c:459-463 | snapshot and poll together take exactly the poll step of the run theorems |
| `Watcher.AttemptsExact` | internal/cli/notify.go:150-160 | the tried ids are the unseen wanted ones, each once |
| `Watcher.DeliveryGuarantee` | internal/cli/notify.go:109-164 | over every run: no id is tried twice, and a wanted event is tried exactly if the first successful fetch after it still found it among the newest `capacity` |
| `Watcher.CaughtUnlessSwallowed` | internal/cli/notify.go:143-164 | after a fetch, a record is missing from all of them exactly if it is among the oldest of a gap of more than `capacity` |
| `Watcher.TriedUnlessSwallowed` | internal/cli/notify.go:143-164 | a wanted record written after the seed has been tried, once a fetch followed, exactly if no gap swallowed it |
| `Watcher.NothingMissedIff` | internal/cli/notify.go:143-164 | nothing wanted is missed exactly if nothing wanted fell into a gap between fetches; at most `capacity` records between fetches suffice |
| `Watcher.RefusedStaysRefused` | internal/cli/notify.go:154-161 | a refused call is never made good in the same run |
| `Watcher.CallsInOrder` | internal/cli/notify.go:115-123 | calls go newest first and are noted as taken or refused; a catch-up tries a wanted record of the window exactly if no newer wanted one was refused |
| `WalCache.WalState.SampleUpdate` | src/shmem.c:223-290 | the cache stays that of the run of all samples so far, and the caller gets its rate and level |
| `WalCache.WalState.CacheRead` | src/shmem.c:292-311 | over any run, a reader is told what the caller of the latest sample was told, and zeros before the first sample |
| `WalCache.RefreshesAreSpaced` | src/shmem.c:242-282 | every run is a chain of refreshes of which the cache is the last |
| `WalCache.SpacedAt` | src/shmem.c:244-245 | neighbouring refreshes are at least 1.0 seconds apart, even if the clock steps back between |
| `WalCache.NextSample` | src/shmem.c:242-282 | one more sample in any run: a full second after the cached one it replaces it, with rate times seconds equal to the growth and the level by the thresholds; earlier nothing changes |
| `WalCache.QuietCallersAgree` | src/shmem.c:269-273 | callers with no refresh between them are told the same |
| `WalCache.VolumeTelescopes` | src/shmem.c:247-267 | rates times seconds sum to the cached bytes minus the first sample plus all backward jumps |
| `WalCache.RatesAccountForBytes` | src/shmem.c:250-253 | the sum telescopes exactly if no refresh saw the counter go backwards |
| `WalCache.LevelMatchesScore` | src/wal.c:40-48 | levels 3, 2 and below 2 correspond to scores 30, 15 and 0 under the thresholds of the last refresh |
| `WalCache.FixedThresholdsAgree` | src/wal.c:40-48 | the same under the thresholds in force while nobody changes them |
| `WalCache.LevelAgreesIff` | src/wal.c:40-48 | for any thresholds now in force: level and score agree exactly if the cached rate is on the same side of these and of the ones of the last refresh |
| `WalCache.LevelGoesStale` | src/shmem.c:255-267 | a changed threshold can leave level 3 beside score 0 |
| `Risk.Assessment.AddFinding` | src/risk_engine.c:45-75 | the score stays the sum of the findings; which rule is primary |
| `Risk.Assessment.Finalize` | src/risk_engine.c:148-180 | the clamped score and the decision for every mode |
| `Risk.Assessment.AssessQuery` | src/risk_engine.c:250-368 | findings, score, primary rule and decision of a classified statement |
| `Risk.DecideMonotone` | src/risk_engine.c:158-179 | a higher score never gets a milder decision, for any thresholds |
| `Utility.Analysis.ClassifyAlterTable` | src/utility_analysis.c:88-158 | class, rewrite flag and detail of the fold over the subcommands |
| `Utility.Analysis.DefListHasBool` | src/utility_analysis.c:66-79 | the value of the first option of that name, or the error it raises |
| `Utility.Analysis.FillRelation` | src/utility_analysis.c:46-64 | what is known of a relation, found, missing, or with a lookup that raises |
| `Utility.Analysis.AnalyzeUtility` | src/utility_analysis.c:160-328 | the whole record for every parse tree, or the error raised by an option, a name list or a lookup |
| `Utility.FilterIsSafe` | src/hooks.c:168-203 | nothing that would be classified or raise is filtered out |
| `Utility.FilterInVain` | src/hooks.c:168-203 | exactly which statements pass the filter and are then of no interest |
| `Utility.DropTableRecognisedIff` | src/utility_analysis.c:201-211 | a DROP TABLE naming some existing table raises exactly if its first name cannot be looked up, and otherwise is recognised exactly if it has no IF EXISTS or its first name exists |
| `Utility.DropTableEscapes` | src/utility_analysis.c:201-211 | DROP TABLE IF EXISTS a, b with only b existing passes the filter and is then of no interest |
| `Utility.WorstIsMaximum` | src/utility_analysis.c:100-153 | the lock class is attained, never exceeded, and HIGH when a rewrite is likely |
| `Utility.AlterScoreOfClass` | src/risk_engine.c:300-317 | an ALTER TABLE raises exactly if its relation cannot be looked up; else class and score are those of its worst command |
| `Utility.AlterTableIsHomomorphic` | src/utility_analysis.c:100-157 | joining command lists takes the maximum of lock class, score and decision; if one raises, all do |
| `Utility.AlterTableIgnoresOrder` | src/utility_analysis.c:100-157 | reordering or repeating commands changes neither class, score, rewrite flag nor error |
| `Ratings.CreateIndexRated` | src/utility_analysis.c:249-271 | CREATE INDEX from tree to score: 15 exactly for CONCURRENTLY, else 25 if the catalog knows less than 64 MB, else 50 |
| `Ratings.ConcurrentIndexIsMilder` | src/risk_engine.c:319-332 | CONCURRENTLY scores less and is never decided more severely, in any mode and under any thresholds |
| `Ratings.ReindexRated` | src/utility_analysis.c:272-287 | REINDEX by the first option of that name: an error, 20 or 55 |
| `Ratings.ConcurrentReindexIsMilder` | src/risk_engine.c:334-346 | the same comparison for REINDEX |
| `Ratings.VacuumRated` | src/utility_analysis.c:288-312 | VACUUM by its first `full` option: an error, nothing, or 70 |
| `Ratings.TruncateRated` | src/utility_analysis.c:174-187 | TRUNCATE scores 90 under rule PGC003, or the lookup raises |
| `Ratings.DropTableRated` | src/utility_analysis.c:188-214 | a recognised DROP TABLE scores 95 under rule PGC004 |
| `Ratings.DropDatabaseRated` | src/utility_analysis.c:215-227 | DROP DATABASE scores 100 under rule PGC005 |
| `Ratings.ClusterRated` | src/utility_analysis.c:313-323 | CLUSTER scores 70 under rule PGC016 |
| `Ratings.RenameRated` | src/utility_analysis.c:231-248 | renaming a table or column scores 60, renaming anything else is of no interest |
| `Ratings.DmlRated` | src/risk_engine.c:266-278 | DELETE and UPDATE without WHERE score 95 |
| `Ratings.AlterTableRated` | src/utility_analysis.c:88-158 | ALTER TABLE by the commands that occur: 60, 45 or 35, and which of them rewrite |
| `Ratings.TargetDescribed` | src/utility_analysis.c:46-64 | the record holds oid, names, size and rows of the statement's own target |
| `Pipeline.HookAbortsIff` | src/hooks.c:109-139 | for the whole hook, the exact condition of each of the four ways to abort |
| `Pipeline.DecisionAbortsOnlyInEnforce` | src/circuit_breaker.c:144-151 | a decision aborts only in enforce mode, at the threshold, after the BLOCK record of its session was due |
| `Pipeline.InternalErrorAbortsIff` | src/hooks.c:78-94 | an error of a stage, other than of privilege, aborts exactly in enforce mode with `fail_closed` |
| `Pipeline.FailsOpenIff` | docs/hardening.md:5-9 | where errors should fail open, they do exactly if a stage raised them and not for want of privilege |
| `Pipeline.SoftModeAbortsIff` | docs/hardening.md:7-9 | outside enforce mode the utility hook aborts exactly if it looks at the statement and its classification raises or a stage lacks privilege |
| `Pipeline.ObserveCanAbort` | src/hooks.c:131-134 | observe mode aborts on a privilege error of the collectors |
| `Pipeline.ClassificationCanAbort` | src/hooks.c:218-221 | observe mode aborts on an option that is no Boolean, with no stage failing |
| `Pipeline.RecordedBlockProceeds` | src/hooks.c:118-136 | a TRUNCATE recorded as BLOCK in enforce mode that goes on, for want of memory for the detail |
| `Pipeline.RecordedBlockProceedsIff` | src/hooks.c:118-136 | exactly when a recorded BLOCK does not stop its statement |
| `Pipeline.FilterIsInvisible` | src/hooks.c:218-222 | filter then analyse has the outcome, messages and event of always analysing |
| `Pipeline.SkippedIsUntouched` | src/hooks.c:43-51 | switched off, or in a parallel worker, neither hook does anything |
| `Pipeline.FaultIff` | src/hooks.c:109-122 | the error that counts is that of the first stage to raise among those run for the decision, in their order |
| `Pipeline.Session.PersistEvent` | src/event.c:52-138 | the ring's log gets the event of the assessment with its rule list and its relation, database and user names, unless it is ALLOW |
| `Pipeline.Session.Stages` | src/hooks.c:109-122 | what the guarded stages raise, record and announce |
| `Pipeline.Session.EvaluateAndApply` | src/hooks.c:96-140 | outcome, messages and log for every statement, configuration and fault |
| `Pipeline.Session.ProcessUtility` | src/hooks.c:205-230 | the hook's fate of a statement, errors of the classification included; it is passed on exactly if nothing aborted |
| `Backends.RunKeeps` | src/hooks.c:96-140 | over every interleaving: the log is numbered, holds no ALLOW, and each record belongs to one statement |
| `Backends.BlockedIsRecorded` | src/hooks.c:118-120 | a statement aborted by decision was in enforce mode and had its own BLOCK record before |
| `Backends.NothingAllowedIsRecorded` | src/shmem.c:143-146 | no ALLOW is ever in the log |
| `Backends.RecordedIff` | src/shmem.c:143-146 | over every run with shared memory: a statement has a record of its own exactly if it was assessed without an error before the write and its score reaches a threshold that counts in its mode; the record says WARN or BLOCK accordingly |
| `Backends.NoticedIff` | src/circuit_breaker.c:135-157 | over every run: who is given the high-risk notice; each of them has a WARN record, observe mode leaves neither, and the other notice goes with errors that failed open |
| `Backends.RecordReads` | src/event.c:52-138 | what a reader finds in a statement's own record, field by field |
| `Backends.RecordsAreOwn` | src/shmem.c:160-161 | two statements never share a record |
| `Backends.SoftModesAbortIff` | docs/hardening.md:7-9 | over every run, observe and warn mode abort exactly on an error of the classification or a privilege error of a stage, for utility statements down to the parse tree |
| `Backends.StageErrorsAbortIff` | src/hooks.c:78-94 | over every run, an error of a stage, other than of privilege, aborts exactly in enforce mode with `fail_closed` |
| `Backends.BeginThenFinish` | src/hooks.c:96-140 | the two steps of an undisturbed backend have the outcome and the record of the hook |
| `Backends.RunStatement` | src/hooks.c:205-230 | running the code on a utility statement leaves the ring with the log that the two steps of the machine leave, and the same outcome |
| `EndToEnd.Projections` | src/shmem.c:152-221 | a joint run of backends and watcher is a run of each, over the same log |
| `EndToEnd.RecordTriedIff` | internal/cli/notify.go:109-164 | after a last fetch, any record whose decision is wanted has been tried exactly if it was written after the seed and no gap swallowed it, or before it and was caught up with |
| `EndToEnd.BlockTriedIff` | internal/cli/notify.go:109-164 | so for every statement aborted by decision |
| `EndToEnd.WarningTriedIff` | internal/cli/notify.go:109-164 | and for every statement assessed at warn level |
| `EndToEnd.EveryBlockIsTried` | internal/cli/notify.go:143-164 | with at most `capacity` records between fetches, every record written after the seed, of a statement aborted by decision, is tried, once |
| `Grouping.ParseDecimal` | src/circuit_breaker.c:31 | printing and reading a number gives it back |
| `Grouping.Fits64` | src/circuit_breaker.c:24-25 | a 64-bit number has at most 20 digits |
| `Grouping.GroupsStep` | src/circuit_breaker.c:40-46 | one digit in front, with a comma after every third, keeps the grouping |
| `Grouping.CommaPlaces` | src/circuit_breaker.c:42-43 | commas stand exactly where the digits that follow are a positive multiple of three |
| `Grouping.GroupsRoundTrip` | src/circuit_breaker.c:18-20 | without its commas the text reads back as the value |
| `Grouping.GroupsUnique` | src/circuit_breaker.c:18-20 | only one text is a grouping of a numeral |
| `Grouping.AppendGrouped` | src/circuit_breaker.c:21-52 | the text is extended by the grouped numeral, of length d + (d - 1) / 3, within both buffers |
| `RuleIds.FitIsLongest` | src/event.c:89-91 | a number of ids fits exactly if it is at most the number kept |
| `RuleIds.SplitJoined` | src/event.c:92-96 | cutting a list of comma-free ids at the commas gives the ids |
| `RuleIds.TextSplitsToPrefix` | src/event.c:74-100 | cutting the text gives exactly the longest prefix that fits |
| `RuleIds.NonEmptyIdsAt` | src/event.c:81-99 | the listed ids are exactly the non-empty ones, in order |
| `RuleIds.TextWithoutIds` | src/event.c:98-99 | without an id that fits the text is what fits of the primary rule |
| `RuleIds.BuildRuleIds` | src/event.c:74-100 | the buffer holds that text, terminated inside it, or the truncated primary rule |
| `Pressure.PressureMonotone` | src/runtime_state.c:28-193 | more transactions, locks, lag, WAL or connections never lower the score |
| `Pressure.SortedIsStablePermutation` | src/runtime_state.c:328-339 | the order is descending, stable, and keeps every contributor |
| `Pressure.TransactionPoints` | src/runtime_state.c:28-52 | the points of the transaction factor from the signals |
| `Pressure.LockPoints` | src/runtime_state.c:68-108 | those of the lock factor, by tables of thresholds |
| `Pressure.LagPoints` | src/runtime_state.c:114-126 | 35 exactly at the critical limit, 18 exactly at the warning limit only |
| `Pressure.WalPoints` | src/wal.c:40-48 | 30 and 15 exactly in their bands |
| `Pressure.ConnectionPoints` | src/runtime_state.c:132-166 | those of the connection factor, by the share of unreserved slots |
| `Pressure.ScoreIsSum` | src/runtime_state.c:179-193 | the five factors are summed, up to 100 |
| `Pressure.ExplanationAddsUp` | src/runtime_state.c:348-353 | the printed contributions are exactly the positive ones, descending, and sum to the score before the cap |
| `Pressure.RuntimeState.ComputePressure` | src/runtime_state.c:214-256 | the five factors and the capped sum of all of them |
| `Pressure.RuntimeState.FormatContributors` | src/runtime_state.c:303-355 | the lines are the positive factors in stable descending order |
| `Pressure.SortDescending` | src/runtime_state.c:328-339 | insertion sort in place |
| `Segmenter.StripIsClean` | internal/cli/check.go:196-206 | the cleaned text has no newline and no comment mark, and cleaning it again changes nothing |
| `Segmenter.StripComments` | internal/cli/check.go:196-206 | the loop computes that text |
| `CheckSql.StripIsLeft` | internal/cli/check.go:196-206 | by position: the cleaned text is what is left when everything from the first mark of a line to its end goes and newlines turn into blanks, trimmed |
| `CheckSql.StripKeeps` | internal/cli/check.go:196-206 | the characters other than white space are exactly those in front of the first mark of their line, in order |
| `CheckSql.StripUnmarked` | internal/cli/check.go:196-206 | without a mark only newlines change, into blanks |
| `Segmenter.SegmentationUnique` | internal/cli/check.go:172-192 | a file can be cut into statements in one way only |
| `Segmenter.CoveredOnce` | internal/cli/check.go:172-192 | a line is in one statement at most |
| `Segmenter.GuardsIdle` | internal/cli/check.go:139-146 | the empty and comment guards never fire for a statement |
| `Segmenter.FindingsRise` | internal/cli/check.go:147-169 | reported lines strictly increase |
| `Segmenter.FindingsAreOpenings` | internal/cli/check.go:147-169 | every reported line opens a statement |
| `CheckSql.OpensIff` | internal/cli/check.go:172-192 | a line opens a statement exactly if it says something and, back to the last semicolon, nothing before it does |
| `CheckSql.TextIsLines` | internal/cli/check.go:180-187 | the text of a statement is its lines, one under the other |
| `CheckSql.FindingIff` | internal/cli/check.go:119-194 | the findings from the lines alone: one for every opening line whose statement, cleaned, matches, with rule and snippet |
| `Segmenter.Flush` | internal/cli/check.go:136-170 | what one flush appends, guards included |
| `Segmenter.ScanFile` | internal/cli/check.go:119-194 | exactly the matching statements of the only segmentation are reported, at their opening lines |

## Left out

- PostgreSQL itself: the lock table, the conflict table, catalog lookups, clocks and byte counters are inputs; a NULL lock snapshot is an empty one.
- Edge decoration: relation names, lock names and transaction ages of blocker edges do not influence any other field.
- Collectors for transactions, replication and relation sizes: simple folds whose results are inputs of the pressure factors.
- Text layout of messages, names and numbers of enum values, and the policy stub, which never asks for audit; the fingerprint's hash function is a parameter.
- Installing and removing hooks, and the executor hook's own analysis of DELETE and UPDATE, whose result or error is an input and which ends in the same evaluation.
- A cancel noticed while the handler itself sends its warning (src/hooks.c:90), which would abort in every mode.
- The fault of developer builds that drops events is part of `EventRing.Ring.Record` and of the evaluation; the utility hook and the runs of many backends leave it off.
- Watcher: HTTP, flags, signals and tickers; a call succeeds or fails at will. A restart resets the ids and ends the modelled lifetime.
- Segmenter: regular expressions (a parameter), file access, and the scanner's limit on line length; lengths count characters, not bytes.
- The source writes the slot handling of the two graph passes twice; here both call one method.
