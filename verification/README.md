# SpecSmither, modelled and proved

SpecSmither keeps a tree of specifications, epics and tickets with a dependency graph, and
after every change re-derives everything computed from that graph inside the same
transaction. This project models three parts of it in Dafny and proves what they promise.

**The dependency engine and the recompute worklist.** `FindCycles` is the iterative Tarjan
search on its own stacks and maps, proved against reachability (`Graph`, `Cycles`,
`TarjanInvariant`, `TarjanSteps`, `TarjanEmit`). `CriticalPath` is the memoised longest-path
search with its lexicographic tie-break (`LexOrder`), `BlockerDepth` the depth search with
its cycle guard, `CycleGuard` the breadth-first guard of `add_dependency`.
`StatusCalculator` and `Cascade` are the status rules, the batch cascade and the single-hop
cascades, `Drain` what they mean for working a spec off. `TreeSpec`, `TreeBuild` and
`TreeResults` are the cached dependency tree and the gate that skips its write, `StoredTree`
its stored form; `Counts` the rollups. `StoredRows`, `Recompute` and `RecomputeResults` are
one spec's recompute. `CriticalPathRows`, `TreeRows`, `StoredColumns` and `ProjectColumns`
say what all of these write in terms of the rows alone. `Database` is the whole store as a
class whose fields are the tables; each verb is one transaction that ends in the worklist,
and the invariant `Sound` says that every derived column of every row equals its derivation
from scratch. `Rows`, `Mutations`, `Worklist`, `Verbs` and `StaleCases` carry its proofs,
`VerbOutcomes` says column by column what each verb writes and when it is refused,
`StaleRuns` are the runs the invariant does not survive, `DatabaseResults` what it means for
users.

**The planning aggregate.** `Aggregate` is the mutable projection with its update and
replay; `AggregateFold` says what it computes, `AggregateReplay`, `ReplayStability` and
`AggregateLaws` prove when chunked replay equals a single pass and what is conserved,
`AggregateTallies` what every tally and every datapoint is in terms of the actions.

**The TOON encoder.** `ToonText` and `ToonEncoder` are the printer. The repository has no
reader, so `ToonDecoder` is one, written from the TOON specification v2.1.0 (sections 7 to
10). `ToonTokens`, `ToonShapes`, `ToonSteps`, `ToonRoundTrip`, `ToonLines` and
`ToonDocument` show that it inverts the printer, `ToonBreaks` and `ToonLoss` when it cannot;
`ToonForms` says which of several readable forms the printer picks.

Loops, memo tables, stacks and updated rows are methods and class fields, as in the source;
each is tied to a function or a predicate on values, and the theorems are about those.
`Types`, `Ordering`, `Decimal` and `CrudTypes` are shared vocabulary. Ids are natural
numbers of which only order and equality are used. Binary floats are exact reals or
integers. Row lists that the source reads without an order are read in id order; the
order-freedom lemmas say where that does not matter.

## Where the code falls short of its description

The model follows the code. Each point below is proved, with the exact condition.

- Replaying in chunks is described as equal to a single pass for any chunking. The entity
  types come from the state after the batch, so at one batch size this holds if and only if
  every scored entity has its final type by the end of its action's chunk, and at every size
  if and only if no scored entity changes its type afterwards
  (`ReplayStability.ReplayIffChunkTypesSettle`, `ReplayStability.ReplayIffTypesSettle`).
- The encoder is described as lossless. An array header drops an empty key, and the key
  pattern accepts one final line break (`ToonLoss.LosslessIff`,
  `ToonBreaks.BreakingKeyIsRefused`).
- The single-hop cascade on reopening agrees with the fixpoint if and only if the ticket's
  new status is what its dependencies give, or it is ready on a self-loop
  (`Cascade.UncompletedRefinesFixpoint`).
- Moving a ticket under another spec's epic recomputes only the spec it left, and deleting a
  blueprint recomputes only its own spec (`StaleCases`; `StaleRuns` has a run for each).
- Progress rounds half up, so an epic of 200 tickets or more can be completed with an open
  ticket (`Counts.EpicCompletedIff`, `Counts.OneLeftIsCompleted`).

## Model

| member | source | states |
|---|---|---|
| `FindCycles.FindCycles` | src/specsmither/dag/critical_path.py:293-385 | The result is exactly the list of non-trivial strongly connected components: a node appears if and only if a non-empty walk leads from it back to itself, each list holds one whole mutual-reachability class in id order, and the lists are ordered by first id. Terminates on every graph. |
| `Cycles.CycleListUnique` | src/specsmither/dag/critical_path.py:299-317 | Only one list has these properties, so the result depends on the edge set alone: not on input order, node list or duplicate edges. |
| `Cycles.ShareIffMutual` | src/specsmither/dag/critical_path.py:293-385 | Two nodes share a list if and only if they are mutually reachable. |
| `Cycles.CyclesDisjoint` | src/specsmither/dag/critical_path.py:354-382 | No node is in two lists. |
| `Cycles.NoCyclesIffAcyclic` | src/specsmither/dag/tree.py:296-337 | `has_circular_deps` is false exactly on acyclic graphs. |
| `Cycles.ResidualAcyclic` | src/specsmither/dag/tree.py:296-306 | Removing the reported nodes leaves an acyclic graph, which is why the path search and the depth search stop on cyclic specs. |
| `FindCycles.CycleSearch.Advance` | src/specsmither/dag/critical_path.py:337-366 | One round of the iterative search keeps the whole invariant and makes progress: a new node is numbered, or an edge position moves on. |
| `FindCycles.CycleSearch.StrongConnect` | src/specsmither/dag/critical_path.py:328-366 | A search from an unnumbered node keeps the invariant, numbers that node and ends with empty stacks. |
| `FindCycles.CycleSearch.PopComponent` | src/specsmither/dag/critical_path.py:355-361 | Pops exactly the stack segment from the root up, each node once, and keeps the on-stack set in step. |
| `TarjanSteps.DiscoverKeeps` | src/specsmither/dag/critical_path.py:344-350 | Numbering and pushing a node keeps the search invariant. |
| `TarjanSteps.InspectKeeps` | src/specsmither/dag/critical_path.py:351-352 | Lowering the low-link over an edge to a numbered node keeps the search invariant. |
| `TarjanSteps.RetreatKeeps` | src/specsmither/dag/critical_path.py:363-366 | Leaving a node that is not a root, and handing its low-link down, keeps the search invariant. |
| `TarjanEmit.SegmentIsComponent` | src/specsmither/dag/critical_path.py:354-362 | When low-link equals index, the stack segment above the root is one whole strongly connected component. |
| `TarjanEmit.EmitKeeps` | src/specsmither/dag/critical_path.py:354-366 | Emitting that segment keeps the search invariant. |
| `FindCycles.SelectedMembers` | src/specsmither/dag/critical_path.py:377-382 | Kept are exactly the components of two or more nodes and the self-loops, each sorted. |
| `FindCycles.SortByFirstOrders` | src/specsmither/dag/critical_path.py:384-385 | Sorting by first id orders the lists strictly. |
| `LexOrder.LexLess` | src/specsmither/dag/critical_path.py:102-115 | The loop decides the strict lexicographic order on id lists. |
| `LexOrder.LessTotal` | src/specsmither/dag/critical_path.py:102-115 | Any two different lists are ordered one way ... |
| `LexOrder.LessAsymmetric` | src/specsmither/dag/critical_path.py:102-115 | ... and not the other. |
| `LexOrder.LessTrans` | src/specsmither/dag/critical_path.py:102-115 | The order is transitive. |
| `LexOrder.LessIsLexicographic` | src/specsmither/dag/critical_path.py:102-115 | A list comes first if and only if it is a proper prefix of the other or smaller where they first differ. |
| `CriticalPath.ComputeCriticalPath` | src/specsmither/dag/critical_path.py:118-204 | On an acyclic residual graph the result is the lexicographically least chain among all dependency chains of maximal weight, with a missing or non-positive estimate weighing 1; length and minutes are its exact node count and weight. |
| `CriticalPath.CriticalPathUnique` | src/specsmither/dag/critical_path.py:155-204 | There is only one such chain. |
| `CriticalPathRows.CriticalPathReadsRows` | src/specsmither/dag/critical_path.py:137-204 | Read off the ticket rows: the path is a chain of open tickets, each depending on the one before, the minutes are its positive estimates plus one for each ticket without, and no other chain of open tickets has a larger such total, or the same total and an earlier place in the lexicographic order. |
| `CriticalPathRows.NoEstimatesCountTickets` | src/specsmither/dag/critical_path.py:141-143 | Without a positive estimate anywhere the minutes are the number of tickets on the path. |
| `CriticalPath.PrefixLighter` | src/specsmither/dag/critical_path.py:141-143 | Weights are positive, so a maximal chain is never a proper prefix of another. |
| `CriticalPath.BeatsExtends` | src/specsmither/dag/critical_path.py:163-181 | The tie-break is stable: extending both candidates by the same node keeps the winner. |
| `CriticalPath.BestExtends` | src/specsmither/dag/critical_path.py:155-181 | A best chain to the dependencies of a node, extended by the node, is a best chain to it. |
| `CriticalPath.PathSearch.LongestTo` | src/specsmither/dag/critical_path.py:155-181 | The memoised recursion returns the best chain that ends in a node, and the memo only ever holds such chains. |
| `CriticalPath.PathSearch.Longest` | src/specsmither/dag/critical_path.py:183-197 | The outer loop returns the best chain over all nodes. |
| `CriticalPath.CollectDeps` | src/specsmither/dag/critical_path.py:145-151 | The neighbour lists hold exactly the residual edges, without repetition, in id order. |
| `BlockerDepth.ComputeMaxBlockerDepth` | src/specsmither/dag/critical_path.py:223-282 | On an acyclic residual graph the result is the edge count of the longest walk over incomplete tickets, and the `visiting` guard is never hit. |
| `BlockerDepth.DepthSearch.Depth` | src/specsmither/dag/critical_path.py:256-275 | The recursion stops on every graph; on an acyclic one it returns the longest walk from the ticket, and 0 for a completed one. |
| `BlockerDepth.MaxDepthUnique` | src/specsmither/dag/critical_path.py:277-282 | That number is unique. |
| `StatusCalculator.SettledIsTheFixpoint` | src/specsmither/dag/status_calculator.py:82-111 | The settled state is consistent, keeps sticky statuses, and is the only consistent state that differs from the given one in re-derivable tickets only. |
| `Cascade.CascadeToFixpoint` | src/specsmither/rollups/recompute.py:335-355 | Whatever the ticket order, the loop ends in the settled state after at most two passes. |
| `Cascade.FindDependencies` | src/specsmither/dag/cascade.py:85-93 | Exactly the dependencies of a ticket, each once, in first-seen order. |
| `Cascade.FindDependents` | src/specsmither/dag/cascade.py:74-82 | Exactly the dependents of a ticket, each once, in first-seen order. |
| `Cascade.CheckDependenciesCompleted` | src/specsmither/dag/cascade.py:96-125 | True if and only if every dependency is done; the blockers are exactly the unfinished ones and the missing ones exactly those without a state. |
| `Cascade.CascadeOnCompleted` | src/specsmither/dag/cascade.py:128-152 | The emitted transitions, and none unless the ticket is done. |
| `Cascade.CascadeOnUncompleted` | src/specsmither/dag/cascade.py:155-177 | The emitted transitions, and none while the ticket is done. |
| `Cascade.CascadeOnDependencyChange` | src/specsmither/dag/cascade.py:180-212 | The emitted transition of the changed ticket. |
| `Cascade.PromotionsShow` | src/specsmither/dag/cascade.py:138-152 | A promotion is emitted if and only if the ticket is among the dependents, pending, and every dependency of it is done; it goes from pending to ready for completed dependencies. |
| `Cascade.DemotionsShow` | src/specsmither/dag/cascade.py:165-177 | A demotion is emitted if and only if the ticket is among the dependents and ready; it goes from ready to pending for a reverted dependency. |
| `Cascade.DependencyChangeShows` | src/specsmither/dag/cascade.py:180-212 | At most one transition, of the changed ticket: a promotion when it is pending and unblocked, a demotion when it is ready and blocked. |
| `Cascade.ApplyPromotions` | src/specsmither/dag/cascade.py:138-152 | Applied, the promotions make ready exactly the pending dependents all of whose dependencies are done. |
| `Cascade.ApplyDemotions` | src/specsmither/dag/cascade.py:165-177 | Applied, the demotions make pending exactly the ready dependents. |
| `Cascade.CompletedRefinesFixpoint` | src/specsmither/dag/cascade.py:128-152 | From a consistent state, completing a ticket and applying one hop gives the fixpoint. |
| `Cascade.UncompletedRefinesFixpoint` | src/specsmither/dag/cascade.py:155-177 | From a consistent state, after giving a ticket any status but done, one hop gives the fixpoint if and only if the new status is what the ticket's own dependencies give (an active one always is), or it is ready on a self-loop, which the hop demotes. |
| `Cascade.ReopenedPendingNeedsFixpoint` | src/specsmither/dag/cascade.py:155-177 | The case it misses: a reopened ticket set to pending without dependencies. |
| `Cascade.DependencyChangeRefinesFixpoint` | src/specsmither/dag/cascade.py:180-212 | After any change to one ticket's own edges, applying its transition gives the fixpoint. |
| `Drain.SomeTicketReady` | src/specsmither/dag/status_calculator.py:108-111 | In an acyclic spec with nobody at work some ticket is ready, unless all are done. |
| `Drain.ReadyIffUnblocked` | src/specsmither/dag/status_calculator.py:91-111 | There, the ready tickets are exactly the open ones that no open ticket blocks. |
| `Drain.RoundLowersDepth` | src/specsmither/rollups/recompute.py:335-355 | Completing every ready ticket and settling lowers the blocker depth by exactly one; at depth zero it finishes the spec. |
| `Drain.DrainsInDepthPlusOneRounds` | src/specsmither/dag/critical_path.py:256-282 | Work is left after each of the first `max_blocker_depth` rounds and none after one more. |
| `CycleGuard.WouldCreateCycle` | src/specsmither/operations/crud.py:584-612 | The breadth-first search answers whether the dependency reaches the ticket, on every edge list. |
| `CycleGuard.GuardIsExact` | src/specsmither/operations/crud.py:584-612 | On an acyclic edge set the answer is yes if and only if the new edge closes a cycle, if and only if `find_cycles` on the extended set is non-empty. |
| `CycleGuard.RunsStayAcyclic` | src/specsmither/operations/crud.py:665-679 | Every run of guarded adds, removals and ticket deletions keeps the edge set acyclic and its cycle list empty. |
| `Counts.ProgressRange` | src/specsmither/rollups/counts.py:70-79 | Progress lies in 0..100 and is 100 if and only if there are tickets and 200(t - c) <= t. |
| `Counts.ProgressMonotone` | src/specsmither/rollups/counts.py:70-79 | Progress never falls when more tickets are completed. |
| `Counts.TallyTickets` | src/specsmither/rollups/counts.py:99-121 | The loop counts every status and sums the estimates. |
| `Counts.BucketsPartition` | src/specsmither/rollups/counts.py:99-121 | The four buckets and the unknown statuses add up to the ticket count. |
| `Counts.TallyOrderFree` | src/specsmither/rollups/counts.py:99-121 | The tally does not depend on the order of the rows. |
| `Counts.EpicCompletedIff` | src/specsmither/rollups/counts.py:165-184 | An epic is completed if and only if at most half a percent of its tickets is open, so below 200 tickets if and only if all are done. |
| `Counts.OneLeftIsCompleted` | src/specsmither/rollups/counts.py:165-184 | n done tickets and one pending make a completed epic if and only if n is at least 199. |
| `Counts.EpicTodoIff` | src/specsmither/rollups/counts.py:165-184 | An epic is todo if and only if none of its tickets is active or done, the empty epic included; so it is in progress if and only if one is and it is not completed. |
| `Counts.ProgressIsRounded` | src/specsmither/rollups/counts.py:70-79 | Progress is the percentage of completed tickets rounded half up, and 0 without tickets. |
| `Counts.DeriveSpecCounts` | src/specsmither/rollups/counts.py:263-298 | The spec columns of epic statuses and tickets. |
| `Counts.EpicBucketsPartition` | src/specsmither/rollups/counts.py:263-298 | The three epic buckets add up to the epic count. |
| `Counts.DeriveProjectCounts` | src/specsmither/rollups/counts.py:334-369 | The project columns of its spec rows. |
| `Counts.SpecBucketsPartition` | src/specsmither/rollups/counts.py:334-369 | The six spec buckets add up to the spec count. |
| `Counts.BucketsCountStatuses` | src/specsmither/rollups/counts.py:334-369 | Each bucket is the number of specs with that status, the three review statuses in one bucket. |
| `Counts.ColumnsAreSums` | src/specsmither/rollups/counts.py:334-369 | The other project columns are sums over the spec rows. |
| `Counts.DeriveDependencyCounts` | src/specsmither/rollups/counts.py:403-429 | For every id, incoming and outgoing edges, intra-epic edges, and the edge count. |
| `Counts.DependencyCountsConserved` | src/specsmither/rollups/counts.py:403-429 | Incoming counts and outgoing counts each add up to the number of edges. |
| `Counts.DeriveBlueprintCounts` | src/specsmither/rollups/counts.py:473-500 | Per ticket the link rows, per epic the distinct blueprints, per spec the blueprints. |
| `TreeBuild.BuildDependencyTree` | src/specsmither/dag/tree.py:208-355 | On every input, cyclic ones included, the tree is the one its definition describes: lists, nodes, summary, cycles, critical path and depth over the residual graph. |
| `TreeBuild.BuildGraph` | src/specsmither/dag/tree.py:296-306 | Cycles first, then the path over the rest without done tickets, then the depth over the rest. |
| `TreeBuild.CanonicalEdgesExact` | src/specsmither/dag/tree.py:237-244 | The canonical edge list holds exactly the edges between known tickets ... |
| `TreeBuild.CanonicalEdgesOrdered` | src/specsmither/dag/tree.py:237-244 | ... strictly ordered by source, then target, so without duplicates. |
| `TreeBuild.CountStatuses` | src/specsmither/dag/tree.py:309-315 | The histogram counts every status over all tickets. |
| `TreeBuild.CollectReady` | src/specsmither/dag/tree.py:310-321 | The ready and blocked lists hold exactly the flagged tickets. |
| `TreeBuild.TreeOrderFree` | src/specsmither/dag/tree.py:208-355 | Permuting tickets and epics and permuting or repeating edges changes nothing but version and timestamp. |
| `TreeSpec.TreeUnique` | src/specsmither/dag/tree.py:208-355 | Two builds from the same rows differ at most in version and timestamp. |
| `TreeSpec.BlocksTransposesDependencies` | src/specsmither/dag/tree.py:229-252 | `blocks` is the exact transpose of `dependencies`, and both are the edges. |
| `TreeRows.TreeShowsRows` | src/specsmither/dag/tree.py:208-355 | Read off the rows: every ticket with number, title, epic, sorted dependencies and dependents, unfinished dependencies and ready flag; every epic with its tickets by number; ready and blocked lists; the histogram as set sizes; the minutes as given estimates plus 60 for each ticket without one; the path as rendered rows. |
| `TreeRows.GateCompares` | src/specsmither/dag/tree.py:358-411 | The gate keeps the cached tree if and only if spec, edges, cycles, the two lists, total, flag and path length agree and every ticket agrees on status, ready flag, blocker count and both edge lists. |
| `TreeSpec.GateDeterminesTheRest` | src/specsmither/dag/tree.py:379-411 | Two built trees that compare equal also agree on blocker depth, status histogram and unsatisfied dependencies, none of which is compared. |
| `TreeSpec.GateReadsRows` | src/specsmither/dag/tree.py:358-411 | The comparison passes a cached tree if and only if its compared parts are what the rows say now. |
| `TreeSpec.PassingTreeIsCurrent` | src/specsmither/rollups/recompute.py:273-291 | A cached tree that passes holds the current blocker depth and histogram, so skipping the write loses neither. |
| `TreeSpec.RebuildIsNotAChange` | src/specsmither/rollups/recompute.py:273-291 | Rebuilding over unchanged rows is no change: no write, no version bump. |
| `TreeResults.CriticalPathBracketsBlockerDepth` | src/specsmither/dag/tree.py:301-341 | When a ticket is neither done nor cyclic, `critical_path_length - 1 <= max_blocker_depth < critical_path_minutes`, with equality on the left when all weights are equal. |
| `TreeResults.ReadyListIsReadyStatus` | src/specsmither/dag/tree.py:310-321 | On settled rows the ready list is exactly the tickets with status ready, and every pending ticket is on the blocked list. |
| `StoredTree.TreeBack` | src/specsmither/rollups/recompute.py:375-441 | Reading the stored dictionary form of a tree gives the tree back, field by field, so the gate compares what was built. |
| `StoredTree.TicketBack` | src/specsmither/rollups/recompute.py:397-411 | The same for one ticket, its three id lists and its optional columns included. |
| `StoredTree.StoredGateReadsRows` | src/specsmither/rollups/recompute.py:273-291 | On the tree read back the gate keeps that tree if and only if its compared parts are what the rows say, and else takes the rebuilt one. |
| `Recompute.RecomputeSpec` | src/specsmither/rollups/recompute.py:140-293 | Afterwards every derived column of the spec, its epics and its tickets, the cached tree and the two scalars equal their derivation from the authoritative columns; those are untouched; statuses are the fixpoint of the old ones; the version grows by at most one; on a consistent spec nothing changes. |
| `Recompute.SettleTickets` | src/specsmither/rollups/recompute.py:187-204 | Status, progress and block reason of every ticket after the cascade. |
| `Recompute.RewriteRows` | src/specsmither/rollups/recompute.py:187-271 | Ticket and epic columns in one pass, and the identity on rows already derived. |
| `Recompute.RefreshTree` | src/specsmither/rollups/recompute.py:273-291 | Tree, version, timestamp and scalars are written together, with the version one higher, or not at all; the tree afterwards is current, and a current one is not written. |
| `StoredColumns.TicketColumns` | src/specsmither/rollups/recompute.py:187-271 | In a consistent spec a ticket's progress is 100 when done and else 0, and its edge and link counts are the numbers of edges into it, edges out of it and blueprints linked to it. |
| `StoredColumns.EpicColumns` | src/specsmither/rollups/recompute.py:223-271 | An epic's columns are sizes of sets of its tickets, edges inside it and blueprints linked to them; its progress is the rounded percentage; it is completed exactly when it has tickets of which at most one in two hundred is open, and todo exactly when none is active or done. |
| `StoredColumns.SpecColumns` | src/specsmither/rollups/recompute.py:242-267 | The spec's three epic columns count the completed, the untouched and the other epics; its ticket, edge and blueprint columns are sizes of sets of rows. |
| `ProjectColumns.ProjectColumns` | src/specsmither/rollups/recompute.py:296-327 | In a sound database the project's spec buckets count its specs by status, and its other columns count the epics, completed epics, tickets and done tickets under it. |
| `RecomputeResults.ScalarsAreFromScratch` | src/specsmither/rollups/recompute.py:284-291 | `critical_path_length` and `max_blocker_depth` equal their definitions on the current rows, although the gate may have kept an older tree. |
| `RecomputeResults.ReadyListIsExact` | src/specsmither/operations/queries.py:612-635 | The cached ready list served to readers is exactly the set of ready tickets and as long as `ready_ticket_count`; every pending ticket is on the blocked list. |
| `RecomputeResults.BlockReasonIsExact` | src/specsmither/rollups/recompute.py:195-204 | A ticket has a block reason if and only if it is pending, and the reason covers exactly its unfinished dependencies. |
| `RecomputeResults.BlockersDistinct` | src/specsmither/rollups/recompute.py:358-363 | No blocker is named twice. |
| `RecomputeResults.ReasonForOne` | src/specsmither/rollups/recompute.py:358-363 | The reason for one blocker: "Blocked by 1 dependency: " and its title, or its id when the title is missing or empty. |
| `RecomputeResults.ReasonForMore` | src/specsmither/rollups/recompute.py:358-363 | The reason for more: "Blocked by N dependencies: " and the names, the last after a comma and a space. |
| `RecomputeResults.EpicsPartitionTheTotal` | src/specsmither/rollups/recompute.py:227-231 | Any measure summed by epic gives the total over all tickets. |
| `RecomputeResults.EpicColumnsSumToSpec` | src/specsmither/rollups/recompute.py:233-262 | Ticket, status and minute columns of the epics add up to the spec's own. |
| `StoredRows.Nodes` | src/specsmither/rollups/recompute.py:207-218 | The node view has exactly the tickets of the spec. |
| `StoredColumns.TicketNodeCarries` | src/specsmither/rollups/recompute.py:207-218 | The engine reads each ticket's own status, estimate, epic, number and title ... |
| `StoredColumns.EpicNodeCarries` | src/specsmither/rollups/recompute.py:219-221 | ... and each epic's own number and title. |
| `Rows.MergedSound` | src/specsmither/rollups/recompute.py:140-293 | Writing one recomputed spec back makes it sound, leaves every other spec sound, and puts only its project on the worklist. |
| `Rows.MergedOther` | src/specsmither/rollups/recompute.py:145-181 | The other specs do not notice. |
| `Rows.MergedProject` | src/specsmither/rollups/recompute.py:296-327 | Recomputing a project takes it off the worklist and changes nothing when it was current. |
| `Mutations.TouchingMakesStale` | src/specsmither/rollups/recompute.py:91-137 | A mutation only some specs can see leaves only those specs and their projects for the worklist. |
| `Mutations.EdgesTouch` | src/specsmither/operations/crud.py:665-770 | A dependency is visible only to the spec of the ticket it starts from, wherever it leads. |
| `Mutations.DropTouches` | src/specsmither/operations/crud.py:471-529 | A deletion is visible only to its own spec when no foreign ticket links a deleted blueprint. |
| `Worklist.RecomputedBoth` | src/specsmither/rollups/recompute.py:126-137 | Recomputing disjoint sets of specs one after the other is recomputing their union. |
| `Database.Database.constructor` | src/specsmither/rollups/recompute.py:91-137 | An empty database is sound. |
| `Database.Database.RecomputeOne` | src/specsmither/rollups/recompute.py:140-293 | One id of the worklist: this spec becomes sound, nothing else becomes stale but its project. |
| `Database.Database.RecomputeProject` | src/specsmither/rollups/recompute.py:296-327 | One project becomes current. |
| `Database.Database.Recompute` | src/specsmither/rollups/recompute.py:91-137 | Whatever list it is given, duplicates and missing ids included: the listed specs and their projects become sound, unlisted specs are untouched, and on a sound database nothing changes. |
| `Database.Database.Commit` | src/specsmither/operations/crud.py:250-257 | A mutation followed by the worklist over the specs it touched ends in a sound database. |
| `Database.Database.AddDependency` | src/specsmither/operations/crud.py:627-682 | Refused in the documented cases with nothing written; otherwise exactly this edge is new, no user-set column changes but pending and ready statuses, and the database is sound. |
| `Database.Database.CheckNewDependency` | src/specsmither/operations/crud.py:642-676 | The errors, in order: self-dependency, missing tickets, another spec, duplicate, cycle; the search over the listed edges is exact. |
| `Database.Database.RemoveDependency` | src/specsmither/operations/crud.py:685-717 | Refused when there is no such edge; otherwise exactly this edge is gone and the database is sound. |
| `Database.Database.BulkAddDependencies` | src/specsmither/operations/crud.py:720-770 | Refused for more than 100 items; otherwise exactly the edges between two different known tickets are added, the others are listed as failed with their error, added plus failed is the number of items, and the database is sound. |
| `Database.Database.CreateSpecification` | src/specsmither/operations/crud.py:260-286 | Refused on a blank title or missing project; otherwise the new row has its project and status, no other row changes in a user-set column, and the database is sound. |
| `Database.Database.CreateEpic` | src/specsmither/operations/crud.py:289-318 | The same for an epic: its title trimmed, its number the given one or one more than the largest of its spec. |
| `Database.Database.CreateTicket` | src/specsmither/operations/crud.py:321-352 | The same for a ticket: title, number, estimate or 0; done and active stay, any other status becomes ready. |
| `Database.Database.CreateBlueprint` | src/specsmither/operations/crud.py:355-377 | The same for a blueprint: exactly this row is new. |
| `Database.Database.UpdateSpecification` | src/specsmither/operations/crud.py:385-403 | Refused when missing or locked; otherwise the status is written and the database, project buckets included, is sound. |
| `Database.Database.UpdateEpic` | src/specsmither/operations/crud.py:406-420 | Refused when missing or locked; otherwise a given number or title is written, an absent one stays, no other row changes in a user-set column, and the database is sound. |
| `Database.Database.UpdateTicket` | src/specsmither/operations/crud.py:423-446 | Each given column has the given value and each absent one its old value; in its spec, a given done or active is the status, anything else is ready or pending by the dependencies, and progress follows; the database is sound afterwards if and only if the ticket stays in its spec. |
| `Database.Database.LinkBlueprint` | src/specsmither/operations/crud.py:778-823 | The link is there and the database is sound, also for a link across specs. |
| `Database.Database.UnlinkBlueprint` | src/specsmither/operations/crud.py:826-861 | Refused when there is no such link; otherwise it is gone and the database is sound. |
| `Database.Database.DeleteTicket` | src/specsmither/operations/crud.py:471-482 | The ticket and exactly its edges and links are gone and the database is sound. |
| `Database.Database.DeleteEpic` | src/specsmither/operations/crud.py:485-494 | The epic and all its tickets are gone and the database is sound. |
| `Database.Database.DeleteBlueprint` | src/specsmither/operations/crud.py:497-509 | The database is sound afterwards if and only if no ticket of another spec linked the blueprint. |
| `Database.Database.DeleteSpecification` | src/specsmither/operations/crud.py:512-576 | The spec and all it holds are gone; the database, its project included, is sound if and only if no ticket of another spec linked one of its blueprints. |
| `StaleCases.MovedTicketIsMissed` | src/specsmither/operations/crud.py:423-446 | However the former spec is recomputed, the spec a ticket moved to still counts without it. |
| `StaleCases.ForeignLinkIsMissed` | src/specsmither/operations/crud.py:497-529 | However the blueprint's spec is recomputed, a foreign ticket still counts the lost link. |
| `StaleCases.MoveOutcome` | src/specsmither/operations/crud.py:436-446 | Sound after a ticket update if and only if the ticket stays in its spec. |
| `StaleCases.DropOutcome` | src/specsmither/operations/crud.py:471-509 | Sound after a deletion if and only if no foreign ticket linked a deleted blueprint. |
| `StaleCases.DropSpecOutcome` | src/specsmither/operations/crud.py:512-576 | The same for a whole specification. |
| `StaleCases.EmptyIsSound` | src/specsmither/rollups/recompute.py:91-137 | A database without specs is sound. |
| `StaleRuns.MoveTicketRun` | src/specsmither/operations/crud.py:423-446 | A run of accepted verbs from an empty database: two specs, a ticket of the first moved to an epic of the second, and the database is not sound. |
| `StaleRuns.DeleteBlueprintRun` | src/specsmither/operations/crud.py:497-509 | The same with a ticket of the first spec linked to a blueprint of the second, and the blueprint deleted. |
| `StaleRuns.DeleteSpecificationRun` | src/specsmither/operations/crud.py:512-576 | The same with the whole second spec deleted. |
| `CrudTypes.TrimEmptyIff` | src/specsmither/operations/crud.py:165-171 | A title is refused if and only if it has no non-blank character. |
| `Verbs.NextEpicNumber` | src/specsmither/operations/crud.py:242-247 | The next epic number exceeds every number in the spec. |
| `Verbs.NextTicketNumber` | src/specsmither/operations/crud.py:234-239 | The next ticket number exceeds every number in the epic. |
| `Verbs.BulkTouches` | src/specsmither/operations/crud.py:720-770 | A bulk add is visible only to the specs it reports as affected. |
| `VerbOutcomes.StatusSettles` | src/specsmither/rollups/recompute.py:187-204 | Whatever status a ticket was given, the recompute keeps done and active and makes anything else ready, or pending while a dependency in the spec is not done. |
| `VerbOutcomes.WorklistKeeps` | src/specsmither/rollups/recompute.py:91-137 | The worklist adds and removes no row and changes no column a user sets; only pending and ready tickets may change status. |
| `VerbOutcomes.UpdateTicketOutcome` | src/specsmither/operations/crud.py:174-188 | The columns of an updated ticket, one by one, and everything else unchanged. |
| `VerbOutcomes.CreateTicketOutcome` | src/specsmither/operations/crud.py:333-352 | The columns of a new ticket, one by one, and everything else unchanged. |
| `VerbOutcomes.UpdateEpicOutcome` | src/specsmither/operations/crud.py:406-420 | The columns of an updated epic. |
| `VerbOutcomes.CreateEpicOutcome` | src/specsmither/operations/crud.py:303-318 | The columns of a new epic. |
| `VerbOutcomes.SpecOutcome` | src/specsmither/operations/crud.py:272-286 | Project and status of a written spec, and everything else unchanged. |
| `VerbOutcomes.DropShows` | src/specsmither/operations/crud.py:471-509 | After a deletion exactly the named rows are gone, and with them exactly the edges and links that named one. |
| `VerbOutcomes.SpecGoes` | src/specsmither/operations/crud.py:512-533 | A deleted spec takes exactly its epics, their tickets, its blueprints and their edges and links. |
| `VerbOutcomes.NextTicketIs` | src/specsmither/operations/crud.py:234-239 | The next ticket number is 1 in an epic without numbers, and else one more than the largest. |
| `VerbOutcomes.NextEpicIs` | src/specsmither/operations/crud.py:242-247 | The same for the epics of a spec. |
| `VerbOutcomes.TrimIs` | src/specsmither/operations/crud.py:165-171 | A title is stored without the white space around it, and is refused if and only if nothing is left. |
| `VerbOutcomes.CreateSpecificationRefusals` | src/specsmither/operations/crud.py:260-286 | A new spec is refused exactly for a blank title or an unknown project. |
| `VerbOutcomes.CreateEpicRefusals` | src/specsmither/operations/crud.py:215-222 | A new epic or blueprint is refused exactly for a blank title, an unknown spec, or a spec that is done, reviewed or in review, each with its own error. |
| `VerbOutcomes.CreateTicketRefusals` | src/specsmither/operations/crud.py:333-338 | The same for a new ticket, and for an unknown status. |
| `VerbOutcomes.UpdateSpecificationRefusals` | src/specsmither/operations/crud.py:385-398 | A spec update is refused exactly when the spec is unknown, done or reviewed. |
| `VerbOutcomes.UpdateEpicRefusals` | src/specsmither/operations/crud.py:406-416 | The same for an epic and its spec. |
| `VerbOutcomes.UpdateTicketRefusals` | src/specsmither/operations/crud.py:423-441 | The same for a ticket, and for an unknown status or epic. |
| `VerbOutcomes.AddDependencyRefusals` | src/specsmither/operations/crud.py:642-676 | A dependency is refused exactly for a self-edge, an unknown end, ends in two specs, an edge already there, or a walk back from its target. |
| `VerbOutcomes.LinkRefusals` | src/specsmither/operations/crud.py:778-808 | A link is refused exactly for an unknown end or when it is there. |
| `VerbOutcomes.BulkRefusals` | src/specsmither/operations/crud.py:739-763 | Each item of a batch is refused exactly for a self-edge, an unknown end, or an edge stored or listed before it. |
| `DatabaseResults.AddKeepsAcyclic` | src/specsmither/operations/crud.py:665-679 | An accepted dependency leaves every spec acyclic. |
| `DatabaseResults.FewerEdgesKeepAcyclic` | src/specsmither/operations/crud.py:685-717 | So does every verb that adds no edge ... |
| `DatabaseResults.RemovalsAddNoEdges` | src/specsmither/operations/crud.py:471-482 | ... and removing a dependency or deleting a ticket adds none. |
| `DatabaseResults.NoCycleFlag` | src/specsmither/dag/tree.py:327-343 | In a sound database of acyclic specs every spec has a cached tree with `has_circular_deps` false. |
| `DatabaseResults.StoredDepthCountsRounds` | src/specsmither/rollups/recompute.py:284-291 | The stored `max_blocker_depth`, plus one, is the exact number of rounds a consistent acyclic idle spec needs. |
| `Aggregate.ComputeAggregateUpdate` | src/specsmither/rollups/aggregate.py:433-483 | Returns a fresh aggregate with the folded state and the emitted datapoints; the previous object is never written. Its nested containers are values, so they cannot be shared. |
| `Aggregate.ReplayCompute` | src/specsmither/rollups/aggregate.py:734-793 | Without a positive batch size one pass; otherwise the chunked run, with its datapoints and batch count. |
| `Aggregate.ComputeDatapoints` | src/specsmither/rollups/aggregate.py:298-345 | The loop emits the datapoints of the successful actions, in order. |
| `Aggregate.RegistryResolves` | src/specsmither/rollups/aggregate.py:408-420 | Looking a type up in the built registry is resolving it from the revisions. |
| `Aggregate.Aggregate.Empty` | src/specsmither/rollups/aggregate.py:428-430 | A new aggregate: nothing counted, no score, no cursor, and the epoch as its time. |
| `Aggregate.Aggregate.Clone` | src/specsmither/rollups/aggregate.py:486-510 | A clone is a fresh object with the same projection; copying its nested containers, which are values here, has nothing to show. |
| `Aggregate.Aggregate.ApplyTransitions` | src/specsmither/rollups/aggregate.py:516-540 | Timeline and triggers after a list of transitions, nothing else written. |
| `Aggregate.Aggregate.ApplyActions` | src/specsmither/rollups/aggregate.py:557-594 | Tallies, counts, revisions, history and deltas after a list of actions, nothing else written. |
| `Aggregate.Aggregate.ApplyDatapointsToPerEntity` | src/specsmither/rollups/aggregate.py:705-710 | Per-entity scores after a list of datapoints. |
| `Aggregate.Aggregate.Absorb` | src/specsmither/rollups/aggregate.py:462-483 | Transitions, actions, datapoints against the registry they leave, per-entity scores and cursors, in that order. |
| `AggregateFold.FoldTallyConcat` | src/specsmither/rollups/aggregate.py:557-594 | Folding two lists one after the other is folding their concatenation. |
| `AggregateFold.FoldTrailConcat` | src/specsmither/rollups/aggregate.py:516-527 | The same for transitions. |
| `AggregateFold.DatapointKeyInjective` | src/specsmither/rollups/aggregate.py:293-295 | For any ids whose text has no hash sign, two datapoints share a key if and only if action, entity and trigger agree. |
| `AggregateFold.DatapointKeysCollide` | src/specsmither/rollups/aggregate.py:293-295 | A hash sign in an id lets two datapoints share a key. |
| `AggregateFold.DatapointIdInjective` | src/specsmither/rollups/aggregate.py:293-295 | Numbered ids have no hash sign, so here the key is injective. |
| `AggregateReplay.ChunkedReaches` | src/specsmither/rollups/aggregate.py:734-793 | For every batch size the chunked run ends at both list ends, with the tallies, trail and cursors of the whole lists. |
| `AggregateReplay.SingleReaches` | src/specsmither/rollups/aggregate.py:756-765 | So does the single pass. |
| `AggregateReplay.AgreeOnDatapoints` | src/specsmither/rollups/aggregate.py:734-793 | Hence under a constant clock the two aggregates are equal whenever the datapoints are. |
| `AggregateReplay.BatchesAreChunks` | src/specsmither/rollups/aggregate.py:756-793 | For ordered action ids the replay applies one batch for each chunk, and one more when a transition has an id above the last action's or there is no action. |
| `ReplayStability.ReplayIffChunkTypesSettle` | src/specsmither/rollups/aggregate.py:716-793 | For strictly increasing action ids, ordered transitions, a constant clock and one batch size: chunked replay gives the single pass's aggregate and datapoints if and only if every scored entity has its final type by the end of the chunk of the action that scored it. |
| `ReplayStability.ReplayIffTypesSettle` | src/specsmither/rollups/aggregate.py:716-793 | It does at every batch size if and only if the type an entity resolves to never changes again once an action has scored it. |
| `ReplayStability.SettledTypesReplay` | src/specsmither/rollups/aggregate.py:734-793 | One direction needs only ordered action ids, repeated ones included. |
| `ReplayStability.FixedAndRegisteredSettle` | src/specsmither/rollups/aggregate.py:365-420 | Types settle when every entity keeps one type and is registered no later than its first score. |
| `ReplayStability.EarlyScoreBreaksReplay` | src/specsmither/rollups/aggregate.py:365-375 | An epic scored one action before its creation, or before the first update of an epic older than the session, breaks the equality for batches of one and for no other size. |
| `ReplayStability.RegistryIsLastRevision` | src/specsmither/rollups/aggregate.py:661-720 | The registry entry of an entity comes from its last successful revising action. |
| `AggregateLaws.DeltasTelescope` | src/specsmither/rollups/aggregate.py:557-594 | Over any actions the per-operation deltas add up to last score minus first score, and their counts to history length minus one. |
| `AggregateLaws.TimelineIsContiguous` | src/specsmither/rollups/aggregate.py:516-540 | One timeline entry per transition, every entry but the last closed at the next one's start. |
| `AggregateLaws.TransitionCloses` | src/specsmither/rollups/aggregate.py:516-540 | On any timeline a transition closes the last entry, unless it has a non-empty exit time, and opens one. |
| `AggregateLaws.TriggersAreCounted` | src/specsmither/rollups/aggregate.py:516-527 | Every trigger is counted as often as it occurs. |
| `AggregateTallies.OperationsAreCounted` | src/specsmither/rollups/aggregate.py:563-564 | The operation mix counts each operation, denied ones included ... |
| `AggregateTallies.OperationsAddUp` | src/specsmither/rollups/aggregate.py:563-564 | ... and adds up to the number of actions. |
| `AggregateTallies.ActorsAreCounted` | src/specsmither/rollups/aggregate.py:597-605 | In each phase agent and human actions are counted apart and add up to the actions of the phase. |
| `AggregateTallies.DenialsAreCounted` | src/specsmither/rollups/aggregate.py:570-575 | Denied actions are counted by the reason they give. |
| `AggregateTallies.VariantsAreCounted` | src/specsmither/rollups/aggregate.py:608-614 | Known guidance variants are counted as often as they occur. |
| `AggregateTallies.FindingsAreCounted` | src/specsmither/rollups/aggregate.py:617-624 | Known findings categories are counted as often as they occur. |
| `AggregateTallies.CounterIsLargestSuffix` | src/specsmither/rollups/aggregate.py:627-645 | Each entity counter is the largest net of creates less deletes over the suffixes of the run, dependencies weighted by the length of their payload list: floors at zero are forgotten exactly there. |
| `AggregateTallies.CounterIsNet` | src/specsmither/rollups/aggregate.py:627-645 | When no prefix deletes more than it created, a counter is creates less deletes. |
| `AggregateTallies.NetIsCreatesLessDeletes` | src/specsmither/rollups/aggregate.py:627-645 | For epics, tickets and blueprints that is a count of successful creates less successful deletes. |
| `AggregateTallies.CounterMoves` | src/specsmither/rollups/aggregate.py:627-658 | One action moves only the counter of its own kind, a denied one none. |
| `AggregateTallies.RevisionsAreTouches` | src/specsmither/rollups/aggregate.py:661-702 | An entity is registered exactly when a successful create or update named it; count, type, time and title are those of these actions, the title the last one given. |
| `AggregateTallies.HistoryIsGraded` | src/specsmither/rollups/aggregate.py:580-594 | The score history lists the successful scored actions in order, and the global score is the last of them. |
| `AggregateTallies.DeltasAreSteps` | src/specsmither/rollups/aggregate.py:582-592 | The deltas of an operation are the sum and the number of the score steps it made. |
| `AggregateTallies.ActionCursorIsMax` | src/specsmither/rollups/aggregate.py:724-727 | The cursor is the largest action id of the batch. |
| `AggregateTallies.TransitionCursorIsMax` | src/specsmither/rollups/aggregate.py:724-727 | The same for transitions. |
| `AggregateTallies.EntityScoreIsLast` | src/specsmither/rollups/aggregate.py:705-710 | The score of an entity is its last datapoint's ... |
| `AggregateTallies.EntityScoreIsKept` | src/specsmither/rollups/aggregate.py:705-710 | ... and its old one when it has none. |
| `AggregateTallies.ListedScoreWins` | src/specsmither/rollups/aggregate.py:399-405 | A listed entity score goes before the global score. |
| `AggregateTallies.OwnDatapoints` | src/specsmither/rollups/aggregate.py:320-363 | A successful create or update of an epic or ticket, or update of the spec, leaves one datapoint for its entity, of its own trigger and type, with the listed score or else the global one, and none without a score. |
| `AggregateTallies.SharedDatapoints` | src/specsmither/rollups/aggregate.py:331-397 | A successful blueprint, dependency, link or cross-validation action leaves one datapoint for each entity it lists, blueprints aside, with the listed score and the registered type. |
| `AggregateTallies.NoDatapoints` | src/specsmither/rollups/aggregate.py:308-346 | Any other action leaves none. |
| `Decimal.ParsePrinted` | src/specsmither/toon/encoder.py:182-190 | A printed number reads back as itself. |
| `ToonTokens.EscapeIsTheChain` | src/specsmither/toon/encoder.py:84-91 | The five chained replacements escape each character once. |
| `ToonTokens.QuotedBack` | src/specsmither/toon/encoder.py:84-91 | An escaped string, read to its closing quote, is the string. |
| `ToonTokens.PrimitiveShape` | src/specsmither/toon/encoder.py:193-206 | A printed primitive is a quoted string, or a bare token that reads back as that very value. |
| `ToonTokens.SafeIsBare` | src/specsmither/toon/encoder.py:98-119 | A string judged safe unquoted cannot be taken for a number, a literal, a list or a key. |
| `ToonForms.BareIff` | src/specsmither/toon/encoder.py:102-119 | A string is printed as it is if and only if it is not empty, has no white space at either end, is no literal and no number, does not start with a hyphen, and holds no colon, quote, backslash, bracket, brace, line break, tab or delimiter; otherwise it is printed in quotes with the five replacements. |
| `ToonForms.NumericIff` | src/specsmither/toon/encoder.py:98-99 | The number pattern, on one line: an optional minus, digits, an optional fraction, an optional exponent. |
| `ToonForms.KeyBareIff` | src/specsmither/toon/encoder.py:122-126 | A key is printed as it is if and only if it is a letter or underscore followed by letters, digits, underscores and dots, one final line break aside; otherwise in quotes. |
| `ToonTokens.KeyBack` | src/specsmither/toon/encoder.py:209-212 | A key that keeps its line reads back, whatever may follow a key. |
| `ToonTokens.RowBack` | src/specsmither/toon/encoder.py:527-535 | A delimited row reads back value by value. |
| `ToonTokens.BracketBack` | src/specsmither/toon/encoder.py:219-233 | A header reads back as length, delimiter and column names. |
| `ToonShapes.ArrayShape` | src/specsmither/toon/encoder.py:441-466 | The branches of the array emitter have one shape: key, header, and the lines below. |
| `ToonForms.ArrayForm` | src/specsmither/toon/encoder.py:441-535 | An array of scalars is one line; a non-empty array of flat objects over the keys of the first is one header line with these keys and one line for each object with its values in key order; any other array is a header and a list. |
| `ToonForms.FirstArrayForm` | src/specsmither/toon/encoder.py:548-604 | The same for an array that is the first field of a list item. |
| `ToonShapes.ObjectItemShape` | src/specsmither/toon/encoder.py:548-604 | An object in a list is its fields one level in, the first behind the marker. |
| `ToonRoundTrip.ObjectBack` | src/specsmither/toon/encoder.py:365-438 | The lines of an object read back as its fields, and stop where it stops. |
| `ToonRoundTrip.ItemBack` | src/specsmither/toon/encoder.py:548-624 | The lines of a list item read back as the item. |
| `ToonRoundTrip.ArrayBack` | src/specsmither/toon/encoder.py:441-535 | Header and lines of an array, inline, tabular or list, read back as the array. |
| `ToonLines.TextBack` | src/specsmither/toon/encoder.py:657-664 | Decoding the indented text is decoding the lines, for every indentation above zero. |
| `ToonDocument.CanonMeansTheSame` | src/specsmither/toon/encoder.py:504-535 | Reading a table in the header's key order changes no row's meaning. |
| `ToonDocument.EncodingIsLossless` | src/specsmither/toon/encoder.py:630-664 | For every delimiter and indentation the text decodes to the value, up to key order in tabular rows. |
| `ToonDocument.EncodingIsInjective` | src/specsmither/toon/encoder.py:630-664 | Two such values with one text mean the same. |
| `ToonBreaks.BrokenKeyIsRefused` | src/specsmither/toon/encoder.py:122-126 | If any key is an identifier followed by one line break, which the key pattern lets through unquoted, the whole text is unreadable. |
| `ToonBreaks.BreakingKeyIsRefused` | src/specsmither/toon/encoder.py:122-126 | One such value written out: an object with the single key "a" and a line break. |
| `ToonBreaks.StrayIsRefused` | src/specsmither/toon/encoder.py:209-233 | A line at the margin that starts with what only follows a key spoils the document, wherever it stands. |
| `ToonLoss.LosslessIff` | src/specsmither/toon/encoder.py:353-664 | For every value without repeated keys: what is decoded means what was encoded if and only if every key keeps its line and no array stands under an empty key (first in a list item only a table does). |
| `ToonLoss.ItemGoesAstray` | src/specsmither/toon/encoder.py:548-624 | A list item that breaks the rule is refused or read as something else. |
| `ToonLoss.FieldsGoAstray` | src/specsmither/toon/encoder.py:365-438 | An object that breaks the rule is refused, or some key is read with another value. |
| `ToonLoss.EmptyKeyIsLost` | src/specsmither/toon/encoder.py:228-230 | An array under an empty key prints like the bare array, so no reader can tell them apart. |

## Left out

- Database.Database.UpdateTicket: keeps the derived columns sound only when the ticket stays in its spec; that this is the exact condition is part of the contract.
- Database.Database.DeleteBlueprint: keeps them sound only when no other spec's ticket links the blueprint, stated exactly.
- Database.Database.DeleteSpecification: the same condition for all blueprints of the spec, stated exactly.
- Database.Database.BulkAddDependencies: does not keep a spec acyclic, because that path has no cycle check; cross-spec edges it stores are in the edge table and derived from by no spec.
- Database.Database.UpdateEpic: writes number and title only; no derivation reads the other columns.
- Database.Database.RemoveDependency: names the edge by its two ends only; the form by edge id is not modelled.
- Database.Database.UnlinkBlueprint: names the link by ticket and blueprint only.
- Database.Database.CreateTicket: an unknown status is refused as a failed validation; the enumeration check itself belongs to a file that is not part of this model.
- TreeSpec.PassingTreeIsCurrent: says nothing of path nodes, minutes, titles and estimates of a kept tree, because the gate does not compare them.
- CriticalPath.ComputeCriticalPath: minutes are integers, so rounding never acts.
- ToonDocument.EncodingIsLossless: numbers are integers; floats, their shortest decimals and the normalisation of Python values are not modelled.
- The actions of a session: which payload fields an action carries, the enumeration values and the timestamp parser are parameters; the payload is projected to what the fold reads.
- Aggregate.Aggregate.Clone: the dictionaries and lists inside an aggregate are values, so that two aggregates share one of them, which the copying prevents, cannot happen here.
- StoredTree.TreeBack: dictionary keys, ids and status names are symbols, not character strings; the tables of the database keep the tree itself.
- `update_blueprint`, and child rows of tickets: they write columns no derivation reads.
- The type of a dependency: no derivation reads it.
- Sessions, transactions, SQL, migrations and repositories: a verb is one atomic method.
- Clocks and new ids: parameters.
- TOON key folding: off in every caller of the encoder in the server.
- Search, lookup, pagination, reports and configuration merge: filters and field copies.
- The MCP server, the terminal interface, the scaffold emitter, the lifecycle verbs, the crucible validator and the write-plan executor.
