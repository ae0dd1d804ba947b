# A verified model of a Bitcoin node's hard parts

This project models, in Dafny 4.11, the parts of a Bitcoin node written in C where most is at stake and least is obvious, and
proves what they promise. Nothing was executed: every statement here is a theorem about the model.

* **Cluster linearization** (`Feerates`, `Clusters`, `FlowTheory`, `MaxFlow`, `Closures`, `Optimal`, `Linearize`). The optimal
  linearization of a mempool cluster by repeated maximum-weight closures: Dinic's algorithm as written, the reduction of closures
  to cuts, the Dinkelbach iteration with its bound on rounds, and the dominance of the order that comes out over every
  ancestor-closed set at every slope.
* **Feerate diagrams** (`Diagrams`, `Chunking`, `DiagramOrder`, `TightRuns`, `Passes`, `GroupOrder`, `LastMember`,
  `PostLinearize`, `CompareChunks`, `Replacement`). Chunking as the least concave majorant of the prefix points, the integer
  comparisons as exact comparisons of real diagrams, post-linearization, in place and in both directions, as an improvement
  everywhere with connected chunks that is optimal where members have one child or one parent each, and a replacement judged on
  the clusters it touches.
* **The mempool engine** (`ChainTable`, `ParentLists`, `ChildIndex`, `PoolViews` to `PoolWorst`, `Marking`, `BlockConnect`,
  `ClusterOrder`, `ChunkCache`, `CacheMoves`, `WorstChunk`, `CachedChunk`, `Ancestry`, `LastChunk`, `Eviction`,
  `AncestorRoom`). Chained hash indices against linear scans, swap-with-last and batch removal against a graph seen by txid, acceptance with replacement,
  sibling eviction and trimming against the laws of the pool (acyclic, within the cluster limits, one claimer for an outpoint,
  exact ancestor figures), connecting a block, the children index that processes keep against the rebuilt one, the per-node
  chunk cache against a full rescan, and the chunk it names against every set of transactions that could leave alone.
* **The BIP324 transport** (`Bip324Cipher` to `Bip324Transport`, `Bip324Handover`). The in-place state machine against a pure
  one, independence of how the stream is cut, two honest ends under every interleaving and with any decoys, and a session handed
  to another process.
* **Poly1305** (`Words`, `Poly1305Limbs`, `Poly1305`), **proof-of-work rules** (`PowTargets`, `PowRetarget`, `PowRules`),
  **block filters** (`Bits`, `BitWriter`, `RadixSort`, `ScriptTable`, `BlockFilter`) and **transaction parsing and witness
  stripping** (`TxLayout`, `TxFormat`, `WitnessStrip`, `TxParsers`).

Code that works in place is modelled by classes, arrays and loops, each proved against a function or predicate of the inputs;
the theorems are about those. Integers are unbounded where the source's widths never bite, and the bounds are proved where they
could (`Poly1305Limbs`, `PowRetarget`, `PoolEntry.FiguresHold`).

## What turned out false, and exactly when it holds

* The conflict-marking sweep, the fallback for the walk through the children, makes at most 129 rounds. On any children lists
  it marks what the walk marks exactly when every transaction below has a way down to it that goes to a lower slot at most 128
  times after its first step (`Marking.SweepIsWalk`); a chain laid out backwards fails from 131 transactions on
  (`Marking.SweepFallsShort`). That is what the cluster limit rules out: in every lawful pool the two agree, whatever is marked
  when they start, so also after a reseed (`BlockConnect.LawfulSwept`).
* No target of a checked header chain exceeds the limit exactly when the genesis header's target does not, since that header is
  never checked (`PowRules.WithinLimitExactly`, failing at `PowRules.GenesisOverLimit`), and the next header cannot be evaluated
  at all exactly when the retarget comes to zero (`PowRules.StuckExactly`, failing at `PowRules.TinyTargetStuck`).
* The BIP324 sender accepts a payload of 4,000,000 bytes while the receiver ends the connection on contents, type included, of
  more than that: a queued message survives exactly when its contents fit (`Bip324Session.QueuedOutcome`, failing at
  `Bip324Session.LongestTxEnds`).
* Connecting a block does not always rid the pool of conflicts: of a block transaction with over 2048 inputs none is read. Nobody
  left spends what the block spent exactly when those it would have found leave for another reason
  (`BlockConnect.NoneSpendsSpent`), so always when no transaction is that long (`BlockConnect.ShortBlocksCover`); it fails at
  `BlockConnect.LongTxLeavesRival`.
* The list a newcomer's ancestors are walked into has 2080 places and is filled before the cluster limit is looked at. It holds
  them exactly when there are no more (`PoolWalks.Climb`): always with at most 32 parents in the pool
  (`AncestorRoom.FewParentsFit`) and whenever the newcomer is let in (`AncestorRoom.AdmittedFits`), not for a newcomer on 33 full
  chains (`AncestorRoom.ChainsOverrun`). `PoolAdmit.Admit` and `PoolEntry.Accept` stop there with `Overran`, and say nothing of
  what the code does from there on.
* The fees a replacement is held to are those of everything it evicts exactly when no conflict with a fee spends one listed before
  it (`PoolAccept.PaidOnceExactly`, failing at `PoolAccept.ChildPaidTwice`).
* A session handed to another process is the same session exactly when nothing waits to be sent (`Bip324Handover.HandOver`, failing
  at `Bip324Handover.QueuedIsLost`).

Post-linearization is proved for clusters whose descendant sets transpose their ancestor sets, which the code that draws a
cluster fills in (`Ancestry.FillDescendants`, `LastChunk.Draw`); for any other sets it still never returns 0 for an order that
is not topological.

Where code and comments disagree the model follows the code: the block filter's `bitpos` counts only bits already written out,
accepting is not atomic, since trimming can have evicted before a newcomer is refused (`PoolEntry.Accept` says what such a
refusal leaves), and a cycle among parents would not stop the closure of the ancestor sets, which always settles
(`Ancestry.CloseUp`).

## Model

| member | source | states |
|---|---|---|
| Feerates.FeerateCmp | asm/mempool_cluster.c:10-29 | the sign is that of the difference of the two exact rational feerates; a zero weight ranks below everything but another zero weight |
| MaxFlow.Bfs | asm/mempool_cluster.c:370-381 | the levels are the breadth-first distances over edges with capacity left, and the search succeeds exactly when the sink has one |
| MaxFlow.Dfs | asm/mempool_cluster.c:383-394 | what is pushed is an augmenting path through the level graph, conserving flow at every other node; nothing is pushed only after the node has been exhausted, which keeps the pruning sound |
| FlowTheory.FlowAgainstCut | asm/mempool_cluster.c:413-418 | weak duality and its tight case: a flow is at most any cut, and equals it exactly when no residual edge leaves the cut |
| Closures.Saturate | asm/mempool_cluster.c:413-418 | the augmenting loop ends, leaves a residual of the original network with the returned flow, and the sink unreachable |
| Closures.BuildNetwork | asm/mempool_cluster.c:401-412 | the matrix is the closure network: gains from the source, losses to the sink, and an edge to each ancestor too dear to cut |
| Closures.CutOfClosure | asm/mempool_cluster.c:399-429 | a cut of the network that is an ancestor-closed set costs the total gain minus the set's own weight, so minimum cuts are maximum closures |
| Closures.Reachable | asm/mempool_cluster.c:419-426 | the source side: the smallest set that holds the source and that no residual edge leaves |
| Closures.SideIsBest | asm/mempool_cluster.c:419-428 | the source side of a maximum flow is ancestor-closed, its weight is the total gain minus the flow, no closed subset weighs more, and every one that weighs as much contains it |
| Closures.MaxClosure | asm/mempool_cluster.c:399-429 | for every weighting the result is an ancestor-closed subset of the remaining members of maximum weight, the smallest such one, with its weight |
| Optimal.SetTotals | asm/mempool_cluster.c:87-94 | the totals are the sums of fee and weight over the set |
| Optimal.Nested | asm/mempool_cluster.c:448-460 | closures that are best at a steeper slope lie inside those best at a flatter one |
| Optimal.RoundImproves | asm/mempool_cluster.c:448-460 | every improving round strictly raises the feerate and, from the second on, strictly shrinks the set |
| Optimal.NoGainIsHighest | asm/mempool_cluster.c:448-460 | when no closure gains at its own feerate, a closed set has the highest feerate of all nonempty closed subsets |
| Optimal.HighestClosure | asm/mempool_cluster.c:448-460 | on a well-formed cluster the loop ends with a highest-feerate closed subset after at most |rem| + 1 rounds, so its cap of 256 never decides |
| Linearize.RatesFall | asm/mempool_cluster.c:437-473 | successively emitted sets have non-increasing feerate |
| Linearize.GreedyDominates | asm/mempool_cluster.c:344-366 | at every slope some prefix of the emitted sets gains at least as much as any ancestor-closed set |
| Linearize.SeedSet | asm/mempool_cluster.c:437-447 | refused exactly when a remaining member is not among its own ancestors; otherwise the seed is what remains of a member's ancestors, of the highest feerate there is among those, the lightest of these and the first of these, and on an acyclic cluster it is ancestor-closed |
| Linearize.NextReady | asm/mempool_cluster.c:461-470 | the lowest unplaced member of the set whose ancestors in the set are placed, and none only when there is no such member |
| Linearize.Emit | asm/mempool_cluster.c:461-473 | the set is appended in an order that puts ancestors first; on an acyclic cluster this never fails |
| Linearize.SpelledDominant | asm/mempool_cluster.c:344-366 | an order that spells greedy blocks covering the cluster dominates every closed set at every slope |
| Linearize.LinearizeOptimal | asm/mempool_cluster.c:431-477 | a well-formed cluster always gets 0 and a topological permutation that dominates every ancestor-closed set at every slope; a cluster over 64 members, or with a member that is not its own ancestor, always gets -1 |
| Chunking.IsTopological | asm/mempool_cluster.c:31-47 | true exactly for permutations of the members that place every ancestor first |
| Chunking.SolidMerge | asm/mempool_cluster.c:73-81 | merging a lower-feerate chunk with the higher one after it keeps every proper prefix strictly below the merged feerate |
| Chunking.ChunkLinearization | asm/mempool_cluster.c:49-85 | succeeds exactly on permutations; the chunks are contiguous, cover the order, conserve fee and weight, have non-increasing feerates and every proper prefix of one has a strictly lower feerate |
| Diagrams.PointwiseIsDual | asm/mempool_cluster.c:317-342 | for a concave diagram, lying nowhere below another is the same as matching its best prefix at every slope |
| Diagrams.BreakpointsDecide | asm/mempool_cluster.c:317-342 | a concave diagram is nowhere below another exactly when it is not below it at the other's breakpoints |
| DiagramOrder.FeeWithin | asm/mempool_cluster.c:328-338 | the truncating divisions compute the floor of the exact diagram at the given weight |
| DiagramOrder.DiagramAtLeastAsGood | asm/mempool_cluster.c:317-342 | false on non-permutations; otherwise, with positive weights, true exactly when the first chunk diagram is nowhere below the second, at every real weight |
| DiagramOrder.DiagramIsOrder | asm/mempool_cluster.c:317-342 | the order of two chunk diagrams is decided by the prefix points of the two linearizations alone |
| DiagramOrder.LeastConcaveMajorant | asm/mempool_cluster.c:49-85 | the chunk diagram lies below every concave function that clears the prefix points |
| DiagramOrder.ChunksMajorize | asm/mempool_cluster.c:49-85 | the chunk diagram clears every prefix point of the linearization |
| DiagramOrder.OptimalIsBest | asm/mempool_cluster.c:344-366 | the diagram of a dominant order is nowhere below that of any topological linearization |
| DiagramOrder.OptimalIsUnique | asm/mempool_cluster.c:344-366 | any two dominant orders have the same diagram at every weight |
| TightRuns.RunsUnique | asm/mempool_cluster.c:49-85 | there is one way only to cut an order into runs of never rising feerate no proper prefix of which reaches the run's own: so those runs are its chunks |
| TightRuns.RunsDominant | asm/mempool_cluster.h:137-147 | an order made of such runs, no ancestor-closed part of any of which pays more than the run, dominates every ancestor-closed set at every slope |
| TightRuns.Chain | asm/mempool_cluster.h:137-147 | where every member has one child at most, of any two that descend from a member one descends from the other; likewise upward for one parent |
| Passes.SwapImproves | asm/mempool_cluster.c:262-291 | exchanging two adjacent runs so that the better leads loses no prefix at any slope and keeps ancestors first when no ancestor is crossed |
| Passes.ImprovedDiagram | asm/mempool_cluster.c:305-315 | an order that is no worse at any slope has a chunk diagram nowhere below the original's |
| GroupOrder.GoingMerges | asm/mempool_cluster.c:276-287 | merging a group into one that depends on it keeps the groups in order of feerate and connected, and, with one child or one parent each, keeps every part of the new group from paying more than the group before it |
| LastMember.LiftsAll | asm/mempool_cluster.h:137-147 | a backward pass does as well as moving the last member up to any place its ancestors allow |
| LastMember.ReplacedLeaf | asm/mempool_cluster.h:137-147 | replacing a leaf by one of the same weight that pays no less, put last, leaves an outcome nowhere worse than the order there was before |
| PostLinearize.WriteOut | asm/mempool_cluster.c:295-297 | the groups are written back in order, all of them and nothing else |
| PostLinearize.ReverseInPlace | asm/mempool_cluster.c:298-302 | the swaps in place reverse the order |
| PostLinearize.Settle | asm/mempool_cluster.c:260-293 | one new member moved past and into the groups: they are again in order of feerate, each connected, and the whole order is nowhere worse |
| PostLinearize.OnePass | asm/mempool_cluster.c:247-303 | either pass, run in place, leaves a permutation at least as good at every slope whose chunks are connected; forward it dominates when every member has one child at most, backward when every member has one parent at most; topological order is kept on transposed descendant sets |
| PostLinearize.PostLinearize | asm/mempool_cluster.c:305-315 | a non-topological input is refused untouched; a topological one comes back topological, never worse at any slope, with every chunk connected, dominant when every member has one child at most or every member one parent at most, and as good as with its last member moved anywhere its ancestors allow; the final guard never fires when descendant sets transpose the ancestor sets |
| CompareChunks.NothingBetween | asm/bitcoin_mempool_policy.c:2300-2335 | between breakpoints the walk misses nothing: one diagram rises above the other by a weight exactly when it was above before or is above there |
| CompareChunks.PointAgainst | asm/bitcoin_mempool_policy.c:2304-2335 | the sign computed by cross-multiplied slopes is that of the difference of the two diagrams at the next breakpoint |
| CompareChunks.CompareChunks | asm/bitcoin_mempool_policy.c:2300-2335 | 1, -1, 0 or 2 exactly as the first diagram, extended flat, is somewhere above and nowhere below, the reverse, equal everywhere, or neither |
| CompareChunks.SwapNegates | asm/bitcoin_mempool_policy.c:2300-2335 | exchanging the lists negates 1, -1 and 0 and keeps 2 |
| Replacement.GainsDecide | asm/bitcoin_mempool_policy.c:2336-2415 | one chunk diagram is nowhere below another exactly when its chunks that are worth something are together worth as much at every slope |
| Replacement.RestDropsOut | asm/bitcoin_mempool_policy.c:2336-2415 | the whole pool's diagram after a replacement is nowhere below the one before exactly when that of the touched clusters is |
| Replacement.Improves | asm/bitcoin_mempool_policy.c:2402-2411 | sorting and comparing the touched clusters' chunks answers yes exactly when the whole pool's diagram strictly improves, whatever else is in the pool |
| ChainTable.LinkKeeps | asm/bitcoin_mempool_policy.c:449-452 | linking a slot keeps every live slot on exactly one chain, the one of its bucket |
| ChainTable.UnlinkKeeps | asm/bitcoin_mempool_policy.c:453-461 | so does cutting one slot out of its chain |
| ChainTable.Table.Find | asm/bitcoin_mempool_policy.c:1091-1099 | the guarded walk along one chain answers what a scan of the whole table would |
| ChainTable.Table.Add | asm/bitcoin_mempool_policy.c:3707-3754 | the new entry is last and indexed |
| ChainTable.Table.RemoveAt | asm/bitcoin_mempool_policy.c:1550-1569 | swap-with-last removal keeps the index exact: both entries unlinked before either is overwritten, the moved one linked again |
| ChainTable.Table.Rebuild | asm/bitcoin_mempool_policy.c:1832-1845 | an index built from nothing over the first m entries is exact |
| ParentLists.Store.Read | asm/bitcoin_mempool_policy.c:364-370 | each of up to 63 parents, inline or in an overflow block, reads back as stored |
| ParentLists.Store.Write | asm/bitcoin_mempool_policy.c:371-377 | changes that one place of that one list |
| ParentLists.Store.Insert | asm/bitcoin_mempool_policy.c:501-513 | refused exactly when a block is needed and none is free; otherwise the list is stored whole, and free and used blocks still partition all blocks |
| ParentLists.Store.Remove | asm/bitcoin_mempool_policy.c:1587-1593 | the block goes back to the free list and every other node's list is unchanged, through the move of the last node |
| ParentLists.Store.Compact | asm/bitcoin_mempool_policy.c:1765-1808 | releasing every marked node's block and compacting leaves the survivors' lists as they were, in order |
| ParentLists.Store.Enter | asm/bitcoin_mempool_policy.c:3055-3066 | an entry that checked for a block before its evictions is never refused one after them, and a refusal at the check has evicted nothing |
| ChildIndex.EdgePushed | asm/bitcoin_mempool_policy.c:1218-1223 | a parent edge pushed in front of its list puts the child before the children there were and touches no other list |
| ChildIndex.Keeper.Get | asm/bitcoin_mempool_policy.c:1208-1227 | whatever the index was, afterwards every edge list is the node's children, the highest slot first |
| ChildIndex.Keeper.Insert | asm/bitcoin_mempool_policy.c:1229-1245 | an index that was current is carried to the longer table and equals the rebuilt one, order included; any other is given up |
| ChildIndex.KidsAsWalked | asm/bitcoin_mempool_policy.c:1168-1174 | the lists are those the cluster walks of the chunk cache are defined by |
| ChildIndex.Turns | asm/bitcoin_mempool_policy.c:1147-1245 | over every run of entries, other changes and requests by any number of processes that share the generation counter, no index passes for current that differs from the rebuilt one |
| PoolAncestors.Recompute | asm/bitcoin_mempool_policy.c:1480-1508 | the figures are those of the true ancestor closure: its size and weight plus the node's own, capped, or all ones when it has over 128 members |
| PoolViews.NoOrphans | asm/bitcoin_mempool_policy.c:1509-1515 | when no survivor spends what leaves, no survivor's ancestors change |
| PoolViews.ViewMoved | asm/bitcoin_mempool_policy.c:1521-1612 | any renumbering that carries references along is, by txid, the removal of those left behind |
| NodeRemoval.ClearRefs | asm/bitcoin_mempool_policy.c:1573-1579 | every reference to the departing node is cleared, its children are stale, and no child is missed when none is reported |
| NodeRemoval.RecomputeAll | asm/bitcoin_mempool_policy.c:1509-1515 | after the sweep every node's figures are exact and nothing else has changed |
| NodeRemoval.RemoveOne | asm/bitcoin_mempool_policy.c:1521-1612 | by txid the graph loses exactly that transaction, references stay valid and single, every figure is exact, and the parents, the children and the moved node are stale |
| BatchRemoval.RemoveMany | asm/bitcoin_mempool_policy.c:1698-1852 | by txid the graph loses exactly the marked transactions, survivors keep their order, every figure is exact, and every neighbour of a departed node is stale |
| PoolTables.SpendsMoved | asm/bitcoin_mempool_policy.c:1824-1830 | claims that follow their claimers name the same spends, less those of the departed |
| PoolTables.DropClaimsOf | asm/bitcoin_mempool_policy.c:1550-1559 | exactly the claims of one slot go |
| PoolTables.DropOutsMarked | asm/bitcoin_mempool_policy.c:1785-1797 | exactly the outputs of marked transactions go |
| PoolState.Pool.RemoveNode | asm/bitcoin_mempool_policy.c:1521-1612 | graph, spends and outputs are as before without that one transaction; figures exact, one claim per outpoint, and the chunk caches as true as before |
| PoolState.Pool.RemoveMarked | asm/bitcoin_mempool_policy.c:1698-1852 | graph, spends and outputs are as before without the marked transactions, the same as removing them one after the other |
| PoolState.Pool.RemoveEach | asm/bitcoin_mempool_policy.c:3506-3511 | removing a list one by one removes exactly its members from graph, spends and outputs |
| PoolState.WithoutTwice | asm/bitcoin_mempool_policy.c:1698-1852 | removing in two goes is removing in one |
| PoolState.FiguresAgree | asm/bitcoin_mempool_policy.c:1698-1852 | two tables that hold the same graph, in whatever slots, carry the same figures for every transaction |
| Marking.Marker.WalkFrom | asm/bitcoin_mempool_policy.c:1902-1928 | the children walk, reseeded when the closed set has been opened, raises exactly the root, the raised and everything below them |
| Marking.Marker.SweepFrom | asm/bitcoin_mempool_policy.c:1929-1943 | the sweep raises exactly what 129 rounds of one step down and then any steps to higher slots can reach |
| Marking.Marker.Round | asm/bitcoin_mempool_policy.c:1931-1941 | one pass in slot order raises the children of what was raised and, from those, everything reached by steps to higher slots |
| Marking.SweepIsWalk | asm/bitcoin_mempool_policy.c:1902-1943 | walk and sweep mark the same exactly when everything below has a way down to it that, after its first step, goes to a lower slot at most 128 times |
| Marking.SweepFallsShort | asm/bitcoin_mempool_policy.c:1929-1943 | a chain laid out backwards in the slots is swept out in full exactly up to 130 transactions |
| Marking.SweptOneByOne | asm/bitcoin_mempool_policy.c:1902-1943 | when nothing marked has more than 129 others below it, the sweep marks everything below, however many are marked |
| BlockConnect.LawfulSwept | asm/bitcoin_mempool_policy.c:1902-1943 | in a pool within the cluster limits the sweep marks what the walk marks, whatever is marked |
| Marking.Marker.Confirm | asm/bitcoin_mempool_policy.c:3868-3872 | a confirmation lowers that mark to 1 and asks for a reseed when it was at 2 |
| BlockConnect.BelowIsDown | asm/bitcoin_mempool_policy.c:1902-1943 | what the slots lead down to through the children lists is, by txid, everything that spends them directly or not |
| BlockConnect.MarkBlock | asm/bitcoin_mempool_policy.c:3851-3915 | for every block the marked are exactly the confirmed, those that spend an outpoint of a block transaction of at most 2048 inputs, and all that spends the latter, whatever the order of the block and its reseeds; of a longer transaction no input is read |
| BlockConnect.NoneSpendsSpent | asm/bitcoin_mempool_policy.c:3874-3901 | nothing left in the pool spends an outpoint the block spends exactly when every spender of an outpoint of a transaction with over 2048 inputs leaves for another reason |
| BlockConnect.ShortBlocksCover | asm/bitcoin_mempool_policy.c:3874-3901 | which it does in every block whose transactions have at most 2048 inputs each |
| BlockConnect.LongTxLeavesRival | asm/bitcoin_mempool_policy.c:806-815 | a block of one transaction with 2049 inputs after which a rival of it is still in the pool |
| BlockConnect.LostOnlyConfirmed | asm/bitcoin_mempool_policy.c:3867-3901 | a survivor loses a parent only to confirmation, never to a conflict |
| BlockConnect.Connect | asm/bitcoin_mempool_policy.c:3822-3930 | a connected block leaves exactly the pool without those, lawful tables and true caches, no survivor that spends what the block spent exactly under that condition, and no survivor with a departed parent that was not confirmed |
| ClusterWalk.BuildKids | asm/bitcoin_mempool_policy.c:1116-1140 | a slot lists exactly those that have it for a parent |
| ClusterWalk.Measure | asm/bitcoin_mempool_policy.c:3107-3170 | the walk gives up exactly when the cluster, less the evicted, has over 64 members; otherwise count and weight are exact |
| PoolClusters.RemoveShrinks | asm/bitcoin_mempool_policy.c:3095-3102 | removing transactions only breaks clusters up |
| PoolClusters.LimitedInsert | asm/bitcoin_mempool_policy.c:3171-3173 | if every cluster is within the limits and the newcomer's is, every cluster is afterwards |
| PoolWalks.Descendants | asm/bitcoin_mempool_policy.c:1372-1415 | gives up exactly when the transaction and all that spends it are over 128; otherwise lists them all once, itself first |
| PoolWalks.Climb | asm/bitcoin_mempool_policy.c:3069-3088 | the newcomer's figures are those of everything its parents lead up to; its list of 2080 is overrun exactly when there are more, and its stack of 2064 never where clusters keep to their limit |
| AncestorRoom.FewParentsFit | asm/bitcoin_mempool_policy.c:3069-3088 | in a pool within the limits at most 32 parents never overrun the list |
| AncestorRoom.AdmittedFits | asm/bitcoin_mempool_policy.c:3541-3560 | a newcomer found admissible has under 64 ancestors, so the walks after its evictions stay inside |
| AncestorRoom.ChainsOverrun | asm/bitcoin_mempool_policy.c:3069-3088 | a newcomer on the tips of n chains of 64, in a pool within the limits, overruns the list exactly from n = 33 on |
| PoolWalks.UpStays | asm/bitcoin_mempool_policy.c:3516-3559 | when what leaves takes its spenders along and spares the parents, the ancestors of the parents all stay |
| PoolAccept.CollectParents | asm/bitcoin_mempool_policy.c:1312-1326 | the slots of the distinct in-pool parents, all of them and each once, and truncated exactly when there are over 63 |
| PoolAccept.Conflicts | asm/bitcoin_mempool_policy.c:2872-2881 | the claimers found are exactly the pool's spenders of the newcomer's outpoints, in the order of those outpoints and each once |
| PoolAccept.EvictSet | asm/bitcoin_mempool_policy.c:2903-2923 | what is collected is exactly the conflicts and all that spends them, given up exactly when a conflict has over 128 with it or the list would need over 6400 places; the fees held are theirs plus, again, those of every conflict an earlier one takes along |
| PoolAccept.PaidOnceExactly | asm/bitcoin_mempool_policy.c:2903-2923 | so the fees held are those of the evicted exactly when no conflict with a fee spends, directly or not, one listed before it |
| PoolAccept.ChildPaidTwice | asm/bitcoin_mempool_policy.c:2903-2923 | a conflict and its child, also a conflict, whose fee is held twice when it is listed last and once when it is listed first |
| PoolAdmit.Replaced | asm/bitcoin_mempool_policy.c:2872-2929 | the eviction set is exactly the conflicts and all that spends them, on a list of exactly so many places; it is given up exactly when that is over 6400 or one conflict has over 128, and otherwise refused exactly when the newcomer spends an output of it |
| PoolAdmit.FitsCluster | asm/bitcoin_mempool_policy.c:3103-3173 | passes exactly when the cluster the newcomer would join, after the evictions, is within the count and size limits |
| PoolAdmit.CutIsTooLarge | asm/bitcoin_mempool_policy.c:3040-3054 | more parents than can be recorded always means a cluster over the limit |
| PoolAdmit.Sibling | asm/bitcoin_mempool_policy.c:3278-3332 | a sibling is evicted exactly when it is all that spends the newcomer's one parent, has no other ancestor, and there is a place for it; the eviction set then grows by it alone, stays closed under spending and clear of the parents |
| PoolAdmit.Admit | asm/bitcoin_mempool_policy.c:2714-3173 | the newcomer is let through exactly when its inputs parse, the rules that are parameters pass, it is not there, what it replaces is neither too much nor spent by it, it has at most 63 parents and no more ancestors than the list holds, its cluster keeps to the limits once those have left, its sibling can be sent away where that is called for, and the tables have room; each of the other answers has its exact condition too, and who leaves is exactly what the conflicts take along and that sibling |
| PoolEntry.PackageOf | asm/bitcoin_mempool_policy.c:1944-1963 | a package is the transaction and all that spends it, or the transaction alone when those are over 128 |
| PoolEntry.PackageCloses | asm/bitcoin_mempool_policy.c:1944-1963 | in a pool within the limits a package is always whole, so nobody is left spending what left |
| PoolEntry.RemovePackage | asm/bitcoin_mempool_policy.c:1944-1963 | exactly the package leaves |
| PoolEntry.RemoveChunk | asm/bitcoin_mempool_policy.c:3602-3609 | a chunk that nothing else spends leaves whole and alone |
| PoolEntry.TrimOnce | asm/bitcoin_mempool_policy.c:3591-3611 | what leaves is a least paying set of the pool at that moment, and pays less for its weight than the newcomer; nothing leaves only when the newcomer does not pay more than such a set, or nothing is left |
| PoolEntry.Trim | asm/bitcoin_mempool_policy.c:3591-3643 | so does every step, as often as the store is full; the newcomer goes on exactly when every one of them went through and every parent of it stays, and it stops early only where it is outbid or loses a parent |
| PoolEntry.TrimOrOutbid | asm/bitcoin_mempool_policy.c:3591-3611 | a pool that can be trimmed for a newcomer is one in which the newcomer is not outbid: never both |
| PoolEntry.PaysEnough | asm/bitcoin_mempool_policy.c:3436-3502 | before anyone is evicted, whether the newcomer pays more for its weight than the worst chunk the evicted have no part in |
| PoolEntry.FiguresHold | asm/bitcoin_mempool_policy.c:3086-3088 | the ancestor figures found before the evictions are exact afterwards, and no 32-bit truncation bites |
| PoolCommit.Commit | asm/bitcoin_mempool_policy.c:3669-3754 | outputs, claims and node enter together: one more transaction, no outpoint with two claimers, every old figure still exact |
| PoolEntry.EnteredClaims | asm/bitcoin_mempool_policy.c:3669-3754 | whoever later spends an outpoint of an entered transaction has it for a rival, on top of those there were, and each of its outputs is listed with its value |
| PoolEntry.EntryUndone | asm/bitcoin_mempool_policy.c:3669-3754 | removing a transaction that has just entered leaves graph, spends and outputs as they were |
| PoolInsert.FiguresStayWith | asm/bitcoin_mempool_policy.c:3707-3754 | a newcomer changes nobody else's ancestors |
| PoolEntry.Accept | asm/bitcoin_mempool_policy.c:2705-3760 | the newcomer is let in exactly when it may enter the graph, there is room, it pays more than the worst chunk where that is asked, every trim the store asks for goes through and spares its parents, and the store then takes it; the evicted are exactly what its conflicts take along and, where called for, its lone sibling. Whatever the answer, the graph stays acyclic and every cluster within the limits, figures stay exact, outpoints singly claimed and caches true; only 'mempool full' after trimming leaves a refusal's mark, and beyond the replaced only least paying sets leave |
| PoolLaws.ChangeKeeps | asm/bitcoin_mempool_policy.c:2766-3760 | an allowed change keeps the graph acyclic, the clusters within the limits and every outpoint with one spender |
| PoolLaws.RunsKeep | asm/bitcoin_mempool_policy.c:2766-3760 | so does every run of allowed changes: entries with replacement, sibling eviction or trimming, and removals of any set |
| PoolLaws.ClaimsSpendOnce | asm/bitcoin_mempool_policy.c:1338-1346 | a claim table without repeated keys gives every outpoint at most one spender |
| ClusterOrder.MembersAre | asm/bitcoin_mempool_policy.c:2084-2108 | the walk lists exactly the cluster, each member once |
| ClusterOrder.MembersRename | asm/bitcoin_mempool_policy.c:2084-2108 | a cluster renumbered without changing the order of its slots is listed in the same order |
| CacheMoves.OneKeeps | asm/bitcoin_mempool_policy.c:1532-1598 | after one removal every cluster without a stale member still keeps what a fresh walk would find |
| CacheMoves.ManyKeep | asm/bitcoin_mempool_policy.c:1698-1852 | so it does after a batch removal, though the survivors have moved |
| CacheMoves.NewcomerKeeps | asm/bitcoin_mempool_policy.c:3720-3754 | so it does after an entry, the newcomer being stale itself |
| CachedChunk.RenewalKeeps | asm/bitcoin_mempool_policy.c:2568-2592 | a renewed cluster keeps the truth under an id no other cluster has |
| CachedChunk.Renew | asm/bitcoin_mempool_policy.c:2568-2592 | every member of the cluster, and nobody else, is given what a walk from the lowest slot finds |
| PoolWorst.RunsKeepCache | asm/bitcoin_mempool_policy.c:2538-2592 | in every table reached from an empty one by entries, single removals, batch removals and renewals, each cluster without a stale member keeps the truth |
| WorstChunk.Gather | asm/bitcoin_mempool_policy.c:2084-2108 | in a cluster of at most 64 the walk's stack and list never meet their bounds |
| WorstChunk.BestCovers | asm/bitcoin_mempool_policy.c:2500-2530 | no cluster that counts has a lower feerate than the one chosen |
| WorstChunk.AnswerSpares | asm/bitcoin_mempool_policy.c:2430-2533 | nothing excluded is in the chunk answered |
| WorstChunk.ScanWorst | asm/bitcoin_mempool_policy.c:2430-2533 | the full scan answers the first strictly worst last chunk, by lowest slot, that holds nothing excluded |
| CachedChunk.SkipExcludes | asm/bitcoin_mempool_policy.c:2603-2615 | skipping by cache id is skipping exactly the clusters whose last chunk holds an excluded transaction |
| CachedChunk.CachedWorst | asm/bitcoin_mempool_policy.c:2593-2633 | the answer from the caches, for any exclusions, is the full scan's answer, and the caches end up all true |
| PoolWorst.LawfulScorable | asm/bitcoin_mempool_policy.c:2070-2075 | in a pool within the limits no cluster is wider than the walk's tables |
| PoolWorst.WorstOf | asm/bitcoin_mempool_policy.c:2593-2633 | asked of a pool within the limits, the cached answer is the full scan's and nothing the pool holds changes |
| Ancestry.CloseUp | asm/bitcoin_mempool_policy.c:2146-2156 | the passes over the parent sets end within the bound on every graph, cyclic or not, with each set exactly the ancestors |
| Ancestry.FillDescendants | asm/bitcoin_mempool_policy.c:2157-2159 | the descendant sets are the transpose of the ancestor sets |
| LastChunk.Draw | asm/bitcoin_mempool_policy.c:2130-2159 | the cluster handed on has each member's fee and size, all its ancestors and the transposed descendants |
| LastChunk.AllGainMost | asm/bitcoin_mempool_policy.c:2161-2165 | at the feerate of the last chunk of an improved optimal order no ancestor-closed set gains more than the whole cluster |
| LastChunk.LastChunkOf | asm/bitcoin_mempool_policy.c:2126-2174 | an acyclic cluster of 1 to 64 members that all weigh something always has a last chunk; nothing outside it spends its members, its figures are its members', and no set that can leave alone pays less for its weight |
| Eviction.OwnIsSensible | asm/bitcoin_mempool_policy.c:2126-2174 | the node's own linearizer meets what the chunk cache asks of a linearizer |
| Eviction.WorstIsLeastPaying | asm/bitcoin_mempool_policy.c:2430-2533 | the worst chunk of a table pays, for its weight, no more than any set of transactions, of any clusters, that nothing outside it spends |
| Eviction.PickWorst | asm/bitcoin_mempool_policy.c:2593-2636 | so the cached answer, asked of any nonempty pool within the limits, is a least paying set that can leave alone |
| Eviction.LeastByTxid | asm/bitcoin_mempool_policy.c:2593-2636 | by txid: the chunk is closed under spending, its figures are its members', and no closed set of the graph pays less for its weight |
| Bip324Cipher.KeystreamJoin | asm/crypto_bip324_fs.c:48-59 | keystream taken in two pieces is keystream taken at once |
| Bip324Cipher.FsChaCha20.Draw | asm/crypto_bip324_fs.c:48-59 | the cached block and position deliver the keystream bytes that follow those already used |
| Bip324Cipher.FsChaCha20.Crypt | asm/crypto_bip324_fs.c:61-84 | each chunk is xored with the next keystream bytes, and the rekey replaces key, nonce counter and position exactly at the interval |
| Bip324Cipher.FsAead.Next | asm/crypto_bip324_fs.c:92-111 | after n packets the counters are n modulo 224 and n divided by 224, and the key is the one so many rekeys lead to |
| Bip324Cipher.NoncesNeverRepeat | asm/crypto_bip324_fs.c:28-33 | no two packets of a run, through every rekey until the counters are spent, have the same nonce bytes |
| Bip324Cipher.RekeyNonceApart | asm/crypto_bip324_fs.c:92-111 | no packet has the nonce bytes of any rekey draw |
| Bip324Cipher.OpenExactly | asm/crypto_bip324_fs.c:122-131 | for any block function and any tag function, a packet opens to a plaintext exactly when it is that plaintext sealed |
| Bip324Cipher.OpenSeal | asm/crypto_bip324_fs.c:113-131 | what was sealed opens to what it was |
| Bip324Cipher.SealBytes | asm/crypto_bip324_fs.c:113-120 | byte by byte: the text under the keystream from block 1 on, then sixteen bytes of tag over associated data, text and both lengths, under the first half of block 0 |
| Bip324Cipher.PacketNumber | asm/crypto_bip324_fs.c:61-111 | after n packets the length cipher has used 3 (n mod 224) bytes under the key of its n / 224th rekey, drawn from the 32 bytes after the first 672, and the packet cipher stands at packet n mod 224 under the key drawn from block 1 of the nonce with packet number 0xffffffff |
| Bip324Cipher.InitInStep | asm/crypto_bip324.c:39-86 | opposite roles on the same magic start in step: each side's sending half is the other's receiving half, terminators and session id included |
| Bip324Cipher.InitByRole | asm/crypto_bip324.c:54-86 | the initiator sends under the keys expanded with initiator_L and initiator_P and receives under responder_L and responder_P, the responder the other way round; the initiator sends the first sixteen terminator bytes and expects the last |
| Bip324Cipher.SelfDecryptSwaps | asm/crypto_bip324.c:54-86 | with self-decryption an end receives with the ciphers it otherwise sends with, and the terminators stay |
| Bip324Cipher.PacketBytes | asm/crypto_bip324.c:88-108 | three bytes of little-endian length under the length keystream, then the header byte, 0x80 for a decoy and 0 otherwise, and the contents, sealed |
| Bip324Cipher.PacketRoundTrip | asm/crypto_bip324.c:88-148 | a packet is read back as it was written and moves the receiving half exactly as it moved the sending one, across any rekey |
| Bip324Messages.FrameRoundTrip | asm/crypto_bip324_transport.c:272-300 | a framed message parses to itself exactly when its type is printable and at most twelve bytes |
| Bip324Messages.ParsesExactly | asm/crypto_bip324_transport.c:272-313 | contents parse to a message exactly when they are an assigned id and the payload, or a zero, a printable type zero-padded to twelve bytes and the payload |
| Bip324Messages.ShortIds | asm/crypto_bip324_transport.c:70-86 | ids 1 to 28 and no others have names |
| Bip324Receiver.BreaksExactly | asm/crypto_bip324_transport.c:160-246 | a receiver reports a violation exactly on a key that agrees on no secret, on 4111 bytes with no terminator begun in the first 4095, on an announced length over 4,000,000, and on a packet that does not open |
| Bip324Receiver.PumpJoins | asm/crypto_bip324_transport.c:160-313 | running on what arrived and then on what arrives next is running on all of it |
| Bip324Receiver.CutsDoNotMatter | asm/crypto_bip324_transport.c:160-331 | messages, handshake events, v1 or v2 decision, acceptance and final state do not depend on how a stream is cut into feeds |
| Bip324Session.ReceiveJoins | asm/crypto_bip324_transport.c:160-331 | two deliveries to an end are one delivery of both, in everything while the session stands and in all but unread bytes once it is broken |
| Bip324Session.CutsMakeNoDifference | asm/crypto_bip324_transport.c:160-331 | an end at rest collects, queues and breaks alike however the stream is cut |
| Bip324Receiver.V1Header | asm/crypto_bip324_transport.c:95-99 | that header is the magic, the seven letters of version and five zeros |
| Bip324Receiver.V1Fallback | asm/crypto_bip324_transport.c:164-180 | a responder falls back to v1 exactly when the stream opens with the v1 header, and then holds every byte received |
| Bip324Session.SilentToV1 | asm/crypto_bip324_transport.c:107-124 | a responder queues nothing and hands out nothing while what it has heard is a prefix of the v1 header or opens with it, and holds every byte of it |
| Bip324Session.DecoysWait | asm/crypto_bip324_transport.c:239-266 | any number of authentic decoys leave a receiver that waits for the version packet waiting, with nothing handed out and only the garbage spent, by the first |
| Bip324Session.DecoyDropped | asm/crypto_bip324_transport.c:267-270 | a decoy is nothing to a receiver past the handshake but a step of its cipher |
| Bip324Session.OnlyTheRealOneOpens | asm/crypto_bip324_transport.c:239-266 | the application state is entered only on a packet that is authentic over the garbage and that the top bit of its header does not mark as a decoy |
| Bip324Session.RunsKeep | asm/crypto_bip324_transport.c:148-375 | every interleaving of sends, decoys and partial deliveries keeps the two ends in step |
| Bip324Session.HonestExchange | asm/crypto_bip324_transport.c:148-375 | two honest ends, whatever decoys they send before or after their version packets, never see a violation, what each has received is a prefix of what the other sent, and when nothing is in flight both are in the application state and everything has arrived |
| Bip324Session.SendsExactly | asm/crypto_bip324_transport.c:348-375 | a message is queued exactly after the keys are known, with at most 4,000,000 bytes of payload and at most twelve of type |
| Bip324Session.QueuedOutcome | asm/crypto_bip324_transport.c:348-375 | a queued message ends the connection exactly when its contents exceed 4,000,000 bytes, and is delivered as itself exactly when it fits and its type can be read |
| Bip324Session.LongestTxEnds | asm/crypto_bip324_transport.c:348-375 | a tx with 4,000,000 bytes of payload is queued by every keyed end and ends the session of its receiver |
| Bip324Transport.Transport.Setup | asm/crypto_bip324_transport.c:107-124 | refused exactly when the garbage is over 4095 bytes; otherwise the initial end |
| Bip324Transport.Transport.Advance | asm/crypto_bip324_transport.c:160-313 | the in-place machine is the specification's machine, violation for violation |
| Bip324Transport.Transport.Feed | asm/crypto_bip324_transport.c:315-319 | feeding appends and advances |
| Bip324Transport.Transport.NextMessage | asm/crypto_bip324_transport.c:321-331 | hands out the completed message and nothing else |
| Bip324Transport.Transport.FeedAndDrain | asm/daemon/v2transport.c:424-441 | the caller's loop delivers every completed message, in order |
| Bip324Handover.HandOver | asm/crypto_bip324_transport.c:377-425 | a session past its handshake, exported and imported, is the same session but for the bytes waiting to be sent, the same exactly when there are none, and makes of everything that arrives what the old one would have |
| Bip324Handover.Import | asm/crypto_bip324_transport.c:406-425 | refused exactly when the lengths do not add up or it is not past the handshake; otherwise both buffers are cut apart where they were joined |
| Bip324Handover.QueuedIsLost | asm/crypto_bip324_transport.c:389-405 | a message queued before a handover is lost with it |
| Bip324Transport.Transport.SendMessage | asm/crypto_bip324_transport.c:348-375 | queues exactly the packet of the message, or refuses before the keys, over the payload limit or over twelve type bytes |
| Bip324Transport.SettleByMessages | asm/crypto_bip324_transport.c:315-331 | taking messages one at a time and advancing in between is running to the end |
| Poly1305Limbs.ReadMultiplier | asm/crypto_poly1305.c:32-39 | the five masked shifts read the clamped multiplier of RFC 8439 section 2.5 |
| Poly1305Limbs.Load | asm/crypto_poly1305.c:53-59 | a block is added in limbs with its high bit, every limb in 32 bits |
| Poly1305Limbs.ProductsValue | asm/crypto_poly1305.c:60-65 | the five products are the product of the two numbers modulo 2^130 - 5 |
| Poly1305Limbs.ProductsRange | asm/crypto_poly1305.c:60-65 | every 64-bit accumulator stays below 2^64 |
| Poly1305Limbs.Carry | asm/crypto_poly1305.c:66-74 | the carry chain changes the number by a multiple of 2^130 - 5 and leaves limbs within bounds |
| Poly1305Limbs.Canonical | asm/crypto_poly1305.c:113-123 | the branchless final reduction picks the residue below 2^130 - 5 |
| Poly1305Limbs.Settle | asm/crypto_poly1305.c:105-112 | the second carry changes the number by a multiple of 2^130 - 5 and brings it below 2^130 |
| Poly1305Limbs.Pack | asm/crypto_poly1305.c:124-128 | the limbs repacked in four words are the number modulo 2^128 |
| Poly1305Limbs.AddPad | asm/crypto_poly1305.c:129-133 | the four words carry the sum modulo 2^128 |
| Poly1305.Authenticator.Update | asm/crypto_poly1305.c:80-96 | any piece is absorbed: the state stands for the message so far |
| Poly1305.Authenticator.Finish | asm/crypto_poly1305.c:98-136 | the tag is ((polynomial in r mod 2^130 - 5) + s) mod 2^128 of the whole message |
| Poly1305.Authenticate | asm/crypto_poly1305.c:138-144 | for every key and every way of splitting the message the tag is that of the whole |
| Poly1305Limbs.ClampWords | asm/crypto_poly1305.c:32-39 | the clamp keeps the low 28 bits of the first of the key's four words, and bits 2 to 27 of each of the others |
| Bytes.AeadInputInjective | asm/crypto_poly1305.c:158-187 | the padded input with its two lengths determines associated data and ciphertext |
| Poly1305.AeadTag | asm/crypto_poly1305.c:169-190 | the AEAD tag is the authenticator of that padded input |
| PowTargets.TargetBytes | asm/bitcoin_pow_rules.c:28-43 | the 32 bytes are the target the compact form stands for, truncated or zero as it says |
| PowTargets.TargetIs | asm/bitcoin_pow_rules.c:28-43 | the low 23 bits shifted by the top byte less three whole bytes, and zero when that byte is over 32 |
| PowTargets.CompactBytes | asm/bitcoin_pow_rules.c:51-60 | the compact form of the number the bytes stand for |
| PowTargets.CompactNormal | asm/bitcoin_pow_rules.c:51-60 | the mantissa fills at least the upper two of its three bytes and never the sign bit |
| PowTargets.CompactDecodes | asm/bitcoin_pow_rules.c:51-60 | decoding a compacted target only clears low bytes, or everything when the exponent passes 32 |
| PowRetarget.RetargetDecodes | asm/bitcoin_pow_rules.c:62-88 | for every base, timespan and limit the compact form of the new target decodes to it with low bytes cleared, never to nothing for its size |
| PowTargets.CompactNeverRaises | asm/bitcoin_pow_rules.c:51-60 | decoding a compacted target never exceeds it |
| PowRetarget.Multiply | asm/bitcoin_pow_rules.c:71-75 | the byte loop multiplies, with no carry lost |
| PowRetarget.Divide | asm/bitcoin_pow_rules.c:76-81 | the byte loop is the floor of the division by 1209600 |
| PowRetarget.ProductFits | asm/bitcoin_pow_rules.c:62-75 | the product of any target and clamped timespan fits the 40 bytes |
| PowRetarget.RetargetBits | asm/bitcoin_pow_rules.c:62-88 | the compact form of min(limit, floor(target * clamp(timespan) / 1209600)) |
| PowRules.WalkBackFinds | asm/bitcoin_pow_rules.c:104-116 | the walk back finds the last header of the period that is not at the limit, or the period's first |
| PowRules.ExpectedBits | asm/bitcoin_pow_rules.c:90-127 | the code computes the bits the rules require at that height, on every reader, missing headers included |
| PowRules.CheckBits | asm/bitcoin_pow_rules.c:129-140 | 1, 0 or -1 exactly as the header has the required bits, has others, or the requirement cannot be evaluated; genesis always passes |
| PowRules.HeaderLaw | asm/bitcoin_pow_rules.c:90-140 | a header passes exactly when its bits are: every 2016 blocks the encoding of min(limit, target * timespan / 1209600), the timespan that of the 2015 gaps before and held to 302400 to 4838400 seconds; otherwise the previous header's, or where minimum difficulty is allowed the limit after more than 1200 seconds, else those of the period's latest header not at the limit |
| PowRules.PeriodConstant | asm/bitcoin_pow_rules.c:90-140 | on a checked chain with the exceptions off, bits are constant in each 2016-block period |
| PowRules.PeriodOrLimit | asm/bitcoin_pow_rules.c:90-140 | with the 20-minute exception on, each header has its period's bits or the limit's |
| PowRules.TargetsBounded | asm/bitcoin_pow_rules.c:62-140 | from height 2016 on no target exceeds the limit, nor four times the previous period's |
| PowRules.WithinLimitExactly | asm/bitcoin_pow_rules.c:129-140 | every target of a checked chain is within the limit exactly when the unchecked genesis header's is |
| PowRules.GenesisOverLimit | asm/bitcoin_pow_rules.c:129-140 | a one-header chain that passes with a target over the limit |
| PowRules.Bip94ChangesNothing | asm/bitcoin_pow_rules.c:122-126 | with the exceptions off a chain passes with the BIP94 flag exactly when it passes without |
| PowRules.StuckExactly | asm/bitcoin_pow_rules.c:62-140 | the next header can not be evaluated exactly when the retarget would come to zero, or the genesis bits are zero |
| PowRules.TinyTargetStuck | asm/bitcoin_pow_rules.c:62-140 | a passing chain of 2016 headers that no header can follow |
| BitWriter.Writer.Put | asm/block_filter.c:95-99 | appends exactly the n low bits, most significant first |
| BitWriter.Writer.Ones | asm/block_filter.c:100-103 | appends exactly q one bits |
| BitWriter.Writer.Finish | asm/block_filter.c:104-111 | overflow exactly when the bits do not fit; otherwise the bytes are the bits packed one by one, zero-padded |
| Bits.UnpackPack | asm/block_filter.c:75-111 | packed bits unpack to themselves and fewer than eight zeros |
| RadixSort.Pass | asm/block_filter.c:142-155 | a pass is the stable grouping by one byte; it is skipped only when all fall in one group |
| RadixSort.Sort | asm/block_filter.c:142-155 | in place, a sorted permutation of the 64-bit values |
| ScriptTable.SearchMisses | asm/block_filter.c:290-306 | a probe that meets an empty place has seen every equal script there could be |
| ScriptTable.Deduplicate | asm/block_filter.c:277-306 | the distinct scripts in order of first occurrence, colliding hashes kept apart, with their hashes |
| BlockFilter.DecodeEncode | asm/block_filter.c:322-335 | Golomb-Rice decoding gives back the values |
| BlockFilter.ParseSerialize | asm/block_filter.c:311-335 | a BIP158 decoder reads back exactly the sorted mapped values |
| BlockFilter.OnlyTheSetMatters | asm/block_filter.h:8-11 | two lists with the same scripts, in whatever order and number, give the same values, one for each distinct script |
| BlockFilter.CodeBits | asm/block_filter.c:322-335 | a difference is coded as one 1 for each whole 2^19, a 0, and the remainder in nineteen bits |
| BlockFilter.ValuesScale | asm/block_filter.c:307-308 | with N distinct scripts and 784931 N below 2^64 the values belong one to one to the scripts, and v 2^64 <= hash * 784931 N < (v + 1) 2^64 for each |
| BlockFilter.MapMonotone | asm/block_filter.c:70-73 | a higher hash never has a lower value |
| BlockFilter.MapAndSort | asm/block_filter.c:307-310 | the mapped hashes, sorted, none lost |
| BlockFilter.WriteFilter | asm/block_filter.c:311-337 | with room the bytes are the serialization of the values; without, -1 |
| BlockFilter.Build | asm/block_filter.c:277-337 | with room the bytes are the serialization of the sorted values of the distinct scripts, each the script's hash scaled from 2^64 down to 784931 N; without, -1 |
| TxLayout.ReadCsCanonical | asm/bitcoin_segwit.c:72-92 | a compact size that is accepted is the one its value is written as |
| TxFormat.WrittenIsRead | asm/bitcoin_segwit.c:189-261 | a serialized transaction, written out part by part, is accepted with every part in its place, whatever follows it |
| TxFormat.ReadIsWritten | asm/bitcoin_segwit.c:189-261 | and nothing else is accepted: what is, is a transaction so written and perhaps bytes after it, with a witness only for the reader that knows of them |
| TxFormat.StripUnwrites | asm/bitcoin_segwit.c:302-381 | stripping a written transaction leaves it written without its witness |
| TxFormat.ViewIsWritten | asm/bitcoin_segwit.c:265-274 | version, outpoints, sequences and locktime are read as they were written |
| TxLayout.RecordsMove | asm/bitcoin_segwit.c:189-261 | a run of inputs or outputs is walked alike wherever its bytes stand |
| WitnessStrip.StripKeepsShape | asm/bitcoin_segwit.c:302-381 | what strip leaves has the same inputs and outputs, and no witness |
| WitnessStrip.StripKeepsView | asm/bitcoin_segwit.c:265-274 | version, outpoints, sequences and locktime read the same before and after stripping |
| WitnessStrip.StripKeepsOutputs | asm/bitcoin_segwit.c:291-295 | every slice of the outputs reads the same before and after stripping |
| WitnessStrip.StripTwice | asm/bitcoin_segwit.c:302-381 | stripping again changes nothing |
| WitnessStrip.OutputsCanonical | asm/bitcoin_segwit.c:276-295 | an in-place output slice is the canonical re-serialization of those outputs |
| TxParsers.ParseSegwit | asm/bitcoin_segwit.c:189-261 | accepts exactly the transactions of the layout that fit the offset table, and records every offset |
| TxParsers.ParseStripped | asm/bitcoin_taproot_sighash.c:220-269 | accepts exactly those of the layout without a witness, and records every offset |
| TxParsers.StrippedAccepted | asm/bitcoin_taproot_sighash.c:220-269 | what strip leaves of an accepted transaction is accepted, with the same counts |
| TxParsers.StripWitness | asm/bitcoin_segwit.c:302-381 | writes exactly the stripped bytes when they fit, and answers 0 on anything malformed or too long |

## Left out

- mpc_linearize_ancestor_score and mpc_build_cluster: the older heuristic order and the collection of a cluster through callbacks.
- desc_cnt, desc_bytes and desc_fee: they are not exact after removals of several nodes, and nothing proved here reads them.
- PoolAdmit.Admit: the verdicts of the standardness, fee, TRUC and finality rules are parameters, for all values of them, the refusal for want of an overflow block is not in it (`ParentLists.Store.Enter` proves that refusal apart from the pool), and nothing is said of what the code does once its list of ancestors is overrun.
- PoolEntry.Accept: likewise; how often the byte store is full and whether it takes the bytes in the end are parameters, for all values of them, and no input is spent twice by the newcomer itself, which is checked before.
- WorstChunk.Gather: gives up on no cluster, since no pool within the limits has one wider than 64 (`PoolWorst.LawfulScorable`); the per-leaf fallback for wider ones is not modelled.
- WorstChunk.ScanWorst: for any linearizer that names places and weighs what it names; `Eviction` is about the node's own, and the fallback for wide clusters is not modelled.
- Fee floors, relay and replacement fee rules, finality, dust, standardness, TRUC topology wording and the limit of 100 conflicting clusters: in `PoolEntry.Accept` their verdicts are the parameters `standard`, `fees` and `swap`.
- The byte store and its compaction: in `PoolEntry.Accept` the parameters `tight`, `fulls` and `stored`, for all values of them.
- The clusters a replacement touches and their chunks: `Replacement.Improves` is handed both chunk lists, and the union-find that gathers them is not modelled.
- Block parsing: `BlockConnect` is handed the transactions after the coinbase up to the first that cannot be read, where the code stops.
- The cache id's wrap at 2^32 and the visit stamp's: ids and marks are unbounded here.
- Overflow blocks inside the pool's own tables: `ParentLists` proves that lists read back as stored through entries and evictions, and `PoolState` keeps each list with its node.
- Growth of the children index's arrays and its failure: `ChildIndex` grows without bound.
- FNV, SipHash, SHA-256, ChaCha20, HKDF and ElligatorSwift are parameters, with only the laws used.
- Bip324Session.HonestExchange: assumes, as the protocol does, that the garbage holds no early terminator and that the initiator's key does not open with the v1 header, and covers types of at most twelve printable bytes and contents of at most 4,000,000 bytes.
- PowRules.TargetsBounded: from height 2016 on; below it a chain has its genesis target (`PowRules.PeriodConstant`).
- The byte layout of an exported session, the session memo of the signature hashes, constant-time tag comparison and secure wiping.
- 64-bit wrap of fee and weight sums, 128-bit products, allocation failure, null pointers and process sharing of the mapped region.
- Callbacks, the sequence hook's order, reject strings, statistics and the fee estimator.
- RPC snapshots, descriptors, script interpretation, signatures and key derivation.
