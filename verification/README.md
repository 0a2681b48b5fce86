# Verified models of a Tessera node

This project models the parts of the node whose correctness is hard to see from any one function, and proves what they
promise. The code keeps its form: objects that the node updates in place are classes with `modifies` clauses, arrays
stay arrays, loops stay loops, and each method is proved against a specification that is itself characterized by
lemmas. Concurrent code is a state machine over the steps of its threads, and its theorems hold for every schedule.

What is modelled, in the order of the files:

- **Cluster linearization** (`FeeFrac`, `Cluster`, `Forest*`, `ChunkSplits`, `Diagram`, `Merging`, `Improving`,
  `Strictly`, `Optimality`, `Linearizations`, `Pending*`, `Minimiz*`, `Emission*`, `SpanningForest`, `Linearize*`,
  `Ancestry`, `DepGraph`, `ChunkLists`, `ChunkArea`, `CompareChunks`, `DiagramLists`). The spanning-forest algorithm on
  the node's own representation. A diagram is compared by what it pays above every threshold feerate, which is proved to
  be the comparison of the diagrams point by point that the node makes. The central results: every operation keeps the
  representation invariant; improving keeps the state topological and makes the diagram strictly better or leaves it
  alone; when nothing is left to improve, no linearization is better; when nothing is left to minimize, no chunk can be
  split, and the chunks put out are those of the resulting linearization. What each step does to the forest and the
  queues, and what the whole run costs by the node's cost model, is exact.
- **Chunking and post-linearization** (`Chunking`, `Post*`). The list-splicing algorithm on linked entries refines an
  insertion into a list of groups, whose two passes are proved never worse, connected, and optimal for trees.
- **Coin caches** (`Coins`, `CoinLevels`, `CoinsCache`, `CoinsRun`). A stack of caches of any depth over a database,
  with dirty and fresh flags, the doubly linked list of flagged entries, counters, flushing and syncing, refines a stack
  of plain maps and block hashes, level by level.
- **Prefetching overlay** and **check queue** (`CoinsOverlay`, `OverlayRun`, `CheckQueue`, `CheckRuns`), for every
  interleaving of their threads; the overlay is put on a stack of caches and refines the same plain maps.
- **Address manager** (`AddrBook`, `AddrMoves`, `AddrMan`, `AddrLaws`, `AddrRun`). Every public operation keeps the whole
  self-check invariant, in every state of every run recorded collisions are real, and a tried entry that connects is not
  evicted.
- **Headers sync** (`HeaderSteps`, `HeaderRuns`, `HeaderTheorems`, `HeaderOutcomes`, `HeaderDifficulty`, `HonestPeer`,
  `HeadersSync`). The two-phase download, for every sequence of messages.
- **Block index and chain** (`BlockChain`), **256-bit arithmetic and compact targets** (`BinaryPowers`, `Limbs`,
  `Arith*`, `Compact`), **cuckoo cache** (`CuckooCache`, `CuckooRun`) and **Bech32** (`Bech32*`), where the field
  GF(1024) is built up to prove what the checksum detects.

## Conventions

Hashes, keys, random draws, clocks and network groups are arbitrary functions or arbitrary values, so every result holds
for all of them. A coin's script is reduced to its memory use and whether it is unspendable. Sets of transactions stand
for bit sets, and fees and sizes are unbounded integers with positive sizes. Iteration orders that the code leaves to a
random generator or to a hash table are arbitrary. A draw below a bound is an arbitrary number modulo that bound. Where
the sign of a character matters, characters are signed. Elements of GF(1024) are polynomials over GF(2) in the generator
of the field, modulo its minimal polynomial, rather than pairs over GF(32), which is embedded in it.

Some results depend on what the code, rather than a comment, does:

- Cuckoo cache: the search for a victim starts at the second location of the new element, not the first as its comment
  says; the model follows the code.
- Coin caches: spending an outpoint that the cache already knows to be spent reports success, with no visible effect.
  Flushing passes an unset block hash down like any other, so the best block can change; `FlushKeepsBest` gives the
  exact condition and `FlushLosesBest` an example. Adding a coin without overwriting is checked against the cache only;
  that there is none below is the caller's obligation, as in the code.
- Address manager: the last branch of collision resolution (the slot is free after all) is modelled but never taken,
  because an occupied tried slot never becomes empty.
- Headers sync: while nothing is buffered, a redownloaded header's difficulty is compared with that of the start of the
  chain instead of its predecessor's. Without a look-ahead buffer that is so at the beginning of every message, with two
  effects: a difficulty that does not follow can be accepted, and one that does can be refused. `DifficultyExact` and
  `HonestPeerSucceeds` say exactly when; `ZeroBufferMissesRule` and `ZeroBufferRefusesHonest` are examples. Work totals
  wrap at 256 bits.

## Model

| member | source | states |
|---|---|---|
| `FeeFracs.CompareIsRate` | src/cluster_linearize.h:428-443 | comparing cross-products is comparing fee per size |
| `FeeFracs.Mediant` | src/cluster_linearize.h:1003-1048 | the feerate of a union lies between those of its two parts, strictly if they differ |
| `Forests.ActivatedValid` | src/cluster_linearize.h:817-886 | activating a dependency between two chunks gives a forest again: one connected chunk, every active dependency a bridge whose top set is the component of its parent |
| `Forests.DeactivatedValid` | src/cluster_linearize.h:890-945 | deactivating an active dependency splits its chunk into exactly the two components, and every other top set stays exact |
| `ForestShape.SearchFinds` | src/cluster_linearize.h:1633-1779 | a graph search along active dependencies finds exactly the connected part it starts in |
| `ForestShape.SearchAgrees` | src/cluster_linearize.h:1633-1779 | in every valid forest, chunks and top sets are what the search-based self-check computes |
| `ForestShape.ChunkIsTree` | src/cluster_linearize.h:1633-1779 | a chunk of N transactions has exactly N - 1 active dependencies |
| `ForestUpdates.ActivatedRep` | src/cluster_linearize.h:817-886 | the in-place updates of an activation keep the full representation invariant (indices, feerates, reachable sets, who owns which set) and represent the merged forest |
| `ForestUpdates.DeactivatedRep` | src/cluster_linearize.h:890-945 | the same for a deactivation and the split forest |
| `SpanningForest.SpanningForestState.constructor` | src/cluster_linearize.h:1176-1209 | every transaction is a chunk of its own, and the representation invariant holds |
| `SpanningForest.SpanningForestState.Activate` | src/cluster_linearize.h:817-886 | from any valid state, the forest becomes the old one with the dependency activated, the invariant holds, and which index is freed and what it costs are exact |
| `SpanningForest.SpanningForestState.Deactivate` | src/cluster_linearize.h:890-945 | the converse: the forest becomes the old one with the dependency deactivated, the freed set becomes the parent chunk, and the cost is exact |
| `SpanningForest.SpanningForestState.MergeChunks` | src/cluster_linearize.h:949-987 | activates one of the dependencies between the two given chunks, whichever is drawn |
| `SpanningForest.SpanningForestState.PickMergeCandidate` | src/cluster_linearize.h:1003-1048 | returns a reachable chunk of best feerate in the direction of the merge, at least as good as the chunk itself; none only if there is no such chunk |
| `SpanningForest.SpanningForestState.MergeStep` | src/cluster_linearize.h:1053-1060 | merges with such a best chunk, or reports that there is none, leaving the state alone |
| `SpanningForest.SpanningForestState.MergeSequence` | src/cluster_linearize.h:1064-1077 | performs a greedy run of merges in one direction until no candidate is left, and queues the result |
| `Merging.MergeStepReady` | src/cluster_linearize.h:1003-1048 | each greedy merge keeps the state ready for the next, with thresholds that only move one way |
| `Merging.MergeStepAreaAt` | src/cluster_linearize.h:1003-1048 | no greedy merge lowers the diagram at any threshold |
| `Improving.ImproveMerged` | src/cluster_linearize.h:1081-1113 | splitting at a dependency whose top set beats its chunk, then merging the top upward and the bottom downward, gives a topological state whose diagram is nowhere lower |
| `Strictly.ImproveStrictly` | src/cluster_linearize.h:705-709 | and strictly higher: at the feerate of the chunk that was split it rises by exactly what the top set gains over that feerate |
| `DiagramLists.ImproveArea` | src/cluster_linearize.h:705-709 | hence the area under the diagram grows by at least half of what the split gains |
| `ChunkArea.AreaGrows` | src/cluster_linearize.h:705-709 | for any two diagrams of equal total: if one is nowhere lower and pays h more above the feerate of a chunk of the other, twice its area is larger by at least h times the size of that chunk |
| `ChunkArea.AreaInUnits` | src/util/feefrac.h:178-186 | the trapezoids below the chunks add up to the area below the diagram in steps of size one |
| `ChunkLists.DiagramsAreThresholds` | src/util/feefrac.h:178-186 | for chunks in order of feerate: the piecewise linear diagram is nowhere lower exactly if the chunks pay at least as much above every threshold |
| `DiagramLists.ListExists` | src/cluster_linearize.h:1619-1627 | the chunks of every forest can be listed in order of feerate |
| `DiagramLists.ForestsCompare` | src/cluster_linearize.h:1606-1618 | so for the chunks of forests |
| `DiagramLists.LinearizationsCompare` | src/util/feefrac.h:178-186 | and for the chunks of linearizations and their best prefixes |
| `CompareChunks.CompareChunks` | src/util/feefrac.cpp:11-74 | greater, less, equal or unordered, exactly by which of the two diagrams is higher at some size; any chunks of positive size, also out of order or with different totals |
| `Improving.ImproveSelfMerge` | src/cluster_linearize.h:1081-1113 | if the top half depends on the bottom half, merging them back keeps the state topological and the diagram the same |
| `Optimality.ImproveQueue` | src/cluster_linearize.h:1116-1137 | after an improvement only the two resulting chunks can have become improvable, so the queue stays complete |
| `SpanningForest.SpanningForestState.Improve` | src/cluster_linearize.h:1081-1113 | from a topological state and a strictly better top set: the chunk is divided there; exactly if its top needs its bottom the two are joined again by a dependency between them, at an unchanged diagram; otherwise the diagram is nowhere lower and strictly higher at the feerate of the split chunk; topological again, every chunk outside the queue unimprovable, and at most two chunks appended to the queue |
| `SpanningForest.SpanningForestState.PickChunkToOptimize` | src/cluster_linearize.h:1116-1137 | takes the first queued index that is still a chunk, with all before it, and leaves the rest of the queue in order; none exactly if no queued chunk is left |
| `SpanningForest.SpanningForestState.PickDependencyToSplit` | src/cluster_linearize.h:1140-1171 | returns an active dependency of the chunk with a strictly better top set, and none exactly if the chunk has none |
| `SpanningForest.SpanningForestState.StartOptimizing` | src/cluster_linearize.h:1298-1313 | queues every chunk once, changing nothing else |
| `SpanningForest.SpanningForestState.OptimizeStep` | src/cluster_linearize.h:1316-1332 | exactly the first queued chunk is looked at: if it is unimprovable it leaves the queue and nothing else changes; if not, it is divided as above; the state stays topological, the diagram the same or nowhere lower and somewhere strictly higher; returning false means that no active dependency has a top set better than its chunk |
| `ChunkSplits.NoBetterPart` | src/cluster_linearize.h:596-612 | if no top set beats its chunk, no part of the chunk that contains its own in-chunk parents does |
| `Optimality.ClosedSetBound` | src/cluster_linearize.h:596-612 | then, for every threshold, no ancestor-closed set of transactions pays more above it than the chunks together do |
| `Linearize.DiagramIsBest` | src/cluster_linearize.h:596-612 | then no linearization at all has a better feerate diagram at any threshold |
| `PendingMerges.PendingTried` | src/cluster_linearize.h:1228-1295 | a chunk tried only in the directions it is responsible for can leave the queue without a merge being missed |
| `PendingMerges.PendingDone` | src/cluster_linearize.h:1228-1295 | an empty queue means that no dependency goes from a chunk to one of at least its feerate |
| `SpanningForest.SpanningForestState.MakeTopological` | src/cluster_linearize.h:1228-1295 | always ends with no inactive dependency whose child chunk has at least the feerate of its parent chunk; a state that is so already is left alone; the way there is a run of merges of chunks with their best merge candidates and nothing else |
| `Linearizations.LoadDone` | src/cluster_linearize.h:1214-1225 | loading a valid linearization gives a topological state whose diagram is at least the linearization's |
| `SpanningForest.SpanningForestState.LoadLinearization` | src/cluster_linearize.h:1214-1225 | accepts any order of transactions of the cluster, and merges the chunk of one after the other upwards as long as there is a candidate; for a valid order the state is topological and at least as good at every threshold |
| `ChunkSplits.PivotNotAbove` | src/cluster_linearize.h:614-626 | if no equal-feerate top set contains the pivot, no equal-feerate split has the pivot in its upper part |
| `ChunkSplits.PivotNotBelow` | src/cluster_linearize.h:614-626 | if every equal-feerate top set contains the pivot, no equal-feerate split has the pivot in its lower part |
| `Minimizing.EqualSplitOptimal` | src/cluster_linearize.h:1356-1446 | an equal-feerate split leaves nothing to improve |
| `Minimizing.EqualSplitWeak` | src/cluster_linearize.h:1356-1446 | and keeps the chunk dependencies acyclic, the top half first |
| `Minimizing.EqualMergeOptimal` | src/cluster_linearize.h:1356-1446 | joining two chunks of equal feerate leaves nothing to improve |
| `Minimizing.EqualSelfMerge` | src/cluster_linearize.h:1356-1446 | an equal-feerate self-merge keeps order and optimality |
| `MinimizeQueue.SecondStage` | src/cluster_linearize.h:1356-1446 | a chunk leaves the queue only after both stages: no split has the pivot above, none has it below |
| `SpanningForest.SpanningForestState.StartMinimizing` | src/cluster_linearize.h:1336-1353 | queues every chunk once, in its first stage, with a pivot in it |
| `SpanningForest.SpanningForestState.MinimizeStep` | src/cluster_linearize.h:1356-1446 | exactly the first queued chunk is looked at: it is done if no active dependency divides it equally, or none does with the pivot on either side; it is queued for the other direction if none does with the pivot on this side; otherwise it is divided, and its halves are queued, or joined again exactly if the top needs the bottom; the state stays optimal, the diagram equal at every threshold and the chunk dependencies acyclic; returning false means an empty queue, and then no chunk has a proper non-empty closed part of its own feerate |
| `SpanningForest.SpanningForestState.DivideEqual` | src/cluster_linearize.h:1356-1446 | dividing a chunk equally along an active dependency: the halves are both queued, the one with the pivot in its stage and the other one afresh, or they are joined and queued as before |
| `Emission.TxProgress` | src/cluster_linearize.h:1464-1604 | while a chunk has transactions left, one has no unmet dependency |
| `Emission.ChunkProgress` | src/cluster_linearize.h:1464-1604 | while chunks are left, one is ready, and the best ready one has the highest feerate of all that are left |
| `SpanningForest.SpanningForestState.GetLinearization` | src/cluster_linearize.h:1464-1604 | outputs every transaction once, parents before children, with a diagram at least the forest's; it is the concatenation of all chunks, each contiguous; at every point the next chunk depends on none that are left, has the highest feerate of all that are left, and comes before every other available one by feerate, size and the given order; ties inside a chunk go by the given order |
| `EmissionOrder.LaidPush` | src/cluster_linearize.h:1536-1604 | appending the best available chunk keeps that order |
| `EmissionOrder.ChunkTies` | src/cluster_linearize.h:1528-1547 | a chunk put out pays more per size than any other available then, or as much with less size, or as much with the same size and comes no later in the fallback order |
| `EmissionOrder.TxTies` | src/cluster_linearize.h:1506-1525 | so does a transaction among those of its chunk that are ready then |
| `EmissionOrder.MinimalIsChunked` | src/cluster_linearize.h:1606-1618 | if nothing can be improved or minimized, the chunks put out are exactly the chunks of the linearization, as many as the forest has |
| `Linearize.OptimalFrom` | src/cluster_linearize.h:1803-1840 | a linearization as good as such a forest is as good as any linearization |
| `Linearize.Start` | src/cluster_linearize.h:1803-1840 | sets up a topological forest that is at least as good as a valid given linearization, before anything has begun to be optimized |
| `Linearize.OptimizeAll` | src/cluster_linearize.h:1803-1840 | optimizes until nothing is improvable, or the budget is used up; no step begins once it is |
| `Linearize.MinimizeAll` | src/cluster_linearize.h:1803-1840 | minimizes until every chunk is minimal, or the budget is used up, at an unchanged diagram; no step begins once it is |
| `Linearize.Linearize` | src/cluster_linearize.h:1803-1840 | the result is a linearization, never worse than a valid given one, and consists of the contiguous chunks of a forest in the prescribed order; with the optimal flag it is at least as good as every linearization, and those chunks are exactly its chunks, none of which has a proper closed part of its own feerate; without it the cost has reached the budget; the cost is exactly what the cost model charges for a run of events that leads from single transactions to this forest, and nothing in that run begins once the budget is used up, except the first step of what had just begun |
| `ForestCosts.PerformedNext` | src/cluster_linearize.h:496-544 | each event that can happen to a forest extends the run by its effect and its charge |
| `ForestCosts.SteppedInBudget` | src/cluster_linearize.h:1803-1840 | a step made while the budget is not used up, or right after the start, keeps the run within the budget |
| `ForestSteps.EqualRejoined` | src/cluster_linearize.h:1356-1446 | joining equal halves again changes nothing but the index of the chunk |
| `LinearizeGraph.ReadCluster` | src/cluster_linearize.h:1176-1209 | reads off exactly the reduced dependencies and feerates of the graph |
| `LinearizeGraph.LinearizeDepGraph` | src/cluster_linearize.h:1803-1840 | the same promises, with order, minimal chunks, cost and budget, for a dependency graph given by ancestor sets |
| `DepGraphs.DepGraph.constructor` | src/cluster_linearize.h:29-57 | the empty graph |
| `DepGraphs.DepGraph.AddTransaction` | src/cluster_linearize.h:135-148 | takes the first free position and connects it to nothing |
| `DepGraphs.DepGraph.RemoveTransactions` | src/cluster_linearize.h:159-173 | what remains keeps exactly its ancestors among what remains |
| `DepGraphs.DepGraph.AddDependencies` | src/cluster_linearize.h:179-200 | ancestors become those of the specification function, which the next two rows characterize |
| `DepGraphs.WithParentsOrder` | src/cluster_linearize.h:179-200 | the new ancestor relation is reflexive and transitive and contains the old one and the new dependencies |
| `DepGraphs.WithParentsLeast` | src/cluster_linearize.h:179-200 | it is the least such relation |
| `DepGraphs.DepGraph.GetReducedParents` | src/cluster_linearize.h:210-221 | a set of parents that generates the ancestors; without cycles, exactly the transitive reduction |
| `DepGraphs.DepGraph.GetReducedChildren` | src/cluster_linearize.h:231-242 | the converse of the reduced parents |
| `DepGraphs.DepGraph.GetConnectedComponent` | src/cluster_linearize.h:265-281 | exactly the component of the transaction within the given set |
| `DepGraphs.DepGraph.CheckAcyclic` | src/cluster_linearize.h:328-336 | true if and only if no two transactions are each other's ancestors |
| `Ancestry.ReducedCovers` | src/cluster_linearize.h:210-221 | every strict ancestor is reached through a reduced parent |
| `Ancestry.LinearizationIff` | src/cluster_linearize.h:1803-1840 | parents first, by reduced parents, is the same as ancestors first |
| `Chunking.ChunkLinearizationInfo` | src/cluster_linearize.h:428-443 | the chunks are consecutive segments with non-increasing feerates, each tight, and give the diagram of the linearization |
| `Chunking.FirstChunkBest` | src/cluster_linearize.h:428-443 | no prefix of what remains has a higher feerate than its first chunk |
| `Chunking.ChunksGivePeak` | src/cluster_linearize.h:428-443 | above every threshold, the chunks pay what the best prefix pays |
| `Chunking.ChunkingUnique` | src/cluster_linearize.h:428-443 | a linearization has only one chunking |
| `PostGroups.PassImproves` | src/cluster_linearize.h:1842-1857 | one pass gives a linearization that is nowhere worse, whose chunks are its groups, each of them connected |
| `PostMirror.MirrorPeak` | src/cluster_linearize.h:1842-1857 | the reversed order with negated fees gains what the order gains beyond paying for everything |
| `PostMirror.PostImproves` | src/cluster_linearize.h:1842-1857 | both passes together are nowhere worse and leave every chunk connected |
| `PostTree.PassOptimal` | src/cluster_linearize.h:1842-1857 | a forward pass is optimal if no transaction has two children |
| `PostTree.PostOptimal` | src/cluster_linearize.h:1842-1857 | both passes are optimal for clusters where no transaction has two children, or none has two parents |
| `PostMoved.MovedLeaf` | src/cluster_linearize.h:1842-1857 | moving a leaf to the end, with the same or a higher fee, and post-linearizing is nowhere worse than before |
| `PostLinearize.MoveForward` | src/cluster_linearize.h:1975-2015 | on the linked entries: the new group merges with or passes the groups before it exactly as inserting it into the list of groups does |
| `PostLinearize.BuildGroups` | src/cluster_linearize.h:1958-2017 | the entries end up representing the groups of the pass |
| `PostLinearize.WriteBack` | src/cluster_linearize.h:2019-2039 | the groups are written over the linearization in order |
| `PostLinearize.RunPass` | src/cluster_linearize.h:1951-2040 | one pass on the array equals the pass on sequences |
| `PostLinearize.PostLinearize` | src/cluster_linearize.h:1859-2041 | in place: a valid linearization, nowhere worse, with connected chunks, and optimal for tree-shaped clusters |
| `Coins.FlagsListed` | src/coins.h:136-149 | flagging an entry keeps the doubly linked list in step with the flags, appending it if it had none |
| `Coins.CleanListed` | src/coins.h:184-191 | clearing the flags takes the entry out of the list and nothing else |
| `CoinLevels.MergeShows` | src/coins.cpp:193-262 | writing a valid dirty entry into the parent makes it show what the entry says, keeps the parent valid, and never meets an unspent coin under a fresh one |
| `CoinLevels.AppliedAll` | src/coins.cpp:193-262 | once all flagged entries are written, the parent shows what the child showed |
| `CoinsCaches.CoinsDb.BatchWrite` | src/txdb.cpp:120-184 | the database holds what the child showed, and its block hash |
| `CoinsCaches.CoinsCache.FetchCoin` | src/coins.cpp:51-64 | caches the coin below, if any, and changes nothing visible at any level |
| `CoinsCaches.CoinsCache.GetCoin` | src/coins.cpp:66-70 | the visible coin; nothing visible changes at any level of the stack |
| `CoinsCaches.CoinsCache.PeekCoin` | src/coins.cpp:27-33 | the visible coin, without caching |
| `CoinsCaches.CoinsCache.HaveCoin` | src/coins.cpp:171-175 | whether there is a visible coin |
| `CoinsCaches.CoinsCache.AccessCoin` | src/coins.cpp:162-169 | the visible coin, or a spent one |
| `CoinsCaches.CoinsCache.AddCoin` | src/coins.cpp:72-113 | sets the visible coin, unless it is unspendable, and stores it dirty, and fresh exactly if it may be; reports the error exactly if the cache itself has an unspent one and overwriting was not allowed |
| `CoinsCaches.CoinsCache.SpendCoin` | src/coins.cpp:136-158 | removes the visible coin and returns it; a fresh entry is erased, any other one is left dirty and spent; succeeds exactly if the cache knows the outpoint or there was a coin |
| `CoinsCaches.CoinsCache.Uncache` | src/coins.cpp:295-308 | drops exactly that entry, exactly if it is unmodified, and changes nothing visible |
| `CoinsCaches.CoinsCache.Reset` | src/coins.cpp:287-293 | discards the cache, which is empty: what is visible becomes what is visible below |
| `CoinsCaches.CoinsCache.NextAndMaybeErase` | src/coins.h:288-303 | steps through the flagged list while entries are erased or cleaned |
| `CoinsCaches.CoinsCache.MergeEntry` | src/coins.cpp:193-262 | one entry of the batch: exact effect on the entries and on what is visible; the error branch is never taken |
| `CoinLevels.AddedAndSpent` | src/coins.cpp:72-158 | a coin that is added and spent before anything is written leaves no trace |
| `CoinsCaches.CoinsCache.BatchWrite` | src/coins.cpp:193-262 | the cache shows what its child showed, its entries are those with the flagged ones of the child merged in order, all counters and the list stay exact, and the error is never reported |
| `CoinsCaches.CoinsCache.Flush` | src/coins.cpp:264-274 | nothing visible changes at the top, the base shows what the cache showed and has its block hash, every level further below is as before, and the cache is empty |
| `CoinsCaches.CoinsCache.Sync` | src/coins.cpp:276-285 | the same effect on every level, and exactly the unspent entries stay, all clean; the error is never reported |
| `CoinsCaches.CoinsCache.GetBestBlock` | src/coins.cpp:182-186 | the first block hash that is set, from the top of the stack; exactly the unset ones above it are filled in |
| `CoinsCaches.FlushKeepsBest` | src/coins.cpp:264-285 | flushing or syncing keeps the best block exactly if the cache has one set, or the base has none, or the base has the one further below |
| `CoinsRuns.FlushLosesBest` | src/coins.cpp:264-285 | a stack of two caches over a database where it does not: the best block is another before and after |
| `CoinsRuns.MaintainAt` | src/coins.cpp:264-308 | lookups, uncaching, flushing, syncing, setting and asking for the block hash, at any level of a stack of any depth, give the reply and have the effect on every level that they have on a stack of plain maps; nothing visible at the top changes |
| `CoinsRuns.Run` | src/coins.cpp:51-158 | every run of lookups, additions, spends, resets and upkeep at any level, on any stack, with or without block hashes, gives the replies of the same run on a stack of plain maps and hashes, and leaves every level as it does |
| `CoinsOverlay.RunInv` | src/coins.h:659-707 | the invariant of the concurrent prefetching holds in every state of every interleaving, over any number of blocks |
| `CoinsOverlay.EveryReplyIsBase` | src/coins.h:692-707 | whatever the interleaving, query order and repetitions, over any number of blocks with changes of the base between them, every reply is what the base has at that moment |
| `CoinsOverlay.CleanStart` | src/coins.cpp:368-373 | whenever no tasks are left, the inputs and both counters are reset, as starting and stopping assert |
| `CoinsOverlay.NothingTwice` | src/coins.h:659-672 | no input is claimed or published twice, and what is taken was published and not taken before |
| `CoinsOverlay.NeverStuck` | src/coins.h:692-707 | while the main thread waits, it or some worker can take a step |
| `CoinsOverlay.WorkerStepsEnd` | src/coins.h:659-672 | worker steps strictly use up the remaining work |
| `OverlayRuns.Overlay.constructor` | src/coins.h:721-726 | an overlay on any stack of caches, fetching nothing |
| `OverlayRuns.Overlay.Work` | src/coins.h:659-670 | any next step of any worker, looking coins up in the stack, keeps the invariant |
| `OverlayRuns.Overlay.FetchCoinFromBase` | src/coins.h:692-707 | whatever the workers do meanwhile: returns, with what the stack has |
| `OverlayRuns.Overlay.StopFetching` | src/coins.h:674-690 | whatever the workers are doing: returns, with nothing left |
| `OverlayRuns.Overlay.Do` | src/coins.h:713-740 | the reply and the effect on every level are those on a stack of plain maps |
| `OverlayRuns.Run` | src/coins.h:622-744 | however blocks are started and the workers run in between, the replies and all levels of the stack are those of the same operations on plain maps |
| `CheckQueue.RunInv` | src/checkqueue.h:72-137 | the invariant of the queue holds after every schedule |
| `CheckRuns.EveryReturnIsRight` | src/checkqueue.h:72-189 | for any number of workers and any schedule, told by the steps of the schedule alone: if a session returns no failure, all checks that the steps since its start added have run and passed; if it returns one, it is that of one of these checks, which has run |
| `CheckRuns.MasterReturns` | src/checkqueue.h:72-137 | the master returns whenever it finds the queue empty and nothing unfinished |
| `CheckRuns.TakesShare` | src/checkqueue.h:115-127 | a thread that takes work takes the last checks of the queue, and exactly its share of them, at most the batch size and at least one |
| `CheckQueue.TodoIsExact` | src/checkqueue.h:72-137 | the counter of unfinished checks is that of queued and in-flight ones |
| `CheckQueue.BlockedMasterHasWorker` | src/checkqueue.h:72-137 | a blocked master without a pending signal waits for a batch held by a worker |
| `AddrBook.InvIsConsistent` | src/addrman.cpp:1042-1145 | the invariant gives everything the self-check tests: index bijections, random positions, reference counts between 1 and 8, bucket positions, and counts per network |
| `AddrMans.AddrMan.constructor` | src/addrman.cpp:88-104 | an empty manager satisfies the invariant |
| `AddrMans.AddrMan.Find` | src/addrman.cpp:380-393 | the entry of an address, exactly if there is one |
| `AddrMans.AddrMan.Create` | src/addrman.cpp:395-409 | a new id, with exact indexes and counts |
| `AddrMans.AddrMan.SwapRandom` | src/addrman.cpp:411-433 | exchanges two positions of the random order and their back references |
| `AddrMans.AddrMan.Delete` | src/addrman.cpp:435-450 | removes the entry from every index; the assertions hold by its precondition, which every caller meets |
| `AddrMans.AddrMan.ClearNew` | src/addrman.cpp:452-468 | empties a slot of the new table, deleting the entry if it was its last |
| `AddrMans.AddrMan.TakeOutOfNew` | src/addrman.cpp:470-488 | removes the entry from all its slots and no other: the reference count reaches zero, as asserted |
| `AddrMoves.PromotedMoves` | src/addrman.cpp:490-526 | the entry takes its tried slot; one that was there goes back to its slot of the new table, over what is there |
| `AddrMans.AddrMan.MakeTried` | src/addrman.cpp:470-527 | keeps the invariant and moves the entry as above; no other slot of either table changes, and all records stay |
| `AddrMans.AddrMan.PutInNew` | src/addrman.cpp:578-602 | the entry enters the slot exactly under the stated condition; otherwise nothing changes, except that an entry without slots is dropped |
| `AddrMans.AddrMan.AddSingle` | src/addrman.cpp:529-603 | keeps the invariant; exactly when and where an announced address enters the new table, given the draw for a further slot, how its record changes, and that nothing else does |
| `AddrMans.AddrMan.Add` | src/addrman.cpp:660-670 | keeps the invariant and the tried table; the announcements have exactly their single effects, one after the other, and the result says whether any was taken |
| `AddrMans.AddrMan.Good` | src/addrman.cpp:605-658 | keeps the invariant; exactly when the address moves to the tried table or its collision is noted, and the resulting tables |
| `AddrMans.AddrMan.Attempt` | src/addrman.cpp:672-690 | keeps the invariant; exactly the record of that address changes, as stated |
| `AddrMans.AddrMan.Connected` | src/addrman.cpp:856-873 | likewise, for the time of a connected address |
| `AddrMans.AddrMan.SetServices` | src/addrman.cpp:875-889 | likewise, for its services |
| `AddrMans.AddrMan.GetAddr` | src/addrman.cpp:791-830 | different wanted addresses, no more than the share; if fewer, then all wanted ones |
| `AddrMans.AddrMan.Resolve` | src/addrman.cpp:891-952 | what is done about one collision is exactly the stated verdict, which the laws below characterize by the times in the records |
| `AddrMans.AddrMan.ResolveCollisions` | src/addrman.cpp:891-952 | keeps the invariant in every state on the way; the collisions are decided in the order of their ids, each exactly as stated for the state it meets, and exactly those that wait stay recorded |
| `AddrLaws.ResolvedTried` | src/addrman.cpp:891-952 | a tried slot is taken over exactly if its entry has had no success for four hours and either its last try is more than a minute and less than four hours ago, or it is at least four hours ago and the success of the newcomer is more than forty minutes old |
| `AddrLaws.StillRecorded` | src/addrman.cpp:891-952 | a collision stays recorded exactly if its entry exists and is valid, and the one in its slot has had no success for four hours but was tried in the last minute, or not in the last four hours while the success of the newcomer is at most forty minutes old |
| `AddrLaws.Fairly` | src/addrman.cpp:891-952 | from before all collisions are resolved to after: a tried slot has changed hands only if its entry was so outlived, by the records from before, and only to a valid entry of a recorded collision |
| `AddrLaws.ConnectedStays` | src/addrman.cpp:891-952 | hence an entry with a success in the last four hours keeps its tried slot |
| `AddrLaws.GoodEnough` | src/addrman.cpp:48-72 | an entry is not terrible exactly if it was tried in the last minute, or it was seen in the last thirty days and not in the future, with fewer than three failures, or a success and either fewer than ten failures or the success in the last week |
| `AddrLaws.GoodAfterSuccess` | src/addrman.cpp:48-72 | after a success only the age of an entry can make it terrible |
| `AddrLaws.LuckyOnce` | src/addrman.cpp:564-568 | of two to the power of n draws in a row exactly one gives an entry with n slots another one |
| `AddrLaws.FailsOnce` | src/addrman.cpp:672-690 | between two successes with anyone an entry fails at most once |
| `AddrLaws.RefreshedTime` | src/addrman.cpp:543-550 | an announcement moves the time of an entry forward by more than an hour or not at all, never beyond the announced time less the penalty, and leaves it at most a day behind, or an hour for a recent announcement |
| `AddrLaws.KnownEnters` | src/addrman.cpp:541-602 | a known address gets another slot exactly if the announcement is later than its time, it is not tried and in fewer than eight slots, the draw is lucky, and the slot is free or has another entry that is terrible |
| `AddrLaws.UnknownEnters` | src/addrman.cpp:569-602 | an unknown address becomes known exactly if it is put into its slot, always if that is free, with no tries and the announced time less the penalty, but not below zero |
| `AddrLaws.SeenTime` | src/addrman.cpp:856-873 | the end of a connection never moves the time of an entry back and leaves it at most twenty minutes behind |
| `AddrMans.AddrMan.SelectTriedCollision` | src/addrman.cpp:954-980 | the entry in the tried slot of some recorded collision, which is always there |
| `AddrRuns.Run` | src/addrman.cpp:605-658 | every run of public operations keeps the invariant in every state it passes through; in each of them every recorded collision is real and the self-check passes; a tried slot changes hands only by a connection that is not to wait for a test, to the connected address, or when its entry is outlived as collisions are resolved |
| `AddrRuns.RunFromEmpty` | src/addrman.cpp:88-104 | the same from the empty manager, hence in every reachable state |
| `AddrRuns.NothingComesBack` | src/addrman.cpp:395-450 | over every run, an id that was deleted is never used again, and an occupied tried slot stays occupied |
| `HeadersSyncs.HeadersSync.constructor` | src/headerssync.cpp:16-45 | the initial state |
| `HeadersSyncs.HeadersSync.Finalize` | src/headerssync.cpp:50-62 | the final state |
| `HeadersSyncs.HeadersSync.ValidateAndProcessSingleHeader` | src/headerssync.cpp:176-212 | implements the step function of the first download, of which PresyncAllExactly says what it takes |
| `HeadersSyncs.HeadersSync.ValidateAndStoreHeadersCommitments` | src/headerssync.cpp:138-174 | implements one message of the first download, stopping at the first refused header |
| `HeadersSyncs.HeadersSync.ValidateAndStoreRedownloadedHeader` | src/headerssync.cpp:214-277 | implements the step function of the second download, of which RedownloadAllExactly says what it takes |
| `HeadersSyncs.HeadersSync.PopHeadersReadyForAcceptance` | src/headerssync.cpp:279-293 | releases the headers that are ready, rebuilt one after the other |
| `HeadersSyncs.HeadersSync.ProcessNextHeaders` | src/headerssync.cpp:67-136 | implements one message from the peer; for a message with headers, more are asked for exactly if the phase afterwards is not the final one, and nothing is released by one that is refused; a message without headers, or after the end, changes nothing |
| `HeaderRuns.RebuiltAccepted` | src/headerssync.cpp:279-293 | the headers rebuilt from the compressed buffer are those that were accepted |
| `HeaderRuns.RunKeeps` | src/headerssync.cpp:67-136 | the invariant holds after every sequence of messages |
| `HeaderOutcomes.PresyncAllExactly` | src/headerssync.cpp:176-212 | the headers of a first-download message are taken exactly if every difficulty of the longer chain may follow the one before and its commitments are not too many |
| `HeaderOutcomes.FirstDownloadMessage` | src/headerssync.cpp:77-99 | after any run: a message is taken exactly if it connects and is so; the next phase is the second download exactly if the chain then has the minimum work, else the first one exactly if the message was full, else the final one, which is also where a refused message leads |
| `HeaderOutcomes.RedownloadAllExactly` | src/headerssync.cpp:214-277 | the headers of a second-download message are taken exactly if they connect one by one, every difficulty may follow the one before, and at each commitment height before the work suffices the bit is that of the first download |
| `HeaderOutcomes.SecondDownloadMessage` | src/headerssync.cpp:100-136 | after any run: what is then released, and that the sync goes on exactly if the message was taken and full and the work does not suffice yet |
| `HeaderOutcomes.NotFullEnds` | src/headerssync.cpp:84-95 | after any run, a message that is not full ends the sync, unless it brings the first download to the minimum work, which leads to the second one |
| `HeaderOutcomes.RefusedEnds` | src/headerssync.cpp:134-136 | after any run, a message of which nothing is taken ends the sync |
| `HeaderOutcomes.IdleMessage` | src/headerssync.cpp:67-76 | a message without headers, or after the end, changes nothing |
| `HeaderTheorems.ReleasedIsChain` | src/headerssync.cpp:279-293 | released headers concatenate to a hash-linked prefix of the chain accepted in the second download |
| `HeaderTheorems.CommitmentsMatch` | src/headerssync.cpp:249-269 | at every commitment height before the work suffices, the second download has the bit of the first, which is at least that long |
| `HeaderTheorems.ReleasedHasLookahead` | src/headerssync.cpp:279-293 | before the work suffices, everything released has the whole look-ahead accepted above it; once it suffices, everything is released |
| `HeaderTheorems.AcceptedAfterWork` | src/headerssync.cpp:138-174 | nothing is accepted unless the first download was a permitted chain with enough work |
| `HeaderTheorems.PresyncIsLinked` | src/headerssync.cpp:138-174 | with continuous messages, the first download is hash-linked throughout |
| `HeaderTheorems.CommitmentsBounded` | src/headerssync.cpp:195-206 | between messages there are never more commitments than the maximum |
| `HeaderTheorems.OnlyForward` | src/headerssync.cpp:67-136 | phases only move forward; what was released stays, and nothing is released after the end |
| `HeaderDifficulty.DifficultyExact` | src/headerssync.cpp:228-241 | for every run: all accepted difficulties follow their predecessors exactly if that is so for the first header of every message that is taken while nothing is buffered |
| `HeaderDifficulty.DifficultyRule` | src/headerssync.cpp:228-241 | hence always with a look-ahead buffer |
| `HeaderDifficulty.ZeroBufferMissesRule` | src/headerssync.cpp:228-241 | without a buffer not always: a run that shows it, where difficulties change at every other height only |
| `HonestPeer.HonestPeerSucceeds` | src/headerssync.cpp:67-136 | a peer serves a permitted chain with enough work, and then that chain or a longer one again, in any messages of which only the last may be short: the sync ends with a prefix released, and that has enough work exactly if there is a buffer or the first header of each later message may also follow the start of the chain |
| `HonestPeer.ZeroBufferRefusesHonest` | src/headerssync.cpp:228-241 | without a buffer such a peer can be refused: a run that shows it |
| `BlockChain.InvertIsAnd` | src/chain.cpp:67-79 | clearing the lowest one bit is the bitwise and with the number below |
| `BlockChain.SkipHeightLower` | src/chain.cpp:71-79 | a skip pointer goes strictly back |
| `BlockChain.BlockIndex.BuildSkip` | src/chain.cpp:113-117 | keeps every skip pointer of the tree at its proper ancestor |
| `BlockChain.GetAncestor` | src/chain.cpp:81-106 | the fast search finds what walking back finds, and nothing exactly if the height is out of range |
| `BlockChain.LastCommonAncestor` | src/chain.cpp:153-176 | a common ancestor, and no common ancestor is higher |
| `BlockChain.Chain.SetTip` | src/chain.cpp:15-23 | the chain is exactly the ancestors of the new tip, though only the differing part is rewritten |
| `BlockChain.Chain.FindFork` | src/chain.cpp:49-57 | the highest block of the chain that is an ancestor |
| `BlockChain.LocatorEntries` | src/chain.cpp:25-42 | strictly descending ancestors from the block to the genesis, at the prescribed distances |
| `BlockChain.LocatorIsShort` | src/chain.cpp:25-42 | a locator of n entries needs a height exponential in n |
| `ArithUints.AddTo` | src/arith_uint256.h:115-125 | addition modulo the width, also onto itself |
| `ArithUints.Not` | src/arith_uint256.h:49-55 | the complement |
| `ArithUints.Increment` | src/arith_uint256.h:153-160 | adding one modulo the width |
| `ArithUints.Negated` | src/arith_uint256.h:57-64 | the negation modulo the width |
| `ArithUints.SubtractFrom` | src/arith_uint256.h:127-131 | subtraction modulo the width |
| `ArithUints.NoOverflow` | src/arith_uint256.cpp:59-72 | the 64-bit intermediate of a multiplication step never overflows |
| `ArithUints.MultiplyBySmall` | src/arith_uint256.cpp:47-56 | multiplication by a 32-bit number modulo the width |
| `ArithUints.MultiplyBy` | src/arith_uint256.cpp:59-72 | multiplication modulo the width |
| `ArithShifts.ShiftLeft` | src/arith_uint256.cpp:13-27 | multiplication by a power of two modulo the width |
| `ArithShifts.ShiftRight` | src/arith_uint256.cpp:30-44 | division by a power of two, rounding down |
| `ArithDivides.CompareTo` | src/arith_uint256.cpp:101-110 | the sign of the difference |
| `ArithDivides.Bits` | src/arith_uint256.cpp:155-167 | the position of the highest bit, plus one |
| `ArithDivides.DivideBy` | src/arith_uint256.cpp:75-98 | division rounding down; fails exactly for a zero divisor |
| `Compacts.EqualTo` | src/arith_uint256.cpp:113-124 | equality with a 64-bit number |
| `Compacts.SetCompact` | src/arith_uint256.cpp:174-192 | the decoded number modulo 2^256; the overflow flag exactly if it is at least 2^256; the sign flag exactly for a non-zero number with the sign bit |
| `Compacts.GetCompact` | src/arith_uint256.cpp:194-215 | computes the encoding function on the limbs |
| `Compacts.CompactRounds` | src/arith_uint256.cpp:174-215 | decoding an encoding rounds down by less than one part in 2^15 |
| `Compacts.CompactIdempotent` | src/arith_uint256.cpp:174-215 | encoding it again gives the same |
| `Compacts.GetBitsProof` | src/chain.cpp:119-132 | 2^256 divided by one more than the target, rounding down, and zero for unusable targets; never divides by zero |
| `CuckooCaches.Cache.constructor` | src/cuckoocache.h:336-349 | an empty cache |
| `CuckooCaches.Cache.EpochCheck` | src/cuckoocache.h:286-318 | keeps the table; exactly if the counter has run out and the recent elements fill the epoch, they become old and old ones erasable; the next counter is exact, and the live entries of both epochs are bounded |
| `CuckooCaches.Cache.Insert` | src/cuckoocache.h:397-445 | after its epoch check, loses at most one live element, the new one included, and none if a slot of the new one was erasable or it was in the table, which it then is, live once; an element that was there only becomes recent; every live element stays in one of its eight slots |
| `CuckooCaches.Cache.Displace` | src/cuckoocache.h:411-444 | the elements that are live afterwards are those before, plus the new one, minus at most one; the moves are a chain, each of which met eight slots that may not be overwritten, puts its element into the one after that of the move before, and goes on with what was there; something is dropped only after as many of them as the depth limit, and the last one otherwise went to the first erasable slot |
| `CuckooCaches.Cache.Contains` | src/cuckoocache.h:474-484 | finds an element exactly if it is in the table, and only ever inserted ones; erasing makes it no longer live, and nothing else changes |
| `CuckooCaches.Cache.Bounded` | src/cuckoocache.h:286-318 | live entries never exceed twice the epoch size plus its slack |
| `CuckooCaches.DisplacedRoom` | src/cuckoocache.h:411-444 | with an erasable slot for it, the element is placed and nothing is dropped |
| `CuckooCaches.NotBack` | src/cuckoocache.h:411-444 | what was just put into a slot is not moved again, if the eight slots of an element are different |
| `CuckooRuns.InsertThenContains` | src/cuckoocache.h:397-484 | right after its insertion an element is found if one of its slots was erasable, it was in the table, or nothing was dropped |
| `CuckooRuns.EraseThenContains` | src/cuckoocache.h:447-466 | an erased element is still found until its slot is needed |
| `CuckooRuns.Run` | src/cuckoocache.h:286-484 | over every run of insertions and lookups: that bound after every operation, and nothing is found that was not inserted before |
| `Bech32Chars.CharsetRoundTrip` | src/bech32.cpp:24-38 | the reverse table undoes the forward table |
| `Bech32Chars.RevRoundTrip` | src/bech32.cpp:24-38 | the forward table undoes the reverse table, up to case |
| `Bech32Chars.RevAccepts` | src/bech32.cpp:24-38 | the reverse table accepts exactly the characters of the forward table, in either case |
| `Bech32Code.StepIsDivision` | src/bech32.cpp:133-219 | one step is one step of polynomial division by the generator over GF(32) |
| `Bech32Code.RunLinear` | src/bech32.cpp:133-219 | the residue is linear |
| `Bech32Code.StepInjective` | src/bech32.cpp:133-219 | a step without input is injective |
| `Bech32Code.BurstDetected` | src/bech32.cpp:133-219 | for any length, symbol sequences that differ only within six consecutive symbols have different residues |
| `Bech32Powers.NoZeroDivisors` | src/bech32.cpp:40-48 | GF(1024) has no zero divisors |
| `Bech32Powers.PowersDiffer` | src/bech32.cpp:40-48 | the generator is primitive: its powers are different over any range shorter than 1023 |
| `Bech32Errors.LiftProduct` | src/bech32.cpp:40-48 | the embedding of GF(32) into GF(1024) is multiplicative |
| `Bech32Errors.Root13` | src/bech32.cpp:162-182 | a root of the generator polynomial |
| `Bech32Errors.Root26` | src/bech32.cpp:162-182 | the root at the next power |
| `Bech32Errors.Root52` | src/bech32.cpp:162-182 | the root at the power after that |
| `Bech32Detects.RunValue` | src/bech32.cpp:184-219 | the residue of a sequence, as a polynomial, has the value of the sequence at every root of the generator |
| `Bech32Detects.ThreeErrorsDetected` | src/bech32.cpp:140-148 | for any length, symbol sequences that differ in at most three places within 1023 consecutive symbols have different residues |
| `Bech32Code.ChecksumUnique` | src/bech32.cpp:345-356 | exactly one choice of the last six symbols gives the required residue |
| `Bech32.PolyMod` | src/bech32.cpp:133-219 | computes the residue |
| `Bech32.PreparePolynomialCoefficients` | src/bech32.cpp:314-327 | the symbols of the human-readable part and the data |
| `Bech32.VerifyChecksum` | src/bech32.cpp:330-342 | returns an encoding exactly if the residue is its constant |
| `Bech32Known.KnownStrings` | src/bech32.cpp:124-128 | an empty payload for the prefix a is a1lqfn3a in Bech32m and a12uel5l in Bech32, as BIP 350 and BIP 173 list them, which fixes both constants |
| `Bech32.CreateChecksum` | src/bech32.cpp:345-356 | the checksum that the residue determines |
| `Bech32.CheckCharacters` | src/bech32.cpp:290-312 | exactly the positions that are unprintable or in another case than the first letter; none exactly if the string is well spelled |
| `Bech32.Encode` | src/bech32.cpp:361-374 | the human-readable part, which may be any bytes but capital letters, the separator, and data and checksum in the character set |
| `Bech32.Decode` | src/bech32.cpp:377-403 | decoding is the inverse of encoding: it returns a payload if and only if the string, in lower case, is the encoding of that payload, well spelled and within the limit |
| `Bech32.RoundTrip` | src/bech32.cpp:361-403 | what is encoded decodes to the same triple |
| `Bech32.BurstNeverPasses` | src/bech32.cpp:377-403 | two accepted strings of the same length, human-readable part and encoding that differ only within six consecutive characters are the same |
| `Bech32Passes.ThreeErrorsNeverPass` | src/bech32.cpp:377-403 | two accepted strings of the same length, human-readable part and encoding that differ in at most three characters within 1023 are the same |
| `Bech32Passes.PrefixErrorNeverPasses` | src/bech32.cpp:377-403 | nor do they differ in one character of the human-readable part and one of the data |

## Left out

- Termination of optimizing and minimizing without a budget: both depend on the cost limit and random choices; the results hold whenever a step reports that nothing is left, and the loops are bounded by the budget.
- The reordering constructor, topological append, memory accounting and connectivity helpers of `DepGraph`, which only add easy members.
- Bit-level representations: bit sets are sets, and the fee and size fields are not bounded to their machine widths.
- Address selection by chance, and the file format, of the address manager: floating-point probabilities and versioned input and output.
- Overlay: the filtering of block inputs before prefetching starts, and the thread pool.
- Check queue: stop requests and destruction.
- Coins: direct insertion for snapshots, adding all outputs of a transaction, partial database batches and head blocks, and actual allocator usage.
- Headers sync: the request locator, logging, and the difficulty rule itself, which is an arbitrary predicate.
- Block index: search by time, work-equivalent time, and serialization.
- Arithmetic: conversion to floating point and hexadecimal, and bitwise operators other than those the modelled code uses.
- Bech32.CreateChecksum: the loop over six groups of bits is written out.
- Bech32: that four errors within 89 symbols are detected is a fact about all quadruples of positions, established by enumeration; error location is a heuristic over finite tables.
- Cuckoo cache: atomic access from several threads.
- Everything around these parts: networking, RPC, wallet keys, storage engines, configuration.
