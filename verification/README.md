# DRTP: verification of the protocol core

DRTP sends measurements with low latency over a lossy network. Each source has a primary path to its
destination, and each router on it has redundant sub-paths (RSPs) back to routers further upstream, over which lost
capsules are asked for again, hop by hop. This project models the parts of the ndnSIM implementation that compute
these routes and run the protocol, and proves what they promise.

* **Route generation.** `FibonacciForest` and `LltcFibonacciHeap` are the hand-written Fibonacci heap: circular linked
  lists, degrees and marks changed in place, with the forest they represent as ghost state, and the Fibonacci bound
  behind the table of 45 slots; `HeapSteps` gives what each operation does to the fields as a function, so that equal
  searches break ties alike. `ShortestPaths` and `RouteGeneration` are the Dijkstra search that runs on the heap.
  `LltcGraph` is the graph with its spare node, `RedundantSubPaths` the greedy search for sub-paths through that node,
  and `RouteTiming` the arithmetic of timeouts and losses, which `DirectedRoutes` states by what is given for each link in
  the direction of travel.
* **Failover.** `SubgraphStatus` and `LltcRrSubgraph` are the map of link statuses each router keeps and the search for
  the way of the best success ratio it makes locally. `PreferredWays` is where packets go if every router follows its
  own, `SubgraphRoutes` what a way is worth by the ratios given, and `RouterAgreement` when all routers find the same
  one. `EchoTables` is what a router records of the echo tests that several timers run interleaved, `LinkTests` how it
  runs them and when their results are advertised; `LsaFlooding` is the spreading of advertisements.
* **Retransmission at a router.** `RetransmissionSpec` gives what each message and timer does as a step over a value.
  `RetransmissionControl` holds the objects that are changed in place, each method proved to do what the step says.
  `RetransmissionEffects` states what each of them brings about, in plain terms. `RetransmissionBudgets`,
  `RetransmissionSafety`, `RetransmissionCounts` and `RetransmissionLimits` prove what a router never does, and
  `RetransmissionLiveness` and `RetransmissionRounds` what it does not fail to do, in every run, for every interleaving of
  messages and timers.
* **At the ends.** `Resequencer` puts packets in order before they are handed to the application; `PaList` is the
  duplicate filter by intervals; `MessageText`, `Messages` and `MessagePayloads` are names and payloads of messages.

Where the code does not do what its design says, the model follows the code:

* `LltcDataIdQueue` counts its length up with its contents, so that a queue of positive length never forgets an id.
  That ids are sent on at most once depends on it.
* The link id of a sub-path in the subgraph is 0, so that only failed links of the primary path are avoided by the search
  (`RsgStruct.UsableMeans`). A failed sub-path may be chosen (`FailedSubPathChosen`); `FailedAvoided` says exactly when none
  may be.
* `convertPrevToPath` finds no path from a node to itself, besides finding none to an unreachable node.
* Of the two delays of a link, the searches and the timeout for reports of losses take that of the direction in which the
  link was entered, whichever way it is travelled (`TimeoutsAlong`).
* Delay sums at unreachable nodes wrap around at 2^31 (drtp-simple line 235). The paths found are not affected:
  only predecessors of unreachable nodes change, and they stay unreachable nodes.
* Batches are not always exclusive: once the reserved id 2^32 - 1 was carried, a capsule can make a router claim ids
  again that are still in a batch (`BatchesOverlap`). `ExclusiveBatches` says that exactly such capsules break it.
* In RSP state a capsule goes out under the id that was asked for, so two packets may have one name (`SameNameOnRsp`);
  `SameName` says exactly when.
* Echo ids are drawn at random, also ones that are in use. The record is then overwritten, but the id stays in the list of
  the test that drew it first; that test goes by the new record when it ends, and erases it (`CollisionDisturbs`).
  `Undisturbed`, `DrawChanges`, `RedrawChanges` and `EndChanges` say exactly when such a draw, and such an end, makes a
  difference.
* A RetranS name with a drift of 2^63 or more makes its parser throw (`DriftThrows`).
* An answer that brings another id than was asked for leaves that id among those waited for, although it has come
  (`RetranSEffect`).
* What is next in line after a release of packets that have waited too long stays in the queue until the next release
  (`ReleasedExactly` in `ReleaseQueue`).
* A new first interval of ids seen is not joined to the next one (`CheckPacket`, `NotJoined`).
* Faces to one router with different statuses make an advertisement due again and again (`ToldAfter`,
  `ParallelFacesRepeat`).

`dafny verify dfyconfig.toml` verifies the project.

## Model

| member | source | states |
|---|---|---|
| `FibonacciForest.PlantedWellFormed` | ndnSIM/ns-3/src/ndnSIM/model/lltc/lltc-fibonacci-heap.cpp:31-63 | A new node enters as an unmarked root without children; the marking discipline of the forest, on which the degree bound rests, is kept |
| `FibonacciForest.CutOffWellFormed` | ndnSIM/ns-3/src/ndnSIM/model/lltc/lltc-fibonacci-heap.cpp:69-95 | Cutting a node off makes it an unmarked root; its former parent, and nobody else, is now short of the child it lost, until it is marked or cut off in turn |
| `FibonacciForest.MarkedWellFormed` | ndnSIM/ns-3/src/ndnSIM/model/lltc/lltc-fibonacci-heap.cpp:97-113 | Marking an unmarked parent that lost a child restores the discipline: no node but a root has lost two children |
| `FibonacciForest.AdoptedWellFormed` | ndnSIM/ns-3/src/ndnSIM/model/lltc/lltc-fibonacci-heap.cpp:289-313 | Making one root the child of another root of the same degree keeps the discipline: the i-th child linked had at least i - 1 children then |
| `FibonacciForest.FelledWellFormed` | ndnSIM/ns-3/src/ndnSIM/model/lltc/lltc-fibonacci-heap.cpp:142-191 | Taking out a root whose children have all been made roots keeps the discipline |
| `FibonacciForest.OlderSize` | ndnSIM/ns-3/src/ndnSIM/model/lltc/lltc-fibonacci-heap.cpp:69-113 | A node together with the subtrees of its first k children holds at least Fib(k + 2) nodes |
| `FibonacciForest.SubtreeSize` | ndnSIM/ns-3/src/ndnSIM/model/lltc/lltc-fibonacci-heap.cpp:69-113 | A node of degree d is the root of at least Fib(d + 2) nodes, whatever was cut from the tree before |
| `FibonacciForest.Fib47` | ndnSIM/ns-3/src/ndnSIM/model/lltc/lltc-fibonacci-heap.cpp:193-198 | Fib(47) exceeds the largest value of a 32-bit signed integer |
| `FibonacciForest.DegreeBound` | ndnSIM/ns-3/src/ndnSIM/model/lltc/lltc-fibonacci-heap.cpp:193-248 | In a heap whose size fits an `int` every degree is below 45, so the hard-coded table of 45 slots is never indexed out of range |
| `LltcFibonacciHeap.Cut` | ndnSIM/ns-3/src/ndnSIM/model/lltc/lltc-fibonacci-heap.cpp:69-95 | Relinking the lists in place carries out exactly the cut of the forest: the circular lists of parent and roots stay well-formed, degree and child pointer agree with them, and only the former parent is short of a child |
| `LltcFibonacciHeap.CascadingCut` | ndnSIM/ns-3/src/ndnSIM/model/lltc/lltc-fibonacci-heap.cpp:97-113 | Ends with the marking discipline restored; on the way nodes only became roots: parents of the others, and the set of nodes, are as before |
| `LltcFibonacciHeap.MakeChild` | ndnSIM/ns-3/src/ndnSIM/model/lltc/lltc-fibonacci-heap.cpp:289-313 | Relinking carries out exactly the adoption of one root by another: taken out of the root list, put right of the former child pointer, degree one larger, mark cleared |
| `LltcFibonacciHeap.MergeRoots` | ndnSIM/ns-3/src/ndnSIM/model/lltc/lltc-fibonacci-heap.cpp:193-248 | After all roots were examined no two roots have the same degree, each is in the table at the place of its degree, nothing is lost and heap order holds; the table index stays below 45 |
| `LltcFibonacciHeap.DegreewiseMerge` | ndnSIM/ns-3/src/ndnSIM/model/lltc/lltc-fibonacci-heap.cpp:193-287 | Consolidation keeps the nodes, the shape and the heap order, and finds a root whose key is maximal among all nodes |
| `LltcFibonacciHeap.InsertNode` | ndnSIM/ns-3/src/ndnSIM/model/lltc/lltc-fibonacci-heap.cpp:31-63 | The node is put to the right of the maximal one in the root list, or alone into an empty heap; all lists stay well-formed |
| `LltcFibonacciHeap.RemoveRoot` | ndnSIM/ns-3/src/ndnSIM/model/lltc/lltc-fibonacci-heap.cpp:142-191 | The children of the removed root become roots, the root is gone, all else is kept, and the new maximal node is found |
| `LltcFibonacciHeap.RaiseNode` | ndnSIM/ns-3/src/ndnSIM/model/lltc/lltc-fibonacci-heap.cpp:121-135 | Raising one key is repaired by cutting, with cascading cuts: heap order holds again for the same nodes |
| `LltcFibonacciHeap.FibonacciHeap.constructor` | ndnSIM/ns-3/src/ndnSIM/model/lltc/lltc-fibonacci-heap.cpp:24-29 | An empty heap over an external table of keys |
| `LltcFibonacciHeap.FibonacciHeap.Size` | ndnSIM/ns-3/src/ndnSIM/model/lltc/lltc-fibonacci-heap.cpp:65-67 | The number of the objects stored |
| `LltcFibonacciHeap.FibonacciHeap.Insert` | ndnSIM/ns-3/src/ndnSIM/model/lltc/lltc-fibonacci-heap.cpp:31-63 | Exactly the given object is added, and the whole heap invariant is kept |
| `LltcFibonacciHeap.FibonacciHeap.UpdateKey` | ndnSIM/ns-3/src/ndnSIM/model/lltc/lltc-fibonacci-heap.cpp:115-119 | After the owner of the table raised the key of one object, the heap invariant holds again, for the same objects and keys |
| `LltcFibonacciHeap.FibonacciHeap.IncreaseKey` | ndnSIM/ns-3/src/ndnSIM/model/lltc/lltc-fibonacci-heap.cpp:121-135 | Writes the key through to the external table, changes nothing else in it, and restores the invariant |
| `LltcFibonacciHeap.FibonacciHeap.RemoveMax` | ndnSIM/ns-3/src/ndnSIM/model/lltc/lltc-fibonacci-heap.cpp:142-191 | Returns an object of maximal key and removes exactly that one; from an empty heap it returns none and changes nothing; which of several maximal ones comes next is a function of the fields and keys before |
| `LltcGraph.GetLinkOpSide` | ndnSIM/ns-3/src/ndnSIM/model/lltc/lltc-graph.cpp:490-494 | One end of the link if the node is the other end, none if it is at neither |
| `LltcGraph.FindLink` | ndnSIM/ns-3/src/ndnSIM/model/lltc/lltc-graph.cpp:417-425 | A link of the list that ends at the node; none exactly if no link of the list does |
| `LltcGraph.WithVirtAt` | ndnSIM/ns-3/src/ndnSIM/model/lltc/lltc-graph.cpp:388-396 | Joining the spare node adds one link at the end of the vector of each neighbour and the same links, in order, at the spare node; every other vector is untouched |
| `LltcGraph.WithVirtJoined` | ndnSIM/ns-3/src/ndnSIM/model/lltc/lltc-graph.cpp:388-396 | The graph with the spare node is still one of distinct link ids and without self-loops and parallel links |
| `LltcGraph.ErasedLast` | ndnSIM/ns-3/src/ndnSIM/model/lltc/lltc-graph.cpp:371-386 | Erasing a link that was appended last, and not there before, gives the vector back as it was |
| `LltcGraph.LltcGraph.constructor` | ndnSIM/ns-3/src/ndnSIM/model/lltc/lltc-graph.cpp:29-50 | A graph of isolated nodes and one spare node |
| `LltcGraph.LltcGraph.GetLinkByNodeIds` | ndnSIM/ns-3/src/ndnSIM/model/lltc/lltc-graph.cpp:417-425 | The loop returns the first link of the one node that also ends at the other |
| `LltcGraph.LltcGraph.AddLinkDual` | ndnSIM/ns-3/src/ndnSIM/model/lltc/lltc-graph.cpp:322-343 | One link with a new id is entered at both its ends, at the end of both vectors; its second reliability is that of the first direction; the graph stays simple |
| `LltcGraph.LltcGraph.AddVirtLinkDual` | ndnSIM/ns-3/src/ndnSIM/model/lltc/lltc-graph.cpp:345-358 | One link without delay is entered at both its ends under the next virtual id |
| `LltcGraph.LltcGraph.AddVirtNode` | ndnSIM/ns-3/src/ndnSIM/model/lltc/lltc-graph.cpp:388-396 | The spare node is joined to each of the given nodes, in order, and to no other |
| `LltcGraph.LltcGraph.RemoveVirtNode` | ndnSIM/ns-3/src/ndnSIM/model/lltc/lltc-graph.cpp:371-386 | After the spare node was joined to any nodes, removing it leaves all adjacency vectors, and the virtual id counter, exactly as they were before |
| `ShortestPaths.SearchPop` | ndnSIM/ns-3/src/ndnSIM/model/lltc/lltc-resilient-routes-generation-for-drtp-simple.cpp:220-223 | Popping a nearest reached node keeps what is known of the search, up to the links out of that node |
| `ShortestPaths.SearchKeep` | ndnSIM/ns-3/src/ndnSIM/model/lltc/lltc-resilient-routes-generation-for-drtp-simple.cpp:233-236 | A link to a finished node, or one that offers no shorter way, changes nothing |
| `ShortestPaths.SearchImprove` | ndnSIM/ns-3/src/ndnSIM/model/lltc/lltc-resilient-routes-generation-for-drtp-simple.cpp:235-240 | A link that offers a shorter way, or the first one, gives its end a simple walk that is again a shortest one over finished nodes |
| `ShortestPaths.SearchShortest` | ndnSIM/ns-3/src/ndnSIM/model/lltc/lltc-resilient-routes-generation-for-drtp-simple.cpp:200-245 | When every node is finished, each node that any walk leads to has a recorded walk that costs no more |
| `RouteGeneration.RelaxLinks` | ndnSIM/ns-3/src/ndnSIM/model/lltc/lltc-resilient-routes-generation-for-drtp-simple.cpp:225-241 | The inner loop over the links of a popped node keeps the tables, the heap and the search in step, 32-bit wrap-around of sums included |
| `RouteGeneration.TreeFound` | ndnSIM/ns-3/src/ndnSIM/model/lltc/lltc-resilient-routes-generation-for-drtp-simple.cpp:200-245 | The predecessor table of a finished search is a tree of shortest simple paths from the source |
| `RouteGeneration.FillQueue` | ndnSIM/ns-3/src/ndnSIM/model/lltc/lltc-resilient-routes-generation-for-drtp-simple.cpp:213-218 | Every node id, and nothing else, is put into the heap |
| `RouteGeneration.SumsFitWhen` | ndnSIM/ns-3/src/ndnSIM/model/lltc/lltc-resilient-routes-generation-for-drtp-simple.cpp:235-238 | Path sums fit an `int` if the largest delay times the number of links of a simple path does |
| `RouteGeneration.WrapMeans` | ndnSIM/ns-3/src/ndnSIM/model/lltc/lltc-resilient-routes-generation-for-drtp-simple.cpp:235-235 | The sum wraps to the one 32-bit signed value that differs from it by a multiple of 2^32 |
| `RouteGeneration.GenPathDijkstra` | ndnSIM/ns-3/src/ndnSIM/model/lltc/lltc-resilient-routes-generation-for-drtp-simple.cpp:200-245 | For every graph and every pair of forbidden sets: the table leads back from each reachable node along a shortest path over links in neither set, and from each unreachable node never to the source |
| `RouteGeneration.BackReached` | ndnSIM/ns-3/src/ndnSIM/model/lltc/lltc-resilient-routes-generation-for-drtp-simple.cpp:261-271 | From a reached node the predecessors are exactly the nodes of its shortest path, in reverse |
| `RouteGeneration.BackUnreached` | ndnSIM/ns-3/src/ndnSIM/model/lltc/lltc-resilient-routes-generation-for-drtp-simple.cpp:249-255 | From an unreached node the predecessors end without meeting the source |
| `RouteGeneration.FillBack` | ndnSIM/ns-3/src/ndnSIM/model/lltc/lltc-resilient-routes-generation-for-drtp-simple.cpp:261-271 | The second loop enters the nodes of the way back at their places, from the end; it stops short of the first place only at the source |
| `RouteGeneration.ConvertPrevToPath` | ndnSIM/ns-3/src/ndnSIM/model/lltc/lltc-resilient-routes-generation-for-drtp-simple.cpp:247-281 | Rebuilds exactly the node ids of the shortest path found, without the last one if asked; there is none if and only if the destination is unreachable or is the source itself |
| `RouteTiming.MaxRetransTimeout` | ndnSIM/ns-3/src/ndnSIM/model/lltc/lltc-resilient-routes-generation-for-drtp-simple.cpp:164-170 | The largest time any of the sub-paths of a node takes |
| `RouteTiming.QueueAndRetransTimes` | ndnSIM/ns-3/src/ndnSIM/model/lltc/lltc-resilient-routes-generation-for-drtp-simple.cpp:149-171 | Queueing times are the sums of the queueing delays up to each node, and each node with sub-paths has the largest of their times as its timeout |
| `RouteTiming.WaitingTimes` | ndnSIM/ns-3/src/ndnSIM/model/lltc/lltc-resilient-routes-generation-for-drtp-simple.cpp:173-194 | Every waiting timeout equals its sum over the primary path, those for reports for every pair of nodes |
| `RouteTiming.WaitForReports` | ndnSIM/ns-3/src/ndnSIM/model/lltc/lltc-resilient-routes-generation-for-drtp-simple.cpp:188-193 | The inner loop counting back from a node enters the report timeout of each upstream node but the first |
| `RouteTiming.ComputeRetranTimes` | ndnSIM/ns-3/src/ndnSIM/model/lltc/lltc-resilient-routes-generation-for-drtp-simple.cpp:144-198 | All five tables equal their closed forms over the primary path |
| `RouteTiming.WaitsAdd` | ndnSIM/ns-3/src/ndnSIM/model/lltc/lltc-resilient-routes-generation-for-drtp-simple.cpp:188-193 | Report timeouts are additive: the wait of a node for an upstream one is the sum of the waits over any node between them |
| `RouteTiming.WaitsGrow` | ndnSIM/ns-3/src/ndnSIM/model/lltc/lltc-resilient-routes-generation-for-drtp-simple.cpp:188-193 | Report timeouts are not negative and never smaller for a reporter further upstream |
| `RouteTiming.ComputePHI` | ndnSIM/ns-3/src/ndnSIM/model/lltc/lltc-resilient-routes-generation-for-drtp-simple.cpp:307-320 | The loss of a hop is the product of the loss on the link, on every attempt over it, and on each sub-path; given a set, only the sub-paths in it count |
| `RouteTiming.ComputeResilientRouteEEFR` | ndnSIM/ns-3/src/ndnSIM/model/lltc/lltc-resilient-routes-generation-for-drtp-simple.cpp:322-354 | The accumulated end-to-end loss rate equals one minus the product of the success rates of all hops |
| `RouteTiming.PassesRate` | ndnSIM/ns-3/src/ndnSIM/model/lltc/lltc-resilient-routes-generation-for-drtp-simple.cpp:322-354 | If links and sub-paths have rates between 0 and 1, so has the end-to-end rate |
| `RouteTiming.PhiFalls` | ndnSIM/ns-3/src/ndnSIM/model/lltc/lltc-resilient-routes-generation-for-drtp-simple.cpp:307-320 | One more sub-path at any node never raises the loss of any hop |
| `RouteTiming.RspNeverHurts` | ndnSIM/ns-3/src/ndnSIM/model/lltc/lltc-resilient-routes-generation-for-drtp-simple.cpp:322-354 | One more sub-path at any node never lowers the end-to-end chance of success |
| `DirectedRoutes.HopLossMeans` | ndnSIM/ns-3/src/ndnSIM/model/lltc/lltc-resilient-routes-generation-for-drtp-simple.cpp:307-320 | The loss of a hop, by the chances to get over its link in the direction of travel and back: without requests and sub-paths, one minus the former; multiplied, by each further request, by the chance that it or its answer is lost, and by each sub-path, by the loss recorded for it; 0 if the direction of travel is perfect |
| `DirectedRoutes.PlainPasses` | ndnSIM/ns-3/src/ndnSIM/model/lltc/lltc-resilient-routes-generation-for-drtp-simple.cpp:322-354 | Without requests and sub-paths a packet gets through with the product of the chances in the direction of travel |
| `DirectedRoutes.TimeoutsAlong` | ndnSIM/ns-3/src/ndnSIM/model/lltc/lltc-resilient-routes-generation-for-drtp-simple.cpp:144-198 | The timeouts by the delays given for each link in the direction of travel, whichever end it was entered from; for a report of losses, by the delays in the direction of entry, which is what the code adds up |
| `RouteTiming.CountedMeans` | ndnSIM/ns-3/src/ndnSIM/model/lltc/lltc-resilient-routes-generation-for-drtp-simple.cpp:309-314 | Given a set, each sub-path in it counts as often as it is listed, and no other |
| `RedundantSubPaths.SearchedSubPath` | ndnSIM/ns-3/src/ndnSIM/model/lltc/lltc-resilient-routes-generation-for-drtp-simple.cpp:51-54 | A shortest path to the spare node, without its last node, is a best way to an upstream node of the primary path in the original graph; if the spare node is unreachable no such way exists |
| `RedundantSubPaths.SumsAlwaysFitWhen` | ndnSIM/ns-3/src/ndnSIM/model/lltc/lltc-resilient-routes-generation-for-drtp-simple.cpp:51-52 | Path sums fit an `int` in the graph and in every graph with the spare node joined if the number of nodes times the largest delay does |
| `RedundantSubPaths.NewRedundantSubPath` | ndnSIM/ns-3/src/ndnSIM/model/lltc/lltc-resilient-routes-generation-for-drtp-simple.cpp:62-79 | The delays up and down are the sums over the sub-path, the loss rate that of all requests failing, and dividing the time of several requests by their number gives back that of one |
| `DirectedRoutes.SubPathAlong` | ndnSIM/ns-3/src/ndnSIM/model/lltc/lltc-resilient-routes-generation-for-drtp-simple.cpp:62-79 | The delays recorded of a sub-path by those given for its links each way: up, down, for one round trip and for all requests |
| `DirectedRoutes.SubPathLoss` | ndnSIM/ns-3/src/ndnSIM/model/lltc/lltc-resilient-routes-generation-for-drtp-simple.cpp:69-75 | The loss recorded of a sub-path: one minus the chance of a round trip for one request, multiplied by that with each further one |
| `RedundantSubPaths.AddPathNodeIdsArrayToLinkIdsSet` | ndnSIM/ns-3/src/ndnSIM/model/lltc/lltc-resilient-routes-generation-for-drtp-simple.cpp:299-305 | Exactly the ids of the links of the path are added to the set |
| `RedundantSubPaths.NextSubPath` | ndnSIM/ns-3/src/ndnSIM/model/lltc/lltc-resilient-routes-generation-for-drtp-simple.cpp:51-90 | One round of the greedy search: a best way over links neither on the primary path nor on earlier sub-paths, or none exists; the graph ends as it began |
| `RedundantSubPaths.SubPathsAt` | ndnSIM/ns-3/src/ndnSIM/model/lltc/lltc-resilient-routes-generation-for-drtp-simple.cpp:49-95 | The sub-paths of a node: at most beta, each a best one among those still free, fewer than beta only if no further one exists; all adjacency lists end exactly as they began |
| `RedundantSubPaths.SubPathRoute` | ndnSIM/ns-3/src/ndnSIM/model/lltc/lltc-resilient-routes-generation-for-drtp-simple.cpp:38-96 | Every sub-path runs over existing links from its node to an upstream node of the primary path, and no node is on it twice |
| `RedundantSubPaths.SubPathsDisjoint` | ndnSIM/ns-3/src/ndnSIM/model/lltc/lltc-resilient-routes-generation-for-drtp-simple.cpp:38-96 | The sub-paths of a node use no link of the primary path, and no link is used by two of them |
| `RedundantSubPaths.LeastRetransDelay` | ndnSIM/ns-3/src/ndnSIM/model/lltc/lltc-resilient-routes-generation-for-drtp-simple.cpp:66-79 | With equal delays both ways, no way back to an upstream node over the links still free has a shorter round trip than the sub-path chosen |
| `RedundantSubPaths.SubPathsAlong` | ndnSIM/ns-3/src/ndnSIM/model/lltc/lltc-resilient-routes-generation-for-drtp-simple.cpp:44-96 | Every node of the primary path but the first has its sub-paths, towards the nodes before it, and no other node has any |
| `RedundantSubPaths.GenResilientRoutes` | ndnSIM/ns-3/src/ndnSIM/model/lltc/lltc-resilient-routes-generation-for-drtp-simple.cpp:36-103 | The routes to one destination: primary path, sub-paths of each node, and the timeouts that follow from them |
| `RedundantSubPaths.GenResilientRoutesVectors` | ndnSIM/ns-3/src/ndnSIM/model/lltc/lltc-resilient-routes-generation-for-drtp-simple.cpp:13-109 | There are routes to a destination exactly if it is reachable and not the source; each is built on a shortest primary path; the graph ends exactly as it began |
| `RedundantSubPaths.GeneratedRates` | ndnSIM/ns-3/src/ndnSIM/model/lltc/lltc-resilient-routes-generation-for-drtp-simple.cpp:75-79 | For links of reliabilities between 0 and 1 the loss rate recorded of every generated sub-path is between 0 and 1, so that the bounds on end-to-end loss apply |
| `SubgraphStatus.LinkIDCollides` | ndnSIM/ns-3/src/ndnSIM/model/lltc/lltc-resilient-routes-subgraph.cpp:127-134 | Exactly when two pairs of 32-bit node ids get one link id: the larger ids are equal, and the smaller ones are equal or differ by 2^31 |
| `SubgraphStatus.LinkIDNotInjective` | ndnSIM/ns-3/src/ndnSIM/model/lltc/lltc-resilient-routes-subgraph.cpp:127-134 | Two different links with one id, beyond the range of node ids |
| `SubgraphStatus.LinkIDExact` | ndnSIM/ns-3/src/ndnSIM/model/lltc/lltc-resilient-routes-subgraph.cpp:127-134 | Below 2^31 a link id stands for one unordered pair, and is neither a path id nor the null id |
| `SubgraphStatus.SearchVirLink` | ndnSIM/ns-3/src/ndnSIM/model/lltc/lltc-resilient-routes-subgraph.cpp:167-178 | Finds an id exactly if the path has a link between the two nodes, in either direction, and then the id of that link |
| `SubgraphStatus.RspStatus` | ndnSIM/ns-3/src/ndnSIM/model/lltc/lltc-resilient-routes-subgraph.cpp:150-161 | Failure exactly if some link of the sub-path is recorded as failed |
| `SubgraphStatus.UpdateRsp` | ndnSIM/ns-3/src/ndnSIM/model/lltc/lltc-resilient-routes-subgraph.cpp:145-162 | A report leaves the map alone unless the sub-path has the link; if it has, the link and the path get their new statuses |
| `SubgraphStatus.Step` | ndnSIM/ns-3/src/ndnSIM/model/lltc/lltc-resilient-routes-subgraph.cpp:142-163 | Handling one more sub-path brings its status up to date and spoils no other entry, although links are shared between sub-paths |
| `SubgraphStatus.UpdateEnds` | ndnSIM/ns-3/src/ndnSIM/model/lltc/lltc-resilient-routes-subgraph.cpp:136-165 | Once all sub-paths were handled every known link has the status reported last and every sub-path is failed exactly if one of its links is |
| `LltcRrSubgraph.NewEgress` | ndnSIM/ns-3/src/ndnSIM/model/lltc/lltc-resilient-routes-subgraph.cpp:25-125 | The virtual links that leave each node: one to the next node, and one for each sub-path back to it, in an order fixed by the routes; every status normal |
| `SubgraphRoutes.LinkIsHop` | ndnSIM/ns-3/src/ndnSIM/model/lltc/lltc-resilient-routes-subgraph.cpp:28-95 | Every virtual link is one of the primary path or a sub-path, with the ends, the path id and the success ratio given for it |
| `SubgraphRoutes.HopHasLink` | ndnSIM/ns-3/src/ndnSIM/model/lltc/lltc-resilient-routes-subgraph.cpp:28-95 | And for each of them there is a virtual link, at the node it leaves |
| `SubgraphRoutes.RspLinkFields` | ndnSIM/ns-3/src/ndnSIM/model/lltc/lltc-resilient-routes-subgraph.cpp:60-80 | The link with the path id of a sub-path leads from its last node to its first one, with the ratio of that sub-path |
| `LltcRrSubgraph.RspNormal` | ndnSIM/ns-3/src/ndnSIM/model/lltc/lltc-resilient-routes-subgraph.cpp:86-93 | The entries made for a sub-path are all normal, its path id among them |
| `LltcRrSubgraph.ComponentIDs` | ndnSIM/ns-3/src/ndnSIM/model/lltc/lltc-resilient-routes-subgraph.cpp:181-192 | Each node gets the number of failed links of the primary path before it |
| `LltcRrSubgraph.ComponentsApart` | ndnSIM/ns-3/src/ndnSIM/model/lltc/lltc-resilient-routes-subgraph.cpp:181-192 | Two nodes of the primary path have different numbers exactly if a link between them has failed |
| `LltcRrSubgraph.RelaxLinks` | ndnSIM/ns-3/src/ndnSIM/model/lltc/lltc-resilient-routes-subgraph.cpp:221-243 | The inner loop skips failed primary links and sub-paths within a segment, and keeps tables, heap and search in step |
| `LltcRrSubgraph.PreferredTree` | ndnSIM/ns-3/src/ndnSIM/model/lltc/lltc-resilient-routes-subgraph.cpp:194-244 | The search finds for every node a way from the source of maximal success ratio among the ways that may be taken, if there is one; which of several it finds depends on the arcs and the order of the links alone |
| `LltcRrSubgraph.LocalLinks` | ndnSIM/ns-3/src/ndnSIM/model/lltc/lltc-resilient-routes-subgraph.cpp:246-284 | The walk back from the destination ends at the local node exactly if the way found passes it, and yields the links before and after it there |
| `LltcRrSubgraph.SumsFitWhen` | ndnSIM/ns-3/src/ndnSIM/model/lltc/lltc-resilient-routes-subgraph.cpp:202-233 | Sums of logarithms fit if no ratio is so small that the sum over a whole path would not |
| `LltcRrSubgraph.NoWayNoLink` | ndnSIM/ns-3/src/ndnSIM/model/lltc/lltc-resilient-routes-subgraph.cpp:246-284 | Without a way to the destination every router is left without a link |
| `LltcRrSubgraph.SkippedNotNeeded` | ndnSIM/ns-3/src/ndnSIM/model/lltc/lltc-resilient-routes-subgraph.cpp:229-231 | Jumping over the sub-paths within an unbroken segment makes no node unreachable |
| `LltcRrSubgraph.RsgStruct.constructor` | ndnSIM/ns-3/src/ndnSIM/model/lltc/lltc-resilient-routes-subgraph.cpp:25-125 | A new subgraph is in order, with no reports |
| `LltcRrSubgraph.RsgStruct.UpdateLinkStatus` | ndnSIM/ns-3/src/ndnSIM/model/lltc/lltc-resilient-routes-subgraph.cpp:136-165 | After any sequence of reports each known link has its last reported status, and each sub-path is failed exactly if some link on it is |
| `LltcRrSubgraph.RsgStruct.ComputePreferredPathID` | ndnSIM/ns-3/src/ndnSIM/model/lltc/lltc-resilient-routes-subgraph.cpp:180-285 | The links up and down at the local node on the best way found, by a table that depends on the arcs and the order of the links alone; none if the node is not on the way |
| `SubgraphRoutes.ShortestIsBest` | ndnSIM/ns-3/src/ndnSIM/model/lltc/lltc-resilient-routes-subgraph.cpp:194-244 | A way found is a route of the best success ratio, summed from the ratios given for links and sub-paths, among all routes that the reports leave open |
| `SubgraphRoutes.ReachedMeans` | ndnSIM/ns-3/src/ndnSIM/model/lltc/lltc-resilient-routes-subgraph.cpp:194-244 | The search reaches exactly the nodes that such a route leads to |
| `SubgraphRoutes.ChosenIsBest` | ndnSIM/ns-3/src/ndnSIM/model/lltc/lltc-resilient-routes-subgraph.cpp:180-285 | If there is a route to a node, the way chosen is one of the best success ratio, and each node on it is told the path ids of the hops after and before it there; all others are told none |
| `SubgraphRoutes.UpLinkAt` | ndnSIM/ns-3/src/ndnSIM/model/lltc/lltc-resilient-routes-subgraph.cpp:246-284 | At each node of the way chosen the link up is the one by which that way enters the node; at the source there is none |
| `LltcRrSubgraph.RsgStruct.UsableMeans` | ndnSIM/ns-3/src/ndnSIM/model/lltc/lltc-resilient-routes-subgraph.cpp:225-231 | In terms of reports: a link of the primary path may be taken exactly if it is not reported failed, a sub-path exactly if a primary link between its ends is, whether or not the sub-path itself has failed |
| `LltcRrSubgraph.RsgStruct.HopMeans` | ndnSIM/ns-3/src/ndnSIM/model/lltc/lltc-resilient-routes-subgraph.cpp:185-192 | A primary link counts as failed in the search exactly if it was last reported so |
| `PreferredWays.HopByHop` | ndnSIM/ns-3/src/ndnSIM/model/lltc/lltc-resilient-routes-subgraph.cpp:180-285 | Routers with the same status map, each with the tree of its own search: if all best ways visit the same nodes, a packet that each sends down its own link goes along a best way from source to destination, without a loop |
| `PreferredWays.DeliveredExactly` | ndnSIM/ns-3/src/ndnSIM/model/lltc/lltc-resilient-routes-subgraph.cpp:180-285 | However each router breaks ties, packets are delivered, if and only if all best ways visit the same nodes |
| `PreferredWays.Strays` | ndnSIM/ns-3/src/ndnSIM/model/lltc/lltc-resilient-routes-subgraph.cpp:246-284 | If a node is on one best way but not on another, there are trees with which the packet gets there and no further |
| `PreferredWays.HopByHopAlike` | ndnSIM/ns-3/src/ndnSIM/model/lltc/lltc-resilient-routes-subgraph.cpp:180-285 | Routers whose searches left one table of predecessors deliver packets, along a best way, exactly if the destination can be reached; if not, packets stay at the source |
| `PreferredWays.SameTable` | ndnSIM/ns-3/src/ndnSIM/model/lltc/lltc-resilient-routes-subgraph.cpp:246-284 | Trees with one table of predecessors give each router the same links |
| `RouterAgreement.PrimTaken` | ndnSIM/ns-3/src/ndnSIM/model/lltc/lltc-resilient-routes-subgraph.cpp:225-231 | The search may take a link of the primary path, of a ratio above 0, exactly if it was last reported normal |
| `RouterAgreement.SameArcs` | ndnSIM/ns-3/src/ndnSIM/model/lltc/lltc-resilient-routes-subgraph.cpp:180-244 | Two routers of one route, told alike of the links of the primary path, have the same links in the same order and search the same arcs, whatever else they were told and in whatever order |
| `RouterAgreement.SameArcsExactly` | ndnSIM/ns-3/src/ndnSIM/model/lltc/lltc-resilient-routes-subgraph.cpp:180-244 | If no link of the primary path has the ratio 0, they search the same arcs exactly if they were told alike |
| `RouterAgreement.DownLinks` | ndnSIM/ns-3/src/ndnSIM/model/lltc/lltc-resilient-routes-subgraph.cpp:180-285 | Every router searches by itself, from its own reports, with the heap as it is coded: if all were told alike of the primary path, ties are broken alike, and the packet goes along a route of the best success ratio to the destination whenever there is a route, and stays at the source if there is none |
| `PreferredWays.TreeAlong` | ndnSIM/ns-3/src/ndnSIM/model/lltc/lltc-resilient-routes-subgraph.cpp:216-244 | Any best way is the one of some tree that a search may find |
| `PreferredWays.RspUsableMeans` | ndnSIM/ns-3/src/ndnSIM/model/lltc/lltc-resilient-routes-subgraph.cpp:225-231 | The search may take a sub-path exactly if a primary link between its ends was last reported failed, whether or not the sub-path itself has failed |
| `PreferredWays.FailedAvoided` | ndnSIM/ns-3/src/ndnSIM/model/lltc/lltc-resilient-routes-subgraph.cpp:225-231 | The search takes no failed sub-path if and only if the primary path is unbroken along each of them |
| `PreferredWays.ChosenAvoidsFailed` | ndnSIM/ns-3/src/ndnSIM/model/lltc/lltc-resilient-routes-subgraph.cpp:180-285 | Under that condition no way that is chosen leads over a failed sub-path |
| `PreferredWays.FailedSubPathTaken` | ndnSIM/ns-3/src/ndnSIM/model/lltc/lltc-resilient-routes-subgraph.cpp:221-243 | A primary path and a sub-path, both broken: the source sends packets down the sub-path |
| `PreferredWays.FailedSubPathChosen` | ndnSIM/ns-3/src/ndnSIM/model/lltc/lltc-resilient-routes-subgraph.cpp:136-285 | The run of reports that leads there |
| `RetransmissionSafety.SafeCapsule` | ndnSIM/ns-3/src/ndnSIM/NFD/daemon/fw/lltc-strategy-service-sublayer-forwarding.cpp:21-72 | Receiving a capsule keeps, whatever 32-bit id it carries: ids in a batch are not ahead of the last one unless received or lost upstream, and ids left to an upstream router are in no batch here and left to it once |
| `RetransmissionSafety.SafeRetranS` | ndnSIM/ns-3/src/ndnSIM/NFD/daemon/fw/lltc-strategy-service-sublayer-retrans-control.cpp:68-123 | So does the answer to a single request |
| `RetransmissionSafety.SafeRetranM` | ndnSIM/ns-3/src/ndnSIM/NFD/daemon/fw/lltc-strategy-service-sublayer-retrans-control.cpp:300-325 | So does the answer to a request of a batch |
| `RetransmissionSafety.SafeReport` | ndnSIM/ns-3/src/ndnSIM/NFD/daemon/fw/lltc-strategy-service-sublayer-retrans-control.cpp:479-551 | So does a report of losses from an upstream router |
| `RetransmissionSafety.SafeBatchTimer` | ndnSIM/ns-3/src/ndnSIM/NFD/daemon/fw/lltc-strategy-service-sublayer-retrans-control.cpp:328-396 | So does the end of a round of a batch |
| `RetransmissionSafety.SafeWaitTimer` | ndnSIM/ns-3/src/ndnSIM/NFD/daemon/fw/lltc-strategy-service-sublayer-retrans-control.cpp:553-571 | So does the end of the time left to an upstream router, even when its record was dropped while the timer stayed scheduled |
| `RetransmissionSafety.SafeStep` | ndnSIM/ns-3/src/ndnSIM/NFD/daemon/fw/lltc-strategy-service-sublayer-retrans-control.cpp:68-571 | Every event that can occur keeps the invariant |
| `RetransmissionSafety.SafeRuns` | ndnSIM/ns-3/src/ndnSIM/NFD/daemon/fw/lltc-strategy-service-sublayer-retrans-control.cpp:68-571 | The invariant holds after every run of 32-bit ids, for any interleaving of messages and timers |
| `RetransmissionSafety.CapsuleKeepsApart` | ndnSIM/ns-3/src/ndnSIM/NFD/daemon/fw/lltc-strategy-service-sublayer-retrans-control.cpp:451-476 | Exactly when a new capsule leaves every id in at most one batch: unless the last id is the largest 32-bit value, so that the scan for gaps wraps to 0 and finds ids still in a batch |
| `RetransmissionSafety.StepKeepsApart` | ndnSIM/ns-3/src/ndnSIM/NFD/daemon/fw/lltc-strategy-service-sublayer-retrans-control.cpp:68-571 | Exactly when any event does: only such a capsule does not |
| `RetransmissionSafety.ExclusiveBatches` | ndnSIM/ns-3/src/ndnSIM/NFD/daemon/fw/lltc-strategy-service-sublayer-retrans-control.cpp:328-571 | For every run of 32-bit ids: no lost id is ever in two outstanding batches if and only if no capsule made the router claim ids again |
| `RetransmissionSafety.UnreservedNeverReclaims` | ndnSIM/ns-3/src/ndnSIM/NFD/daemon/fw/lltc-strategy-service-sublayer-retrans-control.cpp:451-476 | A run in which no packet carries the id reserved for no data has no such capsule |
| `RetransmissionBudgets.BudgetedRuns` | ndnSIM/ns-3/src/ndnSIM/NFD/daemon/fw/lltc-strategy-service-sublayer-retrans-control.cpp:328-396 | After every run: the rounds made for a batch and those still to come are within its budget, and a batch asks only for ids it was opened with |
| `RetransmissionBudgets.RoundsBounded` | ndnSIM/ns-3/src/ndnSIM/NFD/daemon/fw/lltc-strategy-service-sublayer-retrans-control.cpp:328-396 | In every run, each batch is broadcast in at most the configured number of rounds |
| `RetransmissionBudgets.RequestsCovered` | ndnSIM/ns-3/src/ndnSIM/NFD/daemon/fw/lltc-strategy-service-sublayer-retrans-control.cpp:328-396 | In every run, an id is asked for in at most as many rounds as the batches it was put into may have |
| `RetransmissionCounts.OpenedOnce` | ndnSIM/ns-3/src/ndnSIM/NFD/daemon/fw/lltc-strategy-service-sublayer-retrans-control.cpp:451-571 | For every run of 32-bit ids: no id is put into two batches for gaps found here, if and only if no capsule made the router claim ids again |
| `RetransmissionCounts.ReportedAtMostOnce` | ndnSIM/ns-3/src/ndnSIM/NFD/daemon/fw/lltc-strategy-service-sublayer-retrans-control.cpp:479-571 | Over every run of 32-bit ids an id is put into at most one batch for a report |
| `RetransmissionCounts.CapsuleFindsOnce` | ndnSIM/ns-3/src/ndnSIM/NFD/daemon/fw/lltc-strategy-service-sublayer-retrans-control.cpp:451-476 | Exactly when a new capsule puts no id into a second batch for a gap found here |
| `RetransmissionCounts.RequestsBounded` | ndnSIM/ns-3/src/ndnSIM/NFD/daemon/fw/lltc-strategy-service-sublayer-retrans-control.cpp:328-396 | If no capsule made the router claim ids again, an id is asked for in at most twice the configured number of rounds |
| `RetransmissionCounts.CountedRuns` | ndnSIM/ns-3/src/ndnSIM/NFD/daemon/fw/lltc-strategy-service-sublayer-retrans-control.cpp:328-571 | After every run: ids found missing are accounted for as received, lost upstream or in a batch, and ids reported are not left to anyone again |
| `RetransmissionLimits.ForwardedOnce` | ndnSIM/ns-3/src/ndnSIM/NFD/daemon/fw/lltc-strategy-service-sublayer-retrans-control.cpp:98-123 | Over a whole run, across capsules and both kinds of answers, a router sends a data id on at most once; outside RSP state no two packets go out under one name |
| `RetransmissionLimits.SameNameOnRsp` | ndnSIM/ns-3/src/ndnSIM/NFD/daemon/fw/lltc-strategy-service-sublayer-retrans-control.cpp:98-113 | In RSP state two packets can go out under one name: a run that does it |
| `RetransmissionLimits.NamedRuns` | ndnSIM/ns-3/src/ndnSIM/NFD/daemon/fw/lltc-strategy-service-sublayer-retrans-control.cpp:98-113 | After every run each packet sent on has the name that the first packet bringing its id asked for |
| `RetransmissionLimits.SameName` | ndnSIM/ns-3/src/ndnSIM/NFD/daemon/fw/lltc-strategy-service-sublayer-retrans-control.cpp:98-113 | Exactly when two packets sent on have one name: when the packets that first brought their ids asked for one name |
| `RetransmissionLimits.BatchesOverlap` | ndnSIM/ns-3/src/ndnSIM/NFD/daemon/fw/lltc-strategy-service-sublayer-retrans-control.cpp:451-476 | Such a state can be reached, by an answer carrying the reserved id: two batches with one id |
| `RetransmissionLimits.SentRuns` | ndnSIM/ns-3/src/ndnSIM/NFD/daemon/fw/lltc-strategy-service-sublayer-forwarding.cpp:21-72 | After every run each id was sent on at most once, and only if recorded as transmitted |
| `RetransmissionSpec.RecordWith` | ndnSIM/ns-3/src/ndnSIM/NFD/daemon/fw/lltc-strategy-service-sublayer-retrans-control.cpp:402-414 | The first record of the waiting list that holds the id, or none if none does |
| `RetransmissionSpec.MaxOf` | ndnSIM/ns-3/src/ndnSIM/NFD/daemon/fw/lltc-strategy-service-sublayer-retrans-control.cpp:521-534 | The largest element of the set |
| `RetransmissionSpec.NextFreeFirst` | ndnSIM/ns-3/src/ndnSIM/NFD/daemon/fw/lltc-strategy-service-sublayer-retrans-control.cpp:251-258 | The scan for the next id finds the first one that is not taken: every id from the start up to it, over the wrap if need be, is |
| `RetransmissionEffects.CapsuleEffect` | ndnSIM/ns-3/src/ndnSIM/NFD/daemon/fw/lltc-strategy-service-sublayer-forwarding.cpp:21-72 | A new capsule is sent on if there is anywhere to send it, on the sub-path in RSP state; exactly the ids missing before it are put into one new batch and asked for at once, if requests and a path are at hand; the first free id after it is waited for; all else that changes is stated too |
| `RetransmissionEffects.KnownEffect` | ndnSIM/ns-3/src/ndnSIM/NFD/daemon/fw/lltc-strategy-service-sublayer-forwarding.cpp:40-41 | A capsule or an answer that came before changes nothing and is not sent on |
| `RetransmissionEffects.DisabledEffect` | ndnSIM/ns-3/src/ndnSIM/NFD/daemon/fw/lltc-strategy-service-sublayer-forwarding.cpp:34-37 | Without retransmission every capsule is sent on, and nothing else happens |
| `RetransmissionEffects.RetranSEffect` | ndnSIM/ns-3/src/ndnSIM/NFD/daemon/fw/lltc-strategy-service-sublayer-retrans-control.cpp:98-123 | A new answer to a single request is sent on, under the name asked for in RSP state; the id asked for is no longer waited for, while what came, if it is another id, stays among those waited for |
| `RetransmissionEffects.RetranMEffect` | ndnSIM/ns-3/src/ndnSIM/NFD/daemon/fw/lltc-strategy-service-sublayer-retrans-control.cpp:300-325 | A new answer to a request of a batch is sent on, and leaves its batch |
| `RetransmissionEffects.RetranSMissEffect` | ndnSIM/ns-3/src/ndnSIM/NFD/daemon/fw/lltc-strategy-service-sublayer-retrans-control.cpp:74-96 | After a reply that the capsule is missing it is waited for, with a timer, unless it came or is waited for |
| `RetransmissionEffects.ReportEffect` | ndnSIM/ns-3/src/ndnSIM/NFD/daemon/fw/lltc-strategy-service-sublayer-retrans-control.cpp:479-543 | A new report: exactly the ids not reported before are left upstream, with a timer, if the timeout is known; everything reported leaves the batches and is no longer waited for, and the first free id after the largest of those is waited for instead |
| `RetransmissionEffects.NoReportEffect` | ndnSIM/ns-3/src/ndnSIM/NFD/daemon/fw/lltc-strategy-service-sublayer-retrans-control.cpp:486-494 | A report seen before, or an empty one, does nothing but be remembered |
| `RetransmissionEffects.NextTimerEffect` | ndnSIM/ns-3/src/ndnSIM/NFD/daemon/fw/lltc-strategy-service-sublayer-retrans-control.cpp:152-162 | The timer for a single capsule is over: the id is still waited for, without a timer |
| `RetransmissionEffects.BatchTimerEffect` | ndnSIM/ns-3/src/ndnSIM/NFD/daemon/fw/lltc-strategy-service-sublayer-retrans-control.cpp:341-396 | What is left of a batch is asked for once more as long as requests are left and there is a path, and the timer is set again; otherwise nothing is |
| `RetransmissionEffects.WaitTimerEffect` | ndnSIM/ns-3/src/ndnSIM/NFD/daemon/fw/lltc-strategy-service-sublayer-retrans-control.cpp:553-571 | When the time left to an upstream router is over, exactly those of its ids that have not come are put into one new batch and asked for; if all have come, nothing is |
| `RetransmissionLiveness.SentAsDue` | ndnSIM/ns-3/src/ndnSIM/NFD/daemon/fw/lltc-strategy-service-sublayer-forwarding.cpp:21-125 | Over every run: a capsule is sent on exactly as often as it has to be, which is at its first arrival if there is somewhere to send it then, or at each one without retransmission |
| `RetransmissionLiveness.SentExactly` | ndnSIM/ns-3/src/ndnSIM/NFD/daemon/fw/lltc-strategy-service-sublayer-forwarding.cpp:21-125 | Over every run with retransmission: an id is sent on once if the first packet that brought it came when there was somewhere to send it, and never if not |
| `RetransmissionLiveness.SentPacket` | ndnSIM/ns-3/src/ndnSIM/NFD/daemon/fw/lltc-strategy-service-sublayer-forwarding.cpp:102-125 | And the packet sent on is the one that first arrival asked for |
| `RetransmissionLiveness.LeftUntil` | ndnSIM/ns-3/src/ndnSIM/NFD/daemon/fw/lltc-strategy-service-sublayer-retrans-control.cpp:479-571 | Over every run: an id left to an upstream router stays so, with its timer running, until its capsule comes or the timer fires |
| `RetransmissionLiveness.AskedUntil` | ndnSIM/ns-3/src/ndnSIM/NFD/daemon/fw/lltc-strategy-service-sublayer-retrans-control.cpp:300-571 | Over every run: an id in a batch stays in it until its capsule comes or a report names it |
| `RetransmissionRounds.RoundsExactly` | ndnSIM/ns-3/src/ndnSIM/NFD/daemon/fw/lltc-strategy-service-sublayer-retrans-control.cpp:328-396 | Over every run: a batch that still has ids when its timer is over was asked for in exactly as many rounds as are configured, if no round of it lacked a path |
| `RetransmissionControl.LltcDataIdQueue.constructor` | ndnSIM/ns-3/src/ndnSIM/NFD/daemon/fw/lltc-common.cpp:25-27 | An empty queue of the given length |
| `RetransmissionControl.LltcDataIdQueue.Push` | ndnSIM/ns-3/src/ndnSIM/NFD/daemon/fw/lltc-common.cpp:29-45 | Queue, set and time map stay in step; in a queue of positive length nothing is ever forgotten, since the count grows with the contents; in one of length 0 the first push is undefined |
| `RetransmissionControl.LltcDataIdQueue.Pop` | ndnSIM/ns-3/src/ndnSIM/NFD/daemon/fw/lltc-common.cpp:47-54 | Takes out the oldest id, from all three structures |
| `RetransmissionControl.LltcDataIdQueue.GetDataIdAddTime` | ndnSIM/ns-3/src/ndnSIM/NFD/daemon/fw/lltc-common.cpp:64-67 | 0 for an id that is not there |
| `RetransmissionControl.FindNextFree` | ndnSIM/ns-3/src/ndnSIM/NFD/daemon/fw/lltc-strategy-service-sublayer-retrans-control.cpp:251-258 | The loop finds the first id after the given one, wrapping at 2^32, that is neither transmitted nor known as lost upstream, and ends whenever there is one |
| `RetransmissionControl.FindNewLost` | ndnSIM/ns-3/src/ndnSIM/NFD/daemon/fw/lltc-strategy-service-sublayer-retrans-control.cpp:451-466 | Collects exactly the ids of the gap that are not transmitted, not waited for and not known as lost upstream |
| `RetransmissionControl.FindRecord` | ndnSIM/ns-3/src/ndnSIM/NFD/daemon/fw/lltc-strategy-service-sublayer-retrans-control.cpp:402-406 | The loop finds the first record that holds the id |
| `RetransmissionControl.RemoveEvent` | ndnSIM/ns-3/src/ndnSIM/NFD/daemon/fw/lltc-strategy-service-sublayer-retrans-control.cpp:553-562 | The loop drops the first record of the event |
| `RetransmissionControl.NotTransmitted` | ndnSIM/ns-3/src/ndnSIM/NFD/daemon/fw/lltc-strategy-service-sublayer-retrans-control.cpp:562-570 | Exactly the ids of the set that were not transmitted meanwhile |
| `RetransmissionControl.CleanRetranMEvents` | ndnSIM/ns-3/src/ndnSIM/NFD/daemon/fw/lltc-strategy-service-sublayer-retrans-control.cpp:433-449 | Takes one id out of all batches; batches left empty are dropped with their timers, the timers of all others stay |
| `RetransmissionControl.CleanAll` | ndnSIM/ns-3/src/ndnSIM/NFD/daemon/fw/lltc-strategy-service-sublayer-retrans-control.cpp:520-548 | The loop over all ids known as lost upstream does to waiting ids and batches what taking out the whole set at once would do, and finds the largest id that was waited for |
| `RetransmissionControl.CapsuleForwardingStates.constructor` | ndnSIM/ns-3/src/ndnSIM/NFD/daemon/fw/lltc-strategy.hpp:94-106 | The initial state of a prefix |
| `RetransmissionControl.CapsuleForwardingStates.CheckAndRecordRetransmittedDataId` | ndnSIM/ns-3/src/ndnSIM/NFD/daemon/fw/lltc-strategy-service-sublayer-retrans-control.cpp:610-619 | Tells whether the id is new and records it for good |
| `RetransmissionControl.CapsuleForwardingStates.WaitForNextCapsule` | ndnSIM/ns-3/src/ndnSIM/NFD/daemon/fw/lltc-strategy-service-sublayer-retrans-control.cpp:126-150 | Starts waiting for an id, with a timer, unless it is waited for already |
| `RetransmissionControl.CapsuleForwardingStates.WaitForNextAfter` | ndnSIM/ns-3/src/ndnSIM/NFD/daemon/fw/lltc-strategy-service-sublayer-retrans-control.cpp:251-258 | Starts waiting for the next free id |
| `RetransmissionControl.CapsuleForwardingStates.CleanWaitForNextEvent` | ndnSIM/ns-3/src/ndnSIM/NFD/daemon/fw/lltc-strategy-service-sublayer-retrans-control.cpp:215-224 | Stops waiting for an id and cancels its timer; tells whether it was waited for |
| `RetransmissionControl.CapsuleForwardingStates.CleanWaitForRequestMEvents` | ndnSIM/ns-3/src/ndnSIM/NFD/daemon/fw/lltc-strategy-service-sublayer-retrans-control.cpp:402-414 | The id leaves the first record that holds it; the record is dropped, its timer cancelled only if nothing is left |
| `RetransmissionControl.CapsuleForwardingStates.BroadcastRequestMAndWaitForRetranMRecursive` | ndnSIM/ns-3/src/ndnSIM/NFD/daemon/fw/lltc-strategy-service-sublayer-retrans-control.cpp:337-396 | One round for what is left of a batch, with a timer for the next; an empty batch is dropped |
| `RetransmissionControl.CapsuleForwardingStates.BroadcastRequestMAndWaitForRetranM` | ndnSIM/ns-3/src/ndnSIM/NFD/daemon/fw/lltc-strategy-service-sublayer-retrans-control.cpp:328-335 | Opens a batch under the next number and broadcasts its first round |
| `RetransmissionControl.CapsuleForwardingStates.CleanRetranMEventsOf` | ndnSIM/ns-3/src/ndnSIM/NFD/daemon/fw/lltc-strategy-service-sublayer-retrans-control.cpp:416-431 | An answered id leaves its batch; a batch found empty is dropped with its timer |
| `RetransmissionControl.CapsuleForwardingStates.DiscoverLostCapsules` | ndnSIM/ns-3/src/ndnSIM/NFD/daemon/fw/lltc-strategy-service-sublayer-retrans-control.cpp:451-476 | Opens one batch for the ids missing between the last one and this one, if there are any |
| `RetransmissionControl.CapsuleForwardingStates.OnReceiveCapsule` | ndnSIM/ns-3/src/ndnSIM/NFD/daemon/fw/lltc-strategy-service-sublayer-forwarding.cpp:21-72 | The handler does to the state, and sends, what the step of the specification says |
| `RetransmissionControl.CapsuleForwardingStates.OnReceiveRetranSMiss` | ndnSIM/ns-3/src/ndnSIM/NFD/daemon/fw/lltc-strategy-service-sublayer-retrans-control.cpp:74-96 | So does a reply that the capsule is missing |
| `RetransmissionControl.CapsuleForwardingStates.OnReceiveRetranS` | ndnSIM/ns-3/src/ndnSIM/NFD/daemon/fw/lltc-strategy-service-sublayer-retrans-control.cpp:98-123 | So does a reply with a capsule |
| `RetransmissionControl.CapsuleForwardingStates.OnReceiveRetranM` | ndnSIM/ns-3/src/ndnSIM/NFD/daemon/fw/lltc-strategy-service-sublayer-retrans-control.cpp:300-325 | So does a reply to a request of a batch |
| `RetransmissionControl.CapsuleForwardingStates.DeferTo` | ndnSIM/ns-3/src/ndnSIM/NFD/daemon/fw/lltc-strategy-service-sublayer-retrans-control.cpp:496-519 | Ids new to the router are left to the upstream one for a while, if it is known, and recorded as lost upstream |
| `RetransmissionControl.CapsuleForwardingStates.YieldAll` | ndnSIM/ns-3/src/ndnSIM/NFD/daemon/fw/lltc-strategy-service-sublayer-retrans-control.cpp:520-548 | Nothing known as lost upstream is waited for or asked for any more |
| `RetransmissionControl.CapsuleForwardingStates.OnReceiveReport` | ndnSIM/ns-3/src/ndnSIM/NFD/daemon/fw/lltc-strategy-service-sublayer-retrans-control.cpp:479-551 | The handler of a report does what the step of the specification says; a report seen before does nothing |
| `RetransmissionControl.CapsuleForwardingStates.WaitForNextCapsuleDelayedTask` | ndnSIM/ns-3/src/ndnSIM/NFD/daemon/fw/lltc-strategy-service-sublayer-retrans-control.cpp:152-180 | The timer for one capsule fires: the entry stays, its timer is gone |
| `RetransmissionControl.CapsuleForwardingStates.BatchTimerFires` | ndnSIM/ns-3/src/ndnSIM/NFD/daemon/fw/lltc-strategy-service-sublayer-retrans-control.cpp:337-396 | The timer of a batch fires: the next round, or the end |
| `RetransmissionControl.CapsuleForwardingStates.WaitToRequestM` | ndnSIM/ns-3/src/ndnSIM/NFD/daemon/fw/lltc-strategy-service-sublayer-retrans-control.cpp:553-571 | The time left to an upstream router is over: a batch for those of its ids that did not come |
| `LsaFlooding.FloodingEnds` | ndnSIM/ns-3/src/ndnSIM/NFD/daemon/fw/lltc-strategy-forwarding-sublayer-path-control.cpp:47-67 | In every run of deliveries and losses, transmissions and the run itself are bounded by the sum of all degrees and the originator's; no router relays or applies an id twice |
| `LsaFlooding.SpreadsWithoutLoss` | ndnSIM/ns-3/src/ndnSIM/NFD/daemon/fw/lltc-strategy-forwarding-sublayer-path-control.cpp:47-67 | As long as nothing is lost, every neighbour of a router that has sent the id knows it or has it coming |
| `LsaFlooding.AllReached` | ndnSIM/ns-3/src/ndnSIM/NFD/daemon/fw/lltc-strategy-forwarding-sublayer-path-control.cpp:47-67 | If nothing is lost, once nothing is in flight every router connected to the originator has applied the id exactly once |
| `LsaFlooding.LsaRouter.OnReceiveLsa` | ndnSIM/ns-3/src/ndnSIM/NFD/daemon/fw/lltc-strategy-forwarding-sublayer-path-control.cpp:47-67 | A known id is dropped; an unknown one is noted, sent over all faces and applied |
| `LsaFlooding.DeliverTo` | ndnSIM/ns-3/src/ndnSIM/NFD/daemon/fw/lltc-strategy-forwarding-sublayer-path-control.cpp:47-67 | What the router does on a packet is what the step of the network model says |
| `EchoTables.Undisturbed` | ndnSIM/ns-3/src/ndnSIM/NFD/daemon/fw/lltc-strategy-forwarding-sublayer-path-control.cpp:32-217 | For every run of draws, answers and ends, whatever ids are drawn: a test has at all times the list and the records it would have if it ran alone, if and only if no event of another test overwrites one of its records with something else or erases one |
| `EchoTables.UndisturbedVerdict` | ndnSIM/ns-3/src/ndnSIM/NFD/daemon/fw/lltc-strategy-forwarding-sublayer-path-control.cpp:155-189 | Such a test concludes about every face what it would conclude if it ran alone |
| `EchoTables.OthersStep` | ndnSIM/ns-3/src/ndnSIM/NFD/daemon/fw/lltc-strategy-forwarding-sublayer-path-control.cpp:155-212 | Exactly when one event of another test leaves a test its records |
| `EchoTables.DrawByOther` | ndnSIM/ns-3/src/ndnSIM/NFD/daemon/fw/lltc-strategy-forwarding-sublayer-path-control.cpp:204-212 | What a draw by another test leaves of what a test can tell of a face: an id that both drew counts for the new face, unanswered, also in the list of the first |
| `EchoTables.DrawChanges` | ndnSIM/ns-3/src/ndnSIM/NFD/daemon/fw/lltc-strategy-forwarding-sublayer-path-control.cpp:155-212 | Exactly when a draw by another test changes what a test concludes about some face: the id is in its list, and the new record, or the loss of the old one, says what its other echoes do not |
| `EchoTables.RedrawChanges` | ndnSIM/ns-3/src/ndnSIM/NFD/daemon/fw/lltc-strategy-forwarding-sublayer-path-control.cpp:155-212 | Exactly when it matters to a test that it draws an id of its own again, and not an unused one |
| `EchoTables.EndChanges` | ndnSIM/ns-3/src/ndnSIM/NFD/daemon/fw/lltc-strategy-forwarding-sublayer-path-control.cpp:155-189 | Exactly when the end of one test changes what another concludes about some face: it erases a record of an id both have drawn, on which the conclusion of the other rests |
| `EchoTables.DrawRight` | ndnSIM/ns-3/src/ndnSIM/NFD/daemon/fw/lltc-strategy-forwarding-sublayer-path-control.cpp:204-212 | Exactly when a draw leaves lists and records in agreement with the history, each id in the list of the test that drew it last and in no other: when there is no record for it |
| `EchoTables.RightExactly` | ndnSIM/ns-3/src/ndnSIM/NFD/daemon/fw/lltc-strategy-forwarding-sublayer-path-control.cpp:32-217 | For every run: they agree with the history at all times if and only if no id is drawn that has a record |
| `EchoTables.VerdictMeans` | ndnSIM/ns-3/src/ndnSIM/NFD/daemon/fw/lltc-strategy-forwarding-sublayer-path-control.cpp:155-189 | Where they agree, a test concludes about exactly the faces it has sent echoes on, normal exactly if one of those echoes was answered |
| `EchoTables.FreshUndisturbed` | ndnSIM/ns-3/src/ndnSIM/NFD/daemon/fw/lltc-strategy-forwarding-sublayer-path-control.cpp:155-217 | If no id is drawn that has a record, no test disturbs another |
| `LinkTests.LinkMeasurementState.FreshVerdict` | ndnSIM/ns-3/src/ndnSIM/NFD/daemon/fw/lltc-strategy-forwarding-sublayer-path-control.cpp:155-189 | Then a test of a router concludes from its own echoes and their answers, and as it would alone |
| `LinkTests.LinkMeasurementState.UpdateFaceStatsWithLinkTestStates` | ndnSIM/ns-3/src/ndnSIM/NFD/daemon/fw/lltc-strategy-forwarding-sublayer-path-control.cpp:155-189 | Each face for which an id in the list of the test has a record becomes normal exactly if such a record is answered, and failed if not; other faces are left alone; the records of all ids in the list go, whichever test drew them last |
| `LinkTests.LinkMeasurementState.SendEcho` | ndnSIM/ns-3/src/ndnSIM/NFD/daemon/fw/lltc-strategy-forwarding-sublayer-path-control.cpp:204-212 | One echo is recorded as waiting under the id drawn, whether or not the id is in use; lists and records stay those that the history leads to |
| `LinkTests.LinkMeasurementState.BroadcastEchos` | ndnSIM/ns-3/src/ndnSIM/NFD/daemon/fw/lltc-strategy-forwarding-sublayer-path-control.cpp:191-217 | One echo on each face to a router, or on the given one only, under any ids |
| `LinkTests.EchoesMean` | ndnSIM/ns-3/src/ndnSIM/NFD/daemon/fw/lltc-strategy-forwarding-sublayer-path-control.cpp:191-217 | One echo goes out on each face to a router, or on the given one only, and none on the others |
| `LinkTests.LinkMeasurementState.RunLinkTestsAndDoUpdate` | ndnSIM/ns-3/src/ndnSIM/NFD/daemon/fw/lltc-strategy-forwarding-sublayer-path-control.cpp:142-153 | A round of a test sends its echoes and changes no face; its end concludes and advertises; the statuses told to the other routers stay those of the faces, over any run of tests and any ids drawn |
| `LinkTests.CollectStatuses` | ndnSIM/ns-3/src/ndnSIM/NFD/daemon/fw/lltc-strategy-forwarding-sublayer-path-control.cpp:156-177 | The loop: a face is listed exactly if an id of the list has a record for it, and as normal exactly if such a record is answered; an id without a record adds nothing |
| `LinkTests.CollisionDisturbs` | ndnSIM/ns-3/src/ndnSIM/NFD/daemon/fw/lltc-strategy-forwarding-sublayer-path-control.cpp:155-212 | A run of the router in which two tests draw one id: the first concludes that a face it never probed has failed and erases the record, so that the second, though answered, concludes nothing |
| `LinkTests.LinkMeasurementState.constructor` | ndnSIM/ns-3/src/ndnSIM/NFD/daemon/fw/lltc-strategy.hpp:68-79 | No tests, all faces normal, nothing advertised |
| `LinkTests.LinkMeasurementState.StartLinkTest` | ndnSIM/ns-3/src/ndnSIM/NFD/daemon/fw/lltc-strategy-forwarding-sublayer-path-control.cpp:136-138 | A test of a new id, without echoes |
| `LinkTests.LinkMeasurementState.OnReceiveBack` | ndnSIM/ns-3/src/ndnSIM/NFD/daemon/fw/lltc-strategy-forwarding-sublayer-path-control.cpp:32-45 | An answer marks exactly the record of its echo, if there is one |
| `LinkTests.LinkMeasurementState.BroadcastingLsaTask` | ndnSIM/ns-3/src/ndnSIM/NFD/daemon/fw/lltc-strategy-forwarding-sublayer-path-control.cpp:220-286 | Advertises exactly if some face has a status that its router was not told last; afterwards every status has been told |
| `LinkTests.LinkStatesMean` | ndnSIM/ns-3/src/ndnSIM/NFD/daemon/fw/lltc-strategy-forwarding-sublayer-path-control.cpp:220-250 | An advertisement lists every face to a router, with its status, and nothing else |
| `LinkTests.StatusDiffers` | ndnSIM/ns-3/src/ndnSIM/NFD/daemon/fw/lltc-strategy-forwarding-sublayer-path-control.cpp:231-242 | The loop over the last advertisement: whether the router is missing in it, or listed first with another status |
| `LinkTests.ToldAfter` | ndnSIM/ns-3/src/ndnSIM/NFD/daemon/fw/lltc-strategy-forwarding-sublayer-path-control.cpp:220-249 | An advertisement tells the status of every face if and only if faces to one router agree; else it is due again each time |
| `LinkTests.ParallelFacesRepeat` | ndnSIM/ns-3/src/ndnSIM/NFD/daemon/fw/lltc-strategy-forwarding-sublayer-path-control.cpp:142-286 | A run with two faces to one router in which an unchanged advertisement is sent again |
| `Resequencer.TakeRun` | ndnSIM/ns-3/src/ndnSIM/apps/lltc-pdc.cpp:236-245 | Sends, from the top, consecutive ids after the last one, and stops only where the next one is not on top |
| `Resequencer.DropExpired` | ndnSIM/ns-3/src/ndnSIM/apps/lltc-pdc.cpp:249-262 | Drops from the front what has waited long enough and finds the largest id of it; what is left has not waited that long |
| `Resequencer.TakeUpTo` | ndnSIM/ns-3/src/ndnSIM/apps/lltc-pdc.cpp:264-273 | Sends, from the top, every packet up to the given id, and none beyond |
| `Resequencer.TakenInOrder` | ndnSIM/ns-3/src/ndnSIM/apps/lltc-pdc.cpp:236-273 | Sending from the top of the queue neither loses nor restores order: the output is strictly increasing with what is queued behind it exactly if it was before |
| `Resequencer.Released` | ndnSIM/ns-3/src/ndnSIM/apps/lltc-pdc.cpp:235-274 | Both parts of a release keep conservation, the times and the reasons for skipped ids, and order exactly, and in order they leave exactly what is neither next in line nor due |
| `Resequencer.ReleasedExpired` | ndnSIM/ns-3/src/ndnSIM/apps/lltc-pdc.cpp:249-273 | So does the second part alone, and nothing that has waited the full time is left |
| `Resequencer.MadeRoom` | ndnSIM/ns-3/src/ndnSIM/apps/lltc-pdc.cpp:204-209 | Sending the top of a full queue keeps them too |
| `Resequencer.LltcResequenceQueue.constructor` | ndnSIM/ns-3/src/ndnSIM/apps/lltc-pdc.cpp:181-187 | An empty queue: nothing received, nothing sent |
| `Resequencer.LltcResequenceQueue.ReleaseQueue` | ndnSIM/ns-3/src/ndnSIM/apps/lltc-pdc.cpp:235-274 | Packets sent and queued are together exactly those received; no queued packet has waited for the maximal time; an id is skipped only when a packet of that or a larger id has waited that long; order is neither lost nor gained; and in order, exactly what is next in line, that is in an unbroken run of ids after the last one sent, or due, that is not above the id of a packet that has waited the full time, has been sent |
| `Resequencer.LltcResequenceQueue.ReceiveData` | ndnSIM/ns-3/src/ndnSIM/apps/lltc-pdc.cpp:193-229 | Exactly the packet received is added to what is sent or queued; the output and what is queued behind it are in strictly increasing order afterwards if and only if they were before and the id fits: it is new, above the last one sent, and, with a full queue, above the one sent to make room; it goes out at once if it is the first or the next one, and is queued otherwise, a full queue giving away its top, after which exactly what is next in line or due is sent; the queue never exceeds its size |
| `Resequencer.LltcResequenceQueue.Handle` | ndnSIM/ns-3/src/ndnSIM/apps/lltc-pdc.cpp:193-274 | An arrival or a release does to the queue what one event of a run may do |
| `Resequencer.RunMeans` | ndnSIM/ns-3/src/ndnSIM/apps/lltc-pdc.cpp:193-274 | For every run of arrivals and timed releases: the packets sent and queued are exactly those that arrived, and output and queue are in order at the end if and only if each packet fitted the state it met; the output is then strictly increasing |
| `Resequencer.RunWaits` | ndnSIM/ns-3/src/ndnSIM/apps/lltc-pdc.cpp:193-274 | In every run, no packet left in the queue after a release has waited for the full time |
| `Resequencer.RunReleases` | ndnSIM/ns-3/src/ndnSIM/apps/lltc-pdc.cpp:235-274 | In every run in which each packet fits the state it meets, a release leaves exactly what is neither next in line nor due |
| `Resequencer.RunAll` | ndnSIM/ns-3/src/ndnSIM/apps/lltc-pdc.cpp:193-274 | Any sequence of arrivals and releases makes such a run |
| `PaList.FoundCovers` | ndnSIM/ns-3/src/applications/model/pa-app.cc:194-214 | Looking at the interval found decides whether the whole list covers the id |
| `PaList.Replaced` | ndnSIM/ns-3/src/applications/model/pa-app.cc:216-244 | Replacing neighbouring intervals by one that covers them and one id more keeps the list sorted and disjoint and adds exactly that id |
| `PaList.PaList.constructor` | ndnSIM/ns-3/src/applications/model/pa-app.cc:184-192 | No ids seen |
| `PaList.PaList.CheckPacket` | ndnSIM/ns-3/src/applications/model/pa-app.cc:184-192 | Over any sequence of ids the intervals stay sorted and disjoint, their union is the set of ids seen, and the answer is true exactly on the first appearance of an id; how the number of intervals changes, and exactly when two of them that touch stay apart |
| `PaList.PaList.FindInterval` | ndnSIM/ns-3/src/applications/model/pa-app.cc:194-208 | The last interval that does not start after the id, or none |
| `PaList.PaList.HasId` | ndnSIM/ns-3/src/applications/model/pa-app.cc:210-214 | Whether that interval covers the id |
| `PaList.PaList.AddId` | ndnSIM/ns-3/src/applications/model/pa-app.cc:216-244 | In every branch exactly one id more is covered, and the intervals stay sorted and disjoint; the id is joined to the intervals it touches, unless it comes before the first one |
| `PaList.NotJoined` | ndnSIM/ns-3/src/applications/model/pa-app.cc:216-219 | Two ids that follow on each other, the larger one first, stay two intervals |
| `MessageText.ValuePrint` | ndnSIM/ns-3/src/ndnSIM/NFD/daemon/fw/lltc-messages-helper.cpp:163-203 | The decimal value of a printed number is the number |
| `MessageText.StollPrinted` | ndnSIM/ns-3/src/ndnSIM/NFD/daemon/fw/lltc-messages-helper.cpp:268-287 | The library reads a printed number back, whatever other text follows, exactly if it is below 2^63, and throws if not |
| `MessageText.ParseToUri` | ndnSIM/ns-3/src/ndnSIM/NFD/daemon/fw/lltc-messages-helper.cpp:178-178 | Splitting the text of a name gives back its components |
| `Messages.RetranSRoundTrip` | ndnSIM/ns-3/src/ndnSIM/NFD/daemon/fw/lltc-messages-helper.cpp:163-295 | Parsing undoes printing for every RetranS name, exact, closest or missing, drift included, if and only if the drift is below 2^63; parsing throws if not |
| `Messages.DriftThrows` | ndnSIM/ns-3/src/ndnSIM/NFD/daemon/fw/lltc-messages-helper.cpp:277-279 | A drift that cannot be read back |
| `Messages.WithoutDrift` | ndnSIM/ns-3/src/ndnSIM/NFD/daemon/fw/lltc-messages-helper.cpp:268-287 | A name without a drift is read with drift 0 |
| `Messages.RetranMRoundTrip` | ndnSIM/ns-3/src/ndnSIM/NFD/daemon/fw/lltc-messages-helper.cpp:188-319 | Parsing undoes printing for every RetranM name, exact or closest |
| `Messages.LsaRoundTrip` | ndnSIM/ns-3/src/ndnSIM/NFD/daemon/fw/lltc-messages-helper.cpp:454-498 | Parsing undoes printing for every LSA name, even with dashes in its type |
| `Messages.RetranSWritten` | ndnSIM/ns-3/src/ndnSIM/NFD/daemon/fw/lltc-messages-helper.cpp:163-183 | What such a name looks like, for each of its kinds |
| `Messages.RetranMWritten` | ndnSIM/ns-3/src/ndnSIM/NFD/daemon/fw/lltc-messages-helper.cpp:188-203 | And a RetranM name |
| `Messages.LsaWritten` | ndnSIM/ns-3/src/ndnSIM/NFD/daemon/fw/lltc-messages-helper.cpp:454-480 | And an LSA name |
| `MessagePayloads.EndianRoundTrip` | ndnSIM/ns-3/src/ndnSIM/NFD/daemon/fw/lltc-messages-helper.cpp:33-43 | A number that fits k bytes is read back from the k bytes it was written to |
| `MessagePayloads.EndianBack` | ndnSIM/ns-3/src/ndnSIM/NFD/daemon/fw/lltc-messages-helper.cpp:153-158 | Bytes are those that the number read from them is written to |
| `MessagePayloads.LittleEndianAt` | ndnSIM/ns-3/src/ndnSIM/NFD/daemon/fw/lltc-messages-helper.cpp:33-43 | The i-th byte holds the lowest bits of the number shifted by i bytes |
| `MessagePayloads.PayloadReads` | ndnSIM/ns-3/src/ndnSIM/NFD/daemon/fw/lltc-messages-helper.cpp:77-87 | A payload reads as the count and the words it was made from |
| `MessagePayloads.ReadsPayload` | ndnSIM/ns-3/src/ndnSIM/NFD/daemon/fw/lltc-messages-helper.cpp:153-160 | A payload that reads as a list starts with what that list is written as |
| `MessagePayloads.ConstructIds` | ndnSIM/ns-3/src/ndnSIM/NFD/daemon/fw/lltc-messages-helper.cpp:77-95 | The loops write the count and each id, at its place |
| `MessagePayloads.ExtractIds` | ndnSIM/ns-3/src/ndnSIM/NFD/daemon/fw/lltc-messages-helper.cpp:418-432 | The loop reads as many ids as the payload says, each from its place |
| `MessagePayloads.IdsRoundTrip` | ndnSIM/ns-3/src/ndnSIM/NFD/daemon/fw/lltc-messages-helper.cpp:147-161 | The ids of a RequestM or a Report come back unchanged |
| `MessagePayloads.ConstructLinkStates` | ndnSIM/ns-3/src/ndnSIM/NFD/daemon/fw/lltc-messages-helper.cpp:461-480 | The loops write the count and both words of each link state, at their places |
| `MessagePayloads.ExtractLinkStates` | ndnSIM/ns-3/src/ndnSIM/NFD/daemon/fw/lltc-messages-helper.cpp:500-514 | The loop reads as many link states as the payload says, as signed words |
| `MessagePayloads.LinkStatesRoundTrip` | ndnSIM/ns-3/src/ndnSIM/NFD/daemon/fw/lltc-messages-helper.cpp:461-514 | The link states of an advertisement come back unchanged, negative values included |

## Left out

Limits of the members above:

- LltcGraph.LltcGraph.GetLinkByNodeIds: links are found by the identity of their end nodes; a missing node is a precondition.
- LltcGraph.LltcGraph.constructor: the meaning of the three delay parameters of the source's constructor, which only the loaders use.
- LltcGraph.LltcGraph.AddLinkDual: processing and transmission delays of links, and links between a node and itself or parallel to another, which no search expects.
- RouteGeneration.GenPathDijkstra: takes a link's first delay in both directions, as the code does; sums over simple paths are required to fit an `int` (`SumsFitWhen` gives a bound on delays that is enough).
- RouteTiming.ComputeRetranTimes: sums of times are unbounded integers, not 32-bit ones; the vectors of a new `ResilientRoutes` are taken to be zero-filled, as its constructor is not part of this model.
- RedundantSubPaths.GenResilientRoutesVectors: the ids given to paths, and the maximal route delay (lines 100 and 111-142).
- RouteTiming.ComputePHI: rates are real numbers, and sub-paths with equal fields are not told apart by identity.
- LltcFibonacciHeap.FibonacciHeap.RemoveMax: keys are exact integers; the rounding of keys to `long` by the key functions is not modelled, nor is the value of a key function after its table is gone.
- LltcRrSubgraph.PreferredTree: logarithms are exact multiples of 1E-10 or minus infinity, and their sums are required to fit a `long`; success ratios are at most 1.
- PreferredWays.HopByHop: leaves open how ties are broken; `RouterAgreement.DownLinks` is about how the code breaks them.
- RouterAgreement.DownLinks: routers that were told different things of the primary path, as while an advertisement is still under way.
- LltcRrSubgraph.RsgStruct.constructor: node ids are made from a non-negative `int`, and path ids of sub-paths are at least 1; reads of absent map entries return the normal status without entering it.
- LltcRrSubgraph.RsgStruct.ComputePreferredPathID: nodes are named by their place on the primary path inside the search.
- RetransmissionControl.CapsuleForwardingStates.OnReceiveCapsule: the content store and the packets of applications; at least one 32-bit id must be free for the next one to be found.
- RetransmissionControl.CapsuleForwardingStates.OnReceiveRetranS: the cleaning of requests for single capsules.
- RetransmissionControl.CapsuleForwardingStates.OnReceiveRetranSMiss: the cleaning of requests for single capsules.
- RetransmissionControl.LltcDataIdQueue.Push: the first push into a queue of length 0 is excluded, since the code then takes the front of an empty queue.
- RetransmissionControl.CapsuleForwardingStates.WaitForNextCapsuleDelayedTask: the requests and reports that follow; only the state of the waiting entry is modelled.
- RetransmissionControl.CapsuleForwardingStates.BroadcastRequestMAndWaitForRetranM: batch numbers are unbounded, not 64-bit; the order of ids in a batch is not kept.
- RetransmissionSafety.ExclusiveBatches: says nothing of ids asked for singly and in a batch at once, which the code does not exclude.
- LsaFlooding.AllReached: one id at a time, since ids do not influence each other; the originator does not record its own id, and applies it again when it comes back.
- LinkTests.LinkMeasurementState.BroadcastEchos: the ids drawn are given for all faces, of which those passed over are not used.
- LinkTests.LinkMeasurementState.OnReceiveBack: round-trip times are not kept.
- Resequencer.LltcResequenceQueue.constructor: a queue size of 0 is excluded, since the code then takes the top of an empty queue.
- Resequencer.LltcResequenceQueue.ReceiveData: when the next release is scheduled, so that `RunMeans` is about releases at any times; which of several packets with one id is on top of the queue is left open.
- PaList.PaList.AddId: branches that no call reaches are shown to be so.
- Messages.RetranSRoundTrip: percent-escapes in names, empty components and prefixes, signatures.
- MessagePayloads.ExtractIds: a payload shorter than its count says is excluded, since the code reads beyond its end.
- MessagePayloads.ExtractLinkStates: likewise.

Not modelled at all:

- Timers are events that may occur while they are pending; the time at which they fire, and the simulator, are left out.
- Requests for single capsules over each RSP with their timers, replies to RequestS and RequestM, and the sending of reports.
- `updatePreferredPathWithLSA` beyond the update of one subgraph, and the estimate of throughput that triggers an active check.
- `computeResilientRouteEEDT` and the other route generators (reroute, static, exhaustive): the arithmetic repeats what is modelled.
- Loaders of graphs and routes, configuration, logging, the programs of the simulations and the start of the applications.
- The MFTP, SDATP and R2T baselines, on-off applications and packet caches.
- Names of CapsuleOnRSP with the flag for retransmission, which no caller builds.
