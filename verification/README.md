# Verified models of ndnSIM routing, consumers and topologies

This project models four parts of an ndnSIM scenario repository in Dafny and proves what they
are for. `dafny verify dfyconfig.toml` checks all of it.

**LFID routing** (loop-free inport-dependent multipath). For every node and destination an
abstract FIB holds DOWNWARD and UPWARD nexthops. The node's own faces are set to infinity while
the distances of its neighbours are computed, and put back. Loop removal takes UPWARD entries
from a priority queue and erases those that can return; dead-end removal runs a worklist that
cascades. The main theorem, `LfidPipeline.LfidDelivers`, spans all of it: a packet that is never
sent back to its sender reaches its destination within n - 1 hops, whatever entries are chosen.
The modules from `Digraph` to `LfidPipeline` follow the code: `FibViews`, `LoopChecks` and
`DeadEndChecks` hold what one destination's FIB means and both passes as transition systems over
any order of steps; `AbstractFibs`, `NodePriorities`, `LoopRemoval`, `DeadEndRemoval`,
`LfidMetrics` and `LfidRoutes` are the objects and loops, each proved to perform those steps.
`QueueOrders` shows that the queues leave nothing open and which entry each one takes next,
`TieExample` when the queue aborts, and `QueueExample` a network on which its order decides the
result; `SmallNetworks` computes the rows of such networks from their metrics.

**Shortest paths with the first face.** `ShortestPaths` is Dijkstra over the adaptor's own pairs
of first face and cost, its comparison, combination, zero and infinity of 65535. `Routes` and
`AllRoutes` install routes from it, the second with face metrics rewritten and restored.
`RouteExample` and `MetricExamples` hold networks on which a promise fails.

**The consumer.** `RttEstimators`, `Windows` and `Consumers` give the state machine, the classes
`RttMeanDeviation`, `WindowControl` and `ConsumerApp` the objects that follow it in place.
`ConsumerRuns` defines runs: sends, answers and timer checks in any sequence, answers also
repeated or late, with a log of what was sent and answered when. `ConsumerTheorems` states what
holds in every state of every run, and `ConsumerOutcomes` what each event then does, in terms of
that log.

**Rocketfuel topologies.** `Components`, `NodeRanks`, `RankRounds` and `RocketfuelMaps` take a parsed
map to the final topology: trimming to a largest component, ranking, joining the backbone, filtering
links, and trimming again. The reader keeps vertices and neighbours in sets ordered by address, so
one order of the nodes governs every loop; theorems hold for every such order.

## Where the code departs from its comments or promises

- The abort in loop removal (helper/lfid/remove-loops.cpp, line 232) tests the arc opposite to the
  entry, not the arc that is about to be removed. It fires on ordinary networks: on four nodes with
  symmetric metrics, two of them equally far from the destination, LFID has no result once the
  metric between these two is 2 or more (`TieExample.NoResultFromTwoOn`).
  `LoopChecks.AbortsIffRisky` is the exact condition over all orders of checks. For the one order
  of the code's queue it holds in one direction only: without risk there is no abort, but
  with metric 1 the same network is risky and the queue completes
  (`TieExample.AbortsFromTwoOn`). What is exact for the queue is that it decides:
  `QueueOrders.LoopRemovalIsDecided` shows that a view either aborts or has one outcome, and
  `LfidPipeline.CalculateLfidRoutes` fails exactly when some view aborts.
  `LfidPipeline.SymmetricNeverAborts` rules that out for symmetric metrics without ties. Everything
  else about loop removal is stated for every run that returns.
- LFID remembers metrics by neighbour, so two links to one neighbour are restored correctly only
  when their metrics agree: `LfidMetrics.RestoredIffParallelAgree`, and
  `MetricExamples.ParallelMetricIsLost` for an instance.
- The calculation of all possible routes keeps metrics in 16 bits. They are all back exactly when
  they fit: `AllRoutes.RestoredIffNarrow`, and `MetricExamples.WideMetricIsLost` for an instance.
- `AbstractFib::erase` and the dead-end worklist read an element after erasing it. The model
  erases a copy, which is what both intend; the branch marked TODO in `erase` is then never
  taken (`NodeFibs.EraseEntry`).
- The topology reader's header says that gateways are the nodes beside clients. The ranks spread
  through nodes of small degree before those become clients, so a node beside a client can end as
  backbone. `DocumentedRanks.HeaderHoldsIff` is the exact condition on the map for the header to
  hold in every order of the nodes. On the map of `GatewayExample.ClientIsDropped` it fails in every
  order, the client loses all its links, and the final trimming drops it; `ClientLinks` states for
  every map which clients keep a link and which are dropped. The header also counts nodes without
  links as clients; the code does not.
- BIC's increase shrinks the window by one when it first passes the low window before any decrease,
  because its target is then still 0 (`Windows.BicFirstStepsBack`).
- Installed routes lead a packet to its origin as long as the faces of these routes have positive
  metrics (`Routes.RoutesReachOrigin`). Metrics of 0 are accepted, and then exact routes of two
  nodes may lead over each other (`RouteExample.PacketsMayNeverArrive`).

## Demands on inputs

LFID networks have node ids from 0, at least two nodes, a face of its own for every link, positive
16-bit metrics, and at most one link from one node to another. Metrics need not be symmetric unless
a row says so. Theorems about runs of the consumer ask for gains strictly between 0
and 1, an initial window of at least one, and reduction factors in range, and for runs that neither
use up the 32-bit numbers nor outgrow the largest representable window. Parsed maps are undirected.

## Model

| member | source | states |
|---|---|---|
| LfidPipeline.LfidDelivers | helper/lfid/remove-loops.cpp:145-345 | on every LFID network and for every destination, packets that never go back to their sender reach it within n - 1 hops and never revisit a node, whatever nexthop each hop picks |
| LfidPipeline.LfidIsSafe | helper/lfid/remove-loops.cpp:145-345 | the result is loop-free, has no dead ends, keeps every DOWNWARD entry, and leaves entries at every node that can reach the destination |
| LfidPipeline.SymmetricIsGreatest | helper/lfid/remove-loops.cpp:289-335 | with symmetric metrics and no ties the result is, of what loop removal leaves of the first view, the greatest sub-FIB whose UPWARD entries all lead to the destination or to a node with a choice |
| LfidPipeline.SymmetricNeverAborts | helper/lfid/remove-loops.cpp:228-232 | with symmetric metrics and no ties no order of checks reaches the abort |
| LfidPipeline.CalculateLfidRoutes | helper/lfid/ndn-global-routing-helper-lfid.cpp:41-172 | all face metrics are restored; it fails exactly when the view of some destination makes loop removal abort, which takes a risky view; otherwise the FIB objects show the LFID result of every destination; on symmetric networks without ties it never fails |
| LfidPipeline.LfidIsUnique | helper/lfid/remove-loops.cpp:145-345 | a destination has at most one result: the orders of the queue and of the worklist leave nothing open |
| LfidPipeline.AbortsOrResult | helper/lfid/remove-loops.cpp:228-232 | a destination whose view makes the queue abort has no result |
| LfidPipeline.AllFibs | helper/lfid/ndn-global-routing-helper-lfid.cpp:55-169 | one FIB per node whose rows are exactly the classified entries; the consistency check at the end of each always passes |
| LfidPipeline.FilledPasses | helper/lfid/abstract-fib.cpp:148-172 | a FIB filled by LFID meets everything the consistency check asks for |
| LfidRoutes.NodeFib | helper/lfid/ndn-global-routing-helper-lfid.cpp:57-167 | the FIB of one node; the metrics overwritten on the way are all back |
| LfidRoutes.FillRow | helper/lfid/ndn-global-routing-helper-lfid.cpp:138-163 | fills exactly the entries over neighbours whose total cost stays below infinity, each insertion succeeding |
| LfidRoutes.FillOver | helper/lfid/ndn-global-routing-helper-lfid.cpp:139-163 | one more neighbour: the row then holds exactly the entries over the neighbours done |
| LfidRoutes.EntryOver | helper/lfid/ndn-global-routing-helper-lfid.cpp:139-162 | no entry for a neighbour that would loop back, else one of the right cost, extra cost and type; the cost check holds |
| LfidRoutes.NeighbourDistances | helper/lfid/ndn-global-routing-helper-lfid.cpp:99-116 | distances from each neighbour while the faces of the node are at infinity |
| LfidMetrics.DisableFaces | helper/lfid/ndn-global-routing-helper-lfid.cpp:85-97 | every face of the node is at infinity and the metrics are remembered by neighbour |
| LfidMetrics.RestoreFaces | helper/lfid/ndn-global-routing-helper-lfid.cpp:118-126 | metrics come back by neighbour: all of them exactly when links to one neighbour agree |
| LfidMetrics.RestoredIffParallelAgree | helper/lfid/ndn-global-routing-helper-lfid.cpp:94-126 | exact condition under which remembering metrics by neighbour restores them all |
| MetricExamples.ParallelMetricIsLost | helper/lfid/ndn-global-routing-helper-lfid.cpp:94-126 | two links to one neighbour, of metrics 1 and 2: the first face ends with the metric of the second |
| LfidRows.DisablingIsDeleting | helper/lfid/ndn-global-routing-helper-lfid.cpp:85-116 | distances with the faces at infinity equal distances without the outgoing arcs |
| LfidRows.NeverCheaperThanShortest | helper/lfid/ndn-global-routing-helper-lfid.cpp:144-146 | the check that a neighbour total is at least the shortest cost never fails |
| LfidRows.ExactClassification | helper/lfid/ndn-global-routing-helper-lfid.cpp:141-158 | DOWNWARD exactly when the neighbour is truly nearer, although the compared distance avoids the node |
| LfidRows.EntryMeans | helper/lfid/ndn-global-routing-helper-lfid.cpp:138-163 | the cost of an entry is the metric of its link and the distance from there without the holder, its extra cost what that exceeds the shortest by, and its type DOWNWARD if and only if the neighbour is truly nearer |
| LfidRows.ReachableHasDownward | helper/lfid/abstract-fib.cpp:156-169 | a node that can reach the destination has a DOWNWARD entry |
| LfidRows.EntriesAreUseful | helper/lfid/ndn-global-routing-helper-lfid.cpp:144-162 | an entry stands for a neighbour that reaches the destination, at a cost within the checked limits and a non-negative extra cost |
| LfidRows.RowIsSingle | helper/lfid/abstract-fib.cpp:165-170 | a row has at most one entry per neighbour |
| LfidRows.ViewsAreWellFormed | helper/lfid/ndn-global-routing-helper-lfid.cpp:129-167 | for every destination: DOWNWARD arcs strictly decrease the distance, UPWARD ones do not, and every non-empty row has a DOWNWARD entry |
| LfidRows.SymmetricIsOpposed | helper/lfid/remove-loops.cpp:310-327 | with symmetric metrics and no ties every UPWARD entry has a DOWNWARD one in the opposite direction |
| Delivery.Delivers | helper/lfid/remove-loops.cpp:145-345 | loop freedom and no dead ends alone give delivery within n - 1 hops under any obeying strategy |
| Delivery.NeverRevisits | helper/lfid/remove-loops.cpp:183-246 | a packet that is never sent back visits no node twice |
| Delivery.AlwaysContinues | helper/lfid/remove-loops.cpp:289-335 | a packet that has not arrived always has a nexthop other than its sender |
| Delivery.SimpleCyclesAreTwoHops | helper/lfid/remove-loops.cpp:183-246 | in a loop-free FIB every simple directed cycle has length two |
| Delivery.SomeStrategyObeys | helper/lfid/remove-loops.cpp:289-335 | strategies that obey a safe FIB exist, so the delivery theorem is not empty |
| LoopChecks.LoopFreedom | helper/lfid/remove-loops.cpp:183-246 | whenever the checks complete, in any order, no remaining UPWARD entry can return without its opposite arc |
| LoopChecks.CheckKeepsSound | helper/lfid/remove-loops.cpp:188-240 | earlier negative checks survive later erasures; what is erased looped |
| LoopChecks.ChecksAreBounded | helper/lfid/remove-loops.cpp:183-245 | every check settles another UPWARD entry, so there are at most as many checks as entries |
| LoopChecks.AbortsIffRisky | helper/lfid/remove-loops.cpp:230-232 | over all orders of checks: some order aborts if and only if an UPWARD entry loops at the outset whose opposite arc is absent or is itself a looping UPWARD entry; for the order of the queue this gives only that a view without risk never aborts |
| QueueOrders.LoopRemovalIsDecided | helper/lfid/remove-loops.cpp:162-246 | the queue has one run on a checked view: it aborts, or it leaves exactly one view, and never both |
| QueueOrders.FirstIsUnique | helper/lfid/remove-loops.cpp:88-93 | at any time only one pending entry comes first in the queue |
| QueueOrders.FirstIff | helper/lfid/remove-loops.cpp:88-93 | which pending entry comes first, said in numbers: most nexthops left at its node, then highest extra cost, then cost, then nexthop id, then node id, each deciding only between equals of the one before |
| QueueOrders.DeadEndRemovalIsDecided | helper/lfid/remove-loops.cpp:267-336 | the ordered worklist leaves exactly one view |
| QueueOrders.FirstOfWorkIff | helper/lfid/remove-loops.cpp:267-295 | which entry of the worklist comes first: lowest node id, then extra cost, then cost, then nexthop id |
| QueueExample.ExampleIsView | helper/lfid/ndn-global-routing-helper-lfid.cpp:129-165 | the rows that LFID computes for node 2 on a symmetric network of six nodes with ties |
| QueueExample.ExampleIsCleared | helper/lfid/remove-loops.cpp:183-246 | the nine checks of the queue there, in its order, and what they erase |
| QueueExample.ExampleIsTrimmed | helper/lfid/remove-loops.cpp:289-335 | the two entries that dead-end removal then erases, the second because of the first |
| QueueExample.ExampleResult | helper/lfid/remove-loops.cpp:145-345 | so LFID has exactly one result there |
| LoopChecks.OpposedIsSafe | helper/lfid/remove-loops.cpp:230-232 | with a DOWNWARD entry opposite to every UPWARD one there is no such risk |
| TieExample.TiedIsLfid | helper/lfid/ndn-global-routing-helper-lfid.cpp:81-97 | a network of four nodes with symmetric metrics, two of them equally far from node 0, meets all demands of LFID, whatever the metric between these two |
| TieExample.TiedIsView | helper/lfid/ndn-global-routing-helper-lfid.cpp:129-165 | the rows that LFID computes on that network for node 0 |
| TieExample.AbortsFromTwoOn | helper/lfid/remove-loops.cpp:183-246 | that view is always risky, yet the queue aborts exactly when the metric between the tied nodes is 2 or more |
| TieExample.NoResultFromTwoOn | helper/lfid/remove-loops.cpp:228-232 | with such a metric LFID aborts on the network and has no result for node 0 |
| TieExample.QueueOrderCompletes | helper/lfid/remove-loops.cpp:183-246 | with metric 1 the queue completes and erases the two entries to node 1 |
| TieExample.QueueOrderAborts | helper/lfid/remove-loops.cpp:183-246 | from metric 2 on, in the order of the queue, the second check aborts |
| LoopRemoval.RemoveLoops | helper/lfid/remove-loops.cpp:145-256 | every destination ends loop-free with only UPWARD entries erased and the count of removals exact; it fails only where some order of checks aborts |
| LoopRemoval.RemoveLoopsFor | helper/lfid/remove-loops.cpp:157-246 | one destination: the pass performs the checks in queue order on the FIB objects, with every erase finding its entry |
| LoopRemoval.CheckEntry | helper/lfid/remove-loops.cpp:187-240 | one check: the digraph and the FIB lose the entry exactly when it loops, and it fails exactly at the abort |
| LoopRemoval.BuildQueue | helper/lfid/remove-loops.cpp:161-180 | the queue holds one element per node with UPWARD entries, and the counter is their number |
| LoopRemoval.TopIsFirst | helper/lfid/remove-loops.cpp:88-93 | the top of the queue yields the pending entry that comes first in the order of remaining nexthops, entry and id |
| LoopRemoval.QueueStep | helper/lfid/remove-loops.cpp:183-245 | re-queueing one element keeps the queue in step with the pending entries and the current row size |
| LoopRemoval.EntryGoes | helper/lfid/remove-loops.cpp:223-245 | after an erasure the queue, the digraph and the FIB still describe the same state |
| LoopRemoval.GetDigraphFromFib | helper/lfid/remove-loops.cpp:41-60 | the digraph has exactly the arcs of the FIB entries of the destination |
| Digraph.Search | helper/lfid/remove-loops.cpp:215-220 | the search finds the node exactly when a walk leads to it |
| Digraph.ReachesMonotone | helper/lfid/remove-loops.cpp:201-220 | deleting arcs never creates reachability |
| Digraph.AroundTheCycle | helper/lfid/remove-loops.cpp:183-246 | around a cycle of three or more arcs each tail is reachable from its head without the opposite arc |
| NodePriorities.NodePrio.constructor | helper/lfid/remove-loops.cpp:64-71 | an element that holds its arguments: a non-empty UPWARD set, smaller than the number of nexthops |
| NodePriorities.NodePrio.PopHighestCostUw | helper/lfid/remove-loops.cpp:96-102 | removes and returns the largest UPWARD entry, one fewer being left |
| NodePriorities.NodePrio.ReduceRemainingNh | helper/lfid/remove-loops.cpp:104-110 | one nexthop fewer, and still more nexthops than UPWARD ones |
| NodePriorities.Top | helper/lfid/remove-loops.cpp:88-93 | returns a maximal element of the priority order |
| NodePriorities.KeyTotal | helper/lfid/remove-loops.cpp:88-93 | elements of different nodes are never tied |
| NextHops.LargestExists | helper/lfid/fib-nexthop.hpp:93-100 | an ordered set without equivalent entries has a largest entry |
| DeadEndChecks.NoDeadEndsLeft | helper/lfid/remove-loops.cpp:289-335 | once the worklist is empty, in any order, every node that can be sent a packet has another nexthop than the sender |
| DeadEndChecks.ExamineKeepsSound | helper/lfid/remove-loops.cpp:289-335 | every UPWARD entry is in the worklist or already has such an exit, across the cascading re-push; the worklist stays within the current UPWARD entries |
| DeadEndChecks.StrandedAreRevisited | helper/lfid/remove-loops.cpp:318-333 | an erasure can only strand entries that are pushed again |
| DeadEndChecks.ExamineDecreases | helper/lfid/remove-loops.cpp:289-335 | the pair of UPWARD entries left and worklist size decreases lexicographically, although entries are pushed again |
| DeadEndChecks.RevisitIsUpward | helper/lfid/remove-loops.cpp:325-330 | the entries pushed again are UPWARD, so the check there never fails |
| DeadEndChecks.HeadsHaveEntries | helper/lfid/remove-loops.cpp:305-308 | the head of a pending entry has at least one entry, so the check there never fails |
| DeadEndChecks.GreatestAlive | helper/lfid/remove-loops.cpp:289-335 | when UPWARD entries are opposed, any order yields the greatest sub-FIB in which every UPWARD target has at least two entries |
| DeadEndChecks.OrderIndependent | helper/lfid/remove-loops.cpp:289-335 | any two complete orders leave the same FIB |
| DeadEndRemoval.RemoveDeadEnds | helper/lfid/remove-loops.cpp:259-345 | every destination ends without dead ends, only UPWARD entries erased, and the count of removals exact |
| DeadEndRemoval.RemoveDeadEndsFor | helper/lfid/remove-loops.cpp:267-336 | one destination: the worklist pass on the FIB objects, first element first |
| DeadEndRemoval.ExamineFirst | helper/lfid/remove-loops.cpp:289-334 | one step on the FIB objects is the step of the transition system |
| DeadEndRemoval.CollectRevisits | helper/lfid/remove-loops.cpp:318-333 | collects exactly the entries that lead back to the node from its DOWNWARD nexthops |
| DeadEndRemoval.BuildWorklist | helper/lfid/remove-loops.cpp:271-285 | the worklist starts as all UPWARD entries |
| DeadEndRemoval.PopFirst | helper/lfid/remove-loops.cpp:292-295 | takes the first element of the ordered worklist |
| AbstractFibs.AbstractFib.constructor | helper/lfid/abstract-fib.cpp:36-75 | a row for every destination but the node itself, all empty |
| AbstractFibs.AbstractFib.Insert | helper/lfid/abstract-fib.cpp:84-99 | adds the entry; upward map and both counters stay consistent |
| AbstractFibs.AbstractFib.Erase | helper/lfid/abstract-fib.cpp:101-126 | erases the first entry to the neighbour from both maps, or reports zero exactly when there is none |
| AbstractFibs.AbstractFib.CheckFib | helper/lfid/abstract-fib.cpp:148-172 | accepts exactly the FIBs with single entries per nexthop, sane costs and a DOWNWARD entry in every non-empty row |
| AbstractFibs.InsertKeeps | helper/lfid/abstract-fib.cpp:84-99 | an insertion keeps the upward map the UPWARD part of the full map and the counters the summed sizes |
| AbstractFibs.ReplaceRow | helper/lfid/abstract-fib.cpp:101-126 | a replaced row keeps the same consistency |
| NodeFibs.EraseEntry | helper/lfid/remove-loops.cpp:227-228 | the erasure of an UPWARD entry of a consistent FIB always finds it |
| NodeFibs.UpwardIsSmaller | helper/lfid/remove-loops.cpp:69-70 | a row with a DOWNWARD entry is larger than its UPWARD part |
| ShortestPaths.Dijkstra | helper/ndn-global-routing-helper.cpp:242-251 | for every vertex the exact distance capped at infinity, with the first face of a path that attains it |
| ShortestPaths.RoundKeepsUnderway | helper/ndn-global-routing-helper.cpp:244-251 | one round settles the nearest vertex and keeps the settled ones final |
| ShortestPaths.AllSettledIsShortest | helper/ndn-global-routing-helper.cpp:244-251 | when all vertices are settled no path is cheaper than the computed distance |
| Networks.DistCharacterised | helper/boost-graph-ndn-global-routing-helper.hpp:186-197 | the distance is the least path cost below infinity, and infinity otherwise |
| Networks.CostConcat | helper/boost-graph-ndn-global-routing-helper.hpp:212-231 | combining weights along concatenated paths adds the costs |
| Networks.FirstFace | helper/boost-graph-ndn-global-routing-helper.hpp:220-230 | the combined weight keeps the first face of the path |
| Networks.FirstEdgeOnShortest | helper/boost-graph-ndn-global-routing-helper.hpp:220-230 | the rest of a shortest path is shortest from the far end of its first link |
| Routes.CalculateRoutes | helper/ndn-global-routing-helper.cpp:221-280 | exactly one route per node and reachable origin, at the exact distance over the first link of a shortest path, and no others |
| Routes.RouteIsConsistent | helper/ndn-global-routing-helper.cpp:259-275 | the far end of a route is nearer by exactly the metric of its face |
| Routes.HopDescends | helper/ndn-global-routing-helper.cpp:259-275 | every hop along installed routes, also over a shared channel to its nearest node, leads no farther, and strictly nearer when the face of the route has a positive metric |
| Routes.RoutesReachOrigin | helper/ndn-global-routing-helper.cpp:235-279 | a packet that follows installed routes, over links and shared channels, never gets farther, makes at most as many hops over positive faces as the distance of its source, and stops only at the origin |
| Routes.ReplacedIsGood | helper/ndn-global-routing-helper.cpp:242-251 | of several best routes any may be installed |
| RouteExample.PacketsMayNeverArrive | helper/ndn-global-routing-helper.cpp:259-275 | with a link of metric 0 two nodes may hold exact routes over each other, and a packet goes back and forth for ever |
| AllRoutes.CalculateAllPossibleRoutes | helper/ndn-global-routing-helper.cpp:283-387 | the routes over every usable net-device face, each at the least cost over that face: all that cost less than a disabled face, and at that very cost all that no free link ties with; metrics end as they began exactly when they fit in 16 bits |
| AllRoutes.RoutesFrom | helper/ndn-global-routing-helper.cpp:316-385 | the routes of one node, each face enabled alone in turn; all other metrics back, narrowed to 16 bits |
| AllRoutes.EnabledOutcome | helper/ndn-global-routing-helper.cpp:335-376 | with one face enabled, a route over it costs exactly the best path over it, and every winning path is found |
| AllRoutes.ViaIsLower | helper/ndn-global-routing-helper.cpp:338-372 | the cost over a face is at most that of any path that starts with it and leaves the node once |
| AllRoutes.ViaIsAttained | helper/ndn-global-routing-helper.cpp:338-372 | and some such path attains it |
| AllRoutes.RestoredIffNarrow | helper/ndn-global-routing-helper.cpp:316-385 | exact condition under which every metric is restored |
| MetricExamples.WideMetricIsLost | helper/ndn-global-routing-helper.cpp:316-385 | a face of metric 65536 ends with metric 0 |
| RttEstimators.RttMeanDeviation.Measurement | utils/ndn-rtt-mean-deviation.cpp:82-103 | the new estimate and deviation, the first sample apart |
| RttEstimators.RttMeanDeviation.SentSeq | utils/ndn-rtt-mean-deviation.cpp:145-161 | flags a number already in the history, else appends it |
| RttEstimators.RttMeanDeviation.AckSeq | utils/ndn-rtt-mean-deviation.cpp:163-187 | removes the number; measures and resets the multiplier only when it was never flagged |
| RttEstimators.RttMeanDeviation.IncreaseMultiplier | utils/ndn-rtt-estimator.cpp:228-234 | doubles the multiplier up to its limit |
| RttEstimators.RttMeanDeviation.Reset | utils/ndn-rtt-mean-deviation.cpp:127-134 | back to the initial state |
| RttEstimators.MeasurementKeepsBounds | utils/ndn-rtt-mean-deviation.cpp:82-103 | for gains in (0,1), the estimate stays between the extreme samples and the deviation between zero and the largest |
| RttEstimators.MultiplierDoubles | utils/ndn-rtt-estimator.cpp:228-234 | the multiplier after k timeouts is the smaller of 2^k and its limit |
| RttEstimators.TimeoutIsBounded | utils/ndn-rtt-mean-deviation.cpp:105-118 | the timeout lies between the smaller of both limits and the maximum |
| RttEstimators.TimeoutFollowsEstimate | utils/ndn-rtt-mean-deviation.cpp:105-118 | between its limits the timeout is the multiplier times the estimate and four deviations |
| RttEstimators.InitialTimeout | utils/ndn-rtt-mean-deviation.cpp:105-118 | before the first sample it is the initial estimate, within its limits |
| RttEstimators.MeasurementFollowsGains | utils/ndn-rtt-mean-deviation.cpp:82-103 | the first gain moves the estimate by its share of the error, the second the deviation; the first sample sets both |
| RttHistories.MeasuredIff | utils/ndn-rtt-mean-deviation.cpp:163-187 | an answer is measured exactly when its number is unanswered and never timed out |
| RttHistories.SentNew | utils/ndn-rtt-mean-deviation.cpp:145-161 | a first transmission keeps the history exact: every unanswered number once, unflagged, with its first sending time |
| RttHistories.SentOld | utils/ndn-rtt-mean-deviation.cpp:145-161 | a repeated transmission or a timeout flags its number and nothing else |
| RttHistories.AckedRemoves | utils/ndn-rtt-mean-deviation.cpp:163-187 | an answer removes exactly its number |
| WindowControls.WindowControl.WindowIncrease | apps/ndn-consumer-pcon.cpp:152-173 | the increase of the chosen algorithm |
| WindowControls.WindowControl.WindowDecrease | apps/ndn-consumer-pcon.cpp:175-209 | suppressed under conservative adaptation until new data is answered; else recovery point, cut, and the floor at the initial window |
| WindowControls.WindowControl.BicIncrease | apps/ndn-consumer-pcon.cpp:212-255 | the three regimes of BIC |
| WindowControls.WindowControl.CubicIncrease | apps/ndn-consumer-pcon.cpp:280-314 | the CUBIC step towards the curve, the cube root given |
| WindowControls.WindowControl.CubicDecrease | apps/ndn-consumer-pcon.cpp:317-343 | the CUBIC cut with fast convergence |
| Windows.IncreaseKeepsSafe | apps/ndn-consumer-pcon.cpp:152-173 | every increase keeps the window safe for its algorithm |
| Windows.DecreaseKeepsSafe | apps/ndn-consumer-pcon.cpp:175-209 | every congestion signal keeps the window safe |
| Windows.BicMoves | apps/ndn-consumer-pcon.cpp:212-255 | BIC moves at most 8/7 up and 1 down per answer |
| Windows.CubicNeverOvershoots | apps/ndn-consumer-pcon.cpp:299-313 | above the threshold CUBIC never passes a target above the window and never shrinks |
| Windows.CubicCurve | apps/ndn-consumer-pcon.cpp:287-292 | the curve starts at the reduced window, never falls, and reaches its plateau after K seconds (section 4.1 of RFC 8312) |
| Windows.CubicWmaxIsKnown | apps/ndn-consumer-pcon.cpp:303-304 | the assertion that a last maximum is known holds above the threshold |
| Windows.DecreaseIsMultiplicative | apps/ndn-consumer-pcon.cpp:175-209 | every decrease is one multiplication with a floor at the initial window, and makes no window above the floor larger |
| Windows.DecreaseEndsSlowStart | apps/ndn-consumer-pcon.cpp:184-202 | an AIMD or CUBIC window is not below its threshold after a decrease |
| Windows.IncreaseStaysOut | apps/ndn-consumer-pcon.cpp:152-173 | and no increase takes it below the threshold again |
| Windows.CubicCutRemembers | apps/ndn-consumer-pcon.cpp:317-343 | the recorded maximum is the window before, or less exactly with fast convergence |
| Windows.CubicRecovers | apps/ndn-consumer-pcon.cpp:280-343 | a reduced CUBIC window stands still at first and does not pass the window before the decrease within K seconds |
| Windows.BicCutSearches | apps/ndn-consumer-pcon.cpp:257-277 | the BIC search range after a cut: its ends, its middle, and when it gives up part of the old window |
| Windows.BicApproaches | apps/ndn-consumer-pcon.cpp:224-243 | binary search approaches its target, never passes it, and sets the next target half way to the maximum |
| Windows.SlowStartThenLinear | apps/ndn-consumer-pcon.cpp:155-162 | an AIMD window grows by one per answer below its threshold, and by one per window of answers above it |
| Windows.CubicFollowsCurve | apps/ndn-consumer-pcon.cpp:299-313 | above its threshold a CUBIC window grows strictly when the curve is above it, by exactly the gap per window of answers, and else stands still |
| Windows.CurveIsCube | apps/ndn-consumer-pcon.cpp:287-292 | the curve is a cube around its plateau, 0.4 above it a second later (section 4.1 of RFC 8312) |
| Windows.BicStartsLinear | apps/ndn-consumer-pcon.cpp:215-223 | BIC is AIMD below its low window of 14 |
| Windows.BicSearches | apps/ndn-consumer-pcon.cpp:224-243 | binary search covers the gap to its target per window of answers, but at most 16, and turns to probing exactly when the maximum is reached |
| Windows.BicProbes | apps/ndn-consumer-pcon.cpp:244-254 | probing doubles its step whenever the window reaches the next target, and ends at a step of 16 |
| Windows.AimdCutThreshold | apps/ndn-consumer-pcon.cpp:178-188 | an AIMD cut leaves the threshold at the reduced window, and the recovery point where the rule puts it |
| Windows.CubicCutExactly | apps/ndn-consumer-pcon.cpp:317-343 | the maximum a CUBIC cut records, with and without fast convergence |
| Windows.BicCutExactly | apps/ndn-consumer-pcon.cpp:257-277 | the maximum a BIC cut records, and that below the low window only size and threshold change |
| Windows.RecoveryIsDelayed | apps/ndn-consumer-pcon.cpp:179-182 | the recovery point lies beyond the next number by the given share of the numbers above the highest answered one |
| Windows.StartsSlow | apps/ndn-consumer-pcon.cpp:88-102 | the first answer finds every algorithm in slow start |
| Windows.StartsFresh | apps/ndn-consumer-pcon.cpp:88-102 | before any decrease a signal is suppressed under conservative adaptation, and the first CUBIC cut takes the window before it for its maximum |
| Windows.BicFirstStepsBack | apps/ndn-consumer-pcon.cpp:224-236 | before any decrease the first step of BIC above its low window goes back by one, since its target is still 0, and the search then aims half way to the largest window |
| ConsumerTheorems.RunsAreGood | apps/ndn-consumer.cpp:110-293 | every state of every run meets all the invariants of books, history, estimator, adaptation and window |
| ConsumerTheorems.NoNumberIsLost | apps/ndn-consumer.cpp:110-293 | each number sent is in exactly one of answered, outstanding and waiting; the delay and count maps hold the unanswered ones; no more are in flight than outstanding |
| ConsumerTheorems.AnsweredIsFinal | apps/ndn-consumer.cpp:158-208 | an answered number stays answered and is never sent again |
| ConsumerTheorems.KarnsRule | utils/ndn-rtt-mean-deviation.cpp:145-187 | over whole runs (section 3 of RFC 2988): the answer to a number updates the estimate and resets the multiplier exactly when it is unanswered and never timed out; it was then sent once, and the sample is the time since |
| ConsumerTheorems.TimeoutsAreBounded | utils/ndn-rtt-mean-deviation.cpp:82-118 | in every run the estimate stays within the samples, the multiplier is the capped power of two of the timeouts since its reset, and the timeout within its limits |
| ConsumerTheorems.WindowsAreSafe | apps/ndn-consumer-pcon.cpp:152-343 | in every run the window stays at or above its floor, AIMD and CUBIC slow-start only before the first decrease, CUBIC knows its last maximum above the threshold, and the BIC bounds are ordered |
| ConsumerTheorems.DecreasesAreBounded | apps/ndn-consumer-pcon.cpp:175-209 | with conservative adaptation a run decreases at most as often as its highest answered number, and each decrease moves the recovery point up after the answer to a number first sent after the last (section 5 of RFC 6675) |
| ConsumerTheorems.GoodAfterTimeouts | apps/ndn-consumer.cpp:110-133 | after a timer check exactly the unexpired numbers are outstanding, and the invariants hold |
| ConsumerOutcomes.TimesAreActual | apps/ndn-consumer.cpp:278-293 | in every state of every run the timer of an outstanding number holds its last sending time, and the delay maps hold the last and the first of the unanswered ones; the count in flight falls short of the outstanding numbers by at most the answers for others |
| ConsumerOutcomes.CheckTimesOutExactly | apps/ndn-consumer.cpp:110-133 | in every run a timer check times out exactly the outstanding numbers last sent at least one timeout ago, in the order of these sendings; they then wait to be sent again |
| ConsumerOutcomes.NothingPastMaximum | apps/ndn-consumer.cpp:180-187 | no run sends a number at or above the maximum, or below the first |
| ConsumerOutcomes.SendOutcome | apps/ndn-consumer.cpp:158-208 | in every run a send takes the least waiting number, else the next new one below the maximum, and starts its timer now; with neither it changes nothing |
| ConsumerOutcomes.DecreasesIff | apps/ndn-consumer-pcon.cpp:175-178 | with conservative adaptation a signal decreases the window exactly when a number beyond the recovery point was answered |
| ConsumerOutcomes.AnswerSteersWindow | apps/ndn-consumer-pcon.cpp:104-136 | in every run an unmarked answer lets the window grow by the rule of its algorithm, and a marked one cuts it to its share, leaves it, or is ignored, as the settings say |
| ConsumerOutcomes.TimeoutSteersWindow | apps/ndn-consumer-pcon.cpp:138-150 | in every run a timeout cuts the window to its share, or leaves it until new data is answered; the plain window falls back only if set to |
| ClockInvariants.SendKeepsTimed | apps/ndn-consumer.cpp:278-293 | a send keeps timers and delays at the times of the actual sendings |
| ClockInvariants.DataKeepsTimed | apps/ndn-consumer.cpp:211-252 | so does an answer |
| ClockInvariants.TimeoutKeepsTimed | apps/ndn-consumer.cpp:264-276 | so does a timeout |
| ClockInvariants.SendKeepsCapped | apps/ndn-consumer.cpp:180-187 | a send keeps all numbers sent between the first and the maximum |
| ConsumerBooks.SendKeepsBooks | apps/ndn-consumer.cpp:158-208 | a send keeps the books and never takes an answered number |
| ConsumerBooks.DataKeepsBooks | apps/ndn-consumer.cpp:211-252 | an answer, also a repeated one, keeps the books |
| ConsumerBooks.TimeoutKeepsBooks | apps/ndn-consumer.cpp:264-276 | a timeout moves its number from outstanding to waiting |
| KarnInvariants.SendKeepsKarn | apps/ndn-consumer.cpp:278-293 | sending keeps history, maps, counts and flags in agreement |
| KarnInvariants.DataKeepsKarn | apps/ndn-consumer.cpp:241-251 | an answer keeps them in agreement |
| KarnInvariants.TimeoutKeepsKarn | apps/ndn-consumer.cpp:264-276 | a timeout keeps them in agreement, now flagged |
| ConsumerInvariants.DataKeepsEstimates | utils/ndn-rtt-mean-deviation.cpp:163-187 | an answer keeps the estimator within the samples seen so far |
| ConsumerInvariants.TimeoutKeepsEstimates | apps/ndn-consumer.cpp:271-273 | a timeout doubles the multiplier and leaves the estimate |
| ConsumerInvariants.DifferenceIsPositive | apps/ndn-consumer-pcon.cpp:179-182 | the assertion that the difference is positive holds, in 32-bit arithmetic, with and without conservative adaptation |
| ConsumerInvariants.DecreasesAreSpaced | apps/ndn-consumer-pcon.cpp:178-182 | the recovery point strictly increases, and a number first sent after the last decrease was answered |
| ConsumerInvariants.DataKeepsWindow | apps/ndn-consumer-pcon.cpp:104-136 | an answer keeps adaptation and window size in order |
| ConsumerInvariants.TimeoutKeepsWindow | apps/ndn-consumer-pcon.cpp:138-150 | a timeout keeps adaptation and window size in order |
| ConsumerApps.ConsumerApp.SendPacket | apps/ndn-consumer.cpp:158-208 | sends the least waiting number, else a new one, else nothing |
| ConsumerApps.ConsumerApp.WillSendOutInterest | apps/ndn-consumer.cpp:278-293 | first-sending times kept, last ones replaced, the count raised, the history told |
| ConsumerApps.ConsumerApp.OnData | apps/ndn-consumer.cpp:211-252 | forgets the number everywhere and updates estimator, window and in-flight count |
| ConsumerApps.ConsumerApp.UpdateWindow | apps/ndn-consumer-pcon.cpp:111-127 | the plain window grows by one; the other follows the mark |
| ConsumerApps.ConsumerApp.OnTimeout | apps/ndn-consumer-pcon.cpp:138-150 | window, in-flight count, multiplier, history and waiting set, in this order |
| ConsumerApps.ConsumerApp.CheckRetxTimeout | apps/ndn-consumer.cpp:110-133 | times out exactly the expired numbers, oldest first, each once |
| ConsumerApps.TimeoutsAreSteps | apps/ndn-consumer.cpp:118-130 | the timer loop is the sequence of timeouts that the runs speak of |
| RocketfuelMaps.RocketfuelMapReader.Read | utils/topology/rocketfuel-map-reader.cpp:340-401 | from the parsed map to the final topology: each step exactly, the ranks as the rounds give them, every node ranked, only allowed links, and, with the flags on, a connected graph and a connected backbone |
| RocketfuelMaps.RocketfuelMapReader.KeepOnlyBiggestConnectedComponent | utils/topology/rocketfuel-map-reader.cpp:669-723 | keeps one whole component, none being larger, with exactly its links |
| RocketfuelMaps.RocketfuelMapReader.ConnectBackboneRouters | utils/topology/rocketfuel-map-reader.cpp:725-789 | adds exactly one link fewer than the backbone has components, all between backbone nodes of components that follow each other, and the backbone is then connected |
| RocketfuelMaps.RocketfuelMapReader.AssignGw | utils/topology/rocketfuel-map-reader.cpp:238-254 | visits the neighbours of a node in order and goes on from those of small degree; terminates on the count of unranked nodes |
| RocketfuelMaps.RocketfuelMapReader.AssignClients | utils/topology/rocketfuel-map-reader.cpp:256-269 | one round: the nodes of one degree become clients in order, each ranking its surroundings |
| RocketfuelMaps.RocketfuelMapReader.AssignRanks | utils/topology/rocketfuel-map-reader.cpp:346-357 | the rounds of all client degrees, and the backbone for the rest |
| RankRounds.RanksAreRanked | utils/topology/rocketfuel-map-reader.cpp:346-357 | clients are exactly the nodes of degrees 1 to the limit, gateways border clients, and a node beside a client is backbone only beyond two clients |
| RankRounds.RoundClassifies | utils/topology/rocketfuel-map-reader.cpp:256-269 | a round classifies every node it visits, in whatever order |
| RankRounds.VisitedSpreads | utils/topology/rocketfuel-map-reader.cpp:238-254 | the recursion ranks nodes only by spreading from its start, and leaves no neighbour of it or of a small node unranked |
| RocketfuelMaps.RocketfuelMapReader.RemoveWrongLinks | utils/topology/rocketfuel-map-reader.cpp:363-394 | keeps exactly the links between ranks that may be linked |
| DocumentedRanks.HeaderHoldsIff | utils/topology/rocketfuel-map-reader.hpp:94-97 | the header holds of every node in every order of the nodes if and only if no node that is no client lies beyond two adjacent clients of one degree up to 3, the least among the neighbours of both the node and the nearer client |
| DocumentedRanks.MisrankedIff | utils/topology/rocketfuel-map-reader.cpp:238-269 | exactly which nodes some order leaves as backbone beside a client |
| DocumentedRanks.BeyondIsMisranked | utils/topology/rocketfuel-map-reader.cpp:242-253 | an order of the nodes that makes such a node backbone: the farther client first, then the nearer one |
| RocketfuelMaps.GatewaysAsDocumented | utils/topology/rocketfuel-map-reader.hpp:94-97 | in a final topology only a node beyond two clients departs from the header, as backbone beside a client |
| RocketfuelMaps.LargestIsBiggest | utils/topology/rocketfuel-map-reader.cpp:681-686 | the component with the largest count is a largest component |
| RocketfuelMaps.JoinNext | utils/topology/rocketfuel-map-reader.cpp:775-788 | one more link joins the next component to the ones before |
| NodeRanks.SpreadExact | utils/topology/rocketfuel-map-reader.cpp:238-254 | which nodes the recursion ranks does not depend on the order: exactly those ranks can spread to |
| NodeRanks.BackboneBesideClient | utils/topology/rocketfuel-map-reader.cpp:242-253 | a node beyond an unranked neighbour of small degree becomes backbone |
| GatewayExample.BackboneBordersClient | utils/topology/rocketfuel-map-reader.cpp:238-269 | six nodes with two adjacent clients of degree 2: in every order of the nodes a backbone node borders a client |
| GatewayExample.ClientIsDropped | utils/topology/rocketfuel-map-reader.cpp:340-401 | and what the reader returns misses one of the two clients, although the map is connected |
| NodeRanks.NewClient | utils/topology/rocketfuel-map-reader.cpp:259-268 | a new client keeps the classification |
| ClientLinks.ClientKeepsLinkIff | utils/topology/rocketfuel-map-reader.cpp:359-395 | in every reading a client keeps a link if and only if it borders a node ranked as gateway |
| ClientLinks.LinkIsDeletedIff | utils/topology/rocketfuel-map-reader.cpp:363-395 | in every reading a link is deleted if and only if one end is a client and the other no gateway; so a gateway loses none, and a backbone node only links to clients |
| ClientLinks.TrimmingDropsClient | utils/topology/rocketfuel-map-reader.cpp:397-401 | the final trimming drops a client without a gateway, unless that client is all that is kept, so whenever any two nodes are still linked; a client with a gateway stays or goes with it |
| NodeRanks.FilterKeepsBackbone | utils/topology/rocketfuel-map-reader.cpp:369-371 | deleting wrong links keeps the backbone connected |
| NodeRanks.ComponentKeepsBackbone | utils/topology/rocketfuel-map-reader.cpp:396-400 | a whole component holds all of a connected backbone or none of it |
| Components.ConnectedComponents | utils/topology/rocketfuel-map-reader.cpp:677 | labels two nodes alike exactly when each reaches the other, every label in use |
| Components.LabelsCountComponents | utils/topology/rocketfuel-map-reader.cpp:764 | any labelling uses as many labels as there are components |
| Components.ReachesWithin | utils/topology/rocketfuel-map-reader.cpp:692-697 | dropping other components loses no connection inside one |

## Left out

- Insertion of abstract FIB entries and routes into the forwarder, prefixes, and link delays: each
  is one more loop over the results proved here.
- NodePriorities.Top: the priority queue is a set of values with a maximal element taken out, not a
  heap; the order among elements is the code's.
- Components.ConnectedComponents: the graph library's search is written directly, as breadth-first
  search; Digraph.Search likewise stands for the unit-weight Dijkstra of the loop check.
- ShortestPaths.Dijkstra: the queue is a set from which some nearest vertex is taken; which of
  several equally short first faces is recorded is left open.
- Routes.RoutesReachOrigin: a packet on a shared channel is followed to a nearest node on it; that
  all nodes on the channel hear it is not modelled.
- AllRoutes.CalculateAllPossibleRoutes: whether a route of cost exactly 65534 is installed when
  another link of the node leads to the origin for free, since the search may take either.
- AllRoutes.RoutesFrom: the same tie at cost 65534.
- AllRoutes.ViaIsAttained: a best path is meant among those that leave the source once, since every
  later use of the source's other links costs 65534.
- LoopChecks.AbortsIffRisky: the condition ranges over all orders of checks; for the order of the
  priority queue only that a view without risk never aborts.
- RocketfuelMaps.RocketfuelMapReader.ConnectBackboneRouters: random choice of end points is an
  arbitrary choice.
- Windows.CubicCurve: floating-point rounding; windows and times are real numbers, and CUBIC's K
  is a given cube root.
- RttEstimators.RttMeanDeviation.SentSeq: the byte count of an entry and the next expected number
  of the base class, which this estimator never reads.
- ConsumerApps.ConsumerApp.SendPacket: scheduling, nonces and Interest encoding; a run may send at
  any time, which includes every schedule of the code.
- ConsumerTheorems.RunsAreGood: `m_active`, Nacks, and changes of attributes during a run; each
  answer carries one number, although the two handlers read different name components.
- The batch consumer, which clears the history while numbers are outstanding.
- Map-file parsing, link bandwidths and delays, node resources, graph output, Zipf-Mandelbrot
  sampling, tracers, and the snake and bolt applications.
