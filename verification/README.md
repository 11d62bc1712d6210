# Arcturus routing and tunnel model

Arcturus is an overlay network. A control plane computes routes between proxies from telemetry;
data proxies aggregate user messages into packets and relay them hop by hop to an origin and
back. This project models, in Dafny, the parts of both planes with the most state and
branching, and proves what they guarantee on every input and in every run.

- **Route search** (`NetworkGraph`, `ShortestPath`, `Routes`, `TieBreaks`, `Optimality`,
  `Subnetworks`, `PathKey`, `Sorting`, `Spur`, `Yen`, `RouteCount`, `RouteOrder`,
  `FairQueries`, `KShortest`): the k-route solver with its shortest-path search. The search
  stops expanding when the destination is first labelled, so the promised top k shortest paths
  are not met in general: `CutOffMissesShortest` gives a network where the answer is not
  shortest. `TieBreaks` shows which costs the search can return, over all ways to break ties,
  `Optimality` says exactly when all of them are shortest, in terms of distances and last
  edges, `PromiseIffForkFair` says exactly when the k-route promise holds on a network and its
  subnetworks, and `OrderIffFair` exactly when it holds on one network between two nodes.
  Completeness always holds: with N simple routes, exactly min(k, N) are returned.
- **Flow solver** (`FlowSearch`, `FlowAccounting`, `Carousel`, `Coverage`, `FlowObjective`,
  `RouteFinding`, `InitialRoutes`, `CarouselTurns`, `ReportedLatency`, `FlowSolver`,
  `Crossings`, `TrustedRuns`, `CheapestWalks`, `CompleteRuns`, `MisleadingRuns`, `ScoreBounds`,
  `Diamond`, `DiamondRun`): the multi-destination solver. Its residual search is exact branch
  and bound; its four ways of recording the current routes agree throughout every run; it fails
  exactly when no search on the idle network succeeds; the answer is the first best state of a
  run whose every step is an iteration of the carousel. A search may go against an edge that
  carries flow. A reported route is then not always a path of the network, and its latency not
  always the true one: `ReportsNoPath` gives a request with such an answer. `TrustedReport`
  gives a condition, known before the call, under which all reported routes are true, and
  `KeptIffSafe` shows that under safe loads nothing weaker will do.
- **ONE-WAN solver** (`Onewan`, `BeamSelection`): randomised search and weighted selection. The
  result is the best of the hundred selections that the random draws determine, for all draws.
- **Graph manager** (`GraphManager`): its edge list meets the assumptions of the solvers.
- **Packets** (`TunnelPacket`): the wire format, with the exact condition for reading back what
  was written. The reader drops a trailing empty sub-packet and pads a short one with zeros;
  the writer keeps the low 16 bits of lengths.
- **Aggregation** (`DeadlineHeap`, `Aggregator`, `TimerHeap`, `MessageFlow`, `AggregatorRuns`,
  `BoundedDelay`, `Misdelivery`): the timer heap with its in-place sifting, and a worker as a
  transition system in which the message handler and the timeout check interleave between their
  critical sections; the heap realises the timers of the system. The first half of the overflow
  condition (content without a timer) turns out to be unreachable. A message is dropped exactly
  when it exceeds an empty buffer, has at least 128 bytes and the timeout is above 20; smaller
  messages, and all under a short timeout, are sent at once. A routing key does not contain the
  port, so a message leaves under the port of the batch it joins; `MisdeliveryIffClash` says
  exactly when that can be foreign.
- **Relaying** (`HopProtocol`, `HopNetwork`): the packet handler, the return route, and a
  network of nodes as a transition system: conservation, no misrouting, progress, and from
  every reachable state a finite continuation in which everything is delivered.

Conventions. Floating-point numbers are reals. Map iteration order, shuffles and ties in a
priority queue are arbitrary, and the theorems hold for all of them; random draws are inputs.
Clocks, request contents and origin answers are inputs. Edge lists are assumed to have proper
names (non-empty, without `->`) and one edge per pair of endpoints, which
`GraphManager.Manager.GetEdges` guarantees. `EdgeRisk` is a parameter with non-negative
results.

`dafny verify dfyconfig.toml` checks everything.

## Model

| member | source | states |
|---|---|---|
| ShortestPath.FindShortestPath | control-plane/routing/core-domain/k-shortest.go:309-418 | no path is returned exactly when no walk avoids the forbidden nodes and reaches the destination; a returned path is simple, priced exactly, no node before its last but one has an edge to the destination, and its stretch up to the last edge is no longer than any walk to any predecessor of the destination; its cost is one that the rounds of the search can end with |
| ShortestPath.PopIsNearest | control-plane/routing/core-domain/k-shortest.go:342-349 | while the destination is unlabelled, the least cost in the queue is no more than the length of any walk to any predecessor of the destination |
| ShortestPath.MinimalPop | control-plane/routing/core-domain/k-shortest.go:342-349 | while the frontier invariant holds, every walk to a node not yet settled is at least as long as the cheapest queue entry |
| ShortestPath.Expand | control-plane/routing/core-domain/k-shortest.go:384-414 | the loop relaxes the edges out of the popped node one after the other |
| ShortestPath.ExpandKeeps | control-plane/routing/core-domain/k-shortest.go:384-414 | relaxing all edges out of a settled node keeps labels, tree and queue in agreement, and the destination is labelled as soon as one of its predecessors is settled |
| ShortestPath.ExhaustedSearch | control-plane/routing/core-domain/k-shortest.go:342-417 | an empty queue without the destination means that the destination is unreachable |
| ShortestPath.BuildPath | control-plane/routing/core-domain/k-shortest.go:351-377 | following the predecessors from the destination gives a simple path from the start whose length is the label of the destination and whose latency is its recorded latency |
| ShortestPath.ExcessBound | control-plane/routing/core-domain/k-shortest.go:379-382 | stopping at the first label of the destination costs at most the difference between the last edges of the returned path and of any other walk |
| ShortestPath.UniformEntryIsShortest | control-plane/routing/core-domain/k-shortest.go:379-382 | when all edges into the destination cost the same the returned path is shortest |
| TieBreaks.ReturnableIffCutOff | control-plane/routing/core-domain/k-shortest.go:342-417 | the costs that some tie-breaking of the queue makes the search return are exactly the lengths of the cut-off paths: up to the last edge shortest among all predecessors, and without an earlier entry into the destination |
| Optimality.ShortestIffNoDearEntry | control-plane/routing/core-domain/k-shortest.go:379-382 | whatever the ties, the search returns a shortest path exactly when no foremost predecessor u and no predecessor v of the destination have d(u) + w(u) > d(v) + w(v), in true distances d and prices w of the last edge |
| Optimality.PositiveForemost | control-plane/routing/core-domain/k-shortest.go:379-382 | with positive prices the foremost predecessors are simply the nearest ones |
| Optimality.FairIsShortest | control-plane/routing/core-domain/k-shortest.go:379-382 | when at every fork towards the destination the tail that is no longer up to its last edge is no longer with it, a cut-off path is shortest |
| Optimality.UniformIsFair | control-plane/routing/core-domain/k-shortest.go:379-382 | equal prices into the destination make every fork fair |
| Subnetworks.UnfairForkMisleads | control-plane/routing/core-domain/k-shortest.go:379-382 | for an unfair fork there is a subnetwork on which the search can return a path that is not shortest |
| Subnetworks.RightIffForkFair | control-plane/routing/core-domain/k-shortest.go:379-382 | the search is right from every start on a network and all its subnetworks exactly when every fork is fair |
| ShortestPath.CutOffMissesShortest | control-plane/routing/core-domain/k-shortest.go:379-382 | on a concrete three-node network every path the search may return costs 5 while a walk of cost 2 exists |
| ShortestPath.DirectEntry | control-plane/routing/core-domain/k-shortest.go:379-382 | a start with an edge to the destination always gets that direct edge, however dear |
| PathKey.SplitJoin | control-plane/routing/core-domain/k-shortest.go:233-257 | splitting a joined key gives the hops back when no name contains the separator |
| PathKey.KeyRoundTrip | control-plane/routing/core-domain/k-shortest.go:233-257 | the key of a path is read back as that path exactly when no name contains the separator |
| PathKey.KeysInjective | control-plane/routing/core-domain/k-shortest.go:441-459 | such paths have equal keys exactly when they are equal |
| Sorting.ExchangeSort | control-plane/routing/core-domain/k-shortest.go:267-274 | the result is sorted and a permutation of the input |
| Spur.RemoveConsecutiveDuplicates | control-plane/routing/core-domain/k-shortest.go:295-307 | the nodes in their order, each run of equal ones reduced to one, so no two neighbours are equal, the same nodes remain, and a simple path is unchanged |
| Spur.HasDuplicateNodes | control-plane/routing/core-domain/k-shortest.go:283-293 | true exactly when the path is not simple |
| Spur.CalculatePathCost | control-plane/routing/core-domain/k-shortest.go:520-537 | the sum over the steps of a node sequence of the price of the edge, nothing where there is no edge |
| Spur.EditSpurEdges | control-plane/routing/core-domain/k-shortest.go:165-191 | what remains at the spur node are exactly the edges that leave the root and that no found path with this root takes next |
| Spur.DeviationSurvives | control-plane/routing/core-domain/k-shortest.go:165-191 | a route through the root that deviates from every found path is still there in the edited graph |
| Spur.SpurCompletes | control-plane/routing/core-domain/k-shortest.go:213-226 | root and spur path together are a simple route whose cost is the sum of both |
| Spur.SpurIsNew | control-plane/routing/core-domain/k-shortest.go:176-191 | the completed route differs from every path found so far |
| Spur.SpurSearch | control-plane/routing/core-domain/k-shortest.go:205-239 | the search on the edited graph never takes the exit that would skip the restoration; afterwards every route that leaves the root by a new step is covered by a queued candidate |
| Spur.SpurIsCheapest | control-plane/routing/core-domain/k-shortest.go:205-226 | when all forks towards the destination are fair, the completed route is no dearer than any route that leaves the root by a new step |
| Spur.SpurStep | control-plane/routing/core-domain/k-shortest.go:149-243 | whatever happens at a spur node, the working copy of the graph ends up equal to the network |
| Yen.GenerateCandidates | control-plane/routing/core-domain/k-shortest.go:148-244 | a full pass keeps the invariant of found paths and candidates, and covers every route that leaves a root of a found path by a new step |
| Yen.Promote | control-plane/routing/core-domain/k-shortest.go:251-264 | moving the cheapest candidate to the results keeps results and candidates different from each other |
| Yen.AddRoute | control-plane/routing/core-domain/k-shortest.go:252-264 | the popped key decodes to its own route, which is appended because it was never found before |
| Yen.MissingIsCovered | control-plane/routing/core-domain/k-shortest.go:147-244 | after a full pass every simple route is found or covered by a candidate |
| Yen.AllRoutesFound | control-plane/routing/core-domain/k-shortest.go:246-249 | a full pass that leaves the queue empty has found every simple route of the network |
| Yen.CheapestKept | control-plane/routing/core-domain/k-shortest.go:251-264 | when all forks towards the destination are fair, no route outside the results is ever cheaper than one inside |
| Yen.CollectRoutes | control-plane/routing/core-domain/k-shortest.go:145-265 | the main loop returns at most k different routes, and fewer only when these are all |
| Yen.YensAlgorithm | control-plane/routing/core-domain/k-shortest.go:124-281 | different simple routes priced exactly and sorted by cost, at most k, all of them when fewer, and the k cheapest when all forks towards the destination are fair; none exactly when the destination is unreachable |
| Yen.PromiseIffForkFair | control-plane/routing/core-domain/k-shortest.go:59-61 | the promise of the k cheapest routes, on a network and all its subnetworks and from every start: it holds for every k exactly when all forks are fair, and otherwise fails already for the first route |
| RouteCount.AllRoutesExact | control-plane/routing/core-domain/k-shortest.go:124-281 | an independent enumeration contains exactly the simple routes from start to end |
| RouteCount.ReturnsMinOfKAndN | control-plane/routing/core-domain/k-shortest.go:145-249 | the number of returned routes is the smaller of k and the number of simple routes of the network |
| RouteOrder.OtherRoots | control-plane/routing/core-domain/k-shortest.go:176-191 | a route that leaves the found ones at one root takes a known step at every other root, so finding it changes the edit at no root but its own |
| RouteOrder.StaysCurrent | control-plane/routing/core-domain/k-shortest.go:148-264 | the candidates that wait are always among those a fresh pass over all roots would offer |
| RouteOrder.CheapestIffRight | control-plane/routing/core-domain/k-shortest.go:145-265 | for a search that answers equal queries equally: all runs find cheapest routes first exactly when the first route and every candidate of every run is cheapest among the routes that leave its root; one dear candidate is found before a cheaper route |
| FairQueries.AnswerExists | control-plane/routing/core-domain/k-shortest.go:309-418 | a query whose destination can be reached has a cut-off path |
| FairQueries.OrderIffFair | control-plane/routing/core-domain/k-shortest.go:145-265 | on one network and for one pair of endpoints, whatever a correct search answers, no route is ever found before a cheaper one, for every k, exactly when no query that a run can issue, the first or a spur query, has a foremost predecessor u and a predecessor v of the destination with d(u) + w(u) > d(v) + w(v) |
| KShortest.BuildGraph | control-plane/routing/core-domain/k-shortest.go:43-50 | adjacency lists in edge order and the set of all endpoints |
| KShortest.AdjacencyWellFormed | control-plane/routing/core-domain/k-shortest.go:43-50 | the adjacency lists of edges with proper names and unique endpoints are a network the searches accept, with the same edges and nodes |
| KShortest.Computing | control-plane/routing/core-domain/k-shortest.go:42-81 | an error exactly when an endpoint is unknown or no route exists; otherwise the descriptions of the k routes |
| FlowSearch.GetSortedEdges | control-plane/routing/core-domain/carousel-greed.go:553-597 | exactly the moves offered at a node, forward with residual capacity and backward along flow, cheapest first |
| FlowSearch.PathSearch.Dfs | control-plane/routing/core-domain/carousel-greed.go:608-680 | branch and bound: on return path and visited set are restored; the incumbent is at least as good as every eligible completion, or, when exploring, nothing was found only if there is none |
| FlowSearch.PathSearch.AtTarget | control-plane/routing/core-domain/carousel-greed.go:614-640 | at the target the incumbent is replaced exactly when the branch is within the bound and, in optimising mode, better and unused |
| FlowSearch.PathSearch.Branch | control-plane/routing/core-domain/carousel-greed.go:655-675 | skipping a visited node or a branch as dear as the incumbent loses no eligible walk |
| FlowSearch.DfsPathSearch | control-plane/routing/core-domain/carousel-greed.go:600-688 | the result is a feasible walk with its exact cost; in optimising mode a cheapest one among those not in use; nothing only when every feasible walk is in use, or none exists |
| FlowAccounting.AllocateFlow | control-plane/routing/core-domain/carousel-greed.go:742-757 | flow rises by one on exactly the edges of the path, residuals follow |
| FlowAccounting.ReleaseFlow | control-plane/routing/core-domain/carousel-greed.go:759-777 | flow falls by one, but not below zero, on exactly the edges of the path |
| FlowAccounting.ReleaseIsExact | control-plane/routing/core-domain/carousel-greed.go:759-777 | for a route held by the solver the flow is at least one on each of its edges, so the lower bound of zero never takes effect and the flows equal the traversals by the remaining routes |
| FlowAccounting.AddRoute | control-plane/routing/core-domain/carousel-greed.go:451-456 | list, flow counters, per-destination counts and used keys still describe the same routes after one more |
| FlowAccounting.RemoveOldest | control-plane/routing/core-domain/carousel-greed.go:394-402 | the same after the oldest route left |
| FlowAccounting.FlowAtMostRoutes | control-plane/routing/core-domain/carousel-greed.go:742-777 | no edge carries more flow than there are routes |
| Carousel.ComputeThetaA | control-plane/routing/core-domain/carousel-greed.go:87-105 | a share between none and all, all of it exactly up to the safe load |
| Carousel.ThetaAMonotone | control-plane/routing/core-domain/carousel-greed.go:87-105 | a higher load never leaves a larger share |
| Carousel.ComputePercentile | control-plane/routing/core-domain/carousel-greed.go:141-174 | the interpolated value at the position of the percentile in the ascending list of the loads, zero without edges |
| Carousel.SortedUnique | control-plane/routing/core-domain/carousel-greed.go:153-160 | two ascending lists of the same loads are equal, so the percentile does not depend on how they were sorted |
| Carousel.PercentileBetween | control-plane/routing/core-domain/carousel-greed.go:160-173 | the percentile lies between the two neighbouring loads |
| Carousel.PercentileMonotone | control-plane/routing/core-domain/carousel-greed.go:160-173 | a higher percentile is never a lower load |
| Carousel.BuildResidualGraph | control-plane/routing/core-domain/carousel-greed.go:507-536 | exactly the given edges, idle, unbanned, each with the effective capacity its load prescribes |
| Carousel.EffectiveWithinCapacity | control-plane/routing/core-domain/carousel-greed.go:507-536 | effective capacity lies between zero and capacity |
| Carousel.BanPathEdges | control-plane/routing/core-domain/carousel-greed.go:779-793 | exactly the edges of the path are marked |
| Carousel.BanKeepsFlows | control-plane/routing/core-domain/carousel-greed.go:779-793 | bans leave the books in agreement |
| Carousel.UnbanAllEdges | control-plane/routing/core-domain/carousel-greed.go:795-804 | no ban is left and nothing else changes |
| Coverage.EdgeKeyInjective | control-plane/routing/core-domain/carousel-greed.go:34-38 | proper names make edge keys unambiguous |
| Coverage.BuildLatencies | control-plane/routing/core-domain/carousel-greed.go:33-38 | the table holds exactly the reported latencies |
| Coverage.ThetaFor | control-plane/routing/core-domain/carousel-greed.go:107-139 | the latency bound is 1.5 times the mean cost over the routes of the three-route query, or the default when that query fails |
| Coverage.CheapestWithinBound | control-plane/routing/core-domain/carousel-greed.go:107-139 | the cheapest route of a destination always meets the bound computed for it |
| Coverage.ForwardWalk | control-plane/routing/core-domain/carousel-greed.go:553-597 | following a route of the network forwards is a residual walk of the same price when every edge has capacity left |
| Coverage.ReachableIsFeasible | control-plane/routing/core-domain/carousel-greed.go:690-732 | in such a network a reachable destination has a feasible walk |
| Coverage.SafeLoadsAreOpen | control-plane/routing/core-domain/carousel-greed.go:507-536 | with all loads safe and fewer routes than capacity, every edge has residual capacity |
| FlowObjective.UsedEdgesTraversed | control-plane/routing/core-domain/carousel-greed.go:806-866 | the counted edges are exactly those some route takes |
| FlowObjective.SumAny | control-plane/routing/core-domain/carousel-greed.go:850-855 | the diversity sum does not depend on the order in which the counters are visited |
| FlowObjective.Objective | control-plane/routing/core-domain/carousel-greed.go:806-866 | the loop over counters computes the score defined by how many routes take each edge, latencies and congestion |
| RouteFinding.FindFeasible | control-plane/routing/core-domain/carousel-greed.go:690-732 | a first attempt finds a cheapest unused feasible route, later ones any feasible route; nothing only when there is none, or the start has no outgoing edge |
| RouteFinding.FeasibleTraces | control-plane/routing/core-domain/carousel-greed.go:553-597 | every step of a found route follows an edge of the network, or goes against one, at its latency, or at nothing, with or without the surcharge of 100 |
| InitialRoutes.FillDestination | control-plane/routing/core-domain/carousel-greed.go:297-339 | at most two routes join, all to this destination and each found in the books as they were, the first a cheapest one; none exactly when no unused feasible route exists, and one only if a later attempt failed or met a route in use |
| InitialRoutes.InitialSolution | control-plane/routing/core-domain/carousel-greed.go:297-346 | the destinations are filled in order from the idle network; books agree; there is no route at all exactly when no destination has a feasible walk on the idle network or the start has no outgoing edge; under safe loads every reachable destination gets one |
| CarouselTurns.GetMostFrequent | control-plane/routing/core-domain/carousel-greed.go:204-216 | a recorded route of maximal frequency; none only without records |
| CarouselTurns.Discourage | control-plane/routing/core-domain/carousel-greed.go:404-416 | exactly the edges of the most frequent route and the first edge of the dropped route are banned, and nothing else changes |
| CarouselTurns.Candidate | control-plane/routing/core-domain/carousel-greed.go:426-445 | an unused route to a destination below its quota that the search finds in the graph with its bans, or the reason why there is none |
| CarouselTurns.Replace | control-plane/routing/core-domain/carousel-greed.go:418-459 | either one such route joins and is recorded once, or nothing changes and no destination has a replacement |
| CarouselTurns.Turn | control-plane/routing/core-domain/carousel-greed.go:386-462 | an iteration is exactly: the oldest route leaves, the discouraged edges are banned, a replacement found under the bans joins or there is none for any destination, the bans are lifted; books and quota survive |
| FlowSolver.Trim | control-plane/routing/core-domain/carousel-greed.go:362-378 | exactly the older half of the routes leaves |
| FlowSolver.Compare | control-plane/routing/core-domain/carousel-greed.go:464-476 | the kept solution is the first of highest score among the initial and all later non-empty states |
| FlowSolver.Spin | control-plane/routing/core-domain/carousel-greed.go:344-477 | a whole run: every state has agreeing books and quota, each follows from the one before by a turn, the run ends after two turns per initial route or when none is left, and the answer is the first best scored state |
| FlowSolver.FlowWithinCapacity | control-plane/routing/core-domain/carousel-greed.go:263-264 | in every state of every run the flow on an edge stays within its capacity |
| FlowSolver.Solve | control-plane/routing/core-domain/carousel-greed.go:281-505 | an error exactly when no destination has a feasible walk on the idle network or the start has no outgoing edge, otherwise the best state of a run |
| FlowSolver.ReportedRoutes | control-plane/routing/core-domain/carousel-greed.go:479-488 | the answer is non-empty and consists of different simple routes of at most thirty nodes from the start to requested destinations within their latency bounds, each made of steps over or against edges whose costs add up to its latency |
| ReportedLatency.LatencyAccount | control-plane/routing/core-domain/carousel-greed.go:560-582 | a reported latency is the length of the path, plus 100 for each banned edge, less the latencies of the hops taken against an edge; the hops are a path exactly when each of those has an edge the other way |
| ReportedLatency.FirstRouteIsTrue | control-plane/routing/core-domain/carousel-greed.go:297-339 | a route found while no edge carries flow is a path of the network with its true latency |
| Crossings.FoundKeeps | control-plane/routing/core-domain/carousel-greed.go:553-597 | while all held routes are paths and no crossing edge is harmful, a search finds only paths; an edge is crossing when the start reaches each of its ends by a simple path around the other, and harmful when it has no opposite; for true latencies the same with bounds below 100, edges crossing within them and opposites without latency |
| TrustedRuns.InitialIsTrusty | control-plane/routing/core-domain/carousel-greed.go:297-339 | without a harmful crossing edge every route of every initial solution is a path, with its true latency where that is asked for |
| TrustedRuns.RunKeeps | control-plane/routing/core-domain/carousel-greed.go:344-477 | and so is every route in every state of every run |
| TrustedRuns.TrustedReport | control-plane/routing/core-domain/carousel-greed.go:479-488 | from what is known before the call: without a harmful crossing edge all reported routes are paths of the network, with bounds below 100 and no edge that is harmful within them also with their true latency |
| MisleadingRuns.HarmfulMisleads | control-plane/routing/core-domain/carousel-greed.go:281-477 | under safe loads a harmful crossing edge u to v makes some complete run for the destinations v and u hold a route that is no path, or not of its reported latency |
| MisleadingRuns.KeptIffSafe | control-plane/routing/core-domain/carousel-greed.go:281-477 | under safe loads the condition is exact: whatever the destinations and bounds within the limit, all routes in all states of all complete runs are paths, or paths with their true latency, if and only if no crossing edge is harmful |
| CheapestWalks.CheapestExists | control-plane/routing/core-domain/carousel-greed.go:600-688 | where an unused feasible walk exists a cheapest one does, so the first attempt of a search has an answer |
| CompleteRuns.TurnExists | control-plane/routing/core-domain/carousel-greed.go:386-462 | an iteration can be completed from every state a run can be in |
| CompleteRuns.RunExists | control-plane/routing/core-domain/carousel-greed.go:344-477 | every initial solution has a complete run |
| Diamond.DiamondBound | control-plane/routing/core-domain/carousel-greed.go:107-139 | on a network of five edges the rule gives the destination the latency bound 14.5 and no other |
| DiamondRun.FillsT | control-plane/routing/core-domain/carousel-greed.go:297-339 | on that network the initial solution may consist of S, A, B, T and then S, B, A, T |
| DiamondRun.ReportsNoPath | control-plane/routing/core-domain/carousel-greed.go:222-505 | for the request from S to T on it, with the bound of the rule and the graph the solver builds, a complete run reports S, B, A, T with latency 12, although no edge leads from B to A |
| FlowSolver.UncongestedIsAnswered | control-plane/routing/core-domain/carousel-greed.go:297-346 | under safe loads a reachable destination has a route in the initial solution, so the solver does not fail |
| FlowSolver.FlowOptimizationSolver.constructor | control-plane/routing/core-domain/carousel-greed.go:32-65 | the solver starts with the latencies and endpoints of its edges |
| FlowSolver.FlowOptimizationSolver.ComputeThetaL | control-plane/routing/core-domain/carousel-greed.go:107-139 | every destination gets the bound the rule prescribes |
| FlowSolver.FlowOptimizationSolver.ValidEnds | control-plane/routing/core-domain/carousel-greed.go:246-255 | the known destinations, in order |
| FlowSolver.FlowOptimizationSolver.ComputingMulti | control-plane/routing/core-domain/carousel-greed.go:222-505 | a request without known start or destination fails; any other fails exactly when no search on its idle residual graph, rated against the 90th percentile of the loads, succeeds, and is otherwise answered from a run over its known destinations |
| Onewan.RandomSearch.Dfs | control-plane/routing/core-domain/onewan-multi.go:358-397 | for every shuffle: the rest of a simple route within the hop limit is appended with its latency, or nothing changes and there is none |
| Onewan.DfsRandomPath | control-plane/routing/core-domain/onewan-multi.go:353-406 | a simple route within the hop limit with its exact latency, none exactly when there is none |
| Onewan.RandomDfsPaths | control-plane/routing/core-domain/onewan-multi.go:316-350 | different routes of at most fifteen edges, at most maxPaths, sorted by latency, none exactly when the destination has no such route or maxPaths is below one |
| Onewan.Describe | control-plane/routing/core-domain/onewan-multi.go:101-115 | neither the removal of repeated hops nor the limit of thirty edges ever changes a sampled route |
| Onewan.GenerateCandidates | control-plane/routing/core-domain/onewan-multi.go:70-154 | candidates for exactly the known destinations within fifteen edges, in the order asked for |
| BeamSelection.Weigh | control-plane/routing/core-domain/onewan-multi.go:162-181 | every candidate gets a positive weight, its share of the inverse latencies or an even share without a latency |
| BeamSelection.InverseToLatency | control-plane/routing/core-domain/onewan-multi.go:173-180 | the weights of two routes are in inverse ratio to their latencies |
| BeamSelection.WeightsAddUp | control-plane/routing/core-domain/onewan-multi.go:173-180 | the weights of routes that all have a latency add up to one |
| Onewan.BuildLoads | control-plane/routing/core-domain/onewan-multi.go:183-187 | the table holds exactly the reported loads |
| BeamSelection.HeldHolds | control-plane/routing/core-domain/onewan-multi.go:215-228 | roulette selection stops at the untaken index that holds the drawn point; the default index is never used |
| BeamSelection.PartIsPicked | control-plane/routing/core-domain/onewan-multi.go:205-239 | whatever the draws: two routes per destination, or the only one, never the same twice |
| BeamSelection.Pick | control-plane/routing/core-domain/onewan-multi.go:205-239 | the loop picks the routes that the draws determine, one draw a pick |
| BeamSelection.ScoreSelection | control-plane/routing/core-domain/onewan-multi.go:234-258 | summing once per processed edge computes latency plus the sharing penalty of every used edge |
| BeamSelection.BeamSearch | control-plane/routing/core-domain/onewan-multi.go:157-300 | whatever the draws: the answer is the first of least score among the hundred selections that they determine |
| Onewan.ComputingMulti | control-plane/routing/core-domain/onewan-multi.go:44-66 | an error exactly when the start is unknown, maxPaths is below one or no destination lies within fifteen edges; otherwise the best selection that the draws give among weighed candidates of every such destination |
| GraphManager.Manager.RemoveNode | control-plane/routing/graph/update-graph.go:68-79 | exactly the edges at the node disappear with it |
| GraphManager.Manager.AddLink | control-plane/routing/graph/update-graph.go:109-148 | a known edge changes its weight only; a new one gets weight, load and latency of the report; a link to an unknown node is ignored |
| GraphManager.Manager.AddNode | control-plane/routing/graph/update-graph.go:101-151 | the telemetry is stored; the edges are those from before and those its links name; one that no link names is unchanged, any other has the risk of one of those links as weight and is otherwise as before or, if new, as one of them describes it |
| GraphManager.Manager.GetEdges | control-plane/routing/graph/update-graph.go:81-89 | each stored edge exactly once; the list meets the assumptions of the solvers |
| GraphManager.OriginNameProper | control-plane/routing/graph/update-graph.go:114-120 | the name of an origin with its port is a proper node name |
| TunnelPacket.RoundTrip32 | data-proxy/tunnel-packet/tunnel-packet.go:108-120 | four big-endian bytes are read back |
| TunnelPacket.HeaderRoundTrip | data-proxy/tunnel-packet/tunnel-packet.go:108-148 | the header written is the header read |
| TunnelPacket.CodecRoundTrip | data-proxy/tunnel-packet/tunnel-packet.go:86-201 | a packet is read back as written exactly when its payload fits the 16-bit length and its last sub-packet is not empty |
| TunnelPacket.EmittedReadBack | data-proxy/tunnel-packet/tunnel-packet.go:108-201 | within these limits header and sub-packets are read back |
| TunnelPacket.ParseEncoded | data-proxy/tunnel-packet/tunnel-packet.go:176-198 | sub-packets shorter than 65536 bytes, the last not empty, are read back from their encoding |
| TunnelPacket.CutTooShort | data-proxy/tunnel-packet/tunnel-packet.go:176-198 | a payload cut before the data of its last sub-packet loses at least that one |
| TunnelPacket.Parse | data-proxy/tunnel-packet/tunnel-packet.go:150-201 | the reader loop computes the specified parse, errors included |
| TunnelPacket.Packet.constructor | data-proxy/tunnel-packet/tunnel-packet.go:36-42 | a packet starts empty behind its header |
| TunnelPacket.Packet.SetHopIP | data-proxy/tunnel-packet/tunnel-packet.go:44-53 | one hop of the header changes, a position outside it is ignored |
| TunnelPacket.Packet.SetHopPos | data-proxy/tunnel-packet/tunnel-packet.go:55-59 | positions within the hop list are taken, others ignored |
| TunnelPacket.Packet.ResetPayload | data-proxy/aggregator/aggregator.go:358-360 | the write position returns to the end of the header, while the payload length still covers what was there until the next append |
| TunnelPacket.Packet.AppendUserPacket | data-proxy/tunnel-packet/tunnel-packet.go:86-106 | the bytes of the sub-packet are appended exactly when they fit the buffer, otherwise nothing changes |
| TunnelPacket.Packet.SerializeHead | data-proxy/tunnel-packet/tunnel-packet.go:108-120 | the header bytes and the payload length describe the packet |
| TunnelPacket.Packet.Emit | data-proxy/aggregator/aggregator.go:352-354 | the bytes sent are the encoding of header and appended sub-packets; a packet emptied since then is sent with what it held before |
| TunnelPacket.AdvanceRawHop | data-proxy/tunnel-packet/tunnel-packet.go:68-72 | the hop position rises by one, unless it is the last, and no other byte changes |
| TunnelPacket.AdvancedHeader | data-proxy/tunnel-packet/tunnel-packet.go:68-72 | an advanced packet has the same header but for its position, and the same payload |
| DeadlineHeap.MinHeap.Push | data-proxy/aggregator/aggregator.go:60-65 | heap order and item positions are kept, one item is added |
| DeadlineHeap.MinHeap.Pop | data-proxy/aggregator/aggregator.go:67-75 | an item with the earliest deadline leaves, the others stay in heap order and know their positions |
| DeadlineHeap.MinHeap.Swap | data-proxy/aggregator/aggregator.go:54-58 | items know their positions after the exchange |
| DeadlineHeap.MinHeap.PopExpired | data-proxy/aggregator/aggregator.go:337-346 | exactly the items that are due leave, earliest first |
| TimerHeap.WorkerTimers.constructor | data-proxy/aggregator/aggregator.go:113-121 | the empty heap realises the initial state of the transition system |
| TimerHeap.WorkerTimers.StartTimer | data-proxy/aggregator/aggregator.go:317-323 | pushing an item realises the step that starts a timer: the items of the heap, in heap order and knowing their positions, stand one for one for the timers of the next state |
| TimerHeap.WorkerTimers.CheckTimeout | data-proxy/aggregator/aggregator.go:332-346 | popping what is due realises the step that takes the expired timers, earliest first, and leaves a heap that stands for the others |
| Aggregator.RefsKept | data-proxy/aggregator/aggregator.go:193-367 | every step keeps batch references valid and every batch under one key |
| Aggregator.TimersKept | data-proxy/aggregator/aggregator.go:317-361 | every step keeps timers and batches paired: one live timer per batch that has one |
| Aggregator.PacketsKept | data-proxy/aggregator/aggregator.go:285-361 | every step keeps batch bytes equal to the encoding of its messages, and content paired with a timer outside critical sections |
| Aggregator.OrphanBatchImpossible | data-proxy/aggregator/aggregator.go:287-289 | a chosen batch never has content without a timer, so overflow happens exactly when the message does not fit |
| MessageFlow.ConservedKept | data-proxy/aggregator/aggregator.go:193-367 | every step keeps each accepted message in exactly one place: handler, batch, flushed packet or dropped |
| MessageFlow.LossesKept | data-proxy/aggregator/aggregator.go:205-325 | every step keeps: all messages dropped have at least 128 bytes and do not fit an empty buffer, under a timeout above 20, and no such message is in a flushed packet |
| MessageFlow.OriginsKept | data-proxy/aggregator/aggregator.go:248-263 | every step keeps routing key, route and port of a batch those of a submitted message with its key |
| AggregatorRuns.RunInvariant | data-proxy/aggregator/aggregator.go:193-367 | all invariants hold in every state of every run |
| AggregatorRuns.DroppedExactly | data-proxy/aggregator/aggregator.go:285-325 | in every reachable state a message is dropped, as often as it was submitted and handled, if it exceeds an empty buffer, has at least 128 bytes and the timeout is above 20, and never otherwise |
| AggregatorRuns.LostIffOversized | data-proxy/aggregator/aggregator.go:205-325 | some run drops a message exactly when it is of that kind |
| AggregatorRuns.LossHappens | data-proxy/aggregator/aggregator.go:205-325 | a run that submits such a message alone drops it |
| AggregatorRuns.NothingDropped | data-proxy/aggregator/aggregator.go:193-367 | without messages of that kind nothing is dropped |
| AggregatorRuns.ContentIffTimer | data-proxy/aggregator/aggregator.go:317-323 | in every reachable state an unlocked batch has content exactly when it has a live timer |
| AggregatorRuns.QuiescentMeansFlushed | data-proxy/aggregator/aggregator.go:332-367 | when handler, heap and expired list are empty, what was flushed is exactly what was submitted |
| AggregatorRuns.LeavesUnderOwnRoute | data-proxy/aggregator/aggregator.go:193-367 | if the routing key determines route and port, every message leaves under its own key, route and port |
| Misdelivery.MisdeliveryIffClash | data-proxy/aggregator/aggregator.go:224-263 | messages out of a set can leave under a foreign port exactly when two of them share a key, are batched and name different ports, and one of them fits a buffer |
| Misdelivery.ClashMisdelivers | data-proxy/aggregator/aggregator.go:224-289 | for any two such messages there is a run in which one leaves under the port of the other |
| Misdelivery.ForeignPort | data-proxy/server/tcp-server.go:318-333 | a run of two messages of 128 bytes for ports 80 and 443 in which one leaves under the wrong port |
| AggregatorRuns.FlushIsReadBack | data-proxy/aggregator/aggregator.go:348-366 | a flushed packet is read back as its messages exactly within the limits of the codec |
| BoundedDelay.FlushedInTime | data-proxy/aggregator/aggregator.go:332-367 | all that waits in batches, counted with multiplicity, has been flushed on top of what was flushed before by the end of any timeout check at least one batch timeout later |
| BoundedDelay.IdleWaiting | data-proxy/aggregator/aggregator.go:332-367 | while no message is being handled, what waits is everything pending |
| HopProtocol.HandleQUICPacket | data-proxy/tunnel-handler.go:16-113 | the handler acts as specified on the received bytes, panics included, and rewrites them only when forwarding |
| HopProtocol.WrapsRound | data-proxy/tunnel-handler.go:77-83 | the next position is a byte: from 255 it wraps to zero, and the packet goes unchanged to its first hop |
| HopProtocol.BuildReturnHops | data-proxy/backsourcer/backsourcer.go:127-137 | the loop computes the reversed non-zero hops without the origin |
| HopProtocol.ReturnRoute | data-proxy/backsourcer/backsourcer.go:127-137 | for a path of three or four hops the return route is the relays backwards |
| HopProtocol.LoadIsReadBack | data-proxy/tunnel-handler.go:25-53 | a packet built for a batch is read back with its header and sub-packets |
| HopProtocol.RelayForwards | data-proxy/tunnel-handler.go:77-83 | a relay before the last sends the request one hop further, unchanged but for its position |
| HopProtocol.LastRelaySubmits | data-proxy/tunnel-handler.go:43-76 | the last relay submits each request once, to the origin of its path |
| HopProtocol.ResponseForwards | data-proxy/tunnel-handler.go:105-111 | a response is forwarded until the first hop of the request |
| HopProtocol.HomeDelivers | data-proxy/tunnel-handler.go:85-104 | and its data delivered there to each user |
| HopNetwork.ShapesKept | data-proxy/tunnel-handler.go:16-113 | every step of the network keeps packets addressed to the hop their position names, and tasks and replies on the paths of their requests |
| HopNetwork.ConservedKept | data-proxy/tunnel-handler.go:16-113 | every step keeps each request, answered or failed, and each reply in exactly one place |
| HopNetwork.RunInvariant | data-proxy/tunnel-handler.go:16-113 | both hold in every state of every run, and nothing is lost |
| HopNetwork.PacketsOnTrack | data-proxy/tunnel-handler.go:36-48 | in every reachable state a packet in flight stands at the hop it names, and no handler discards it or indexes past the hop list |
| HopNetwork.ReplyGoesBack | data-proxy/backsourcer/backsourcer.go:127-161 | the reply to a request travels its relays backwards to the first hop |
| HopNetwork.AllDelivered | data-proxy/backsourcer/backsourcer.go:111-161 | once nothing moves any more, every request was answered or failed at its origin, once, and every reply delivered to its user at the first hop |
| HopNetwork.EveryStepProgresses | data-proxy/tunnel-handler.go:16-113 | every step other than accepting a request lowers a non-negative rank |
| HopNetwork.NeverStuck | data-proxy/tunnel-handler.go:16-113 | a network with anything left to do can take a step |
| HopNetwork.StepsBounded | data-proxy/tunnel-handler.go:16-113 | after the last acceptance no run takes more steps than its rank |
| HopNetwork.MaximalIsComplete | data-proxy/tunnel-handler.go:16-113 | a run that can only accept new requests has nothing left to do |
| HopNetwork.CanComplete | data-proxy/tunnel-handler.go:16-113 | every reachable state has a continuation of at most that many steps after which all requests that had not failed are answered and every reply is delivered |

## Left out

- Yen.YensAlgorithm: states that the k returned routes are the cheapest only for fair forks into the destination; the exact condition for a single network is `FairQueries.OrderIffFair`, about runs over a search that answers equal queries equally, which the contract of a single search call does not say.
- MisleadingRuns.KeptIffSafe: ranges over all destinations and all latency bounds up to the limit, not over the bounds that the rule for bounds gives, and over all states of a run, not only the one reported; `DiamondRun.ReportsNoPath` is one reported case under the rule. Loads above the safe load are covered by `TrustedRuns.TrustedReport` in one direction only, because they close edges to the search.
- FlowSolver.ReportedTruth: speaks of the steps behind a route; the conditions on the network are the two above.
- RouteFinding.FindFeasible: the shuffle decides which feasible route a later attempt returns, and no order of the moves is said to be likely.
- GraphManager.Manager.AddNode: when two links of one report name the same edge, the weight is that of one of them, because the map order that decides it is arbitrary.
- The distribution of random draws: every draw is possible, none is said to be likely.
- BoundedDelay.FlushedInTime: the delay is counted to the first timeout check a batch timeout later; how often the ticker runs checks is not modelled.
- DeadlineHeap.MinHeap.Pop: sifting is the scheme of the Go standard library's heap, of which only the calls are in the repository.
- Rounding, overflow and NaN of floating-point numbers: all such numbers are reals.
- The priority queues of the k-route solver: modelled as removal of a cheapest entry from a sequence, ties arbitrary; heap order is modelled for the timer heap only.
- Residual graphs and edge counters of the flow solver: modelled as values that are replaced, so aliasing of the nested maps is not captured.
- Aggregator buffers smaller than the header of 24 bytes: with these the source panics when it flushes, and the model excludes them.
- The aggregator worker and the hop network: modelled as transition systems over values, not as objects with locks; `TimerHeap` ties the heap, as an object, to the timers of the worker.
- HopNetwork: paths of three or four hops, which are what the header can hold with at least one relay; requests of one batch share path, port and protocol; sends succeed, since a failed send is logged and the packet is gone; an origin answer too long for a packet of its own counts as a failure.
- `evictStaleBatches`: eviction of batches idle for long is left out, so the batch table only grows.
- `AddToBatch` and the channels in front of the workers: a full channel drops a message before the model begins.
- `selectTopPaths`: not called by the solver.
- `aggregator_v2`, connection pools, the EWMA and power-of-two-choices routers, the livenet solver: would add further solvers and pools of the same kind.
- QUIC, etcd, storage, telemetry collection, configuration and logging: input and output only.
