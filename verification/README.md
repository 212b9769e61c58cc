# Ride matching: a verified model

This project models the algorithmic core of the ride-matching engine and the two
concurrent protocols around it, and proves what they promise. One module stands for one
component of the system; each loop of the program is a loop here, each mutable object a
class or an explicit state, and each is proved against a specification that says what the
result means. `Basics` holds what several modules share.

- **Min-cost max-flow** (`Residual`, `FlowTheory`, `ShortestTree`, `Spfa`, `Johnson`,
  `Augmentation`, `Magnitude`, `Mcmf`). The paired residual edge array with both
  shortest-path engines. A run ends in a maximum flow of least cost, certified by a closed
  cut and a potential. The program freezes the potential of nodes that drop out of reach; the
  proof carries a ghost potential that lifts those nodes instead, agrees with the program's on
  reachable nodes and stays valid on every residual arc. `Magnitude` bounds every number the
  engines compute.
- **Assignment** (`MatchingNetwork`, `MatchingFlow`, `Assignment`). Legal assignments and unit
  flows correspond; the answer is a maximum matching of minimum cost.
- **Road routing** (`RoadGraph`, `RoadRoutes`, `PriorityQueue`, `LabelSearch`, `GuidedSearch`,
  `Router`, `StraightLine`, `Components`, `RoadNetwork`). Counting sort into two CSR indexes,
  Dijkstra, A* on every graph and the exact condition on its heuristic, one-to-all sweeps with
  lazy deletion, path reconstruction, and Kosaraju's algorithm with explicit stacks.
- **Quadtree** (`QuadModel`, `NearestTheory`, `QuadTree`, `OutsideQueries`). The mutable tree
  refines a value, the value refines a bag of points, and the growing-box searches are exact
  from inside the root box and, from outside, exactly as far as their last radius reaches.
- **Batch pipeline** (`CostMatrix`, `RoadEdges`, `BatchOutcome`, `MatchingService`,
  `ServiceLaws`). From a request to matches, reasons and total cost, composed of the
  components above; `ServiceLaws` says what a response means in the request's own terms.
- **Durable queue and batcher** (`Broker`, `BatcherProtocol`, `HandOutBound`, `Batcher`,
  `QueueRuns`, `LongestLine`). A state machine over single broker commands, with any number of
  workers that crash or lose replies anywhere.
- **Ingest shutdown** (`IngestShutdown`, `ServerRuns`). Handlers, connection goroutines and shutdown calls
  interleave at every lock, counter and flag operation.
- **Geohash** (`Geohash`). Bisection cells, prefixes and lock partitions.

`dafny verify dfyconfig.toml` checks everything.

## Conventions

- Costs are unbounded integers, coordinates, times and lengths are reals. INF is the value
  `Infinite` (or `Unreachable`) rather than a number; `Magnitude` shows when 64 bits suffice.
  The 32-bit capacities stay in range by the class invariant.
- Distances are compared squared. `llround(sqrt(v) * 1000)` is the integer whose half-unit
  neighbourhood holds the root, so no square root is needed. Great-circle distance is any
  function that is non-negative, zero from a point to itself and obeys the triangle inequality;
  the cosine of a latitude is any non-negative function.
- `std::priority_queue` is a bag from which some entry of least key is taken, so the results
  hold for every order among equal keys; likewise `std::sort` among equidistant points.
- A broker client's commands fail in one of two ways: the command was not applied, or it was
  applied and its reply was lost. Either way the rest of the operation is abandoned. A worker
  that crashes forgets everything it holds. Streams are not trimmed. An entry that somebody
  else claimed between another client's XPENDING and XCLAIM is not idle and is skipped; this
  presumes that the two commands are less than the idle limit apart.
- `snap` stands for nearest-node lookup, `lonScaleAt` for the cosine of a latitude,
  `cancelled` for the client's state when the edges have been priced, `nearby` and `reply`
  for what the driver store and the engine answered.

## Where code and documentation part ways

The model follows the code.

- `matching_engine/src/matching_service.cpp:195-196` says that the square world certainly
  encloses every projected point. It encloses exactly the points without a negative
  coordinate (`MatchingService.WorldEncloses`), that is, none south of the equator or west of
  Greenwich. A capped euclidean batch whose drivers are all off the world turns every rider
  away (`MatchingService.EverybodyIsTurnedAway`, with an example in
  `MatchingService.SydneyIsTurnedAway`). In general a rider keeps its cheapest edges exactly
  when each driver its search does not see has as many seen ones, at no higher cost, as the cap
  allows (`MatchingService.CapKeepsCheapestExactlyWhen`); a rider on the world or near it sees
  just the drivers on the world (`MatchingService.NearRiderKeepsCheapestExactlyWhen`), one
  beyond reach may see nobody (`MatchingService.FarRiderSeesNobody`).
- `matching_engine/src/quadtree.h:96-107` promises a nearest point unless the tree is empty, and
  the k nearest points. From outside the root box the radius is capped. The k-nearest promise
  holds exactly where the last search box covers the root box
  (`OutsideQueries.KNearestFromAnywhere`), the other exactly where the last radius reaches the
  farthest corner (`OutsideQueries.NearestFromAnywhere`); `OutsideQueries.FarQueryFindsNothing`
  is an input on which both fail.
- `matching_engine/src/router.h:18-31` says that the heuristic can never over-estimate. The
  builder (`matching_engine/src/road_graph.cpp:45-50`) accepts arcs for which it does. It never
  does exactly when no arc beats the straight line at top speed
  (`StraightLine.ConsistentExactlyWhen`). Without that, A* still returns a real route
  (`Router.AStar`), but on the graph of `StraightLine.AskShortCut` one of twice the fastest
  time. The loaders add no such arc.
- `infrastructure/internal/queue/redis_stream.go:201-204` accepts that a crash between publish
  and ack duplicates a request, because its id makes the duplicate detectable. It is detected
  by the engine's validation, which refuses the whole batch: a request and its republished copy
  can meet in one batch (`QueueRuns.CopiesMeetInOneBatch`), the engine refuses that batch exactly
  because an id repeats (`Batcher.AcceptedIffDistinct`), and the batcher dead-letters every rider
  in it (`Batcher.DuplicateRejectsWholeBatch`).
- `infrastructure/internal/queue/queue.go:40-53` counts match attempts apart from deliveries so
  that no rider is dead-lettered as poison for want of a driver. Batches without any nearby
  driver leave their riders pending, so it does happen (`QueueRuns.NoDriversIsDeadLettered`),
  exactly when the delivery count reaches its limit (`QueueRuns.GivenUpExactlyAtLimit`).

## Model

| member | source | states |
|---|---|---|
| Mcmf.MinCostMaxFlow.Solve | matching_engine/src/mcmf.cpp:67-221 | for every residual network without negative cycles and every engine: the flow pushed by the call is a maximum flow of least cost among all maximum flows, the returned pair is that flow's value and cost, every edge pair keeps its total capacity, the sink ends out of reach and no negative cycle appears; the totals stay within the size bounds |
| Mcmf.MinCostMaxFlow.SolveDijkstra | matching_engine/src/mcmf.cpp:118-220 | the Johnson engine ends in an optimum of its starting network; its loop keeps the Johnson invariant, a ghost potential valid on every residual arc, and bounded potentials and totals |
| Mcmf.MinCostMaxFlow.SolveSpfa | matching_engine/src/mcmf.cpp:93-116 | the queue-based engine ends in an optimum of its starting network |
| Mcmf.MinCostMaxFlow.BellmanFord | matching_engine/src/mcmf.cpp:36-65 | terminates when no cycle is negative; afterwards labels are finite exactly for reachable nodes and are the true shortest distances, and the predecessor edges form a tree of tight arcs |
| Mcmf.MinCostMaxFlow.DijkstraPass | matching_engine/src/mcmf.cpp:159-184 | Dijkstra on reduced costs with stale heap entries: rolled forward by the potential its labels are a shortest-path tree, and it reaches nothing outside the zone |
| Mcmf.MinCostMaxFlow.Bottleneck | matching_engine/src/mcmf.cpp:198-204 | the walk back from the sink finds a positive amount that every edge of the tree path can carry |
| Mcmf.MinCostMaxFlow.Augment | matching_engine/src/mcmf.cpp:206-212 | the second walk moves that amount from source to sink, conserves flow everywhere else, reverses only tight arcs, keeps every pair's capacity and adds exactly the path's price per unit |
| Mcmf.MinCostMaxFlow.AddEdge | matching_engine/src/mcmf.cpp:10-24 | appends the forward edge and its empty, negated partner and nothing else; returns the forward id; the adjacency lists still list exactly the edges that leave each node |
| Mcmf.RollForward | matching_engine/src/mcmf.cpp:189-196 | potentials of reached nodes move up by their label, the others stay frozen, all within the 64-bit limit |
| Mcmf.EnginesAgree | matching_engine/src/mcmf.cpp:86-116 | two finished runs from the same network report the same (flow, cost), whichever engines made them |
| Mcmf.Advance | matching_engine/src/mcmf.cpp:206-217 | one augmentation keeps conservation and both running totals, leaves a valid potential and makes progress that capacity bounds |
| Mcmf.Finish | matching_engine/src/mcmf.cpp:186-187 | when the sink is out of reach the reached set and the potential certify a minimum-cost maximum flow |
| Mcmf.ScanArcs | matching_engine/src/mcmf.cpp:52-62 | the relaxation pass of one dequeued node keeps the search invariant and decreases (unreached nodes, label slack, queue length) lexicographically |
| Mcmf.RelaxArcs | matching_engine/src/mcmf.cpp:172-182 | the relaxation pass of one settled node keeps the search invariant and leaves all its arcs relaxed |
| Spfa.Relax | matching_engine/src/mcmf.cpp:54-57 | an improving relaxation never touches the source nor its own tail and keeps the acyclic predecessor order |
| Spfa.FinalTree | matching_engine/src/mcmf.cpp:48-64 | when the queue is empty the labels satisfy every residual arc and the predecessor chains end at the source |
| Johnson.Relax | matching_engine/src/mcmf.cpp:172-182 | relaxing out of the node just settled never improves a settled node and keeps the invariant |
| Johnson.Pop | matching_engine/src/mcmf.cpp:166-170 | a node settles at its final label whatever stale copies remain queued |
| Johnson.RoundKeepsInvariant | matching_engine/src/mcmf.cpp:145-217 | after each round: reduced costs out of reached nodes are non-negative again, the rolled potential of every reached node is its true shortest distance, and whatever is reachable afterwards was reachable before |
| Johnson.SeedIsValid | matching_engine/src/mcmf.cpp:145-148 | seeding with Bellman-Ford distances, and zero elsewhere, makes every reduced cost out of reachable nodes non-negative |
| FlowTheory.CertifiesOptimum | matching_engine/src/mcmf.cpp:86-220 | a closed cut and a valid potential on the final residual network make the pushed flow a maximum flow of minimum cost on the first one |
| FlowTheory.CutBoundsValue | matching_engine/src/mcmf.cpp:97-97 | no flow crosses a cut closed under residual arcs |
| FlowTheory.PotentialBoundsCost | matching_engine/src/mcmf.cpp:119-143 | under a valid potential no circulation of the residual network is negative |
| ShortestTree.SurvivesAugmentation | matching_engine/src/mcmf.cpp:189-211 | labels and the lifted ghost potential stay valid when only tight arcs were reversed |
| ShortestTree.TreeIsExact | matching_engine/src/mcmf.cpp:48-64 | tree labels are exactly the shortest distances, and finite exactly where a walk exists |
| Residual.PotentialExists | matching_engine/src/mcmf.cpp:31-35 | no negative cycle implies that a valid potential exists |
| Residual.PotentialExcludesNegativeCycles | matching_engine/src/mcmf.cpp:119-143 | a valid potential excludes negative cycles: the converse |
| Magnitude.SpfaSumWithin | matching_engine/src/mcmf.cpp:54-55 | every sum Bellman-Ford forms stays within 2 * n * C, and so does every label it stores |
| Magnitude.DijkstraSumWithin | matching_engine/src/mcmf.cpp:175-178 | every reduced weight and every key stays within 2 * n * C |
| Magnitude.RolledWithin | matching_engine/src/mcmf.cpp:189-196 | every potential stays a bounded shortest distance, round after round |
| Magnitude.TotalsStep | matching_engine/src/mcmf.cpp:214-217 | the product added and the running totals stay within F * n * C |
| Magnitude.FitsInt64 | matching_engine/src/mcmf.cpp:38-38 | if 4 * n * C and F * n * C are below 2^63, all these values fit 64 bits and none is the INF marker |
| Assignment.SolveAssignment | matching_engine/src/assignment.cpp:6-62 | a maximum matching over the in-range offers, of minimum total cost among all maximum matchings; matchedCount and totalCost are those of the returned riderToDriver; nothing to match gives the empty assignment |
| Assignment.BuildNetwork | matching_engine/src/assignment.cpp:25-50 | the solver holds exactly the unit-capacity network of the in-range offers and `chosen` records each offer's edge |
| Assignment.ReadChosen | matching_engine/src/assignment.cpp:56-60 | reads back exactly the offers that carried flow |
| MatchingFlow.AssignmentIsFlow | matching_engine/src/assignment.cpp:18-50 | every legal assignment is a feasible flow of the same size and cost |
| MatchingFlow.FlowIsAssignment | matching_engine/src/assignment.cpp:56-60 | every feasible flow is read back as a legal assignment of its value that costs no more |
| MatchingFlow.OptimalFlowIsOptimalAssignment | matching_engine/src/assignment.cpp:52-60 | a minimum-cost maximum flow is read back as an optimal assignment with exactly its value and cost |
| MatchingNetwork.NetworkHasNoNegativeCycle | matching_engine/src/assignment.cpp:18-50 | assignment networks, whatever their costs, have no negative cycle |
| RoadGraph.RoadGraphBuilder.AddNode | matching_engine/src/road_graph.cpp:37-43 | one node per OSM id; repeated ids are looked up, whatever coordinates they carry |
| RoadGraph.RoadGraphBuilder.AddArc | matching_engine/src/road_graph.cpp:45-50 | self-loops and untraversable arcs are dropped; other arcs are appended with length / speed, no arc is faster than the recorded top speed |
| RoadGraph.Offsets | matching_engine/src/road_graph.cpp:96-103 | counting and prefix sums give, for every node, the number of arcs with smaller keys |
| RoadGraph.Place | matching_engine/src/road_graph.cpp:105-114 | the cursors put every arc into its key's bucket, each bucket in the builder's order |
| RoadGraph.BuildCsr | matching_engine/src/road_graph.cpp:89-115 | outgoing(v) is exactly the builder's arcs from v, incoming(v) its arcs into v pointing back, both in order |
| RoadGraph.IncomingIsTranspose | matching_engine/src/road_graph.h:85-100 | the incoming view is the transpose of the outgoing view |
| RoadNetwork.Freeze | matching_engine/src/road_graph.cpp:56-62 | a builder without nodes is refused; otherwise the graph carries its nodes, both indexes of its arcs and its largest component |
| RoadNetwork.FrozenIsDrivable | matching_engine/src/road_graph.cpp:45-50 | what the searches require follows from non-negative lengths; what A* requires follows when no length undercuts the straight line; arcs come with a top speed |
| Components.LargestComponent | matching_engine/src/road_graph.cpp:117-178 | the ascending node list of one strongly connected component that no other component exceeds |
| Components.FinishingOrder | matching_engine/src/road_graph.cpp:127-150 | the explicit-stack pass lists every node once, at a finishing time: discovery and finish are the two ends of a lifetime, heads are discovered before tails finish, and whatever finishes within a lifetime is reachable from its node |
| Components.OrderingIsFinishOrder | matching_engine/src/road_graph.cpp:131-150 | the stack pass's bookkeeping, once the stack is empty and all nodes are visited, amounts to such a finishing order |
| Components.GrowTree | matching_engine/src/road_graph.cpp:157-171 | one backward tree labels exactly the unlabelled nodes that reach its root |
| Components.TreeIsComponent | matching_engine/src/road_graph.cpp:156-173 | grown from the latest unlabelled finisher, the tree is exactly the root's strongly connected component |
| Router.Dijkstra | matching_engine/src/router.cpp:44-90 | out-of-range ends are refused; otherwise the reported time is the fastest (or unreachable exactly when no route exists), path and length belong to one real route of that time, and the settled set is pinned down |
| Router.AStar | matching_engine/src/router.cpp:92-157 | on every drivable graph it terminates, reports unreachable exactly when there is no route, and otherwise the time of a real route together with the nodes and length of a real route that takes no longer; whenever the heuristic is consistent towards the target the answer is the fastest one and the settled set is pinned down; the whole search is handed back turn by turn |
| LabelSearch.RelaxLabelled | matching_engine/src/router.cpp:133-143 | whatever guides the search, even when settled nodes improve: labels stay times of real routes and parents lead back to the source in no more than the label's time |
| LabelSearch.RouteToIsRoute | matching_engine/src/router.cpp:26-40 | following the parents of any label gives a real route from the source that takes no longer than the label says |
| LabelSearch.NothingLeft | matching_engine/src/router.cpp:129-153 | once the heap is empty everything reachable is settled |
| Router.Reconstruct | matching_engine/src/router.cpp:26-40 | walking parents back yields the node list and length of the route the target's label stands for, and always reaches the source |
| Router.GuideIsConsistent | matching_engine/src/router.cpp:100-117 | if no arc beats the straight line at top speed the memoised heuristic is consistent, and zero at the target |
| StraightLine.ConsistentExactlyWhen | matching_engine/src/router.cpp:100-117 | the heuristic is consistent towards every target, equally never over-estimates any route, if and only if every single arc takes at least the time of the straight line at top speed |
| StraightLine.BuildShortCut | matching_engine/src/road_graph.cpp:38-50 | the builder accepts, and freezes, a graph of three nodes anywhere whose arcs are shorter than the straight line |
| StraightLine.ShortCutIsInconsistent | matching_engine/src/router.cpp:100-103 | on that graph the straight line over-estimates: the heuristic is not consistent, for any metric that tells the nodes apart |
| StraightLine.AStarStopsTooEarly | matching_engine/src/router.cpp:129-151 | on that graph every search of A*, whatever the ties, ends with the target at twice the time of its fastest route |
| StraightLine.AskShortCut | matching_engine/src/router.cpp:92-157 | the same through the public operations: the graph is built and frozen, A* is asked, and its answer is twice the fastest time |
| Router.SameTravelTime | matching_engine/src/router.cpp:44-157 | both searches report the same travel time, or both report unreachable |
| Router.AStarSettlesNoMore | matching_engine/src/router.cpp:129-151 | if no other node shares the target's position, A* settles a subset of the nodes Dijkstra settles |
| Router.ShortestPathTree | matching_engine/src/router.cpp:159-190 | one sweep gives every node's fastest time from the source, over either index, and unreachable exactly where no route exists |
| Router.BackwardTreeIsForwardTime | matching_engine/src/router.cpp:177-187 | the backward tree at v is the forward fastest time from v to the source |
| Router.BuildDistanceCache | matching_engine/src/router.cpp:192-201 | an origin out of range stops the build; otherwise row `slot` of the table is the tree of origin `slot` |
| GuidedSearch.FrontierBound | matching_engine/src/router.cpp:62-75 | any route either ends in a settled node that is no slower or lies at or above every queued key |
| GuidedSearch.Pop | matching_engine/src/router.cpp:59-67 | a node settles at its final time, whatever stale entries remain |
| GuidedSearch.StopAtTarget | matching_engine/src/router.cpp:69-73 | stopping as soon as the target is popped loses nothing |
| QuadTree.QuadTree.Insert | matching_engine/src/quadtree.cpp:37-68 | the mutable tree becomes exactly the model's tree after insertion; refused points change nothing |
| QuadTree.QuadTree.Subdivide | matching_engine/src/quadtree.cpp:15-33 | four quadrant children one level down; the node keeps its own points |
| QuadTree.QuadTree.Remove | matching_engine/src/quadtree.cpp:95-123 | the mutable tree becomes exactly the model's tree after removal and collapses |
| QuadTree.QuadTree.CollapseIfPossible | matching_engine/src/quadtree.cpp:130-152 | pulls the children's points up in order, exactly when all four are undivided and everything fits |
| QuadTree.QuadTree.Clear | matching_engine/src/quadtree.cpp:165-174 | an empty undivided leaf |
| QuadTree.QuadTree.QueryRange | matching_engine/src/quadtree.cpp:71-91 | appends the model's hits in the tree's own order |
| QuadTree.QuadTree.Size | matching_engine/src/quadtree.cpp:155-162 | the number of stored points, however they are spread over nodes |
| QuadTree.QuadTree.KNearest | matching_engine/src/quadtree.cpp:233-271 | always terminates with the k nearest, nearest first, of the stored points its last box holds, from inside and outside; these are the k nearest of all stored points whenever that box covers the boundary, as from every query inside |
| QuadTree.QuadTree.NearestNeighbor | matching_engine/src/quadtree.cpp:196-226 | a returned point is a nearest eligible one; none is returned exactly when no eligible point lies within the last radius, which from inside the boundary means that none is stored |
| OutsideQueries.KNearestFromAnywhere | matching_engine/src/quadtree.h:103-107 | over all trees with a given root box and for every k, the search always finds the k nearest stored points if and only if the query is inside the box or the last search box covers it |
| OutsideQueries.NearestFromAnywhere | matching_engine/src/quadtree.h:96-101 | over all trees with a given root box, an empty answer always means that nothing eligible is stored if and only if the query is inside or the last radius reaches the farthest corner |
| OutsideQueries.OutsideExtent | matching_engine/src/quadtree.cpp:183-194 | from outside the search starts at the root's own scale, so its last radius depends on the root box alone |
| OutsideQueries.SeenIsInBox | matching_engine/src/quadtree.cpp:233-271 | the k-nearest search looks at exactly the stored points in one box, which depends on the root box and the query alone |
| OutsideQueries.CoversIsInclusion | matching_engine/src/quadtree.cpp:198-200 | one box covers another exactly when it contains every point of it |
| OutsideQueries.FarQueryFindsNothing | matching_engine/src/quadtree.cpp:196-271 | a unit box and a query at x = 100: both searches answer as if the tree were empty, although a point is stored |
| OutsideQueries.NearQueryDiffers | matching_engine/src/quadtree.cpp:196-271 | from x = 5, outside the same box, the k-nearest search is still always exact while the nearest-neighbour search is not |
| QuadModel.InsertCorrect | matching_engine/src/quadtree.cpp:37-68 | adds exactly the point, and accepts it exactly when it lies in the root box |
| QuadModel.RemoveCorrect | matching_engine/src/quadtree.cpp:95-123 | takes out one stored point with the id, or changes nothing; a point stored as given is never missed |
| QuadModel.RemoveWithUniqueIds | matching_engine/src/quadtree.cpp:95-123 | with unique ids, removing a stored point deletes exactly it and an unknown id changes nothing |
| QuadModel.CollapseKeepsContents | matching_engine/src/quadtree.cpp:130-152 | collapsing keeps the stored points and the tree's shape rules |
| QuadModel.CollapsesExactlyWhen | matching_engine/src/quadtree.cpp:130-152 | a node collapses if and only if none of its children is divided and all points below it fit into it |
| QuadModel.OperationsKeepCompact | matching_engine/src/quadtree.cpp:37-152 | under any sequence of operations no node above the depth cap holds more points of its own than its capacity |
| QuadModel.InsertKeepsCompact | matching_engine/src/quadtree.cpp:43-50 | a leaf with room is not divided |
| QuadModel.DepthIsCapped | matching_engine/src/quadtree.h:65-68 | no node lies deeper than MAX_DEPTH |
| QuadModel.QueryIsExact | matching_engine/src/quadtree.cpp:71-91 | each stored point in the range is reported as often as it is stored, nothing else is: pruning loses no hit |
| QuadModel.OperationsRefineBag | matching_engine/src/quadtree.cpp:37-174 | under any sequence of insertions, removals and clears with unique ids the tree holds exactly the bag of points those operations describe |
| QuadModel.QuadrantsTile | matching_engine/src/quadtree.cpp:15-33 | a point lies in a box exactly when it lies in one of its quadrants |
| QuadModel.QuadrantsMeetOnLines | matching_engine/src/quadtree.cpp:15-33 | two quadrants share at most the lines that divide the box |
| QuadModel.QuadrantsFaceTheirWay | matching_engine/src/quadtree.cpp:15-33 | northwest, northeast, southwest, southeast, each half as wide and half as high |
| NearestTheory.EnoughHits | matching_engine/src/quadtree.cpp:256-265 | k hits with the k-th inside the radius cannot be displaced by anything outside the box |
| NearestTheory.CoveredHits | matching_engine/src/quadtree.cpp:254-269 | a search box that covers the root box, as the maximal one does from inside, holds everything stored |
| NearestTheory.BestIsNearest | matching_engine/src/quadtree.cpp:208-223 | the best candidate within the radius is nearest of all; otherwise nothing eligible lies within the radius |
| NearestTheory.NothingEligible | matching_engine/src/quadtree.cpp:199-225 | the loop's exit from inside the boundary means that nothing eligible is stored |
| CostMatrix.BuildDenseEdges | matching_engine/src/cost_matrix.cpp:11-31 | every rider-driver pair exactly once; each edge costs the one integer nearest to a thousand times the length between the two positions |
| CostMatrix.BuildSparseEdges | matching_engine/src/cost_matrix.cpp:33-56 | each rider, inside the world or outside, gets the min(k, number seen) nearest of the in-world drivers that lie in its last search box, once each, at the integer nearest to a thousand times the length; from inside, or wherever the search covers the world, those are all in-world drivers |
| CostMatrix.ScaledLengthIsUnique | matching_engine/src/cost_matrix.cpp:11-17 | only one integer satisfies the two inequalities that define the price |
| CostMatrix.KeepsCheapestExactlyWhen | matching_engine/src/cost_matrix.cpp:33-56 | for every rider, cap and set of drivers: the rider keeps its min(k, M) cheapest dense edges if and only if each driver its search does not see has k seen ones that cost no more |
| CostMatrix.SparseKeepsCheapest | matching_engine/src/cost_matrix.cpp:33-56 | with all drivers inside the world, each rider whose search covers the world keeps its min(k, M) cheapest dense edges |
| CostMatrix.OutsideIsNeverOffered | matching_engine/src/cost_matrix.cpp:41-45 | a driver outside the world is offered to nobody |
| CostMatrix.IndexDrivers | matching_engine/src/cost_matrix.cpp:41-45 | the tree holds exactly the drivers inside its box, once each, under their indices |
| CostMatrix.NearerCostsNoMore | matching_engine/src/cost_matrix.cpp:11-17 | rounding to integer units preserves the order of distances |
| CostMatrix.RoundedRootMonotone | matching_engine/src/cost_matrix.cpp:11-17 | the nearest integer to the scaled square root is monotone |
| RoadEdges.BuildRoadEdgesDense | matching_engine/src/cost_matrix.cpp:83-105 | exactly the pairs whose driver can reach the rider, each once; each edge costs the integer nearest to a thousand times the fastest driving time from where the driver snaps to where the rider does |
| RoadEdges.BuildRoadEdgesSparse | matching_engine/src/cost_matrix.cpp:107-166 | each rider is offered exactly those of its min(k, M) geometrically nearest drivers who can reach it, at the rounded fastest time; the padded root box holds everybody |
| RoadEdges.ShortlistInDegrees | matching_engine/src/cost_matrix.cpp:133-147 | a shortlisted driver is no farther from the rider than one left out, measured in degrees with longitudes shortened by the mean latitude's scale |
| RoadEdges.SweepBackward | matching_engine/src/cost_matrix.cpp:97-99 | one backward sweep prices every node's trip to the rider, and marks exactly the nodes that cannot get there |
| RoadEdges.SnapAll | matching_engine/src/cost_matrix.cpp:67-72 | every position snapped once, in order |
| RoadEdges.SpanBoxEncloses | matching_engine/src/cost_matrix.cpp:136-140 | the padded projection box contains every position within the batch's span |
| MatchingService.SolveBatch | matching_engine/src/matching_service.cpp:111-300 | the status follows the checks in their order; a quiet batch gets everybody back unmatched; any other answered batch reports an optimal assignment over the affordable edges of the metric asked for (in the request's own terms: the ServiceLaws rows), with the truth about the cap, the metric and the graph |
| MatchingService.Validate | matching_engine/src/matching_service.cpp:26-74 | size limits first; then accepted exactly when ids are present and unique, coordinates finite and in range, and both options sensible |
| MatchingService.Settle | matching_engine/src/matching_service.cpp:211-296 | considered and kept counts, the ceiling, the solve and the translation back give matches, reasons and total cost of one optimal assignment |
| ServiceLaws.MatchesRespectCeiling | matching_engine/src/matching_service.cpp:219-228 | every match of a response is a pair that was priced, and with a ceiling c its one edge costs at most 1000 * c + 0.5; it has an arrival time exactly under travel time |
| ServiceLaws.OptimalOverAffordable | matching_engine/src/matching_service.cpp:219-231 | the reported assignment and total cost are optimal over exactly the edges that meet this inequality, in whatever order they are listed, and over all edges when there is no ceiling |
| ServiceLaws.ReasonsAreExact | matching_engine/src/matching_service.cpp:247-270 | the reason in every unmatched row is given exactly when it is true: unreachable or without candidates when the rider has no edge, above the cutoff when all its edges break the inequality, out of drivers when some edge meets it |
| ServiceLaws.EuclideanPrice | matching_engine/src/matching_service.cpp:80-98 | an edge of a euclidean batch costs the integer nearest to a thousand times the metres between the two positions, with 111320 metres to a degree and longitudes shortened by the batch's scale |
| ServiceLaws.TravelPrice | matching_engine/src/matching_service.cpp:162-176 | an edge of a travel-time batch costs the integer nearest to a thousand times the fastest driving time between the snapped positions |
| ServiceLaws.EuclideanCap | matching_engine/src/matching_service.cpp:154-160 | a cap between nought and the driver count limits every rider's offers to it; otherwise every rider is offered every driver |
| ServiceLaws.TravelCap | matching_engine/src/matching_service.cpp:154-176 | the same under travel time, where only drivers who can get there are offered |
| MatchingService.WinningCosts | matching_engine/src/matching_service.cpp:234-245 | one pass over the edges finds every matched rider's own edge cost |
| MatchingService.CountPerRider | matching_engine/src/matching_service.cpp:215-217 | each rider's count is the number of distinct drivers offered to it, and positive exactly when it has an edge |
| MatchingService.EachPartyOnce | matching_engine/src/matching_service.cpp:247-296 | each rider id appears exactly once among matches and unmatched, each driver id at most once |
| MatchingService.OutOfDrivers | matching_engine/src/matching_service.cpp:265-269 | for every row of the response that says no driver was available: that rider had affordable edges, and each driver on them is reported as the match of another rider |
| MatchingService.WorldEncloses | matching_engine/src/matching_service.cpp:195-200 | the world sized from the largest coordinate encloses a point of the batch exactly when neither of its coordinates is negative |
| MatchingService.NegativeCoordinatesAreLost | matching_engine/src/matching_service.cpp:195-200 | in every capped euclidean batch whose drivers all lie south of the equator or west of Greenwich nobody is offered anything |
| MatchingService.EverybodyIsTurnedAway | matching_engine/src/matching_service.cpp:195-269 | such a batch reports every rider as without candidates in the shortlist, and no match |
| MatchingService.CapKeepsCheapestExactlyWhen | matching_engine/src/matching_service.cpp:195-200 | any rider of any capped euclidean batch keeps its cheapest dense edges if and only if each driver it does not see has as many that it sees, at no higher cost, as the cap allows |
| MatchingService.NearRiderKeepsCheapestExactlyWhen | matching_engine/src/matching_service.cpp:195-200 | for a rider on the world, or off it by at most seven world sizes, that reads: each driver off the world has as many on it, at no higher cost, as the cap allows |
| MatchingService.OnWorldKeepsCheapest | matching_engine/src/matching_service.cpp:195-200 | in particular every such rider keeps its cheapest edges when no driver is off the world |
| MatchingService.OnWorldIsNear | matching_engine/src/matching_service.cpp:195-200 | a rider on the world is near it |
| MatchingService.FarRiderSeesNobody | matching_engine/src/matching_service.cpp:195-200 | a rider at latitude -45 and two drivers at the origin, none of them off the world: beyond reach, the rider is offered nobody |
| MatchingService.WorldReach | matching_engine/src/quadtree.cpp:233-271 | from below its upper ends the k-nearest search covers the square world exactly up to seven world sizes beyond its lower ends |
| MatchingService.SydneyIsTurnedAway | matching_engine/src/matching_service.cpp:195-269 | an acceptable batch of one rider and two drivers in Sydney: capped at one candidate the rider is turned away, uncapped it is offered a driver at distance zero |
| MatchingService.EtaIsFastestTime | matching_engine/src/matching_service.cpp:234-292 | for every row of response.matches of a travel-time batch: the reported arrival is within 0.5005 s of the fastest driving time from that driver to that rider |
| BatchOutcome.EveryRiderOnce | matching_engine/src/matching_service.cpp:247-296 | matched and unmatched riders together are the riders submitted, with multiplicity |
| BatchOutcome.NoDriverTwice | matching_engine/src/matching_service.cpp:272-276 | with distinct driver ids, no driver appears in two matches |
| BatchOutcome.NoDriverAvailableMeansTaken | matching_engine/src/matching_service.cpp:265-269 | in an optimal assignment every driver an unmatched rider could take serves another rider |
| BatchOutcome.DenseLeavesNobodyIdle | matching_engine/src/matching_service.cpp:265-269 | when every pair is offered, a rider stays unmatched only if every driver is busy |
| BatchOutcome.MatchedWithinCeiling | matching_engine/src/matching_service.cpp:219-228 | a matched pair was offered, is priced by its one edge and respects the ceiling |
| BatcherProtocol.AcceptedIsNeverLost | infrastructure/internal/queue/redis_stream.go:164-372 | in every run of any number of batchers that crash or lose replies between any two broker commands, each accepted request id is undelivered, pending, dead-lettered or matched at every moment |
| BatcherProtocol.StepKeepsSafe | infrastructure/internal/queue/redis_stream.go:197-372 | every single step keeps it: an entry is given up only after it was matched, dead-lettered or published again |
| BatcherProtocol.RepublishSafe | infrastructure/internal/queue/redis_stream.go:197-214 | publish-then-ack never acks before the successor exists |
| BatcherProtocol.DeadLetterSafe | infrastructure/internal/queue/redis_stream.go:341-372 | write-aside-then-ack never acks before the record exists |
| BatcherProtocol.SettlementSafe | infrastructure/internal/batcher/batcher.go:484-539 | settling a solved batch acks only matched messages, and each of the others after its record or successor |
| BatcherProtocol.IssueKeepsNothingLost | infrastructure/internal/queue/redis_stream.go:330-338 | applying any next command of any client keeps every entry accounted for |
| BatcherProtocol.LastCarrier | infrastructure/internal/queue/redis_stream.go:197-214 | the last entry that carries a request is waiting, pending, recorded dead or matched |
| HandOutBound.LinesAreBounded | infrastructure/internal/queue/redis_stream.go:259-327 | however redelivery and republishing interleave, the entries of one line of successors are handed out at most MaxMatchAttempts * MaxDeliveries times, each on a delivery of its own, and no line has more than MaxMatchAttempts entries |
| LongestLine.BoundIsAttained | infrastructure/internal/batcher/batcher.go:505-528 | both bounds are attained: for every valid configuration and request there is a run whose line has exactly MaxMatchAttempts entries and MaxMatchAttempts * MaxDeliveries hand-outs before the rider is recorded dead |
| HandOutBound.ChainsAreBounded | infrastructure/internal/batcher/batcher.go:487-528 | no causal chain of hand-outs is longer than MaxMatchAttempts * MaxDeliveries |
| HandOutBound.RankDecreases | infrastructure/internal/batcher/batcher.go:505-528 | (attempts left, deliveries left) strictly decreases along every hand-out |
| HandOutBound.StepKeepsBounded | infrastructure/internal/queue/redis_stream.go:217-327 | every step keeps attempts below their limit, delivery counts current and hand-outs distinct |
| Broker.SortClaimed | infrastructure/internal/queue/redis_stream.go:304-326 | of the claimed entries, malformed and over-delivered ones are set aside, the rest handed out with the count reported before the claim plus one; it stops exactly at the first over-delivered entry that cannot be written aside |
| Broker.SortFresh | infrastructure/internal/queue/redis_stream.go:241-255 | of the freshly read entries, malformed ones are set aside, the rest handed out as first deliveries |
| Broker.Settle | infrastructure/internal/batcher/batcher.go:479-539 | matched messages are acked together at the end; each unmatched one is dead-lettered or republished; requeued is the number of unmatched messages with attempts left, exhausted that of the others whose record was written |
| Batcher.Batcher.ProcessBatch | infrastructure/internal/batcher/batcher.go:353-551 | outcome by outcome: a failed lookup, no driver nearby and an engine that does not answer leave every message pending; a refusal, whatever its status, writes every message aside and acks it, one operation each; an answer is settled; and every counter |
| Batcher.Run | infrastructure/internal/batcher/batcher.go:254-350 | every message taken from the queue goes into exactly one batch, in the order taken; each consume takes as much as waits and fits; a batch goes out in the very pass in which the window is over, shutdown is noticed or it is full, for that reason and for no other, and that pass leaves nothing pending |
| Batcher.CollectDrivers | infrastructure/internal/batcher/batcher.go:401-406 | the union of the lookups, each driver once, at the position listed last |
| Batcher.SettlementIsComplete | infrastructure/internal/batcher/batcher.go:479-539 | when every command goes through, none of the batch's messages stays pending, no other is touched, and each unmatched rider comes back exactly once or is recorded exactly once |
| Batcher.SettlementDecides | infrastructure/internal/batcher/batcher.go:507-528 | after a settlement an unmatched rider is back in the stream, one attempt later and otherwise the same, exactly if its attempts including this one are below the limit, and recorded dead exactly if they are not |
| Batcher.AcceptedIffDistinct | infrastructure/internal/batcher/batcher.go:423-435 | the engine accepts a batch exactly when no request id occurs in it twice and all riders are well-formed |
| Batcher.DuplicateRejectsWholeBatch | infrastructure/internal/batcher/batcher.go:446-477 | a request and its republished copy in one batch dead-letter every rider of that batch |
| Batcher.EngineMatchesBatch | infrastructure/internal/batcher/batcher.go:479-483 | the rider ids the engine reports as matched are request ids of the batch |
| QueueRuns.CopiesMeetInOneBatch | infrastructure/internal/queue/redis_stream.go:197-214 | for every accepted request there is a run of two batchers, in which one ack fails, at whose end one batcher holds the request and its republished copy |
| QueueRuns.NoDriversIsDeadLettered | infrastructure/internal/queue/redis_stream.go:304-372 | for every configuration and request there is a run in which each of MaxDeliveries batches finds no driver and the rider, with match attempts still at zero, ends up recorded as dead and acked |
| QueueRuns.GivenUpExactlyAtLimit | infrastructure/internal/queue/redis_stream.go:304-326 | whatever its batches ended in, a well-formed entry is dead-lettered at a claim exactly when its count before the claim has reached MaxDeliveries, and handed out otherwise |
| QueueRuns.MalformedIsSetAside | infrastructure/internal/queue/redis_stream.go:304-312 | a claimed entry that cannot be decoded is written aside under its own id, acked, and handed to nobody |
| IngestShutdown.NoAddFromZero | infrastructure/internal/ingest/server.go:201-209 | in every interleaving, no Add raises the wait group from zero once closed is set |
| IngestShutdown.SlotsWithinLimit | infrastructure/internal/ingest/server.go:288-297 | granted slots never exceed the connection limit |
| IngestShutdown.ShutdownIsFinal | infrastructure/internal/ingest/server.go:524-546 | once some Shutdown returned nil, no slot, no token and no connection goroutine exists, then and forever after |
| IngestShutdown.CountedKept | infrastructure/internal/ingest/server.go:275-354 | every step keeps the counters equal to what the goroutines hold and the lock with one holder |
| IngestShutdown.FlagKept | infrastructure/internal/ingest/server.go:524-531 | the flag flips only when no handler is between seeing the server open and registering |
| IngestShutdown.DrainedStays | infrastructure/internal/ingest/server.go:533-541 | a closed server whose wait group reached zero never leaves zero |
| IngestShutdown.ClosedAdmitsNobody | infrastructure/internal/ingest/server.go:201-209 | in every run, once closed is set it stays set and no handler registers as admitted |
| IngestShutdown.GrantedKept | infrastructure/internal/ingest/server.go:288-297 | a slot is granted only while the total, granted or not, is within the limit |
| ServerRuns.RefusedOnlyWhenFull | infrastructure/internal/ingest/server.go:288-297 | whoever asks for a slot gets one exactly while fewer goroutines than the limit hold one |
| ServerRuns.FullHouse | infrastructure/internal/ingest/server.go:201-300 | for every limit there is a run in which that many connections are being served at once |
| ServerRuns.ShutdownSucceeds | infrastructure/internal/ingest/server.go:524-546 | for any number of connections up to the limit there is a run in which they are served at once, end while a shutdown waits, and the shutdown returns nil |
| Geohash.Encode | infrastructure/internal/locks/lease.go:295-334 | the loop computes one letter per five bisection bits, as many as asked for and six for a non-positive precision |
| Geohash.CellHoldsPoint | infrastructure/internal/locks/lease.go:302-327 | the cell contains the in-range point it was computed from |
| Geohash.CellSize | infrastructure/internal/locks/lease.go:302-327 | after n bits the cell measures 360 halved ceil(n / 2) times by 180 halved floor(n / 2) times |
| Geohash.HalvedIsDyadic | infrastructure/internal/locks/lease.go:302-327 | k halvings divide by exactly two to the k |
| Geohash.ShorterIsPrefix | infrastructure/internal/locks/lease.go:295-334 | a shorter code is a prefix of a longer one for the same point |
| Geohash.SharedPrefixIffSameCell | infrastructure/internal/locks/lease.go:290-334 | two in-range points share their first p letters exactly when the second lies in the first one's precision-p cell, which is when their cells are equal |
| Geohash.AlphabetIsBase32 | infrastructure/internal/locks/lease.go:286-286 | the letters are exactly the digits and lower-case letters without a, i, l and o, and they rise with the value they stand for |
| Geohash.JutlandIsU4 | infrastructure/internal/locks/lease.go:295-334 | a known code: 57.64911 north, 10.40744 east begins with u4 |
| Geohash.PartitionFor | infrastructure/internal/locks/lease.go:355-367 | the FNV-1a fold of the precision-5 code, modulo the number of partitions |
| Geohash.KnownFnvValues | infrastructure/internal/locks/lease.go:360-366 | the fold gives the published 32-bit FNV-1a values of the empty string, a and foobar |
| Geohash.RoundIsInjective | infrastructure/internal/locks/lease.go:361-366 | a round of the fold never maps two words to one |
| Geohash.SameCellSamePartition | infrastructure/internal/locks/lease.go:336-367 | everything in one precision-5 cell contends for the same partition |

## Left out

- Mcmf.MinCostMaxFlow.Solve: requires source and sink to differ, nodes in range and no negative cycle, as its callers provide; with equal ends the program would not terminate.
- Mcmf.MinCostMaxFlow.AddEdge: requires a capacity that is a non-negative 32-bit value, as its callers provide.
- Mcmf.ScanArcs: the number of nodes and edges is not limited to what an int can index.
- Assignment.SolveAssignment: requires a rider count that is not negative; the program would fail while allocating the answer.
- Router.AStar: requires that no arc takes negative time, as Router.Dijkstra does.
- Router.Dijkstra: requires that no arc takes negative time, which addArc would store for a negative length; the count of settled nodes is pinned by the settled set, not by the order in which equal keys are popped.
- RoadGraph.RoadGraphBuilder.AddArc: requires endpoints that addNode has returned; the program stores any pair and would index out of bounds when the graph is built.
- RoadNetwork.Freeze: does not build the spatial index for nearest-node lookup, which searches a flat projection and is approximate; bounds() is left out as well.
- QuadTree.QuadTree.Subdivide: the four owned children are a sequence in the order northwest, northeast, southwest, southeast; ownership is disjoint footprints, and freeing memory is not modelled.
- CostMatrix.BuildSparseEdges: floating-point rounding of distances is not modelled, only rounding to integer units.
- RoadEdges.BuildRoadEdgesSparse: the sentinel extremes that start the minimum and maximum loops are replaced by the first driver's coordinates.
- MatchingService.SolveBatch: straight-line metres, compute time and the echo of the batch id are not modelled; the total cost stays in integer units.
- MatchingService.Validate: error texts are not modelled, only the status they come with.
- Batcher.Batcher.ProcessBatch: takes as given which dead-letter records cannot be written; what any failed command leaves behind is covered by the protocol's runs.
- BatcherProtocol.AcceptedIsNeverLost: assumes that streams are not trimmed.
- HandOutBound.LinesAreBounded: assumes that delivery counts read before a claim are current at the claim, as stated under Conventions.
- IngestShutdown.ShutdownIsFinal: the pumps inside a connection goroutine, pings, deadlines and authentication are part of its one running phase.
- Geohash.Encode: coordinates are exact reals.
- Batcher.Run: when the timer fires, when a consume returns and whether the window is over are given as events; the claim that a rider waits at most one window is left out.
- Redis, gRPC, HTTP, WebSocket, JSON and Prometheus plumbing, configuration defaults, authentication, rate limiting, admin server, generators, load tests and deployment files are wrappers around what is modelled.
- Lease acquire, extend and release, the position pipeline's coalescing buffer and the median wait would add only easy members.
- OSM parsing is left out; only the lengths and speeds it hands to the builder matter here.
