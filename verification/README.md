# Hospital delivery route optimisation, modelled in Dafny

This project models the core of a Python engine that plans hospital
deliveries. A fleet of vehicles leaves a depot and serves deliveries of
medicines (priority 1, "critical") and supplies (priority 2). Each vehicle
has a capacity, a range and per-kilometre and per-hour costs. The engine
scores a routing with a weighted composite fitness: distance, capacity
overrun, range overrun, late critical deliveries and the number of
vehicles used. Lower is better.

The routing comes from one of three optimisers:

- a genetic algorithm built on DEAP: tournament selection, order
  crossover, a route mutation, replacement with elitism, and early
  stopping on a plateau;
- simulated annealing seeded with a greedy plan;
- the greedy planner itself, which serves the critical deliveries first
  and then takes the nearest delivery that fits.

Around these sit a 2-opt and load-balancing local search, three
strategies for the initial population, a benchmark that runs the
optimisers side by side, and an optimiser factory. There are also the
entities and configuration checks, the input validators, the distance
helpers and a bounded distance cache. The visual layer contributes a
scenario comparator (the optimised plan against the greedy plan and
against a baseline that hands the deliveries out to the vehicles in
input order), a timeline of departures and arrivals, a vehicle tracker, and
an accident-risk provider that rates a route by the accident hot spots
near its segments.

One Dafny module stands for each component:

- `Wrappers`: results and the Python exceptions as values;
- `Seqs`: list helpers;
- `Types`: the interface records and the delivery dict;
- `Domain`;
- `Config`;
- `Validators`;
- `Distance`;
- `Fitness`;
- `Initialization`;
- `Greedy` and `GreedyOptimizer`;
- `Mutation`, `Genetic`, `Breeding` and `GeneticOptimizer`;
- `LocalSearch`;
- `Annealing`;
- `Benchmark`;
- `Factory`;
- `Cache`;
- `Accident`;
- `Scenario`;
- `Timeline`;
- `Tracker`.

Randomness, clocks, the geodesic distance, `math.exp` and the coordinate
formatting are parameters: a random draw is a function from a position
in the run to a choice, and a clock is a function from a call to a time.
Python floats are Dafny reals. Every exception the code can raise on
some input is a `Failure` carrying that exception and the text of its
message, in the source's Portuguese and with the ids it names.

The three optimisers each carry their own copy of `validate_solution`
(optimization/genetic_algorithm.py:249-293,
optimization/simulated_annealing_optimizer.py:158-190 and
optimization/greedy_optimizer.py:100-132) and of
`_build_distance_matrix`. The copies do the same thing, and so do the
genetic algorithm's distance, cost and violation helpers
(optimization/genetic_algorithm.py:406-548). Each is modelled once, in
`GreedyOptimizer`.

Where verification showed the source misbehaving (see "## Findings"), the
entry points follow the code as written, and a corrected variant sits
beside them with the property the authors evidently intended:
`GreedyOptimizer.OptimizeAligned`, `GeneticOptimizer.OptimizeCorrected`,
the corrected neighbour of `Annealing` and the monotone ladder
`Accident.Overall`.

## Model

| member | source | states |
|---|---|---|
| Types.IndexKeys | optimization/genetic_algorithm.py:158 | the dict built from the delivery list has exactly the list's ids as keys, and each key maps to a delivery of the list that carries that id |
| Types.IndexIsLast | optimization/greedy_optimizer.py:257 | when an id repeats, the dict keeps the last delivery with it |
| Types.FindFirst | optimization/fitness/autonomy_penalty.py:72-73 | the linear search finds nothing exactly when no delivery carries the id; otherwise it returns the first delivery that does |
| Types.FindFirstAgreesWithIndex | optimization/fitness/autonomy_penalty.py:72-73 | with distinct ids the linear search and the dict lookup find the same delivery, and find one for the same ids |
| Types.Ids | optimization/initialization_strategy.py:63 | the id list has one entry per delivery, in order |
| Types.LoadPermutation | optimization/genetic_algorithm.py:535-539 | the weight of a route does not depend on the order of its ids |
| Types.LoadOfUnknown | optimization/fitness/capacity_penalty.py:55-59 | ids missing from the dict add no weight to a route |
| Types.LoadNonNegative | optimization/fitness/capacity_penalty.py:55-59 | with non-negative delivery weights a route's weight is non-negative |
| Types.IdSetFlatten | optimization/genetic_algorithm.py:269-272 | the set of ids a solution serves is the set of ids on its routes |
| Domain.NewDelivery | domain/delivery.py:20-31 | a delivery built from its required fields keeps them, has a service time of 0.5 h and no time window, and is critical exactly when its priority is 1 |
| Domain.HalfWindowIsNoWindow | domain/delivery.py:33-38 | a window with only one of its two bounds set is not a time window |
| Domain.CapabilityDownwardClosed | domain/vehicle.py:27-33 | both capability tests are inclusive: a vehicle can carry its full capacity and travel its full range, and anything lighter or shorter than an accepted load or distance is accepted too |
| Domain.AddDelivery | domain/route.py:26-29 | adding an id already on the route changes nothing; a new id goes at the end; the vehicle is kept |
| Domain.RemoveDelivery | domain/route.py:31-34 | removing an id that is not on the route changes nothing; otherwise exactly one copy of it leaves the route |
| Domain.RemoveDeliveryFirst | domain/route.py:31-34 | the copy that leaves is the id's first occurrence, and the ids before and after it stay in order |
| Seqs.RemoveFirstAt | domain/route.py:31-34 | `list.remove(x)` drops the first occurrence of `x` and keeps the rest of the list in order |
| Domain.AddDeliveryIdempotent | domain/route.py:26-29 | adding twice is adding once, adding keeps the id list free of duplicates, and a route with an added id is not empty |
| Domain.RemoveDeliveryRemovesAll | domain/route.py:31-34 | removing an id from a route without duplicates leaves no copy of it |
| Domain.AddThenRemove | domain/route.py:26-34 | adding a new id and then removing it gives back the original route |
| Domain.Lower | domain/hospital.py:40-43 | lower-casing keeps the length, leaves no capital (A to Z and the Latin-1 capitals) and changes nothing else |
| Domain.LowerIdempotent | domain/hospital.py:40-43 | lower-casing twice is lower-casing once |
| Domain.IsOpenAt | domain/hospital.py:26-44 | a hospital without opening hours is always open; a day not in its table is closed; otherwise it is open exactly between that day's two hours, both included |
| Domain.IsOpenAtCaseInsensitive | domain/hospital.py:40-43 | the day name is looked up case-insensitively, so a table key holding an upper-case letter is never matched |
| Config.MakeFitnessWeights | utils/config.py:33-48 | constructing the weights fails with a ValueError exactly when some weight is negative; zero weights are accepted and kept |
| Config.DefaultFitnessWeights | utils/config.py:33-37 | the defaults 1, 1000, 1000, 500 and 100 pass `__post_init__`'s validation |
| Config.CheckGaConfig | utils/config.py:77-88 | the configuration is accepted exactly when it is valid; the population-size check runs first and then the generations check, each naming its field |
| Config.DefaultGaConfig | utils/config.py:63-75 | the defaults pass `__post_init__`'s validation: population 100, 200 generations, 10 elites, patience 50 and early-stopping patience 30 |
| Validators.ScanDeliveries | utils/validators.py:25-41 | every rejection of the delivery loop is a data-validation error |
| Validators.ValidateDeliveries | utils/validators.py:12-41 | every rejection is a data-validation error |
| Validators.ScanDeliveriesCorrect | utils/validators.py:25-41 | the loop from a position on succeeds exactly when the rest of the list repeats no id, uses no id already seen, and holds only good deliveries |
| Validators.ValidateDeliveriesCorrect | utils/validators.py:12-41 | the deliveries are accepted exactly when the list is non-empty, every id is non-empty and unique, every weight is positive and every priority is 1 or 2 |
| Validators.DuplicateMessage | utils/validators.py:25-31 | after a prefix of good deliveries with distinct ids, the first repeated id is reported as `ID duplicado: <id>` |
| Validators.DuplicateRejected | utils/validators.py:30-31 | two deliveries with the same id are always rejected |
| Validators.CheckVehicle | utils/validators.py:58-68 | a vehicle is accepted exactly when its capacity and range are positive and neither cost is negative; a rejection is a data-validation error |
| Validators.ScanVehicles | utils/validators.py:57-68 | the loop succeeds exactly when every vehicle is good; otherwise it reports the first bad vehicle's error |
| Validators.ValidateVehicles | utils/validators.py:44-68 | the fleet is accepted exactly when it is non-empty and every vehicle is good; zero costs are accepted |
| Distance.PointMatrix | utils/distance.py:36-67 | the matrix has an entry for exactly the ordered index pairs of the points: 0.0 on the diagonal and the geodesic distance elsewhere |
| Distance.PathLength | utils/distance.py:70-97 | fewer than two points cost nothing; otherwise the cost is the sum of consecutive legs, plus the closing leg only when asked and only for more than two points |
| Distance.LegsAppend | utils/distance.py:90-91 | one more point adds exactly the leg to it |
| Distance.TwoPointPathIsOneWay | utils/distance.py:94-95 | a two-point path is one way even when a return is asked for |
| Distance.LegsNonNegative | utils/distance.py:84-97 | with a non-negative metric a path costs at least zero |
| Distance.IdLegsConcat | optimization/genetic_algorithm.py:509-512 | the legs of two joined paths are the legs of each plus the leg that joins them |
| Distance.TripIsClosedPath | optimization/genetic_algorithm.py:497-517 | a route's distance is that of the path leaving from the depot and ending there |
| Distance.IdLegsNonNegative | optimization/genetic_algorithm.py:509-512 | with a non-negative matrix the legs cost at least zero |
| Distance.TotalDistanceNonNegative | optimization/genetic_algorithm.py:449-476 | with a non-negative matrix the total distance is at least zero |
| Distance.TotalDistanceAppend | optimization/genetic_algorithm.py:449-476 | one more route adds exactly its round trip to the total |
| Distance.TotalDistancePermutation | optimization/genetic_algorithm.py:449-476 | reordering whole routes does not change the total distance |
| Cache.NewCache | utils/cache.py:21-30 | a new cache is empty, well formed and keeps its bound |
| Cache.KeySymmetric | utils/cache.py:32-36 | the key does not depend on the order of the two points |
| Cache.Get | utils/cache.py:38-50 | a read finds a value exactly when the key of the pair is stored, and the value it finds is the one stored under that key |
| Cache.Set | utils/cache.py:52-70 | a write fails with StopIteration exactly when it must evict from an empty dict (a non-positive bound); otherwise the cache stays well formed, keeps its bound and stores the value under the pair's key |
| Cache.SetThenGet | utils/cache.py:38-70 | after a write, reading the pair in either order gives the written value |
| Cache.SetOrder | utils/cache.py:52-70 | an overwrite keeps the key order; a new key goes last, pushing out the oldest key when the dict is full; every other entry keeps its value |
| Cache.SetBounded | utils/cache.py:52-70 | a write never grows a cache that is within its bound past the bound |
| Cache.Clear | utils/cache.py:72-76 | a cleared cache answers no pair and keeps its bound |
| Cache.CachedDistance | utils/cache.py:147-157 | a cached value, zero included, is returned as it is without touching the cache; otherwise the computed distance is returned and is then readable from the cache |
| Cache.CachedTwice | utils/cache.py:147-157 | a second call with the same points, in either order, returns the same value and leaves the cache unchanged |
| Fitness.ExcessTermSign | optimization/fitness/capacity_penalty.py:49-64 | one route's term is never negative, and with a positive weight it is zero exactly when the route has a vehicle and stays within its limit |
| Fitness.ExcessAppendCases | optimization/fitness/capacity_penalty.py:49-64 | the three cases of one more route: no vehicle for it adds weight times 1000, an overrun adds weight times the excess, and a route within its limit adds nothing |
| Fitness.ExcessNonNegative | optimization/fitness/capacity_penalty.py:42-66 | with a non-negative weight a penalty of this shape is never negative |
| Fitness.ExcessZero | optimization/fitness/capacity_penalty.py:42-66 | with a positive weight the penalty vanishes exactly when every route has a vehicle and no route exceeds its limit |
| Fitness.Loads | optimization/fitness/load_balance_penalty.py:54-61 | one load per route, each the weight of that route's known ids |
| Fitness.CapacityPenaltyNonNegative | optimization/fitness/capacity_penalty.py:42-66 | with β ≥ 0 the capacity penalty is never negative |
| Fitness.CapacityPenaltyZero | optimization/fitness/capacity_penalty.py:42-66 | with β > 0 the penalty is zero exactly when every route has a vehicle and its load is within that vehicle's capacity |
| Fitness.CapacityPenaltyAppend | optimization/fitness/capacity_penalty.py:48-64 | one more route adds β·1000 when no vehicle is left for it, whatever it holds; otherwise it adds β times its excess load, or nothing at or under capacity |
| Fitness.AutonomyDistances | optimization/fitness/autonomy_penalty.py:57-87 | one distance per route, each the depot-to-depot distance of that route's known deliveries |
| Fitness.AutonomyPenaltyNonNegative | optimization/fitness/autonomy_penalty.py:46-94 | with γ ≥ 0 the range penalty is never negative |
| Fitness.AutonomyPenaltyZero | optimization/fitness/autonomy_penalty.py:46-94 | with γ > 0 the penalty is zero exactly when every route has a vehicle and its distance is within that vehicle's range |
| Fitness.AutonomyPenaltyAppend | optimization/fitness/autonomy_penalty.py:49-92 | one more route adds γ·1000 without a vehicle, γ times its excess distance with one, and nothing within range |
| Fitness.AutonomyEmptyRoute | optimization/fitness/autonomy_penalty.py:61-92 | an empty route driven by a vehicle of non-negative range adds nothing |
| Fitness.UnknownIdsTravelNothing | optimization/fitness/autonomy_penalty.py:61-87 | a route none of whose ids is a delivery has distance zero: every leg needs both of its ends found |
| Fitness.InnerLegsUnknown | optimization/fitness/autonomy_penalty.py:71-77 | the legs between unknown ids add nothing |
| Fitness.PositionDelayNonNegative | optimization/fitness/priority_penalty.py:51-60 | one route's delay is never negative for δ ≥ 0, and it is zero exactly when δ is zero or no known critical delivery stands after the first position |
| Fitness.PriorityPenaltyZero | optimization/fitness/priority_penalty.py:44-62 | with δ ≥ 0 the penalty is never negative; with δ > 0 it is zero exactly when every known critical delivery is first on its route; normal and unknown ids never count |
| Fitness.PriorityPenaltyPermutation | optimization/fitness/priority_penalty.py:50-60 | the penalty does not depend on the order of whole routes |
| Fitness.LoadBalanceIsWeightedDeviation | optimization/fitness/load_balance_penalty.py:66-80 | with a positive mean load the penalty is the weight times the standard deviation of the loads, the coefficient of variation times the mean; with a zero mean it is zero |
| Fitness.LoadVarianceNonNegative | optimization/fitness/load_balance_penalty.py:67-68 | the variance of the loads is never negative |
| Fitness.LoadBalanceNonNegative | optimization/fitness/load_balance_penalty.py:48-80 | with a non-negative weight and a square root that is never negative, the penalty is never negative |
| Fitness.LoadBalanceEqualLoads | optimization/fitness/load_balance_penalty.py:66-80 | routes that all carry the same load cost nothing |
| Fitness.LoadBalancePermutation | optimization/fitness/load_balance_penalty.py:54-80 | reordering whole routes leaves the penalty unchanged |
| Fitness.DistanceTerm | optimization/fitness/distance_fitness.py:25-43 | the distance term is never negative for non-negative inputs, and it is zero when either the weight or the stored distance is zero |
| Fitness.DistanceTermReadsOnlyTotal | optimization/fitness/distance_fitness.py:42-43 | only the stored total distance is read: two solutions with the same total get the same term, whatever their routes |
| Fitness.CompositeNonNegative | optimization/fitness/composite_fitness.py:51-110 | non-negative weights and a non-negative stored distance give a non-negative fitness |
| Fitness.BreakdownSumsToComposite | optimization/fitness/composite_fitness.py:112-145 | the six breakdown values add up to the composite fitness |
| Fitness.VehicleTermCountsEveryRoute | optimization/fitness/composite_fitness.py:97-98 | every route counts toward the vehicle term, an empty one included: one more route adds exactly ε, and no routes cost nothing |
| Initialization.ChunkSize | optimization/initialization_strategy.py:72-73 | neighbouring split points `i * n // k` lie `n // k` or `n // k + 1` apart, and `n // k` is at least one when there are no more chunks than ids |
| Initialization.BoundAtMost | optimization/initialization_strategy.py:72-73 | no split point lies past the end of the list |
| Initialization.RandomRoutes | optimization/initialization_strategy.py:70-76 | after i rounds at most i routes were appended |
| Initialization.RandomRoutesFlatten | optimization/initialization_strategy.py:70-76 | after i rounds the appended routes, joined, are the shuffled list up to the i-th split point |
| Initialization.RandomRoutesFlattenNext | optimization/initialization_strategy.py:72-76 | one more round appends exactly the next slice |
| Initialization.RandomRoutesSizes | optimization/initialization_strategy.py:70-76 | with no more chunks than ids every round appends a route, of `n // k` or `n // k + 1` ids |
| Initialization.RandomIndividualCorrect | optimization/initialization_strategy.py:53-78 | the random individual has min(vehicles, deliveries) routes, none empty; joined they are the shuffled list, so they hold every id once; their sizes differ by at most one |
| Initialization.Nearest | optimization/initialization_strategy.py:112-124 | the inner loop finds nothing exactly when no remaining delivery fits the weight and the range; otherwise it picks a fitting delivery at least as near as every fitting one, the earliest among equals |
| Initialization.NearestRouteMoves | optimization/initialization_strategy.py:110-134 | one vehicle's loop only moves deliveries from the remaining list onto the route |
| Initialization.TracksStep | optimization/initialization_strategy.py:126-131 | one step keeps the running weight, the running range and the current location in step with the stops |
| Initialization.NearestRouteFeasible | optimization/initialization_strategy.py:106-134 | every route the loop closes is within the vehicle's capacity, and its outbound path is within the vehicle's range |
| Initialization.NearestFleet | optimization/initialization_strategy.py:102-138 | the fleet loop builds at most one route per vehicle |
| Initialization.NearestFleetStep | optimization/initialization_strategy.py:102-138 | one round: vehicle vi's route, when not empty, comes before the routes of the later vehicles, which start from what it left |
| Initialization.NearestFleetCovers | optimization/initialization_strategy.py:102-138 | the routes and the deliveries left over are, together, exactly the input |
| Initialization.NearestFleetFeasible | optimization/initialization_strategy.py:102-138 | every route is built by a distinct vehicle, in vehicle order, and fits that vehicle |
| Initialization.NearestNeighborIndividual | optimization/initialization_strategy.py:88-140 | the individual has no more routes than vehicles |
| Initialization.NearestNeighborCovers | optimization/initialization_strategy.py:88-140 | no route is empty; every placed id is an input id, none placed twice when the input ids are unique; deliveries that fit no vehicle are dropped |
| Initialization.TakeFitting | optimization/initialization_strategy.py:170-177 | one vehicle's critical loop takes a front part of the queue that fits on top of the load, and puts back the first critical that does not fit |
| Initialization.CriticalPhase | optimization/initialization_strategy.py:163-180 | the critical loop builds at most one route per vehicle |
| Initialization.CriticalPhaseSplits | optimization/initialization_strategy.py:163-180 | the critical routes cut the critical list, in order, into non-empty pieces, followed by the criticals left over |
| Initialization.SplitsCons | optimization/initialization_strategy.py:179-180 | a vehicle's piece, appended only when not empty, in front of a split of the rest of the queue, is a split of the whole queue |
| Initialization.HeavyCriticalBlocks | optimization/initialization_strategy.py:170-177 | a critical heavier than every vehicle blocks the queue: no critical behind it is placed either |
| Initialization.CurrentWeightIsFilteredSum | optimization/initialization_strategy.py:188-191 | the starting weight counts every input delivery whose id is on the route, duplicates included |
| Initialization.FillMoves | optimization/initialization_strategy.py:193-197 | the loop over the copy places deliveries of the copy only, and removes exactly those from the live list |
| Initialization.FillTakes | optimization/initialization_strategy.py:195-197 | placing the copy's first delivery removes one copy of it from the live list, which still holds the rest of the copy |
| Initialization.FillPlaces | optimization/initialization_strategy.py:193-197 | the turn that places a delivery, followed by the rest of the loop, moves exactly the placed deliveries |
| Initialization.TakeOneMoves | optimization/initialization_strategy.py:193-197 | placing one delivery and then what the rest of the loop places moves exactly those deliveries out of the live list |
| Initialization.FillWithin | optimization/initialization_strategy.py:193-197 | the running load is the starting load plus what was placed, and stays within the capacity once anything was placed |
| Initialization.NormalStep | optimization/initialization_strategy.py:184-197 | one round of the normal loop adds a route for vehicle vi when there is none yet |
| Initialization.NormalPhaseShape | optimization/initialization_strategy.py:184-197 | the normal loop ends with one route per vehicle and leaves the routes before vi alone |
| Initialization.NormalStepFills | optimization/initialization_strategy.py:184-197 | one round fills route vi with normals within the capacity and leaves the later routes, and a queue of normals only, as they were |
| Initialization.NormalPhaseFills | optimization/initialization_strategy.py:184-197 | every route from vi on is its earlier content followed by normals that fit its vehicle's capacity on top of the weight it held |
| Initialization.NormalPhaseAdds | optimization/initialization_strategy.py:184-197 | the normal loop adds nothing but the given normals |
| Initialization.PriorityPartition | optimization/initialization_strategy.py:158-159 | the split by priority is a partition: criticals on one side, the rest on the other, together exactly the input |
| Initialization.CriticalRoutesAreCritical | optimization/initialization_strategy.py:163-180 | the critical routes carry criticals only |
| Initialization.PriorityFirstRoutes | optimization/initialization_strategy.py:150-199 | the individual has one route per vehicle; since only non-empty critical routes are appended, route j starts with the j-th non-empty critical route, which a later vehicle may have built, or with nothing when fewer were built, and continues with normals that fit vehicle j's capacity |
| Initialization.PriorityFirstCriticalsLead | optimization/initialization_strategy.py:150-199 | no route of the individual carries a critical after a normal delivery |
| Initialization.FilledLead | optimization/initialization_strategy.py:184-197 | a filled route whose base holds only criticals has its criticals first |
| Initialization.PriorityFirstPlacesAtMostOnce | optimization/initialization_strategy.py:150-199 | no delivery is placed more often than it occurs in the input |
| Initialization.PriorityFirstDistinct | optimization/initialization_strategy.py:150-199 | with unique input ids, no id repeats in the individual |
| Greedy.IdPosition | optimization/greedy_optimizer.py:175 | the position of the first delivery carrying an id, absent exactly when no delivery carries it |
| Greedy.DictItemsShape | optimization/greedy_optimizer.py:175 | the dict built from the deliveries has one item per id, each the dict's entry for its id, and every key among them |
| Greedy.DictItemsOfDistinct | optimization/greedy_optimizer.py:175 | with distinct ids the dict's items are the input list itself, in order |
| Greedy.DictItemsIds | optimization/greedy_optimizer.py:175 | an id is a key of the dict exactly when some input delivery carries it |
| Greedy.PartsArePrioritySplit | optimization/greedy_optimizer.py:179-184 | the critical and normal comprehensions are the same priority split the initialisers use |
| Greedy.CandidatesPermutation | optimization/greedy_optimizer.py:187 | the scan order holds every remaining delivery exactly once |
| Greedy.CandidatesCriticalsFirst | optimization/greedy_optimizer.py:187 | no critical delivery is scanned after a non-critical one |
| Greedy.CandidatesAfterRemoval | optimization/greedy_optimizer.py:205-231 | removing the picked id from the order keeps it equal to the split of what remains, so the scan order is always the split of the remaining deliveries |
| Greedy.Lookup | optimization/greedy_optimizer.py:212 | a missing pair reads as infinity, a present pair as its stored distance |
| Greedy.ScanPick | optimization/greedy_optimizer.py:207-221 | the scan only keeps a candidate that fits the vehicle's weight and range, and once it has a best it keeps one |
| Greedy.Pick | optimization/greedy_optimizer.py:200-221 | a candidate picked from the start of the scan fits the vehicle |
| Greedy.PickIsNearest | optimization/greedy_optimizer.py:200-221 | the scan finds nothing exactly when no candidate fits, and otherwise the nearest fitting candidate, the earliest among equally near ones |
| Greedy.Step | optimization/greedy_optimizer.py:200-234 | a delivery the vehicle drives to next is remaining, fits, and has a non-empty id |
| Greedy.StepIsNearest | optimization/greedy_optimizer.py:200-234 | the picked delivery is no farther than any fitting remaining one; with non-empty ids nothing is picked only when nothing fits |
| Greedy.BuildRouteMoves | optimization/greedy_optimizer.py:198-234 | the route loop only moves deliveries from the remaining dict to the route |
| Greedy.TracksStep | optimization/greedy_optimizer.py:225-228 | adding a stop keeps the running weight and range equal to those of the stops |
| Greedy.BuildRouteWithin | optimization/greedy_optimizer.py:193-234 | every route the loop closes fits the capacity and the outbound range of the vehicle that built it |
| Greedy.StopsKeepPrefix | optimization/greedy_optimizer.py:198-234 | the stops picked so far stay a prefix of the route |
| Greedy.FirstStopIsPicked | optimization/greedy_optimizer.py:193-221 | a vehicle's first stop is the delivery picked from the depot with an empty load |
| Greedy.Fleet | optimization/greedy_optimizer.py:189-237 | the vehicle loop adds at most one route per vehicle |
| Greedy.FleetStep | optimization/greedy_optimizer.py:189-237 | one vehicle's round: its route is added only when non-empty, and the remaining vehicles run on what it left |
| Greedy.FleetCovers | optimization/greedy_optimizer.py:189-237 | every delivery ends on a route or among the leftovers, once |
| Greedy.FleetFeasible | optimization/greedy_optimizer.py:189-237 | the routes come in vehicle order, each fitting the vehicle that built it |
| Greedy.Singletons | optimization/greedy_optimizer.py:241-244 | the leftover loop makes one single-id route per leftover delivery, in dict order |
| Greedy.FlattenSingletons | optimization/greedy_optimizer.py:241-244 | the single-id routes, joined, are the leftover ids |
| Greedy.FleetPlan | optimization/greedy_optimizer.py:174-237 | the fleet loop over the whole dict yields at most one route per vehicle |
| Greedy.CoverFromParts | optimization/greedy_optimizer.py:174-246 | routes drawn from all the dict's items once, plus the leftover singletons, hold every input id exactly once |
| Greedy.SolveGreedyCovers | optimization/greedy_optimizer.py:162-246 | every input delivery id appears in exactly one route, exactly once, and no other id appears |
| Greedy.LoadOfStops | optimization/greedy_optimizer.py:302-306 | a route's weight read through the dict is the weight of its stops |
| Greedy.SolveGreedyShape | optimization/greedy_optimizer.py:162-246 | the fleet routes come first, at most one per vehicle, in increasing vehicle order, non-empty and within the building vehicle's capacity and outbound range; every later route holds one id |
| Greedy.StopsAreItems | optimization/greedy_optimizer.py:175-306 | deliveries drawn from the dict's items weigh what the dict says they weigh |
| Greedy.FleetAligned | optimization/greedy_optimizer.py:189-237 | the vehicle loop that keeps an empty route in its place adds at most one route per vehicle |
| Greedy.FleetAlignedStep | optimization/greedy_optimizer.py:189-237 | one round of the aligned loop always adds the vehicle's route, empty or not |
| Greedy.FleetCompacts | optimization/greedy_optimizer.py:236-237 | dropping the empty routes of the aligned loop gives the loop as written, with the same leftovers |
| Greedy.FleetAlignedCovers | optimization/greedy_optimizer.py:189-237 | the aligned loop places every remaining delivery exactly once |
| Greedy.FleetAlignedFits | optimization/greedy_optimizer.py:189-237 | route j of the aligned loop was built by vehicle vi + j and fits it |
| Greedy.FleetAlignedFull | optimization/greedy_optimizer.py:189-241 | deliveries are left over only when every vehicle was given a route |
| Greedy.SolveGreedyAlignedCovers | optimization/greedy_optimizer.py:162-246 | the aligned solve covers every input id exactly once |
| Greedy.SolveGreedyAlignedFits | optimization/greedy_optimizer.py:119-246 | every non-empty fleet route j of the aligned solve fits vehicle j, the vehicle it is judged against, in weight and outbound range |
| Greedy.IdRoutesDropEmpty | optimization/greedy_optimizer.py:236-237 | reading the ids off the routes and dropping the empty ones commute |
| Greedy.SolveGreedyCompacts | optimization/greedy_optimizer.py:162-246 | the plan as written is the aligned plan with its empty routes dropped |
| Greedy.SolveGreedyAgrees | optimization/greedy_optimizer.py:162-246 | when every vehicle got a non-empty route, the plan as written is the aligned plan |
| GreedyOptimizer.BuildMatrix | optimization/greedy_optimizer.py:134-160 | the table has a key for every ordered pair of distinct dict ids and for the depot to and from each id, and nothing else; each entry is the distance between the dict's (last) deliveries, with the depot rows written last |
| GreedyOptimizer.PairRows | optimization/greedy_optimizer.py:144-149 | the nested loop stores exactly the pairs of distinct ids, each with the distance between their dict entries |
| GreedyOptimizer.PairRow | optimization/greedy_optimizer.py:145-149 | one pass of the inner loop adds the row of one more delivery |
| GreedyOptimizer.DepotRows | optimization/greedy_optimizer.py:152-158 | the depot loop adds the depot to and from every id, overwriting nothing else |
| GreedyOptimizer.RouteDistance | optimization/greedy_optimizer.py:283-287 | the per-route loop is the round trip depot, stops, depot, with missing keys read as zero |
| GreedyOptimizer.Trips | optimization/greedy_optimizer.py:281-287 | one round-trip distance per route |
| GreedyOptimizer.RoutesToSolution | optimization/greedy_optimizer.py:248-339 | the solution keeps the routes, its distance is over every route, its cost and violations over the routes that have a vehicle, and its fitness is the composite fitness of that solution |
| GreedyOptimizer.SumTrips | optimization/greedy_optimizer.py:260-274 | the total-distance loop counts every route, with or without a vehicle |
| GreedyOptimizer.SumCosts | optimization/greedy_optimizer.py:276-290 | the cost loop prices each route with its vehicle's fuel and driver cost at 50 km/h and skips routes past the fleet |
| GreedyOptimizer.SumViolations | optimization/greedy_optimizer.py:292-322 | the violation loop sums the weight and distance overruns of the routes that have a vehicle |
| GreedyOptimizer.OverrunNonNegative | optimization/greedy_optimizer.py:308-319 | a reported violation is never negative |
| GreedyOptimizer.OverrunZeroIff | optimization/greedy_optimizer.py:308-319 | no violation is reported exactly when every route that has a vehicle stays within that vehicle's limit |
| GreedyOptimizer.OverrunIgnoresBeyondFleet | optimization/greedy_optimizer.py:297-299 | routes past the fleet add nothing to a violation |
| GreedyOptimizer.FleetCostIgnoresBeyondFleet | optimization/greedy_optimizer.py:278-279 | routes past the fleet cost nothing |
| GreedyOptimizer.FleetCostNonNegative | optimization/greedy_optimizer.py:276-290 | with non-negative distances and prices the cost is non-negative |
| GreedyOptimizer.ExcessIsWeightedOverrun | optimization/greedy_optimizer.py:308-319 | the fitness excess penalty is the reported violation plus 1000 per route past the fleet, times the weight |
| GreedyOptimizer.CapacityPenaltyIsReported | optimization/greedy_optimizer.py:302-309 | the capacity term of the fitness is beta times the reported capacity violation plus 1000 beta per route past the fleet |
| GreedyOptimizer.ValidateSolution | optimization/greedy_optimizer.py:100-132 | a solution is accepted exactly when its id set is the deliveries' id set, every route has a vehicle, and each route's dict weight is within that vehicle's capacity |
| GreedyOptimizer.ValidationIgnoresRange | optimization/greedy_optimizer.py:100-132 | validation never reads the range: two fleets with the same capacities accept the same solutions |
| GreedyOptimizer.ValidationIgnoresDuplicates | optimization/greedy_optimizer.py:109-116 | a delivery listed twice on one route is accepted, because only id sets are compared |
| GreedyOptimizer.SampleRoutes | optimization/greedy_optimizer.py:189-234 | on the sample the first vehicle's route stays empty and the second vehicle takes the delivery |
| GreedyOptimizer.SecondVehicleTakesAll | optimization/greedy_optimizer.py:189-237 | when the first of two vehicles takes nothing and the second everything, the loop as written keeps one route, the aligned loop two |
| GreedyOptimizer.CompactionMisassignsVehicles | optimization/greedy_optimizer.py:236-237 | as written the second vehicle's route lands at index 0 and is judged against the first vehicle: a capacity violation of 4 is reported and validation fails, though the builder had room |
| GreedyOptimizer.AlignedFromPlan | optimization/greedy_optimizer.py:189-246 | the corrected solve, when the fleet takes everything, is the id lists of the vehicles' routes and nothing more |
| GreedyOptimizer.AlignedKeepsVehicles | optimization/greedy_optimizer.py:236-237 | the corrected plan keeps the empty route at index 0, so no violation is reported and validation passes |
| GreedyOptimizer.AlignedCapacityClean | optimization/greedy_optimizer.py:292-322 | with non-negative capacities no capacity violation is reported for the corrected plan |
| GreedyOptimizer.AlignedRouteFits | optimization/greedy_optimizer.py:119-130 | route i of the corrected plan, for a vehicle i, fits vehicle i's capacity |
| GreedyOptimizer.AlignedAcceptableIff | optimization/greedy_optimizer.py:100-244 | the corrected plan passes validation exactly when the fleet took every delivery |
| GreedyOptimizer.Optimize | optimization/greedy_optimizer.py:42-98 | as written: invalid deliveries or vehicles come back as an optimization error; otherwise one generation, the solution's fitness as the whole history, every id exactly once, the plan being the aligned plan with its empty routes dropped, and no capacity violation when every vehicle's route is non-empty |
| GreedyOptimizer.OptimizeAligned | optimization/greedy_optimizer.py:42-98 | with the plan that keeps every vehicle's route in its place: the same failures and results, and never a capacity violation |
| Mutation.SlotMeansDeliveries | optimization/genetic_algorithm.py:692-697 | a position that can be drawn from `all_deliveries` means there is at least one delivery |
| Mutation.PyInsert | optimization/genetic_algorithm.py:721 | `list.insert` adds the element once, at the index or at the end when the index is past it |
| Mutation.SwapSlots | optimization/genetic_algorithm.py:690-702 | the two drawn deliveries trade places; the shape and every other position stay as they were |
| Mutation.SwapPermutes | optimization/genetic_algorithm.py:690-702 | a swap keeps every delivery: the joined routes are a permutation of the original |
| Mutation.SwapInvolution | optimization/genetic_algorithm.py:690-702 | swapping the same two positions twice restores the routing |
| Mutation.ReverseRoute | optimization/genetic_algorithm.py:723-727 | the chosen route is reversed and every other route is unchanged |
| Mutation.ReversePermutes | optimization/genetic_algorithm.py:723-727 | a reversal keeps every delivery |
| Mutation.Detach | optimization/genetic_algorithm.py:715-717 | popping the drawn delivery removes exactly it, and the route is dropped exactly when it held nothing else |
| Mutation.Attach | optimization/genetic_algorithm.py:719-721 | inserting into a target route adds exactly the delivery, to that route |
| Mutation.MoveDelivery | optimization/simulated_annealing_optimizer.py:274-286 | the corrected move, with the target clamped to the last route, keeps every delivery and leaves it on some route, removing at most one empty route |
| Mutation.GaMoveLoss | optimization/genetic_algorithm.py:704-721 | the genetic move loses the drawn delivery exactly when its route held nothing else and the target was the last route; then it loses exactly that delivery |
| Mutation.GaMoveDropsDelivery | optimization/genetic_algorithm.py:712-721 | moving the only delivery of the first of two routes to the second route drops it |
| Mutation.SaMoveOutcome | optimization/simulated_annealing_optimizer.py:267-286 | the annealing move fails exactly on a single route holding a single delivery, and otherwise is the corrected move |
| Mutation.SaMoveFailsOnSingleDelivery | optimization/simulated_annealing_optimizer.py:278-286 | on one route holding one delivery the clamp reaches index -1 of an empty list: an IndexError |
| Mutation.Mutate | optimization/genetic_algorithm.py:676-727 | the corrected mutation keeps every delivery, whatever the operator |
| Mutation.GaMutateAgrees | optimization/genetic_algorithm.py:676-727 | apart from the move, the genetic mutation is the corrected one |
| Mutation.SaNeighborAgrees | optimization/simulated_annealing_optimizer.py:236-295 | the annealing neighbour fails only on the move from a lone delivery, and otherwise is the corrected mutation |
| Mutation.MutateKeepsDistinct | optimization/genetic_algorithm.py:676-727 | a routing without duplicate ids keeps none after the corrected mutation |
| Genetic.SolutionScore | optimization/genetic_algorithm.py:382-404 | the solution rebuilt from an individual's routes carries the score the individual was evaluated to |
| Genetic.Without | optimization/genetic_algorithm.py:596 | the filtered parent holds exactly its ids that are not in the segment, no more often than before, and stays duplicate-free |
| Genetic.OxChild | optimization/genetic_algorithm.py:595-600 | a child starts with the segment and continues with the other parent's remaining ids in that parent's order |
| Genetic.OxPermutes | optimization/genetic_algorithm.py:594-600 | when both parents arrange the same distinct ids, each child arranges them too: nothing lost, nothing repeated |
| Genetic.OxSameElements | optimization/genetic_algorithm.py:594-600 | a child holds exactly the parents' ids |
| Genetic.KnownIds | optimization/genetic_algorithm.py:633-635 | the loop keeps exactly the ids found in the delivery dict, in order, and all of them when every id is known |
| Genetic.PlaceTidy | optimization/genetic_algorithm.py:637-659 | from a consistent state every placement succeeds, keeps the state consistent and appends the id after what the routes held |
| Genetic.PackTidy | optimization/genetic_algorithm.py:633-659 | from a consistent state the loop succeeds and lays out the known ids, in order, after what the routes already held |
| Genetic.PackPlace | optimization/genetic_algorithm.py:637-659 | placing a known id continues the loop from a consistent state holding one more id |
| Genetic.PackWithoutRoutes | optimization/genetic_algorithm.py:629-658 | with no starting route the first known id indexes `routes[-1]` of an empty list, so the loop succeeds exactly when no id is known |
| Genetic.RedistributeCorrect | optimization/genetic_algorithm.py:612-663 | with at least one starting route the redistribution lays out exactly the known ids in order over non-empty routes, no more routes than vehicles; with none it fails exactly when an id is known |
| Genetic.RedistributeArranges | optimization/genetic_algorithm.py:612-663 | a child of distinct known ids is laid out, all of it, over non-empty routes, at most one per vehicle |
| Genetic.ChildrenArrange | optimization/genetic_algorithm.py:591-600 | both children of two arrangements of the same distinct ids arrange those ids, the second segment clipped to the second parent |
| Genetic.PermutationKnown | optimization/genetic_algorithm.py:633-635 | every id of a permutation of known ids is known |
| Genetic.ChildArranges | optimization/genetic_algorithm.py:603-608 | a child rearranging distinct known ids redistributes into routes that arrange them |
| Genetic.CrossoverPermutes | optimization/genetic_algorithm.py:574-610 | when the parents arrange the same distinct known ids and there is a vehicle, both children arrange exactly those ids over non-empty routes, at most one per vehicle |
| Genetic.SelBest | optimization/genetic_algorithm.py:750 | `selBest` picks min(k, size) individuals of the pool, sorted by score |
| Genetic.SelBestKeepsLeast | optimization/genetic_algorithm.py:750 | selection keeps the pool's best score |
| Genetic.SelBestIsLowest | optimization/genetic_algorithm.py:750 | no individual left out scores below one that was selected |
| Genetic.Elitism | optimization/genetic_algorithm.py:729-752 | the new population has min(size, pool) members drawn from the population and offspring together, its best no worse than the current population's |
| Genetic.Advance | optimization/genetic_algorithm.py:205-215 | the bookkeeping after replacement counts one more generation |
| Genetic.PlateauStep | optimization/genetic_algorithm.py:208-215 | appending an entry no larger than the last keeps the history non-increasing; a strict improvement resets the counter, an equal entry increments it |
| Genetic.GenerationConsistent | optimization/genetic_algorithm.py:184-215 | a generation keeps the loop state consistent and counts one more generation |
| Genetic.RecordConsistent | optimization/genetic_algorithm.py:206-215 | recording the best score of a population no worse than the current one keeps the loop consistent |
| Genetic.RecordTracked | optimization/genetic_algorithm.py:206-215 | recording a score no larger than the last appends it to the history and makes it the best so far |
| Genetic.EvolveUnfold | optimization/genetic_algorithm.py:184-222 | one turn of the loop: a failing generation fails, a stalled one stops, any other goes on |
| Genetic.EvolveConsistent | optimization/genetic_algorithm.py:184-222 | the loop keeps its state consistent, runs no further than the last generation, and stops early only when the counter reached a truthy threshold |
| Genetic.EvolveLastTurn | optimization/genetic_algorithm.py:217-222 | the turn that fails or stops ends the run in a finished state |
| Genetic.EvolveContinues | optimization/genetic_algorithm.py:217-222 | a turn that neither fails nor stops hands over to the next |
| Genetic.EvolveSucceeds | optimization/genetic_algorithm.py:184-750 | with a non-empty population and a positive size the loop never fails |
| Genetic.EvolveFailsWhenEmpty | optimization/genetic_algorithm.py:206-207 | with size 0, or nothing to select from, the first generation is empty and `min` raises ValueError |
| Breeding.SlotOf | optimization/genetic_algorithm.py:692-696 | entry k of `all_deliveries` is a valid (route, position) pair holding the k-th id of the joined routes |
| Breeding.SlotOfInjective | optimization/genetic_algorithm.py:692-696 | different entries of the enumeration are different positions |
| Breeding.OtherPosition | optimization/genetic_algorithm.py:698-700 | the second entry drawn by `random.sample(…, 2)` differs from the first |
| Breeding.MutationDraw | optimization/genetic_algorithm.py:688-727 | the draws of one mutation lie in the ranges Python's `random` gives them, and the operator is chosen from swap, move, reverse |
| Breeding.Aspirant | optimization/genetic_algorithm.py:555-557 | every aspirant of a tournament is a member of the population |
| Breeding.Tournament | optimization/genetic_algorithm.py:555-557 | a tournament's winner is the aspirant of lowest fitness, the first one drawn on a tie |
| Breeding.SelectRefs | optimization/genetic_algorithm.py:550-558 | selection returns one reference into the population per member, each the winner of its own tournament |
| Breeding.Values | optimization/genetic_algorithm.py:550-558 | the individuals the references point at, one per reference |
| Breeding.Select | optimization/genetic_algorithm.py:550-558 | on values, every chosen individual is a member of the population, one per member |
| Breeding.Cut | optimization/genetic_algorithm.py:591-592 | the crossover segment is non-empty and within the first parent |
| Breeding.CrossPair | optimization/genetic_algorithm.py:564-570 | a pair that is not crossed keeps its parents |
| Breeding.CrossAll | optimization/genetic_algorithm.py:560-572 | the corrected crossover keeps the offspring's size |
| Breeding.MutateOne | optimization/genetic_algorithm.py:669-672 | mutating one offspring keeps its deliveries, and leaves it alone when its roll is not below the rate |
| Breeding.MutateAll | optimization/genetic_algorithm.py:665-674 | the corrected mutation keeps the offspring's size |
| Breeding.Breed | optimization/genetic_algorithm.py:185-192 | one generation's breeding yields as many offspring as there are members |
| Breeding.CrossPairCovers | optimization/genetic_algorithm.py:564-610 | crossing two parents that serve every id once yields children that do, and with a vehicle the redistribution succeeds |
| Breeding.CrossAllCovers | optimization/genetic_algorithm.py:560-572 | the corrected crossover keeps offspring that serve every id once |
| Breeding.MutateOneCovers | optimization/genetic_algorithm.py:669-672 | the corrected mutation keeps an individual that serves every id once |
| Breeding.MutateAllCovers | optimization/genetic_algorithm.py:665-674 | the corrected mutation keeps offspring that serve every id once |
| Breeding.BreedCovers | optimization/genetic_algorithm.py:185-192 | breeding a population that serves every id once yields offspring that do: no delivery is lost or served twice |
| Breeding.GenerationCovers | optimization/genetic_algorithm.py:200-203 | replacement picks from the population and the offspring, so a generation from covering individuals stays covering |
| Breeding.EvolveStops | optimization/genetic_algorithm.py:217-222 | a turn whose counter reaches the threshold ends the loop with that generation |
| Breeding.EvolveBreaks | optimization/genetic_algorithm.py:184-247 | a turn whose generation fails ends the loop with its error |
| Breeding.EvolveCovers | optimization/genetic_algorithm.py:184-222 | with a breeding that keeps coverage, the final population covers when the initial one does |
| Breeding.BredGenerationKeepsBest | optimization/genetic_algorithm.py:200-215 | the corrected generation succeeds, keeps the loop consistent and never records a worse best than the previous entry |
| Breeding.CrossAsWritten | optimization/genetic_algorithm.py:564-570 | a crossover as written that succeeds hands back the references it was given |
| Breeding.CrossoverSucceeds | optimization/genetic_algorithm.py:574-610 | with at least one vehicle the crossover of two parents succeeds |
| Breeding.CrossAsWrittenOutcome | optimization/genetic_algorithm.py:564-663 | with a vehicle the crossover as written raises AttributeError exactly when some pair is crossed, because the children are plain lists without `fitness` |
| Breeding.CrossedPairRaises | optimization/genetic_algorithm.py:566-569 | a crossed first pair raises AttributeError |
| Breeding.UncrossedPairPasses | optimization/genetic_algorithm.py:564-565 | past an uncrossed first pair the outcome is that of the remaining pairs |
| Breeding.MutateAsWritten | optimization/genetic_algorithm.py:665-674 | the in-place mutation rewrites only individuals some offspring reference points at |
| Breeding.SampleSelection | optimization/genetic_algorithm.py:555-557 | on the sample both tournaments choose the first individual, so both offspring alias it |
| Breeding.SampleMutation | optimization/genetic_algorithm.py:669-727 | reversing the first offspring in place turns the population's best individual into the worse one |
| Breeding.AliasingLosesBest | optimization/genetic_algorithm.py:186-208 | from a consistent sample state the generation as written records 1.0 after 0.0: the best fitness of the run gets worse |
| Breeding.SampleOutcome | optimization/genetic_algorithm.py:186-215 | on the sample both individuals end up as the worse one and the recorded best stays 0.0 while the history gains 1.0 |
| Breeding.CountedStep | optimization/genetic_algorithm.py:208-215 | an entry below the best so far becomes the best with the counter reset; any other entry, even one worse than the last, adds one to the counter, which keeps counting the entries since the least one |
| Breeding.RecordKept | optimization/genetic_algorithm.py:206-215 | recording the best score of any non-empty population, worse than the last entry or not, keeps the loop as written consistent: one entry per generation, the best so far the least entry, the last entry the population's best score |
| Breeding.AdvanceKept | optimization/genetic_algorithm.py:206-215 | recording a generation after a consistent state keeps the loop as written consistent and counts one more generation |
| Breeding.EvolveAsWrittenTurn | optimization/genetic_algorithm.py:184-222 | a successful run as written with a generation due records that generation, then either stops on a stalled counter or continues from it to the same end |
| Breeding.EvolveAsWrittenKept | optimization/genetic_algorithm.py:184-222 | a successful run as written ends consistent, after at least one more generation when one was due and at most `generations`, stopped early only on a stalled counter |
| Breeding.EvolveAsWrittenRaises | optimization/genetic_algorithm.py:184-190 | a run as written whose next due generation raises during breeding ends with that error |
| Breeding.LastGenerationPasses | optimization/genetic_algorithm.py:184-215 | with a positive size, a last due generation whose breeding succeeds with a non-empty population completes the run |
| Breeding.EvolveAsWrittenEmpty | optimization/genetic_algorithm.py:206-207 | a run as written whose next due generation breeds nothing fails with the ValueError of `min` over the empty fitnesses |
| Breeding.BreedAsWrittenOutcome | optimization/genetic_algorithm.py:185-192 | with a vehicle, one generation's breeding as written raises exactly when some pair of the selected references is crossed, always with AttributeError on `list.fitness`, and breeds nothing from an empty population |
| Breeding.Created | optimization/genetic_algorithm.py:372-378 | the initial population is one distinct object per individual, reading back exactly the generated routings |
| Breeding.BreedAsWritten | optimization/genetic_algorithm.py:185-192 | a successful breeding as written keeps the objects' count and the population's references, and offers one offspring reference per member |
| Breeding.ElitismRefs | optimization/genetic_algorithm.py:744-750 | `selBest(population + offspring, …)` keeps references: each elite reference points at an object, is drawn from the population's and the offspring's references together, no reference more often than it occurs there, and the objects read back as the elitist replacement of the individuals they point at |
| Breeding.NextAsWritten | optimization/genetic_algorithm.py:185-203 | a generation as written fails exactly when its breeding does, with the same error; otherwise the next population lives on the mutated objects, reads as the elite of the mutated population and the offspring, and holds `population_size` references, or all of them when there are fewer |
| Breeding.NextAsWrittenOutcome | optimization/genetic_algorithm.py:185-203 | with a vehicle, a generation as written raises AttributeError on `list.fitness` exactly when a pair of the selected references is crossed, otherwise keeps `population_size` references or all there are, and never raises from an empty population |
| Breeding.CoveringPairsCross | optimization/genetic_algorithm.py:564-590 | in a population whose individuals all serve the same ids once, a pair is crossed exactly when there are at least two ids and its draw is below the rate, whichever individuals the tournaments chose |
| GeneticOptimizer.BreederCloses | optimization/genetic_algorithm.py:185-192 | with at least one vehicle the corrected breeding keeps every covering population covering |
| GeneticOptimizer.BestOfPopulation | optimization/genetic_algorithm.py:225 | `selBest(population, 1)[0]` is a member of the population scoring its minimum |
| GeneticOptimizer.RunOutcome | optimization/genetic_algorithm.py:184-222 | a successful run as written leaves a consistent state after between one and `generations` generations, stopped early only on a stalled counter |
| GeneticOptimizer.FirstBreeding | optimization/genetic_algorithm.py:184-192 | with a vehicle, the first generation's breeding as written raises AttributeError exactly when a pair of the selected references is crossed, otherwise yields one offspring per member, and nothing from an empty population |
| GeneticOptimizer.RunEmpty | optimization/genetic_algorithm.py:206-207 | with a vehicle, a run as written from a non-positive population size fails on its first generation with the ValueError of `min` |
| GeneticOptimizer.RunFirstGeneration | optimization/genetic_algorithm.py:184-215 | with a vehicle and a covering population, a run as written fails with AttributeError when there are two or more ids and a first-generation pair draws below the rate, and a single generation crossing no pair succeeds |
| GeneticOptimizer.RunRaises | optimization/genetic_algorithm.py:184-192 | a run as written whose first generation raises during breeding ends with that error |
| GeneticOptimizer.RunSingle | optimization/genetic_algorithm.py:184-215 | a single generation as written that breeds a non-empty population completes the run |
| GeneticOptimizer.RunCases | optimization/genetic_algorithm.py:184-222 | with a vehicle, the run as written fails on `min` from an empty population, fails with AttributeError when the population covers two or more ids and a pair of the first generation draws below the rate, and succeeds in a single generation that crosses no pair |
| GeneticOptimizer.RunCorrectedOutcome | optimization/genetic_algorithm.py:184-222 | a successful corrected run leaves a consistent state after between one and `generations` generations, stopped early only on a stalled counter, and covering when the start did |
| GeneticOptimizer.Prepare | optimization/genetic_algorithm.py:125-160 | the checks before the loop pass exactly on valid inputs with generations to run; every failure is an optimization error with the source's prefix, naming the unbound `generation` or the IndexError of an empty `selBest` when there is no generation |
| GeneticOptimizer.EvolveFrom | optimization/genetic_algorithm.py:169-244 | the evolution as written: the `min` of an empty first generation, the AttributeError of a crossed first pair in a covering population of two or more ids, success of a single uncrossed generation; on success one history entry per generation, ending with the solution's fitness, and an early end only once the counter since the least entry reached a truthy threshold |
| GeneticOptimizer.Champion | optimization/genetic_algorithm.py:225-228 | the best individual turned into a solution scores the least of the population and covers what every individual covers |
| GeneticOptimizer.Optimize | optimization/genetic_algorithm.py:125-247 | as written: success only with valid inputs, generations to run and a positive population; every failure is an optimization error with the source's prefix, naming the unbound `generation`, the IndexError of an empty `selBest`, the empty `min`, or the AttributeError of the first crossed pair; one uncrossed generation succeeds; on success the results `EvolveFrom` promises |
| GeneticOptimizer.EvolveCorrected | optimization/genetic_algorithm.py:169-244 | with the corrected breeding: success exactly with a positive population size, otherwise the `min` of an empty list; on success the history has one entry per generation run, never increases, ends with the solution's fitness, ends early only on a plateau as long as the threshold, and every id is served once when the initial population did so |
| GeneticOptimizer.OptimizeCorrected | optimization/genetic_algorithm.py:125-247 | with the corrected breeding: success exactly with valid inputs, generations to run and a positive population; on success the results `EvolveCorrected` promises |
| LocalSearch.ScanJ | optimization/local_search.py:129-141 | the inner loop finds the first improving j for this i, or states that none improves |
| LocalSearch.ScanI | optimization/local_search.py:128-143 | the outer loop finds the first improving pair in loop order, or states that none improves |
| LocalSearch.FirstImprovingNone | optimization/local_search.py:126-143 | a pass finds nothing exactly when no reversal it tries shortens the route |
| LocalSearch.CandidateKeeps | optimization/local_search.py:134 | a segment reversal keeps the ids, the length and both ends of the route |
| LocalSearch.ShorterShrinks | optimization/local_search.py:126-143 | moving to a shorter rearrangement strictly shrinks the set of shorter rearrangements, so the `while improved` loop ends |
| LocalSearch.Descend | optimization/local_search.py:122-145 | the loop ends on a rearrangement of the route with the same ends, no longer, strictly shorter when it differs, with no improving reversal left |
| LocalSearch.TwoOpt | optimization/local_search.py:113-145 | routes of fewer than four ids come back as they are; otherwise a rearrangement with the same ends, no longer, strictly shorter when it differs, and locally optimal for the reversals tried |
| LocalSearch.TwoOptChanges | optimization/local_search.py:113-145 | a route of four or more ids changes exactly when some reversal the loop tries shortens it |
| LocalSearch.TwoOptAll | optimization/local_search.py:81-84 | 2-opt on every route, one result per route |
| LocalSearch.TwoOptAllNoLonger | optimization/local_search.py:81-222 | route by route 2-opt never lengthens the total distance |
| LocalSearch.TwoOptAllKeepsIds | optimization/local_search.py:81-84 | route by route 2-opt keeps the solution's ids |
| LocalSearch.Move | optimization/local_search.py:193-194 | a move keeps the number of routes |
| LocalSearch.MoveShape | optimization/local_search.py:193-194 | only the receiving route gains an id, and only one |
| LocalSearch.Shift | optimization/local_search.py:195-196 | the load update keeps the number of loads |
| LocalSearch.MoveKeepsIds | optimization/local_search.py:193-194 | moving an id of the giving route keeps the solution's ids |
| LocalSearch.LoadRemoveFirst | optimization/local_search.py:193-195 | removing one occurrence of an id lowers the route's load by its weight |
| LocalSearch.MoveLoads | optimization/local_search.py:193-196 | the incremental load updates equal the loads of the moved routes |
| LocalSearch.Attempt | optimization/local_search.py:175-196 | one attempt keeps the number of routes and loads |
| LocalSearch.AttemptKeepsIds | optimization/local_search.py:175-196 | an attempt keeps the ids between the routes |
| LocalSearch.AttemptGrowth | optimization/local_search.py:188-196 | an attempt adds no id to a route without a vehicle and at most one to any route |
| LocalSearch.Rebalance | optimization/local_search.py:173-196 | the attempts keep the number of routes and loads |
| LocalSearch.RebalanceUnfold | optimization/local_search.py:173-196 | an attempt that is not stopped by the tolerance runs and hands over to the next |
| LocalSearch.RebalanceDone | optimization/local_search.py:173-182 | after ten attempts, or once the heaviest load is within 1.1 times the mean or its route is empty, the loop ends with what it has |
| LocalSearch.RebalanceKeepsIds | optimization/local_search.py:173-196 | the attempts keep the ids between the routes |
| LocalSearch.RebalanceGrowth | optimization/local_search.py:173-196 | a route without a vehicle never gains an id, and no route gains more than one per remaining attempt |
| LocalSearch.BalanceLoads | optimization/local_search.py:147-198 | fewer than two routes, or routes already within the tolerance, come back unchanged; otherwise the routes keep their number and ids, a route without a vehicle never gains, and no route gains more than ten ids |
| LocalSearch.AttemptTracks | optimization/local_search.py:193-196 | the incremental loads after an attempt are the loads of its routes |
| LocalSearch.RebalanceTracks | optimization/local_search.py:157-196 | `route_loads` stays equal to the loads of `new_routes` throughout |
| LocalSearch.ShiftWithin | optimization/local_search.py:190-196 | moving a non-negative weight to a route whose vehicle has room keeps every grown load within capacity |
| LocalSearch.RebalanceWithin | optimization/local_search.py:173-196 | with non-negative weights the attempts keep every grown load within its vehicle's capacity |
| LocalSearch.BalanceLoadsWithin | optimization/local_search.py:147-198 | with non-negative weights every route the balancing makes heavier has a vehicle and stays within its capacity |
| LocalSearch.Rebuilt | optimization/local_search.py:91-228 | a pass's solution has its own total distance, a cost of 2.5 per km, fitness 0.0 and no violations |
| LocalSearch.Pass | optimization/local_search.py:80-87 | one pass keeps the number of routes and the ids |
| LocalSearch.Search | optimization/local_search.py:76-109 | the loop ends on a solution that scores no worse, strictly better when new, unchanged once the passes run out, rebuilt by a pass when new, with the same routes count and ids |
| LocalSearch.ImproveSolution | optimization/local_search.py:50-111 | without a calculator or a pass to run the input itself; otherwise a solution scoring no worse, strictly better when new and then built by a pass, serving the same ids on as many routes |
| LocalSearch.ImproveSolutionAsWritten | optimization/local_search.py:50-111 | as written the call fails with the TypeError of the missing `metadata` exactly when `max_iterations >= 1`, whether or not there is a calculator |
| LocalSearch.ImproveAsWrittenAgrees | optimization/local_search.py:74-111 | the call as written returns exactly when the corrected search runs no pass, and both then give back the input |
| Annealing.Budget | optimization/simulated_annealing_optimizer.py:102 | the iteration budget is `generations` when positive and 1000 otherwise, so at least one |
| Annealing.CooledPositive | optimization/simulated_annealing_optimizer.py:101-126 | a positive start and a positive rate keep every temperature positive |
| Annealing.Ran | optimization/simulated_annealing_optimizer.py:104-130 | the number of iterations run is the first whose cooled temperature is below the floor, or the budget |
| Annealing.CoolingSample | optimization/simulated_annealing_optimizer.py:126-130 | starting at 10, halving, with a floor of 1, the fourth iteration is the last |
| Annealing.AcceptsOutcome | optimization/simulated_annealing_optimizer.py:112-115 | an improvement is always taken; the only failure is a division by a zero temperature, which needs a delta that is no improvement; an equal neighbour is taken at any non-zero temperature |
| Annealing.StepShape | optimization/simulated_annealing_optimizer.py:105-126 | one pass counts an iteration and cools once; the current routing stays or becomes the neighbour, the best stays or becomes the new current one |
| Annealing.StepSucceeds | optimization/simulated_annealing_optimizer.py:105-126 | a pass with a neighbour and a non-zero temperature succeeds |
| Annealing.StepSound | optimization/simulated_annealing_optimizer.py:115-123 | a pass keeps the history strictly decreasing and ending with the best routing's fitness |
| Annealing.AnnealUnfold | optimization/simulated_annealing_optimizer.py:104-130 | a run past its first pass stopped on the cooled temperature or went on from there |
| Annealing.AnnealSound | optimization/simulated_annealing_optimizer.py:96-130 | every successful run keeps the history strictly decreasing, starting at the seed's fitness and ending at the best routing's |
| Annealing.StepOnSchedule | optimization/simulated_annealing_optimizer.py:126 | after a pass the temperature is still the start cooled once per iteration run |
| Annealing.AnnealOnSchedule | optimization/simulated_annealing_optimizer.py:101-130 | every successful run stays on that schedule |
| Annealing.AnnealRan | optimization/simulated_annealing_optimizer.py:104-142 | a run stops after the number of iterations `Ran` gives |
| Annealing.CorrectedKeeps | optimization/simulated_annealing_optimizer.py:236-295 | the corrected neighbour keeps the deliveries |
| Annealing.AnnealCarries | optimization/simulated_annealing_optimizer.py:104-130 | with a neighbour that keeps the deliveries, so does every run |
| Annealing.AnnealSucceeds | optimization/simulated_annealing_optimizer.py:104-130 | with the corrected neighbour and a positive temperature no run fails |
| Annealing.NeighbourAgrees | optimization/simulated_annealing_optimizer.py:236-295 | away from a single delivery the neighbour as written is the corrected one |
| Annealing.StepSame | optimization/simulated_annealing_optimizer.py:105-126 | two neighbours that agree on the current routing give the same pass |
| Annealing.AsWrittenAgrees | optimization/simulated_annealing_optimizer.py:104-130 | away from a single delivery the runs with the neighbour as written and with the corrected one agree |
| Annealing.LoneDeliveryFails | optimization/simulated_annealing_optimizer.py:267-286 | as written a seed of a single route holding a single delivery fails with the IndexError of the move as soon as the first draw picks the move |
| Annealing.RunSucceeds | optimization/simulated_annealing_optimizer.py:96-130 | with a positive starting temperature and rate, the run with the neighbour as written succeeds on every seed that does not hold exactly one delivery, and there it is the run with the corrected neighbour |
| Annealing.RunOutcome | optimization/simulated_annealing_optimizer.py:96-130 | a successful run with the neighbour as written lasts `Ran` iterations, its history strictly decreases from the seed's fitness to the best routing's, and the best routing holds the seed's deliveries |
| Annealing.AsWrittenKeeps | optimization/simulated_annealing_optimizer.py:236-295 | the neighbour as written keeps the deliveries whenever it succeeds |
| Annealing.RunCases | optimization/simulated_annealing_optimizer.py:96-130 | the run as written succeeds with a positive temperature and rate on any seed not of one delivery, and fails on a seed of one route of one delivery when the first draw is the move |
| Annealing.SingleShape | optimization/simulated_annealing_optimizer.py:218-234 | non-empty routes holding one delivery in all are a single route with that delivery |
| Annealing.AtMostFlatten | optimization/simulated_annealing_optimizer.py:218-234 | non-empty routes are no more than the deliveries they hold |
| Annealing.GreedySeedSize | optimization/simulated_annealing_optimizer.py:218-234 | the greedy seed of deliveries with distinct ids serves as many deliveries as there are, and one delivery makes one route of one delivery |
| Annealing.Solve | optimization/simulated_annealing_optimizer.py:87-234 | from the greedy seed `_solve_greedy` returns, with the neighbour as written: failures are optimization errors with the prefix; success with a positive temperature and rate unless there is exactly one delivery, failure on one delivery when the first draw is the move; on success the iterations run, the strictly decreasing history from the seed's fitness, the solution's fitness as its last entry, and every input id exactly once |
| Annealing.AnnealFrom | optimization/simulated_annealing_optimizer.py:91-151 | from a duplicate-free seed, with the neighbour as written: success with a positive temperature and rate unless the seed holds one delivery, failure when the seed is one route of one delivery and the first draw is the move; on success the results `Solve` lists, with the seed's ids exactly once |
| Annealing.Report | optimization/simulated_annealing_optimizer.py:132-320 | the best routing turned into a solution scores what the annealing scored it and serves the seed's ids, each once |
| Annealing.Optimize | optimization/simulated_annealing_optimizer.py:56-156 | invalid inputs fail; every failure is an optimization error with the prefix; valid inputs, a positive temperature and a positive rate succeed unless there is exactly one delivery, and one delivery fails when the first draw is the move; on success the results `Solve` promises |
| Annealing.SameIdsDistinct | optimization/simulated_annealing_optimizer.py:104-135 | two routings with the same deliveries share distinctness and membership |
| Benchmark.Record | optimization/benchmark.py:115-125 | the record names the algorithm and copies the run's result, time and validity, with the solution's fitness, distance and route count |
| Benchmark.Entry | optimization/benchmark.py:95-137 | one turn of the loop appends at most one record |
| Benchmark.Collect | optimization/benchmark.py:95-137 | the loop keeps at most one record per requested name |
| Benchmark.CollectConcat | optimization/benchmark.py:95-137 | the kept records stay in the requested order |
| Benchmark.CollectMembers | optimization/benchmark.py:95-137 | a record is kept exactly when it records a requested, known name whose run did not raise |
| Benchmark.RunBenchmark | optimization/benchmark.py:66-142 | without names every algorithm runs, in the registry's order, and the analysis sees exactly the kept records |
| Benchmark.UnknownSkipped | optimization/benchmark.py:96-98 | an unknown name contributes nothing |
| Benchmark.FirstLeastUnique | optimization/benchmark.py:160-173 | `min` with a key has one answer: the first index holding the least key |
| Benchmark.Analyze | optimization/benchmark.py:144-192 | no records give an empty result; otherwise all three winners are set, and the summary counts the records and holds the least, greatest and average fitness and time |
| Benchmark.AnalyzeWinners | optimization/benchmark.py:159-173 | the winners are the first records holding the least fitness, the least time and the least fitness per second, the time floored at 0.001 |
| Benchmark.WinnersMatchSummary | optimization/benchmark.py:159-184 | the best algorithm's fitness is the summary's best fitness and the fastest algorithm's time its fastest time |
| Benchmark.MeanBetween | optimization/benchmark.py:180-183 | an average lies between the least and the greatest value |
| Benchmark.SummaryOrdered | optimization/benchmark.py:176-184 | the summary's averages lie between its extremes |
| Factory.Create | optimization/factory.py:33-87 | the factory succeeds exactly for the three known types, except the annealing with an `sa_config` of None; an unknown type is the unsupported-type error; every optimizer gets the configured weights and is of the named kind |
| Factory.DefaultWeightsShared | optimization/factory.py:55-57 | without weights every optimizer gets the default `FitnessWeights()` |
| Factory.StrategyChoice | optimization/factory.py:59-72 | the genetic algorithm gets the nearest-neighbour or priority-first strategy exactly when it is named, the random one otherwise |
| Factory.AnnealingDefaults | optimization/factory.py:75-82 | without `sa_config` the annealing runs on 1000, 0.95 and 0.1 |
| Factory.AnnealingOverrides | optimization/factory.py:76-82 | a field given in `sa_config` replaces only its own default |
| Factory.CommandLineDefaultRejected | cli.py:166-172 | the command line's default algorithm name `"genetic"` is not a type the factory accepts |
| Accident.Add | utils/accident_data.py:162-164 | storing a record keeps the dict consistent and the point's record is the new one; a new point goes last, a known point keeps its place, every other point keeps its record |
| Accident.AddThenLookup | utils/accident_data.py:72-164 | a record just added is what a lookup of its point finds, whatever the radius |
| Accident.Near | utils/accident_data.py:92-95 | the proximity scan returns a recorded point's position or nothing |
| Accident.NearFirst | utils/accident_data.py:92-95 | the point found is within the radius and every earlier recorded point is not; without one, no recorded point is |
| Accident.Lookup | utils/accident_data.py:86-87 | an exactly recorded point is found first, as it is |
| Accident.LookupNear | utils/accident_data.py:72-98 | a lookup finds nothing exactly when the point is not recorded and every recorded point is farther than the radius; otherwise by proximity it is the first recorded point within the radius |
| Accident.Visits | utils/accident_data.py:117-122 | the loop looks up both ends of every leg: nothing for fewer than two points, otherwise two lookups per leg |
| Accident.VisitsLegs | utils/accident_data.py:117-122 | leg i is looked up at its start, then its end |
| Accident.InteriorTwice | utils/accident_data.py:117-122 | an interior point is looked up twice, as the end of one leg and the start of the next |
| Accident.Hit | utils/accident_data.py:123-137 | one point adds at most one segment |
| Accident.SeriousCount | utils/accident_data.py:128-129 | the count of high-risk segments is at most the number of segments, and zero exactly when none is high or critical |
| Accident.HitsStep | utils/accident_data.py:122-137 | one more point looked up adds its segment, if any, to every total |
| Accident.SeverityLowersRisk | utils/accident_data.py:143-152 | as written twenty-five accidents of average severity 3 are critical, of severity 4 only high |
| Accident.OverallMonotone | utils/accident_data.py:143-152 | the corrected level never falls when the accidents or the average severity grow |
| Accident.LaddersAgree | utils/accident_data.py:143-152 | the written and corrected ladders differ exactly on twenty accidents or more with an average severity of 3.5 or more |
| Accident.Accumulate | utils/accident_data.py:124-129 | a segment found adds its count and severity, and counts once more when its level is high or critical |
| Accident.Scan | utils/accident_data.py:112-137 | the loop over both ends of every leg collects exactly the lookups' hits in order, with their total count, total severity and number of high or critical entries |
| Accident.RouteRisk | utils/accident_data.py:100-160 | the report's segments are the lookups' hits in loop order, its totals their counts, its average their mean severity (0 without any), and its level the ladder as written, which differs from the monotone ladder exactly at twenty accidents or more with an average severity of 3.5 or more; fewer than two points give the empty low report |
| Accident.RiskColor | utils/accident_data.py:215-231 | a level outside the four known ones gets the grey default |
| Accident.RiskIcon | utils/accident_data.py:234-250 | a level outside the four known ones gets the info icon |
| Accident.LevelsDistinguished | utils/accident_data.py:215-250 | the four levels have four different colours and four different icons, none the default |
| Scenario.Start | visualization/scenario_comparator.py:164-171 | vehicle i's slice starts within the list |
| Scenario.End | visualization/scenario_comparator.py:172 | a slice ends where the next one starts, except that the last runs to the end of the list |
| Scenario.Slice | visualization/scenario_comparator.py:171-173 | vehicle i's deliveries are the list between its start and its end |
| Scenario.Slices | visualization/scenario_comparator.py:170-173 | one slice per vehicle, empty ones included |
| Scenario.SlicesPrefix | visualization/scenario_comparator.py:170-173 | the first k slices laid end to end are the list up to the end of slice k - 1 |
| Scenario.SlicesPartition | visualization/scenario_comparator.py:162-173 | the slices laid end to end are the input list, so each delivery goes to exactly one vehicle, in order |
| Scenario.FewerThanFleet | visualization/scenario_comparator.py:164-172 | with fewer deliveries than vehicles every vehicle but the last gets nothing and the last gets everything |
| Scenario.ViolationsBounded | visualization/scenario_comparator.py:198-203 | at most two violations per vehicle |
| Scenario.NoViolations | visualization/scenario_comparator.py:175-203 | no violation exactly when every vehicle's slice fits its capacity and range, an empty slice counting as fitting |
| Scenario.BaselineDistanceNonNegative | visualization/scenario_comparator.py:180-191 | with a non-negative distance the baseline distance is non-negative |
| Scenario.SingleTrip | visualization/scenario_comparator.py:170-203 | with fewer deliveries than vehicles the baseline is one round trip by the last vehicle |
| Scenario.EmptyPrefix | visualization/scenario_comparator.py:175-176 | vehicles with empty slices add nothing |
| Scenario.Baseline | visualization/scenario_comparator.py:153-208 | without vehicles the integer division by zero raises; otherwise the tallies of the sequential split, the fleet size, and the time at 40 km/h plus half an hour per delivery |
| Scenario.Tallied | visualization/scenario_comparator.py:166-203 | the vehicle loop sums each vehicle's trip, cost and violations |
| Scenario.RoundTrip | visualization/scenario_comparator.py:181-189 | the inner loop is the trip from the depot through the slice in order and back |
| Types.Used | visualization/scenario_comparator.py:64 | the number of non-empty routes, at most the number of routes |
| Types.UsedCounts | visualization/scenario_comparator.py:64 | no vehicle is counted, and no route is tracked, exactly when every route is empty; all routes are counted exactly when none is empty |
| Scenario.EstimateTotal | visualization/scenario_comparator.py:126-151 | the equal shares add up: the estimate is the whole distance at 40 km/h plus every route's service time |
| Scenario.MetricsOf | visualization/scenario_comparator.py:62-65 | a solution's vehicle count is its number of non-empty routes |
| Scenario.Compare | visualization/scenario_comparator.py:56-124 | a failed greedy run leaves every greedy column empty, and a greedy vehicle or violation count of zero is empty too; otherwise each greedy column holds the greedy solution's figure: its distance, cost, non-empty routes, estimated time, and capacity plus range violations. The current column holds the same five figures of the solution, and the baseline column holds the baseline's five figures |
| Scenario.Percent | visualization/scenario_comparator.py:217-230 | a non-positive reference gives 0, otherwise the difference as a percentage of the reference |
| Scenario.CalculateSavings | visualization/scenario_comparator.py:210-244 | an entry per column present; the greedy distance saving is 0 when the greedy distance is missing or zero; a baseline cost without a baseline distance cannot be subtracted; CO2 is 0.24 kg per km saved |
| Scenario.ComparedSavings | visualization/scenario_comparator.py:56-244 | the savings of a built comparison always succeed and always have a baseline entry; the greedy entry is there exactly when the greedy run succeeded |
| Scenario.PercentBounds | visualization/scenario_comparator.py:217-230 | a current cost between zero and a positive reference saves between zero and a hundred percent |
| Timeline.EventIds | visualization/timeline_generator.py:103 | the delivery ids of a list of events, one per event |
| Timeline.Known | visualization/timeline_generator.py:77-79 | the route's ids that are known deliveries, in route order |
| Timeline.WalkFails | visualization/timeline_generator.py:77-114 | a vehicle's walk fails with the float division by zero exactly when the speed is zero and the route has a known delivery |
| Timeline.WalkIds | visualization/timeline_generator.py:77-114 | the events of a walk are the route's known ids in order, one each |
| Timeline.WalkEvents | visualization/timeline_generator.py:77-114 | every event of a walk is a known delivery of the route, for that vehicle, critical exactly at priority 1, scheduled, leaving after its service time |
| Timeline.WalkChained | visualization/timeline_generator.py:84-114 | each arrival is the previous departure (or the start) plus the drive from the previous location (or the depot) at the average speed |
| Timeline.ChainedOrdered | visualization/timeline_generator.py:84-114 | with a positive speed and non-negative distances and service times a vehicle's arrivals never go back in time and never come before its start |
| Timeline.ScheduleFails | visualization/timeline_generator.py:69-114 | the schedule fails exactly when the speed is zero and some route has a known delivery |
| Timeline.ScheduleEvents | visualization/timeline_generator.py:69-114 | every scheduled event is a well-formed event of vehicle k + 1 on route k |
| Timeline.Generate | visualization/timeline_generator.py:65-119 | the timeline fails exactly as the schedule does; otherwise it is sorted by time and holds exactly the scheduled events |
| Timeline.GenerateEvents | visualization/timeline_generator.py:65-119 | every event on the timeline is a known delivery of route k, driven by vehicle k + 1 |
| Timeline.ClockHour | visualization/timeline_generator.py:134 | the arrival's time of day lies in [0, 24) |
| Timeline.BucketTotal | visualization/timeline_generator.py:133-143 | an event lands in exactly one bucket exactly when its delivery has both window ends; an arrival before the window counts as near the limit |
| Timeline.NextDayReadsAsEarly | visualization/timeline_generator.py:134-143 | the date is dropped: an arrival at one in the morning of the next day counts as early for a 9:00-17:00 window, not as late |
| Timeline.BucketsAddUp | visualization/timeline_generator.py:131-143 | the on-time, near-limit and late counts add up to the events with a window |
| Timeline.CountWhereCard | visualization/timeline_generator.py:123 | a `sum(1 for e in events if …)` count is the number of events satisfying the condition |
| Timeline.TimelineStats | visualization/timeline_generator.py:121-153 | the total is the number of events; the critical, on-time, near-limit and late counts are each the number of events of that kind, and the three buckets add up to the events with both window bounds; start and end are absent exactly when there are no events, and otherwise the first event's time and the last event's departure |
| Timeline.StatsStartEarliest | visualization/timeline_generator.py:117-151 | on a generated timeline the start is the earliest arrival |
| Tracker.Initial | visualization/vehicle_tracker.py:89-94 | a vehicle starts waiting before the start time and in transit from then on |
| Tracker.TrackFromLength | visualization/vehicle_tracker.py:83-118 | one tracking per non-empty route |
| Tracker.TrackFromFresh | visualization/vehicle_tracker.py:83-118 | each tracking is keyed by its route's index + 1, at the depot, with its route's first stop, zero speed and progress and nothing completed, in increasing vehicle order |
| Tracker.TrackFromCovers | visualization/vehicle_tracker.py:83-118 | every non-empty route has its tracking |
| Tracker.InitializeShape | visualization/vehicle_tracker.py:64-118 | after initialisation the tracker holds one fresh tracking per non-empty route, keyed by index + 1, in route order |
| Tracker.Find | visualization/vehicle_tracker.py:131-134 | the position of a vehicle's tracking, absent exactly when no tracking has that vehicle |
| Tracker.Refresh | visualization/vehicle_tracker.py:140-154 | a refresh keeps the vehicle, route, completed list and location, and does nothing to an empty route |
| Tracker.RefreshStatus | visualization/vehicle_tracker.py:140-154 | nothing done is waiting before the start and in transit after it, part done is in transit, all done is completed; the speed is 45 exactly in transit |
| Tracker.Update | visualization/vehicle_tracker.py:120-156 | an unknown vehicle gives None; otherwise its tracking is refreshed in place and returned, and no other tracking changes |
| Tracker.UpdateAfterInitialize | visualization/vehicle_tracker.py:115-154 | nothing adds to the completed list, so right after initialisation every update reports zero progress and a status that depends only on the clock |
| Tracker.AllTrackings | visualization/vehicle_tracker.py:158-174 | every tracking refreshed, in insertion order |

## Left out

- Random draws: `random.*`, `random.shuffle`, DEAP's `selTournament` draws and the cut points are functions from a position in the run to a choice. The model does not follow Python's single random stream, so it says nothing about which draws follow which.
- Clocks: `time.time()` and `datetime.now()` are parameters. Execution times are whatever the caller passes in, and the tracker's `now()` is an argument.
- Oracles: the geodesic distance (geopy), `math.sqrt`, `** 0.5`, `math.exp` and the `.6f` and "lat,lon" coordinate formatting are parameters. Only the facts the proofs need are assumed of them as requirements: a non-negative root with root(0) = 0, a non-negative distance, and exp(0) = 1.
- Floating point: Python floats are Dafny reals, so rounding, `inf`, NaN and the overflow of `math.exp` for large arguments are not modelled. The greedy scan's `float('inf')` is an absent value instead.
- Domain.Lower: lowers A to Z and the Latin-1 capitals only. `str.lower()` also lowers the other Unicode capitals (Greek, Cyrillic, Latin Extended) and turns 'İ' into two characters; those are left as they are, since the model has no Unicode case tables.
- Microseconds: `timedelta(hours=…)` rounds to the microsecond, and the model keeps exact hours.
- Timeline.ClockHour: keeps the time of day to the minute but drops the date, as the source does, so a next-day arrival reads as early (Timeline.NextDayReadsAsEarly). The day is not modelled.
- Timeline.Generate: states that the result is sorted by time and is a permutation of the schedule. It does not state that `list.sort` is stable, so the order of events with equal times is not pinned down.
- Timeline.TimelineStats: `end_time` is the departure of the last event in arrival order, which is not necessarily the latest departure. The model states the source's reading and no more.
- DEAP internals: `creator`, `toolbox` and the fitness objects are not modelled. The fitness cache (`ind.fitness.valid`) is modelled by re-scoring; this gives the same values, because the score is a function of the routes.
- GeneticOptimizer.Optimize: the initial population is a parameter of the right size. How the configured initialization strategy fills it is modelled separately in `Initialization`.
- GeneticOptimizer.Optimize: the run as written keeps one heap of individual objects across generations. Each population is a list of references into it, and the same object can appear more than once after replacement. As written, success is characterised only for the first generation: its crossed pairs raise AttributeError, and a single uncrossed generation succeeds. Whether a later generation crosses a pair depends on populations the in-place mutation may have changed, so no closed condition is stated for longer runs. The monotone history and the coverage of the solution fail as written (Breeding.AliasingLosesBest, Mutation.GaMoveDropsDelivery), and are stated only of `OptimizeCorrected`.
- GeneticOptimizer.EvolveFrom: the same limits as `Optimize`; the early stop is stated with the counter since the least entry, because the history need not be monotone as written.
- GeneticOptimizer.RunOutcome: states no coverage of the final population, which the move as written can lose.
- GeneticOptimizer.BreederCloses: is stated of the corrected breeding only. The corrected breeding differs from the source three ways: crossover children carry a fitness (optimization/genetic_algorithm.py:566-570), selection copies (optimization/genetic_algorithm.py:186-208), and the move keeps the delivery (optimization/genetic_algorithm.py:715-721).
- GeneticOptimizer.OptimizeCorrected: the corrected optimiser, with the three corrections above. `EvolveCorrected` and `RunCorrectedOutcome` state what the corrected run promises.
- The `statistics` dicts of the three optimisers (final average, worst, temperature and so on) are not modelled, and neither are the `metadata` and `config` fields of the results.
- Annealing.Solve: the seed is `_solve_greedy` on the annealer's own distance table. `_initial_solution` runs the whole greedy `optimize`, which validates the same inputs again and builds its table by the same rule (optimization/greedy_optimizer.py:134-160), so its routes are the same; that repeated work is not modelled.
- Scenario.Compare: the greedy run is a parameter (a solution or an error), because it is the optimiser modelled in `GreedyOptimizer`.
- Scenario: the annotation `RouteSolution` at visualization/scenario_comparator.py:128 names a class the module never imports (its imports at visualization/scenario_comparator.py:7-16 leave it out), and there is no `from __future__ import annotations`. Python before 3.14 evaluates the annotation when the method is defined, so importing the module raises NameError and none of the comparator runs. The model assumes the module loads, as it does from Python 3.14 on, where annotations are evaluated lazily.
- LocalSearch.ImproveSolution: the `RouteSolution` built at optimization/local_search.py:91-97 omits `metadata`, a dataclass field without a default (core/interfaces.py:52-60). As written every pass therefore raises TypeError, and `improve_solution` never returns once `max_iterations >= 1`, with or without a calculator; `LocalSearch.ImproveSolutionAsWritten` states this. `ImproveSolution` is the corrected search, which builds the solution as if the argument were given, with no violations recorded.
- The cache file persistence (`_load_cache`, `_save_cache`), its statistics and the module-level cache singleton are file I/O or process state, and are not modelled.
- Accident data loading from file and `create_sample_accident_data` are file I/O and fixture data, and are not modelled.
- Tracker: `completed_deliveries`, `distance_to_next` and `eta` are never updated by the source. The model keeps them at their initial values (Tracker.UpdateAfterInitialize).
- Factory.Create: a field of `sa_config` present with the value `None` would pass `None` to the optimiser. The model treats a field as either given or absent.
- Three identical implementations in the source are modelled once, by `GreedyOptimizer.ValidateSolution`, `GreedyOptimizer.BuildMatrix` and `GreedyOptimizer.RoutesToSolution` with their helpers: `validate_solution` (optimization/genetic_algorithm.py:249-293, optimization/simulated_annealing_optimizer.py:158-190), `_build_distance_matrix` (optimization/genetic_algorithm.py:314-350, optimization/simulated_annealing_optimizer.py:192-216) and the distance, cost and violation helpers (optimization/genetic_algorithm.py:406-548).
- Printing: `print` in the benchmark, and the comparator's printing and export, are output only.
- The user interface, map and plot rendering, report export, the LLM clients, the servers, the scripts and the command line are not part of this model. The one exception is the default algorithm name of the command line, which `Factory.CommandLineDefaultRejected` uses.

## Findings

| source | as written | input that shows it | evidently intended | confidence | as-written member | corrected member |
|---|---|---|---|---|---|---|
| optimization/greedy_optimizer.py:236-237 | A vehicle whose route stays empty adds no route. The later routes shift down a place and are validated against the wrong vehicle. | One delivery "a" of weight 5 and vehicles of capacity 1 and 10. The second vehicle builds ["a"], which lands at index 0 and shows a capacity violation of 4, so the plan fails validation. | Route i belongs to vehicle i. | not executed | GreedyOptimizer.CompactionMisassignsVehicles | GreedyOptimizer.AlignedKeepsVehicles |
| optimization/genetic_algorithm.py:715-721 | After the move empties its source route, the route is popped. When the target was the last route, `r2` then lies past the end, and the drawn delivery is never re-inserted. | Routes [["a"], ["b"]], moving slot (0, 0) to route 1, give [["b"]]: "a" is lost (Mutation.GaMoveLoss gives the exact condition). | The move keeps every delivery, as the simulated annealing copy clamps `r2`. | not executed | Mutation.GaMoveDropsDelivery | Mutation.MutateKeepsDistinct |
| optimization/simulated_annealing_optimizer.py:278-286 | After the only delivery of the only route is moved, the clamped `r2` is -1, and `neighbor[-1]` on an empty list raises IndexError. | A greedy seed [["a"]] with the first draw picking the move. | A routing with a single delivery has itself as its neighbour. | not executed | Annealing.LoneDeliveryFails | Annealing.AnnealSucceeds |
| optimization/genetic_algorithm.py:566-570 | `_route_crossover` returns plain lists, so `del offspring[i].fitness.values` raises AttributeError on the first crossed pair. | Any population in which a pair is crossed (Breeding.CrossAsWrittenOutcome states exactly when). | The children are DEAP individuals whose fitness is invalidated and re-evaluated. | not executed | Breeding.CrossAsWrittenOutcome | Breeding.CrossAllCovers |
| optimization/genetic_algorithm.py:186-208 | `selTournament` returns references into the population, and crossover and mutation change them in place. `_replace_with_elitism` keeps references too, so an object kept twice stays one object in every later generation. The elite it keeps can thus be changed after it was scored, so the recorded best fitness can get worse. | Population [["a","b"]], [["b","a"]], fitness 0 for the first; both tournaments pick the first, and mutation reverses it: the history becomes [0.0, 1.0]. | The selected offspring are copies, as DEAP's `toolbox.clone` makes them, so the best fitness never gets worse. | not executed | Breeding.AliasingLosesBest | Breeding.BredGenerationKeepsBest |
| utils/accident_data.py:143-152 | The "high" branch fires on `avg_severity >= 3.5` before the "critical" branch is reached, so a worse average severity lowers the level. | 25 accidents of severity 3 rate "critical"; 25 of severity 4 rate "high". | The level never falls when the number or the severity of the accidents grows. | not executed | Accident.SeverityLowersRisk | Accident.OverallMonotone |
| optimization/local_search.py:91-97 | The new `RouteSolution` is built without `metadata`, a dataclass field with no default (core/interfaces.py:52-60), so the first pass raises TypeError. | Any solution with `max_iterations=50`, the default, with or without a fitness calculator. | Each pass builds a complete solution and the search keeps it when it scores better. | not executed | LocalSearch.ImproveSolutionAsWritten | LocalSearch.ImproveSolution |
