/** `GeneticAlgorithmOptimizer` of optimization/genetic_algorithm.py: order
    crossover on the flattened routes followed by capacity-driven
    redistribution, elitist replacement, the evolution loop with its
    early-stop counter, and the `optimize` wrapper.

    The distance, cost and violation helpers of the genetic algorithm
    compute exactly what the greedy optimizer's do (round trips with
    missing keys read as 0, cost and violations only for routes that have
    a vehicle), so the individual's score reuses those definitions, and
    `validate_solution` is the same check as the greedy one. */
module Genetic {
  import opened Wrappers
  import opened Seqs
  import opened Types
  import opened Distance
  import opened Config
  import opened Validators
  import Fitness
  import GreedyOptimizer

  /** Everything `_evaluate_individual` reads besides the individual. */
  datatype Env = Env(
    deliveries: seq<Delivery>,
    vehicles: seq<Vehicle>,
    depot: Point,
    matrix: Matrix,
    weights: FitnessWeights,
    num: Fitness.Numerics)

  /** The unscored solution `_routes_list_to_solution` builds. */
  function Unscored(env: Env, routes: Routes): Solution
  {
    Solution(routes, TotalDistance(env.matrix, routes),
             GreedyOptimizer.FleetCost(env.matrix, env.vehicles, routes), 0.0,
             GreedyOptimizer.FleetViolations(env.matrix, env.deliveries, env.vehicles, routes))
  }

  /** `_evaluate_individual`: the composite fitness of the individual. */
  function Score(env: Env, routes: Routes): real
  {
    Fitness.Composite(env.weights, Unscored(env, routes),
                      Fitness.Context(env.deliveries, env.vehicles, env.depot, env.matrix, env.num))
  }

  /** The solution built from its routes scores what
      `_evaluate_individual` gave them. */
  lemma SolutionScore(env: Env, routes: Routes, sol: Solution)
    requires sol.routes == routes
    requires sol.totalDistance == TotalDistance(env.matrix, routes)
    requires sol.totalCost == GreedyOptimizer.FleetCost(env.matrix, env.vehicles, routes)
    requires sol.violations == GreedyOptimizer.FleetViolations(env.matrix, env.deliveries, env.vehicles, routes)
    requires sol.fitness == Fitness.Composite(env.weights, sol.(fitness := 0.0),
                                              Fitness.Context(env.deliveries, env.vehicles, env.depot, env.matrix, env.num))
    ensures sol.fitness == Score(env, routes)
  {
    assert sol.(fitness := 0.0) == Unscored(env, routes);
  }

  // ------------------------------------------------------------ crossover

  /** `[d for d in other if d not in segment]`. */
  function Without(other: seq<Id>, segment: seq<Id>): (r: seq<Id>)
    ensures forall y :: y in r <==> y in other && y !in segment
    ensures multiset(r) <= multiset(other)
    ensures Distinct(other) ==> Distinct(r)
  {
    if |other| == 0 then []
    else
      var x := other[0];
      var t := Without(other[1..], segment);
      assert other == [x] + other[1..];
      if x in segment then t
      else
        assert Distinct(other) ==> Distinct([x] + t) by {
          if Distinct(other) {
            DistinctUncons(other);
            DistinctCons(x, t);
          }
        }
        [x] + t
  }

  /** One child of the order crossover: the segment, then the other
      parent's ids that are not in it, in the other parent's order. */
  function OxChild(segment: seq<Id>, other: seq<Id>): (c: seq<Id>)
    ensures |segment| <= |c| && c[..|segment|] == segment
    ensures c[|segment|..] == Without(other, segment)
  {
    segment + Without(other, segment)
  }

  /** When both parents arrange the same distinct ids, each child
      arranges them too: nothing is lost and nothing is repeated. */
  lemma OxPermutes(p: seq<Id>, q: seq<Id>, start: nat, end: nat)
    requires Distinct(p) && Distinct(q) && multiset(p) == multiset(q)
    requires start <= end <= |p|
    ensures multiset(OxChild(p[start..end], q)) == multiset(p)
    ensures Distinct(OxChild(p[start..end], q))
  {
    var seg := p[start..end];
    var rest := Without(q, seg);
    var c := OxChild(seg, q);
    assert c == seg + rest;
    assert Distinct(seg);
    DistinctConcat(seg, rest);
    OxSameElements(p, q, start, end);
    DistinctSameSetPermutation(c, p);
  }

  /** A child holds exactly the ids of the parents. */
  lemma OxSameElements(p: seq<Id>, q: seq<Id>, start: nat, end: nat)
    requires multiset(p) == multiset(q) && start <= end <= |p|
    ensures forall y :: y in OxChild(p[start..end], q) <==> y in p
  {
    var seg := p[start..end];
    forall y
      ensures y in seg + Without(q, seg) <==> y in p
    {
      assert y in q <==> y in multiset(q);
      assert y in p <==> y in multiset(p);
      if y in seg {
        var k :| 0 <= k < |seg| && seg[k] == y;
        assert p[start + k] == y;
      }
    }
  }

  /** `_route_crossover`: parents with fewer than two ids in either are
      returned unchanged; otherwise the segment `[start:end)` of the first
      flattened parent seeds child 1, the same positions of the second
      (clamped to its length) seed child 2, and both children are
      redistributed over as many routes as their first parent had. The
      draws `start = randint(0, n - 1)`, `end = randint(start + 1, n)` are
      arguments. */
  function Crossover(ind1: Routes, ind2: Routes, start: nat, end: nat, m: map<Id, Delivery>, vs: seq<Vehicle>)
    : (r: Result<(Routes, Routes)>)
    requires |Flatten(ind1)| >= 2 && |Flatten(ind2)| >= 2 ==> start < end <= |Flatten(ind1)|
  {
    var flat1 := Flatten(ind1);
    var flat2 := Flatten(ind2);
    if |flat1| < 2 || |flat2| < 2 then Success((ind1, ind2))
    else
      RedistributeBoth(OxChild(flat1[start..end], flat2), OxChild(Slice(flat2, start, end), flat1),
                       |ind1|, |ind2|, vs, m)
  }

  /** Both children redistributed, the first failure winning. */
  function RedistributeBoth(child1: seq<Id>, child2: seq<Id>, n1: nat, n2: nat, vs: seq<Vehicle>, m: map<Id, Delivery>)
    : (r: Result<(Routes, Routes)>)
  {
    var r1 :- Redistribute(child1, n1, vs, m);
    var r2 :- Redistribute(child2, n2, vs, m);
    Success((r1, r2))
  }

  // -------------------------------------------------------- redistribution

  /** `[d for d in ids if d in delivery_dict]`. */
  function KnownIds(ids: seq<Id>, m: map<Id, Delivery>): (r: seq<Id>)
    ensures forall y :: y in r <==> y in ids && y in m
    ensures multiset(r) <= multiset(ids)
    ensures (forall y :: y in ids ==> y in m) ==> r == ids
  {
    if |ids| == 0 then []
    else
      assert ids == [ids[0]] + ids[1..];
      (if ids[0] in m then [ids[0]] else []) + KnownIds(ids[1..], m)
  }

  /** The state of the redistribution loop: the routes so far, the index
      of the route being filled and its tracked load. */
  datatype Packing = Packing(routes: Routes, current: nat, weight: real)

  /** The loop's invariant while nothing has failed: the current route
      exists, there are no more routes than vehicles, and every route
      after the current one is still empty. */
  predicate Tidy(p: Packing, vs: seq<Vehicle>)
  {
    p.current < |p.routes| <= |vs|
    && forall j :: p.current < j < |p.routes| ==> p.routes[j] == []
  }

  /** One known id of the loop: appended to the current route if the
      current vehicle can still take it, otherwise to the next route (a
      new one while vehicles remain, else forced onto the last route),
      whose tracked load restarts at this delivery's weight. Indexing a
      route that does not exist raises IndexError. */
  function Place(p: Packing, id: Id, w: real, vs: seq<Vehicle>): (r: Result<Packing>)
  {
    if p.current < |vs| && p.weight + w <= vs[p.current].maxCapacity then
      if p.current < |p.routes| then
        Success(Packing(p.routes[p.current := p.routes[p.current] + [id]], p.current, p.weight + w))
      else Failure(IndexError(IndexOutOfRange))
    else
      var next := p.current + 1;
      var grow := next >= |p.routes| && next < |vs|;
      var routes := if grow then p.routes + [[]] else p.routes;
      var at: int := if next >= |p.routes| && !grow then |p.routes| - 1 else next;
      if 0 <= at < |routes| then
        Success(Packing(routes[at := routes[at] + [id]], at, w))
      else Failure(IndexError(IndexOutOfRange))
  }

  /** Appending to a route after which every route is empty appends to
      the concatenation. */
  lemma {:induction false} AppendAtTail(ss: Routes, c: nat, x: Id)
    requires c < |ss| && forall j :: c < j < |ss| ==> ss[j] == []
    ensures Flatten(ss[c := ss[c] + [x]]) == Flatten(ss) + [x]
  {
    if c == 0 {
      assert Flatten(ss[1..]) == [] by {
        AllEmpty(ss[1..]);
      }
      assert ss[c := ss[c] + [x]][1..] == ss[1..];
    } else {
      AppendAtTail(ss[1..], c - 1, x);
      assert ss[c := ss[c] + [x]][1..] == ss[1..][c - 1 := ss[c] + [x]];
    }
  }

  lemma {:induction false} AllEmpty(ss: Routes)
    requires forall j :: 0 <= j < |ss| ==> ss[j] == []
    ensures Flatten(ss) == []
  {
    if |ss| > 0 {
      AllEmpty(ss[1..]);
    }
  }

  /** From a tidy state every placement succeeds, keeps the state tidy
      and appends the id to the concatenation of the routes. */
  lemma PlaceTidy(p: Packing, id: Id, w: real, vs: seq<Vehicle>)
    requires Tidy(p, vs)
    ensures Place(p, id, w, vs).Success?
    ensures Tidy(Place(p, id, w, vs).value, vs)
    ensures Flatten(Place(p, id, w, vs).value.routes) == Flatten(p.routes) + [id]
  {
    if p.current < |vs| && p.weight + w <= vs[p.current].maxCapacity {
      AppendAtTail(p.routes, p.current, id);
    } else {
      var next := p.current + 1;
      if next >= |p.routes| && next < |vs| {
        var routes := p.routes + [[]];
        assert Flatten(routes) == Flatten(p.routes) by {
          FlattenConcat(p.routes, [[]]);
          FlattenSingle<Id>([]);
        }
        AppendAtTail(routes, next, id);
      } else if next >= |p.routes| {
        AppendAtTail(p.routes, |p.routes| - 1, id);
      } else {
        AppendAtTail(p.routes, next, id);
      }
    }
  }

  /** The loop `for d_id in delivery_ids` of `_redistribute_to_routes`;
      ids missing from the delivery dict are skipped. */
  function Pack(ids: seq<Id>, m: map<Id, Delivery>, vs: seq<Vehicle>, p: Packing): (r: Result<Packing>)
  {
    if |ids| == 0 then Success(p)
    else if ids[0] !in m then Pack(ids[1..], m, vs, p)
    else
      match Place(p, ids[0], m[ids[0]].weight, vs)
      case Failure(e) => Failure(e)
      case Success(q) => Pack(ids[1..], m, vs, q)
  }

  /** The loop's outcome from `p`: it succeeds in a tidy state whose routes
      hold `p`'s followed by `known`. */
  predicate Packed(r: Result<Packing>, p: Packing, known: seq<Id>, vs: seq<Vehicle>)
  {
    r.Success? && Tidy(r.value, vs) && Flatten(r.value.routes) == Flatten(p.routes) + known
  }

  /** From a tidy state the loop succeeds and lays out the known ids, in
      order, after what the routes already held. */
  lemma {:induction false} PackTidy(ids: seq<Id>, m: map<Id, Delivery>, vs: seq<Vehicle>, p: Packing)
    requires Tidy(p, vs)
    ensures Packed(Pack(ids, m, vs, p), p, KnownIds(ids, m), vs)
  {
    if |ids| == 0 {
      assert Pack(ids, m, vs, p) == Success(p);
    } else {
      var rest := ids[1..];
      if ids[0] !in m {
        assert Pack(ids, m, vs, p) == Pack(rest, m, vs, p);
        assert KnownIds(ids, m) == KnownIds(rest, m);
        PackTidy(rest, m, vs, p);
      } else {
        var q := PackPlace(ids, m, vs, p);
        PackTidy(rest, m, vs, q);
        assert KnownIds(ids, m) == [ids[0]] + KnownIds(rest, m);
        AppendAssoc(Flatten(p.routes), [ids[0]], KnownIds(rest, m));
      }
    }
  }

  /** A known id placed from a tidy state: the loop goes on from a tidy
      state whose routes hold one more id. */
  lemma PackPlace(ids: seq<Id>, m: map<Id, Delivery>, vs: seq<Vehicle>, p: Packing) returns (q: Packing)
    requires Tidy(p, vs) && |ids| > 0 && ids[0] in m
    ensures Tidy(q, vs) && Flatten(q.routes) == Flatten(p.routes) + [ids[0]]
    ensures Pack(ids, m, vs, p) == Pack(ids[1..], m, vs, q)
  {
    PlaceTidy(p, ids[0], m[ids[0]].weight, vs);
    q := Place(p, ids[0], m[ids[0]].weight, vs).value;
  }

  /** With no route to start from, the first known id fails to find one. */
  lemma {:induction false} PackWithoutRoutes(ids: seq<Id>, m: map<Id, Delivery>, vs: seq<Vehicle>)
    ensures Pack(ids, m, vs, Packing([], 0, 0.0)).Success? <==> KnownIds(ids, m) == []
    ensures Pack(ids, m, vs, Packing([], 0, 0.0)).Success? ==> Pack(ids, m, vs, Packing([], 0, 0.0)).value.routes == []
  {
    if |ids| > 0 {
      PackWithoutRoutes(ids[1..], m, vs);
      if ids[0] in m {
        assert Place(Packing([], 0, 0.0), ids[0], m[ids[0]].weight, vs).Failure?;
        assert ids[0] in KnownIds(ids, m);
      } else {
        assert KnownIds(ids, m) == KnownIds(ids[1..], m);
      }
    }
  }

  /** `_redistribute_to_routes`: start from `min(num_routes, len(vehicles))`
      empty routes, pack, and drop the routes left empty. */
  function Redistribute(ids: seq<Id>, numRoutes: nat, vs: seq<Vehicle>, m: map<Id, Delivery>): (r: Result<Routes>)
  {
    var k := if numRoutes <= |vs| then numRoutes else |vs|;
    var start := Packing(seq(k, _ => []), 0, 0.0);
    match Pack(ids, m, vs, start)
    case Failure(e) => Failure(e)
    case Success(p) => Success(DropEmpty(p.routes))
  }

  /** With at least one starting route the redistribution lays out exactly
      the known ids in their order, over non-empty routes, no more routes
      than vehicles; with none it fails as soon as there is a known id. */
  lemma RedistributeCorrect(ids: seq<Id>, numRoutes: nat, vs: seq<Vehicle>, m: map<Id, Delivery>)
    ensures numRoutes > 0 && |vs| > 0 ==> Redistribute(ids, numRoutes, vs, m).Success?
    ensures (numRoutes == 0 || |vs| == 0) ==>
              (Redistribute(ids, numRoutes, vs, m).Success? <==> KnownIds(ids, m) == [])
    ensures Redistribute(ids, numRoutes, vs, m).Success? ==>
              var r := Redistribute(ids, numRoutes, vs, m).value;
              && Flatten(r) == KnownIds(ids, m)
              && (forall j :: 0 <= j < |r| ==> |r[j]| > 0)
              && |r| <= |vs|
  {
    var k := if numRoutes <= |vs| then numRoutes else |vs|;
    var start := Packing(seq(k, _ => []), 0, 0.0);
    if k > 0 {
      assert Flatten(start.routes) == [] by {
        AllEmpty(start.routes);
      }
      PackTidy(ids, m, vs, start);
      FlattenDropEmpty(Pack(ids, m, vs, start).value.routes);
    } else {
      assert start == Packing([], 0, 0.0);
      PackWithoutRoutes(ids, m, vs);
    }
  }
  /** A redistributed child that arranges distinct known ids succeeds and
      keeps exactly those ids over non-empty routes, one per vehicle at most. */
  lemma RedistributeArranges(child: seq<Id>, numRoutes: nat, vs: seq<Vehicle>, m: map<Id, Delivery>)
    requires Distinct(child) && (forall y :: y in child ==> y in m)
    requires numRoutes > 0 && |vs| > 0
    ensures Redistribute(child, numRoutes, vs, m).Success?
    ensures var r := Redistribute(child, numRoutes, vs, m).value;
            && Flatten(r) == child
            && (forall j :: 0 <= j < |r| ==> |r[j]| > 0)
            && |r| <= |vs|
  {
    RedistributeCorrect(child, numRoutes, vs, m);
  }

  /** Both order-crossover children of two arrangements of the same
      distinct ids arrange those ids. */
  lemma ChildrenArrange(flat1: seq<Id>, flat2: seq<Id>, start: nat, end: nat)
    requires Distinct(flat1) && Distinct(flat2) && multiset(flat1) == multiset(flat2)
    requires start < end <= |flat1|
    ensures var c1 := OxChild(flat1[start..end], flat2);
            multiset(c1) == multiset(flat1) && Distinct(c1)
    ensures var c2 := OxChild(Slice(flat2, start, end), flat1);
            multiset(c2) == multiset(flat1) && Distinct(c2)
  {
    OxPermutes(flat1, flat2, start, end);
    assert |flat2| == |multiset(flat2)| == |multiset(flat1)| == |flat1|;
    assert Slice(flat2, start, end) == flat2[start..end];
    OxPermutes(flat2, flat1, start, end);
  }

  /** Every id of a permutation of known ids is known. */
  lemma PermutationKnown(c: seq<Id>, flat: seq<Id>, m: map<Id, Delivery>)
    requires multiset(c) == multiset(flat) && forall y :: y in flat ==> y in m
    ensures forall y :: y in c ==> y in m
  {
    forall y | y in c
      ensures y in m
    {
      assert y in multiset(c);
      assert y in multiset(flat);
    }
  }

  /** The routes arrange exactly the ids `ids`, each once, over non-empty
      routes, at most one route per vehicle. */
  predicate Arranges(rs: Routes, ids: seq<Id>, vs: seq<Vehicle>)
  {
    && multiset(Flatten(rs)) == multiset(ids)
    && Distinct(Flatten(rs))
    && (forall j :: 0 <= j < |rs| ==> |rs[j]| > 0)
    && |rs| <= |vs|
  }

  /** A child that rearranges distinct known ids redistributes into routes
      that arrange them. */
  lemma ChildArranges(child: seq<Id>, flat: seq<Id>, numRoutes: nat, vs: seq<Vehicle>, m: map<Id, Delivery>)
    requires multiset(child) == multiset(flat) && Distinct(child)
    requires forall y :: y in flat ==> y in m
    requires numRoutes > 0 && |vs| > 0
    ensures Redistribute(child, numRoutes, vs, m).Success?
    ensures Arranges(Redistribute(child, numRoutes, vs, m).value, flat, vs)
  {
    PermutationKnown(child, flat, m);
    RedistributeArranges(child, numRoutes, vs, m);
  }

  /** When the parents arrange the same distinct, known ids and there is a
      vehicle, the crossover succeeds and each child arranges exactly those
      ids over non-empty routes, at most one per vehicle. */
  lemma CrossoverPermutes(ind1: Routes, ind2: Routes, start: nat, end: nat, m: map<Id, Delivery>, vs: seq<Vehicle>)
    requires |Flatten(ind1)| >= 2 && |Flatten(ind2)| >= 2 && start < end <= |Flatten(ind1)|
    requires Distinct(Flatten(ind1)) && Distinct(Flatten(ind2))
    requires multiset(Flatten(ind1)) == multiset(Flatten(ind2))
    requires forall y :: y in Flatten(ind1) ==> y in m
    requires |vs| > 0
    ensures Crossover(ind1, ind2, start, end, m, vs).Success?
    ensures Arranges(Crossover(ind1, ind2, start, end, m, vs).value.0, Flatten(ind1), vs)
    ensures Arranges(Crossover(ind1, ind2, start, end, m, vs).value.1, Flatten(ind1), vs)
  {
    var flat1 := Flatten(ind1);
    var flat2 := Flatten(ind2);
    assert |ind1| > 0 && |ind2| > 0;
    var child1 := OxChild(flat1[start..end], flat2);
    var child2 := OxChild(Slice(flat2, start, end), flat1);
    ChildrenArrange(flat1, flat2, start, end);
    assert Crossover(ind1, ind2, start, end, m, vs) == RedistributeBoth(child1, child2, |ind1|, |ind2|, vs, m);
    ChildArranges(child1, flat1, |ind1|, vs, m);
    ChildArranges(child2, flat1, |ind2|, vs, m);
    var r1 := Redistribute(child1, |ind1|, vs, m).value;
    var r2 := Redistribute(child2, |ind2|, vs, m).value;
    assert RedistributeBoth(child1, child2, |ind1|, |ind2|, vs, m) == Success((r1, r2));
  }

  // -------------------------------------------------------------- elitism

  /** `tools.selBest(individuals, k)`: the k individuals of lowest score,
      in ascending order, ties kept in their original order. */
  function SelBest(pop: seq<Routes>, k: nat, score: Routes -> real): (r: seq<Routes>)
    ensures |r| == if k <= |pop| then k else |pop|
    ensures SortedBy(r, score)
    ensures multiset(r) <= multiset(pop)
  {
    var sorted := SortBy(pop, score);
    var n := if k <= |pop| then k else |pop|;
    assert sorted == sorted[..n] + sorted[n..];
    sorted[..n]
  }

  /** Selection keeps the best score of the pool. */
  lemma SelBestKeepsLeast(pop: seq<Routes>, k: nat, score: Routes -> real)
    requires k > 0 && |pop| > 0
    ensures Least(SelBest(pop, k, score), score) == Least(pop, score)
  {
    var sorted := SortBy(pop, score);
    LeastOfSorted(SelBest(pop, k, score), score);
    LeastOfSorted(sorted, score);
    LeastPermutation(sorted, pop, score);
  }

  /** No individual left out scores below one that was selected. */
  lemma SelBestIsLowest(pop: seq<Routes>, k: nat, score: Routes -> real)
    ensures forall y, i :: y in multiset(pop) - multiset(SelBest(pop, k, score)) && 0 <= i < |SelBest(pop, k, score)|
              ==> score(SelBest(pop, k, score)[i]) <= score(y)
  {
    var r := SelBest(pop, k, score);
    forall y, i | y in multiset(pop) - multiset(r) && 0 <= i < |r|
      ensures score(r[i]) <= score(y)
    {
      SelBestBelow(pop, k, score, y, i);
    }
  }

  lemma SelBestBelow(pop: seq<Routes>, k: nat, score: Routes -> real, y: Routes, i: nat)
    requires y in multiset(pop) - multiset(SelBest(pop, k, score)) && i < |SelBest(pop, k, score)|
    ensures score(SelBest(pop, k, score)[i]) <= score(y)
  {
    var sorted := SortBy(pop, score);
    var n := if k <= |pop| then k else |pop|;
    assert SelBest(pop, k, score) == sorted[..n];
    LeftOutOfPrefix(pop, sorted, n, y);
    SortedPrefixBelow(sorted, n, score, y, i);
  }

  /** What a permutation has beyond its prefix lies after the prefix. */
  lemma LeftOutOfPrefix<T>(pop: seq<T>, sorted: seq<T>, n: nat, y: T)
    requires multiset(sorted) == multiset(pop) && n <= |sorted|
    requires y in multiset(pop) - multiset(sorted[..n])
    ensures y in sorted[n..]
  {
    assert sorted == sorted[..n] + sorted[n..];
    assert y in multiset(sorted[n..]);
  }

  /** In a sorted list every element of a prefix scores no more than any
      element after it. */
  lemma SortedPrefixBelow<T>(sorted: seq<T>, n: nat, f: T -> real, y: T, i: nat)
    requires SortedBy(sorted, f) && i < n <= |sorted| && y in sorted[n..]
    ensures f(sorted[i]) <= f(y)
  {
    var j :| n <= j < |sorted| && sorted[j] == y;
  }

  /** `_replace_with_elitism`: the population for the next generation is
      the best `population_size` of the current population and the
      offspring together. */
  function Elitism(pop: seq<Routes>, offspring: seq<Routes>, size: nat, score: Routes -> real): (r: seq<Routes>)
    ensures |r| == if size <= |pop| + |offspring| then size else |pop| + |offspring|
    ensures multiset(r) <= multiset(pop + offspring)
    ensures size > 0 && |pop| > 0 ==> Least(r, score) <= Least(pop, score)
  {
    var r := SelBest(pop + offspring, size, score);
    if size > 0 && |pop| > 0 then
      SelBestKeepsLeast(pop + offspring, size, score);
      LeastConcat(pop, offspring, score);
      r
    else r
  }

  // ------------------------------------------------------- evolution loop

  /** The loop state: the population, `best_fitness_history`, the best
      fitness so far (`None` for the initial infinity), the counter of
      generations without improvement and the generations run. */
  datatype Evolution = Evolution(population: seq<Routes>, history: seq<real>, best: Option<real>, stall: nat, ran: nat)

  /** `max_iterations_without_improvement` is truthy and has been reached. */
  predicate Stalled(patience: Option<int>, stall: nat)
  {
    patience.Some? && patience.value != 0 && stall >= patience.value
  }

  /** One generation after breeding: elitist replacement, the minimum
      fitness of the new population appended to the history, and the
      counter reset on a strict improvement of the best so far, otherwise
      incremented. `min` of an empty population raises ValueError. */
  function Generation(e: Evolution, offspring: seq<Routes>, size: nat, score: Routes -> real): (r: Result<Evolution>)
  {
    Advance(e, Elitism(e.population, offspring, size, score), score)
  }

  /** The message `min` raises on an empty sequence. */
  const EmptyMin: string := "min() arg is an empty sequence"

  /** The bookkeeping after replacement, `pop` being the new population. */
  function Advance(e: Evolution, pop: seq<Routes>, score: Routes -> real): (r: Result<Evolution>)
    ensures r.Success? ==> r.value.ran == e.ran + 1
  {
    if |pop| == 0 then Failure(ValueError(EmptyMin)) else Success(Record(e, pop, Least(pop, score)))
  }

  /** The bookkeeping once the best score `current` of `pop` is known. */
  function Record(e: Evolution, pop: seq<Routes>, current: real): Evolution
  {
    var improved := e.best.None? || current < e.best.value;
    Evolution(pop, e.history + [current], if improved then Some(current) else e.best,
              if improved then 0 else e.stall + 1, e.ran + 1)
  }

  /** The `for generation in range(config.generations)` loop from
      generation `e.ran` on; `breed` is one generation's selection,
      crossover and mutation. */
  function Evolve(e: Evolution, breed: (nat, seq<Routes>) -> seq<Routes>, size: nat, patience: Option<int>,
                  generations: nat, score: Routes -> real): (r: Result<Evolution>)
    decreases generations - e.ran
  {
    if e.ran >= generations then Success(e)
    else
      var next :- Generation(e, breed(e.ran, e.population), size, score);
      if Stalled(patience, next.stall) then Success(next)
      else Evolve(next, breed, size, patience, generations, score)
  }

  predicate NonIncreasing(h: seq<real>)
  {
    forall i, j :: 0 <= i < j < |h| ==> h[j] <= h[i]
  }

  /** The last `stall` entries of a non-empty history repeat the entry
      before them, and that entry is the first or a strict improvement. */
  predicate Plateau(h: seq<real>, stall: nat)
  {
    && stall < |h|
    && (forall k :: |h| - 1 - stall <= k < |h| ==> h[k] == h[|h| - 1 - stall])
    && (|h| - 1 - stall == 0 || h[|h| - 2 - stall] > h[|h| - 1 - stall])
  }

  /** Appending an entry no larger than the last keeps the history
      non-increasing; a strict improvement starts a new plateau and an
      equal entry extends the current one. */
  lemma PlateauStep(h: seq<real>, stall: nat, c: real)
    requires |h| > 0 && NonIncreasing(h) && Plateau(h, stall) && c <= h[|h| - 1]
    ensures NonIncreasing(h + [c])
    ensures c < h[|h| - 1] ==> Plateau(h + [c], 0)
    ensures c == h[|h| - 1] ==> Plateau(h + [c], stall + 1)
  {
    var h' := h + [c];
    forall i, j | 0 <= i < j < |h'|
      ensures h'[j] <= h'[i]
    {
      if j == |h| {
        assert h[|h| - 1] <= h[i] || i == |h| - 1;
      }
    }
  }

  /** The history, best score and counter agree: a non-increasing
      history whose last entry is the best so far, and a counter that
      measures how many of the latest entries repeat the entry before
      them, that entry being a strict improvement (or the first). */
  predicate Tracked(h: seq<real>, best: Option<real>, stall: nat)
  {
    && NonIncreasing(h)
    && (|h| == 0 ==> best.None? && stall == 0)
    && (|h| > 0 ==> best == Some(h[|h| - 1]) && Plateau(h, stall))
  }

  /** What the loop keeps true: one history entry per generation, tracked
      as above, whose last entry is the best score of the population. */
  predicate Consistent(e: Evolution, score: Routes -> real)
  {
    && |e.history| == e.ran
    && Tracked(e.history, e.best, e.stall)
    && (e.ran > 0 ==> |e.population| > 0 && Least(e.population, score) == e.history[e.ran - 1])
  }

  /** A generation keeps the loop consistent. */
  lemma GenerationConsistent(e: Evolution, offspring: seq<Routes>, size: nat, score: Routes -> real)
    requires Consistent(e, score)
    requires Generation(e, offspring, size, score).Success?
    ensures Consistent(Generation(e, offspring, size, score).value, score)
    ensures Generation(e, offspring, size, score).value.ran == e.ran + 1
  {
    var pop := Elitism(e.population, offspring, size, score);
    assert |pop| > 0 && (e.ran > 0 ==> Least(pop, score) <= e.history[e.ran - 1]);
    assert Generation(e, offspring, size, score).value == Record(e, pop, Least(pop, score));
    RecordConsistent(e, pop, score, Least(pop, score));
  }

  /** Recording the best score of a population no worse than the current
      one keeps the loop consistent. */
  lemma RecordConsistent(e: Evolution, pop: seq<Routes>, score: Routes -> real, current: real)
    requires |e.history| == e.ran && Tracked(e.history, e.best, e.stall)
    requires |pop| > 0 && current == Least(pop, score)
    requires e.ran > 0 ==> current <= e.history[e.ran - 1]
    ensures Consistent(Record(e, pop, current), score)
  {
    var g := Record(e, pop, current);
    RecordTracked(e, pop, current);
    assert g.history[e.ran] == current;
  }

  /** Recording a score no larger than the last keeps the history tracked. */
  lemma RecordTracked(e: Evolution, pop: seq<Routes>, current: real)
    requires Tracked(e.history, e.best, e.stall)
    requires |e.history| > 0 ==> current <= e.history[|e.history| - 1]
    ensures var g := Record(e, pop, current);
            Tracked(g.history, g.best, g.stall) && g.best == Some(current) && g.history == e.history + [current]
  {
    var g := Record(e, pop, current);
    HistoryStep(e.history, e.best, e.stall, current, g.history, g.best, g.stall);
  }

  /** Appending a new minimum `current`, no larger than the last entry,
      keeps the history tracked. */
  lemma HistoryStep(h: seq<real>, best: Option<real>, stall: nat, current: real,
                    h': seq<real>, best': Option<real>, stall': nat)
    requires Tracked(h, best, stall)
    requires |h| > 0 ==> current <= h[|h| - 1]
    requires h' == h + [current]
    requires var improved := best.None? || current < best.value;
             && best' == (if improved then Some(current) else best)
             && stall' == (if improved then 0 else stall + 1)
    ensures Tracked(h', best', stall') && best' == Some(current)
  {
    if |h| > 0 {
      PlateauStep(h, stall, current);
    } else {
      assert h' == [current];
    }
  }

  /** What a run of the loop from `e` up to generation `generations`
      delivers. */
  predicate Finished(e: Evolution, f: Evolution, generations: nat, patience: Option<int>, score: Routes -> real)
  {
    && Consistent(f, score)
    && e.ran <= f.ran
    && (e.ran < generations ==> e.ran < f.ran <= generations)
    && (e.ran >= generations ==> f.ran == e.ran)
    && (f.ran < generations ==> Stalled(patience, f.stall))
  }

  /** One turn of the loop, unfolded. */
  lemma EvolveUnfold(e: Evolution, breed: (nat, seq<Routes>) -> seq<Routes>, size: nat,
                     patience: Option<int>, generations: nat, score: Routes -> real)
    requires e.ran < generations
    ensures var g := Generation(e, breed(e.ran, e.population), size, score);
            Evolve(e, breed, size, patience, generations, score) ==
              if g.Failure? then Failure(g.error)
              else if Stalled(patience, g.value.stall) then g
              else Evolve(g.value, breed, size, patience, generations, score)
  {
  }

  /** The loop keeps its state consistent, runs at most up to the last
      generation, and stops early only when the counter reached a truthy
      threshold. */
  lemma {:induction false} EvolveConsistent(e: Evolution, breed: (nat, seq<Routes>) -> seq<Routes>, size: nat,
                                            patience: Option<int>, generations: nat, score: Routes -> real)
    requires Consistent(e, score)
    ensures Evolve(e, breed, size, patience, generations, score).Success? ==>
              Finished(e, Evolve(e, breed, size, patience, generations, score).value, generations, patience, score)
    decreases generations - e.ran, 1
  {
    if e.ran < generations {
      var g := Generation(e, breed(e.ran, e.population), size, score);
      if g.Failure? || Stalled(patience, g.value.stall) {
        EvolveLastTurn(e, breed, size, patience, generations, score);
      } else {
        EvolveNextTurn(e, g.value, breed, size, patience, generations, score);
      }
    }
  }

  /** The turn that fails or stops the loop. */
  lemma EvolveLastTurn(e: Evolution, breed: (nat, seq<Routes>) -> seq<Routes>, size: nat,
                       patience: Option<int>, generations: nat, score: Routes -> real)
    requires Consistent(e, score) && e.ran < generations
    requires var g := Generation(e, breed(e.ran, e.population), size, score);
             g.Failure? || Stalled(patience, g.value.stall)
    ensures Evolve(e, breed, size, patience, generations, score).Success? ==>
              Finished(e, Evolve(e, breed, size, patience, generations, score).value, generations, patience, score)
  {
    var g := Generation(e, breed(e.ran, e.population), size, score);
    EvolveUnfold(e, breed, size, patience, generations, score);
    if g.Success? {
      GenerationConsistent(e, breed(e.ran, e.population), size, score);
    }
  }

  /** A run that finishes from the state after one generation finishes
      from the state before it. */
  lemma FinishedStep(e: Evolution, gv: Evolution, r: Result<Evolution>, generations: nat, patience: Option<int>,
                     score: Routes -> real)
    requires e.ran < generations && gv.ran == e.ran + 1
    requires r.Success? ==> Finished(gv, r.value, generations, patience, score)
    ensures r.Success? ==> Finished(e, r.value, generations, patience, score)
  {
  }

  /** A turn that neither fails nor stops hands over to the next. */
  lemma EvolveContinues(e: Evolution, gv: Evolution, breed: (nat, seq<Routes>) -> seq<Routes>,
                        size: nat, patience: Option<int>, generations: nat, score: Routes -> real)
    requires e.ran < generations
    requires Generation(e, breed(e.ran, e.population), size, score) == Success(gv)
    requires !Stalled(patience, gv.stall)
    ensures Evolve(e, breed, size, patience, generations, score) == Evolve(gv, breed, size, patience, generations, score)
  {
  }

  /** The turn after which the loop goes on. */
  lemma {:induction false} EvolveNextTurn(e: Evolution, gv: Evolution, breed: (nat, seq<Routes>) -> seq<Routes>,
                                          size: nat, patience: Option<int>, generations: nat, score: Routes -> real)
    requires Consistent(e, score) && e.ran < generations
    requires Generation(e, breed(e.ran, e.population), size, score) == Success(gv)
    requires !Stalled(patience, gv.stall)
    ensures Evolve(e, breed, size, patience, generations, score).Success? ==>
              Finished(e, Evolve(e, breed, size, patience, generations, score).value, generations, patience, score)
    decreases generations - e.ran, 0
  {
    assert Consistent(gv, score) && gv.ran == e.ran + 1 by {
      GenerationConsistent(e, breed(e.ran, e.population), size, score);
    }
    var r := Evolve(gv, breed, size, patience, generations, score);
    EvolveContinues(e, gv, breed, size, patience, generations, score);
    EvolveConsistent(gv, breed, size, patience, generations, score);
    FinishedStep(e, gv, r, generations, patience, score);
  }

  /** With a non-empty population and a positive size the loop never
      fails: elitism keeps at least one individual. */
  lemma {:induction false} EvolveSucceeds(e: Evolution, breed: (nat, seq<Routes>) -> seq<Routes>, size: nat,
                                          patience: Option<int>, generations: nat, score: Routes -> real)
    requires |e.population| > 0 && size > 0
    ensures Evolve(e, breed, size, patience, generations, score).Success?
    decreases generations - e.ran
  {
    if e.ran < generations {
      var g := Generation(e, breed(e.ran, e.population), size, score);
      assert g.Success? && |g.value.population| > 0 && g.value.ran == e.ran + 1 by {
        assert |Elitism(e.population, breed(e.ran, e.population), size, score)| > 0;
      }
      assert Evolve(e, breed, size, patience, generations, score).Success? by {
        EvolveUnfold(e, breed, size, patience, generations, score);
        if !Stalled(patience, g.value.stall) {
          EvolveSucceeds(g.value, breed, size, patience, generations, score);
        }
      }
    }
  }

  /** With size 0, or an empty population and no offspring, the first
      generation is empty and `min` raises ValueError. */
  lemma EvolveFailsWhenEmpty(e: Evolution, breed: (nat, seq<Routes>) -> seq<Routes>, size: nat,
                             patience: Option<int>, generations: nat, score: Routes -> real)
    requires e.ran < generations
    requires size == 0 || (|e.population| == 0 && |breed(e.ran, e.population)| == 0)
    ensures Evolve(e, breed, size, patience, generations, score) ==
              Failure(ValueError(EmptyMin))
  {
    assert |Elitism(e.population, breed(e.ran, e.population), size, score)| == 0;
    EvolveUnfold(e, breed, size, patience, generations, score);
  }
}
