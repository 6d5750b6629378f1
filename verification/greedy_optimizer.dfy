/** `GreedyOptimizer` of optimization/greedy_optimizer.py around the route
    builder: the id-keyed distance table, the conversion of routes into a
    scored solution, the solution validator and the `optimize` wrapper.

    Only routes that have a vehicle (route index below the fleet size) are
    costed and checked for violations; total distance counts every route. */
module GreedyOptimizer {
  import opened Wrappers
  import opened Seqs
  import opened Types
  import opened Distance
  import opened Config
  import opened Validators
  import Fitness
  import Greedy
  import Init = Initialization

  // ------------------------------------------------------ the distance table

  /** The keys `_build_distance_matrix` writes: every ordered pair of distinct
      ids, and the depot to and from every id. */
  predicate MatrixKey(m: map<Id, Delivery>, a: string, b: string)
  {
    (a != b && a in m && b in m) || (a == DepotKey && b in m) || (b == DepotKey && a in m)
  }

  /** The value left at a key: the depot rows are written last, and of them
      the id-to-depot entry last. */
  function MatrixEntry(m: map<Id, Delivery>, depot: Point, geo: Metric, a: string, b: string): real
    requires MatrixKey(m, a, b)
  {
    if b == DepotKey && a in m then geo(m[a].location, depot)
    else if a == DepotKey && b in m then geo(depot, m[b].location)
    else geo(m[a].location, m[b].location)
  }

  /** `_build_distance_matrix`. Later writes overwrite earlier ones, so an id
      carried by several deliveries is measured from its last delivery (the
      dict entry `Index(ds)`), and the depot rows overwrite delivery pairs. */
  method BuildMatrix(ds: seq<Delivery>, depot: Point, geo: Metric) returns (mat: Matrix)
    ensures forall a, b :: (a, b) in mat <==> MatrixKey(Index(ds), a, b)
    ensures forall a, b :: (a, b) in mat ==> mat[(a, b)] == MatrixEntry(Index(ds), depot, geo, a, b)
  {
    var pairs := PairRows(ds, geo);
    mat := DepotRows(pairs, ds, depot, geo);
  }

  /** The nested loop over pairs of deliveries with different ids. */
  method PairRows(ds: seq<Delivery>, geo: Metric) returns (mat: Matrix)
    ensures forall a, b :: (a, b) in mat <==> a != b && a in Index(ds) && b in Index(ds)
    ensures forall a, b :: (a, b) in mat ==> mat[(a, b)] == geo(Index(ds)[a].location, Index(ds)[b].location)
  {
    var n := |ds|;
    mat := map[];
    var i := 0;
    while i < n
      invariant 0 <= i <= n
      invariant forall a, b :: (a, b) in mat <==> a != b && a in Index(ds[..i]) && b in Index(ds)
      invariant forall a, b :: (a, b) in mat ==>
                  mat[(a, b)] == geo(Index(ds[..i])[a].location, Index(ds)[b].location)
    {
      mat := PairRow(mat, ds, i, geo);
      IndexSnoc(ds, i);
      i := i + 1;
    }
    assert ds[..n] == ds;
  }

  /** One pass of the inner loop: the row of delivery i. */
  method PairRow(mat0: Matrix, ds: seq<Delivery>, i: nat, geo: Metric) returns (mat: Matrix)
    requires i < |ds|
    requires forall a, b :: (a, b) in mat0 <==> a != b && a in Index(ds[..i]) && b in Index(ds)
    requires forall a, b :: (a, b) in mat0 ==>
               mat0[(a, b)] == geo(Index(ds[..i])[a].location, Index(ds)[b].location)
    ensures forall a, b :: (a, b) in mat <==> a != b && a in Index(ds[..i + 1]) && b in Index(ds)
    ensures forall a, b :: (a, b) in mat ==>
              mat[(a, b)] == geo(Index(ds[..i + 1])[a].location, Index(ds)[b].location)
  {
    var n := |ds|;
    var x := ds[i];
    mat := mat0;
    var j := 0;
    while j < n
      invariant 0 <= j <= n
      invariant forall a, b :: (a, b) in mat <==>
                  a != b && ((a in Index(ds[..i]) && b in Index(ds)) || (a == x.id && b in Index(ds[..j])))
      invariant forall a, b :: (a, b) in mat ==>
                  mat[(a, b)] == if a == x.id && b in Index(ds[..j]) then geo(x.location, Index(ds[..j])[b].location)
                                 else geo(Index(ds[..i])[a].location, Index(ds)[b].location)
    {
      if x.id != ds[j].id {
        mat := mat[(x.id, ds[j].id) := geo(x.location, ds[j].location)];
      }
      IndexSnoc(ds, j);
      j := j + 1;
    }
    assert ds[..n] == ds;
    IndexSnoc(ds, i);
  }

  /** The loop writing the depot to every id and every id to the depot. */
  method DepotRows(mat0: Matrix, ds: seq<Delivery>, depot: Point, geo: Metric) returns (mat: Matrix)
    requires forall a, b :: (a, b) in mat0 <==> a != b && a in Index(ds) && b in Index(ds)
    requires forall a, b :: (a, b) in mat0 ==> mat0[(a, b)] == geo(Index(ds)[a].location, Index(ds)[b].location)
    ensures forall a, b :: (a, b) in mat <==> MatrixKey(Index(ds), a, b)
    ensures forall a, b :: (a, b) in mat ==> mat[(a, b)] == MatrixEntry(Index(ds), depot, geo, a, b)
  {
    var n := |ds|;
    mat := mat0;
    var k := 0;
    while k < n
      invariant 0 <= k <= n
      invariant forall a, b :: (a, b) in mat <==>
                  (a != b && a in Index(ds) && b in Index(ds))
                  || (a == DepotKey && b in Index(ds[..k])) || (b == DepotKey && a in Index(ds[..k]))
      invariant forall a, b :: (a, b) in mat ==>
                  mat[(a, b)] == if b == DepotKey && a in Index(ds[..k]) then geo(Index(ds[..k])[a].location, depot)
                                 else if a == DepotKey && b in Index(ds[..k]) then geo(depot, Index(ds[..k])[b].location)
                                 else geo(Index(ds)[a].location, Index(ds)[b].location)
    {
      mat := mat[(DepotKey, ds[k].id) := geo(depot, ds[k].location)];
      mat := mat[(ds[k].id, DepotKey) := geo(ds[k].location, depot)];
      IndexSnoc(ds, k);
      k := k + 1;
    }
    assert ds[..n] == ds;
  }

  // ------------------------------------------------------------ the solution

  /** The loop of `_routes_to_solution` that measures one route: depot to the
      first id, each consecutive pair, the last id back to the depot, with
      missing keys read as 0. */
  method RouteDistance(mat: Matrix, route: Route) returns (d: real)
    ensures d == TripDistance(mat, route)
  {
    d := 0.0;
    if |route| > 0 {
      d := d + Get(mat, DepotKey, route[0]);
      var i := 0;
      while i < |route| - 1
        invariant 0 <= i <= |route| - 1
        invariant d == Get(mat, DepotKey, route[0]) + IdLegs(mat, route[..i + 1])
      {
        assert route[..i + 2] == route[..i + 1] + [route[i + 1]];
        IdLegsConcat(mat, route[..i + 1], [route[i + 1]]);
        d := d + Get(mat, route[i], route[i + 1]);
        i := i + 1;
      }
      assert route[..|route|] == route;
      d := d + Get(mat, route[|route| - 1], DepotKey);
    }
  }

  /** Fuel for the distance plus driver time at a flat 50 km/h. */
  function TripCost(v: Vehicle, d: real): real
  {
    d * v.fuelCostPerKm + (d / 50.0) * v.driverCostPerHour
  }

  /** The cost of the routes, route i priced with vehicle i; a route
      without a vehicle costs nothing. */
  function FleetCost(mat: Matrix, vs: seq<Vehicle>, routes: Routes): real
  {
    if |routes| == 0 then 0.0
    else
      var i := |routes| - 1;
      FleetCost(mat, vs, routes[..i]) + (if i < |vs| then TripCost(vs[i], TripDistance(mat, routes[i])) else 0.0)
  }

  /** The excess of measure i over limit i, summed over the measures that
      have a limit. */
  function Overrun(xs: seq<real>, limits: seq<real>): real
  {
    if |xs| == 0 then 0.0
    else
      var i := |xs| - 1;
      Overrun(xs[..i], limits) + (if i < |limits| && xs[i] > limits[i] then xs[i] - limits[i] else 0.0)
  }

  /** The round-trip distance of every route. */
  function Trips(mat: Matrix, routes: Routes): (r: seq<real>)
    ensures |r| == |routes|
    ensures forall i :: 0 <= i < |routes| ==> r[i] == TripDistance(mat, routes[i])
  {
    seq(|routes|, i requires 0 <= i < |routes| => TripDistance(mat, routes[i]))
  }

  /** The `violations` dict: capacity excess per load, range excess per
      round trip, both only for routes that have a vehicle. */
  function FleetViolations(mat: Matrix, ds: seq<Delivery>, vs: seq<Vehicle>, routes: Routes): Violations
  {
    Violations(Overrun(Fitness.Loads(Index(ds), routes), Fitness.Capacities(vs)),
               Overrun(Trips(mat, routes), Fitness.Ranges(vs)))
  }

  /** `_routes_to_solution`. */
  method RoutesToSolution(routes: Routes, ds: seq<Delivery>, vs: seq<Vehicle>, depot: Point, mat: Matrix,
                          w: FitnessWeights, num: Fitness.Numerics) returns (sol: Solution)
    ensures sol.routes == routes
    ensures sol.totalDistance == TotalDistance(mat, routes)
    ensures sol.totalCost == FleetCost(mat, vs, routes)
    ensures sol.violations == FleetViolations(mat, ds, vs, routes)
    ensures sol.fitness == Fitness.Composite(w, sol.(fitness := 0.0), Fitness.Context(ds, vs, depot, mat, num))
  {
    var total := SumTrips(mat, routes);
    var cost := SumCosts(mat, vs, routes);
    var violations := SumViolations(mat, ds, vs, routes);
    sol := Solution(routes, total, cost, 0.0, violations);
    var fitness := Fitness.Composite(w, sol, Fitness.Context(ds, vs, depot, mat, num));
    sol := sol.(fitness := fitness);
  }

  /** The total-distance loop: every route counts, with or without a vehicle. */
  method SumTrips(mat: Matrix, routes: Routes) returns (total: real)
    ensures total == TotalDistance(mat, routes)
  {
    total := 0.0;
    var i := 0;
    while i < |routes|
      invariant 0 <= i <= |routes|
      invariant total == TotalDistance(mat, routes[..i])
    {
      var d := RouteDistance(mat, routes[i]);
      assert routes[..i + 1] == routes[..i] + [routes[i]];
      TotalDistanceAppend(mat, routes[..i], routes[i]);
      total := total + d;
      i := i + 1;
    }
    assert routes[..|routes|] == routes;
  }

  /** The cost loop: routes past the fleet are skipped. */
  method SumCosts(mat: Matrix, vs: seq<Vehicle>, routes: Routes) returns (cost: real)
    ensures cost == FleetCost(mat, vs, routes)
  {
    cost := 0.0;
    var i := 0;
    while i < |routes|
      invariant 0 <= i <= |routes|
      invariant cost == FleetCost(mat, vs, routes[..i])
    {
      assert routes[..i + 1][..i] == routes[..i];
      if i < |vs| {
        var d := RouteDistance(mat, routes[i]);
        cost := cost + d * vs[i].fuelCostPerKm;
        cost := cost + (d / 50.0) * vs[i].driverCostPerHour;
      }
      i := i + 1;
    }
    assert routes[..|routes|] == routes;
  }

  /** The violation loop: routes past the fleet are skipped. */
  method SumViolations(mat: Matrix, ds: seq<Delivery>, vs: seq<Vehicle>, routes: Routes) returns (v: Violations)
    ensures v == FleetViolations(mat, ds, vs, routes)
  {
    var m := Index(ds);
    ghost var loads := Fitness.Loads(m, routes);
    ghost var trips := Trips(mat, routes);
    ghost var caps := Fitness.Capacities(vs);
    ghost var ranges := Fitness.Ranges(vs);
    var capacity := 0.0;
    var autonomy := 0.0;
    var i := 0;
    while i < |routes|
      invariant 0 <= i <= |routes|
      invariant capacity == Overrun(loads[..i], caps)
      invariant autonomy == Overrun(trips[..i], ranges)
    {
      assert loads[..i + 1][..i] == loads[..i];
      assert trips[..i + 1][..i] == trips[..i];
      if i < |vs| {
        var weight := Load(m, routes[i]);
        if weight > vs[i].maxCapacity {
          capacity := capacity + (weight - vs[i].maxCapacity);
        }
        var d := RouteDistance(mat, routes[i]);
        if d > vs[i].maxRange {
          autonomy := autonomy + (d - vs[i].maxRange);
        }
      }
      i := i + 1;
    }
    assert loads[..|routes|] == loads && trips[..|routes|] == trips;
    v := Violations(capacity, autonomy);
  }

  // ------------------------------------------------- properties of the totals

  lemma {:induction false} OverrunNonNegative(xs: seq<real>, limits: seq<real>)
    ensures Overrun(xs, limits) >= 0.0
  {
    if |xs| > 0 {
      OverrunNonNegative(xs[..|xs| - 1], limits);
    }
  }

  /** No violation is reported exactly when every measure that has a limit
      stays within it. */
  lemma {:induction false} OverrunZeroIff(xs: seq<real>, limits: seq<real>)
    ensures Overrun(xs, limits) == 0.0 <==> forall i :: 0 <= i < |xs| && i < |limits| ==> xs[i] <= limits[i]
  {
    if |xs| > 0 {
      var k := |xs| - 1;
      var init := xs[..k];
      OverrunZeroIff(init, limits);
      OverrunNonNegative(init, limits);
      assert forall i :: 0 <= i < k ==> init[i] == xs[i];
    }
  }

  /** Routes past the fleet add nothing to a violation. */
  lemma {:induction false} OverrunIgnoresBeyondFleet(xs: seq<real>, limits: seq<real>)
    requires |xs| >= |limits|
    ensures Overrun(xs, limits) == Overrun(xs[..|limits|], limits)
  {
    if |xs| > |limits| {
      var k := |xs| - 1;
      OverrunIgnoresBeyondFleet(xs[..k], limits);
      assert xs[..k][..|limits|] == xs[..|limits|];
    } else {
      assert xs[..|limits|] == xs;
    }
  }

  /** Routes past the fleet cost nothing. */
  lemma {:induction false} FleetCostIgnoresBeyondFleet(mat: Matrix, vs: seq<Vehicle>, routes: Routes)
    requires |routes| >= |vs|
    ensures FleetCost(mat, vs, routes) == FleetCost(mat, vs, routes[..|vs|])
  {
    if |routes| > |vs| {
      var k := |routes| - 1;
      FleetCostIgnoresBeyondFleet(mat, vs, routes[..k]);
      assert routes[..k][..|vs|] == routes[..|vs|];
    } else {
      assert routes[..|vs|] == routes;
    }
  }

  /** With non-negative distances and prices the cost is non-negative. */
  lemma {:induction false} FleetCostNonNegative(mat: Matrix, vs: seq<Vehicle>, routes: Routes)
    requires forall k :: k in mat ==> mat[k] >= 0.0
    requires forall i :: 0 <= i < |vs| ==> vs[i].fuelCostPerKm >= 0.0 && vs[i].driverCostPerHour >= 0.0
    ensures FleetCost(mat, vs, routes) >= 0.0
  {
    if |routes| > 0 {
      var k := |routes| - 1;
      FleetCostNonNegative(mat, vs, routes[..k]);
      if k < |vs| {
        var d := TripDistance(mat, routes[k]);
        assert d >= 0.0 by {
          IdLegsNonNegative(mat, routes[k]);
        }
        assert d * vs[k].fuelCostPerKm >= 0.0 && (d / 50.0) * vs[k].driverCostPerHour >= 0.0 by {
          ProductNonNegative(d, vs[k].fuelCostPerKm);
          ProductNonNegative(d / 50.0, vs[k].driverCostPerHour);
        }
      }
    }
  }

  lemma ProductNonNegative(a: real, b: real)
    requires a >= 0.0 && b >= 0.0
    ensures a * b >= 0.0
  {
    if a > 0.0 && b > 0.0 {
      Fitness.ProductPositive(a, b);
    }
  }

  /** The number of routes past the fleet, as a real. */
  function Beyond(n: nat, k: nat): real
  {
    if n > k then (n - k) as real else 0.0
  }

  /** The fitness excess penalty is the reported violation plus 1000 per
      route past the fleet, all times the weight. */
  lemma {:induction false} ExcessIsWeightedOverrun(weight: real, xs: seq<real>, limits: seq<real>)
    ensures Fitness.Excess(weight, xs, limits) == weight * (Overrun(xs, limits) + 1000.0 * Beyond(|xs|, |limits|))
  {
    if |xs| > 0 {
      var k := |xs| - 1;
      ExcessIsWeightedOverrun(weight, xs[..k], limits);
      var o := Overrun(xs[..k], limits);
      var b := Beyond(k, |limits|);
      var t := if k < |limits| && xs[k] > limits[k] then xs[k] - limits[k] else 0.0;
      var e := if k >= |limits| then 1.0 else 0.0;
      assert Beyond(|xs|, |limits|) == b + e;
      assert Fitness.ExcessTerm(weight, k, xs[k], limits) == weight * (t + 1000.0 * e);
      assert weight * (o + 1000.0 * b) + weight * (t + 1000.0 * e) == weight * ((o + t) + 1000.0 * (b + e));
    }
  }

  /** The capacity term of the fitness is β times the reported capacity
      violation, plus 1000 β per route past the fleet. */
  lemma CapacityPenaltyIsReported(beta: real, mat: Matrix, ds: seq<Delivery>, vs: seq<Vehicle>, routes: Routes)
    ensures Fitness.CapacityPenalty(beta, ds, vs, routes)
            == beta * (FleetViolations(mat, ds, vs, routes).capacity + 1000.0 * Beyond(|routes|, |vs|))
  {
    ExcessIsWeightedOverrun(beta, Fitness.Loads(Index(ds), routes), Fitness.Capacities(vs));
  }

  // ------------------------------------------------------------- validation

  /** `set(d.id for d in deliveries)`. */
  function DeliveryIds(ds: seq<Delivery>): set<Id>
  {
    set d | d in ds :: d.id
  }

  /** What `validate_solution` accepts: the same id sets, no route without a
      vehicle, no route over its vehicle's capacity. A repeated id and the
      range are not looked at. */
  predicate Acceptable(routes: Routes, ds: seq<Delivery>, vs: seq<Vehicle>)
  {
    && IdSet(routes) == DeliveryIds(ds)
    && |routes| <= |vs|
    && forall i :: 0 <= i < |routes| ==> Load(Index(ds), routes[i]) <= vs[i].maxCapacity
  }

  /** `validate_solution`. */
  method ValidateSolution(sol: Solution, ds: seq<Delivery>, vs: seq<Vehicle>) returns (ok: bool)
    ensures ok <==> Acceptable(sol.routes, ds, vs)
  {
    var m := Index(ds);
    var all := DeliveryIds(ds);
    var seen: set<Id> := {};
    var routes := sol.routes;
    var i := 0;
    while i < |routes|
      invariant 0 <= i <= |routes|
      invariant seen == IdSet(routes[..i])
    {
      IdSetSnoc(routes[..i], routes[i]);
      assert routes[..i + 1] == routes[..i] + [routes[i]];
      seen := seen + set x | x in routes[i];
      i := i + 1;
    }
    assert routes[..|routes|] == routes;
    if all != seen {
      return false;
    }
    i := 0;
    while i < |routes|
      invariant 0 <= i <= |routes|
      invariant i <= |vs|
      invariant forall k :: 0 <= k < i ==> Load(m, routes[k]) <= vs[k].maxCapacity
    {
      if i >= |vs| {
        return false;
      }
      if Load(m, routes[i]) > vs[i].maxCapacity {
        return false;
      }
      i := i + 1;
    }
    return true;
  }

  lemma IdSetSnoc(routes: Routes, r: Route)
    ensures IdSet(routes + [r]) == IdSet(routes) + set x | x in r
  {
    var both := routes + [r];
    forall x | x in IdSet(both)
      ensures x in IdSet(routes) || x in r
    {
      var q :| q in both && x in q;
    }
    forall x | x in IdSet(routes) || x in r
      ensures x in IdSet(both)
    {
      if x in r {
        assert r == both[|routes|];
      } else {
        var q :| q in routes && x in q;
        assert q in both;
      }
    }
  }

  /** Validation never reads the range: two fleets with the same capacities
      accept the same solutions. */
  lemma ValidationIgnoresRange(routes: Routes, ds: seq<Delivery>, vs: seq<Vehicle>, ws: seq<Vehicle>)
    requires |vs| == |ws|
    requires forall i :: 0 <= i < |vs| ==> vs[i].maxCapacity == ws[i].maxCapacity
    ensures Acceptable(routes, ds, vs) <==> Acceptable(routes, ds, ws)
  {
  }

  /** A delivery listed twice on the same route is accepted. */
  lemma ValidationIgnoresDuplicates()
    ensures Acceptable([["a", "a"]], [Delivery("a", Point(0.0, 0.0), 2, 1.0, None, None, 0.0)],
                       [Vehicle(10.0, 100.0, 0.0, 0.0)])
  {
    var ds := [Delivery("a", Point(0.0, 0.0), 2, 1.0, None, None, 0.0)];
    var routes: Routes := [["a", "a"]];
    assert IdSet(routes) == {"a"} by {
      assert "a" in routes[0];
    }
    assert DeliveryIds(ds) == {"a"} by {
      assert ds[0] in ds;
    }
    assert Index(ds) == map["a" := ds[0]] by {
      assert ds[..0] == [];
    }
    assert Load(Index(ds), routes[0]) == 2.0 by {
      LoadAppend(Index(ds), ["a"], "a");
      LoadAppend(Index(ds), [], "a");
      assert [] + ["a"] == ["a"];
      assert ["a"] + ["a"] == routes[0];
    }
  }

  // ------------------------------------------- the compaction, as written

  /** One delivery of weight 5, a first vehicle that cannot carry it and a
      second one that can. */
  const SampleDelivery: Delivery := Delivery("a", Point(0.0, 0.0), 2, 5.0, None, None, 0.5)
  const SampleFleet: seq<Vehicle> := [Vehicle(1.0, 100.0, 0.0, 0.0), Vehicle(10.0, 100.0, 0.0, 0.0)]
  const SampleMatrix: Matrix := map[(DepotKey, "a") := 1.0, ("a", DepotKey) := 1.0]

  /** The two vehicles' routes on the sample: the first stays empty, the
      second takes the delivery. */
  lemma SampleRoutes()
    ensures Greedy.DictItems([SampleDelivery]) == [SampleDelivery]
    ensures Greedy.BuildRoute([SampleDelivery], SampleFleet[0], SampleMatrix, DepotKey, 0.0, 0.0, [])
            == ([], [SampleDelivery])
    ensures Greedy.BuildRoute([SampleDelivery], SampleFleet[1], SampleMatrix, DepotKey, 0.0, 0.0, [])
            == ([SampleDelivery], [])
  {
    var a := SampleDelivery;
    var vs := SampleFleet;
    var mat := SampleMatrix;
    var ds := [a];
    assert Greedy.DictItems(ds) == ds by {
      Greedy.DictItemsOfDistinct(ds);
    }
    assert Greedy.Candidates(ds) == ds by {
      assert Greedy.CriticalPart(ds[1..]) == [] && Greedy.NormalPart(ds[1..]) == [];
    }
    assert Greedy.Lookup(mat, DepotKey, "a") == Some(1.0);
    assert Greedy.Pick(ds, mat, DepotKey, 0.0, 0.0, vs[0]) == None by {
      assert !Greedy.Feasible(vs[0], 0.0, 0.0, a, Some(1.0));
      assert Greedy.ScanPick(ds, mat, DepotKey, 0.0, 0.0, vs[0], 1, None) == None;
    }
    assert Greedy.Step(ds, vs[0], mat, DepotKey, 0.0, 0.0) == None;
    assert Greedy.Pick(ds, mat, DepotKey, 0.0, 0.0, vs[1]) == Some(0) by {
      assert Greedy.Feasible(vs[1], 0.0, 0.0, a, Some(1.0));
      assert Greedy.ScanPick(ds, mat, DepotKey, 0.0, 0.0, vs[1], 1, Some(0)) == Some(0);
    }
    assert Greedy.Step(ds, vs[1], mat, DepotKey, 0.0, 0.0) == Some(a);
    assert RemoveFirst(ds, a) == [];
    assert Greedy.Step([], vs[1], mat, "a", 0.0 + 5.0, 0.0 + 1.0) == None by {
      assert Greedy.Candidates([]) == [];
      assert Greedy.Pick([], mat, "a", 0.0 + 5.0, 0.0 + 1.0, vs[1]) == None;
    }
    assert Greedy.BuildRoute(ds, vs[1], mat, DepotKey, 0.0, 0.0, [])
           == Greedy.BuildRoute([], vs[1], mat, "a", 0.0 + 5.0, 0.0 + 1.0, [] + [a]);
  }

  /** The loads of the sample's routes. */
  lemma SampleLoads()
    ensures Index([SampleDelivery]) == map["a" := SampleDelivery]
    ensures Load(Index([SampleDelivery]), ["a"]) == 5.0
    ensures Load(Index([SampleDelivery]), []) == 0.0
  {
    var ds := [SampleDelivery];
    assert ds[..0] == [];
    assert Index(ds) == Index(ds[..0])[ds[0].id := ds[0]];
    LoadAppend(Index(ds), [], "a");
    assert [] + ["a"] == ["a"];
  }

  /** Two vehicles, the first of which takes nothing and the second
      everything: the loop as written keeps one route, the aligned loop two. */
  lemma SecondVehicleTakesAll(vs: seq<Vehicle>, ds: seq<Delivery>, mat: Matrix, route: seq<Delivery>)
    requires |vs| == 2 && |ds| > 0 && |route| > 0
    requires Greedy.BuildRoute(ds, vs[0], mat, DepotKey, 0.0, 0.0, []) == ([], ds)
    requires Greedy.BuildRoute(ds, vs[1], mat, DepotKey, 0.0, 0.0, []) == (route, [])
    ensures Greedy.Fleet(vs, 0, ds, mat) == ([Init.Built(1, route)], [])
    ensures Greedy.FleetAligned(vs, 0, ds, mat) == ([[], route], [])
  {
    assert Greedy.Fleet(vs, 2, [], mat) == ([], []);
    assert Greedy.FleetAligned(vs, 2, [], mat) == ([], []);
    var r1 := Greedy.BuildRoute(ds, vs[1], mat, DepotKey, 0.0, 0.0, []);
    assert r1.0 == route && r1.1 == [];
    assert Greedy.Fleet(vs, 1, ds, mat).0 == [Init.Built(1, r1.0)] + Greedy.Fleet(vs, 2, r1.1, mat).0 by {
      Greedy.FleetStep(vs, 1, ds, mat);
    }
    assert Greedy.Fleet(vs, 2, r1.1, mat) == ([], []);
    assert Greedy.Fleet(vs, 1, ds, mat).1 == Greedy.Fleet(vs, 2, r1.1, mat).1 by {
      Greedy.FleetStep(vs, 1, ds, mat);
    }
    assert Greedy.Fleet(vs, 1, ds, mat).0 == [Init.Built(1, route)];
    assert Greedy.Fleet(vs, 1, ds, mat).1 == [];
    assert Greedy.Fleet(vs, 1, ds, mat) == ([Init.Built(1, route)], []);
    assert Greedy.FleetAligned(vs, 2, r1.1, mat) == ([], []);
    assert Greedy.FleetAligned(vs, 1, ds, mat).0 == [r1.0] + Greedy.FleetAligned(vs, 2, r1.1, mat).0
        && Greedy.FleetAligned(vs, 1, ds, mat).1 == Greedy.FleetAligned(vs, 2, r1.1, mat).1 by {
      Greedy.FleetAlignedStep(vs, 1, ds, mat);
    }
    assert [r1.0] + [] == [route];
    assert Greedy.FleetAligned(vs, 1, ds, mat) == ([route], []);
    var r0 := Greedy.BuildRoute(ds, vs[0], mat, DepotKey, 0.0, 0.0, []);
    assert r0.0 == [] && r0.1 == ds;
    assert Greedy.Fleet(vs, 0, ds, mat).0 == Greedy.Fleet(vs, 1, r0.1, mat).0
        && Greedy.Fleet(vs, 0, ds, mat).1 == Greedy.Fleet(vs, 1, r0.1, mat).1 by {
      Greedy.FleetStep(vs, 0, ds, mat);
    }
    assert Greedy.FleetAligned(vs, 0, ds, mat).0 == [r0.0] + Greedy.FleetAligned(vs, 1, r0.1, mat).0
        && Greedy.FleetAligned(vs, 0, ds, mat).1 == Greedy.FleetAligned(vs, 1, r0.1, mat).1 by {
      Greedy.FleetAlignedStep(vs, 0, ds, mat);
    }
    assert [r0.0] + [route] == [[], route];
  }

  /** The violation of a single measure. */
  lemma OverrunSingle(x: real, limits: seq<real>)
    requires |limits| > 0
    ensures Overrun([x], limits) == if x > limits[0] then x - limits[0] else 0.0
  {
    assert [x][..0] == [];
  }

  /** As written, the second vehicle's route lands at index 0 once the
      first vehicle's empty route is dropped, so it is judged against the
      first vehicle: a capacity violation of 4 is reported and the plan
      fails validation, though the vehicle that built the route had room. */
  lemma CompactionMisassignsVehicles()
    ensures Greedy.SolveGreedy([SampleDelivery], SampleFleet, SampleMatrix) == [["a"]]
    ensures FleetViolations(SampleMatrix, [SampleDelivery], SampleFleet, [["a"]]).capacity == 4.0
    ensures !Acceptable([["a"]], [SampleDelivery], SampleFleet)
  {
    var a := SampleDelivery;
    var ds := [a];
    assert Greedy.SolveGreedy(ds, SampleFleet, SampleMatrix) == [["a"]] by {
      SampleRoutes();
      SecondVehicleTakesAll(SampleFleet, ds, SampleMatrix, ds);
      assert Init.AllStops([Init.Built(1, [a])]) == [[a]];
      assert Ids([a]) == ["a"] && Ids([]) == [];
    }
    var loads := Fitness.Loads(Index(ds), [["a"]]);
    assert loads == [5.0] by {
      SampleLoads();
    }
    OverrunSingle(5.0, Fitness.Capacities(SampleFleet));
    assert Load(Index(ds), ["a"]) > SampleFleet[0].maxCapacity by {
      SampleLoads();
    }
  }

  /** The corrected solve when the fleet takes everything: the id lists of
      the vehicles' routes and nothing more. */
  lemma AlignedFromPlan(ds: seq<Delivery>, vs: seq<Vehicle>, mat: Matrix, plan: seq<seq<Delivery>>)
    requires Greedy.FleetAligned(vs, 0, Greedy.DictItems(ds), mat) == (plan, [])
    ensures Greedy.SolveGreedyAligned(ds, vs, mat) == IdRoutes(plan)
  {
    assert Greedy.Singletons(Ids([])) == [];
    assert IdRoutes(plan) + [] == IdRoutes(plan);
  }

  /** The corrected plan keeps the empty route at index 0, so the route
      is judged against the vehicle that built it: nothing is reported and
      the plan passes validation. */
  lemma AlignedKeepsVehicles()
    ensures Greedy.SolveGreedyAligned([SampleDelivery], SampleFleet, SampleMatrix) == [[], ["a"]]
    ensures FleetViolations(SampleMatrix, [SampleDelivery], SampleFleet, [[], ["a"]]).capacity == 0.0
    ensures Acceptable([[], ["a"]], [SampleDelivery], SampleFleet)
  {
    SampleAlignedSolve();
    SampleAlignedReport();
  }

  lemma SampleAlignedSolve()
    ensures Greedy.SolveGreedyAligned([SampleDelivery], SampleFleet, SampleMatrix) == [[], ["a"]]
  {
    var a := SampleDelivery;
    var ds := [a];
    var plan := [[], [a]];
    assert Greedy.FleetAligned(SampleFleet, 0, Greedy.DictItems(ds), SampleMatrix) == (plan, []) by {
      SampleRoutes();
      SecondVehicleTakesAll(SampleFleet, ds, SampleMatrix, ds);
    }
    AlignedFromPlan(ds, SampleFleet, SampleMatrix, plan);
    assert IdRoutes(plan) == [[], ["a"]] by {
      assert Ids(plan[0]) == [] && Ids(plan[1]) == ["a"];
    }
  }

  lemma SampleAlignedReport()
    ensures FleetViolations(SampleMatrix, [SampleDelivery], SampleFleet, [[], ["a"]]).capacity == 0.0
    ensures Acceptable([[], ["a"]], [SampleDelivery], SampleFleet)
  {
    var ds := [SampleDelivery];
    var routes: Routes := [[], ["a"]];
    var loads := Fitness.Loads(Index(ds), routes);
    assert loads == [0.0, 5.0] by {
      SampleLoads();
    }
    assert Overrun(loads, Fitness.Capacities(SampleFleet)) == 0.0 by {
      OverrunSingle(0.0, Fitness.Capacities(SampleFleet));
      assert loads[..1] == [0.0];
    }
    assert IdSet(routes) == {"a"} by {
      assert "a" in routes[1];
    }
    assert DeliveryIds(ds) == {"a"} by {
      assert ds[0] in ds;
    }
  }

  // ---------------------------------------------------------------- optimize

  const FailurePrefix: string := "Erro durante otimiza\U{e7}\U{e3}o Greedy: "

  /** Every route of the corrected greedy plan that has a vehicle fits
      its capacity, so no capacity violation is reported. */
  lemma AlignedCapacityClean(ds: seq<Delivery>, vs: seq<Vehicle>, mat: Matrix)
    requires forall i :: 0 <= i < |vs| ==> vs[i].maxCapacity >= 0.0
    ensures FleetViolations(mat, ds, vs, Greedy.SolveGreedyAligned(ds, vs, mat)).capacity == 0.0
  {
    var routes := Greedy.SolveGreedyAligned(ds, vs, mat);
    var loads := Fitness.Loads(Index(ds), routes);
    var caps := Fitness.Capacities(vs);
    forall i | 0 <= i < |loads| && i < |caps|
      ensures loads[i] <= caps[i]
    {
      AlignedRouteFits(ds, vs, mat, i);
    }
    OverrunZeroIff(loads, caps);
  }

  /** Route i of the corrected plan, for a vehicle i, fits vehicle i. */
  lemma AlignedRouteFits(ds: seq<Delivery>, vs: seq<Vehicle>, mat: Matrix, i: nat)
    requires forall i :: 0 <= i < |vs| ==> vs[i].maxCapacity >= 0.0
    requires i < |Greedy.SolveGreedyAligned(ds, vs, mat)| && i < |vs|
    ensures Load(Index(ds), Greedy.SolveGreedyAligned(ds, vs, mat)[i]) <= vs[i].maxCapacity
  {
    var f := Greedy.FleetAligned(vs, 0, Greedy.DictItems(ds), mat);
    var routes := Greedy.SolveGreedyAligned(ds, vs, mat);
    assert |f.1| > 0 ==> |f.0| == |vs| by {
      Greedy.FleetAlignedFull(vs, 0, Greedy.DictItems(ds), mat);
    }
    assert i < |f.0|;
    if |routes[i]| > 0 {
      Greedy.SolveGreedyAlignedFits(ds, vs, mat, i);
    } else {
      assert routes[i] == [];
    }
  }

  /** The corrected plan passes `validate_solution` exactly when the fleet
      took every delivery. */
  lemma AlignedAcceptableIff(ds: seq<Delivery>, vs: seq<Vehicle>, mat: Matrix)
    requires forall i :: 0 <= i < |vs| ==> vs[i].maxCapacity >= 0.0
    ensures Acceptable(Greedy.SolveGreedyAligned(ds, vs, mat), ds, vs)
            <==> |Greedy.FleetAligned(vs, 0, Greedy.DictItems(ds), mat).1| == 0
  {
    var f := Greedy.FleetAligned(vs, 0, Greedy.DictItems(ds), mat);
    var routes := Greedy.SolveGreedyAligned(ds, vs, mat);
    assert |routes| == |f.0| + |f.1|;
    assert |f.1| > 0 ==> |f.0| == |vs| by {
      Greedy.FleetAlignedFull(vs, 0, Greedy.DictItems(ds), mat);
    }
    if |f.1| == 0 {
      assert IdSet(routes) == DeliveryIds(ds) by {
        Greedy.SolveGreedyAlignedCovers(ds, vs, mat);
        IdSetFlatten(routes);
        DeliveryIdsByIndex(ds);
      }
      forall i | 0 <= i < |routes|
        ensures Load(Index(ds), routes[i]) <= vs[i].maxCapacity
      {
        AlignedRouteFits(ds, vs, mat, i);
      }
    }
  }

  lemma DeliveryIdsByIndex(ds: seq<Delivery>)
    ensures forall id :: id in DeliveryIds(ds) <==> exists i :: 0 <= i < |ds| && ds[i].id == id
  {
    forall id | id in DeliveryIds(ds)
      ensures exists i :: 0 <= i < |ds| && ds[i].id == id
    {
      var d :| d in ds && d.id == id;
      var i :| 0 <= i < |ds| && ds[i] == d;
    }
  }

  /** The table `_build_distance_matrix` leaves, as `BuildMatrix` states it. */
  ghost predicate IsMatrix(ds: seq<Delivery>, depot: Point, geo: Metric, mat: Matrix)
  {
    && (forall a, b :: (a, b) in mat <==> MatrixKey(Index(ds), a, b))
    && (forall a, b :: (a, b) in mat ==> mat[(a, b)] == MatrixEntry(Index(ds), depot, geo, a, b))
  }

  /** `optimize`: validate, build the table, plan, score. Any failure comes
      back as an optimization error; a greedy run counts as one generation
      with its own fitness as the whole history. The plan is `_solve_greedy`
      as written: it serves every delivery once, and it is the aligned plan
      with its empty routes dropped, so it reports no capacity violation
      whenever no vehicle of the aligned plan was left without a route
      (CompactionMisassignsVehicles shows one that is reported otherwise). */
  method Optimize(ds: seq<Delivery>, vs: seq<Vehicle>, depot: Point, geo: Metric, w: FitnessWeights,
                  num: Fitness.Numerics) returns (r: Result<OptimizationResult>)
    ensures r.Failure? <==> !ValidDeliveries(ds) || !ValidVehicles(vs)
    ensures r.Failure? ==> r.error.Optimization?
    ensures r.Success? ==> r.value.generationsEvolved == 1 && r.value.history == [r.value.solution.fitness]
    ensures r.Success? ==> Distinct(Flatten(r.value.solution.routes))
    ensures r.Success? ==> forall id :: id in Flatten(r.value.solution.routes) <==>
                                        exists i :: 0 <= i < |ds| && ds[i].id == id
    ensures r.Success? ==>
              exists mat :: (IsMatrix(ds, depot, geo, mat)
                             && r.value.solution.routes == DropEmpty(Greedy.SolveGreedyAligned(ds, vs, mat))
                             && (Used(Greedy.SolveGreedyAligned(ds, vs, mat)) == |Greedy.SolveGreedyAligned(ds, vs, mat)|
                                 ==> r.value.solution.violations.capacity == 0.0))
  {
    var checked := ValidateDeliveries(ds);
    ValidateDeliveriesCorrect(ds);
    if checked.Failure? {
      return Failure(Optimization(FailurePrefix + checked.error.Message()));
    }
    var fleet := ValidateVehicles(vs);
    if fleet.Failure? {
      return Failure(Optimization(FailurePrefix + fleet.error.Message()));
    }
    var mat := BuildMatrix(ds, depot, geo);
    var routes := Greedy.SolveGreedy(ds, vs, mat);
    var sol := RoutesToSolution(routes, ds, vs, depot, mat, w, num);
    Greedy.SolveGreedyCovers(ds, vs, mat);
    Greedy.SolveGreedyCompacts(ds, vs, mat);
    var aligned := Greedy.SolveGreedyAligned(ds, vs, mat);
    if Used(aligned) == |aligned| {
      Greedy.SolveGreedyAgrees(ds, vs, mat);
      AlignedCapacityClean(ds, vs, mat);
    }
    assert IsMatrix(ds, depot, geo, mat);
    r := Success(OptimizationResult(sol, 1, [sol.fitness]));
  }

  /** `optimize` with the aligned plan, which keeps every vehicle's route
      at the vehicle's index: every route that has a vehicle fits it, so no
      capacity violation is ever reported. */
  method OptimizeAligned(ds: seq<Delivery>, vs: seq<Vehicle>, depot: Point, geo: Metric, w: FitnessWeights,
                         num: Fitness.Numerics) returns (r: Result<OptimizationResult>)
    ensures r.Failure? <==> !ValidDeliveries(ds) || !ValidVehicles(vs)
    ensures r.Failure? ==> r.error.Optimization?
    ensures r.Success? ==> r.value.generationsEvolved == 1 && r.value.history == [r.value.solution.fitness]
    ensures r.Success? ==> Distinct(Flatten(r.value.solution.routes))
    ensures r.Success? ==> forall id :: id in Flatten(r.value.solution.routes) <==>
                                        exists i :: 0 <= i < |ds| && ds[i].id == id
    ensures r.Success? ==> r.value.solution.violations.capacity == 0.0
  {
    var checked := ValidateDeliveries(ds);
    ValidateDeliveriesCorrect(ds);
    if checked.Failure? {
      return Failure(Optimization(FailurePrefix + checked.error.Message()));
    }
    var fleet := ValidateVehicles(vs);
    if fleet.Failure? {
      return Failure(Optimization(FailurePrefix + fleet.error.Message()));
    }
    var mat := BuildMatrix(ds, depot, geo);
    var routes := Greedy.SolveGreedyAligned(ds, vs, mat);
    var sol := RoutesToSolution(routes, ds, vs, depot, mat, w, num);
    Greedy.SolveGreedyAlignedCovers(ds, vs, mat);
    assert sol.violations.capacity == 0.0 by {
      AlignedCapacityClean(ds, vs, mat);
    }
    r := Success(OptimizationResult(sol, 1, [sol.fitness]));
  }
}
