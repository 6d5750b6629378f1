/** The multi-objective fitness of the fitness package: six additive terms
    (distance, capacity excess, range excess, critical-delivery position,
    load imbalance, route count), each a fold over the routes of a
    solution. Lower is better. */
module Fitness {
  import opened Wrappers
  import opened Seqs
  import opened Types
  import opened Distance
  import opened Config

  /** The numeric oracles the terms call: `math.sqrt` (also used for
      `** 0.5`) and the "lat,lon" string formatting of a coordinate. */
  datatype Numerics = Numerics(sqrt: real -> real, coordKey: Point -> string)

  /** The only facts about the square root the model relies on. */
  ghost predicate SoundRoot(num: Numerics)
  {
    num.sqrt(0.0) == 0.0 && forall x :: x >= 0.0 ==> num.sqrt(x) >= 0.0
  }

  /** Everything a fitness evaluation reads besides the solution. */
  datatype Context = Context(
    deliveries: seq<Delivery>,
    vehicles: seq<Vehicle>,
    depot: Point,
    matrix: Matrix,
    num: Numerics)

  // ------------------------------------------------------ excess penalties

  lemma ProductPositive(a: real, b: real)
    requires a > 0.0 && b > 0.0
    ensures a * b > 0.0
  {
  }

  lemma SquareNonNegative(x: real)
    ensures x * x >= 0.0
  {
    if x < 0.0 {
      ProductPositive(-x, -x);
    } else if x > 0.0 {
      ProductPositive(x, x);
    }
  }

  lemma ExcessTermSign(weight: real, i: nat, x: real, limits: seq<real>)
    requires weight >= 0.0
    ensures ExcessTerm(weight, i, x, limits) >= 0.0
    ensures weight > 0.0 ==> (ExcessTerm(weight, i, x, limits) == 0.0 <==> i < |limits| && x <= limits[i])
  {
    if weight > 0.0 {
      ProductPositive(weight, 1000.0);
      if i < |limits| && x > limits[i] {
        ProductPositive(weight, x - limits[i]);
      }
    } else if i < |limits| && x > limits[i] {
      assert weight == 0.0;
    }
  }

  /** The term a route at index i adds to a capacity or range penalty:
      a fixed 1000 per route without a vehicle, otherwise the excess of
      its measure over the vehicle's limit, if any. */
  function ExcessTerm(weight: real, i: nat, x: real, limits: seq<real>): real
  {
    if i >= |limits| then weight * 1000.0
    else if x > limits[i] then weight * (x - limits[i])
    else 0.0
  }

  /** The penalty over routes whose measures are xs, route i against limit i. */
  function Excess(weight: real, xs: seq<real>, limits: seq<real>): real
  {
    if |xs| == 0 then 0.0
    else Excess(weight, xs[..|xs| - 1], limits) + ExcessTerm(weight, |xs| - 1, xs[|xs| - 1], limits)
  }

  lemma ExcessAppend(weight: real, xs: seq<real>, x: real, limits: seq<real>)
    ensures Excess(weight, xs + [x], limits) == Excess(weight, xs, limits) + ExcessTerm(weight, |xs|, x, limits)
  {
    assert (xs + [x])[..|xs|] == xs;
  }

  /** The three cases of appending one measure: no limit for it, over its
      limit, within its limit. */
  lemma ExcessAppendCases(weight: real, xs: seq<real>, x: real, limits: seq<real>)
    ensures |xs| >= |limits| ==> Excess(weight, xs + [x], limits) == Excess(weight, xs, limits) + weight * 1000.0
    ensures |xs| < |limits| && x > limits[|xs|] ==>
              Excess(weight, xs + [x], limits) == Excess(weight, xs, limits) + weight * (x - limits[|xs|])
    ensures |xs| < |limits| && x <= limits[|xs|] ==> Excess(weight, xs + [x], limits) == Excess(weight, xs, limits)
  {
    ExcessAppend(weight, xs, x, limits);
  }

  lemma {:induction false} ExcessNonNegative(weight: real, xs: seq<real>, limits: seq<real>)
    requires weight >= 0.0
    ensures Excess(weight, xs, limits) >= 0.0
  {
    if |xs| > 0 {
      ExcessNonNegative(weight, xs[..|xs| - 1], limits);
      ExcessTermSign(weight, |xs| - 1, xs[|xs| - 1], limits);
    }
  }

  /** With a positive weight the penalty vanishes exactly when every route
      has a limit and no measure exceeds it. */
  lemma {:induction false} ExcessZero(weight: real, xs: seq<real>, limits: seq<real>)
    requires weight > 0.0
    ensures Excess(weight, xs, limits) == 0.0 <==>
              |xs| <= |limits| && forall i :: 0 <= i < |xs| ==> xs[i] <= limits[i]
  {
    if |xs| > 0 {
      var init := xs[..|xs| - 1];
      ExcessZero(weight, init, limits);
      ExcessNonNegative(weight, init, limits);
      ExcessTermSign(weight, |xs| - 1, xs[|xs| - 1], limits);
      assert forall i :: 0 <= i < |init| ==> init[i] == xs[i];
    }
  }

  /** The load of every route, `delivery_dict` weights only. */
  function Loads(m: map<Id, Delivery>, routes: Routes): (r: seq<real>)
    ensures |r| == |routes|
    ensures forall i :: 0 <= i < |routes| ==> r[i] == Load(m, routes[i])
  {
    seq(|routes|, i requires 0 <= i < |routes| => Load(m, routes[i]))
  }

  function Capacities(vs: seq<Vehicle>): (r: seq<real>)
    ensures |r| == |vs|
    ensures forall i :: 0 <= i < |vs| ==> r[i] == vs[i].maxCapacity
  {
    seq(|vs|, i requires 0 <= i < |vs| => vs[i].maxCapacity)
  }

  function Ranges(vs: seq<Vehicle>): (r: seq<real>)
    ensures |r| == |vs|
    ensures forall i :: 0 <= i < |vs| ==> r[i] == vs[i].maxRange
  {
    seq(|vs|, i requires 0 <= i < |vs| => vs[i].maxRange)
  }

  // ------------------------------------------------------------ capacity

  /** `CapacityPenalty.calculate`. */
  function CapacityPenalty(beta: real, ds: seq<Delivery>, vs: seq<Vehicle>, routes: Routes): real
  {
    Excess(beta, Loads(Index(ds), routes), Capacities(vs))
  }

  lemma CapacityPenaltyNonNegative(beta: real, ds: seq<Delivery>, vs: seq<Vehicle>, routes: Routes)
    requires beta >= 0.0
    ensures CapacityPenalty(beta, ds, vs, routes) >= 0.0
  {
    ExcessNonNegative(beta, Loads(Index(ds), routes), Capacities(vs));
  }

  /** With β > 0 the penalty is zero iff every route has a vehicle and its
      load is within that vehicle's capacity. */
  lemma CapacityPenaltyZero(beta: real, ds: seq<Delivery>, vs: seq<Vehicle>, routes: Routes)
    requires beta > 0.0
    ensures CapacityPenalty(beta, ds, vs, routes) == 0.0 <==>
              |routes| <= |vs| && forall i :: 0 <= i < |routes| ==> Load(Index(ds), routes[i]) <= vs[i].maxCapacity
  {
    ExcessZero(beta, Loads(Index(ds), routes), Capacities(vs));
  }

  lemma LoadsAppend(m: map<Id, Delivery>, routes: Routes, r: Route)
    ensures Loads(m, routes + [r]) == Loads(m, routes) + [Load(m, r)]
  {
  }

  /** One more route adds exactly its own term: β·1000 when there is no
      vehicle for it, whatever it holds; otherwise β times its excess load,
      and nothing when the load is at or under capacity. */
  lemma CapacityPenaltyAppend(beta: real, ds: seq<Delivery>, vs: seq<Vehicle>, routes: Routes, r: Route)
    ensures |routes| >= |vs| ==>
              CapacityPenalty(beta, ds, vs, routes + [r]) == CapacityPenalty(beta, ds, vs, routes) + beta * 1000.0
    ensures |routes| < |vs| && Load(Index(ds), r) <= vs[|routes|].maxCapacity ==>
              CapacityPenalty(beta, ds, vs, routes + [r]) == CapacityPenalty(beta, ds, vs, routes)
    ensures |routes| < |vs| && Load(Index(ds), r) > vs[|routes|].maxCapacity ==>
              CapacityPenalty(beta, ds, vs, routes + [r])
              == CapacityPenalty(beta, ds, vs, routes) + beta * (Load(Index(ds), r) - vs[|routes|].maxCapacity)
  {
    var m := Index(ds);
    LoadsAppend(m, routes, r);
    ExcessAppendCases(beta, Loads(m, routes), Load(m, r), Capacities(vs));
  }

  // ------------------------------------------------------------ autonomy

  /** `AutonomyPenalty._calculate_distance`: the matrix entry under the
      coordinate-string key, else the Euclidean distance on raw degrees. */
  function Leg(mat: Matrix, num: Numerics, p: Point, q: Point): real
  {
    var key := (num.coordKey(p), num.coordKey(q));
    if key in mat then mat[key]
    else num.sqrt((p.lat - q.lat) * (p.lat - q.lat) + (p.lon - q.lon) * (p.lon - q.lon))
  }

  /** The legs between consecutive ids; a leg with an unknown end is skipped. */
  function InnerLegs(ctx: Context, route: Route): real
  {
    if |route| < 2 then 0.0
    else
      var a := FindFirst(ctx.deliveries, route[0]);
      var b := FindFirst(ctx.deliveries, route[1]);
      var leg := if a.Some? && b.Some? then Leg(ctx.matrix, ctx.num, a.value.location, b.value.location) else 0.0;
      leg + InnerLegs(ctx, route[1..])
  }

  /** The route distance `AutonomyPenalty.calculate` measures: depot to the
      first id, the inner legs, the last id back to the depot. */
  function AutonomyDistance(ctx: Context, route: Route): real
  {
    if |route| == 0 then 0.0
    else
      var first := FindFirst(ctx.deliveries, route[0]);
      var last := FindFirst(ctx.deliveries, route[|route| - 1]);
      (if first.Some? then Leg(ctx.matrix, ctx.num, ctx.depot, first.value.location) else 0.0)
      + InnerLegs(ctx, route)
      + (if last.Some? then Leg(ctx.matrix, ctx.num, last.value.location, ctx.depot) else 0.0)
  }

  function AutonomyDistances(ctx: Context, routes: Routes): (r: seq<real>)
    ensures |r| == |routes|
    ensures forall i :: 0 <= i < |routes| ==> r[i] == AutonomyDistance(ctx, routes[i])
  {
    seq(|routes|, i requires 0 <= i < |routes| => AutonomyDistance(ctx, routes[i]))
  }

  /** `AutonomyPenalty.calculate`. */
  function AutonomyPenalty(gamma: real, ctx: Context, routes: Routes): real
  {
    Excess(gamma, AutonomyDistances(ctx, routes), Ranges(ctx.vehicles))
  }

  lemma AutonomyPenaltyNonNegative(gamma: real, ctx: Context, routes: Routes)
    requires gamma >= 0.0
    ensures AutonomyPenalty(gamma, ctx, routes) >= 0.0
  {
    ExcessNonNegative(gamma, AutonomyDistances(ctx, routes), Ranges(ctx.vehicles));
  }

  /** With γ > 0 the penalty is zero iff every route has a vehicle and its
      distance is within that vehicle's range. */
  lemma AutonomyPenaltyZero(gamma: real, ctx: Context, routes: Routes)
    requires gamma > 0.0
    ensures AutonomyPenalty(gamma, ctx, routes) == 0.0 <==>
              |routes| <= |ctx.vehicles|
              && forall i :: 0 <= i < |routes| ==> AutonomyDistance(ctx, routes[i]) <= ctx.vehicles[i].maxRange
  {
    ExcessZero(gamma, AutonomyDistances(ctx, routes), Ranges(ctx.vehicles));
  }

  /** One more route adds γ·1000 without a vehicle, γ times its excess
      distance with one; an empty route with a vehicle of non-negative
      range adds nothing. */
  lemma AutonomyPenaltyAppend(gamma: real, ctx: Context, routes: Routes, r: Route)
    ensures |routes| >= |ctx.vehicles| ==>
              AutonomyPenalty(gamma, ctx, routes + [r]) == AutonomyPenalty(gamma, ctx, routes) + gamma * 1000.0
    ensures |routes| < |ctx.vehicles| && AutonomyDistance(ctx, r) > ctx.vehicles[|routes|].maxRange ==>
              AutonomyPenalty(gamma, ctx, routes + [r])
              == AutonomyPenalty(gamma, ctx, routes) + gamma * (AutonomyDistance(ctx, r) - ctx.vehicles[|routes|].maxRange)
    ensures |routes| < |ctx.vehicles| && AutonomyDistance(ctx, r) <= ctx.vehicles[|routes|].maxRange ==>
              AutonomyPenalty(gamma, ctx, routes + [r]) == AutonomyPenalty(gamma, ctx, routes)
  {
    var xs := AutonomyDistances(ctx, routes);
    var x := AutonomyDistance(ctx, r);
    assert AutonomyDistances(ctx, routes + [r]) == xs + [x];
    ExcessAppendCases(gamma, xs, x, Ranges(ctx.vehicles));
  }

  /** An empty route driven by a vehicle of non-negative range adds nothing. */
  lemma AutonomyEmptyRoute(gamma: real, ctx: Context, routes: Routes)
    requires |routes| < |ctx.vehicles| && ctx.vehicles[|routes|].maxRange >= 0.0
    ensures AutonomyPenalty(gamma, ctx, routes + [[]]) == AutonomyPenalty(gamma, ctx, routes)
  {
    assert AutonomyDistance(ctx, []) == 0.0;
    AutonomyPenaltyAppend(gamma, ctx, routes, []);
  }

  /** A route none of whose ids is known has distance zero. */
  lemma {:induction false} UnknownIdsTravelNothing(ctx: Context, route: Route)
    requires forall i :: 0 <= i < |route| ==> FindFirst(ctx.deliveries, route[i]).None?
    ensures AutonomyDistance(ctx, route) == 0.0
  {
    InnerLegsUnknown(ctx, route);
  }

  lemma {:induction false} InnerLegsUnknown(ctx: Context, route: Route)
    requires forall i :: 0 <= i < |route| ==> FindFirst(ctx.deliveries, route[i]).None?
    ensures InnerLegs(ctx, route) == 0.0
  {
    if |route| >= 2 {
      InnerLegsUnknown(ctx, route[1..]);
    }
  }

  // ------------------------------------------------------------ priority

  /** The delay of one route: a known critical id at position p adds p·δ. */
  function PositionDelay(delta: real, m: map<Id, Delivery>, route: Route): real
  {
    Sum(seq(|route|, p requires 0 <= p < |route| =>
      if route[p] in m && m[route[p]].priority == 1 then (p as real) * delta else 0.0))
  }

  /** `PriorityPenalty.calculate`. */
  function PriorityPenalty(delta: real, ds: seq<Delivery>, routes: Routes): real
  {
    SumOf(routes, r => PositionDelay(delta, Index(ds), r))
  }

  predicate CriticalsFirst(m: map<Id, Delivery>, routes: Routes)
  {
    forall i, p :: 0 <= i < |routes| && 0 < p < |routes[i]| ==>
      !(routes[i][p] in m && m[routes[i][p]].priority == 1)
  }

  lemma PositionDelayNonNegative(delta: real, m: map<Id, Delivery>, route: Route)
    requires delta >= 0.0
    ensures PositionDelay(delta, m, route) >= 0.0
    ensures PositionDelay(delta, m, route) == 0.0 <==>
              delta == 0.0 || forall p :: 0 < p < |route| ==> !(route[p] in m && m[route[p]].priority == 1)
  {
    var xs := seq(|route|, p requires 0 <= p < |route| =>
      if route[p] in m && m[route[p]].priority == 1 then (p as real) * delta else 0.0);
    forall p | 0 <= p < |route|
      ensures xs[p] >= 0.0
      ensures xs[p] == 0.0 <==> delta == 0.0 || p == 0 || !(route[p] in m && m[route[p]].priority == 1)
    {
      if delta > 0.0 && p > 0 {
        ProductPositive(p as real, delta);
      }
    }
    SumOfNonNegative(xs, x => x);
    SumOfZero(xs, x => x);
  }

  /** With δ ≥ 0 the penalty is non-negative; with δ > 0 it is zero iff no
      known critical delivery stands anywhere but first in its route.
      Normal-priority and unknown ids never contribute. */
  lemma PriorityPenaltyZero(delta: real, ds: seq<Delivery>, routes: Routes)
    requires delta >= 0.0
    ensures PriorityPenalty(delta, ds, routes) >= 0.0
    ensures delta > 0.0 ==> (PriorityPenalty(delta, ds, routes) == 0.0 <==> CriticalsFirst(Index(ds), routes))
  {
    var m := Index(ds);
    var f := r => PositionDelay(delta, m, r);
    forall i | 0 <= i < |routes|
      ensures f(routes[i]) >= 0.0
      ensures f(routes[i]) == 0.0 <==>
                delta == 0.0 || forall p :: 0 < p < |routes[i]| ==> !(routes[i][p] in m && m[routes[i][p]].priority == 1)
    {
      PositionDelayNonNegative(delta, m, routes[i]);
    }
    SumOfNonNegative(routes, f);
    SumOfZero(routes, f);
  }

  /** The penalty ignores the order of whole routes (and the vehicles). */
  lemma PriorityPenaltyPermutation(delta: real, ds: seq<Delivery>, a: Routes, b: Routes)
    requires multiset(a) == multiset(b)
    ensures PriorityPenalty(delta, ds, a) == PriorityPenalty(delta, ds, b)
  {
    SumOfPermutation(a, b, r => PositionDelay(delta, Index(ds), r));
  }

  // -------------------------------------------------------- load balance

  /** `getattr(weights, 'load_balance_penalty', 0.5)`: `FitnessWeights`
      has no such field, so the weight is always 0.5. */
  const LoadBalanceWeight: real := 0.5

  function MeanLoad(m: map<Id, Delivery>, routes: Routes): real
    requires |routes| > 0
  {
    SumOf(routes, r => Load(m, r)) / (|routes| as real)
  }

  /** The population variance of the route loads (divided by n). */
  function LoadVariance(m: map<Id, Delivery>, routes: Routes): real
    requires |routes| > 0
  {
    var mean := MeanLoad(m, routes);
    SumOf(routes, r => (Load(m, r) - mean) * (Load(m, r) - mean)) / (|routes| as real)
  }

  /** `LoadBalancePenalty.calculate`: weight · (stddev / mean) · mean when
      the mean is positive, and 0 otherwise or without routes. */
  function LoadBalancePenalty(weight: real, ds: seq<Delivery>, routes: Routes, num: Numerics): real
  {
    if |routes| == 0 then 0.0
    else
      var m := Index(ds);
      var mean := MeanLoad(m, routes);
      var std := num.sqrt(LoadVariance(m, routes));
      var cv := if mean > 0.0 then std / mean else 0.0;
      weight * (cv * mean)
  }

  /** A positive mean reduces the penalty to weight · stddev; a zero mean
      gives zero. */
  lemma LoadBalanceIsWeightedDeviation(weight: real, ds: seq<Delivery>, routes: Routes, num: Numerics)
    requires |routes| > 0
    ensures MeanLoad(Index(ds), routes) > 0.0 ==>
              LoadBalancePenalty(weight, ds, routes, num) == weight * num.sqrt(LoadVariance(Index(ds), routes))
    ensures MeanLoad(Index(ds), routes) <= 0.0 ==> LoadBalancePenalty(weight, ds, routes, num) == 0.0
  {
    var m := Index(ds);
    var mean := MeanLoad(m, routes);
    var std := num.sqrt(LoadVariance(m, routes));
    var cv := if mean > 0.0 then std / mean else 0.0;
    assert LoadBalancePenalty(weight, ds, routes, num) == weight * (cv * mean);
    if mean > 0.0 {
      assert cv * mean == std;
    }
  }

  lemma LoadVarianceNonNegative(m: map<Id, Delivery>, routes: Routes)
    requires |routes| > 0
    ensures LoadVariance(m, routes) >= 0.0
  {
    var mean := MeanLoad(m, routes);
    var f := r => (Load(m, r) - mean) * (Load(m, r) - mean);
    forall i | 0 <= i < |routes|
      ensures f(routes[i]) >= 0.0
    {
      var d := Load(m, routes[i]) - mean;
      SquareNonNegative(d);
      assert f(routes[i]) == d * d;
    }
    SumOfNonNegative(routes, f);
    QuotientNonNegative(SumOf(routes, f), |routes| as real);
  }

  lemma QuotientNonNegative(x: real, n: real)
    requires x >= 0.0 && n > 0.0
    ensures x / n >= 0.0
  {
  }

  lemma LoadBalanceNonNegative(weight: real, ds: seq<Delivery>, routes: Routes, num: Numerics)
    requires weight >= 0.0 && SoundRoot(num)
    ensures LoadBalancePenalty(weight, ds, routes, num) >= 0.0
  {
    if |routes| > 0 {
      LoadVarianceNonNegative(Index(ds), routes);
      LoadBalanceIsWeightedDeviation(weight, ds, routes, num);
    }
  }

  lemma {:induction false} SumOfConstant<T>(s: seq<T>, f: T -> real, c: real)
    requires forall i :: 0 <= i < |s| ==> f(s[i]) == c
    ensures SumOf(s, f) == (|s| as real) * c
  {
    if |s| > 0 {
      SumOfConstant(s[1..], f, c);
    }
  }

  /** Routes that all carry the same load are perfectly balanced. */
  lemma LoadBalanceEqualLoads(weight: real, ds: seq<Delivery>, routes: Routes, num: Numerics)
    requires SoundRoot(num)
    requires forall i, j :: 0 <= i < |routes| && 0 <= j < |routes| ==> Load(Index(ds), routes[i]) == Load(Index(ds), routes[j])
    ensures LoadBalancePenalty(weight, ds, routes, num) == 0.0
  {
    if |routes| > 0 {
      var m := Index(ds);
      var c := Load(m, routes[0]);
      var n := |routes| as real;
      SumOfConstant(routes, r => Load(m, r), c);
      assert MeanLoad(m, routes) == c;
      SumOfConstant(routes, r => (Load(m, r) - c) * (Load(m, r) - c), 0.0);
      assert LoadVariance(m, routes) == 0.0;
    }
  }

  /** Reordering whole routes leaves mean, variance and penalty unchanged. */
  lemma LoadBalancePermutation(weight: real, ds: seq<Delivery>, a: Routes, b: Routes, num: Numerics)
    requires multiset(a) == multiset(b)
    ensures LoadBalancePenalty(weight, ds, a, num) == LoadBalancePenalty(weight, ds, b, num)
  {
    assert |a| == |multiset(a)| == |multiset(b)| == |b|;
    if |a| > 0 {
      var m := Index(ds);
      SumOfPermutation(a, b, r => Load(m, r));
      var mean := MeanLoad(m, a);
      SumOfPermutation(a, b, r => (Load(m, r) - mean) * (Load(m, r) - mean));
    }
  }

  // ------------------------------------------------------------ composite

  /** `DistanceFitness.calculate`: only the stored total distance is read. */
  function DistanceTerm(alpha: real, sol: Solution): (r: real)
    ensures alpha >= 0.0 && sol.totalDistance >= 0.0 ==> r >= 0.0
    ensures alpha == 0.0 || sol.totalDistance == 0.0 ==> r == 0.0
  {
    alpha * sol.totalDistance
  }

  /** Two solutions with the same stored distance get the same distance
      term, whatever their routes. */
  lemma DistanceTermReadsOnlyTotal(alpha: real, s1: Solution, s2: Solution)
    requires s1.totalDistance == s2.totalDistance
    ensures DistanceTerm(alpha, s1) == DistanceTerm(alpha, s2)
  {
  }

  /** `get_components_breakdown`. */
  datatype Breakdown = Breakdown(
    distance: real,
    capacity: real,
    autonomy: real,
    priority: real,
    loadBalance: real,
    vehicles: real)

  function Components(w: FitnessWeights, sol: Solution, ctx: Context): Breakdown
  {
    Breakdown(
      DistanceTerm(w.distanceWeight, sol),
      CapacityPenalty(w.capacityPenalty, ctx.deliveries, ctx.vehicles, sol.routes),
      AutonomyPenalty(w.autonomyPenalty, ctx, sol.routes),
      PriorityPenalty(w.priorityPenalty, ctx.deliveries, sol.routes),
      LoadBalancePenalty(LoadBalanceWeight, ctx.deliveries, sol.routes, ctx.num),
      VehicleTerm(w.vehiclePenalty, sol.routes))
  }

  /** `CompositeFitness.calculate`: the sum of the six terms; the route
      count term counts empty routes too. */
  function Composite(w: FitnessWeights, sol: Solution, ctx: Context): real
  {
    DistanceTerm(w.distanceWeight, sol)
    + CapacityPenalty(w.capacityPenalty, ctx.deliveries, ctx.vehicles, sol.routes)
    + AutonomyPenalty(w.autonomyPenalty, ctx, sol.routes)
    + PriorityPenalty(w.priorityPenalty, ctx.deliveries, sol.routes)
    + LoadBalancePenalty(LoadBalanceWeight, ctx.deliveries, sol.routes, ctx.num)
    + VehicleTerm(w.vehiclePenalty, sol.routes)
  }

  /** Non-negative weights and stored distance give a non-negative fitness. */
  lemma CompositeNonNegative(w: FitnessWeights, sol: Solution, ctx: Context)
    requires NonNegativeWeights(w) && sol.totalDistance >= 0.0 && SoundRoot(ctx.num)
    ensures Composite(w, sol, ctx) >= 0.0
  {
    CapacityPenaltyNonNegative(w.capacityPenalty, ctx.deliveries, ctx.vehicles, sol.routes);
    AutonomyPenaltyNonNegative(w.autonomyPenalty, ctx, sol.routes);
    PriorityPenaltyZero(w.priorityPenalty, ctx.deliveries, sol.routes);
    LoadBalanceNonNegative(LoadBalanceWeight, ctx.deliveries, sol.routes, ctx.num);
  }

  /** The six breakdown values add up to the composite fitness. */
  lemma BreakdownSumsToComposite(w: FitnessWeights, sol: Solution, ctx: Context)
    ensures var b := Components(w, sol, ctx);
            b.distance + b.capacity + b.autonomy + b.priority + b.loadBalance + b.vehicles == Composite(w, sol, ctx)
  {
  }

  /** The route-count term: ε per route in the list. */
  function VehicleTerm(eps: real, routes: Routes): real
  {
    eps * (|routes| as real)
  }

  /** Every route counts, an empty one included: one more route of any
      content adds exactly ε, and no routes cost nothing. */
  lemma VehicleTermCountsEveryRoute(eps: real, routes: Routes, r: Route)
    ensures VehicleTerm(eps, routes + [r]) == VehicleTerm(eps, routes) + eps
    ensures VehicleTerm(eps, []) == 0.0
  {
  }
}
