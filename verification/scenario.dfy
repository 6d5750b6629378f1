/** `ScenarioComparator` of visualization/scenario_comparator.py: the
    current solution set against the greedy one and against a baseline that
    hands the deliveries out to the vehicles in input order, and the savings
    computed from that comparison. The greedy run is an argument (its
    outcome, a solution or an error); the geodesic distance is the oracle
    `geo`. */
module Scenario {
  import opened Wrappers
  import opened Seqs
  import opened Types
  import opened Distance

  // ------------------------------------------------------------- baseline

  lemma MulMono(a: nat, b: nat, q: nat)
    requires a <= b
    ensures a * q <= b * q
  {
    assert b * q == a * q + (b - a) * q;
  }

  /** Where vehicle `i`'s slice starts: `i * (n // v)`. */
  function Start(n: nat, v: nat, i: nat): (s: nat)
    requires 0 < v && i < v
    ensures s <= n
  {
    var q := n / v;
    assert v * q <= n;
    MulMono(i, v, q);
    i * q
  }

  /** Where it ends: the next slice's start, except that the last vehicle
      runs to the end of the list. */
  function End(n: nat, v: nat, i: nat): (e: nat)
    requires 0 < v && i < v
    ensures Start(n, v, i) <= e <= n
    ensures i < v - 1 ==> e == Start(n, v, i + 1)
    ensures i == v - 1 ==> e == n
  {
    var q := n / v;
    assert v * q <= n;
    MulMono(i, i + 1, q);
    MulMono(i + 1, v, q);
    assert Start(n, v, i) == i * q;
    if i < v - 1 then
      assert Start(n, v, i + 1) == (i + 1) * q;
      (i + 1) * q
    else n
  }

  /** `deliveries[start_idx:end_idx]` for vehicle `i`. */
  function Slice(ds: seq<Delivery>, v: nat, i: nat): (c: seq<Delivery>)
    requires 0 < v && i < v
    ensures c == ds[Start(|ds|, v, i)..End(|ds|, v, i)]
  {
    ds[Start(|ds|, v, i)..End(|ds|, v, i)]
  }

  /** Every vehicle's slice, empty ones included. */
  function Slices(ds: seq<Delivery>, v: nat): (cs: seq<seq<Delivery>>)
    requires v > 0
    ensures |cs| == v && forall i :: 0 <= i < v ==> cs[i] == Slice(ds, v, i)
  {
    seq(v, i requires 0 <= i < v => Slice(ds, v, i))
  }

  /** The first `k` slices laid end to end are the deliveries up to the
      end of slice `k - 1`. */
  lemma {:induction false} SlicesPrefix(ds: seq<Delivery>, v: nat, k: nat)
    requires 0 < k <= v
    ensures Flatten(Slices(ds, v)[..k]) == ds[..End(|ds|, v, k - 1)]
  {
    var cs := Slices(ds, v);
    if k == 1 {
      assert cs[..1] == [cs[0]];
      FlattenSingle(cs[0]);
      assert Start(|ds|, v, 0) == 0;
    } else {
      SlicesPrefix(ds, v, k - 1);
      assert cs[..k] == cs[..k - 1] + [cs[k - 1]];
      FlattenConcat(cs[..k - 1], [cs[k - 1]]);
      FlattenSingle(cs[k - 1]);
      var a, b := End(|ds|, v, k - 2), End(|ds|, v, k - 1);
      assert ds[..a] + ds[a..b] == ds[..b];
    }
  }

  /** The slices partition the deliveries in order: laid end to end they
      are the input list, so each delivery goes to exactly one vehicle. */
  lemma SlicesPartition(ds: seq<Delivery>, v: nat)
    requires v > 0
    ensures Flatten(Slices(ds, v)) == ds
  {
    SlicesPrefix(ds, v, v);
    assert Slices(ds, v)[..v] == Slices(ds, v);
  }

  /** With fewer deliveries than vehicles the quota is zero: every vehicle
      but the last gets nothing and the last gets everything. */
  lemma FewerThanFleet(ds: seq<Delivery>, v: nat)
    requires 0 < v && |ds| < v
    ensures forall i :: 0 <= i < v - 1 ==> Slice(ds, v, i) == []
    ensures Slice(ds, v, v - 1) == ds
  {
    assert |ds| / v == 0;
    forall i | 0 <= i < v - 1
      ensures Slice(ds, v, i) == []
    {
      assert Start(|ds|, v, i) == 0 == Start(|ds|, v, i + 1);
    }
    assert Start(|ds|, v, v - 1) == 0;
  }

  function Locations(ds: seq<Delivery>): (ps: seq<Point>)
    ensures |ps| == |ds| && forall i :: 0 <= i < |ds| ==> ps[i] == ds[i].location
  {
    seq(|ds|, i requires 0 <= i < |ds| => ds[i].location)
  }

  /** `route_distance`: depot, the slice in order, back to the depot. */
  function Trip(depot: Point, c: seq<Delivery>, geo: Metric): real
  {
    Legs([depot] + Locations(c) + [depot], geo)
  }

  /** `route_cost`: fuel per km plus the driver paid for `distance / 50`
      hours. */
  function RouteCost(d: real, v: Vehicle): real
  {
    d * v.fuelCostPerKm + (d / 50.0) * v.driverCostPerHour
  }

  /** One for a slice over capacity, one for a trip over range. */
  function RouteViolations(c: seq<Delivery>, d: real, v: Vehicle): real
  {
    (if WeightSum(c) > v.maxCapacity then 1.0 else 0.0) + (if d > v.maxRange then 1.0 else 0.0)
  }

  /** The running totals of the baseline loop. */
  datatype Tally = Tally(distance: real, cost: real, violations: real)

  /** The totals over the first `k` vehicles of a plan giving vehicle `i`
      the deliveries `plan[i]`; empty ones are skipped. */
  function TallyTo(plan: seq<seq<Delivery>>, vs: seq<Vehicle>, depot: Point, geo: Metric, k: nat): Tally
    requires |plan| == |vs| && k <= |vs|
  {
    if k == 0 then Tally(0.0, 0.0, 0.0)
    else
      var t := TallyTo(plan, vs, depot, geo, k - 1);
      var c := plan[k - 1];
      if |c| == 0 then t
      else
        var d := Trip(depot, c, geo);
        Tally(t.distance + d, t.cost + RouteCost(d, vs[k - 1]), t.violations + RouteViolations(c, d, vs[k - 1]))
  }

  /** Whether vehicle `i` keeps within its capacity and range on its
      slice (an empty slice always does). */
  predicate Fits(plan: seq<seq<Delivery>>, vs: seq<Vehicle>, depot: Point, geo: Metric, i: nat)
    requires |plan| == |vs| && i < |vs|
  {
    var c := plan[i];
    |c| == 0 || (WeightSum(c) <= vs[i].maxCapacity && Trip(depot, c, geo) <= vs[i].maxRange)
  }

  /** At most two violations per vehicle. */
  lemma {:induction false} ViolationsBounded(plan: seq<seq<Delivery>>, vs: seq<Vehicle>, depot: Point, geo: Metric, k: nat)
    requires |plan| == |vs| && k <= |vs|
    ensures 0.0 <= TallyTo(plan, vs, depot, geo, k).violations <= 2.0 * k as real
  {
    if k > 0 {
      ViolationsBounded(plan, vs, depot, geo, k - 1);
    }
  }

  /** No violation exactly when every vehicle fits its slice. */
  lemma {:induction false} NoViolations(plan: seq<seq<Delivery>>, vs: seq<Vehicle>, depot: Point, geo: Metric, k: nat)
    requires |plan| == |vs| && k <= |vs|
    ensures TallyTo(plan, vs, depot, geo, k).violations == 0.0 <==> forall i :: 0 <= i < k ==> Fits(plan, vs, depot, geo, i)
  {
    if k > 0 {
      NoViolations(plan, vs, depot, geo, k - 1);
      ViolationsBounded(plan, vs, depot, geo, k - 1);
      var t := TallyTo(plan, vs, depot, geo, k - 1);
      var c := plan[k - 1];
      var extra := if |c| == 0 then 0.0 else RouteViolations(c, Trip(depot, c, geo), vs[k - 1]);
      assert TallyTo(plan, vs, depot, geo, k).violations == t.violations + extra;
      assert extra == 0.0 <==> Fits(plan, vs, depot, geo, k - 1);
      assert extra >= 0.0;
      if t.violations + extra == 0.0 {
        assert t.violations == 0.0;
        assert forall i :: 0 <= i < k - 1 ==> Fits(plan, vs, depot, geo, i);
        forall i | 0 <= i < k
          ensures Fits(plan, vs, depot, geo, i)
        {
          if i < k - 1 {
          }
        }
      } else if t.violations != 0.0 {
        var j :| 0 <= j < k - 1 && !Fits(plan, vs, depot, geo, j);
      }
    }
  }

  /** With a non-negative distance the baseline distance is non-negative. */
  lemma {:induction false} BaselineDistanceNonNegative(plan: seq<seq<Delivery>>, vs: seq<Vehicle>, depot: Point, geo: Metric, k: nat)
    requires |plan| == |vs| && k <= |vs|
    requires forall p, q :: geo(p, q) >= 0.0
    ensures TallyTo(plan, vs, depot, geo, k).distance >= 0.0
  {
    if k > 0 {
      BaselineDistanceNonNegative(plan, vs, depot, geo, k - 1);
      LegsNonNegative([depot] + Locations(plan[k - 1]) + [depot], geo);
    }
  }

  /** With fewer deliveries than vehicles the baseline is one round trip by
      the last vehicle. */
  lemma SingleTrip(ds: seq<Delivery>, vs: seq<Vehicle>, depot: Point, geo: Metric)
    requires 0 < |ds| < |vs|
    ensures var d := Trip(depot, ds, geo);
            TallyTo(Slices(ds, |vs|), vs, depot, geo, |vs|) ==
              Tally(d, RouteCost(d, vs[|vs| - 1]), RouteViolations(ds, d, vs[|vs| - 1]))
  {
    var plan := Slices(ds, |vs|);
    FewerThanFleet(ds, |vs|);
    LastOnly(plan, vs, depot, geo);
  }

  /** A plan whose only non-empty slice is the last tallies that slice's
      round trip. */
  lemma LastOnly(plan: seq<seq<Delivery>>, vs: seq<Vehicle>, depot: Point, geo: Metric)
    requires |plan| == |vs| > 0 && |plan[|vs| - 1]| > 0
    requires forall i :: 0 <= i < |vs| - 1 ==> plan[i] == []
    ensures var c, v := plan[|vs| - 1], vs[|vs| - 1];
            var d := Trip(depot, c, geo);
            TallyTo(plan, vs, depot, geo, |vs|) == Tally(d, RouteCost(d, v), RouteViolations(c, d, v))
  {
    EmptyPrefix(plan, vs, depot, geo, |vs| - 1);
  }

  lemma {:induction false} EmptyPrefix(plan: seq<seq<Delivery>>, vs: seq<Vehicle>, depot: Point, geo: Metric, k: nat)
    requires |plan| == |vs| && k <= |vs|
    requires forall i :: 0 <= i < k ==> plan[i] == []
    ensures TallyTo(plan, vs, depot, geo, k) == Tally(0.0, 0.0, 0.0)
  {
    if k > 0 {
      EmptyPrefix(plan, vs, depot, geo, k - 1);
    }
  }

  /** The five numbers a scenario is compared on. */
  datatype Metrics = Metrics(distance: real, cost: real, vehicles: nat, violations: real, time: real)

  /** `_calculate_baseline`, as the nested loop the source runs. Without
      vehicles `len(deliveries) // 0` raises. */
  method Baseline(ds: seq<Delivery>, vs: seq<Vehicle>, depot: Point, geo: Metric) returns (r: Result<Metrics>)
    ensures r.Failure? <==> |vs| == 0
    ensures r.Failure? ==> r.error == ZeroDivision(IntegerDivisionByZero)
    ensures r.Success? ==>
              var t := TallyTo(Slices(ds, |vs|), vs, depot, geo, |vs|);
              && r.value.distance == t.distance && r.value.cost == t.cost && r.value.violations == t.violations
              && r.value.vehicles == |vs|
              && r.value.time == t.distance / 40.0 + |ds| as real * 0.5
  {
    if |vs| == 0 {
      return Failure(ZeroDivision(IntegerDivisionByZero));
    }
    var t := Tallied(Slices(ds, |vs|), vs, depot, geo);
    return Success(Metrics(t.distance, t.cost, |vs|, t.violations, t.distance / 40.0 + |ds| as real * 0.5));
  }

  /** The loop over the vehicles of `_calculate_baseline`. */
  method Tallied(plan: seq<seq<Delivery>>, vs: seq<Vehicle>, depot: Point, geo: Metric) returns (t: Tally)
    requires |plan| == |vs|
    ensures t == TallyTo(plan, vs, depot, geo, |vs|)
  {
    var total, cost, violations := 0.0, 0.0, 0.0;
    var i := 0;
    while i < |vs|
      invariant 0 <= i <= |vs|
      invariant Tally(total, cost, violations) == TallyTo(plan, vs, depot, geo, i)
    {
      var c := plan[i];
      if |c| > 0 {
        var d := RoundTrip(depot, c, geo);
        total := total + d;
        cost := cost + RouteCost(d, vs[i]);
        violations := violations + RouteViolations(c, d, vs[i]);
      }
      i := i + 1;
    }
    return Tally(total, cost, violations);
  }

  /** The inner loop: from the depot through the slice and back. */
  method RoundTrip(depot: Point, c: seq<Delivery>, geo: Metric) returns (d: real)
    ensures d == Trip(depot, c, geo)
  {
    d := 0.0;
    var here := depot;
    ghost var path := [depot];
    var j := 0;
    while j < |c|
      invariant 0 <= j <= |c|
      invariant path == [depot] + Locations(c[..j])
      invariant here == path[|path| - 1]
      invariant d == Legs(path, geo)
    {
      LegsAppend(path, c[j].location, geo);
      PathStep(depot, c, j);
      d := d + geo(here, c[j].location);
      here := c[j].location;
      path := path + [here];
      j := j + 1;
    }
    assert c[..j] == c;
    LegsAppend(path, depot, geo);
    d := d + geo(here, depot);
  }

  /** One more delivery of the slice extends the path by its location. */
  lemma PathStep(depot: Point, c: seq<Delivery>, j: nat)
    requires j < |c|
    ensures [depot] + Locations(c[..j + 1]) == [depot] + Locations(c[..j]) + [c[j].location]
  {
    assert Locations(c[..j + 1]) == Locations(c[..j]) + [c[j].location];
  }

  // ------------------------------------------------------ delivery time

  /** `delivery_dict.get(did, Delivery(...)).estimated_service_time`: an
      unknown id costs the default half hour. */
  function ServiceTime(m: map<Id, Delivery>, id: Id): real
  {
    if id in m then m[id].serviceTime else 0.5
  }

  function Service(m: map<Id, Delivery>, route: Route): real
  {
    SumOf(route, id => ServiceTime(m, id))
  }

  /** The sum over the non-empty routes of `share / 40` plus their
      service time. */
  function EstimateFrom(routes: Routes, share: real, m: map<Id, Delivery>): real
  {
    if |routes| == 0 then 0.0
    else (if |routes[0]| > 0 then share / 40.0 + Service(m, routes[0]) else 0.0) + EstimateFrom(routes[1..], share, m)
  }

  function ServiceAll(routes: Routes, m: map<Id, Delivery>): real
  {
    if |routes| == 0 then 0.0 else Service(m, routes[0]) + ServiceAll(routes[1..], m)
  }

  /** `_estimate_delivery_time`: every non-empty route gets an equal share
      of the total distance at 40 km/h, plus its service time. */
  function EstimateTime(sol: Solution, ds: seq<Delivery>): real
  {
    var k := Used(sol.routes);
    if k == 0 then 0.0 else EstimateFrom(sol.routes, sol.totalDistance / k as real, Index(ds))
  }

  lemma {:induction false} EstimateSplit(routes: Routes, share: real, m: map<Id, Delivery>)
    ensures EstimateFrom(routes, share, m) == Used(routes) as real * (share / 40.0) + ServiceAll(routes, m)
  {
    if |routes| > 0 {
      EstimateSplit(routes[1..], share, m);
      if |routes[0]| == 0 {
        assert Service(m, routes[0]) == 0.0;
        assert ServiceAll(routes, m) == ServiceAll(routes[1..], m);
        assert Used(routes) == Used(routes[1..]);
      } else {
        EstimateSplitStep(routes, share, m);
      }
    }
  }

  /** The step of EstimateSplit for a non-empty first route, given the
      split of the rest. */
  lemma EstimateSplitStep(routes: Routes, share: real, m: map<Id, Delivery>)
    requires |routes| > 0 && |routes[0]| > 0
    requires EstimateFrom(routes[1..], share, m) == Used(routes[1..]) as real * (share / 40.0) + ServiceAll(routes[1..], m)
    ensures EstimateFrom(routes, share, m) == Used(routes) as real * (share / 40.0) + ServiceAll(routes, m)
  {
    var u, s := Used(routes[1..]) as real, share / 40.0;
    var a, b := Service(m, routes[0]), ServiceAll(routes[1..], m);
    assert ServiceAll(routes, m) == a + b;
    assert Used(routes) as real == u + 1.0;
    assert EstimateFrom(routes, share, m) == s + a + EstimateFrom(routes[1..], share, m);
    ShareStep(u, s);
    assert Used(routes) as real * s == u * s + s;
  }

  /** One more share adds the share itself. */
  lemma ShareStep(u: real, s: real)
    ensures (u + 1.0) * s == u * s + s
  {
  }

  /** The equal shares add up: the estimate is the whole distance at 40
      km/h plus every route's service time. */
  lemma EstimateTotal(sol: Solution, ds: seq<Delivery>)
    requires Used(sol.routes) > 0
    ensures EstimateTime(sol, ds) == sol.totalDistance / 40.0 + ServiceAll(sol.routes, Index(ds))
  {
    var k := Used(sol.routes) as real;
    EstimateSplit(sol.routes, sol.totalDistance / k, Index(ds));
    var share := sol.totalDistance / k;
    assert share * k == sol.totalDistance;
    assert k * (share / 40.0) == (share * k) / 40.0;
  }

  // ---------------------------------------------------------- comparison

  /** `ScenarioComparison`; `alternative` is never filled. */
  datatype Comparison = Comparison(metric: string, current: real, greedy: Option<real>, baseline: Option<real>)

  /** The dict `compare_scenarios` returns. */
  datatype Scenarios = Scenarios(distance: Comparison, cost: Comparison, vehicles: Comparison, time: Comparison,
                                 violations: Comparison)

  /** The metrics of a solution: its routes that are not empty and the sum
      of its violation values. */
  function MetricsOf(sol: Solution, ds: seq<Delivery>): (m: Metrics)
    ensures m.vehicles == Used(sol.routes)
  {
    Metrics(sol.totalDistance, sol.totalCost, Used(sol.routes), sol.violations.capacity + sol.violations.autonomy,
            EstimateTime(sol, ds))
  }

  /** `float(x) if x else None`: zero is reported as missing. */
  function IfTruthy(x: real): Option<real>
  {
    if x != 0.0 then Some(x) else None
  }

  /** `compare_scenarios`: a failed greedy run leaves every greedy column
      empty, and a greedy vehicle or violation count of zero is empty too. */
  function Compare(current: Solution, greedy: Result<Solution>, baseline: Metrics, ds: seq<Delivery>): (s: Scenarios)
    ensures s.distance.greedy.Some? <==> greedy.Success?
    ensures s.cost.greedy.Some? <==> greedy.Success?
    ensures s.time.greedy.Some? <==> greedy.Success?
    ensures s.vehicles.greedy.Some? <==> greedy.Success? && Used(greedy.value.routes) > 0
    ensures s.violations.greedy.Some? <==>
              greedy.Success? && greedy.value.violations.capacity + greedy.value.violations.autonomy != 0.0
    ensures greedy.Success? ==> s.distance.greedy == Some(greedy.value.totalDistance)
                                && s.cost.greedy == Some(greedy.value.totalCost)
    ensures s.distance.current == current.totalDistance && s.cost.current == current.totalCost
    ensures s.vehicles.current == Used(current.routes) as real
    ensures s.distance.baseline == Some(baseline.distance) && s.cost.baseline == Some(baseline.cost)
    ensures s.vehicles.baseline == Some(baseline.vehicles as real)
    ensures s.time.current == EstimateTime(current, ds)
    ensures s.violations.current == current.violations.capacity + current.violations.autonomy
    ensures s.time.baseline == Some(baseline.time) && s.violations.baseline == Some(baseline.violations)
    ensures greedy.Success? ==> s.time.greedy == Some(EstimateTime(greedy.value, ds))
    ensures s.vehicles.greedy.Some? ==> s.vehicles.greedy.value == Used(greedy.value.routes) as real
    ensures s.violations.greedy.Some? ==>
              s.violations.greedy.value == greedy.value.violations.capacity + greedy.value.violations.autonomy
  {
    var c := MetricsOf(current, ds);
    var g: Option<Metrics> := if greedy.Success? then Some(MetricsOf(greedy.value, ds)) else None;
    Scenarios(
      Comparison("Dist\U{e2}ncia Total", c.distance, if g.Some? then Some(g.value.distance) else None, Some(baseline.distance)),
      Comparison("Custo Total", c.cost, if g.Some? then Some(g.value.cost) else None, Some(baseline.cost)),
      Comparison("Ve\U{ed}culos Usados", c.vehicles as real, if g.Some? then IfTruthy(g.value.vehicles as real) else None,
                 Some(baseline.vehicles as real)),
      Comparison("Tempo Entrega", c.time, if g.Some? then Some(g.value.time) else None, Some(baseline.time)),
      Comparison("Viola\U{e7}\U{f5}es", c.violations, if g.Some? then IfTruthy(g.value.violations) else None,
                 Some(baseline.violations)))
  }

  // ------------------------------------------------------------- savings

  /** The kilograms of CO2 per kilometre. */
  const Co2PerKm: real := 0.24

  /** One entry of the savings dict; only the baseline entry has a CO2
      figure. */
  datatype Saving = Saving(cost: real, percent: real, distance: real, co2: Option<real>)

  datatype Savings = Savings(vsGreedy: Option<Saving>, vsBaseline: Option<Saving>)

  /** `(diff / reference) * 100 if reference > 0 else 0`. */
  function Percent(diff: real, reference: real): (p: real)
    ensures reference <= 0.0 ==> p == 0.0
    ensures reference > 0.0 ==> p * reference == diff * 100.0
  {
    if reference > 0.0 then (diff / reference) * 100.0 else 0.0
  }

  /** `calculate_savings`. Against the greedy run the distance saving is
      zero when the greedy distance is missing or zero; against the
      baseline a missing baseline distance cannot be subtracted. */
  function CalculateSavings(s: Scenarios): (r: Result<Savings>)
    ensures r.Failure? <==> s.cost.baseline.Some? && s.distance.baseline.None?
    ensures r.Success? ==> (r.value.vsGreedy.Some? <==> s.cost.greedy.Some?)
    ensures r.Success? ==> (r.value.vsBaseline.Some? <==> s.cost.baseline.Some?)
    ensures r.Success? && r.value.vsGreedy.Some? ==>
              var g := r.value.vsGreedy.value;
              && g.cost == s.cost.greedy.value - s.cost.current
              && g.percent == Percent(g.cost, s.cost.greedy.value)
              && (s.distance.greedy.Some? && s.distance.greedy.value != 0.0 ==>
                    g.distance == s.distance.greedy.value - s.distance.current)
              && (s.distance.greedy.None? || s.distance.greedy.value == 0.0 ==> g.distance == 0.0)
              && g.co2.None?
    ensures r.Success? && r.value.vsBaseline.Some? ==>
              var b := r.value.vsBaseline.value;
              && b.cost == s.cost.baseline.value - s.cost.current
              && b.percent == Percent(b.cost, s.cost.baseline.value)
              && b.distance == s.distance.baseline.value - s.distance.current
              && b.co2 == Some(Co2PerKm * b.distance)
  {
    var vsGreedy :=
      if s.cost.greedy.None? then None
      else
        var diff := s.cost.greedy.value - s.cost.current;
        var dist := if s.distance.greedy.Some? && s.distance.greedy.value != 0.0
                    then s.distance.greedy.value - s.distance.current else 0.0;
        Some(Saving(diff, Percent(diff, s.cost.greedy.value), dist, None));
    if s.cost.baseline.None? then Success(Savings(vsGreedy, None))
    else if s.distance.baseline.None? then
      Failure(TypeError("unsupported operand type(s) for -: 'NoneType' and 'float'"))
    else
      var diff := s.cost.baseline.value - s.cost.current;
      var dist := s.distance.baseline.value - s.distance.current;
      Success(Savings(vsGreedy, Some(Saving(diff, Percent(diff, s.cost.baseline.value), dist, Some(dist * Co2PerKm)))))
  }

  /** The savings of a comparison `compare_scenarios` built always
      succeed and always have a baseline entry; the greedy entry is there
      exactly when the greedy run succeeded. */
  lemma ComparedSavings(current: Solution, greedy: Result<Solution>, baseline: Metrics, ds: seq<Delivery>)
    ensures var r := CalculateSavings(Compare(current, greedy, baseline, ds));
            && r.Success? && r.value.vsBaseline.Some?
            && (r.value.vsGreedy.Some? <==> greedy.Success?)
            && r.value.vsBaseline.value.co2 == Some(Co2PerKm * (baseline.distance - current.totalDistance))
  {
  }

  /** A current cost between zero and a positive reference saves between
      zero and a hundred percent. */
  lemma PercentBounds(reference: real, current: real)
    requires 0.0 < reference && 0.0 <= current <= reference
    ensures 0.0 <= Percent(reference - current, reference) <= 100.0
  {
    DivBounds(reference - current, 0.0, 1.0, reference);
  }
}
