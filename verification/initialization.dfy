/** The strategies of optimization/initialization_strategy.py that build one
    individual of the starting population: a random split of the shuffled
    ids, a nearest-neighbour construction and a critical-first construction.
    The shuffle and the geodesic distance are parameters. */
module Initialization {
  import opened Wrappers
  import opened Seqs
  import opened Types
  import opened Distance
  import opened Domain

  // ------------------------------------------------------------- random

  lemma MulAtLeast(k: int, d: int)
    requires k > 0 && d >= 1
    ensures k * d >= k
  {
    assert k * d == k * (d - 1) + k;
    assert k * (d - 1) >= 0;
  }

  /** Euclidean division has one quotient. */
  lemma DivUnique(n: int, k: int, q: int, r: int)
    requires k > 0 && 0 <= r < k && n == k * q + r
    ensures n / k == q
  {
    var q', r' := n / k, n % k;
    assert n == k * q' + r';
    if q' < q {
      assert k * q - k * q' == k * (q - q');
      MulAtLeast(k, q - q');
    } else if q' > q {
      assert k * q' - k * q == k * (q' - q);
      MulAtLeast(k, q' - q);
    }
  }

  /** The split point `i * n // k`. */
  function Bound(i: nat, n: nat, k: nat): nat
    requires k > 0
  {
    i * n / k
  }

  /** Neighbouring split points lie n // k or n // k + 1 apart. */
  lemma ChunkSize(i: nat, n: nat, k: nat)
    requires 0 < k <= n
    ensures 1 <= n / k
    ensures n / k <= Bound(i + 1, n, k) - Bound(i, n, k) <= n / k + 1
  {
    var s, t := i * n / k, i * n % k;
    var q, u := n / k, n % k;
    assert i * n == k * s + t;
    assert n == k * q + u;
    assert (i + 1) * n == i * n + n;
    assert k * s + k * q == k * (s + q);
    assert (i + 1) * n == k * (s + q) + (t + u);
    if t + u < k {
      DivUnique((i + 1) * n, k, s + q, t + u);
    } else {
      assert (i + 1) * n == k * (s + q + 1) + (t + u - k);
      DivUnique((i + 1) * n, k, s + q + 1, t + u - k);
    }
  }

  lemma {:induction false} BoundAtMost(i: nat, n: nat, k: nat)
    requires 0 < k <= n && i <= k
    ensures Bound(i, n, k) <= n
    decreases k - i
  {
    if i == k {
      DivUnique(k * n, k, n, 0);
    } else {
      BoundAtMost(i + 1, n, k);
      ChunkSize(i, n, k);
    }
  }

  /** The routes the loop has appended after i rounds. */
  function RandomRoutes(shuffled: seq<Id>, k: nat, i: nat): (r: Routes)
    requires k > 0
    ensures |r| <= i
  {
    if i == 0 then []
    else
      var route := Slice(shuffled, Bound(i - 1, |shuffled|, k), Bound(i, |shuffled|, k));
      RandomRoutes(shuffled, k, i - 1) + (if |route| > 0 then [route] else [])
  }

  /** `RandomInitializationStrategy.generate_individual`, given the result of
      `random.shuffle` on the ids. */
  function RandomIndividual(ds: seq<Delivery>, vs: seq<Vehicle>, shuffled: seq<Id>): (r: Routes)
    requires multiset(shuffled) == multiset(Ids(ds))
  {
    var k := if |vs| < |shuffled| then |vs| else |shuffled|;
    if k == 0 then [] else RandomRoutes(shuffled, k, k)
  }

  lemma {:induction false} RandomRoutesFlatten(shuffled: seq<Id>, k: nat, i: nat)
    requires 0 < k <= |shuffled| && i <= k
    ensures Bound(i, |shuffled|, k) <= |shuffled|
              && Flatten(RandomRoutes(shuffled, k, i)) == shuffled[..Bound(i, |shuffled|, k)]
  {
    if i == 0 {
      assert Bound(0, |shuffled|, k) == 0;
    } else {
      RandomRoutesFlatten(shuffled, k, i - 1);
      RandomRoutesFlattenNext(shuffled, k, i);
    }
  }

  /** One more round appends the next chunk. */
  lemma RandomRoutesFlattenNext(shuffled: seq<Id>, k: nat, i: nat)
    requires 0 < k <= |shuffled| && 0 < i <= k
    requires Bound(i - 1, |shuffled|, k) <= |shuffled|
    requires Flatten(RandomRoutes(shuffled, k, i - 1)) == shuffled[..Bound(i - 1, |shuffled|, k)]
    ensures Bound(i, |shuffled|, k) <= |shuffled|
              && Flatten(RandomRoutes(shuffled, k, i)) == shuffled[..Bound(i, |shuffled|, k)]
  {
    var n := |shuffled|;
    var a, b := Bound(i - 1, n, k), Bound(i, n, k);
    assert a <= b <= n by {
      ChunkSize(i - 1, n, k);
      BoundAtMost(i, n, k);
    }
    var route := Slice(shuffled, a, b);
    RandomRoutesFlattenStep(shuffled, RandomRoutes(shuffled, k, i - 1), RandomRoutes(shuffled, k, i), route, a, b);
  }

  lemma RandomRoutesFlattenStep(shuffled: seq<Id>, prev: Routes, all: Routes, route: Route, a: nat, b: nat)
    requires a <= b <= |shuffled|
    requires Flatten(prev) == shuffled[..a]
    requires route == Slice(shuffled, a, b)
    requires all == prev + (if |route| > 0 then [route] else [])
    ensures Flatten(all) == shuffled[..b]
  {
    assert route == shuffled[a..b];
    if |route| > 0 {
      FlattenConcat(prev, [route]);
      FlattenSingle(route);
    } else {
      assert all == prev;
    }
    assert shuffled[..b] == shuffled[..a] + shuffled[a..b];
  }

  lemma {:induction false} RandomRoutesSizes(shuffled: seq<Id>, k: nat, i: nat)
    requires 0 < k <= |shuffled| && i <= k
    ensures |RandomRoutes(shuffled, k, i)| == i
    ensures forall j :: 0 <= j < i ==>
              |shuffled| / k <= |RandomRoutes(shuffled, k, i)[j]| <= |shuffled| / k + 1
  {
    if i > 0 {
      var n := |shuffled|;
      var q := n / k;
      var route := Slice(shuffled, Bound(i - 1, n, k), Bound(i, n, k));
      assert 1 <= q <= |route| <= q + 1 by {
        ChunkSize(i - 1, n, k);
        BoundAtMost(i, n, k);
      }
      var prev := RandomRoutes(shuffled, k, i - 1);
      assert |prev| == i - 1 && forall j :: 0 <= j < i - 1 ==> q <= |prev[j]| <= q + 1 by {
        RandomRoutesSizes(shuffled, k, i - 1);
      }
      var all := RandomRoutes(shuffled, k, i);
      assert all == prev + [route];
      forall j | 0 <= j < i
        ensures q <= |all[j]| <= q + 1
      {
        if j < i - 1 {
          assert all[j] == prev[j];
        }
      }
    }
  }

  /** The random individual uses min(|vehicles|, |deliveries|) routes, none
      empty, whose concatenation is the shuffled list, and whose sizes
      differ by at most one. */
  lemma RandomIndividualCorrect(ds: seq<Delivery>, vs: seq<Vehicle>, shuffled: seq<Id>)
    requires multiset(shuffled) == multiset(Ids(ds))
    ensures var r := RandomIndividual(ds, vs, shuffled);
      && |r| == (if |vs| < |ds| then |vs| else |ds|)
      && Flatten(r) == (if |vs| == 0 then [] else shuffled)
      && (|vs| > 0 ==> multiset(Flatten(r)) == multiset(Ids(ds)))
      && (forall j :: 0 <= j < |r| ==> |r[j]| > 0)
      && (forall a, b :: 0 <= a < |r| && 0 <= b < |r| ==> |r[a]| <= |r[b]| + 1)
  {
    assert |shuffled| == |ds| by {
      assert |multiset(shuffled)| == |multiset(Ids(ds))|;
    }
    var r := RandomIndividual(ds, vs, shuffled);
    var n := |shuffled|;
    var k := if |vs| < n then |vs| else n;
    if k > 0 {
      var q := n / k;
      assert r == RandomRoutes(shuffled, k, k);
      assert Flatten(r) == shuffled[..Bound(k, n, k)] by {
        RandomRoutesFlatten(shuffled, k, k);
      }
      assert |r| == k && forall j :: 0 <= j < k ==> q <= |r[j]| <= q + 1 by {
        RandomRoutesSizes(shuffled, k, k);
      }
      assert Bound(k, n, k) == n by {
        DivUnique(k * n, k, n, 0);
      }
      assert shuffled[..n] == shuffled;
      assert q >= 1 by {
        ChunkSize(0, n, k);
      }
    } else {
      assert r == [];
    }
  }

  // --------------------------------------------------- nearest neighbour

  predicate Fits(v: Vehicle, w: real, travelled: real, d: Delivery, dist: real)
  {
    w + d.weight <= v.maxCapacity && travelled + dist <= v.maxRange
  }

  /** The inner `for delivery in remaining_deliveries` loop: the nearest
      delivery that still fits, the earliest one among equals. */
  function Nearest(rem: seq<Delivery>, at: Point, w: real, travelled: real, v: Vehicle, geo: Metric)
    : (r: Option<nat>)
    ensures r.None? <==> forall j :: 0 <= j < |rem| ==> !Fits(v, w, travelled, rem[j], geo(at, rem[j].location))
    ensures r.Some? ==>
              r.value < |rem| && Fits(v, w, travelled, rem[r.value], geo(at, rem[r.value].location))
              && (forall j :: 0 <= j < |rem| && Fits(v, w, travelled, rem[j], geo(at, rem[j].location)) ==>
                    geo(at, rem[r.value].location) <= geo(at, rem[j].location))
              && (forall j :: 0 <= j < r.value && Fits(v, w, travelled, rem[j], geo(at, rem[j].location)) ==>
                    geo(at, rem[r.value].location) < geo(at, rem[j].location))
  {
    var dists := seq(|rem|, j requires 0 <= j < |rem| => geo(at, rem[j].location));
    var ok := seq(|rem|, j requires 0 <= j < |rem| => Fits(v, w, travelled, rem[j], dists[j]));
    assert forall j :: 0 <= j < |rem| ==>
             ok[j] == Fits(v, w, travelled, rem[j], geo(at, rem[j].location));
    ArgMinWhere(dists, ok)
  }

  /** The `while remaining_deliveries` loop of one vehicle, standing at `at`
      with load `w` after `travelled` km and `stops` picked so far; the
      result is the stops and the deliveries still remaining. */
  function NearestRoute(rem: seq<Delivery>, v: Vehicle, geo: Metric, at: Point, w: real, travelled: real,
                        stops: seq<Delivery>): (r: (seq<Delivery>, seq<Delivery>))
    decreases |rem|
  {
    var n := Nearest(rem, at, w, travelled, v, geo);
    if n.None? then (stops, rem)
    else
      var d := rem[n.value];
      NearestRoute(RemoveFirst(rem, d), v, geo, d.location, w + d.weight,
                   travelled + geo(at, d.location), stops + [d])
  }

  /** The loop only moves deliveries from the remaining list to the route. */
  lemma {:induction false} NearestRouteMoves(rem: seq<Delivery>, v: Vehicle, geo: Metric, at: Point, w: real,
                                             travelled: real, stops: seq<Delivery>)
    ensures var r := NearestRoute(rem, v, geo, at, w, travelled, stops);
      multiset(r.0) + multiset(r.1) == multiset(stops) + multiset(rem)
    decreases |rem|
  {
    var n := Nearest(rem, at, w, travelled, v, geo);
    var r := NearestRoute(rem, v, geo, at, w, travelled, stops);
    if n.Some? {
      var d := rem[n.value];
      var rem' := RemoveFirst(rem, d);
      var at', w', t' := d.location, w + d.weight, travelled + geo(at, d.location);
      var r' := NearestRoute(rem', v, geo, at', w', t', stops + [d]);
      assert r == r';
      NearestRouteMoves(rem', v, geo, at', w', t', stops + [d]);
      assert multiset(r'.0) + multiset(r'.1) == multiset(stops + [d]) + multiset(rem');
      assert multiset(stops + [d]) + multiset(rem') == multiset(stops) + multiset(rem) by {
        assert multiset(rem') + multiset{d} == multiset(rem);
      }
    } else {
      assert r == (stops, rem);
    }
  }

  function Locations(ds: seq<Delivery>): (r: seq<Point>)
    ensures |r| == |ds|
    ensures forall i :: 0 <= i < |ds| ==> r[i] == ds[i].location
  {
    seq(|ds|, i requires 0 <= i < |ds| => ds[i].location)
  }

  /** The outbound path of a route: from the depot through its stops, with
      no leg back. */
  function Outbound(depot: Point, stops: seq<Delivery>, geo: Metric): real
  {
    Legs([depot] + Locations(stops), geo)
  }

  lemma WeightSumAppend(ds: seq<Delivery>, d: Delivery)
    ensures WeightSum(ds + [d]) == WeightSum(ds) + d.weight
  {
    SumOfConcat(ds, [d], (x: Delivery) => x.weight);
    SumOfSingle(d, (x: Delivery) => x.weight);
  }

  /** The loop's running totals describe the stops picked so far. */
  predicate Tracks(v: Vehicle, geo: Metric, depot: Point, at: Point, w: real, travelled: real,
                   stops: seq<Delivery>)
  {
    if |stops| == 0 then at == depot && w == 0.0 && travelled == 0.0
    else
      at == stops[|stops| - 1].location
      && w == WeightSum(stops) && w <= v.maxCapacity
      && travelled == Outbound(depot, stops, geo) && travelled <= v.maxRange
  }

  lemma OutboundAppend(depot: Point, stops: seq<Delivery>, d: Delivery, geo: Metric)
    ensures var from := if |stops| == 0 then depot else stops[|stops| - 1].location;
      Outbound(depot, stops + [d], geo) == Outbound(depot, stops, geo) + geo(from, d.location)
  {
    var path := [depot] + Locations(stops);
    assert [depot] + Locations(stops + [d]) == path + [d.location];
    LegsAppend(path, d.location, geo);
    assert path[|path| - 1] == if |stops| == 0 then depot else stops[|stops| - 1].location;
  }

  /** One step of the loop keeps the running totals in step with the stops. */
  lemma TracksStep(v: Vehicle, geo: Metric, depot: Point, at: Point, w: real, travelled: real,
                   stops: seq<Delivery>, d: Delivery)
    requires Tracks(v, geo, depot, at, w, travelled, stops)
    requires Fits(v, w, travelled, d, geo(at, d.location))
    ensures Tracks(v, geo, depot, d.location, w + d.weight, travelled + geo(at, d.location), stops + [d])
  {
    WeightSumAppend(stops, d);
    OutboundAppend(depot, stops, d, geo);
    if |stops| == 0 {
      assert WeightSum(stops) == 0.0;
      assert Outbound(depot, stops, geo) == 0.0;
    }
  }

  /** Every route the loop closes fits the vehicle: its weight is within
      the capacity and its outbound path within the range. */
  lemma {:induction false} NearestRouteFeasible(rem: seq<Delivery>, v: Vehicle, geo: Metric, depot: Point,
                                                at: Point, w: real, travelled: real, stops: seq<Delivery>)
    requires Tracks(v, geo, depot, at, w, travelled, stops)
    ensures var r := NearestRoute(rem, v, geo, at, w, travelled, stops);
      |r.0| > 0 ==> WeightSum(r.0) <= v.maxCapacity && Outbound(depot, r.0, geo) <= v.maxRange
    decreases |rem|
  {
    var n := Nearest(rem, at, w, travelled, v, geo);
    var r := NearestRoute(rem, v, geo, at, w, travelled, stops);
    if n.Some? {
      var d := rem[n.value];
      var at', w', t' := d.location, w + d.weight, travelled + geo(at, d.location);
      assert r == NearestRoute(RemoveFirst(rem, d), v, geo, at', w', t', stops + [d]);
      TracksStep(v, geo, depot, at, w, travelled, stops, d);
      NearestRouteFeasible(RemoveFirst(rem, d), v, geo, depot, at', w', t', stops + [d]);
    } else {
      assert r == (stops, rem);
    }
  }

  /** A route and the index of the vehicle whose loop built it. */
  datatype Built = Built(vehicle: nat, stops: seq<Delivery>)

  /** The `for vehicle_idx, vehicle in enumerate(vehicles)` loop from vehicle
      vi on: the routes built, and the deliveries left over. */
  function NearestFleet(vs: seq<Vehicle>, vi: nat, rem: seq<Delivery>, depot: Point, geo: Metric)
    : (r: (seq<Built>, seq<Delivery>))
    requires vi <= |vs|
    ensures |r.0| <= |vs| - vi
    decreases |vs| - vi
  {
    if vi == |vs| || |rem| == 0 then ([], rem)
    else
      var route := NearestRoute(rem, vs[vi], geo, depot, 0.0, 0.0, []);
      var tail := NearestFleet(vs, vi + 1, route.1, depot, geo);
      (if |route.0| > 0 then [Built(vi, route.0)] + tail.0 else tail.0, tail.1)
  }

  function AllStops(bs: seq<Built>): (r: seq<seq<Delivery>>)
    ensures |r| == |bs|
    ensures forall i :: 0 <= i < |bs| ==> r[i] == bs[i].stops
  {
    seq(|bs|, i requires 0 <= i < |bs| => bs[i].stops)
  }

  /** The route a built entry carries fits the vehicle that built it. */
  predicate FitsBuilder(vs: seq<Vehicle>, depot: Point, geo: Metric, b: Built)
  {
    b.vehicle < |vs| && |b.stops| > 0
    && WeightSum(b.stops) <= vs[b.vehicle].maxCapacity
    && Outbound(depot, b.stops, geo) <= vs[b.vehicle].maxRange
  }

  /** One round of the fleet loop: the route of vehicle vi, when not
      empty, goes in front of the routes of the later vehicles. */
  lemma NearestFleetStep(vs: seq<Vehicle>, vi: nat, rem: seq<Delivery>, depot: Point, geo: Metric)
    requires vi < |vs| && |rem| > 0
    ensures var r := NearestFleet(vs, vi, rem, depot, geo);
      var route := NearestRoute(rem, vs[vi], geo, depot, 0.0, 0.0, []);
      var tail := NearestFleet(vs, vi + 1, route.1, depot, geo);
      && r.1 == tail.1
      && r.0 == (if |route.0| > 0 then [Built(vi, route.0)] + tail.0 else tail.0)
      && Flatten(AllStops(r.0)) == route.0 + Flatten(AllStops(tail.0))
  {
    var r := NearestFleet(vs, vi, rem, depot, geo);
    var route := NearestRoute(rem, vs[vi], geo, depot, 0.0, 0.0, []);
    var tail := NearestFleet(vs, vi + 1, route.1, depot, geo);
    if |route.0| > 0 {
      assert r.0 == [Built(vi, route.0)] + tail.0;
      FlattenAllStopsCons(Built(vi, route.0), tail.0);
    } else {
      assert r.0 == tail.0 && route.0 + Flatten(AllStops(tail.0)) == Flatten(AllStops(tail.0));
    }
  }

  lemma FlattenAllStopsCons(b: Built, bs: seq<Built>)
    ensures Flatten(AllStops([b] + bs)) == b.stops + Flatten(AllStops(bs))
  {
    assert AllStops([b] + bs) == [b.stops] + AllStops(bs);
    FlattenConcat([b.stops], AllStops(bs));
    FlattenSingle(b.stops);
  }

  /** Two moves in a row: what the first placed, then what the second placed,
      plus what is left, is what there was. */
  lemma MovesCompose(first: seq<Delivery>, second: seq<Delivery>, left: seq<Delivery>,
                     mid: seq<Delivery>, start: seq<Delivery>)
    requires multiset(second) + multiset(left) == multiset(mid)
    requires multiset(first) + multiset(mid) == multiset(start)
    ensures multiset(first + second) + multiset(left) == multiset(start)
  {
  }

  lemma {:induction false} NearestFleetCovers(vs: seq<Vehicle>, vi: nat, rem: seq<Delivery>, depot: Point,
                                              geo: Metric)
    requires vi <= |vs|
    ensures multiset(Flatten(AllStops(NearestFleet(vs, vi, rem, depot, geo).0)))
              + multiset(NearestFleet(vs, vi, rem, depot, geo).1) == multiset(rem)
    decreases |vs| - vi
  {
    if vi < |vs| && |rem| > 0 {
      var route := NearestRoute(rem, vs[vi], geo, depot, 0.0, 0.0, []);
      var stops, rem' := route.0, route.1;
      var tail := NearestFleet(vs, vi + 1, rem', depot, geo);
      var later := Flatten(AllStops(tail.0));
      var r := NearestFleet(vs, vi, rem, depot, geo);
      assert Flatten(AllStops(r.0)) == stops + later && r.1 == tail.1 by {
        NearestFleetStep(vs, vi, rem, depot, geo);
      }
      assert multiset(later) + multiset(tail.1) == multiset(rem') by {
        NearestFleetCovers(vs, vi + 1, rem', depot, geo);
      }
      assert multiset(stops) + multiset(rem') == multiset(rem) by {
        NearestRouteMoves(rem, vs[vi], geo, depot, 0.0, 0.0, []);
      }
      MovesCompose(stops, later, tail.1, rem', rem);
    }
  }

  /** Each route is non-empty and fits the vehicle that built it, and the
      vehicles that built routes are increasing from vi on, so no vehicle
      gets two routes. */
  predicate BuiltInOrder(vs: seq<Vehicle>, vi: nat, depot: Point, geo: Metric, bs: seq<Built>)
  {
    && (forall j :: 0 <= j < |bs| ==> vi <= bs[j].vehicle && FitsBuilder(vs, depot, geo, bs[j]))
    && (forall a, b :: 0 <= a < b < |bs| ==> bs[a].vehicle < bs[b].vehicle)
  }

  lemma BuiltInOrderCons(vs: seq<Vehicle>, vi: nat, depot: Point, geo: Metric, b: Built, rest: seq<Built>)
    requires BuiltInOrder(vs, vi + 1, depot, geo, rest)
    requires b.vehicle == vi && FitsBuilder(vs, depot, geo, b)
    ensures BuiltInOrder(vs, vi, depot, geo, [b] + rest)
  {
    var bs := [b] + rest;
    forall j | 1 <= j < |bs|
      ensures vi < bs[j].vehicle && FitsBuilder(vs, depot, geo, bs[j])
    {
      assert bs[j] == rest[j - 1];
    }
    forall x, y | 0 <= x < y < |bs|
      ensures bs[x].vehicle < bs[y].vehicle
    {
      assert bs[y] == rest[y - 1];
      if x > 0 {
        assert bs[x] == rest[x - 1];
      }
    }
  }

  lemma {:induction false} NearestFleetFeasible(vs: seq<Vehicle>, vi: nat, rem: seq<Delivery>, depot: Point,
                                                geo: Metric)
    requires vi <= |vs|
    ensures BuiltInOrder(vs, vi, depot, geo, NearestFleet(vs, vi, rem, depot, geo).0)
    decreases |vs| - vi
  {
    var r := NearestFleet(vs, vi, rem, depot, geo);
    if vi < |vs| && |rem| > 0 {
      var route := NearestRoute(rem, vs[vi], geo, depot, 0.0, 0.0, []);
      var stops, rem' := route.0, route.1;
      var rest := NearestFleet(vs, vi + 1, rem', depot, geo).0;
      assert r.0 == (if |stops| > 0 then [Built(vi, stops)] + rest else rest) by {
        NearestFleetStep(vs, vi, rem, depot, geo);
      }
      assert BuiltInOrder(vs, vi + 1, depot, geo, rest) by {
        NearestFleetFeasible(vs, vi + 1, rem', depot, geo);
      }
      if |stops| > 0 {
        assert FitsBuilder(vs, depot, geo, Built(vi, stops)) by {
          NearestRouteFeasible(rem, vs[vi], geo, depot, depot, 0.0, 0.0, []);
        }
        BuiltInOrderCons(vs, vi, depot, geo, Built(vi, stops), rest);
      }
    } else {
      assert r.0 == [];
    }
  }

  /** `NearestNeighborInitializationStrategy.generate_individual`. */
  function NearestNeighborIndividual(ds: seq<Delivery>, vs: seq<Vehicle>, depot: Point, geo: Metric)
    : (r: Routes)
    ensures |r| <= |vs|
  {
    IdRoutes(AllStops(NearestFleet(vs, 0, ds, depot, geo).0))
  }

  /** No delivery is placed twice: the individual draws its ids from the
      input, without repeats when the input ids are unique; deliveries that
      fit no vehicle are dropped. */
  lemma NearestNeighborCovers(ds: seq<Delivery>, vs: seq<Vehicle>, depot: Point, geo: Metric)
    ensures var r := NearestNeighborIndividual(ds, vs, depot, geo);
      && (forall j :: 0 <= j < |r| ==> |r[j]| > 0)
      && (forall i :: 0 <= i < |Flatten(r)| ==> Flatten(r)[i] in Ids(ds))
      && (DistinctIds(ds) ==> Distinct(Flatten(r)))
  {
    var bs := NearestFleet(vs, 0, ds, depot, geo).0;
    var plan := AllStops(bs);
    var flat := Flatten(plan);
    assert forall j :: 0 <= j < |plan| ==> |plan[j]| > 0 by {
      NearestFleetFeasible(vs, 0, ds, depot, geo);
      assert forall j :: 0 <= j < |bs| ==> FitsBuilder(vs, depot, geo, bs[j]);
    }
    assert multiset(flat) <= multiset(ds) by {
      NearestFleetCovers(vs, 0, ds, depot, geo);
    }
    assert Flatten(IdRoutes(plan)) == Ids(flat) by {
      FlattenIdRoutes(plan);
    }
    SubMultisetIdsIn(flat, ds);
    if DistinctIds(ds) {
      SubMultisetDistinctIds(flat, ds);
    }
  }

  // ------------------------------------------------------ priority first

  /** The `while critical_deliveries` loop of one vehicle: pop deliveries
      off the front while they fit on top of load `w`, and put back the
      first that does not. The result is the route and the list left. */
  function TakeFitting(crits: seq<Delivery>, cap: real, w: real): (r: (seq<Delivery>, seq<Delivery>))
    ensures r.0 + r.1 == crits
    ensures r.0 == [] || w + WeightSum(r.0) <= cap
    ensures |r.1| > 0 ==> w + WeightSum(r.0) + r.1[0].weight > cap
    decreases |crits|
  {
    if |crits| == 0 then ([], crits)
    else if w + crits[0].weight <= cap then
      var t := TakeFitting(crits[1..], cap, w + crits[0].weight);
      var taken := [crits[0]] + t.0;
      assert WeightSum(taken) == crits[0].weight + WeightSum(t.0) by {
        assert taken[1..] == t.0;
      }
      assert WeightSum(t.0) == 0.0 ==> t.0 == [] || w + crits[0].weight + WeightSum(t.0) <= cap;
      assert crits == [crits[0]] + crits[1..];
      (taken, t.1)
    else ([], crits)
  }

  /** The first loop over the vehicles from vi on: the non-empty critical
      routes, and the criticals no vehicle took. */
  function CriticalPhase(vs: seq<Vehicle>, vi: nat, crits: seq<Delivery>)
    : (r: (seq<seq<Delivery>>, seq<Delivery>))
    requires vi <= |vs|
    ensures |r.0| <= |vs| - vi
    decreases |vs| - vi
  {
    if vi == |vs| || |crits| == 0 then ([], crits)
    else
      var taken := TakeFitting(crits, vs[vi].maxCapacity, 0.0);
      var more := CriticalPhase(vs, vi + 1, taken.1);
      (if |taken.0| > 0 then [taken.0] + more.0 else more.0, more.1)
  }

  /** `routes` cut `crits`, in order, into non-empty pieces, and `left` is
      what follows them. */
  predicate Splits(routes: seq<seq<Delivery>>, left: seq<Delivery>, crits: seq<Delivery>)
  {
    Flatten(routes) + left == crits && forall j :: 0 <= j < |routes| ==> |routes[j]| > 0
  }

  /** The critical routes cut the critical list, in order, into non-empty
      pieces, followed by the criticals left over. */
  lemma {:induction false} CriticalPhaseSplits(vs: seq<Vehicle>, vi: nat, crits: seq<Delivery>)
    requires vi <= |vs|
    ensures Splits(CriticalPhase(vs, vi, crits).0, CriticalPhase(vs, vi, crits).1, crits)
    decreases |vs| - vi
  {
    if vi < |vs| && |crits| > 0 {
      var taken := TakeFitting(crits, vs[vi].maxCapacity, 0.0);
      var more := CriticalPhase(vs, vi + 1, taken.1);
      CriticalPhaseSplits(vs, vi + 1, taken.1);
      assert CriticalPhase(vs, vi, crits) == (if |taken.0| > 0 then [taken.0] + more.0 else more.0, more.1);
      SplitsCons(taken.0, taken.1, more.0, more.1, crits);
    } else {
      assert CriticalPhase(vs, vi, crits) == ([], crits);
    }
  }

  /** A first piece, possibly empty, in front of a split of the rest. */
  lemma SplitsCons(taken: seq<Delivery>, rest: seq<Delivery>, routes: seq<seq<Delivery>>, left: seq<Delivery>,
                   crits: seq<Delivery>)
    requires taken + rest == crits && Splits(routes, left, rest)
    ensures Splits(if |taken| > 0 then [taken] + routes else routes, left, crits)
  {
    if |taken| > 0 {
      var all := [taken] + routes;
      assert Flatten(all) == taken + Flatten(routes) by {
        FlattenConcat([taken], routes);
        FlattenSingle(taken);
      }
      forall j | 1 <= j < |all|
        ensures |all[j]| > 0
      {
        assert all[j] == routes[j - 1];
      }
    } else {
      assert taken == [];
      assert crits == rest;
    }
  }

  /** A critical heavier than every vehicle's capacity blocks the queue:
      no critical behind it is placed either. */
  lemma {:induction false} HeavyCriticalBlocks(vs: seq<Vehicle>, vi: nat, crits: seq<Delivery>)
    requires vi <= |vs| && |crits| > 0
    requires forall j :: vi <= j < |vs| ==> crits[0].weight > vs[j].maxCapacity
    ensures CriticalPhase(vs, vi, crits) == ([], crits)
    decreases |vs| - vi
  {
    if vi < |vs| {
      var taken := TakeFitting(crits, vs[vi].maxCapacity, 0.0);
      assert taken == ([], crits);
      HeavyCriticalBlocks(vs, vi + 1, crits);
    }
  }

  /** `sum(d.weight for d in deliveries if d.id in route)`, walked over
      the input: every delivery whose id is on the route counts, duplicates
      included. */
  function CurrentWeight(ds: seq<Delivery>, route: seq<Delivery>): real
  {
    if |ds| == 0 then 0.0
    else (if ds[0].id in Ids(route) then ds[0].weight else 0.0) + CurrentWeight(ds[1..], route)
  }

  /** The walk is the weight of the filtered input. */
  lemma {:induction false} CurrentWeightIsFilteredSum(ds: seq<Delivery>, route: seq<Delivery>)
    ensures CurrentWeight(ds, route) == WeightSum(Filter(ds, (d: Delivery) => d.id in Ids(route)))
  {
    var onRoute := (d: Delivery) => d.id in Ids(route);
    if |ds| > 0 {
      CurrentWeightIsFilteredSum(ds[1..], route);
      if onRoute(ds[0]) {
        assert Filter(ds, onRoute) == [ds[0]] + Filter(ds[1..], onRoute);
        assert ([ds[0]] + Filter(ds[1..], onRoute))[1..] == Filter(ds[1..], onRoute);
      }
    }
  }

  /** The `for delivery in normal_deliveries[:]` loop of one vehicle: it
      walks the copy `snapshot` and removes what it places from `live`.
      The result is the deliveries appended, what is left of `live`, and
      the final load. */
  function Fill(cap: real, w: real, snapshot: seq<Delivery>, live: seq<Delivery>)
    : (r: (seq<Delivery>, seq<Delivery>, real))
    decreases |snapshot|
  {
    if |snapshot| == 0 then ([], live, w)
    else
      var d := snapshot[0];
      if w + d.weight <= cap then
        var rest := Fill(cap, w + d.weight, snapshot[1..], RemoveFirst(live, d));
        ([d] + rest.0, rest.1, rest.2)
      else Fill(cap, w, snapshot[1..], live)
  }

  /** What the loop leaves when it walks `snapshot` over `live`: it placed
      deliveries of the snapshot only, and removed exactly them. */
  predicate Moved(placed: seq<Delivery>, left: seq<Delivery>, snapshot: seq<Delivery>, live: seq<Delivery>)
  {
    multiset(placed) <= multiset(snapshot) && multiset(placed) + multiset(left) == multiset(live)
  }

  /** The loop places deliveries of the snapshot only and removes exactly
      them from the live list. */
  lemma {:induction false} FillMoves(cap: real, w: real, snapshot: seq<Delivery>, live: seq<Delivery>)
    requires multiset(snapshot) <= multiset(live)
    ensures Moved(Fill(cap, w, snapshot, live).0, Fill(cap, w, snapshot, live).1, snapshot, live)
    decreases |snapshot|
  {
    if |snapshot| > 0 {
      var d := snapshot[0];
      var tail := snapshot[1..];
      if w + d.weight <= cap {
        var live' := FillTakes(snapshot, live);
        FillMoves(cap, w + d.weight, tail, live');
        FillPlaces(cap, w, snapshot, live);
      } else {
        assert snapshot == [d] + tail;
        assert Fill(cap, w, snapshot, live) == Fill(cap, w, tail, live);
        FillMoves(cap, w, tail, live);
      }
    }
  }

  /** Placing the first delivery of the snapshot takes it out of the live
      list and leaves the rest of the snapshot inside. */
  lemma FillTakes(snapshot: seq<Delivery>, live: seq<Delivery>) returns (live': seq<Delivery>)
    requires |snapshot| > 0 && multiset(snapshot) <= multiset(live)
    ensures live' == RemoveFirst(live, snapshot[0])
    ensures multiset(live') + multiset{snapshot[0]} == multiset(live)
    ensures multiset(snapshot[1..]) <= multiset(live')
    ensures multiset(snapshot) == multiset(snapshot[1..]) + multiset{snapshot[0]}
  {
    var d := snapshot[0];
    assert snapshot == [d] + snapshot[1..];
    assert d in live by {
      assert d in multiset(snapshot);
    }
    live' := RemoveFirst(live, d);
    TakeOneLeaves(d, snapshot[1..], live, live');
  }

  /** The turn that places the first delivery, given what the rest of the
      loop does. */
  lemma FillPlaces(cap: real, w: real, snapshot: seq<Delivery>, live: seq<Delivery>)
    requires |snapshot| > 0 && multiset(snapshot) <= multiset(live)
    requires w + snapshot[0].weight <= cap
    requires var live' := RemoveFirst(live, snapshot[0]);
             var rest := Fill(cap, w + snapshot[0].weight, snapshot[1..], live');
             Moved(rest.0, rest.1, snapshot[1..], live')
    ensures Moved(Fill(cap, w, snapshot, live).0, Fill(cap, w, snapshot, live).1, snapshot, live)
  {
    var d := snapshot[0];
    var live' := FillTakes(snapshot, live);
    var rest := Fill(cap, w + d.weight, snapshot[1..], live');
    assert Fill(cap, w, snapshot, live) == ([d] + rest.0, rest.1, rest.2);
    TakeOneMoves(d, snapshot[1..], snapshot, live, live', rest.0, rest.1);
  }

  /** Taking d out of the live list keeps the rest of the snapshot inside it. */
  lemma TakeOneLeaves(d: Delivery, tail: seq<Delivery>, live: seq<Delivery>, live': seq<Delivery>)
    requires multiset([d] + tail) <= multiset(live)
    requires multiset(live') + multiset{d} == multiset(live)
    ensures multiset(tail) <= multiset(live')
  {
    assert multiset([d] + tail) == multiset(tail) + multiset{d};
    MultisetLeCancel(multiset(tail), multiset(live'), multiset{d});
  }

  /** Placing d and then what the rest of the loop places moves exactly
      those deliveries out of the live list. */
  lemma TakeOneMoves(d: Delivery, tail: seq<Delivery>, snapshot: seq<Delivery>, live: seq<Delivery>,
                     live': seq<Delivery>, placed: seq<Delivery>, left: seq<Delivery>)
    requires multiset(snapshot) == multiset(tail) + multiset{d}
    requires multiset(live') + multiset{d} == multiset(live)
    requires Moved(placed, left, tail, live')
    ensures Moved([d] + placed, left, snapshot, live)
  {
    assert multiset([d] + placed) == multiset(placed) + multiset{d};
    MultisetLeAdd(multiset(placed), multiset(tail), multiset{d});
  }

  /** The running load is the start load plus what was placed, and stays
      within the capacity once anything was placed. */
  lemma {:induction false} FillWithin(cap: real, w: real, snapshot: seq<Delivery>, live: seq<Delivery>)
    ensures var r := Fill(cap, w, snapshot, live);
      r.2 == w + WeightSum(r.0) && (r.0 == [] || r.2 <= cap)
    decreases |snapshot|
  {
    var r := Fill(cap, w, snapshot, live);
    if |snapshot| > 0 {
      var d := snapshot[0];
      var tail := snapshot[1..];
      if w + d.weight <= cap {
        var live' := RemoveFirst(live, d);
        var rest := Fill(cap, w + d.weight, tail, live');
        assert r == ([d] + rest.0, rest.1, rest.2);
        assert rest.2 == w + d.weight + WeightSum(rest.0) && (rest.0 == [] || rest.2 <= cap) by {
          FillWithin(cap, w + d.weight, tail, live');
        }
        assert WeightSum([d] + rest.0) == d.weight + WeightSum(rest.0) by {
          assert ([d] + rest.0)[1..] == rest.0;
        }
      } else {
        assert r == Fill(cap, w, tail, live);
        FillWithin(cap, w, tail, live);
      }
    }
  }

  /** The route of vehicle j as the critical phase left it. */
  function Base(routes: seq<seq<Delivery>>, j: nat): seq<Delivery>
  {
    if j < |routes| then routes[j] else []
  }

  /** The second loop over the vehicles from vi on. */
  function NormalPhase(ds: seq<Delivery>, vs: seq<Vehicle>, vi: nat, routes: seq<seq<Delivery>>,
                       normals: seq<Delivery>): (r: seq<seq<Delivery>>)
    requires vi <= |vs| && vi <= |routes|
    decreases |vs| - vi
  {
    if vi == |vs| then routes
    else
      var rs := if vi == |routes| then routes + [[]] else routes;
      var f := Fill(vs[vi].maxCapacity, CurrentWeight(ds, rs[vi]), normals, normals);
      NormalPhase(ds, vs, vi + 1, rs[vi := rs[vi] + f.0], f.1)
  }

  /** A route on which no critical follows a non-critical. */
  predicate CriticalsLead(route: seq<Delivery>)
  {
    forall a, b :: 0 <= a < b < |route| && !IsCritical(route[a]) ==> !IsCritical(route[b])
  }

  predicate AllNormal(ds: seq<Delivery>)
  {
    forall i :: 0 <= i < |ds| ==> !IsCritical(ds[i])
  }

  lemma NormalsKeepLead(route: seq<Delivery>, extra: seq<Delivery>)
    requires CriticalsLead(route) && AllNormal(extra)
    ensures CriticalsLead(route + extra)
  {
    var r := route + extra;
    forall a, b | 0 <= a < b < |r| && !IsCritical(r[a])
      ensures !IsCritical(r[b])
    {
      if b >= |route| {
        assert r[b] == extra[b - |route|];
      }
    }
  }

  lemma SubMultisetAllNormal(xs: seq<Delivery>, ys: seq<Delivery>)
    requires multiset(xs) <= multiset(ys) && AllNormal(ys)
    ensures AllNormal(xs)
  {
    forall i | 0 <= i < |xs|
      ensures !IsCritical(xs[i])
    {
      assert xs[i] in multiset(ys);
    }
  }

  /** One round of the normal phase, at vehicle vi. */
  function NormalStep(ds: seq<Delivery>, vs: seq<Vehicle>, vi: nat, routes: seq<seq<Delivery>>,
                      normals: seq<Delivery>): (r: (seq<seq<Delivery>>, seq<Delivery>))
    requires vi < |vs| && vi <= |routes|
    ensures |r.0| == if vi == |routes| then vi + 1 else |routes|
    ensures NormalPhase(ds, vs, vi, routes, normals) == NormalPhase(ds, vs, vi + 1, r.0, r.1)
  {
    var rs := if vi == |routes| then routes + [[]] else routes;
    var f := Fill(vs[vi].maxCapacity, CurrentWeight(ds, rs[vi]), normals, normals);
    (rs[vi := rs[vi] + f.0], f.1)
  }

  /** The normal phase ends with one route per vehicle and leaves the
      routes before vi alone. */
  lemma {:induction false} NormalPhaseShape(ds: seq<Delivery>, vs: seq<Vehicle>, vi: nat,
                                            routes: seq<seq<Delivery>>, normals: seq<Delivery>)
    requires vi <= |vs| && vi <= |routes| <= |vs|
    ensures var r := NormalPhase(ds, vs, vi, routes, normals);
      |r| == |vs| && forall j :: 0 <= j < vi ==> r[j] == routes[j]
    decreases |vs| - vi
  {
    var r := NormalPhase(ds, vs, vi, routes, normals);
    if vi < |vs| {
      var step := NormalStep(ds, vs, vi, routes, normals);
      assert r == NormalPhase(ds, vs, vi + 1, step.0, step.1);
      assert forall j :: 0 <= j < vi ==> step.0[j] == routes[j];
      assert |r| == |vs| && forall j :: 0 <= j < vi + 1 ==> r[j] == step.0[j] by {
        NormalPhaseShape(ds, vs, vi + 1, step.0, step.1);
      }
    }
  }

  /** Route j after the normal phase: the route the critical phase gave it,
      followed by normals only, appended while they fit vehicle j's
      capacity counted from the weight already on it. */
  predicate FilledWithin(ds: seq<Delivery>, v: Vehicle, base: seq<Delivery>, route: seq<Delivery>)
  {
    |route| >= |base| && route[..|base|] == base
    && AllNormal(route[|base|..])
    && (|route| == |base| || CurrentWeight(ds, base) + WeightSum(route[|base|..]) <= v.maxCapacity)
  }

  /** One round fills route vi as promised and leaves the later routes
      and the normal-only queue as they were. */
  lemma NormalStepFills(ds: seq<Delivery>, vs: seq<Vehicle>, vi: nat, routes: seq<seq<Delivery>>,
                        normals: seq<Delivery>)
    requires vi < |vs| && vi <= |routes| <= |vs|
    requires AllNormal(normals)
    ensures var step := NormalStep(ds, vs, vi, routes, normals);
      && FilledWithin(ds, vs[vi], Base(routes, vi), step.0[vi])
      && AllNormal(step.1)
      && forall j :: vi < j ==> Base(step.0, j) == Base(routes, j)
  {
    var rs := if vi == |routes| then routes + [[]] else routes;
    var base := rs[vi];
    var cap := vs[vi].maxCapacity;
    var w := CurrentWeight(ds, base);
    var f := Fill(cap, w, normals, normals);
    var added := f.0;
    assert AllNormal(added) && AllNormal(f.1) && (added == [] || w + WeightSum(added) <= cap) by {
      FillMoves(cap, w, normals, normals);
      FillWithin(cap, w, normals, normals);
      SubMultisetAllNormal(added, normals);
      SubMultisetAllNormal(f.1, normals);
    }
    assert (base + added)[..|base|] == base && (base + added)[|base|..] == added;
  }

  lemma {:induction false} NormalPhaseFills(ds: seq<Delivery>, vs: seq<Vehicle>, vi: nat,
                                            routes: seq<seq<Delivery>>, normals: seq<Delivery>)
    requires vi <= |vs| && vi <= |routes| <= |vs|
    requires AllNormal(normals)
    ensures var r := NormalPhase(ds, vs, vi, routes, normals);
      |r| == |vs| && forall j :: vi <= j < |vs| ==> FilledWithin(ds, vs[j], Base(routes, j), r[j])
    decreases |vs| - vi
  {
    var r := NormalPhase(ds, vs, vi, routes, normals);
    assert |r| == |vs| by {
      NormalPhaseShape(ds, vs, vi, routes, normals);
    }
    if vi < |vs| {
      var step := NormalStep(ds, vs, vi, routes, normals);
      assert r == NormalPhase(ds, vs, vi + 1, step.0, step.1);
      assert FilledWithin(ds, vs[vi], Base(routes, vi), step.0[vi]) && AllNormal(step.1)
        && forall j :: vi < j ==> Base(step.0, j) == Base(routes, j) by {
        NormalStepFills(ds, vs, vi, routes, normals);
      }
      assert r[vi] == step.0[vi] by {
        NormalPhaseShape(ds, vs, vi + 1, step.0, step.1);
      }
      assert forall j :: vi + 1 <= j < |vs| ==> FilledWithin(ds, vs[j], Base(step.0, j), r[j]) by {
        NormalPhaseFills(ds, vs, vi + 1, step.0, step.1);
      }
    }
  }

  /** Nothing but the given normals is added. */
  lemma {:induction false} NormalPhaseAdds(ds: seq<Delivery>, vs: seq<Vehicle>, vi: nat,
                                           routes: seq<seq<Delivery>>, normals: seq<Delivery>)
    requires vi <= |vs| && vi <= |routes| <= |vs|
    ensures multiset(Flatten(NormalPhase(ds, vs, vi, routes, normals)))
              <= multiset(Flatten(routes)) + multiset(normals)
    decreases |vs| - vi
  {
    if vi < |vs| {
      var rs := if vi == |routes| then routes + [[]] else routes;
      var base := rs[vi];
      var cap := vs[vi].maxCapacity;
      var w := CurrentWeight(ds, base);
      var f := Fill(cap, w, normals, normals);
      var added := f.0;
      var next := rs[vi := base + added];
      assert (next, f.1) == NormalStep(ds, vs, vi, routes, normals);
      assert multiset(added) + multiset(f.1) == multiset(normals) by {
        FillMoves(cap, w, normals, normals);
      }
      assert multiset(Flatten(rs)) == multiset(Flatten(routes)) by {
        if vi == |routes| {
          FlattenConcat(routes, [[]]);
          FlattenSingle<Delivery>([]);
        }
      }
      assert multiset(Flatten(next)) == multiset(Flatten(routes)) + multiset(added) by {
        FlattenUpdateMultiset(rs, vi, base + added);
        assert multiset(base + added) == multiset(base) + multiset(added);
        MultisetCancel(multiset(Flatten(next)), multiset(Flatten(routes)) + multiset(added), multiset(base));
      }
      NormalPhaseAdds(ds, vs, vi + 1, next, f.1);
    }
  }

  /** The two list comprehensions that split the input by priority. */
  function Criticals(ds: seq<Delivery>): (r: seq<Delivery>)
  {
    Filter(ds, IsCritical)
  }

  predicate IsNormal(d: Delivery)
  {
    !IsCritical(d)
  }

  function Normals(ds: seq<Delivery>): (r: seq<Delivery>)
  {
    Filter(ds, IsNormal)
  }

  /** The split is a partition: criticals on one side, the rest on the
      other, and together exactly the input. */
  lemma PriorityPartition(ds: seq<Delivery>)
    ensures forall i :: 0 <= i < |Criticals(ds)| ==> IsCritical(Criticals(ds)[i])
    ensures AllNormal(Normals(ds))
    ensures multiset(Criticals(ds)) + multiset(Normals(ds)) == multiset(ds)
  {
    FilterSplit(ds, IsCritical, IsNormal);
  }

  /** `PriorityFirstInitializationStrategy.generate_individual`, as lists
      of deliveries. */
  function PriorityFirstPlan(ds: seq<Delivery>, vs: seq<Vehicle>): (r: seq<seq<Delivery>>)
  {
    NormalPhase(ds, vs, 0, CriticalPhase(vs, 0, Criticals(ds)).0, Normals(ds))
  }

  function PriorityFirstIndividual(ds: seq<Delivery>, vs: seq<Vehicle>): (r: Routes)
  {
    IdRoutes(PriorityFirstPlan(ds, vs))
  }

  /** The deliveries on the critical routes are criticals. */
  lemma CriticalRoutesAreCritical(ds: seq<Delivery>, vs: seq<Vehicle>, j: nat)
    ensures forall i :: 0 <= i < |Base(CriticalPhase(vs, 0, Criticals(ds)).0, j)| ==>
              IsCritical(Base(CriticalPhase(vs, 0, Criticals(ds)).0, j)[i])
  {
    var crits := Criticals(ds);
    var cp := CriticalPhase(vs, 0, crits);
    var base := Base(cp.0, j);
    if j < |cp.0| {
      assert Flatten(cp.0) + cp.1 == crits by {
        CriticalPhaseSplits(vs, 0, crits);
      }
      forall i | 0 <= i < |base|
        ensures IsCritical(base[i])
      {
        InFlattenGeneric(cp.0, j, i);
        assert base[i] in crits;
      }
    }
  }

  /** The individual has one route per vehicle. The first loop appends
      only the vehicles' non-empty routes, so route j starts with the j-th
      non-empty critical route, which may have been built by a later
      vehicle, or with nothing when the loop built fewer; normals that fit
      vehicle j's capacity follow. */
  lemma PriorityFirstRoutes(ds: seq<Delivery>, vs: seq<Vehicle>)
    ensures var plan := PriorityFirstPlan(ds, vs);
      var critRoutes := CriticalPhase(vs, 0, Criticals(ds)).0;
      && |plan| == |vs| == |PriorityFirstIndividual(ds, vs)|
      && (forall j :: 0 <= j < |critRoutes| ==> |critRoutes[j]| > 0)
      && forall j :: 0 <= j < |vs| ==> FilledWithin(ds, vs[j], Base(critRoutes, j), plan[j])
  {
    CriticalPhaseSplits(vs, 0, Criticals(ds));
    assert AllNormal(Normals(ds)) by {
      PriorityPartition(ds);
    }
    NormalPhaseFills(ds, vs, 0, CriticalPhase(vs, 0, Criticals(ds)).0, Normals(ds));
  }

  /** No route of the individual carries a critical after a normal delivery. */
  lemma PriorityFirstCriticalsLead(ds: seq<Delivery>, vs: seq<Vehicle>, j: nat)
    requires j < |PriorityFirstPlan(ds, vs)|
    ensures CriticalsLead(PriorityFirstPlan(ds, vs)[j])
  {
    var plan := PriorityFirstPlan(ds, vs);
    var base := Base(CriticalPhase(vs, 0, Criticals(ds)).0, j);
    assert j < |vs| && FilledWithin(ds, vs[j], base, plan[j]) by {
      PriorityFirstRoutes(ds, vs);
    }
    assert forall i :: 0 <= i < |base| ==> IsCritical(base[i]) by {
      CriticalRoutesAreCritical(ds, vs, j);
    }
    FilledLead(ds, vs[j], base, plan[j]);
  }

  /** A filled route whose base is all criticals has its criticals first. */
  lemma FilledLead(ds: seq<Delivery>, v: Vehicle, base: seq<Delivery>, route: seq<Delivery>)
    requires FilledWithin(ds, v, base, route)
    requires forall i :: 0 <= i < |base| ==> IsCritical(base[i])
    ensures CriticalsLead(route)
  {
    assert route == base + route[|base|..];
    NormalsKeepLead(base, route[|base|..]);
  }

  /** Every delivery is placed at most once. */
  lemma PriorityFirstPlacesAtMostOnce(ds: seq<Delivery>, vs: seq<Vehicle>)
    ensures multiset(Flatten(PriorityFirstPlan(ds, vs))) <= multiset(ds)
  {
    var crits := Criticals(ds);
    var normals := Normals(ds);
    var critRoutes := CriticalPhase(vs, 0, crits).0;
    var plan := PriorityFirstPlan(ds, vs);
    assert multiset(Flatten(critRoutes)) <= multiset(crits) by {
      CriticalPhaseSplits(vs, 0, crits);
      assert multiset(crits) == multiset(Flatten(critRoutes)) + multiset(CriticalPhase(vs, 0, crits).1);
    }
    assert multiset(Flatten(plan)) <= multiset(Flatten(critRoutes)) + multiset(normals) by {
      CriticalPhaseSplits(vs, 0, crits);
      NormalPhaseAdds(ds, vs, 0, critRoutes, normals);
    }
    assert multiset(crits) + multiset(normals) == multiset(ds) by {
      PriorityPartition(ds);
    }
  }

  /** With unique input ids, no id repeats in the individual. */
  lemma PriorityFirstDistinct(ds: seq<Delivery>, vs: seq<Vehicle>)
    requires DistinctIds(ds)
    ensures Distinct(Flatten(PriorityFirstIndividual(ds, vs)))
  {
    var plan := PriorityFirstPlan(ds, vs);
    assert multiset(Flatten(plan)) <= multiset(ds) by {
      PriorityFirstPlacesAtMostOnce(ds, vs);
    }
    FlattenIdRoutes(plan);
    SubMultisetDistinctIds(Flatten(plan), ds);
  }
}
