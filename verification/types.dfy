/** The shapes of core/interfaces.py: deliveries, vehicle constraints and
    route solutions, plus the two ways the source finds a delivery by id.
    A Python dict built as `{d.id: d for d in deliveries}` keeps the LAST
    delivery with a given id; `next(d for d in deliveries if d.id == x)`
    returns the FIRST. Both are modelled, and they agree when ids are
    distinct. */
module Types {
  import opened Wrappers
  import opened Seqs

  type Id = string

  /** A (latitude, longitude) pair. */
  datatype Point = Point(lat: real, lon: real)

  datatype Delivery = Delivery(
    id: Id,
    location: Point,
    priority: int,
    weight: real,
    windowStart: Option<real>,
    windowEnd: Option<real>,
    serviceTime: real)

  datatype Vehicle = Vehicle(
    maxCapacity: real,
    maxRange: real,
    fuelCostPerKm: real,
    driverCostPerHour: real)

  /** A route is a list of delivery ids; route i is driven by vehicle i. */
  type Route = seq<Id>
  type Routes = seq<Route>

  /** The `violations` dict of a solution: the two keys every optimizer fills. */
  datatype Violations = Violations(capacity: real, autonomy: real)

  /** `RouteSolution`; `metadata` carries nothing the model reads. */
  datatype Solution = Solution(
    routes: Routes,
    totalDistance: real,
    totalCost: real,
    fitness: real,
    violations: Violations)

  /** `OptimizationResult` without the wall-clock time, the echoed
      configuration and the free-form statistics. */
  datatype OptimizationResult = OptimizationResult(
    solution: Solution,
    generationsEvolved: nat,
    history: seq<real>)

  /** `OptimizationConfig`, the settings every optimizer receives. */
  datatype OptimizationConfig = OptimizationConfig(
    populationSize: int,
    generations: int,
    crossoverRate: real,
    mutationRate: real,
    eliteSize: int,
    maxVehicles: int,
    maxIterationsWithoutImprovement: Option<int>)

  /** `OptimizationConfig()` with every default. */
  const DefaultOptimizationConfig := OptimizationConfig(100, 200, 0.8, 0.2, 10, 5, None)

  /** A pairwise distance table keyed by (from, to) strings. */
  type Matrix = map<(string, string), real>

  /** The dict comprehension `{d.id: d for d in deliveries}`. */
  function Index(ds: seq<Delivery>): (m: map<Id, Delivery>)
  {
    if |ds| == 0 then map[]
    else Index(ds[..|ds| - 1])[ds[|ds| - 1].id := ds[|ds| - 1]]
  }

  /** The dict's keys are the ids of the list, and each key maps to a
      delivery of the list carrying that id. */
  lemma {:induction false} IndexKeys(ds: seq<Delivery>)
    ensures forall id :: id in Index(ds) <==> exists i :: 0 <= i < |ds| && ds[i].id == id
    ensures forall id :: id in Index(ds) ==> Index(ds)[id].id == id && Index(ds)[id] in ds
  {
    if |ds| > 0 {
      var init := ds[..|ds| - 1];
      IndexKeys(init);
      assert forall i :: 0 <= i < |init| ==> init[i] == ds[i];
    }
  }

  /** Adding one more delivery to the list writes one more dict entry. */
  lemma IndexSnoc(ds: seq<Delivery>, j: nat)
    requires j < |ds|
    ensures Index(ds[..j + 1]) == Index(ds[..j])[ds[j].id := ds[j]]
  {
    assert ds[..j + 1][..j] == ds[..j];
  }

  /** The dict keeps the last delivery carrying each id. */
  lemma {:induction false} IndexIsLast(ds: seq<Delivery>, i: nat)
    requires i < |ds|
    requires forall j :: i < j < |ds| ==> ds[j].id != ds[i].id
    ensures ds[i].id in Index(ds) && Index(ds)[ds[i].id] == ds[i]
  {
    if i < |ds| - 1 {
      IndexIsLast(ds[..|ds| - 1], i);
    }
  }

  predicate DistinctIds(ds: seq<Delivery>)
  {
    forall i, j :: 0 <= i < j < |ds| ==> ds[i].id != ds[j].id
  }

  /** `next((d for d in deliveries if d.id == x), None)`. */
  function FindFirst(ds: seq<Delivery>, id: Id): (r: Option<Delivery>)
    ensures r.None? <==> forall i :: 0 <= i < |ds| ==> ds[i].id != id
    ensures r.Some? ==> exists i :: 0 <= i < |ds| && ds[i] == r.value && ds[i].id == id
                          && forall j :: 0 <= j < i ==> ds[j].id != id
  {
    if |ds| == 0 then None
    else if ds[0].id == id then Some(ds[0])
    else
      var r := FindFirst(ds[1..], id);
      if r.Some? then
        var i :| 0 <= i < |ds[1..]| && ds[1..][i] == r.value && ds[1..][i].id == id
                 && forall j :: 0 <= j < i ==> ds[1..][j].id != id;
        assert ds[i + 1] == r.value && forall j :: 0 <= j < i + 1 ==> ds[j].id != id;
        r
      else r
  }

  /** With distinct ids the first match and the dict entry are the same delivery. */
  lemma FindFirstAgreesWithIndex(ds: seq<Delivery>, id: Id)
    requires DistinctIds(ds)
    ensures FindFirst(ds, id).Some? <==> id in Index(ds)
    ensures id in Index(ds) ==> FindFirst(ds, id).value == Index(ds)[id]
  {
    IndexKeys(ds);
    var r := FindFirst(ds, id);
    if r.Some? {
      var i :| 0 <= i < |ds| && ds[i] == r.value && ds[i].id == id;
      IndexIsLast(ds, i);
    }
  }

  /** `[d.id for d in ds]`. */
  function Ids(ds: seq<Delivery>): (r: seq<Id>)
    ensures |r| == |ds|
    ensures forall i :: 0 <= i < |ds| ==> r[i] == ds[i].id
  {
    seq(|ds|, i requires 0 <= i < |ds| => ds[i].id)
  }

  lemma IdsConcat(a: seq<Delivery>, b: seq<Delivery>)
    ensures Ids(a + b) == Ids(a) + Ids(b)
  {
  }

  /** The id lists of lists of deliveries. */
  function IdRoutes(plan: seq<seq<Delivery>>): (r: Routes)
    ensures |r| == |plan|
    ensures forall i :: 0 <= i < |plan| ==> r[i] == Ids(plan[i])
  {
    seq(|plan|, i requires 0 <= i < |plan| => Ids(plan[i]))
  }

  /** The number of non-empty routes: the vehicles a plan puts to use. */
  function Used(routes: Routes): (n: nat)
    ensures n <= |routes|
  {
    if |routes| == 0 then 0 else (if |routes[0]| > 0 then 1 else 0) + Used(routes[1..])
  }

  /** No vehicle is used exactly when every route is empty, and all of
      them exactly when none is. */
  lemma {:induction false} UsedCounts(routes: Routes)
    ensures Used(routes) == 0 <==> forall i :: 0 <= i < |routes| ==> |routes[i]| == 0
    ensures Used(routes) == |routes| <==> forall i :: 0 <= i < |routes| ==> |routes[i]| > 0
  {
    if |routes| > 0 {
      var rest := routes[1..];
      UsedCounts(rest);
      assert forall i :: 1 <= i < |routes| ==> routes[i] == rest[i - 1];
    }
  }

  lemma UsedCons(r: Route, rest: Routes)
    ensures Used([r] + rest) == (if |r| > 0 then 1 else 0) + Used(rest)
  {
    assert ([r] + rest)[1..] == rest;
  }

  lemma {:induction false} FlattenIdRoutes(plan: seq<seq<Delivery>>)
    ensures Flatten(IdRoutes(plan)) == Ids(Flatten(plan))
  {
    if |plan| > 0 {
      FlattenIdRoutes(plan[1..]);
      assert IdRoutes(plan)[1..] == IdRoutes(plan[1..]);
      IdsConcat(plan[0], Flatten(plan[1..]));
    }
  }

  /** `sum(d.weight for d in ds)`. */
  function WeightSum(ds: seq<Delivery>): real
  {
    SumOf(ds, (d: Delivery) => d.weight)
  }

  /** A sub-multiset of a list with distinct ids has distinct ids. */
  lemma SubMultisetDistinctIds(xs: seq<Delivery>, ds: seq<Delivery>)
    requires multiset(xs) <= multiset(ds) && DistinctIds(ds)
    ensures Distinct(Ids(xs))
  {
    forall a, b | 0 <= a < b < |xs|
      ensures xs[a].id != xs[b].id
    {
      SubMultisetDistinctPair(xs, ds, a, b);
    }
  }

  /** Every id of a sub-multiset is an id of the whole. */
  lemma SubMultisetIdsIn(xs: seq<Delivery>, ds: seq<Delivery>)
    requires multiset(xs) <= multiset(ds)
    ensures forall i :: 0 <= i < |xs| ==> Ids(xs)[i] in Ids(ds)
  {
    forall i | 0 <= i < |xs|
      ensures xs[i].id in Ids(ds)
    {
      assert xs[i] in multiset(ds);
      var k :| 0 <= k < |ds| && ds[k] == xs[i];
      assert Ids(ds)[k] == xs[i].id;
    }
  }

  lemma SubMultisetDistinctPair(xs: seq<Delivery>, ds: seq<Delivery>, a: nat, b: nat)
    requires multiset(xs) <= multiset(ds) && DistinctIds(ds)
    requires a < b < |xs|
    ensures xs[a].id != xs[b].id
  {
    assert xs[a] in multiset(ds) && xs[b] in multiset(ds);
    var i :| 0 <= i < |ds| && ds[i] == xs[a];
    var j :| 0 <= j < |ds| && ds[j] == xs[b];
    if i == j {
      assert multiset(xs)[xs[a]] >= 2 by {
        TwoPositionsCount(xs, a, b);
      }
      DistinctIdsMultiset(ds, i);
      assert false;
    }
  }

  lemma TwoPositionsCount<T>(xs: seq<T>, a: nat, b: nat)
    requires a < b < |xs| && xs[a] == xs[b]
    ensures multiset(xs)[xs[a]] >= 2
  {
    assert xs == xs[..a] + [xs[a]] + xs[a + 1..b] + [xs[b]] + xs[b + 1..];
  }

  lemma {:induction false} DistinctIdsMultiset(ds: seq<Delivery>, i: nat)
    requires DistinctIds(ds) && i < |ds|
    ensures multiset(ds)[ds[i]] == 1
  {
    var x := ds[i];
    assert ds == ds[..i] + [x] + ds[i + 1..];
    assert x !in ds[..i] && x !in ds[i + 1..];
    assert multiset(ds[..i])[x] == 0 && multiset(ds[i + 1..])[x] == 0;
  }

  /** `delivery_dict[x].weight if x in delivery_dict`, else nothing. */
  function WeightOf(m: map<Id, Delivery>, id: Id): real
  {
    if id in m then m[id].weight else 0.0
  }

  /** `sum(delivery_dict[x].weight for x in route if x in delivery_dict)`:
      unknown ids weigh nothing and a repeated id is weighed each time. */
  function Load(m: map<Id, Delivery>, route: Route): real
  {
    SumOf(route, id => WeightOf(m, id))
  }

  lemma LoadConcat(m: map<Id, Delivery>, a: Route, b: Route)
    ensures Load(m, a + b) == Load(m, a) + Load(m, b)
  {
    SumOfConcat(a, b, id => WeightOf(m, id));
  }

  lemma LoadAppend(m: map<Id, Delivery>, a: Route, x: Id)
    ensures Load(m, a + [x]) == Load(m, a) + WeightOf(m, x)
  {
    LoadConcat(m, a, [x]);
    SumOfSingle(x, id => WeightOf(m, id));
  }

  /** A load is the same whatever the order of the ids. */
  lemma LoadPermutation(m: map<Id, Delivery>, a: Route, b: Route)
    requires multiset(a) == multiset(b)
    ensures Load(m, a) == Load(m, b)
  {
    SumOfPermutation(a, b, id => WeightOf(m, id));
  }

  predicate NonNegativeDeliveryWeights(m: map<Id, Delivery>)
  {
    forall id :: id in m ==> m[id].weight >= 0.0
  }

  lemma LoadNonNegative(m: map<Id, Delivery>, route: Route)
    requires NonNegativeDeliveryWeights(m)
    ensures Load(m, route) >= 0.0
  {
    SumOfNonNegative(route, id => WeightOf(m, id));
  }

  /** Loading a route only with unknown ids weighs nothing. */
  lemma LoadOfUnknown(m: map<Id, Delivery>, route: Route)
    requires forall i :: 0 <= i < |route| ==> route[i] !in m
    ensures Load(m, route) == 0.0
  {
    SumOfZero(route, id => WeightOf(m, id));
  }

  /** The set of all ids in a solution's routes. */
  function IdSet(routes: Routes): set<Id>
  {
    set r, x | r in routes && x in r :: x
  }

  lemma IdSetFlatten(routes: Routes)
    ensures forall x :: x in IdSet(routes) <==> x in Flatten(routes)
  {
    forall x
      ensures x in IdSet(routes) <==> x in Flatten(routes)
    {
      InFlatten(routes, x);
    }
  }

  lemma {:induction false} InFlatten(routes: Routes, x: Id)
    ensures x in Flatten(routes) <==> exists r :: r in routes && x in r
  {
    if |routes| > 0 {
      InFlatten(routes[1..], x);
      assert forall r :: r in routes <==> r == routes[0] || r in routes[1..];
    }
  }
}
