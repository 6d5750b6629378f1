/** Distances. Two families live in the source:

    - utils/distance.py works on coordinates through the geodesic oracle
      `calculate_distance`, here the parameter `geo`;
    - the optimizers keep a dict keyed by (id, id) pairs, with the depot
      under the key "depot", and read it with `.get(key, 0.0)`. */
module Distance {
  import opened Seqs
  import opened Types

  /** The geodesic distance in kilometres; never inspected by the model. */
  type Metric = (Point, Point) -> real

  const DepotKey: string := "depot"

  // ------------------------------------------------- utils/distance.py

  /** `calculate_distance_matrix`: every ordered pair of indices, with the
      oracle off the diagonal and 0.0 on it. */
  method PointMatrix(points: seq<Point>, geo: Metric) returns (m: map<(nat, nat), real>)
    ensures forall i: nat, j: nat :: (i, j) in m <==> i < |points| && j < |points|
    ensures forall i: nat, j: nat :: i < |points| && j < |points| ==>
              m[(i, j)] == if i == j then 0.0 else geo(points[i], points[j])
  {
    var n := |points|;
    m := map[];
    var i := 0;
    while i < n
      invariant 0 <= i <= n
      invariant forall a: nat, b: nat :: (a, b) in m <==> a < i && b < n
      invariant forall a: nat, b: nat :: a < i && b < n ==>
                  m[(a, b)] == if a == b then 0.0 else geo(points[a], points[b])
    {
      var j := 0;
      while j < n
        invariant 0 <= j <= n
        invariant forall a: nat, b: nat :: (a, b) in m <==> (a < i && b < n) || (a == i && b < j)
        invariant forall a: nat, b: nat :: ((a < i && b < n) || (a == i && b < j)) ==>
                    m[(a, b)] == if a == b then 0.0 else geo(points[a], points[b])
      {
        if i != j {
          m := m[(i, j) := geo(points[i], points[j])];
        } else {
          m := m[(i, j) := 0.0];
        }
        j := j + 1;
      }
      i := i + 1;
    }
  }

  /** The sum of consecutive legs of a path of points. */
  function Legs(route: seq<Point>, geo: Metric): real
  {
    if |route| < 2 then 0.0 else geo(route[0], route[1]) + Legs(route[1..], geo)
  }

  /** `calculate_route_distance`, as the loop the source runs. */
  method PathLength(route: seq<Point>, returnToStart: bool, geo: Metric) returns (total: real)
    ensures |route| < 2 ==> total == 0.0
    ensures |route| >= 2 && !(returnToStart && |route| > 2) ==> total == Legs(route, geo)
    ensures returnToStart && |route| > 2 ==>
              total == Legs(route, geo) + geo(route[|route| - 1], route[0])
  {
    if |route| < 2 {
      return 0.0;
    }
    total := 0.0;
    var i := 0;
    while i < |route| - 1
      invariant 0 <= i <= |route| - 1
      invariant total + Legs(route[i..], geo) == Legs(route, geo)
    {
      assert route[i..][1..] == route[i + 1..];
      total := total + geo(route[i], route[i + 1]);
      i := i + 1;
    }
    if returnToStart && |route| > 2 {
      total := total + geo(route[|route| - 1], route[0]);
    }
  }

  lemma {:induction false} LegsAppend(route: seq<Point>, q: Point, geo: Metric)
    requires |route| > 0
    ensures Legs(route + [q], geo) == Legs(route, geo) + geo(route[|route| - 1], q)
  {
    if |route| == 1 {
      assert (route + [q])[1..] == [q];
    } else {
      assert (route + [q])[1..] == route[1..] + [q];
      LegsAppend(route[1..], q, geo);
    }
  }

  /** A two-point path is one-way even when asked to return to the start. */
  lemma TwoPointPathIsOneWay(p: Point, q: Point, geo: Metric)
    ensures Legs([p, q], geo) == geo(p, q)
  {
    assert [p, q][1..] == [q];
  }

  lemma {:induction false} LegsNonNegative(route: seq<Point>, geo: Metric)
    requires forall p, q :: geo(p, q) >= 0.0
    ensures Legs(route, geo) >= 0.0
  {
    if |route| >= 2 {
      LegsNonNegative(route[1..], geo);
    }
  }

  // ------------------------------------------ id-keyed optimizer matrices

  /** `distance_matrix.get((a, b), 0.0)`. */
  function Get(mat: Matrix, a: string, b: string): real
  {
    if (a, b) in mat then mat[(a, b)] else 0.0
  }

  /** The legs between consecutive ids of a path. */
  function IdLegs(mat: Matrix, path: seq<string>): real
  {
    if |path| < 2 then 0.0 else Get(mat, path[0], path[1]) + IdLegs(mat, path[1..])
  }

  /** `_calculate_route_distance`: depot to the first id, consecutive legs,
      and the last id back to the depot; an empty route costs nothing. */
  function TripDistance(mat: Matrix, route: Route): real
  {
    if |route| == 0 then 0.0
    else Get(mat, DepotKey, route[0]) + IdLegs(mat, route) + Get(mat, route[|route| - 1], DepotKey)
  }

  lemma {:induction false} IdLegsConcat(mat: Matrix, a: seq<string>, b: seq<string>)
    requires |a| > 0 && |b| > 0
    ensures IdLegs(mat, a + b) == IdLegs(mat, a) + Get(mat, a[|a| - 1], b[0]) + IdLegs(mat, b)
  {
    if |a| == 1 {
      assert (a + b)[1..] == b;
    } else {
      assert (a + b)[1..] == a[1..] + b;
      IdLegsConcat(mat, a[1..], b);
    }
  }

  /** A round trip is the path that starts and ends at the depot. */
  lemma TripIsClosedPath(mat: Matrix, route: Route)
    requires |route| > 0
    ensures TripDistance(mat, route) == IdLegs(mat, [DepotKey] + route + [DepotKey])
  {
    IdLegsConcat(mat, [DepotKey], route);
    IdLegsConcat(mat, [DepotKey] + route, [DepotKey]);
    assert ([DepotKey] + route)[|route|] == route[|route| - 1];
  }

  lemma {:induction false} IdLegsNonNegative(mat: Matrix, path: seq<string>)
    requires forall k :: k in mat ==> mat[k] >= 0.0
    ensures IdLegs(mat, path) >= 0.0
  {
    if |path| >= 2 {
      IdLegsNonNegative(mat, path[1..]);
    }
  }

  /** `sum(_calculate_route_distance(r) for r in routes)`. */
  function TotalDistance(mat: Matrix, routes: Routes): real
  {
    SumOf(routes, r => TripDistance(mat, r))
  }

  lemma TotalDistanceNonNegative(mat: Matrix, routes: Routes)
    requires forall k :: k in mat ==> mat[k] >= 0.0
    ensures TotalDistance(mat, routes) >= 0.0
  {
    forall i | 0 <= i < |routes|
      ensures TripDistance(mat, routes[i]) >= 0.0
    {
      IdLegsNonNegative(mat, routes[i]);
    }
    SumOfNonNegative(routes, r => TripDistance(mat, r));
  }

  lemma TotalDistanceAppend(mat: Matrix, routes: Routes, r: Route)
    ensures TotalDistance(mat, routes + [r]) == TotalDistance(mat, routes) + TripDistance(mat, r)
  {
    SumOfConcat(routes, [r], r => TripDistance(mat, r));
    SumOfSingle(r, r => TripDistance(mat, r));
  }

  /** Reordering whole routes does not change the total. */
  lemma TotalDistancePermutation(mat: Matrix, a: Routes, b: Routes)
    requires multiset(a) == multiset(b)
    ensures TotalDistance(mat, a) == TotalDistance(mat, b)
  {
    SumOfPermutation(a, b, r => TripDistance(mat, r));
  }
}
