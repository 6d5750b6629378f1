/** `LocalSearch` of optimization/local_search.py: 2-opt inside each route,
    a bounded load-balancing pass between routes, and the improvement loop
    that keeps a rebuilt solution only when the fitness calculator scores it
    strictly lower. The random pick of `_balance_loads` is a parameter. */
module LocalSearch {
  import opened Wrappers
  import opened Seqs
  import opened Types
  import opened Distance
  import Fitness

  /** `cost_per_km` of `_calculate_total_cost`. */
  const CostPerKm: real := 2.5

  /** Attempts `_balance_loads` makes at most. */
  const Attempts: nat := 10

  /** Slack over the mean load under which the routes count as balanced. */
  const Tolerance: real := 1.1

  // ------------------------------------------------------------ 2-opt

  /** `best_route[:i] + best_route[i:j][::-1] + best_route[j:]`. */
  function Candidate(route: Route, i: nat, j: nat): Route
    requires i <= j <= |route|
  {
    route[..i] + Reversed(route[i..j]) + route[j..]
  }

  /** A pair the double loop visits: `i in range(1, len - 2)`,
      `j in range(i + 1, len)` without `j == i + 1`. */
  predicate Pair(route: Route, i: nat, j: nat)
  {
    1 <= i && i + 2 <= j < |route|
  }

  /** The reversal of `route[i:j]` shortens the round trip. */
  predicate Improving(mat: Matrix, route: Route, i: nat, j: nat)
  {
    Pair(route, i, j) && TripDistance(mat, Candidate(route, i, j)) < TripDistance(mat, route)
  }

  /** The pair (i', j') comes before (i, j) in the loop order. */
  predicate Before(i': nat, j': nat, i: nat, j: nat)
  {
    i' < i || (i' == i && j' < j)
  }

  /** The inner loop from j on: the first improving j for this i. */
  function ScanJ(mat: Matrix, route: Route, i: nat, j: nat): (k: Option<nat>)
    requires 1 <= i && i + 2 <= j
    ensures k.Some? ==> j <= k.value && Improving(mat, route, i, k.value)
    ensures k.Some? ==> forall j' :: j <= j' < k.value ==> !Improving(mat, route, i, j')
    ensures k.None? ==> forall j' :: j <= j' ==> !Improving(mat, route, i, j')
    decreases |route| - j
  {
    if j >= |route| then None
    else if TripDistance(mat, Candidate(route, i, j)) < TripDistance(mat, route) then Some(j)
    else ScanJ(mat, route, i, j + 1)
  }

  /** The outer loop from i on: the first improving pair in loop order. */
  function ScanI(mat: Matrix, route: Route, i: nat): (p: Option<(nat, nat)>)
    requires 1 <= i
    ensures p.Some? ==> i <= p.value.0 && Improving(mat, route, p.value.0, p.value.1)
    ensures p.Some? ==> forall i', j' :: i <= i' && Before(i', j', p.value.0, p.value.1) ==>
                          !Improving(mat, route, i', j')
    ensures p.None? ==> forall i', j' :: i <= i' ==> !Improving(mat, route, i', j')
    decreases |route| - i
  {
    if i + 2 >= |route| then None
    else match ScanJ(mat, route, i, i + 2) {
      case Some(j) => Some((i, j))
      case None => ScanI(mat, route, i + 1)
    }
  }

  /** One sweep of the `while improved` loop: the first improving pair. */
  function FirstImproving(mat: Matrix, route: Route): Option<(nat, nat)>
  {
    ScanI(mat, route, 1)
  }

  /** None exactly when no reversal the loop tries shortens the route. */
  lemma FirstImprovingNone(mat: Matrix, route: Route)
    ensures FirstImproving(mat, route).None? <==> forall i, j :: !Improving(mat, route, i, j)
  {
    var p := FirstImproving(mat, route);
    if p.Some? {
      assert Improving(mat, route, p.value.0, p.value.1);
    }
  }

  /** A reversal keeps the ids, the length and both ends of the route. */
  lemma CandidateKeeps(route: Route, i: nat, j: nat)
    requires Pair(route, i, j)
    ensures multiset(Candidate(route, i, j)) == multiset(route)
    ensures |Candidate(route, i, j)| == |route|
    ensures Candidate(route, i, j)[0] == route[0]
    ensures Candidate(route, i, j)[|route| - 1] == route[|route| - 1]
  {
    ReversedMultiset(route[i..j]);
    assert route == route[..i] + route[i..j] + route[j..];
  }

  /** Every sequence of length n over the letters a. */
  ghost function Words<T>(a: set<T>, n: nat): set<seq<T>>
  {
    if n == 0 then {[]} else set x, w | x in a && w in Words(a, n - 1) :: [x] + w
  }

  lemma {:induction false} InWords<T>(a: set<T>, s: seq<T>)
    requires forall i :: 0 <= i < |s| ==> s[i] in a
    ensures s in Words(a, |s|)
  {
    if |s| > 0 {
      InWords(a, s[1..]);
      assert s == [s[0]] + s[1..];
    }
  }

  lemma {:induction false} SubsetCard<T>(a: set<T>, b: set<T>)
    requires a <= b
    ensures |a| <= |b|
    decreases a
  {
    if a != {} {
      var x :| x in a;
      SubsetCard(a - {x}, b - {x});
    }
  }

  lemma ProperSubsetCard<T>(a: set<T>, b: set<T>)
    requires a < b
    ensures |a| < |b|
  {
    assert b - a != {};
    var x :| x in b - a;
    SubsetCard(a, b - {x});
  }

  /** The rearrangements of a route that are strictly shorter than it: a
      finite set that every accepted reversal shrinks. */
  ghost function Shorter(mat: Matrix, route: Route): set<Route>
  {
    set p | p in Words(set x | x in route, |route|) && TripDistance(mat, p) < TripDistance(mat, route)
  }

  /** Moving to a shorter rearrangement strictly shrinks the set of
      shorter rearrangements, which is why the `while improved` loop ends. */
  lemma ShorterShrinks(mat: Matrix, route: Route, c: Route)
    requires multiset(c) == multiset(route)
    requires TripDistance(mat, c) < TripDistance(mat, route)
    ensures |Shorter(mat, c)| < |Shorter(mat, route)|
  {
    assert |c| == |multiset(c)| == |route|;
    assert forall x :: x in c <==> x in multiset(c);
    assert forall x :: x in route <==> x in multiset(route);
    var a := set x | x in route;
    assert (set x | x in c) == a;
    InWords(a, c);
    assert c in Shorter(mat, route);
    assert Shorter(mat, c) < Shorter(mat, route);
    ProperSubsetCard(Shorter(mat, c), Shorter(mat, route));
  }

  /** The `while improved` loop: take the first improving reversal and
      rescan until none is left. */
  function Descend(mat: Matrix, route: Route): (r: Route)
    ensures multiset(r) == multiset(route) && |r| == |route|
    ensures |route| > 0 ==> r[0] == route[0] && r[|r| - 1] == route[|route| - 1]
    ensures TripDistance(mat, r) <= TripDistance(mat, route)
    ensures r == route || TripDistance(mat, r) < TripDistance(mat, route)
    ensures FirstImproving(mat, r).None?
    decreases |Shorter(mat, route)|
  {
    match FirstImproving(mat, route) {
      case None => route
      case Some((i, j)) =>
        var c := Candidate(route, i, j);
        CandidateKeeps(route, i, j);
        ShorterShrinks(mat, route, c);
        Descend(mat, c)
    }
  }

  /** `_two_opt`: routes shorter than four ids come back as they are;
      otherwise the result is a rearrangement of the route with the same
      first and last id, no longer than it, strictly shorter when it
      differs, and no single reversal the loop tries shortens it further. */
  function TwoOpt(mat: Matrix, route: Route): (r: Route)
    ensures |route| < 4 ==> r == route
    ensures multiset(r) == multiset(route) && |r| == |route|
    ensures |route| > 0 ==> r[0] == route[0] && r[|r| - 1] == route[|route| - 1]
    ensures r == route || TripDistance(mat, r) < TripDistance(mat, route)
    ensures |route| >= 4 ==> forall i, j :: !Improving(mat, r, i, j)
  {
    if |route| < 4 then route
    else
      var r := Descend(mat, route);
      FirstImprovingNone(mat, r);
      r
  }

  /** A route of four or more ids changes exactly when some reversal the
      loop tries shortens it. */
  lemma TwoOptChanges(mat: Matrix, route: Route)
    requires |route| >= 4
    ensures TwoOpt(mat, route) != route <==> exists i, j :: Improving(mat, route, i, j)
  {
    FirstImprovingNone(mat, route);
    if exists i, j :: Improving(mat, route, i, j) {
      var p := FirstImproving(mat, route).value;
      assert Descend(mat, route) == Descend(mat, Candidate(route, p.0, p.1));
      CandidateKeeps(route, p.0, p.1);
      assert TripDistance(mat, TwoOpt(mat, route)) < TripDistance(mat, route);
    }
  }

  /** 2-opt on every route of a solution. */
  function TwoOptAll(mat: Matrix, routes: Routes): (r: Routes)
    ensures |r| == |routes|
    ensures forall k :: 0 <= k < |routes| ==> r[k] == TwoOpt(mat, routes[k])
  {
    seq(|routes|, k requires 0 <= k < |routes| => TwoOpt(mat, routes[k]))
  }

  /** Route by route, `TwoOptAll` never lengthens the total. */
  lemma {:induction false} TwoOptAllNoLonger(mat: Matrix, routes: Routes)
    ensures TotalDistance(mat, TwoOptAll(mat, routes)) <= TotalDistance(mat, routes)
  {
    if |routes| > 0 {
      TwoOptAllNoLonger(mat, routes[1..]);
      assert TwoOptAll(mat, routes)[1..] == TwoOptAll(mat, routes[1..]);
    }
  }

  /** Route-by-route rearrangement keeps the ids of the whole solution. */
  lemma {:induction false} FlattenPointwise(a: Routes, b: Routes)
    requires |a| == |b|
    requires forall k :: 0 <= k < |a| ==> multiset(a[k]) == multiset(b[k])
    ensures multiset(Flatten(a)) == multiset(Flatten(b))
  {
    if |a| > 0 {
      FlattenPointwise(a[1..], b[1..]);
      assert multiset(a[0]) == multiset(b[0]);
    }
  }

  lemma TwoOptAllKeepsIds(mat: Matrix, routes: Routes)
    ensures multiset(Flatten(TwoOptAll(mat, routes))) == multiset(Flatten(routes))
  {
    FlattenPointwise(TwoOptAll(mat, routes), routes);
  }

  // -------------------------------------------------- load balancing

  /** `sum(route_loads) / len(route_loads)`. */
  function Mean(loads: seq<real>): real
    requires |loads| > 0
  {
    Sum(loads) / (|loads| as real)
  }

  /** No route is loaded above the tolerance over the mean. */
  predicate Balanced(loads: seq<real>)
    requires |loads| > 0
  {
    forall k :: 0 <= k < |loads| ==> loads[k] <= Mean(loads) * Tolerance
  }

  /** `new_routes[from].remove(id)` followed by `new_routes[to].append(id)`,
      in that order, so that a move onto the same route puts the id last. */
  function Move(nr: Routes, from: nat, to: nat, id: Id): (r: Routes)
    requires from < |nr| && to < |nr|
    ensures |r| == |nr|
  {
    var n1 := nr[from := RemoveFirst(nr[from], id)];
    n1[to := n1[to] + [id]]
  }

  /** Only the receiving route gains an id, and only one. */
  lemma MoveShape(nr: Routes, from: nat, to: nat, id: Id)
    requires from < |nr| && to < |nr|
    ensures forall k :: 0 <= k < |nr| && k != to ==> multiset(Move(nr, from, to, id)[k]) <= multiset(nr[k])
    ensures forall k :: 0 <= k < |nr| ==> |Move(nr, from, to, id)[k]| <= |nr[k]| + 1
  {
    var r := Move(nr, from, to, id);
    forall k | 0 <= k < |nr|
      ensures k != to ==> multiset(r[k]) <= multiset(nr[k])
      ensures |r[k]| <= |nr[k]| + 1
    {
      if k == from && k != to {
        assert r[k] == RemoveFirst(nr[from], id);
      }
    }
  }

  /** The two load updates of a move, in the source's order. */
  function Shift(loads: seq<real>, from: nat, to: nat, w: real): (r: seq<real>)
    requires from < |loads| && to < |loads|
    ensures |r| == |loads|
  {
    var l1 := loads[from := loads[from] - w];
    l1[to := l1[to] + w]
  }

  /** A move of an id of the giving route keeps the ids of the solution. */
  lemma MoveKeepsIds(nr: Routes, from: nat, to: nat, id: Id)
    requires from < |nr| && to < |nr| && id in nr[from]
    ensures multiset(Flatten(Move(nr, from, to, id))) == multiset(Flatten(nr))
  {
    var t := RemoveFirst(nr[from], id);
    var n1 := nr[from := t];
    var u := n1[to] + [id];
    FlattenUpdateMultiset(nr, from, t);
    ReplaceShrink(multiset(Flatten(n1)), multiset(Flatten(nr)), multiset(nr[from]), multiset(t), id);
    FlattenUpdateMultiset(n1, to, u);
    assert multiset(u) == multiset(n1[to]) + multiset{id};
    ReplaceGrow(multiset(Flatten(n1[to := u])), multiset(Flatten(n1)), multiset(n1[to]), multiset(u), id);
  }

  lemma LoadRemoveFirst(m: map<Id, Delivery>, route: Route, id: Id)
    requires id in route
    ensures Load(m, RemoveFirst(route, id)) == Load(m, route) - WeightOf(m, id)
  {
    LoadAppend(m, RemoveFirst(route, id), id);
    LoadPermutation(m, RemoveFirst(route, id) + [id], route);
  }

  /** The incremental load updates track the loads of the moved routes. */
  lemma MoveLoads(m: map<Id, Delivery>, nr: Routes, from: nat, to: nat, id: Id)
    requires from < |nr| && to < |nr| && id in nr[from]
    ensures Shift(Fitness.Loads(m, nr), from, to, WeightOf(m, id)) == Fitness.Loads(m, Move(nr, from, to, id))
  {
    var w := WeightOf(m, id);
    var n1 := nr[from := RemoveFirst(nr[from], id)];
    LoadRemoveFirst(m, nr[from], id);
    assert Fitness.Loads(m, nr)[from := Fitness.Loads(m, nr)[from] - w] == Fitness.Loads(m, n1);
    LoadAppend(m, n1[to], id);
  }

  /** `route_loads[max_idx] <= mean_load * 1.1` or an empty heaviest
      route: the loop breaks. */
  predicate Settled(nr: Routes, loads: seq<real>, mean: real)
    requires |loads| == |nr| > 0
  {
    var hi := ArgMaxFirst(loads);
    loads[hi] <= mean * Tolerance || |nr[hi]| == 0
  }

  /** One attempt: the giver is the first heaviest route, the receiver the
      first lightest; the id picked from the giver moves when it is known,
      the receiver has a vehicle and that vehicle has room for it. */
  function Attempt(m: map<Id, Delivery>, vs: seq<Vehicle>, nr: Routes, loads: seq<real>, choice: nat)
    : (r: (Routes, seq<real>))
    requires |loads| == |nr| > 0 && |nr[ArgMaxFirst(loads)]| > 0
    ensures |r.0| == |nr| && |r.1| == |loads|
  {
    var hi := ArgMaxFirst(loads);
    var lo := ArgMinFirst(loads);
    var id := nr[hi][choice % |nr[hi]|];
    if id in m && lo < |vs| && loads[lo] + m[id].weight <= vs[lo].maxCapacity then
      (Move(nr, hi, lo, id), Shift(loads, hi, lo, m[id].weight))
    else (nr, loads)
  }

  predicate SameIds(a: Routes, b: Routes)
  {
    multiset(Flatten(a)) == multiset(Flatten(b))
  }

  /** Going from `before` to `after`, a route without a vehicle gains no
      id and no route gains more than `slack` ids. */
  predicate Gained(vs: seq<Vehicle>, before: Routes, after: Routes, slack: int)
  {
    |after| == |before|
    && forall k :: 0 <= k < |before| ==>
         (k >= |vs| ==> multiset(after[k]) <= multiset(before[k])) && |after[k]| <= |before[k]| + slack
  }

  lemma GainedChain(vs: seq<Vehicle>, a: Routes, b: Routes, c: Routes, s: int, t: int)
    requires Gained(vs, a, b, s) && Gained(vs, b, c, t)
    ensures Gained(vs, a, c, s + t)
  {
    forall k | 0 <= k < |a|
      ensures (k >= |vs| ==> multiset(c[k]) <= multiset(a[k])) && |c[k]| <= |a[k]| + (s + t)
    {
      assert |c[k]| <= |b[k]| + t && |b[k]| <= |a[k]| + s;
      if k >= |vs| {
        assert multiset(c[k]) <= multiset(b[k]) <= multiset(a[k]);
      }
    }
  }

  /** An attempt keeps the ids between the routes. */
  lemma AttemptKeepsIds(m: map<Id, Delivery>, vs: seq<Vehicle>, nr: Routes, loads: seq<real>, choice: nat)
    requires |loads| == |nr| > 0 && |nr[ArgMaxFirst(loads)]| > 0
    ensures SameIds(Attempt(m, vs, nr, loads, choice).0, nr)
  {
    var hi := ArgMaxFirst(loads);
    var lo := ArgMinFirst(loads);
    var id := nr[hi][choice % |nr[hi]|];
    if id in m && lo < |vs| && loads[lo] + m[id].weight <= vs[lo].maxCapacity {
      MoveKeepsIds(nr, hi, lo, id);
    }
  }

  /** An attempt adds no id to a route without a vehicle and at most one
      to any route. */
  lemma AttemptGrowth(m: map<Id, Delivery>, vs: seq<Vehicle>, nr: Routes, loads: seq<real>, choice: nat)
    requires |loads| == |nr| > 0 && |nr[ArgMaxFirst(loads)]| > 0
    ensures Gained(vs, nr, Attempt(m, vs, nr, loads, choice).0, 1)
  {
    var hi := ArgMaxFirst(loads);
    var lo := ArgMinFirst(loads);
    var id := nr[hi][choice % |nr[hi]|];
    if id in m && lo < |vs| && loads[lo] + m[id].weight <= vs[lo].maxCapacity {
      MoveShape(nr, hi, lo, id);
    }
  }

  /** The `for _ in range(10)` loop from attempt a on, with the current
      routes and incrementally kept loads, against the fixed mean; the
      routes and loads it ends with. */
  function Rebalance(m: map<Id, Delivery>, vs: seq<Vehicle>, nr: Routes, loads: seq<real>, mean: real,
                     pick: nat -> nat, a: nat): (r: (Routes, seq<real>))
    requires |loads| == |nr| > 0 && a <= Attempts
    ensures |r.0| == |nr| && |r.1| == |loads|
    decreases Attempts - a
  {
    if a == Attempts || Settled(nr, loads, mean) then (nr, loads)
    else
      var next := Attempt(m, vs, nr, loads, pick(a));
      Rebalance(m, vs, next.0, next.1, mean, pick, a + 1)
  }

  lemma RebalanceUnfold(m: map<Id, Delivery>, vs: seq<Vehicle>, nr: Routes, loads: seq<real>,
                        mean: real, pick: nat -> nat, a: nat) returns (next: (Routes, seq<real>))
    requires |loads| == |nr| > 0 && a < Attempts && !Settled(nr, loads, mean)
    ensures next == Attempt(m, vs, nr, loads, pick(a))
    ensures Rebalance(m, vs, nr, loads, mean, pick, a) == Rebalance(m, vs, next.0, next.1, mean, pick, a + 1)
  {
    next := Attempt(m, vs, nr, loads, pick(a));
  }

  lemma RebalanceDone(m: map<Id, Delivery>, vs: seq<Vehicle>, nr: Routes, loads: seq<real>,
                      mean: real, pick: nat -> nat, a: nat)
    requires |loads| == |nr| > 0 && a <= Attempts && (a == Attempts || Settled(nr, loads, mean))
    ensures Rebalance(m, vs, nr, loads, mean, pick, a) == (nr, loads)
  {
  }

  /** The attempts keep the ids between the routes. */
  lemma {:induction false} RebalanceKeepsIds(m: map<Id, Delivery>, vs: seq<Vehicle>, nr: Routes, loads: seq<real>,
                                             mean: real, pick: nat -> nat, a: nat)
    requires |loads| == |nr| > 0 && a <= Attempts
    ensures SameIds(Rebalance(m, vs, nr, loads, mean, pick, a).0, nr)
    decreases Attempts - a
  {
    if a < Attempts && !Settled(nr, loads, mean) {
      var next := RebalanceUnfold(m, vs, nr, loads, mean, pick, a);
      AttemptKeepsIds(m, vs, nr, loads, pick(a));
      RebalanceKeepsIds(m, vs, next.0, next.1, mean, pick, a + 1);
    } else {
      RebalanceDone(m, vs, nr, loads, mean, pick, a);
    }
  }

  /** A route without a vehicle never gains an id, and no route gains more
      than one per remaining attempt. */
  lemma {:induction false} RebalanceGrowth(m: map<Id, Delivery>, vs: seq<Vehicle>, nr: Routes, loads: seq<real>,
                                           mean: real, pick: nat -> nat, a: nat)
    requires |loads| == |nr| > 0 && a <= Attempts
    ensures Gained(vs, nr, Rebalance(m, vs, nr, loads, mean, pick, a).0, Attempts - a)
    decreases Attempts - a
  {
    if a < Attempts && !Settled(nr, loads, mean) {
      var next := RebalanceUnfold(m, vs, nr, loads, mean, pick, a);
      AttemptGrowth(m, vs, nr, loads, pick(a));
      RebalanceGrowth(m, vs, next.0, next.1, mean, pick, a + 1);
      GainedChain(vs, nr, next.0, Rebalance(m, vs, next.0, next.1, mean, pick, a + 1).0, 1, Attempts - (a + 1));
    } else {
      RebalanceDone(m, vs, nr, loads, mean, pick, a);
    }
  }

  /** `_balance_loads`: fewer than two routes, or routes already within
      the tolerance, come back unchanged; otherwise the routes keep their
      number and their ids between them, a route without a vehicle never
      gains an id, and no route gains more ids than there are attempts. */
  function BalanceLoads(m: map<Id, Delivery>, vs: seq<Vehicle>, routes: Routes, pick: nat -> nat): (r: Routes)
    ensures |routes| < 2 ==> r == routes
    ensures |routes| >= 2 && Balanced(Fitness.Loads(m, routes)) ==> r == routes
    ensures |r| == |routes|
    ensures multiset(Flatten(r)) == multiset(Flatten(routes))
    ensures forall k :: |vs| <= k < |routes| ==> multiset(r[k]) <= multiset(routes[k])
    ensures forall k :: 0 <= k < |routes| ==> |r[k]| <= |routes[k]| + Attempts
  {
    if |routes| < 2 then routes
    else
      var loads := Fitness.Loads(m, routes);
      RebalanceKeepsIds(m, vs, routes, loads, Mean(loads), pick, 0);
      RebalanceGrowth(m, vs, routes, loads, Mean(loads), pick, 0);
      Rebalance(m, vs, routes, loads, Mean(loads), pick, 0).0
  }

  /** `route_loads` holds the load of every route of `new_routes`. */
  predicate Tracks(m: map<Id, Delivery>, nr: Routes, loads: seq<real>)
  {
    loads == Fitness.Loads(m, nr)
  }

  /** The incremental loads of an attempt are the loads of its routes. */
  lemma AttemptTracks(m: map<Id, Delivery>, vs: seq<Vehicle>, nr: Routes, loads: seq<real>, choice: nat)
    requires |nr| > 0 && Tracks(m, nr, loads) && |nr[ArgMaxFirst(loads)]| > 0
    ensures var next := Attempt(m, vs, nr, loads, choice); Tracks(m, next.0, next.1)
  {
    var hi := ArgMaxFirst(loads);
    var lo := ArgMinFirst(loads);
    var id := nr[hi][choice % |nr[hi]|];
    if id in m && lo < |vs| && loads[lo] + m[id].weight <= vs[lo].maxCapacity {
      MoveLoads(m, nr, hi, lo, id);
    }
  }

  /** `route_loads` stays equal to the loads of `new_routes` throughout. */
  lemma {:induction false} RebalanceTracks(m: map<Id, Delivery>, vs: seq<Vehicle>, nr: Routes, loads: seq<real>,
                                           mean: real, pick: nat -> nat, a: nat)
    requires |nr| > 0 && a <= Attempts && Tracks(m, nr, loads)
    ensures var r := Rebalance(m, vs, nr, loads, mean, pick, a); Tracks(m, r.0, r.1)
    decreases Attempts - a
  {
    if a < Attempts && !Settled(nr, loads, mean) {
      var next := Attempt(m, vs, nr, loads, pick(a));
      AttemptTracks(m, vs, nr, loads, pick(a));
      RebalanceTracks(m, vs, next.0, next.1, mean, pick, a + 1);
    }
  }

  /** Against the starting loads: every load that has grown belongs to a
      route with a vehicle and is within that vehicle's capacity. */
  predicate GrownWithin(vs: seq<Vehicle>, before: seq<real>, after: seq<real>)
    requires |before| == |after|
  {
    forall k :: 0 <= k < |after| && after[k] > before[k] ==> k < |vs| && after[k] <= vs[k].maxCapacity
  }

  predicate NonNegativeWeights(m: map<Id, Delivery>)
  {
    forall id :: id in m ==> m[id].weight >= 0.0
  }

  /** Shifting a non-negative weight onto a load with a vehicle and room
      for it keeps every grown load within capacity: the giver only gets
      lighter. */
  lemma ShiftWithin(vs: seq<Vehicle>, before: seq<real>, loads: seq<real>, from: nat, to: nat, w: real)
    requires |before| == |loads| && from < |loads| && to < |loads| && to < |vs|
    requires w >= 0.0 && loads[to] + w <= vs[to].maxCapacity
    requires GrownWithin(vs, before, loads)
    ensures GrownWithin(vs, before, Shift(loads, from, to, w))
  {
  }

  lemma {:induction false} RebalanceWithin(m: map<Id, Delivery>, vs: seq<Vehicle>, before: seq<real>, nr: Routes,
                                           loads: seq<real>, mean: real, pick: nat -> nat, a: nat)
    requires |before| == |loads| == |nr| > 0 && a <= Attempts
    requires NonNegativeWeights(m)
    requires GrownWithin(vs, before, loads)
    ensures GrownWithin(vs, before, Rebalance(m, vs, nr, loads, mean, pick, a).1)
    decreases Attempts - a
  {
    if a < Attempts && !Settled(nr, loads, mean) {
      var next := Attempt(m, vs, nr, loads, pick(a));
      var hi := ArgMaxFirst(loads);
      var lo := ArgMinFirst(loads);
      var id := nr[hi][pick(a) % |nr[hi]|];
      if id in m && lo < |vs| && loads[lo] + m[id].weight <= vs[lo].maxCapacity {
        ShiftWithin(vs, before, loads, hi, lo, m[id].weight);
      }
      RebalanceWithin(m, vs, before, next.0, next.1, mean, pick, a + 1);
    }
  }

  /** With non-negative weights, every route the balancing makes heavier
      is one with a vehicle, and it stays within that vehicle's capacity. */
  lemma BalanceLoadsWithin(m: map<Id, Delivery>, vs: seq<Vehicle>, routes: Routes, pick: nat -> nat)
    requires NonNegativeWeights(m)
    ensures var r := BalanceLoads(m, vs, routes, pick);
            forall k :: 0 <= k < |r| && Load(m, r[k]) > Load(m, routes[k]) ==>
              k < |vs| && Load(m, r[k]) <= vs[k].maxCapacity
  {
    if |routes| >= 2 {
      var loads := Fitness.Loads(m, routes);
      RebalanceTracks(m, vs, routes, loads, Mean(loads), pick, 0);
      RebalanceWithin(m, vs, loads, routes, loads, Mean(loads), pick, 0);
    }
  }

  // --------------------------------------------------- improvement loop

  /** The `RouteSolution` a pass builds: distance and cost of its own, the
      fitness left at 0.0 for the calculator, no violations recorded. */
  function Rebuilt(mat: Matrix, routes: Routes): (s: Solution)
    ensures s.routes == routes && s.fitness == 0.0
    ensures s.totalDistance == TotalDistance(mat, routes)
    ensures s.totalCost == s.totalDistance * CostPerKm
  {
    var d := TotalDistance(mat, routes);
    Solution(routes, d, d * CostPerKm, 0.0, Violations(0.0, 0.0))
  }

  /** One pass: 2-opt on each route, then one balancing. */
  function Pass(m: map<Id, Delivery>, vs: seq<Vehicle>, mat: Matrix, routes: Routes, pick: nat -> nat): (r: Routes)
    ensures |r| == |routes|
    ensures multiset(Flatten(r)) == multiset(Flatten(routes))
  {
    TwoOptAllKeepsIds(mat, routes);
    BalanceLoads(m, vs, TwoOptAll(mat, routes), pick)
  }

  /** The `while improved and iterations < max_iterations` loop from pass
      n on, holding the current solution and its fitness. */
  function Search(m: map<Id, Delivery>, vs: seq<Vehicle>, mat: Matrix, score: Solution -> real,
                  cur: Solution, fit: real, maxIterations: int, pick: nat -> nat -> nat, n: nat): (r: Solution)
    requires fit == score(cur)
    ensures score(r) <= fit
    ensures r == cur || score(r) < fit
    ensures n >= maxIterations ==> r == cur
    ensures r != cur ==> r == Rebuilt(mat, r.routes)
    ensures |r.routes| == |cur.routes| && multiset(Flatten(r.routes)) == multiset(Flatten(cur.routes))
    decreases maxIterations - n
  {
    if n >= maxIterations then cur
    else
      var next := Rebuilt(mat, Pass(m, vs, mat, cur.routes, pick(n)));
      if score(next) < fit then Search(m, vs, mat, score, next, score(next), maxIterations, pick, n + 1)
      else cur
  }

  /** `improve_solution`: without a fitness calculator, or without a pass
      to run, the input itself; otherwise a solution that scores no worse,
      strictly better when it is a new one, with the same number of routes
      serving the same ids, and distance and cost of its own routes. */
  function ImproveSolution(ds: seq<Delivery>, vs: seq<Vehicle>, mat: Matrix, sol: Solution, maxIterations: int,
                           score: Option<Solution -> real>, pick: nat -> nat -> nat): (r: Solution)
    ensures score.None? || maxIterations <= 0 ==> r == sol
    ensures score.Some? ==> score.value(r) <= score.value(sol)
    ensures r == sol || (score.Some? && score.value(r) < score.value(sol) && r == Rebuilt(mat, r.routes))
    ensures |r.routes| == |sol.routes| && multiset(Flatten(r.routes)) == multiset(Flatten(sol.routes))
  {
    match score {
      case None => sol
      case Some(f) => Search(Index(ds), vs, mat, f, sol, f(sol), maxIterations, pick, 0)
    }
  }

  /** The text of the TypeError a dataclass raises when a field without a
      default is not passed. */
  const MissingMetadata: string := "RouteSolution.__init__() missing 1 required positional argument: 'metadata'"

  /** `improve_solution` as written: the first pass, which runs whatever
      the calculator, builds a `RouteSolution` without its `metadata` field
      and raises TypeError, so the call returns only when no pass runs, and
      then returns the input. */
  function ImproveSolutionAsWritten(ds: seq<Delivery>, vs: seq<Vehicle>, mat: Matrix, sol: Solution,
                                    maxIterations: int, score: Option<Solution -> real>,
                                    pick: nat -> nat -> nat): (r: Result<Solution>)
    ensures r.Failure? <==> maxIterations >= 1
    ensures r.Failure? ==> r.error == TypeError(MissingMetadata)
  {
    if maxIterations >= 1 then
      var routes := Pass(Index(ds), vs, mat, sol.routes, pick(0));
      Failure(TypeError(MissingMetadata))
    else Success(sol)
  }

  /** The call as written returns exactly when the corrected search runs
      no pass, and then both give back the input. */
  lemma ImproveAsWrittenAgrees(ds: seq<Delivery>, vs: seq<Vehicle>, mat: Matrix, sol: Solution,
                               maxIterations: int, score: Option<Solution -> real>, pick: nat -> nat -> nat)
    ensures ImproveSolutionAsWritten(ds, vs, mat, sol, maxIterations, score, pick).Success? <==> maxIterations <= 0
    ensures maxIterations <= 0 ==>
              ImproveSolutionAsWritten(ds, vs, mat, sol, maxIterations, score, pick)
              == Success(ImproveSolution(ds, vs, mat, sol, maxIterations, score, pick))
              == Success(sol)
  {
  }
}
