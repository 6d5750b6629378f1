/** The three neighbourhood moves shared by the genetic algorithm's
    mutation (optimization/genetic_algorithm.py) and the simulated
    annealing neighbour (optimization/simulated_annealing_optimizer.py):
    swap two deliveries, move one delivery to another route, reverse a
    route. Every random draw of the source is an argument here. */
module Mutation {
  import opened Seqs
  import opened Types
  import opened Wrappers

  datatype Operator = Swap | Move | Reverse

  /** One entry of the source's `all_deliveries` list: a route index and
      a position inside that route. */
  datatype Slot = Slot(route: nat, index: nat)

  predicate ValidSlot(routes: Routes, s: Slot)
  {
    s.route < |routes| && s.index < |routes[s.route]|
  }

  function At(routes: Routes, s: Slot): Id
    requires ValidSlot(routes, s)
  {
    routes[s.route][s.index]
  }

  /** The random choices of one mutation: the operator, the slots drawn
      from `all_deliveries` (`random.choice` / `random.sample(…, 2)`), the
      target route `randint(0, len - 1)`, the insertion point drawn from
      `randint(0, len(route))` and the route to reverse. */
  datatype Draw = Draw(op: Operator, first: Slot, second: Slot, target: nat, insertAt: nat, routeIdx: nat)

  /** The draws lie in the ranges Python's `random` produces for them. */
  predicate WellDrawn(routes: Routes, d: Draw)
  {
    (|Flatten(routes)| >= 1 ==> ValidSlot(routes, d.first))
    && (|Flatten(routes)| >= 2 ==> ValidSlot(routes, d.second) && d.first != d.second)
    && (|routes| > 0 ==> d.target < |routes| && d.routeIdx < |routes|)
  }

  /** A valid slot means there is at least one delivery to draw. */
  lemma SlotMeansDeliveries(routes: Routes, s: Slot)
    requires ValidSlot(routes, s)
    ensures |Flatten(routes)| >= 1
  {
    FlattenLength(routes, s.route);
  }

  /** `list.insert(i, x)`: an index past the end appends. */
  function PyInsert(s: Route, i: nat, x: Id): (r: Route)
    ensures |r| == |s| + 1
    ensures multiset(r) == multiset(s) + multiset{x}
    ensures r[if i <= |s| then i else |s|] == x
  {
    InsertAt(s, if i <= |s| then i else |s|, x)
  }

  /** Two routings with routes of the same lengths. */
  predicate SameShape(a: Routes, b: Routes)
  {
    |a| == |b| && forall i :: 0 <= i < |a| ==> |a[i]| == |b[i]|
  }

  // ---------------------------------------------------------------- swap

  /** `individual[r1][d1] = d2; individual[r2][d2] = d1` for two distinct
      slots: the two deliveries trade places and nothing else moves. */
  function SwapSlots(routes: Routes, a: Slot, b: Slot): (r: Routes)
    requires ValidSlot(routes, a) && ValidSlot(routes, b) && a != b
    ensures SameShape(r, routes)
    ensures ValidSlot(r, a) && ValidSlot(r, b)
    ensures At(r, a) == At(routes, b) && At(r, b) == At(routes, a)
    ensures forall s :: ValidSlot(routes, s) && s != a && s != b ==> ValidSlot(r, s) && At(r, s) == At(routes, s)
  {
    var x := At(routes, a);
    var y := At(routes, b);
    var m := routes[a.route := routes[a.route][a.index := y]];
    m[b.route := m[b.route][b.index := x]]
  }

  /** Swapping keeps every delivery: the concatenation of the routes is a
      permutation of the original one. */
  lemma SwapPermutes(routes: Routes, a: Slot, b: Slot)
    requires ValidSlot(routes, a) && ValidSlot(routes, b) && a != b
    ensures multiset(Flatten(SwapSlots(routes, a, b))) == multiset(Flatten(routes))
  {
    var x := At(routes, a);
    var y := At(routes, b);
    var ra := routes[a.route][a.index := y];
    var m := routes[a.route := ra];
    var rb := m[b.route][b.index := x];
    assert SwapSlots(routes, a, b) == m[b.route := rb];
    assert multiset(Flatten(m)) + multiset(routes[a.route]) == multiset(Flatten(routes)) + multiset(ra) by {
      FlattenUpdateMultiset(routes, a.route, ra);
    }
    assert multiset(ra) + multiset{x} == multiset(routes[a.route]) + multiset{y} by {
      UpdateMultiset(routes[a.route], a.index, y);
    }
    assert multiset(Flatten(m[b.route := rb])) + multiset(m[b.route]) == multiset(Flatten(m)) + multiset(rb) by {
      FlattenUpdateMultiset(m, b.route, rb);
    }
    assert m[b.route][b.index] == y;
    assert multiset(rb) + multiset{y} == multiset(m[b.route]) + multiset{x} by {
      UpdateMultiset(m[b.route], b.index, x);
    }
    ReplaceTrade(multiset(Flatten(m)), multiset(Flatten(routes)), multiset(routes[a.route]), multiset(ra),
                 multiset{x}, multiset{y});
    ReplaceTrade(multiset(Flatten(m[b.route := rb])), multiset(Flatten(m)), multiset(m[b.route]), multiset(rb),
                 multiset{y}, multiset{x});
    MultisetCancel(multiset(Flatten(m[b.route := rb])), multiset(Flatten(routes)), multiset{y});
  }

  /** Swapping the same two slots twice restores the routing. */
  lemma SwapInvolution(routes: Routes, a: Slot, b: Slot)
    requires ValidSlot(routes, a) && ValidSlot(routes, b) && a != b
    ensures SwapSlots(SwapSlots(routes, a, b), a, b) == routes
  {
    var r := SwapSlots(SwapSlots(routes, a, b), a, b);
    assert |r| == |routes|;
    forall i | 0 <= i < |r|
      ensures r[i] == routes[i]
    {
      assert |r[i]| == |routes[i]|;
      forall k | 0 <= k < |r[i]|
        ensures r[i][k] == routes[i][k]
      {
        assert ValidSlot(routes, Slot(i, k));
      }
    }
  }

  // ------------------------------------------------------------- reverse

  /** `individual[route_idx].reverse()`. */
  function ReverseRoute(routes: Routes, i: nat): (r: Routes)
    requires i < |routes|
    ensures |r| == |routes|
    ensures forall j :: 0 <= j < |routes| && j != i ==> r[j] == routes[j]
    ensures Reversed(r[i]) == routes[i]
  {
    ReversedTwice(routes[i]);
    routes[i := Reversed(routes[i])]
  }

  /** Reversing keeps every delivery. */
  lemma ReversePermutes(routes: Routes, i: nat)
    requires i < |routes|
    ensures multiset(Flatten(ReverseRoute(routes, i))) == multiset(Flatten(routes))
  {
    var u := routes[i := Reversed(routes[i])];
    assert multiset(Flatten(u)) + multiset(routes[i]) == multiset(Flatten(routes)) + multiset(routes[i]) by {
      ReversedMultiset(routes[i]);
      FlattenUpdateMultiset(routes, i, Reversed(routes[i]));
    }
    MultisetCancel(multiset(Flatten(u)), multiset(Flatten(routes)), multiset(routes[i]));
  }

  // ---------------------------------------------------------------- move

  /** The first half of every move: pop the drawn delivery from its route
      and drop the route if that left it empty. */
  function Detach(routes: Routes, s: Slot): (r: Routes)
    requires ValidSlot(routes, s)
    ensures |routes[s.route]| == 1 ==> |r| == |routes| - 1
    ensures |routes[s.route]| > 1 ==> |r| == |routes|
    ensures multiset(Flatten(r)) + multiset{At(routes, s)} == multiset(Flatten(routes))
  {
    var x := At(routes, s);
    var src := RemoveAt(routes[s.route], s.index);
    assert multiset(routes[s.route]) == multiset(src) + multiset{x};
    if |src| == 0 then
      assert multiset(Flatten(RemoveAt(routes, s.route))) + multiset{x} == multiset(Flatten(routes)) by {
        FlattenRemoveAt(routes, s.route);
        assert multiset(routes[s.route]) == multiset{x};
      }
      RemoveAt(routes, s.route)
    else
      assert multiset(Flatten(routes[s.route := src])) + multiset{x} == multiset(Flatten(routes)) by {
        FlattenUpdateMultiset(routes, s.route, src);
        ReplaceShrink(multiset(Flatten(routes[s.route := src])), multiset(Flatten(routes)),
                      multiset(routes[s.route]), multiset(src), x);
      }
      routes[s.route := src]
  }

  /** Inserting the delivery into route t of the detached routing. */
  function Attach(routes: Routes, t: nat, i: nat, x: Id): (r: Routes)
    requires t < |routes|
    ensures |r| == |routes|
    ensures multiset(Flatten(r)) == multiset(Flatten(routes)) + multiset{x}
    ensures x in r[t]
  {
    var dst := PyInsert(routes[t], i, x);
    assert multiset(Flatten(routes[t := dst])) == multiset(Flatten(routes)) + multiset{x} by {
      FlattenUpdateMultiset(routes, t, dst);
      ReplaceGrow(multiset(Flatten(routes[t := dst])), multiset(Flatten(routes)),
                  multiset(routes[t]), multiset(dst), x);
    }
    routes[t := dst]
  }

  /** The genetic algorithm's move, as written: the target index is drawn
      before the pop and is not adjusted after it, and when it no longer
      names a route the delivery is not inserted anywhere. */
  function GaMove(routes: Routes, s: Slot, target: nat, insertAt: nat): (r: Routes)
    requires ValidSlot(routes, s)
  {
    var mid := Detach(routes, s);
    if target < |mid| then Attach(mid, target, insertAt, At(routes, s)) else mid
  }

  /** The simulated annealing move, as written: a target past the end
      after the pop is clamped to `len - 1`, which is `-1` when the pop
      left no route at all, and indexing that empty list raises
      IndexError. */
  function SaMove(routes: Routes, s: Slot, target: nat, insertAt: nat): (r: Result<Routes>)
    requires ValidSlot(routes, s)
  {
    var mid := Detach(routes, s);
    if |mid| == 0 then Failure(IndexError(IndexOutOfRange))
    else
      var t := if target >= |mid| then |mid| - 1 else target;
      Success(Attach(mid, t, insertAt, At(routes, s)))
  }

  /** The move with the clamp and without the loss: a target past the end
      is clamped to the last route, and a delivery that leaves no route
      behind becomes a route of its own. */
  function MoveDelivery(routes: Routes, s: Slot, target: nat, insertAt: nat): (r: Routes)
    requires ValidSlot(routes, s)
    ensures multiset(Flatten(r)) == multiset(Flatten(routes))
    ensures |r| == |routes| || |r| == |routes| - 1
    ensures exists t :: 0 <= t < |r| && At(routes, s) in r[t]
  {
    var x := At(routes, s);
    var mid := Detach(routes, s);
    if |mid| == 0 then
      assert Flatten([[x]]) == [x] by {
        FlattenSingle([x]);
      }
      assert x in [[x]][0];
      [[x]]
    else
      var t := if target >= |mid| then |mid| - 1 else target;
      var r := Attach(mid, t, insertAt, x);
      assert x in r[t];
      r
  }

  /** The genetic algorithm's move loses the drawn delivery exactly when
      its route held nothing else and the target was the last route; in
      every other case the deliveries are kept. */
  lemma GaMoveLoss(routes: Routes, s: Slot, target: nat, insertAt: nat)
    requires ValidSlot(routes, s) && target < |routes|
    ensures multiset(Flatten(GaMove(routes, s, target, insertAt))) == multiset(Flatten(routes))
            <==> !(|routes[s.route]| == 1 && target == |routes| - 1)
    ensures |routes[s.route]| == 1 && target == |routes| - 1 ==>
              multiset(Flatten(GaMove(routes, s, target, insertAt))) + multiset{At(routes, s)}
              == multiset(Flatten(routes))
  {
    var mid := Detach(routes, s);
    var x := At(routes, s);
    if target >= |mid| {
      assert multiset(Flatten(mid)) + multiset{x} == multiset(Flatten(routes));
      assert multiset(Flatten(routes))[x] == multiset(Flatten(mid))[x] + 1;
    }
  }

  /** The smallest routing that shows the loss: moving the only delivery
      of the first of two routes to the last route drops it. */
  lemma GaMoveDropsDelivery()
    ensures GaMove([["a"], ["b"]], Slot(0, 0), 1, 0) == [["b"]]
  {
    var routes: Routes := [["a"], ["b"]];
    assert RemoveAt(routes[0], 0) == [];
    assert RemoveAt(routes, 0) == [["b"]];
  }

  /** The simulated annealing move fails exactly on a routing that is a
      single route holding a single delivery; otherwise it keeps every
      delivery. */
  lemma SaMoveOutcome(routes: Routes, s: Slot, target: nat, insertAt: nat)
    requires ValidSlot(routes, s)
    ensures SaMove(routes, s, target, insertAt).Failure? <==> |routes| == 1 && |routes[0]| == 1
    ensures SaMove(routes, s, target, insertAt).Success? ==>
              SaMove(routes, s, target, insertAt).value == MoveDelivery(routes, s, target, insertAt)
  {
  }

  lemma SaMoveFailsOnSingleDelivery()
    ensures SaMove([["a"]], Slot(0, 0), 0, 0) == Failure(IndexError(IndexOutOfRange))
  {
    var routes: Routes := [["a"]];
    assert RemoveAt(routes[0], 0) == [];
    assert |Detach(routes, Slot(0, 0))| == 0;
  }

  // ------------------------------------------------------------ operators

  /** `_mutate` of the genetic algorithm, as written (with the losing
      move). An empty individual is returned unchanged. */
  function GaMutate(routes: Routes, d: Draw): (r: Routes)
    requires WellDrawn(routes, d)
  {
    if |routes| == 0 then routes
    else match d.op
      case Swap =>
        if |Flatten(routes)| >= 2 then SwapSlots(routes, d.first, d.second) else routes
      case Move =>
        if |Flatten(routes)| >= 1 then GaMove(routes, d.first, d.target, d.insertAt) else routes
      case Reverse => ReverseRoute(routes, d.routeIdx)
  }

  /** `_generate_neighbor` of simulated annealing, as written (the move
      fails on a single route with a single delivery). */
  function SaNeighbor(routes: Routes, d: Draw): (r: Result<Routes>)
    requires WellDrawn(routes, d)
  {
    match d.op
    case Swap =>
      Success(if |Flatten(routes)| >= 2 then SwapSlots(routes, d.first, d.second) else routes)
    case Move =>
      if |Flatten(routes)| >= 1 then SaMove(routes, d.first, d.target, d.insertAt) else Success(routes)
    case Reverse =>
      Success(if |routes| > 0 && |routes[d.routeIdx]| > 0 then ReverseRoute(routes, d.routeIdx) else routes)
  }

  /** The mutation with the corrected move, used by the rest of the model
      for both optimisers. */
  function Mutate(routes: Routes, d: Draw): (r: Routes)
    requires WellDrawn(routes, d)
    ensures multiset(Flatten(r)) == multiset(Flatten(routes))
  {
    match d.op
    case Swap =>
      if |Flatten(routes)| >= 2 then
        SwapPermutes(routes, d.first, d.second);
        SwapSlots(routes, d.first, d.second)
      else routes
    case Move =>
      if |Flatten(routes)| >= 1 then MoveDelivery(routes, d.first, d.target, d.insertAt) else routes
    case Reverse =>
      if |routes| > 0 then
        ReversePermutes(routes, d.routeIdx);
        ReverseRoute(routes, d.routeIdx)
      else routes
  }

  /** Apart from the move, the genetic mutation is the corrected one. */
  lemma GaMutateAgrees(routes: Routes, d: Draw)
    requires WellDrawn(routes, d) && d.op != Move
    ensures GaMutate(routes, d) == Mutate(routes, d)
  {
  }

  /** The annealing neighbour agrees with the corrected mutation whenever
      it succeeds, and it fails only on the move from a lone delivery. */
  lemma SaNeighborAgrees(routes: Routes, d: Draw)
    requires WellDrawn(routes, d)
    ensures SaNeighbor(routes, d).Failure? <==>
              d.op == Move && |routes| == 1 && |routes[0]| == 1
    ensures SaNeighbor(routes, d).Success? ==> SaNeighbor(routes, d).value == Mutate(routes, d)
  {
    if d.op == Move && |Flatten(routes)| >= 1 {
      SaMoveOutcome(routes, d.first, d.target, d.insertAt);
    }
    if d.op == Move && |routes| == 1 && |routes[0]| == 1 {
      assert ValidSlot(routes, Slot(0, 0));
      SlotMeansDeliveries(routes, Slot(0, 0));
    }
    if d.op == Reverse && |routes| > 0 && |routes[d.routeIdx]| == 0 {
      assert Reversed(routes[d.routeIdx]) == routes[d.routeIdx];
      assert routes[d.routeIdx := routes[d.routeIdx]] == routes;
    }
  }

  /** The corrected mutation keeps each delivery in exactly one route, so
      a routing without duplicates stays without duplicates. */
  lemma MutateKeepsDistinct(routes: Routes, d: Draw)
    requires WellDrawn(routes, d) && Distinct(Flatten(routes))
    ensures Distinct(Flatten(Mutate(routes, d)))
  {
    var r := Flatten(Mutate(routes, d));
    forall i, j | 0 <= i < j < |r|
      ensures r[i] != r[j]
    {
      if r[i] == r[j] {
        TwoPositionsCount(r, i, j);
        DistinctMultiset(Flatten(routes), r[i]);
        assert false;
      }
    }
  }
}
