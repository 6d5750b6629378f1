/** `GreedyOptimizer._solve_greedy` of optimization/greedy_optimizer.py: for
    each vehicle in turn, repeatedly drive to the nearest remaining delivery
    that still fits, scanning critical deliveries first; when the fleet is
    used up, every delivery still left becomes a route of its own.

    The remaining deliveries live in a dict keyed by id, so the model first
    computes that dict's items (`DictItems`); the distance matrix is read
    with an infinite default, modelled as `None`. */
module Greedy {
  import opened Wrappers
  import opened Seqs
  import opened Types
  import opened Distance
  import opened Domain
  import Init = Initialization

  // ------------------------------------------ the dict of remaining deliveries

  /** The position of the first delivery carrying `id`. */
  function IdPosition(ds: seq<Delivery>, id: Id): (r: Option<nat>)
    ensures r.None? <==> forall i :: 0 <= i < |ds| ==> ds[i].id != id
    ensures r.Some? ==> r.value < |ds| && ds[r.value].id == id
  {
    if |ds| == 0 then None
    else if ds[0].id == id then Some(0)
    else
      var r := IdPosition(ds[1..], id);
      if r.Some? then Some(r.value + 1) else None
  }

  /** The items of `{d.id: d for d in deliveries}` in dict order: one entry
      per id, at the place where the id first appears, holding the last
      delivery that carries it. */
  function DictItems(ds: seq<Delivery>): (r: seq<Delivery>)
    ensures |r| <= |ds|
  {
    if |ds| == 0 then []
    else
      var rest := DictItems(ds[..|ds| - 1]);
      var d := ds[|ds| - 1];
      var k := IdPosition(rest, d.id);
      if k.Some? then rest[k.value := d] else rest + [d]
  }

  /** The items describe the dict `m`: distinct ids, each item the entry
      for its id, and every key among them. */
  predicate ItemsOf(items: seq<Delivery>, m: map<Id, Delivery>)
  {
    && DistinctIds(items)
    && (forall i :: 0 <= i < |items| ==> items[i].id in m && m[items[i].id] == items[i])
    && (forall id :: id in m ==> id in Ids(items))
  }

  /** Storing a delivery under an id already present replaces that item. */
  lemma ItemsReplace(rest: seq<Delivery>, m: map<Id, Delivery>, d: Delivery, k: nat)
    requires ItemsOf(rest, m) && k < |rest| && rest[k].id == d.id
    ensures ItemsOf(rest[k := d], m[d.id := d])
  {
    var r := rest[k := d];
    assert forall i :: 0 <= i < |r| ==> r[i].id == rest[i].id;
    forall i | 0 <= i < |r|
      ensures r[i].id in m[d.id := d] && m[d.id := d][r[i].id] == r[i]
    {
      if i != k {
        assert rest[i].id != rest[k].id;
      }
    }
    forall id | id in m[d.id := d]
      ensures id in Ids(r)
    {
      if id == d.id {
        assert Ids(r)[k] == id;
      } else {
        var j :| 0 <= j < |rest| && Ids(rest)[j] == id;
        assert Ids(r)[j] == id;
      }
    }
  }

  /** Storing a delivery under a new id appends an item. */
  lemma ItemsAppend(rest: seq<Delivery>, m: map<Id, Delivery>, d: Delivery)
    requires ItemsOf(rest, m) && forall i :: 0 <= i < |rest| ==> rest[i].id != d.id
    ensures ItemsOf(rest + [d], m[d.id := d])
  {
    var r := rest + [d];
    forall i | 0 <= i < |r|
      ensures r[i].id in m[d.id := d] && m[d.id := d][r[i].id] == r[i]
    {
      if i < |rest| {
        assert r[i] == rest[i];
      }
    }
    forall id | id in m[d.id := d]
      ensures id in Ids(r)
    {
      if id == d.id {
        assert Ids(r)[|rest|] == id;
      } else {
        var j :| 0 <= j < |rest| && Ids(rest)[j] == id;
        assert Ids(r)[j] == id;
      }
    }
  }

  /** The items have distinct ids, each is the dict's entry for its id, and
      every key of the dict is among them. */
  lemma {:induction false} DictItemsShape(ds: seq<Delivery>)
    ensures ItemsOf(DictItems(ds), Index(ds))
  {
    if |ds| > 0 {
      var init := ds[..|ds| - 1];
      var d := ds[|ds| - 1];
      var rest := DictItems(init);
      assert ItemsOf(rest, Index(init)) by {
        DictItemsShape(init);
      }
      var k := IdPosition(rest, d.id);
      assert Index(ds) == Index(init)[d.id := d];
      if k.Some? {
        assert DictItems(ds) == rest[k.value := d];
        ItemsReplace(rest, Index(init), d, k.value);
      } else {
        assert DictItems(ds) == rest + [d];
        ItemsAppend(rest, Index(init), d);
      }
    }
  }

  /** With distinct ids the dict holds the list itself, in order. */
  lemma {:induction false} DictItemsOfDistinct(ds: seq<Delivery>)
    requires DistinctIds(ds)
    ensures DictItems(ds) == ds
  {
    if |ds| > 0 {
      var init := ds[..|ds| - 1];
      assert DistinctIds(init);
      DictItemsOfDistinct(init);
      assert IdPosition(init, ds[|ds| - 1].id).None?;
      assert init + [ds[|ds| - 1]] == ds;
    }
  }

  /** An id is among the items exactly when some input delivery carries it. */
  lemma DictItemsIds(ds: seq<Delivery>, id: Id)
    ensures id in Ids(DictItems(ds)) <==> exists i :: 0 <= i < |ds| && ds[i].id == id
  {
    DictItemsShape(ds);
    assert ItemsOf(DictItems(ds), Index(ds));
    IndexKeys(ds);
    if id in Ids(DictItems(ds)) {
      var j :| 0 <= j < |DictItems(ds)| && Ids(DictItems(ds))[j] == id;
      assert DictItems(ds)[j].id in Index(ds);
    }
  }

  // ---------------------------------------------------------- candidate order

  /** `critical_deliveries`, the ids of priority 1 in dict order. */
  function CriticalPart(rem: seq<Delivery>): seq<Delivery>
  {
    if |rem| == 0 then []
    else (if IsCritical(rem[0]) then [rem[0]] else []) + CriticalPart(rem[1..])
  }

  /** `normal_deliveries`, the other ids in dict order. */
  function NormalPart(rem: seq<Delivery>): seq<Delivery>
  {
    if |rem| == 0 then []
    else (if IsCritical(rem[0]) then [] else [rem[0]]) + NormalPart(rem[1..])
  }

  /** The two comprehensions are the priority split the initialisers use. */
  lemma {:induction false} PartsArePrioritySplit(rem: seq<Delivery>)
    ensures CriticalPart(rem) == Init.Criticals(rem)
    ensures NormalPart(rem) == Init.Normals(rem)
  {
    if |rem| > 0 {
      PartsArePrioritySplit(rem[1..]);
    }
  }

  /** `delivery_order`: the critical deliveries, then the others. */
  function Candidates(rem: seq<Delivery>): seq<Delivery>
  {
    CriticalPart(rem) + NormalPart(rem)
  }

  /** The scan order holds every remaining delivery once. */
  lemma CandidatesPermutation(rem: seq<Delivery>)
    ensures multiset(Candidates(rem)) == multiset(rem)
  {
    PartsArePrioritySplit(rem);
    Init.PriorityPartition(rem);
  }

  /** No critical delivery is scanned after a non-critical one. */
  lemma CandidatesCriticalsFirst(rem: seq<Delivery>)
    ensures Init.CriticalsLead(Candidates(rem))
  {
    PartsArePrioritySplit(rem);
    var c, n := Init.Criticals(rem), Init.Normals(rem);
    Init.PriorityPartition(rem);
    var r := c + n;
    forall a, b | 0 <= a < b < |r| && !IsCritical(r[a])
      ensures !IsCritical(r[b])
    {
      assert r[b] == n[b - |c|];
    }
  }

  /** `delivery_order.remove(nearest_id)` keeps the order equal to the split
      of what remains, so recomputing the candidates from the remaining
      deliveries is the list the source scans. */
  lemma CandidatesAfterRemoval(rem: seq<Delivery>, d: Delivery)
    ensures Candidates(RemoveFirst(rem, d)) == RemoveFirst(Candidates(rem), d)
  {
    PartsArePrioritySplit(rem);
    PartsArePrioritySplit(RemoveFirst(rem, d));
    var c, n := Init.Criticals(rem), Init.Normals(rem);
    FilterRemoveFirst(rem, IsCritical, d);
    FilterRemoveFirst(rem, Init.IsNormal, d);
    RemoveFirstConcat(c, n, d);
    if IsCritical(d) {
      if d !in c {
        assert d !in rem;
        assert d !in n;
      }
    } else {
      assert d !in c;
    }
  }

  // -------------------------------------------------------- one vehicle's route

  /** `distance_matrix.get((a, b), float('inf'))`, with `None` for infinity. */
  function Lookup(mat: Matrix, a: string, b: string): (r: Option<real>)
    ensures r.Some? <==> (a, b) in mat
    ensures r.Some? ==> r.value == Get(mat, a, b)
  {
    if (a, b) in mat then Some(mat[(a, b)]) else None
  }

  /** The test a candidate must pass: a finite distance, and room for its
      weight and for that distance. */
  predicate Feasible(v: Vehicle, w: real, travelled: real, d: Delivery, dist: Option<real>)
  {
    dist.Some? && Init.Fits(v, w, travelled, d, dist.value)
  }

  /** The distance read for candidate j, `float('inf')` read as 0.0; it is
      only compared for candidates that passed `Feasible`. */
  function DistTo(cands: seq<Delivery>, mat: Matrix, at: string, j: nat): real
    requires j < |cands|
  {
    Lookup(mat, at, cands[j].id).GetOr(0.0)
  }

  /** The `for delivery_id in candidates` scan from candidate i on, with the
      best index so far: a candidate replaces the best only when it is
      feasible and strictly nearer. */
  function ScanPick(cands: seq<Delivery>, mat: Matrix, at: string, w: real, travelled: real, v: Vehicle,
                    i: nat, best: Option<nat>): (r: Option<nat>)
    requires i <= |cands|
    requires best.Some? ==> best.value < i && Feasible(v, w, travelled, cands[best.value], Lookup(mat, at, cands[best.value].id))
    ensures r.Some? ==> r.value < |cands| && Feasible(v, w, travelled, cands[r.value], Lookup(mat, at, cands[r.value].id))
    ensures best.Some? ==> r.Some?
    decreases |cands| - i
  {
    if i == |cands| then best
    else if Feasible(v, w, travelled, cands[i], Lookup(mat, at, cands[i].id))
            && (best.None? || DistTo(cands, mat, at, i) < DistTo(cands, mat, at, best.value))
    then ScanPick(cands, mat, at, w, travelled, v, i + 1, Some(i))
    else ScanPick(cands, mat, at, w, travelled, v, i + 1, best)
  }

  /** The whole scan, started from `nearest_distance = float('inf')`. */
  function Pick(cands: seq<Delivery>, mat: Matrix, at: string, w: real, travelled: real, v: Vehicle)
    : (r: Option<nat>)
    ensures r.Some? ==> r.value < |cands| && Feasible(v, w, travelled, cands[r.value], Lookup(mat, at, cands[r.value].id))
  {
    ScanPick(cands, mat, at, w, travelled, v, 0, None)
  }

  /** What the scan has established after candidate i - 1. */
  predicate ScanInvariant(cands: seq<Delivery>, mat: Matrix, at: string, w: real, travelled: real, v: Vehicle,
                          i: nat, best: Option<nat>)
    requires i <= |cands|
  {
    && (best.None? <==> forall j :: 0 <= j < i ==> !Feasible(v, w, travelled, cands[j], Lookup(mat, at, cands[j].id)))
    && (best.Some? ==>
          best.value < i && Feasible(v, w, travelled, cands[best.value], Lookup(mat, at, cands[best.value].id))
          && (forall j :: 0 <= j < i && Feasible(v, w, travelled, cands[j], Lookup(mat, at, cands[j].id)) ==>
                DistTo(cands, mat, at, best.value) <= DistTo(cands, mat, at, j))
          && (forall j :: 0 <= j < best.value && Feasible(v, w, travelled, cands[j], Lookup(mat, at, cands[j].id)) ==>
                DistTo(cands, mat, at, best.value) < DistTo(cands, mat, at, j)))
  }

  lemma {:induction false} ScanPickNearest(cands: seq<Delivery>, mat: Matrix, at: string, w: real, travelled: real,
                                           v: Vehicle, i: nat, best: Option<nat>)
    requires i <= |cands|
    requires ScanInvariant(cands, mat, at, w, travelled, v, i, best)
    ensures ScanInvariant(cands, mat, at, w, travelled, v, |cands|, ScanPick(cands, mat, at, w, travelled, v, i, best))
    decreases |cands| - i
  {
    if i < |cands| {
      if Feasible(v, w, travelled, cands[i], Lookup(mat, at, cands[i].id))
         && (best.None? || DistTo(cands, mat, at, i) < DistTo(cands, mat, at, best.value)) {
        ScanPickNearest(cands, mat, at, w, travelled, v, i + 1, Some(i));
      } else {
        ScanPickNearest(cands, mat, at, w, travelled, v, i + 1, best);
      }
    }
  }

  /** The scan finds nothing exactly when no candidate is feasible, and
      otherwise the nearest feasible candidate, the earliest among equals
      (the test is strict `<`). */
  lemma PickIsNearest(cands: seq<Delivery>, mat: Matrix, at: string, w: real, travelled: real, v: Vehicle)
    ensures var r := Pick(cands, mat, at, w, travelled, v);
      && (r.None? <==> forall j :: 0 <= j < |cands| ==> !Feasible(v, w, travelled, cands[j], Lookup(mat, at, cands[j].id)))
      && (r.Some? ==>
            && (forall j :: 0 <= j < |cands| && Feasible(v, w, travelled, cands[j], Lookup(mat, at, cands[j].id)) ==>
                  Lookup(mat, at, cands[r.value].id).value <= Lookup(mat, at, cands[j].id).value)
            && (forall j :: 0 <= j < r.value && Feasible(v, w, travelled, cands[j], Lookup(mat, at, cands[j].id)) ==>
                  Lookup(mat, at, cands[r.value].id).value < Lookup(mat, at, cands[j].id).value))
  {
    ScanPickNearest(cands, mat, at, w, travelled, v, 0, None);
  }

  /** One pass of the scan: the delivery the vehicle drives to next, if
      any. An empty id is falsy in the source's `if nearest_id:`, so picking
      one ends the route like finding nothing. */
  function Step(rem: seq<Delivery>, v: Vehicle, mat: Matrix, at: string, w: real, travelled: real)
    : (r: Option<Delivery>)
    ensures r.Some? ==> r.value in rem && r.value.id != ""
                        && Feasible(v, w, travelled, r.value, Lookup(mat, at, r.value.id))
  {
    var cands := Candidates(rem);
    var n := Pick(cands, mat, at, w, travelled, v);
    if n.None? || cands[n.value].id == "" then None
    else
      assert cands[n.value] in multiset(rem) by {
        CandidatesPermutation(rem);
      }
      Some(cands[n.value])
  }

  /** The delivery picked is the nearest feasible one among all remaining,
      and when every id is non-empty nothing is picked only when nothing
      remaining is feasible. */
  lemma StepIsNearest(rem: seq<Delivery>, v: Vehicle, mat: Matrix, at: string, w: real, travelled: real)
    ensures var r := Step(rem, v, mat, at, w, travelled);
      r.Some? ==> forall k :: 0 <= k < |rem| && Feasible(v, w, travelled, rem[k], Lookup(mat, at, rem[k].id)) ==>
                    Lookup(mat, at, r.value.id).value <= Lookup(mat, at, rem[k].id).value
    ensures (forall k :: 0 <= k < |rem| ==> rem[k].id != "") ==>
              (Step(rem, v, mat, at, w, travelled).None? <==>
                 forall k :: 0 <= k < |rem| ==> !Feasible(v, w, travelled, rem[k], Lookup(mat, at, rem[k].id)))
  {
    var cands := Candidates(rem);
    var n := Pick(cands, mat, at, w, travelled, v);
    PickIsNearest(cands, mat, at, w, travelled, v);
    CandidatesPermutation(rem);
    forall k | 0 <= k < |rem|
      ensures exists j :: 0 <= j < |cands| && cands[j] == rem[k]
    {
      assert rem[k] in multiset(cands);
    }
    if n.Some? {
      assert cands[n.value] in multiset(rem);
    }
  }

  /** The `while remaining_deliveries` loop of one vehicle standing at `at`
      with load `w` after `travelled` km and `stops` so far: the route and
      the deliveries still remaining. */
  function BuildRoute(rem: seq<Delivery>, v: Vehicle, mat: Matrix, at: string, w: real, travelled: real,
                      stops: seq<Delivery>): (r: (seq<Delivery>, seq<Delivery>))
    decreases |rem|
  {
    var s := Step(rem, v, mat, at, w, travelled);
    if s.None? then (stops, rem)
    else
      var d := s.value;
      BuildRoute(RemoveFirst(rem, d), v, mat, d.id, w + d.weight, travelled + Lookup(mat, at, d.id).value,
                 stops + [d])
  }

  /** The loop only moves deliveries from the remaining dict to the route. */
  lemma {:induction false} BuildRouteMoves(rem: seq<Delivery>, v: Vehicle, mat: Matrix, at: string, w: real,
                                           travelled: real, stops: seq<Delivery>)
    ensures multiset(BuildRoute(rem, v, mat, at, w, travelled, stops).0)
              + multiset(BuildRoute(rem, v, mat, at, w, travelled, stops).1)
            == multiset(stops) + multiset(rem)
    decreases |rem|
  {
    var s := Step(rem, v, mat, at, w, travelled);
    var r := BuildRoute(rem, v, mat, at, w, travelled, stops);
    if s.Some? {
      var d := s.value;
      var rem' := RemoveFirst(rem, d);
      var t' := travelled + Lookup(mat, at, d.id).value;
      var r' := BuildRoute(rem', v, mat, d.id, w + d.weight, t', stops + [d]);
      assert r == r';
      assert multiset(r'.0) + multiset(r'.1) == multiset(stops + [d]) + multiset(rem') by {
        BuildRouteMoves(rem', v, mat, d.id, w + d.weight, t', stops + [d]);
      }
      assert multiset(stops + [d]) + multiset(rem') == multiset(stops) + multiset(rem) by {
        assert multiset(rem') + multiset{d} == multiset(rem);
      }
    } else {
      assert r == (stops, rem);
    }
  }

  /** The outbound legs of a route read from the matrix: depot to the first
      id and on to the last, with no leg back. */
  function Outbound(mat: Matrix, stops: seq<Delivery>): real
  {
    IdLegs(mat, [DepotKey] + Ids(stops))
  }

  /** A route fits a vehicle: its weight within the capacity and its
      outbound legs within the range. */
  predicate Within(v: Vehicle, mat: Matrix, stops: seq<Delivery>)
  {
    WeightSum(stops) <= v.maxCapacity && Outbound(mat, stops) <= v.maxRange
  }

  /** The loop's running values describe the stops picked so far. */
  predicate Tracks(v: Vehicle, mat: Matrix, at: string, w: real, travelled: real, stops: seq<Delivery>)
  {
    if |stops| == 0 then at == DepotKey && w == 0.0 && travelled == 0.0
    else
      at == stops[|stops| - 1].id && w == WeightSum(stops) && travelled == Outbound(mat, stops)
      && Within(v, mat, stops)
  }

  lemma OutboundAppend(mat: Matrix, stops: seq<Delivery>, d: Delivery)
    ensures Outbound(mat, stops + [d])
            == Outbound(mat, stops) + Get(mat, if |stops| == 0 then DepotKey else stops[|stops| - 1].id, d.id)
  {
    var path := [DepotKey] + Ids(stops);
    assert [DepotKey] + Ids(stops + [d]) == path + [d.id] by {
      IdsConcat(stops, [d]);
    }
    IdLegsConcat(mat, path, [d.id]);
    assert path[|path| - 1] == if |stops| == 0 then DepotKey else stops[|stops| - 1].id;
  }

  /** One step of the loop keeps the running values in step with the stops. */
  lemma TracksStep(v: Vehicle, mat: Matrix, at: string, w: real, travelled: real, stops: seq<Delivery>,
                   d: Delivery)
    requires Tracks(v, mat, at, w, travelled, stops)
    requires Feasible(v, w, travelled, d, Lookup(mat, at, d.id))
    ensures Tracks(v, mat, d.id, w + d.weight, travelled + Lookup(mat, at, d.id).value, stops + [d])
  {
    Init.WeightSumAppend(stops, d);
    OutboundAppend(mat, stops, d);
    if |stops| == 0 {
      assert WeightSum(stops) == 0.0;
      assert Outbound(mat, stops) == 0.0;
    }
  }

  /** Every route the loop closes fits the vehicle that built it. */
  lemma {:induction false} BuildRouteWithin(rem: seq<Delivery>, v: Vehicle, mat: Matrix, at: string, w: real,
                                            travelled: real, stops: seq<Delivery>)
    requires Tracks(v, mat, at, w, travelled, stops)
    ensures |BuildRoute(rem, v, mat, at, w, travelled, stops).0| > 0 ==>
              Within(v, mat, BuildRoute(rem, v, mat, at, w, travelled, stops).0)
    decreases |rem|
  {
    var s := Step(rem, v, mat, at, w, travelled);
    if s.None? {
      assert BuildRoute(rem, v, mat, at, w, travelled, stops).0 == stops;
    } else {
      var d := s.value;
      var t' := travelled + Lookup(mat, at, d.id).value;
      TracksStep(v, mat, at, w, travelled, stops, d);
      BuildRouteWithin(RemoveFirst(rem, d), v, mat, d.id, w + d.weight, t', stops + [d]);
      BuildRouteNext(rem, v, mat, at, w, travelled, stops, d);
    }
  }

  /** One turn of the loop: picking `d` continues the loop from `d`. */
  lemma BuildRouteNext(rem: seq<Delivery>, v: Vehicle, mat: Matrix, at: string, w: real, travelled: real,
                       stops: seq<Delivery>, d: Delivery)
    requires Step(rem, v, mat, at, w, travelled) == Some(d)
    ensures BuildRoute(rem, v, mat, at, w, travelled, stops)
            == BuildRoute(RemoveFirst(rem, d), v, mat, d.id, w + d.weight, travelled + Lookup(mat, at, d.id).value,
                          stops + [d])
  {
  }

  /** The route only grows: the stops picked so far stay its prefix. */
  lemma {:induction false} StopsKeepPrefix(rem: seq<Delivery>, v: Vehicle, mat: Matrix, at: string, w: real,
                                           travelled: real, stops: seq<Delivery>)
    ensures |stops| <= |BuildRoute(rem, v, mat, at, w, travelled, stops).0|
    ensures BuildRoute(rem, v, mat, at, w, travelled, stops).0[..|stops|] == stops
    decreases |rem|
  {
    var s := Step(rem, v, mat, at, w, travelled);
    if s.Some? {
      var d := s.value;
      var t' := travelled + Lookup(mat, at, d.id).value;
      var r := BuildRoute(RemoveFirst(rem, d), v, mat, d.id, w + d.weight, t', stops + [d]);
      assert BuildRoute(rem, v, mat, at, w, travelled, stops) == r;
      assert |stops + [d]| <= |r.0| && r.0[..|stops + [d]|] == stops + [d] by {
        StopsKeepPrefix(RemoveFirst(rem, d), v, mat, d.id, w + d.weight, t', stops + [d]);
      }
      PrefixOfPrefix(r.0, stops, d);
    }
  }

  lemma PrefixOfPrefix(xs: seq<Delivery>, stops: seq<Delivery>, d: Delivery)
    requires |stops + [d]| <= |xs| && xs[..|stops + [d]|] == stops + [d]
    ensures |stops| <= |xs| && xs[..|stops|] == stops
  {
    assert xs[..|stops|] == xs[..|stops| + 1][..|stops|];
  }

  /** A vehicle's first stop is the delivery the scan picks from the depot
      with an empty load. */
  lemma FirstStopIsPicked(rem: seq<Delivery>, v: Vehicle, mat: Matrix)
    ensures |BuildRoute(rem, v, mat, DepotKey, 0.0, 0.0, []).0| > 0 ==>
              Step(rem, v, mat, DepotKey, 0.0, 0.0).Some?
              && BuildRoute(rem, v, mat, DepotKey, 0.0, 0.0, []).0[0] == Step(rem, v, mat, DepotKey, 0.0, 0.0).value
  {
    var s := Step(rem, v, mat, DepotKey, 0.0, 0.0);
    if s.Some? {
      var d := s.value;
      var t' := 0.0 + Lookup(mat, DepotKey, d.id).value;
      assert BuildRoute(rem, v, mat, DepotKey, 0.0, 0.0, [])
             == BuildRoute(RemoveFirst(rem, d), v, mat, d.id, 0.0 + d.weight, t', [] + [d]);
      StopsKeepPrefix(RemoveFirst(rem, d), v, mat, d.id, 0.0 + d.weight, t', [] + [d]);
    }
  }

  // ------------------------------------------------------------ the fleet loop

  /** The `for vehicle in vehicles` loop from vehicle vi on, as written: a
      vehicle whose route stays empty adds no route, so the routes after
      it move down one index. */
  function Fleet(vs: seq<Vehicle>, vi: nat, rem: seq<Delivery>, mat: Matrix)
    : (r: (seq<Init.Built>, seq<Delivery>))
    requires vi <= |vs|
    ensures |r.0| <= |vs| - vi
    decreases |vs| - vi
  {
    if vi == |vs| || |rem| == 0 then ([], rem)
    else
      var route := BuildRoute(rem, vs[vi], mat, DepotKey, 0.0, 0.0, []);
      var tail := Fleet(vs, vi + 1, route.1, mat);
      (if |route.0| > 0 then [Init.Built(vi, route.0)] + tail.0 else tail.0, tail.1)
  }

  /** A built entry is non-empty and fits the vehicle whose loop built it. */
  predicate FitsBuilder(vs: seq<Vehicle>, mat: Matrix, b: Init.Built)
  {
    b.vehicle < |vs| && |b.stops| > 0 && Within(vs[b.vehicle], mat, b.stops)
  }

  /** The entries fit their builders, which increase from vi on. */
  predicate BuiltInOrder(vs: seq<Vehicle>, vi: nat, mat: Matrix, bs: seq<Init.Built>)
  {
    && (forall j :: 0 <= j < |bs| ==> vi <= bs[j].vehicle && FitsBuilder(vs, mat, bs[j]))
    && (forall a, b :: 0 <= a < b < |bs| ==> bs[a].vehicle < bs[b].vehicle)
  }

  lemma BuiltInOrderCons(vs: seq<Vehicle>, vi: nat, mat: Matrix, b: Init.Built, rest: seq<Init.Built>)
    requires BuiltInOrder(vs, vi + 1, mat, rest)
    requires b.vehicle == vi && FitsBuilder(vs, mat, b)
    ensures BuiltInOrder(vs, vi, mat, [b] + rest)
  {
    var bs := [b] + rest;
    forall j | 1 <= j < |bs|
      ensures vi < bs[j].vehicle && FitsBuilder(vs, mat, bs[j])
    {
      assert bs[j] == rest[j - 1];
    }
    forall x, y | 0 <= x < y < |bs|
      ensures bs[x].vehicle < bs[y].vehicle
    {
      assert bs[y] == rest[y - 1];
      if x > 0 {
        assert bs[x] == rest[x - 1];
      }
    }
  }

  /** One round of the fleet loop. */
  lemma FleetStep(vs: seq<Vehicle>, vi: nat, rem: seq<Delivery>, mat: Matrix)
    requires vi < |vs| && |rem| > 0
    ensures var r := Fleet(vs, vi, rem, mat);
      var route := BuildRoute(rem, vs[vi], mat, DepotKey, 0.0, 0.0, []);
      var tail := Fleet(vs, vi + 1, route.1, mat);
      && r.1 == tail.1
      && r.0 == (if |route.0| > 0 then [Init.Built(vi, route.0)] + tail.0 else tail.0)
      && Flatten(Init.AllStops(r.0)) == route.0 + Flatten(Init.AllStops(tail.0))
  {
    var r := Fleet(vs, vi, rem, mat);
    var route := BuildRoute(rem, vs[vi], mat, DepotKey, 0.0, 0.0, []);
    var tail := Fleet(vs, vi + 1, route.1, mat);
    if |route.0| > 0 {
      assert r.0 == [Init.Built(vi, route.0)] + tail.0;
      Init.FlattenAllStopsCons(Init.Built(vi, route.0), tail.0);
    } else {
      assert r.0 == tail.0 && route.0 + Flatten(Init.AllStops(tail.0)) == Flatten(Init.AllStops(tail.0));
    }
  }

  /** Every delivery ends on a route or among the leftovers, once. */
  lemma {:induction false} FleetCovers(vs: seq<Vehicle>, vi: nat, rem: seq<Delivery>, mat: Matrix)
    requires vi <= |vs|
    ensures multiset(Flatten(Init.AllStops(Fleet(vs, vi, rem, mat).0))) + multiset(Fleet(vs, vi, rem, mat).1)
            == multiset(rem)
    decreases |vs| - vi
  {
    if vi < |vs| && |rem| > 0 {
      var route := BuildRoute(rem, vs[vi], mat, DepotKey, 0.0, 0.0, []);
      var stops, rem' := route.0, route.1;
      var tail := Fleet(vs, vi + 1, rem', mat);
      var later := Flatten(Init.AllStops(tail.0));
      var r := Fleet(vs, vi, rem, mat);
      assert Flatten(Init.AllStops(r.0)) == stops + later && r.1 == tail.1 by {
        FleetStep(vs, vi, rem, mat);
      }
      assert multiset(later) + multiset(tail.1) == multiset(rem') by {
        FleetCovers(vs, vi + 1, rem', mat);
      }
      assert multiset(stops) + multiset(rem') == multiset(rem) by {
        BuildRouteMoves(rem, vs[vi], mat, DepotKey, 0.0, 0.0, []);
      }
      Init.MovesCompose(stops, later, tail.1, rem', rem);
    }
  }

  lemma {:induction false} FleetFeasible(vs: seq<Vehicle>, vi: nat, rem: seq<Delivery>, mat: Matrix)
    requires vi <= |vs|
    ensures BuiltInOrder(vs, vi, mat, Fleet(vs, vi, rem, mat).0)
    decreases |vs| - vi
  {
    var r := Fleet(vs, vi, rem, mat);
    if vi < |vs| && |rem| > 0 {
      var route := BuildRoute(rem, vs[vi], mat, DepotKey, 0.0, 0.0, []);
      var stops, rem' := route.0, route.1;
      var rest := Fleet(vs, vi + 1, rem', mat).0;
      assert r.0 == (if |stops| > 0 then [Init.Built(vi, stops)] + rest else rest) by {
        FleetStep(vs, vi, rem, mat);
      }
      assert BuiltInOrder(vs, vi + 1, mat, rest) by {
        FleetFeasible(vs, vi + 1, rem', mat);
      }
      if |stops| > 0 {
        assert FitsBuilder(vs, mat, Init.Built(vi, stops)) by {
          BuildRouteWithin(rem, vs[vi], mat, DepotKey, 0.0, 0.0, []);
        }
        BuiltInOrderCons(vs, vi, mat, Init.Built(vi, stops), rest);
      }
    } else {
      assert r.0 == [];
    }
  }

  // ----------------------------------------------------- leftovers and result

  /** `while remaining_deliveries: routes.append([first key])`. */
  function Singletons(ids: seq<Id>): (r: Routes)
    ensures |r| == |ids|
    ensures forall k :: 0 <= k < |ids| ==> r[k] == [ids[k]]
  {
    seq(|ids|, k requires 0 <= k < |ids| => [ids[k]])
  }

  lemma {:induction false} FlattenSingletons(ids: seq<Id>)
    ensures Flatten(Singletons(ids)) == ids
  {
    if |ids| > 0 {
      assert Singletons(ids)[1..] == Singletons(ids[1..]);
      FlattenSingletons(ids[1..]);
    }
  }

  /** The fleet loop over the dict of all deliveries. */
  function FleetPlan(ds: seq<Delivery>, vs: seq<Vehicle>, mat: Matrix): (r: (seq<Init.Built>, seq<Delivery>))
    ensures |r.0| <= |vs|
  {
    Fleet(vs, 0, DictItems(ds), mat)
  }

  /** `_solve_greedy` as written: the non-empty fleet routes, then one
      singleton route per leftover delivery. */
  function SolveGreedy(ds: seq<Delivery>, vs: seq<Vehicle>, mat: Matrix): (routes: Routes)
  {
    IdRoutes(Init.AllStops(FleetPlan(ds, vs, mat).0)) + Singletons(Ids(FleetPlan(ds, vs, mat).1))
  }

  /** Two lists of deliveries with the same multiset carry the same ids. */
  lemma IdsOfSameMultiset(a: seq<Delivery>, b: seq<Delivery>, id: Id)
    requires multiset(a) == multiset(b)
    ensures id in Ids(a) <==> id in Ids(b)
  {
    if id in Ids(a) {
      var j :| 0 <= j < |a| && Ids(a)[j] == id;
      assert a[j] in multiset(b);
      var k :| 0 <= k < |b| && b[k] == a[j];
      assert Ids(b)[k] == id;
    }
    if id in Ids(b) {
      var j :| 0 <= j < |b| && Ids(b)[j] == id;
      assert b[j] in multiset(a);
      var k :| 0 <= k < |a| && a[k] == b[j];
      assert Ids(a)[k] == id;
    }
  }

  /** Routes drawn from the dict's items, all of them once, hold every
      input id exactly once. */
  lemma CoverFromParts(ds: seq<Delivery>, plan: seq<seq<Delivery>>, left: seq<Delivery>)
    requires multiset(Flatten(plan)) + multiset(left) == multiset(DictItems(ds))
    ensures Distinct(Flatten(IdRoutes(plan) + Singletons(Ids(left))))
    ensures forall id :: id in Flatten(IdRoutes(plan) + Singletons(Ids(left))) <==>
                         exists i :: 0 <= i < |ds| && ds[i].id == id
  {
    var all := Flatten(plan) + left;
    assert Flatten(IdRoutes(plan) + Singletons(Ids(left))) == Ids(all) by {
      FlattenConcat(IdRoutes(plan), Singletons(Ids(left)));
      FlattenIdRoutes(plan);
      FlattenSingletons(Ids(left));
      IdsConcat(Flatten(plan), left);
    }
    assert Distinct(Ids(all)) by {
      DictItemsShape(ds);
      SubMultisetDistinctIds(all, DictItems(ds));
    }
    forall id
      ensures id in Ids(all) <==> exists i :: 0 <= i < |ds| && ds[i].id == id
    {
      IdsOfSameMultiset(all, DictItems(ds), id);
      DictItemsIds(ds, id);
    }
  }

  /** Every input delivery id appears in exactly one route, once. */
  lemma SolveGreedyCovers(ds: seq<Delivery>, vs: seq<Vehicle>, mat: Matrix)
    ensures Distinct(Flatten(SolveGreedy(ds, vs, mat)))
    ensures forall id :: id in Flatten(SolveGreedy(ds, vs, mat)) <==> exists i :: 0 <= i < |ds| && ds[i].id == id
  {
    var f := FleetPlan(ds, vs, mat);
    assert multiset(Flatten(Init.AllStops(f.0))) + multiset(f.1) == multiset(DictItems(ds)) by {
      FleetCovers(vs, 0, DictItems(ds), mat);
    }
    CoverFromParts(ds, Init.AllStops(f.0), f.1);
  }

  /** The weight of a route read through the dict is the weight of its
      stops, when each stop is the dict's entry for its id. */
  lemma {:induction false} LoadOfStops(m: map<Id, Delivery>, stops: seq<Delivery>)
    requires forall i :: 0 <= i < |stops| ==> stops[i].id in m && m[stops[i].id] == stops[i]
    ensures Load(m, Ids(stops)) == WeightSum(stops)
  {
    if |stops| > 0 {
      assert Ids(stops)[1..] == Ids(stops[1..]);
      LoadOfStops(m, stops[1..]);
    }
  }

  /** The fleet part: at most one route per vehicle, in vehicle order, each
      fitting the capacity and the outbound range of the vehicle that built
      it; after it come single-delivery routes. */
  lemma SolveGreedyShape(ds: seq<Delivery>, vs: seq<Vehicle>, mat: Matrix)
    ensures |SolveGreedy(ds, vs, mat)| == |FleetPlan(ds, vs, mat).0| + |FleetPlan(ds, vs, mat).1|
    ensures forall j :: 0 <= j < |FleetPlan(ds, vs, mat).0| ==>
              FleetPlan(ds, vs, mat).0[j].vehicle < |vs|
              && SolveGreedy(ds, vs, mat)[j] == Ids(FleetPlan(ds, vs, mat).0[j].stops)
              && |SolveGreedy(ds, vs, mat)[j]| > 0
              && Load(Index(ds), SolveGreedy(ds, vs, mat)[j])
                 <= vs[FleetPlan(ds, vs, mat).0[j].vehicle].maxCapacity
              && IdLegs(mat, [DepotKey] + SolveGreedy(ds, vs, mat)[j])
                 <= vs[FleetPlan(ds, vs, mat).0[j].vehicle].maxRange
    ensures forall a, b :: 0 <= a < b < |FleetPlan(ds, vs, mat).0| ==>
              FleetPlan(ds, vs, mat).0[a].vehicle < FleetPlan(ds, vs, mat).0[b].vehicle
    ensures forall j :: |FleetPlan(ds, vs, mat).0| <= j < |SolveGreedy(ds, vs, mat)| ==>
              |SolveGreedy(ds, vs, mat)[j]| == 1
  {
    var f := FleetPlan(ds, vs, mat);
    var routes := SolveGreedy(ds, vs, mat);
    var plan := Init.AllStops(f.0);
    assert BuiltInOrder(vs, 0, mat, f.0) by {
      FleetFeasible(vs, 0, DictItems(ds), mat);
    }
    assert multiset(Flatten(plan)) <= multiset(DictItems(ds)) by {
      FleetCovers(vs, 0, DictItems(ds), mat);
    }
    forall j | 0 <= j < |f.0|
      ensures Load(Index(ds), routes[j]) <= vs[f.0[j].vehicle].maxCapacity
      ensures IdLegs(mat, [DepotKey] + routes[j]) <= vs[f.0[j].vehicle].maxRange
    {
      var stops := f.0[j].stops;
      assert routes[j] == Ids(stops);
      assert FitsBuilder(vs, mat, f.0[j]);
      assert multiset(stops) <= multiset(DictItems(ds)) by {
        assert stops == plan[j];
        InFlattenSub(plan, j);
      }
      assert Load(Index(ds), Ids(stops)) == WeightSum(stops) by {
        StopsAreItems(ds, stops);
      }
    }
  }

  /** An inner list's multiset is part of the flattened one. */
  lemma {:induction false} InFlattenSub<T>(ss: seq<seq<T>>, j: nat)
    requires j < |ss|
    ensures multiset(ss[j]) <= multiset(Flatten(ss))
  {
    if j > 0 {
      InFlattenSub(ss[1..], j - 1);
    }
  }

  /** Deliveries drawn from the dict's items are the dict's entries. */
  lemma StopsAreItems(ds: seq<Delivery>, stops: seq<Delivery>)
    requires multiset(stops) <= multiset(DictItems(ds))
    ensures Load(Index(ds), Ids(stops)) == WeightSum(stops)
  {
    DictItemsShape(ds);
    forall i | 0 <= i < |stops|
      ensures stops[i].id in Index(ds) && Index(ds)[stops[i].id] == stops[i]
    {
      assert stops[i] in multiset(DictItems(ds));
      var k :| 0 <= k < |DictItems(ds)| && DictItems(ds)[k] == stops[i];
    }
    LoadOfStops(Index(ds), stops);
  }

  // -------------------------------------------- the fleet loop, index-aligned

  /** The fleet loop keeping an empty route in place, so that route i is
      the route of vehicle i; the routes of `Fleet` are these with the
      empty ones dropped. */
  function FleetAligned(vs: seq<Vehicle>, vi: nat, rem: seq<Delivery>, mat: Matrix)
    : (r: (seq<seq<Delivery>>, seq<Delivery>))
    requires vi <= |vs|
    ensures |r.0| <= |vs| - vi
    decreases |vs| - vi
  {
    if vi == |vs| || |rem| == 0 then ([], rem)
    else
      var route := BuildRoute(rem, vs[vi], mat, DepotKey, 0.0, 0.0, []);
      var tail := FleetAligned(vs, vi + 1, route.1, mat);
      ([route.0] + tail.0, tail.1)
  }

  /** One round of the aligned loop. */
  lemma FleetAlignedStep(vs: seq<Vehicle>, vi: nat, rem: seq<Delivery>, mat: Matrix)
    requires vi < |vs| && |rem| > 0
    ensures var route := BuildRoute(rem, vs[vi], mat, DepotKey, 0.0, 0.0, []);
      var tail := FleetAligned(vs, vi + 1, route.1, mat);
      && FleetAligned(vs, vi, rem, mat) == ([route.0] + tail.0, tail.1)
      && Flatten(FleetAligned(vs, vi, rem, mat).0) == route.0 + Flatten(tail.0)
  {
    var route := BuildRoute(rem, vs[vi], mat, DepotKey, 0.0, 0.0, []);
    var tail := FleetAligned(vs, vi + 1, route.1, mat);
    assert ([route.0] + tail.0)[1..] == tail.0;
  }

  /** Dropping the empty routes of the aligned loop gives the loop as
      written, with the same leftovers. */
  lemma {:induction false} FleetCompacts(vs: seq<Vehicle>, vi: nat, rem: seq<Delivery>, mat: Matrix)
    requires vi <= |vs|
    ensures Init.AllStops(Fleet(vs, vi, rem, mat).0) == DropEmpty(FleetAligned(vs, vi, rem, mat).0)
    ensures Fleet(vs, vi, rem, mat).1 == FleetAligned(vs, vi, rem, mat).1
    decreases |vs| - vi
  {
    if vi < |vs| && |rem| > 0 {
      var route := BuildRoute(rem, vs[vi], mat, DepotKey, 0.0, 0.0, []);
      var tail := Fleet(vs, vi + 1, route.1, mat);
      var atail := FleetAligned(vs, vi + 1, route.1, mat);
      assert Init.AllStops(tail.0) == DropEmpty(atail.0) && tail.1 == atail.1 by {
        FleetCompacts(vs, vi + 1, route.1, mat);
      }
      assert FleetAligned(vs, vi, rem, mat) == ([route.0] + atail.0, atail.1) by {
        FleetAlignedStep(vs, vi, rem, mat);
      }
      assert Fleet(vs, vi, rem, mat) == (if |route.0| > 0 then [Init.Built(vi, route.0)] + tail.0 else tail.0, tail.1) by {
        FleetStep(vs, vi, rem, mat);
      }
      CompactCons(vi, route.0, tail.0, atail.0);
    } else {
      assert Fleet(vs, vi, rem, mat) == ([], rem);
      assert FleetAligned(vs, vi, rem, mat) == ([], rem);
    }
  }

  /** One more route in front keeps the compacted and aligned lists in step. */
  lemma CompactCons(vi: nat, route: seq<Delivery>, tail: seq<Init.Built>, atail: seq<seq<Delivery>>)
    requires Init.AllStops(tail) == DropEmpty(atail)
    ensures Init.AllStops(if |route| > 0 then [Init.Built(vi, route)] + tail else tail)
            == DropEmpty([route] + atail)
  {
    var a := [route] + atail;
    assert a[1..] == atail;
    if |route| > 0 {
      assert DropEmpty(a) == [route] + DropEmpty(atail);
      assert Init.AllStops([Init.Built(vi, route)] + tail) == [route] + Init.AllStops(tail);
    } else {
      assert DropEmpty(a) == DropEmpty(atail);
    }
  }

  /** The aligned loop also places every remaining delivery exactly once:
      it differs from the compacting loop only by its empty routes. */
  lemma FleetAlignedCovers(vs: seq<Vehicle>, vi: nat, rem: seq<Delivery>, mat: Matrix)
    requires vi <= |vs|
    ensures multiset(Flatten(FleetAligned(vs, vi, rem, mat).0)) + multiset(FleetAligned(vs, vi, rem, mat).1)
            == multiset(rem)
  {
    var a := FleetAligned(vs, vi, rem, mat);
    var f := Fleet(vs, vi, rem, mat);
    assert Init.AllStops(f.0) == DropEmpty(a.0) && f.1 == a.1 by {
      FleetCompacts(vs, vi, rem, mat);
    }
    assert Flatten(DropEmpty(a.0)) == Flatten(a.0) by {
      FlattenDropEmpty(a.0);
    }
    assert multiset(Flatten(Init.AllStops(f.0))) + multiset(f.1) == multiset(rem) by {
      FleetCovers(vs, vi, rem, mat);
    }
  }

  /** Route j of `ss` fits vehicle vi + j whenever it is not empty. */
  predicate FitsFrom(vs: seq<Vehicle>, vi: nat, mat: Matrix, ss: seq<seq<Delivery>>)
  {
    forall j :: 0 <= j < |ss| && |ss[j]| > 0 ==> vi + j < |vs| && Within(vs[vi + j], mat, ss[j])
  }

  lemma FitsFromCons(vs: seq<Vehicle>, vi: nat, mat: Matrix, route: seq<Delivery>, tail: seq<seq<Delivery>>)
    requires vi < |vs|
    requires |route| > 0 ==> Within(vs[vi], mat, route)
    requires FitsFrom(vs, vi + 1, mat, tail)
    ensures FitsFrom(vs, vi, mat, [route] + tail)
  {
    var a := [route] + tail;
    forall j | 1 <= j < |a| && |a[j]| > 0
      ensures vi + j < |vs| && Within(vs[vi + j], mat, a[j])
    {
      assert a[j] == tail[j - 1];
      assert vi + 1 + (j - 1) == vi + j;
    }
  }

  /** Route j of the aligned loop was built by vehicle vi + j and fits it. */
  lemma {:induction false} FleetAlignedFits(vs: seq<Vehicle>, vi: nat, rem: seq<Delivery>, mat: Matrix)
    requires vi <= |vs|
    ensures FitsFrom(vs, vi, mat, FleetAligned(vs, vi, rem, mat).0)
    decreases |vs| - vi
  {
    if vi < |vs| && |rem| > 0 {
      var route := BuildRoute(rem, vs[vi], mat, DepotKey, 0.0, 0.0, []);
      var tail := FleetAligned(vs, vi + 1, route.1, mat);
      assert FleetAligned(vs, vi, rem, mat).0 == [route.0] + tail.0 by {
        FleetAlignedStep(vs, vi, rem, mat);
      }
      assert |route.0| > 0 ==> Within(vs[vi], mat, route.0) by {
        BuildRouteWithin(rem, vs[vi], mat, DepotKey, 0.0, 0.0, []);
      }
      assert FitsFrom(vs, vi + 1, mat, tail.0) by {
        FleetAlignedFits(vs, vi + 1, route.1, mat);
      }
      FitsFromCons(vs, vi, mat, route.0, tail.0);
    }
  }

  /** Deliveries are left over only when every vehicle from vi on was used. */
  lemma {:induction false} FleetAlignedFull(vs: seq<Vehicle>, vi: nat, rem: seq<Delivery>, mat: Matrix)
    requires vi <= |vs|
    ensures |FleetAligned(vs, vi, rem, mat).1| > 0 ==> |FleetAligned(vs, vi, rem, mat).0| == |vs| - vi
    decreases |vs| - vi
  {
    if vi < |vs| && |rem| > 0 {
      var route := BuildRoute(rem, vs[vi], mat, DepotKey, 0.0, 0.0, []);
      var tail := FleetAligned(vs, vi + 1, route.1, mat);
      assert FleetAligned(vs, vi, rem, mat) == ([route.0] + tail.0, tail.1) by {
        FleetAlignedStep(vs, vi, rem, mat);
      }
      assert |tail.1| > 0 ==> |tail.0| == |vs| - (vi + 1) by {
        FleetAlignedFull(vs, vi + 1, route.1, mat);
      }
    }
  }

  /** `_solve_greedy` with the route of every vehicle kept at its index,
      empty or not, then the singleton leftovers. */
  function SolveGreedyAligned(ds: seq<Delivery>, vs: seq<Vehicle>, mat: Matrix): (routes: Routes)
  {
    IdRoutes(FleetAligned(vs, 0, DictItems(ds), mat).0) + Singletons(Ids(FleetAligned(vs, 0, DictItems(ds), mat).1))
  }

  /** The aligned solve covers every id exactly once, like the original. */
  lemma SolveGreedyAlignedCovers(ds: seq<Delivery>, vs: seq<Vehicle>, mat: Matrix)
    ensures Distinct(Flatten(SolveGreedyAligned(ds, vs, mat)))
    ensures forall id :: id in Flatten(SolveGreedyAligned(ds, vs, mat)) <==>
                         exists i :: 0 <= i < |ds| && ds[i].id == id
  {
    var f := FleetAligned(vs, 0, DictItems(ds), mat);
    assert multiset(Flatten(f.0)) + multiset(f.1) == multiset(DictItems(ds)) by {
      FleetAlignedCovers(vs, 0, DictItems(ds), mat);
    }
    CoverFromParts(ds, f.0, f.1);
  }

  /** Every fleet route of the aligned solve is judged against the vehicle
      that built it: route j fits vehicle j in weight and outbound range. */
  lemma SolveGreedyAlignedFits(ds: seq<Delivery>, vs: seq<Vehicle>, mat: Matrix, j: nat)
    requires j < |FleetAligned(vs, 0, DictItems(ds), mat).0|
    requires |SolveGreedyAligned(ds, vs, mat)[j]| > 0
    ensures j < |vs|
    ensures Load(Index(ds), SolveGreedyAligned(ds, vs, mat)[j]) <= vs[j].maxCapacity
    ensures IdLegs(mat, [DepotKey] + SolveGreedyAligned(ds, vs, mat)[j]) <= vs[j].maxRange
  {
    var f := FleetAligned(vs, 0, DictItems(ds), mat);
    var stops := f.0[j];
    assert SolveGreedyAligned(ds, vs, mat)[j] == Ids(stops);
    assert Within(vs[j], mat, stops) by {
      FleetAlignedFits(vs, 0, DictItems(ds), mat);
      assert FitsFrom(vs, 0, mat, f.0);
    }
    assert multiset(stops) <= multiset(DictItems(ds)) by {
      FleetAlignedCovers(vs, 0, DictItems(ds), mat);
      InFlattenSub(f.0, j);
    }
    StopsAreItems(ds, stops);
  }

  /** The id lists of the non-empty routes are the non-empty id lists. */
  lemma {:induction false} IdRoutesDropEmpty(plan: seq<seq<Delivery>>)
    ensures IdRoutes(DropEmpty(plan)) == DropEmpty(IdRoutes(plan))
  {
    if |plan| > 0 {
      var rest := plan[1..];
      IdRoutesDropEmpty(rest);
      var ids := IdRoutes(plan);
      assert ids[1..] == IdRoutes(rest);
      assert DropEmpty(ids) == (if |ids[0]| > 0 then [ids[0]] else []) + DropEmpty(ids[1..]);
      var head := if |plan[0]| > 0 then [plan[0]] else [];
      assert DropEmpty(plan) == head + DropEmpty(rest);
      IdRoutesConcat(head, DropEmpty(rest));
      assert IdRoutes(head) == if |ids[0]| > 0 then [ids[0]] else [];
    }
  }

  /** Reading the ids off two joined plans reads them off each. */
  lemma IdRoutesConcat(a: seq<seq<Delivery>>, b: seq<seq<Delivery>>)
    ensures IdRoutes(a + b) == IdRoutes(a) + IdRoutes(b)
  {
    var l, r := IdRoutes(a + b), IdRoutes(a) + IdRoutes(b);
    assert |l| == |r|;
    forall i | 0 <= i < |l|
      ensures l[i] == r[i]
    {
      if i < |a| {
        assert (a + b)[i] == a[i];
      } else {
        assert (a + b)[i] == b[i - |a|];
      }
    }
  }

  /** `_solve_greedy` as written is the aligned plan with its empty routes
      dropped: the same routes in the same order, moved down past every
      vehicle that took nothing. */
  lemma SolveGreedyCompacts(ds: seq<Delivery>, vs: seq<Vehicle>, mat: Matrix)
    ensures SolveGreedy(ds, vs, mat) == DropEmpty(SolveGreedyAligned(ds, vs, mat))
  {
    var a := FleetAligned(vs, 0, DictItems(ds), mat);
    FleetCompacts(vs, 0, DictItems(ds), mat);
    IdRoutesDropEmpty(a.0);
    DropEmptyConcat(IdRoutes(a.0), Singletons(Ids(a.1)));
    DropEmptyNone(Singletons(Ids(a.1)));
  }

  /** When every route of the aligned plan is non-empty, the plan as
      written is the aligned plan. */
  lemma SolveGreedyAgrees(ds: seq<Delivery>, vs: seq<Vehicle>, mat: Matrix)
    requires Used(SolveGreedyAligned(ds, vs, mat)) == |SolveGreedyAligned(ds, vs, mat)|
    ensures SolveGreedy(ds, vs, mat) == SolveGreedyAligned(ds, vs, mat)
  {
    SolveGreedyCompacts(ds, vs, mat);
    UsedCounts(SolveGreedyAligned(ds, vs, mat));
    DropEmptyNone(SolveGreedyAligned(ds, vs, mat));
  }
}
