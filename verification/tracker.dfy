/** `VehicleTracker` of visualization/vehicle_tracker.py: one tracking per
    vehicle with a non-empty route, refreshed on demand from the fraction of
    its deliveries completed. A moment is a real number of hours; the
    readings of `datetime.now()` are arguments. */
module Tracker {
  import opened Wrappers
  import opened Seqs
  import opened Types

  /** `VehicleStatus`. */
  datatype Status = Waiting | InTransit | Delivering | Returning | Completed
  {
    function Label(): string
    {
      match this
      case Waiting => "Aguardando in\U{ed}cio"
      case InTransit => "Em tr\U{e2}nsito"
      case Delivering => "Entregando"
      case Returning => "Retornando"
      case Completed => "Conclu\U{ed}do"
    }
  }

  /** `VehicleTracking`. */
  datatype Tracking = Tracking(
    vehicle: nat,
    status: Status,
    location: Point,
    nextStop: Option<Id>,
    nextStopName: Option<string>,
    distanceToNext: real,
    eta: Option<real>,
    speed: real,
    progress: real,
    route: Route,
    completed: seq<Id>)

  /** The tracker: its start time and its dict of trackings, in insertion
      order. */
  datatype VehicleTracker = VehicleTracker(start: real, trackings: seq<Tracking>)

  /** The simulated speed of a vehicle in transit, in km/h. */
  const TransitSpeed: real := 45.0

  /** The status a vehicle starts with: waiting before the start time, in
      transit from then on. */
  function Initial(start: real, now: real): (s: Status)
    ensures s == Waiting <==> now < start
    ensures s == InTransit <==> now >= start
  {
    if now < start then Waiting else InTransit
  }

  /** The tracking `initialize_from_solution` builds for route `i`. */
  function Fresh(route: Route, i: nat, m: map<Id, Delivery>, depot: Point, start: real, now: real): Tracking
    requires |route| > 0
  {
    var name := if route[0] != "" && route[0] in m then Some(m[route[0]].id) else None;
    Tracking(i + 1, Initial(start, now), depot, Some(route[0]), name, 0.0, None, 0.0, 0.0, route, [])
  }

  /** The loop of `initialize_from_solution` from route `i` on; `now(i)` is
      the clock read for route `i`. */
  function TrackFrom(routes: Routes, m: map<Id, Delivery>, depot: Point, start: real, now: nat -> real, i: nat): seq<Tracking>
    requires i <= |routes|
    decreases |routes| - i
  {
    if i == |routes| then []
    else if |routes[i]| == 0 then TrackFrom(routes, m, depot, start, now, i + 1)
    else [Fresh(routes[i], i, m, depot, start, now(i))] + TrackFrom(routes, m, depot, start, now, i + 1)
  }

  /** `initialize_from_solution`: the previous trackings are dropped. */
  function Initialize(t: VehicleTracker, sol: Solution, ds: seq<Delivery>, depot: Point, now: nat -> real): VehicleTracker
  {
    VehicleTracker(t.start, TrackFrom(sol.routes, Index(ds), depot, t.start, now, 0))
  }

  /** A tracking of vehicle `k + 1`, fresh from the depot on route `k`. */
  predicate FreshFor(tr: Tracking, routes: Routes, depot: Point)
  {
    && 1 <= tr.vehicle <= |routes| && |routes[tr.vehicle - 1]| > 0 && tr.route == routes[tr.vehicle - 1]
    && tr.location == depot && tr.nextStop == Some(tr.route[0]) && tr.completed == []
    && tr.progress == 0.0 && tr.speed == 0.0 && (tr.status == Waiting || tr.status == InTransit)
  }

  /** Each tracking is for a vehicle past `i`, fresh on its own route. */
  predicate FreshAfter(ts: seq<Tracking>, routes: Routes, depot: Point, i: nat)
  {
    forall j :: 0 <= j < |ts| ==> i < ts[j].vehicle && FreshFor(ts[j], routes, depot)
  }

  /** The vehicles come in increasing order, so each comes once. */
  predicate Increasing(ts: seq<Tracking>)
  {
    forall j, j' :: 0 <= j < j' < |ts| ==> ts[j].vehicle < ts[j'].vehicle
  }

  /** One tracking per non-empty route from `i` on. */
  lemma {:induction false} TrackFromLength(routes: Routes, m: map<Id, Delivery>, depot: Point, start: real,
                                           now: nat -> real, i: nat)
    requires i <= |routes|
    ensures |TrackFrom(routes, m, depot, start, now, i)| == Used(routes[i..])
    decreases |routes| - i
  {
    if i < |routes| {
      TrackFromLength(routes, m, depot, start, now, i + 1);
      assert routes[i..] == [routes[i]] + routes[i + 1..];
      UsedCons(routes[i], routes[i + 1..]);
    }
  }

  /** Each tracking built from `i` on is for a vehicle past `i`, fresh on its
      own route, and the vehicles come in increasing order. */
  lemma {:induction false} TrackFromFresh(routes: Routes, m: map<Id, Delivery>, depot: Point, start: real,
                                          now: nat -> real, i: nat)
    requires i <= |routes|
    ensures FreshAfter(TrackFrom(routes, m, depot, start, now, i), routes, depot, i)
    ensures Increasing(TrackFrom(routes, m, depot, start, now, i))
    decreases |routes| - i
  {
    if i < |routes| {
      TrackFromFresh(routes, m, depot, start, now, i + 1);
      var rest := TrackFrom(routes, m, depot, start, now, i + 1);
      var ts := TrackFrom(routes, m, depot, start, now, i);
      if |routes[i]| > 0 {
        var f := Fresh(routes[i], i, m, depot, start, now(i));
        assert ts == [f] + rest;
        assert f.vehicle == i + 1 && FreshFor(f, routes, depot);
        forall j | 0 <= j < |ts|
          ensures i < ts[j].vehicle && FreshFor(ts[j], routes, depot)
        {
          if j > 0 { assert ts[j] == rest[j - 1]; }
        }
        forall j, j' | 0 <= j < j' < |ts|
          ensures ts[j].vehicle < ts[j'].vehicle
        {
          assert ts[j'] == rest[j' - 1];
          if j > 0 { assert ts[j] == rest[j - 1]; }
        }
      } else {
        assert ts == rest;
      }
    }
  }

  /** Every non-empty route from `i` on has its tracking. */
  lemma {:induction false} TrackFromCovers(routes: Routes, m: map<Id, Delivery>, depot: Point, start: real,
                                           now: nat -> real, i: nat, k: nat)
    requires i <= k < |routes| && |routes[k]| > 0
    ensures exists j :: 0 <= j < |TrackFrom(routes, m, depot, start, now, i)| &&
                        TrackFrom(routes, m, depot, start, now, i)[j].vehicle == k + 1
    decreases |routes| - i
  {
    var ts := TrackFrom(routes, m, depot, start, now, i);
    if k == i {
      var f := Fresh(routes[i], i, m, depot, start, now(i));
      assert ts == [f] + TrackFrom(routes, m, depot, start, now, i + 1);
      assert ts[0] == f && f.vehicle == k + 1;
    } else {
      TrackFromCovers(routes, m, depot, start, now, i + 1, k);
      var rest := TrackFrom(routes, m, depot, start, now, i + 1);
      var j :| 0 <= j < |rest| && rest[j].vehicle == k + 1;
      if |routes[i]| > 0 {
        assert ts == [Fresh(routes[i], i, m, depot, start, now(i))] + rest;
        assert ts[j + 1].vehicle == k + 1;
      } else {
        assert ts[j].vehicle == k + 1;
      }
    }
  }

  /** After `initialize_from_solution` the tracker holds one fresh tracking
      per non-empty route, keyed by index + 1, in route order. */
  lemma InitializeShape(t: VehicleTracker, sol: Solution, ds: seq<Delivery>, depot: Point, now: nat -> real)
    ensures var ts := Initialize(t, sol, ds, depot, now).trackings;
            && |ts| == Used(sol.routes)
            && FreshAfter(ts, sol.routes, depot, 0) && Increasing(ts)
            && (forall k :: 0 <= k < |sol.routes| && |sol.routes[k]| > 0 ==>
                  exists j :: 0 <= j < |ts| && ts[j].vehicle == k + 1)
  {
    TrackFromLength(sol.routes, Index(ds), depot, t.start, now, 0);
    TrackFromFresh(sol.routes, Index(ds), depot, t.start, now, 0);
    assert sol.routes[0..] == sol.routes;
    forall k | 0 <= k < |sol.routes| && |sol.routes[k]| > 0
      ensures exists j :: 0 <= j < |TrackFrom(sol.routes, Index(ds), depot, t.start, now, 0)| &&
                          TrackFrom(sol.routes, Index(ds), depot, t.start, now, 0)[j].vehicle == k + 1
    {
      TrackFromCovers(sol.routes, Index(ds), depot, t.start, now, 0, k);
    }
  }

  // ------------------------------------------------------------- updating

  /** The position of vehicle `id`'s tracking, if it has one. */
  function Find(ts: seq<Tracking>, id: nat): (r: Option<nat>)
    ensures r.Some? ==> r.value < |ts| && ts[r.value].vehicle == id
    ensures r.None? <==> forall j :: 0 <= j < |ts| ==> ts[j].vehicle != id
  {
    if |ts| == 0 then None
    else if ts[0].vehicle == id then Some(0)
    else match Find(ts[1..], id)
      case Some(j) => Some(j + 1)
      case None => None
  }

  /** `(completed / total_deliveries) * 100`. */
  function Progress(completed: nat, total: nat): real
    requires total > 0
  {
    (completed as real / total as real) * 100.0
  }

  /** The body of `update_tracking` on one tracking: progress, status and
      speed are refreshed when the route is not empty. */
  function Refresh(tr: Tracking, start: real, now: real): (r: Tracking)
    ensures r.vehicle == tr.vehicle && r.route == tr.route && r.completed == tr.completed && r.location == tr.location
    ensures |tr.route| == 0 ==> r == tr
  {
    if |tr.route| == 0 then tr
    else
      var p := Progress(|tr.completed|, |tr.route|);
      var status := if p == 0.0 then Initial(start, now) else if p < 100.0 then InTransit else Completed;
      tr.(progress := p, status := status, speed := if status == InTransit then TransitSpeed else 0.0)
  }

  /** The status ladder in terms of the counts: nothing done is waiting
      before the start and in transit after it, part done is in transit,
      all done (or more) is completed; the speed is 45 exactly in transit. */
  lemma RefreshStatus(tr: Tracking, start: real, now: real)
    requires |tr.route| > 0
    ensures var r := Refresh(tr, start, now);
            && (r.status == Waiting <==> |tr.completed| == 0 && now < start)
            && (r.status == InTransit <==> (|tr.completed| == 0 && now >= start) || 0 < |tr.completed| < |tr.route|)
            && (r.status == Completed <==> |tr.route| <= |tr.completed|)
            && (r.speed == TransitSpeed <==> r.status == InTransit)
            && (r.speed == 0.0 <==> r.status != InTransit)
            && (|tr.completed| <= |tr.route| ==> 0.0 <= r.progress <= 100.0)
  {
    var c, n := |tr.completed| as real, |tr.route| as real;
    var q := c / n;
    assert q * n == c;
    assert q == 0.0 <==> c == 0.0;
    assert q < 1.0 <==> c < n;
    if c <= n {
      DivBounds(c, 0.0, 1.0, n);
    }
  }

  /** `update_tracking`: an unknown vehicle gives `None`; otherwise its
      tracking is refreshed in place and returned, and no other tracking
      changes. */
  function Update(t: VehicleTracker, id: nat, now: real): (r: Option<(VehicleTracker, Tracking)>)
    ensures r.None? <==> Find(t.trackings, id).None?
    ensures r.Some? ==> var k := Find(t.trackings, id).value;
                        && r.value.1 == Refresh(t.trackings[k], t.start, now)
                        && r.value.0 == VehicleTracker(t.start, t.trackings[k := r.value.1])
  {
    match Find(t.trackings, id)
    case None => None
    case Some(k) =>
      var tr := Refresh(t.trackings[k], t.start, now);
      Some((VehicleTracker(t.start, t.trackings[k := tr]), tr))
  }

  /** Nothing ever adds to `completed_deliveries`, so right after
      `initialize_from_solution` every update reports zero progress and a
      status that depends only on the clock. */
  lemma UpdateAfterInitialize(t: VehicleTracker, sol: Solution, ds: seq<Delivery>, depot: Point, now: nat -> real,
                              id: nat, clock: real)
    requires Update(Initialize(t, sol, ds, depot, now), id, clock).Some?
    ensures var tr := Update(Initialize(t, sol, ds, depot, now), id, clock).value.1;
            && tr.progress == 0.0 && tr.status == Initial(t.start, clock)
            && (tr.speed == TransitSpeed <==> clock >= t.start)
  {
    var t' := Initialize(t, sol, ds, depot, now);
    var ts := TrackFrom(sol.routes, Index(ds), depot, t.start, now, 0);
    assert t'.trackings == ts && t'.start == t.start;
    TrackFromFresh(sol.routes, Index(ds), depot, t.start, now, 0);
    var k := Find(ts, id).value;
    var tr := ts[k];
    assert FreshFor(tr, sol.routes, depot);
    RefreshStatus(tr, t.start, clock);
  }

  /** `get_all_trackings`: every tracking refreshed, in insertion order. */
  function AllTrackings(t: VehicleTracker, now: real): (r: (VehicleTracker, seq<Tracking>))
    ensures |r.1| == |t.trackings| && r.0.start == t.start && r.0.trackings == r.1
    ensures forall j :: 0 <= j < |t.trackings| ==> r.1[j] == Refresh(t.trackings[j], t.start, now)
  {
    var ts := seq(|t.trackings|, j requires 0 <= j < |t.trackings| => Refresh(t.trackings[j], t.start, now));
    (VehicleTracker(t.start, ts), ts)
  }
}
