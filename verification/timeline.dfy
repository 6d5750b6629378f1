/** `TimelineGenerator` of visualization/timeline_generator.py: every
    vehicle leaves the depot at the start time and drives its route at a
    constant speed, each known delivery giving one event; the events are
    sorted by time and their arrivals bucketed against the delivery time
    windows. A moment is a real number of hours after midnight of the start
    day; the geodesic distance is the oracle `geo`. */
module Timeline {
  import opened Wrappers
  import opened Seqs
  import opened Types
  import opened Distance

  /** `TimelineEvent`; `time` is the arrival and the status is always
      "scheduled". */
  datatype Event = Event(
    time: real,
    vehicle: nat,
    id: Id,
    delivery: Delivery,
    critical: bool,
    status: string,
    arrival: real,
    departure: real)

  /** The sort key of `generate_timeline`. */
  function Time(e: Event): real
  {
    e.time
  }

  /** What an event of vehicle `vehicle` on `route` looks like: a known id
      of the route, its delivery, arrival as its time and the service time
      between arrival and departure. */
  predicate WellFormed(e: Event, m: map<Id, Delivery>, route: Route, vehicle: nat)
  {
    && e.vehicle == vehicle && e.id in route && e.id in m && e.delivery == m[e.id]
    && e.time == e.arrival && e.departure == e.arrival + e.delivery.serviceTime
    && e.critical == (e.delivery.priority == 1) && e.status == "scheduled"
  }

  function EventIds(es: seq<Event>): (r: seq<Id>)
    ensures |r| == |es| && forall i :: 0 <= i < |es| ==> r[i] == es[i].id
  {
    seq(|es|, i requires 0 <= i < |es| => es[i].id)
  }

  /** The ids of the route that are known deliveries, in route order. */
  function Known(route: Route, m: map<Id, Delivery>): (r: seq<Id>)
    ensures |r| <= |route| && forall i :: 0 <= i < |r| ==> r[i] in m
    decreases |route|
  {
    if |route| == 0 then []
    else if route[0] in m then [route[0]] + Known(route[1..], m)
    else Known(route[1..], m)
  }

  lemma EventIdsCons(e: Event, es: seq<Event>)
    ensures EventIds([e] + es) == [e.id] + EventIds(es)
  {
    assert forall i :: 1 <= i <= |es| ==> ([e] + es)[i] == es[i - 1];
  }

  /** Whether some id of the route is a known delivery. */
  predicate Visits(route: Route, m: map<Id, Delivery>)
  {
    exists i :: 0 <= i < |route| && route[i] in m
  }

  /** The inner loop for one vehicle: from `clock` at `here`, skip the
      unknown ids, drive to each known delivery, serve it, move on. A zero
      speed raises at the first known delivery. */
  function Walk(route: Route, m: map<Id, Delivery>, vehicle: nat, clock: real, here: Point, speed: real,
                geo: Metric): Result<seq<Event>>
    decreases |route|
  {
    if |route| == 0 then Success([])
    else if route[0] !in m then Walk(route[1..], m, vehicle, clock, here, speed, geo)
    else if speed == 0.0 then Failure(ZeroDivision(FloatDivisionByZero))
    else
      var d := m[route[0]];
      var arrival := clock + geo(here, d.location) / speed;
      var departure := arrival + d.serviceTime;
      var rest :- Walk(route[1..], m, vehicle, departure, d.location, speed, geo);
      Success([Event(arrival, vehicle, route[0], d, d.priority == 1, "scheduled", arrival, departure)] + rest)
  }

  /** A walk fails exactly when the speed is zero and the route has a known
      delivery to drive to. */
  lemma {:induction false} WalkFails(route: Route, m: map<Id, Delivery>, vehicle: nat, clock: real, here: Point,
                                     speed: real, geo: Metric)
    ensures var r := Walk(route, m, vehicle, clock, here, speed, geo);
            && (r.Failure? <==> speed == 0.0 && Visits(route, m))
            && (r.Failure? ==> r.error == ZeroDivision(FloatDivisionByZero))
    decreases |route|
  {
    if |route| > 0 {
      assert forall i :: 1 <= i < |route| ==> route[i] == route[1..][i - 1];
      if route[0] !in m {
        WalkFails(route[1..], m, vehicle, clock, here, speed, geo);
        assert Visits(route, m) <==> Visits(route[1..], m);
      } else if speed != 0.0 {
        var d := m[route[0]];
        WalkFails(route[1..], m, vehicle, clock + geo(here, d.location) / speed + d.serviceTime, d.location, speed, geo);
      } else {
        assert route[0] in m;
      }
    }
  }

  /** The step a walk takes over the first id of its route: the clock and
      place the rest of the route starts from. */
  function Next(route: Route, m: map<Id, Delivery>, clock: real, here: Point, speed: real, geo: Metric): (real, Point)
    requires |route| > 0 && (route[0] in m ==> speed != 0.0)
  {
    if route[0] in m then
      var d := m[route[0]];
      (clock + geo(here, d.location) / speed + d.serviceTime, d.location)
    else (clock, here)
  }

  /** The events of a walk are the route's known ids in order, one each. */
  lemma {:induction false} WalkIds(route: Route, m: map<Id, Delivery>, vehicle: nat, clock: real, here: Point,
                                   speed: real, geo: Metric)
    requires Walk(route, m, vehicle, clock, here, speed, geo).Success?
    ensures EventIds(Walk(route, m, vehicle, clock, here, speed, geo).value) == Known(route, m)
    decreases |route|
  {
    if |route| > 0 {
      var es := Walk(route, m, vehicle, clock, here, speed, geo).value;
      var (clock', here') := Next(route, m, clock, here, speed, geo);
      var rest := Walk(route[1..], m, vehicle, clock', here', speed, geo).value;
      WalkIds(route[1..], m, vehicle, clock', here', speed, geo);
      if route[0] in m {
        assert es == [es[0]] + rest;
        EventIdsCons(es[0], rest);
      }
    }
  }

  /** Every event of a walk is well formed. */
  lemma {:induction false} WalkEvents(route: Route, m: map<Id, Delivery>, vehicle: nat, clock: real, here: Point,
                                      speed: real, geo: Metric)
    requires Walk(route, m, vehicle, clock, here, speed, geo).Success?
    ensures var es := Walk(route, m, vehicle, clock, here, speed, geo).value;
            forall i :: 0 <= i < |es| ==> WellFormed(es[i], m, route, vehicle)
    decreases |route|
  {
    if |route| > 0 {
      var es := Walk(route, m, vehicle, clock, here, speed, geo).value;
      var (clock', here') := Next(route, m, clock, here, speed, geo);
      var rest := Walk(route[1..], m, vehicle, clock', here', speed, geo).value;
      WalkEvents(route[1..], m, vehicle, clock', here', speed, geo);
      Shift(route, rest, m, vehicle);
      if route[0] in m {
        forall i | 0 <= i < |es|
          ensures WellFormed(es[i], m, route, vehicle)
        {
          if i > 0 {
            assert es[i] == rest[i - 1];
          }
        }
      }
    }
  }

  /** The events of a route's tail are events of the route. */
  lemma Shift(route: Route, rest: seq<Event>, m: map<Id, Delivery>, vehicle: nat)
    requires |route| > 0
    requires forall i :: 0 <= i < |rest| ==> WellFormed(rest[i], m, route[1..], vehicle)
    ensures forall i :: 0 <= i < |rest| ==> WellFormed(rest[i], m, route, vehicle)
  {
    forall i | 0 <= i < |rest|
      ensures rest[i].id in route
    {
      var k :| 0 <= k < |route[1..]| && route[1..][k] == rest[i].id;
      assert route[k + 1] == rest[i].id;
    }
  }

  /** Each arrival is the previous departure (the start time at first)
      plus the drive from the previous stop (the depot at first). */
  predicate Chained(es: seq<Event>, clock: real, here: Point, speed: real, geo: Metric)
    decreases |es|
  {
    |es| == 0 ||
    (speed != 0.0 && es[0].arrival == clock + geo(here, es[0].delivery.location) / speed &&
     Chained(es[1..], es[0].departure, es[0].delivery.location, speed, geo))
  }

  lemma {:induction false} WalkChained(route: Route, m: map<Id, Delivery>, vehicle: nat, clock: real, here: Point,
                                       speed: real, geo: Metric)
    requires Walk(route, m, vehicle, clock, here, speed, geo).Success?
    ensures Chained(Walk(route, m, vehicle, clock, here, speed, geo).value, clock, here, speed, geo)
    decreases |route|
  {
    if |route| > 0 {
      if route[0] !in m {
        WalkChained(route[1..], m, vehicle, clock, here, speed, geo);
      } else {
        var d := m[route[0]];
        var departure := clock + geo(here, d.location) / speed + d.serviceTime;
        WalkChained(route[1..], m, vehicle, departure, d.location, speed, geo);
        var es := Walk(route, m, vehicle, clock, here, speed, geo).value;
        assert es[1..] == Walk(route[1..], m, vehicle, departure, d.location, speed, geo).value;
      }
    }
  }

  /** With a positive speed, distances and service times that are not
      negative, a vehicle's arrivals never go back in time and never come
      before its start. */
  lemma {:induction false} ChainedOrdered(es: seq<Event>, clock: real, here: Point, speed: real, geo: Metric)
    requires speed > 0.0 && forall p, q :: geo(p, q) >= 0.0
    requires forall i :: 0 <= i < |es| ==> es[i].departure == es[i].arrival + es[i].delivery.serviceTime
                                           && es[i].delivery.serviceTime >= 0.0
    requires Chained(es, clock, here, speed, geo)
    ensures forall i :: 0 <= i < |es| ==> clock <= es[i].arrival
    ensures forall i, j :: 0 <= i < j < |es| ==> es[i].departure <= es[j].arrival
    decreases |es|
  {
    if |es| > 0 {
      var g := geo(here, es[0].delivery.location);
      DivBounds(g, 0.0, g / speed + 1.0, speed) by {
        var step := g / speed;
        assert g == step * speed;
        assert (step + 1.0) * speed == step * speed + speed;
      }
      ChainedOrdered(es[1..], es[0].departure, es[0].delivery.location, speed, geo);
      forall i, j | 0 <= i < j < |es|
        ensures es[i].departure <= es[j].arrival
      {
        assert es[j] == es[1..][j - 1];
        if i > 0 {
          assert es[i] == es[1..][i - 1];
        }
      }
      forall i | 0 <= i < |es|
        ensures clock <= es[i].arrival
      {
        if i > 0 {
          assert es[i] == es[1..][i - 1];
        }
      }
    }
  }

  /** The outer loop from route `i` on: vehicle `i + 1` drives route `i`;
      an empty route is skipped. */
  function Schedule(routes: Routes, m: map<Id, Delivery>, start: real, depot: Point, speed: real, geo: Metric,
                    i: nat): Result<seq<Event>>
    requires i <= |routes|
    decreases |routes| - i
  {
    if i == |routes| then Success([])
    else
      var here :- if |routes[i]| == 0 then Success([]) else Walk(routes[i], m, i + 1, start, depot, speed, geo);
      var rest :- Schedule(routes, m, start, depot, speed, geo, i + 1);
      Success(here + rest)
  }

  /** The schedule fails exactly when the speed is zero and some route from
      `i` on has a known delivery. */
  lemma {:induction false} ScheduleFails(routes: Routes, m: map<Id, Delivery>, start: real, depot: Point, speed: real,
                                         geo: Metric, i: nat)
    requires i <= |routes|
    ensures var r := Schedule(routes, m, start, depot, speed, geo, i);
            && (r.Failure? <==> speed == 0.0 && exists k :: i <= k < |routes| && Visits(routes[k], m))
            && (r.Failure? ==> r.error == ZeroDivision(FloatDivisionByZero))
    decreases |routes| - i
  {
    if i < |routes| {
      WalkFails(routes[i], m, i + 1, start, depot, speed, geo);
      ScheduleFails(routes, m, start, depot, speed, geo, i + 1);
    }
  }

  /** Every scheduled event is a well-formed event of vehicle `k + 1` on
      route `k`, for some route from `i` on. */
  lemma {:induction false} ScheduleEvents(routes: Routes, m: map<Id, Delivery>, start: real, depot: Point, speed: real,
                                          geo: Metric, i: nat)
    requires i <= |routes| && Schedule(routes, m, start, depot, speed, geo, i).Success?
    ensures forall e :: e in Schedule(routes, m, start, depot, speed, geo, i).value ==>
              exists k :: i <= k < |routes| && WellFormed(e, m, routes[k], k + 1)
    decreases |routes| - i
  {
    if i < |routes| {
      ScheduleEvents(routes, m, start, depot, speed, geo, i + 1);
      if |routes[i]| > 0 {
        WalkEvents(routes[i], m, i + 1, start, depot, speed, geo);
      }
    }
  }

  /** `generate_timeline`: the schedule of every route, sorted by time
      (stably, so equal times keep the order of the routes). */
  function Generate(sol: Solution, ds: seq<Delivery>, start: real, depot: Point, speed: real, geo: Metric): (r: Result<seq<Event>>)
    ensures r.Failure? <==> speed == 0.0 && exists k :: 0 <= k < |sol.routes| && Visits(sol.routes[k], Index(ds))
    ensures r.Success? ==> SortedBy(r.value, Time)
    ensures r.Success? ==> var s := Schedule(sol.routes, Index(ds), start, depot, speed, geo, 0);
                           s.Success? && multiset(r.value) == multiset(s.value)
  {
    ScheduleFails(sol.routes, Index(ds), start, depot, speed, geo, 0);
    var events :- Schedule(sol.routes, Index(ds), start, depot, speed, geo, 0);
    Success(SortBy(events, Time))
  }

  /** Every event on the timeline is a known delivery of route `k`, driven
      by vehicle `k + 1`. */
  lemma GenerateEvents(sol: Solution, ds: seq<Delivery>, start: real, depot: Point, speed: real, geo: Metric)
    requires Generate(sol, ds, start, depot, speed, geo).Success?
    ensures forall e :: e in Generate(sol, ds, start, depot, speed, geo).value ==>
              exists k :: 0 <= k < |sol.routes| && WellFormed(e, Index(ds), sol.routes[k], k + 1)
  {
    ScheduleEvents(sol.routes, Index(ds), start, depot, speed, geo, 0);
    var es := Generate(sol, ds, start, depot, speed, geo).value;
    forall e | e in es
      ensures e in Schedule(sol.routes, Index(ds), start, depot, speed, geo, 0).value
    {
      assert e in multiset(es);
    }
  }

  // ---------------------------------------------------------------- stats

  /** `hour + minute / 60.0` of the arrival's datetime: the time of day to
      the minute, the date and the seconds dropped. */
  function ClockHour(t: real): (h: real)
    ensures 0.0 <= h < 24.0
  {
    ((t * 60.0).Floor % 1440) as real / 60.0
  }

  datatype Bucket = OnTime | NearLimit | Late

  predicate Windowed(e: Event)
  {
    e.delivery.windowStart.Some? && e.delivery.windowEnd.Some?
  }

  /** The `if/elif/elif` of `get_timeline_stats`; no bucket without both
      window bounds. */
  function BucketOf(e: Event): Option<Bucket>
  {
    if !Windowed(e) then None
    else
      var h, s, f := ClockHour(e.arrival), e.delivery.windowStart.value, e.delivery.windowEnd.value;
      if s <= h <= f then Some(OnTime)
      else if h < s + 0.5 then Some(NearLimit)
      else if h > f then Some(Late)
      else None
  }

  /** Every windowed event lands in exactly one bucket: an arrival outside
      the window is either before its start, hence near the limit, or after
      its end. An early arrival of any size counts as near the limit. */
  lemma BucketTotal(e: Event)
    ensures BucketOf(e).Some? <==> Windowed(e)
    ensures Windowed(e) && ClockHour(e.arrival) < e.delivery.windowStart.value ==> BucketOf(e) == Some(NearLimit)
  {
  }

  /** The date is dropped: an arrival at one in the morning of the next day
      counts as early for a 9:00-17:00 window, not as late. */
  lemma NextDayReadsAsEarly(e: Event)
    requires e.arrival == 25.0 && e.delivery.windowStart == Some(9.0) && e.delivery.windowEnd == Some(17.0)
    ensures BucketOf(e) == Some(NearLimit)
  {
    assert (25.0 * 60.0).Floor == 1500;
    assert 1500 % 1440 == 60;
  }

  /** The number of events satisfying `p`, as the source's
      `sum(1 for e in events if …)` counts them. */
  function CountWhere(es: seq<Event>, p: Event -> bool): (n: nat)
    ensures n <= |es|
    decreases |es|
  {
    if |es| == 0 then 0 else CountWhere(es[..|es| - 1], p) + (if p(es[|es| - 1]) then 1 else 0)
  }

  /** The positions of the events satisfying `p`. */
  function Where(es: seq<Event>, p: Event -> bool): set<int>
  {
    set i | 0 <= i < |es| && p(es[i])
  }

  /** The count is the number of positions whose event satisfies `p`. */
  lemma {:induction false} CountWhereCard(es: seq<Event>, p: Event -> bool)
    ensures CountWhere(es, p) == |Where(es, p)|
    decreases |es|
  {
    if |es| > 0 {
      var q := es[..|es| - 1];
      CountWhereCard(q, p);
      assert forall i :: 0 <= i < |q| ==> q[i] == es[i];
      if p(es[|es| - 1]) {
        assert Where(es, p) == Where(q, p) + {|es| - 1};
      } else {
        assert Where(es, p) == Where(q, p);
      }
    }
  }

  predicate InBucket(b: Bucket, e: Event)
  {
    BucketOf(e) == Some(b)
  }

  predicate Critical(e: Event)
  {
    e.critical
  }

  lemma {:induction false} BucketsAddUp(es: seq<Event>)
    ensures CountWhere(es, e => InBucket(OnTime, e)) + CountWhere(es, e => InBucket(NearLimit, e))
              + CountWhere(es, e => InBucket(Late, e)) == CountWhere(es, Windowed)
    decreases |es|
  {
    if |es| > 0 {
      BucketTotal(es[|es| - 1]);
      BucketsAddUp(es[..|es| - 1]);
    }
  }

  /** The dict `get_timeline_stats` returns. */
  datatype Stats = Stats(total: nat, critical: nat, onTime: nat, nearLimit: nat, late: nat,
                         start: Option<real>, end: Option<real>)

  /** `get_timeline_stats`: each count is the number of events of its
      kind. */
  function TimelineStats(es: seq<Event>): (s: Stats)
    ensures s.total == |es|
    ensures s.critical == |set i | 0 <= i < |es| && es[i].critical|
    ensures s.onTime == |set i | 0 <= i < |es| && BucketOf(es[i]) == Some(OnTime)|
    ensures s.nearLimit == |set i | 0 <= i < |es| && BucketOf(es[i]) == Some(NearLimit)|
    ensures s.late == |set i | 0 <= i < |es| && BucketOf(es[i]) == Some(Late)|
    ensures s.onTime + s.nearLimit + s.late == |set i | 0 <= i < |es| && Windowed(es[i])|
    ensures |es| == 0 <==> s.start.None?
    ensures |es| == 0 <==> s.end.None?
    ensures |es| > 0 ==> s.start == Some(es[0].time) && s.end == Some(es[|es| - 1].departure)
  {
    BucketsAddUp(es);
    CountWhereCard(es, Critical);
    CountWhereCard(es, e => InBucket(OnTime, e));
    CountWhereCard(es, e => InBucket(NearLimit, e));
    CountWhereCard(es, e => InBucket(Late, e));
    CountWhereCard(es, Windowed);
    assert Where(es, Critical) == set i | 0 <= i < |es| && es[i].critical;
    assert Where(es, e => InBucket(OnTime, e)) == set i | 0 <= i < |es| && BucketOf(es[i]) == Some(OnTime);
    assert Where(es, e => InBucket(NearLimit, e)) == set i | 0 <= i < |es| && BucketOf(es[i]) == Some(NearLimit);
    assert Where(es, e => InBucket(Late, e)) == set i | 0 <= i < |es| && BucketOf(es[i]) == Some(Late);
    assert Where(es, Windowed) == set i | 0 <= i < |es| && Windowed(es[i]);
    Stats(|es|, CountWhere(es, Critical), CountWhere(es, e => InBucket(OnTime, e)),
          CountWhere(es, e => InBucket(NearLimit, e)), CountWhere(es, e => InBucket(Late, e)),
          if |es| > 0 then Some(es[0].time) else None,
          if |es| > 0 then Some(es[|es| - 1].departure) else None)
  }

  /** On a generated timeline the start is the earliest arrival. */
  lemma StatsStartEarliest(sol: Solution, ds: seq<Delivery>, start: real, depot: Point, speed: real, geo: Metric)
    requires Generate(sol, ds, start, depot, speed, geo).Success?
    ensures var es := Generate(sol, ds, start, depot, speed, geo).value;
            |es| > 0 ==> forall i :: 0 <= i < |es| ==> TimelineStats(es).start.value <= es[i].time
  {
    var es := Generate(sol, ds, start, depot, speed, geo).value;
    if |es| > 0 {
      assert forall i :: 0 < i < |es| ==> Time(es[0]) <= Time(es[i]);
    }
  }
}
