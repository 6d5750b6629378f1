/** `AccidentDataProvider` and the risk helpers of utils/accident_data.py:
    an insertion-ordered dict from a point to its accident record, a lookup
    by exact point or by the first recorded point within a radius, and the
    risk report of a route that looks up both ends of every leg. The
    distance is the geodesic oracle; loading the JSON file is not modelled. */
module Accident {
  import opened Wrappers
  import opened Seqs
  import opened Types
  import opened Distance

  /** `AccidentData`. */
  datatype AccidentData = AccidentData(location: Point, count: int, severity: real, level: string,
                                       road: Option<string>)

  /** `_accident_cache`: its keys in insertion order and its entries. */
  datatype Provider = Provider(keys: seq<Point>, data: map<Point, AccidentData>)

  predicate Valid(p: Provider)
  {
    Distinct(p.keys) && (forall k :: k in p.data ==> k in p.keys) && (forall k :: k in p.keys ==> k in p.data)
  }

  /** The default `radius_km` of `get_accident_data`. */
  const Radius: real := 0.1

  /** `add_accident_data`: a new point goes last, a known point keeps its
      place and gets the new record. */
  function Add(p: Provider, loc: Point, d: AccidentData): (r: Provider)
    requires Valid(p)
    ensures Valid(r) && loc in r.data && r.data[loc] == d
    ensures loc in p.data ==> r.keys == p.keys
    ensures loc !in p.data ==> r.keys == p.keys + [loc]
    ensures forall k :: k in p.data && k != loc ==> k in r.data && r.data[k] == p.data[k]
  {
    if loc in p.data then Provider(p.keys, p.data[loc := d])
    else Provider(p.keys + [loc], p.data[loc := d])
  }

  /** A record just added is what a lookup of its point finds, whatever
      the radius. */
  lemma AddThenLookup(p: Provider, loc: Point, d: AccidentData, radius: real, geo: Metric)
    requires Valid(p)
    ensures Lookup(Add(p, loc, d), loc, radius, geo) == Some(d)
  {
  }

  /** The first key, in insertion order from `i` on, within `radius` of
      `loc`. */
  function Near(p: Provider, loc: Point, radius: real, geo: Metric, i: nat): (r: Option<nat>)
    requires i <= |p.keys|
    ensures r.Some? ==> i <= r.value < |p.keys|
    decreases |p.keys| - i
  {
    if i == |p.keys| then None
    else if geo(loc, p.keys[i]) <= radius then Some(i)
    else Near(p, loc, radius, geo, i + 1)
  }

  /** The key `Near` finds is within the radius and every key before it,
      from `i` on, is not; without one, no key from `i` on is. */
  lemma {:induction false} NearFirst(p: Provider, loc: Point, radius: real, geo: Metric, i: nat)
    requires i <= |p.keys|
    ensures var r := Near(p, loc, radius, geo, i);
            && (r.Some? ==> geo(loc, p.keys[r.value]) <= radius
                            && forall j :: i <= j < r.value ==> geo(loc, p.keys[j]) > radius)
            && (r.None? ==> forall j :: i <= j < |p.keys| ==> geo(loc, p.keys[j]) > radius)
    decreases |p.keys| - i
  {
    if i < |p.keys| && geo(loc, p.keys[i]) > radius {
      NearFirst(p, loc, radius, geo, i + 1);
    }
  }

  /** `get_accident_data`: the exact point first, then the first recorded
      point within the radius, otherwise nothing. */
  function Lookup(p: Provider, loc: Point, radius: real, geo: Metric): (r: Option<AccidentData>)
    requires Valid(p)
    ensures loc in p.data ==> r == Some(p.data[loc])
  {
    if loc in p.data then Some(p.data[loc])
    else
      match Near(p, loc, radius, geo, 0)
      case Some(j) => Some(p.data[p.keys[j]])
      case None => None
  }

  /** A lookup finds nothing exactly when the point is not recorded and
      every recorded point is farther than the radius; a point found by
      proximity is the first recorded one within the radius. */
  lemma LookupNear(p: Provider, loc: Point, radius: real, geo: Metric)
    requires Valid(p)
    ensures var r := Lookup(p, loc, radius, geo);
            && (r.None? <==> loc !in p.data && forall j :: 0 <= j < |p.keys| ==> geo(loc, p.keys[j]) > radius)
            && (r.Some? && loc !in p.data ==>
                  exists j :: 0 <= j < |p.keys| && geo(loc, p.keys[j]) <= radius && r.value == p.data[p.keys[j]]
                              && forall i :: 0 <= i < j ==> geo(loc, p.keys[i]) > radius)
  {
    NearFirst(p, loc, radius, geo, 0);
  }

  // ------------------------------------------------------------ route risk

  /** The points the loop of `get_route_risk` looks up, in order: both ends
      of every leg. */
  function Visits(coords: seq<Point>): (v: seq<Point>)
    ensures |coords| < 2 ==> v == []
    ensures |coords| >= 2 ==> |v| == 2 * (|coords| - 1)
  {
    if |coords| < 2 then [] else [coords[0], coords[1]] + Visits(coords[1..])
  }

  /** Leg `i` is looked up at positions `2i` (its start) and `2i + 1` (its
      end). */
  lemma {:induction false} VisitsLegs(coords: seq<Point>, i: nat)
    requires i < |coords| - 1
    ensures Visits(coords)[2 * i] == coords[i] && Visits(coords)[2 * i + 1] == coords[i + 1]
  {
    if i > 0 {
      VisitsLegs(coords[1..], i - 1);
      assert Visits(coords)[2 * i] == Visits(coords[1..])[2 * (i - 1)];
      assert Visits(coords)[2 * i + 1] == Visits(coords[1..])[2 * (i - 1) + 1];
    }
  }

  /** An interior point of a route is looked up twice, as the end of one
      leg and the start of the next. */
  lemma {:induction false} InteriorTwice(coords: seq<Point>, i: nat)
    requires 0 < i < |coords| - 1
    ensures Visits(coords)[2 * i - 1] == coords[i] && Visits(coords)[2 * i] == coords[i]
  {
    var v := Visits(coords);
    VisitsLegs(coords, i - 1);
    VisitsLegs(coords, i);
    assert 2 * (i - 1) + 1 == 2 * i - 1;
    assert v[2 * (i - 1) + 1] == coords[i];
  }

  /** An entry of `risk_segments`. */
  datatype Segment = Segment(location: Point, data: AccidentData)

  /** The entry one point adds: none when the lookup finds nothing. */
  function Hit(p: Provider, pt: Point, geo: Metric): (h: seq<Segment>)
    requires Valid(p)
    ensures |h| <= 1
  {
    match Lookup(p, pt, Radius, geo)
    case Some(d) => [Segment(pt, d)]
    case None => []
  }

  /** The entries for the points looked up, in order. */
  function Hits(p: Provider, pts: seq<Point>, geo: Metric): seq<Segment>
    requires Valid(p)
  {
    if |pts| == 0 then [] else Hits(p, pts[..|pts| - 1], geo) + Hit(p, pts[|pts| - 1], geo)
  }

  function TotalCount(segs: seq<Segment>): int
  {
    if |segs| == 0 then 0 else TotalCount(segs[..|segs| - 1]) + segs[|segs| - 1].data.count
  }

  function TotalSeverity(segs: seq<Segment>): real
  {
    if |segs| == 0 then 0.0 else TotalSeverity(segs[..|segs| - 1]) + segs[|segs| - 1].data.severity
  }

  predicate Serious(level: string)
  {
    level == "high" || level == "critical"
  }

  function SeriousCount(segs: seq<Segment>): (n: nat)
    ensures n <= |segs|
    ensures n == 0 <==> forall i :: 0 <= i < |segs| ==> !Serious(segs[i].data.level)
  {
    if |segs| == 0 then 0
    else SeriousCount(segs[..|segs| - 1]) + if Serious(segs[|segs| - 1].data.level) then 1 else 0
  }

  /** Appending `hit` to `segs` adds its entry, if any, to every total. */
  predicate StepAdds(segs: seq<Segment>, hit: seq<Segment>)
  {
    && TotalCount(segs + hit) == TotalCount(segs) + (if |hit| == 1 then hit[0].data.count else 0)
    && TotalSeverity(segs + hit) == TotalSeverity(segs) + (if |hit| == 1 then hit[0].data.severity else 0.0)
    && SeriousCount(segs + hit) == SeriousCount(segs) + (if |hit| == 1 && Serious(hit[0].data.level) then 1 else 0)
  }

  /** One more point looked up adds its entry, if any, to every total. */
  lemma HitsStep(p: Provider, v: seq<Point>, k: nat, geo: Metric)
    requires Valid(p) && k < |v|
    ensures Hits(p, v[..k + 1], geo) == Hits(p, v[..k], geo) + Hit(p, v[k], geo)
    ensures StepAdds(Hits(p, v[..k], geo), Hit(p, v[k], geo))
  {
    assert v[..k + 1][..k] == v[..k];
    var segs, hit := Hits(p, v[..k], geo), Hit(p, v[k], geo);
    if |hit| == 1 {
      assert (segs + hit)[..|segs|] == segs;
      assert (segs + hit)[|segs|] == hit[0];
    } else {
      assert segs + hit == segs;
    }
  }

  /** The rank of a risk level, lowest first. */
  function Rank(level: string): nat
  {
    if level == "low" then 0 else if level == "medium" then 1 else if level == "high" then 2 else 3
  }

  /** The ladder of `get_route_risk` as written: a severity of 3.5 or more
      stops at "high" even with twenty accidents or more. */
  function OverallAsWritten(total: int, avg: real): string
  {
    if total == 0 then "low"
    else if total < 5 && avg < 2.0 then "low"
    else if total < 10 && avg < 3.0 then "medium"
    else if total < 20 || avg >= 3.5 then "high"
    else "critical"
  }

  /** As written, a worse average severity lowers the level: twenty-five
      accidents of severity 3 are critical, of severity 4 only high. */
  lemma SeverityLowersRisk()
    ensures OverallAsWritten(25, 3.0) == "critical"
    ensures OverallAsWritten(25, 4.0) == "high"
  {
  }

  /** The ladder with the escalation kept monotone: twenty accidents or
      more are critical whatever the severity, and a severity of 3.5 or
      more is at least high. */
  function Overall(total: int, avg: real): string
  {
    if total == 0 then "low"
    else if total < 5 && avg < 2.0 then "low"
    else if total < 10 && avg < 3.0 then "medium"
    else if total < 20 then "high"
    else "critical"
  }

  /** The corrected level never falls when the accidents or the average
      severity grow. */
  lemma OverallMonotone(t: int, a: real, t': int, a': real)
    requires 0 <= t <= t' && a <= a'
    ensures Rank(Overall(t, a)) <= Rank(Overall(t', a'))
  {
  }

  /** The two ladders differ exactly on twenty accidents or more with an
      average severity of 3.5 or more. */
  lemma LaddersAgree(t: int, a: real)
    ensures OverallAsWritten(t, a) != Overall(t, a) <==> t >= 20 && a >= 3.5
  {
  }

  /** The dict `get_route_risk` returns. */
  datatype Report = Report(totalAccidents: int, avgSeverity: real, highRiskSegments: nat, overall: string,
                           segments: seq<Segment>)

  /** `avg_severity`: the mean over the entries, zero without any. */
  function Average(segs: seq<Segment>): real
  {
    Mean(TotalSeverity(segs), |segs|)
  }

  /** `total / count`, zero when there is nothing to count. */
  function Mean(total: real, count: nat): real
  {
    if count == 0 then 0.0 else total / count as real
  }

  /** The body of the inner loop: an entry found adds its count and
      severity, and counts once more when its level is serious. */
  method Accumulate(total: int, severity: real, high: nat, hit: seq<Segment>)
    returns (total': int, severity': real, high': nat)
    requires |hit| <= 1
    ensures total' == total + (if |hit| == 1 then hit[0].data.count else 0)
    ensures severity' == severity + (if |hit| == 1 then hit[0].data.severity else 0.0)
    ensures high' == high + (if |hit| == 1 && Serious(hit[0].data.level) then 1 else 0)
  {
    total', severity', high' := total, severity, high;
    if |hit| == 1 {
      var d := hit[0].data;
      total' := total + d.count;
      severity' := severity + d.severity;
      if Serious(d.level) {
        high' := high + 1;
      }
    }
  }

  /** The nested loop of `get_route_risk` over the legs and their two
      ends, as a loop over the visited points: the entries found and the
      three running totals. */
  method Scan(p: Provider, v: seq<Point>, geo: Metric) returns (segs: seq<Segment>, total: int, severity: real, high: nat)
    requires Valid(p)
    ensures segs == Hits(p, v, geo)
    ensures total == TotalCount(segs) && severity == TotalSeverity(segs) && high == SeriousCount(segs)
  {
    total, severity, high := 0, 0.0, 0;
    segs := [];
    var k := 0;
    while k < |v|
      invariant 0 <= k <= |v|
      invariant segs == Hits(p, v[..k], geo)
      invariant total == TotalCount(segs) && severity == TotalSeverity(segs) && high == SeriousCount(segs)
    {
      var hit := Hit(p, v[k], geo);
      HitsStep(p, v, k, geo);
      total, severity, high := Accumulate(total, severity, high, hit);
      segs := segs + hit;
      k := k + 1;
    }
    assert v[..|v|] == v;
  }

  /** `get_route_risk`: the report of the entries found along the legs,
      rated by the ladder as written; it differs from the monotone ladder
      only on twenty accidents or more of an average severity of 3.5 or
      more. */
  method RouteRisk(p: Provider, coords: seq<Point>, geo: Metric) returns (r: Report)
    requires Valid(p)
    ensures r.segments == Hits(p, Visits(coords), geo)
    ensures r.totalAccidents == TotalCount(r.segments)
    ensures r.highRiskSegments == SeriousCount(r.segments)
    ensures r.avgSeverity == Average(r.segments)
    ensures r.overall == OverallAsWritten(r.totalAccidents, r.avgSeverity)
    ensures r.overall != Overall(r.totalAccidents, r.avgSeverity) <==> r.totalAccidents >= 20 && r.avgSeverity >= 3.5
    ensures |coords| < 2 ==> r == Report(0, 0.0, 0, "low", [])
  {
    var segs, total, severity, high := Scan(p, Visits(coords), geo);
    var avg := Mean(severity, |segs|);
    LaddersAgree(total, avg);
    r := Report(total, avg, high, OverallAsWritten(total, avg), segs);
  }

  // ------------------------------------------------------------- display

  /** `get_risk_color`. */
  function RiskColor(level: string): (c: string)
    ensures level !in {"low", "medium", "high", "critical"} ==> c == "#6c757d"
  {
    if level == "low" then "#28a745"
    else if level == "medium" then "#ffc107"
    else if level == "high" then "#fd7e14"
    else if level == "critical" then "#dc3545"
    else "#6c757d"
  }

  /** `get_risk_icon`. */
  function RiskIcon(level: string): (i: string)
    ensures level !in {"low", "medium", "high", "critical"} ==> i == "info-circle"
  {
    if level == "low" then "check-circle"
    else if level == "medium" then "exclamation-triangle"
    else if level == "high" then "exclamation-circle"
    else if level == "critical" then "times-circle"
    else "info-circle"
  }

  /** The four levels have four different colours and four different
      icons, none of them the default. */
  lemma LevelsDistinguished(a: string, b: string)
    requires a in {"low", "medium", "high", "critical"} && b in {"low", "medium", "high", "critical"}
    ensures RiskColor(a) != "#6c757d" && RiskIcon(a) != "info-circle"
    ensures a != b ==> RiskColor(a) != RiskColor(b) && RiskIcon(a) != RiskIcon(b)
  {
  }
}
