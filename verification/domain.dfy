/** The domain entities of the domain package: the predicates on deliveries and
    vehicles, the id list of a route, and a hospital's opening hours. */
module Domain {
  import opened Wrappers
  import opened Seqs
  import opened Types

  // ---------------------------------------------------------------- Delivery

  predicate IsCritical(d: Delivery)
  {
    d.priority == 1
  }

  predicate HasTimeWindow(d: Delivery)
  {
    d.windowStart.Some? && d.windowEnd.Some?
  }

  /** A delivery built with only its required fields. */
  function NewDelivery(id: Id, location: Point, priority: int, weight: real): (d: Delivery)
    ensures d.id == id && d.location == location && d.priority == priority && d.weight == weight
    ensures d.serviceTime == 0.5
    ensures !HasTimeWindow(d)
    ensures IsCritical(d) <==> priority == 1
  {
    Delivery(id, location, priority, weight, None, None, 0.5)
  }

  /** A window with only one bound set is not a time window. */
  lemma HalfWindowIsNoWindow(d: Delivery)
    requires d.windowStart.Some? != d.windowEnd.Some?
    ensures !HasTimeWindow(d)
  {
  }

  // ----------------------------------------------------------------- Vehicle

  predicate CanCarry(v: Vehicle, weight: real)
  {
    weight <= v.maxCapacity
  }

  predicate CanTravel(v: Vehicle, distance: real)
  {
    distance <= v.maxRange
  }

  /** Both tests are inclusive and downward closed: anything lighter (or
      shorter) than an accepted load (or distance) is accepted too. */
  lemma CapabilityDownwardClosed(v: Vehicle, w: real, w': real, d: real, d': real)
    requires CanCarry(v, w) && w' <= w
    requires CanTravel(v, d) && d' <= d
    ensures CanCarry(v, w') && CanTravel(v, d')
    ensures CanCarry(v, v.maxCapacity) && CanTravel(v, v.maxRange)
  {
  }

  // ------------------------------------------------------------------- Route

  /** A vehicle's route entity; start time and duration are not modelled. */
  datatype RouteEntity = RouteEntity(vehicleId: string, deliveryIds: seq<Id>)

  function AddDelivery(r: RouteEntity, id: Id): (r': RouteEntity)
    ensures r'.vehicleId == r.vehicleId
    ensures id in r'.deliveryIds
    ensures id in r.deliveryIds ==> r' == r
    ensures id !in r.deliveryIds ==> r'.deliveryIds == r.deliveryIds + [id]
  {
    if id in r.deliveryIds then r else r.(deliveryIds := r.deliveryIds + [id])
  }

  function RemoveDelivery(r: RouteEntity, id: Id): (r': RouteEntity)
    ensures r'.vehicleId == r.vehicleId
    ensures id !in r.deliveryIds ==> r' == r
    ensures id in r.deliveryIds ==>
              multiset(r'.deliveryIds) == multiset(r.deliveryIds) - multiset{id}
  {
    if id in r.deliveryIds then r.(deliveryIds := RemoveFirst(r.deliveryIds, id)) else r
  }

  /** The id that leaves the route is its first occurrence; the ids before
      and after it keep their order. */
  lemma RemoveDeliveryFirst(r: RouteEntity, id: Id)
    requires id in r.deliveryIds
    ensures var i := FirstIndex(r.deliveryIds, id);
            RemoveDelivery(r, id).deliveryIds == r.deliveryIds[..i] + r.deliveryIds[i + 1..]
  {
    RemoveFirstAt(r.deliveryIds, id);
  }

  predicate IsEmpty(r: RouteEntity)
  {
    |r.deliveryIds| == 0
  }

  /** Adding is idempotent and keeps the id list free of duplicates. */
  lemma AddDeliveryIdempotent(r: RouteEntity, id: Id)
    ensures AddDelivery(AddDelivery(r, id), id) == AddDelivery(r, id)
    ensures Distinct(r.deliveryIds) ==> Distinct(AddDelivery(r, id).deliveryIds)
    ensures !IsEmpty(AddDelivery(r, id))
  {
  }

  /** Removing an id from a duplicate-free route leaves no copy of it. */
  lemma RemoveDeliveryRemovesAll(r: RouteEntity, id: Id)
    requires Distinct(r.deliveryIds)
    ensures id !in RemoveDelivery(r, id).deliveryIds
  {
    if id in r.deliveryIds {
      var ids' := RemoveDelivery(r, id).deliveryIds;
      DistinctMultiset(r.deliveryIds, id);
      assert multiset(ids')[id] == 0;
    }
  }

  /** Adding a fresh id and removing it again restores the route. */
  lemma {:induction false} AddThenRemove(r: RouteEntity, id: Id)
    requires id !in r.deliveryIds
    ensures RemoveDelivery(AddDelivery(r, id), id) == r
  {
    RemoveFirstAppend(r.deliveryIds, id);
  }

  lemma {:induction false} RemoveFirstAppend(s: seq<Id>, x: Id)
    requires x !in s
    ensures RemoveFirst(s + [x], x) == s
  {
    if |s| == 0 {
      assert s + [x] == [x];
    } else {
      assert (s + [x])[1..] == s[1..] + [x];
      RemoveFirstAppend(s[1..], x);
    }
  }

  // ---------------------------------------------------------------- Hospital

  /** Opening hours per lower-case day name: (start hour, end hour). */
  datatype Hospital = Hospital(id: string, name: string, location: Point,
                               operatingHours: Option<map<string, (real, real)>>)

  /** The capitals `str.lower()` folds that the model knows: A to Z and
      the Latin-1 capitals from U+00C0 to U+00DE, the multiplication sign
      U+00D7 excepted. Each lies 32 code points below its small letter. */
  predicate IsUpper(c: char)
  {
    ('A' <= c <= 'Z') || ('\U{00C0}' <= c <= '\U{00DE}' && c != '\U{00D7}')
  }

  /** `str.lower()` on the ASCII and Latin-1 letters. */
  function Lower(s: string): (r: string)
    ensures |r| == |s|
    ensures forall i :: 0 <= i < |r| ==> !IsUpper(r[i])
    ensures forall i :: 0 <= i < |s| && !IsUpper(s[i]) ==> r[i] == s[i]
  {
    if |s| == 0 then []
    else
      var c := if IsUpper(s[0]) then (s[0] as int + 32) as char else s[0];
      [c] + Lower(s[1..])
  }

  lemma LowerIdempotent(s: string)
    ensures Lower(Lower(s)) == Lower(s)
  {
  }

  function IsOpenAt(h: Hospital, day: string, hour: real): (open: bool)
    ensures h.operatingHours.None? ==> open
    ensures h.operatingHours.Some? && Lower(day) !in h.operatingHours.value ==> !open
    ensures h.operatingHours.Some? && Lower(day) in h.operatingHours.value ==>
              (open <==> h.operatingHours.value[Lower(day)].0 <= hour <= h.operatingHours.value[Lower(day)].1)
  {
    match h.operatingHours
    case None => true
    case Some(hours) =>
      var key := Lower(day);
      if key !in hours then false
      else
        var (start, end) := hours[key];
        start <= hour <= end
  }

  /** The day name is case-insensitive, and a key holding an upper-case
      letter is never consulted, whatever the day. */
  lemma IsOpenAtCaseInsensitive(h: Hospital, day: string, hour: real, key: string)
    requires exists i :: 0 <= i < |key| && IsUpper(key[i])
    ensures IsOpenAt(h, Lower(day), hour) == IsOpenAt(h, day, hour)
    ensures Lower(day) != key
  {
    LowerIdempotent(day);
  }
}
