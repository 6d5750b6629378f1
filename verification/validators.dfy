/** The input validators of utils/validators.py. Each scans its list in
    order and raises `DataValidationError` at the first bad element; the
    model returns `Failure(DataValidation(..))` instead, and the lemmas tie
    the scans to declarative statements of what a valid input is. */
module Validators {
  import opened Wrappers
  import opened Seqs
  import opened Types

  /** The per-delivery checks other than uniqueness. */
  predicate GoodDelivery(d: Delivery)
  {
    |d.id| > 0 && d.weight > 0.0 && (d.priority == 1 || d.priority == 2)
  }

  predicate ValidDeliveries(ds: seq<Delivery>)
  {
    |ds| > 0 && DistinctIds(ds) && forall i :: 0 <= i < |ds| ==> GoodDelivery(ds[i])
  }

  /** The message of a priority other than 1 or 2, naming the delivery. */
  function PriorityMessage(id: Id): string
  {
    "Prioridade inv\U{e1}lida para entrega " + id + ". Deve ser 1 (cr\U{ed}tico) ou 2 (normal)"
  }

  /** The loop of `validate_deliveries` from position i on, with `seen`
      holding the ids of the deliveries already accepted. */
  function ScanDeliveries(ds: seq<Delivery>, i: nat, seen: set<Id>): (r: Result<()>)
    requires i <= |ds|
    ensures r.Failure? ==> r.error.DataValidation?
    decreases |ds| - i
  {
    if i == |ds| then Success(())
    else
      var d := ds[i];
      if |d.id| == 0 then Failure(DataValidation("Entrega deve ter ID"))
      else if d.id in seen then Failure(DataValidation("ID duplicado: " + d.id))
      else if d.weight <= 0.0 then Failure(DataValidation("Peso inv\U{e1}lido para entrega " + d.id))
      else if d.priority != 1 && d.priority != 2 then Failure(DataValidation(PriorityMessage(d.id)))
      else ScanDeliveries(ds, i + 1, seen + {d.id})
  }

  function ValidateDeliveries(ds: seq<Delivery>): (r: Result<()>)
    ensures r.Failure? ==> r.error.DataValidation?
  {
    if |ds| == 0 then Failure(DataValidation("Lista de entregas n\U{e3}o pode estar vazia"))
    else ScanDeliveries(ds, 0, {})
  }

  /** A list has distinct ids iff its tail does and the head's id is new. */
  lemma DistinctIdsCons(ds: seq<Delivery>)
    requires |ds| > 0
    ensures DistinctIds(ds) <==> DistinctIds(ds[1..]) && forall k :: 1 <= k < |ds| ==> ds[k].id != ds[0].id
  {
    var rest := ds[1..];
    if DistinctIds(ds) {
      forall a, b | 0 <= a < b < |rest|
        ensures rest[a].id != rest[b].id
      {
        assert ds[a + 1] == rest[a] && ds[b + 1] == rest[b];
      }
    }
    if DistinctIds(rest) && forall k :: 1 <= k < |ds| ==> ds[k].id != ds[0].id {
      forall a, b | 0 <= a < b < |ds|
        ensures ds[a].id != ds[b].id
      {
        if a > 0 {
          assert ds[a] == rest[a - 1] && ds[b] == rest[b - 1];
        }
      }
    }
  }

  /** The scan from i succeeds exactly when the rest of the list is good,
      repeats no id and carries no id already seen. */
  lemma {:induction false} ScanDeliveriesCorrect(ds: seq<Delivery>, i: nat, seen: set<Id>)
    requires i <= |ds|
    ensures ScanDeliveries(ds, i, seen).Success? <==>
              DistinctIds(ds[i..]) && forall k :: i <= k < |ds| ==> ds[k].id !in seen && GoodDelivery(ds[k])
    decreases |ds| - i
  {
    if i < |ds| {
      var here := ds[i..];
      var rest := ds[i + 1..];
      var seen' := seen + {ds[i].id};
      assert here[1..] == rest;
      assert ScanDeliveries(ds, i + 1, seen').Success? <==>
               DistinctIds(rest) && forall k :: i + 1 <= k < |ds| ==> ds[k].id !in seen' && GoodDelivery(ds[k]) by {
        ScanDeliveriesCorrect(ds, i + 1, seen');
      }
      assert DistinctIds(here) <==> DistinctIds(rest) && forall k :: i + 1 <= k < |ds| ==> ds[k].id != ds[i].id by {
        DistinctIdsCons(here);
        assert forall k :: 1 <= k < |here| ==> here[k] == ds[i + k];
      }
    }
  }

  /** `validate_deliveries` returns normally iff the list is non-empty, every
      id is non-empty and unique, every weight is positive and every
      priority is 1 or 2. */
  lemma ValidateDeliveriesCorrect(ds: seq<Delivery>)
    ensures ValidateDeliveries(ds).Success? <==> ValidDeliveries(ds)
  {
    if |ds| > 0 {
      ScanDeliveriesCorrect(ds, 0, {});
      assert ds[0..] == ds;
    }
  }

  /** The second delivery carrying an already-seen id is rejected. */
  lemma DuplicateRejected(ds: seq<Delivery>, i: nat, j: nat)
    requires i < j < |ds| && ds[i].id == ds[j].id
    ensures ValidateDeliveries(ds).Failure?
  {
    ValidateDeliveriesCorrect(ds);
  }

  /** The ids of the first i deliveries: the set the loop has built when it
      reaches position i. */
  function SeenBefore(ds: seq<Delivery>, i: nat): set<Id>
    requires i <= |ds|
  {
    set k | 0 <= k < i :: ds[k].id
  }

  /** Over a prefix of good deliveries with distinct ids the loop only
      collects the ids. */
  lemma {:induction false} ScanThroughPrefix(ds: seq<Delivery>, k: nat, i: nat)
    requires k <= i <= |ds|
    requires DistinctIds(ds[..i]) && forall m :: 0 <= m < i ==> GoodDelivery(ds[m])
    ensures ScanDeliveries(ds, k, SeenBefore(ds, k)) == ScanDeliveries(ds, i, SeenBefore(ds, i))
    decreases i - k
  {
    if k < i {
      assert ds[k].id !in SeenBefore(ds, k) by {
        forall m | 0 <= m < k
          ensures ds[m].id != ds[k].id
        {
          assert ds[..i][m] == ds[m] && ds[..i][k] == ds[k];
        }
      }
      assert SeenBefore(ds, k) + {ds[k].id} == SeenBefore(ds, k + 1);
      ScanThroughPrefix(ds, k + 1, i);
    }
  }

  /** The first delivery that repeats an id is reported by that id. */
  lemma DuplicateMessage(ds: seq<Delivery>, i: nat, j: nat)
    requires j < i < |ds| && ds[j].id == ds[i].id && |ds[i].id| > 0
    requires DistinctIds(ds[..i]) && forall m :: 0 <= m < i ==> GoodDelivery(ds[m])
    ensures ValidateDeliveries(ds) == Failure(DataValidation("ID duplicado: " + ds[i].id))
  {
    assert SeenBefore(ds, 0) == {};
    ScanThroughPrefix(ds, 0, i);
    assert ds[i].id in SeenBefore(ds, i);
  }

  // ---------------------------------------------------------------- vehicles

  predicate GoodVehicle(v: Vehicle)
  {
    v.maxCapacity > 0.0 && v.maxRange > 0.0 && v.fuelCostPerKm >= 0.0 && v.driverCostPerHour >= 0.0
  }

  predicate ValidVehicles(vs: seq<Vehicle>)
  {
    |vs| > 0 && forall i :: 0 <= i < |vs| ==> GoodVehicle(vs[i])
  }

  function CheckVehicle(v: Vehicle): (r: Result<()>)
    ensures r.Success? <==> GoodVehicle(v)
    ensures r.Failure? ==> r.error.DataValidation?
  {
    if v.maxCapacity <= 0.0 then Failure(DataValidation("Capacidade m\U{e1}xima deve ser positiva"))
    else if v.maxRange <= 0.0 then Failure(DataValidation("Autonomia m\U{e1}xima deve ser positiva"))
    else if v.fuelCostPerKm < 0.0 then Failure(DataValidation("Custo de combust\U{ed}vel n\U{e3}o pode ser negativo"))
    else if v.driverCostPerHour < 0.0 then Failure(DataValidation("Custo do motorista n\U{e3}o pode ser negativo"))
    else Success(())
  }

  /** The loop of `validate_vehicles`: the first failing vehicle's error. */
  function ScanVehicles(vs: seq<Vehicle>): (r: Result<()>)
    ensures r.Success? <==> forall i :: 0 <= i < |vs| ==> GoodVehicle(vs[i])
    ensures r.Failure? ==> exists i :: 0 <= i < |vs| && r == CheckVehicle(vs[i])
                                       && forall j :: 0 <= j < i ==> GoodVehicle(vs[j])
  {
    if |vs| == 0 then Success(())
    else
      var c := CheckVehicle(vs[0]);
      if c.Failure? then c
      else
        var r := ScanVehicles(vs[1..]);
        if r.Failure? then
          var i :| 0 <= i < |vs[1..]| && r == CheckVehicle(vs[1..][i])
                   && forall j :: 0 <= j < i ==> GoodVehicle(vs[1..][j]);
          assert r == CheckVehicle(vs[i + 1]) && forall j :: 0 <= j < i + 1 ==> GoodVehicle(vs[j]);
          r
        else
          assert forall i :: 1 <= i < |vs| ==> vs[i] == vs[1..][i - 1];
          r
  }

  /** `validate_vehicles` returns normally iff the fleet is non-empty, every
      capacity and range is positive and no cost is negative; zero costs
      are accepted. */
  function ValidateVehicles(vs: seq<Vehicle>): (r: Result<()>)
    ensures r.Success? <==> ValidVehicles(vs)
    ensures r.Failure? ==> r.error.DataValidation?
  {
    if |vs| == 0 then Failure(DataValidation("Lista de ve\U{ed}culos n\U{e3}o pode estar vazia"))
    else ScanVehicles(vs)
  }
}
