/**
 * Vehicles (transport/vehicle.py, transport/van.py, airplane.py). A vehicle has a fixed
 * positive capacity, a current load and the ordered list of clients loaded into it.
 * Van and Airplane only add an informational field; they are the payload of `Kind`
 * on the one Vehicle class, and loading never looks at it.
 */
module Vehicles {
  import opened Wrappers
  import opened Clients

  /** Why construction is refused (ValueError in the source). */
  datatype VehicleError = NonPositiveCapacity

  /** The variant of a vehicle and the one field each subclass adds. */
  datatype Kind = Plain | Van(isRefrigerated: bool) | Airplane(maxAltitude: real)
  {
    /** get_type(): only Van and Airplane define it. */
    function TypeName(): (r: string)
      requires !Plain?
      ensures Van? <==> r == "Фургон"
      ensures Airplane? <==> r == "Самолет"
    {
      if Van? then "Фургон" else "Самолет"
    }

    /** Van.can_transport_perishable(): exactly the refrigeration flag. */
    predicate CanTransportPerishable()
      requires Van?
    {
      isRefrigerated
    }

    /** Airplane.can_reach_altitude(h): h is at most the stored maximum altitude. */
    predicate CanReachAltitude(h: real)
      requires Airplane?
    {
      h <= maxAltitude
    }
  }

  /** The kind Van(capacity, is_refrigerated=False) builds; the flag defaults to false. */
  function VanKind(isRefrigerated: bool := false): (k: Kind)
    ensures k.Van? && k.CanTransportPerishable() == isRefrigerated
  {
    Van(isRefrigerated)
  }

  /** Sum of the cargo weights of `cs`. */
  function TotalWeight(cs: seq<Client>): real
  {
    if cs == [] then 0.0 else TotalWeight(cs[..|cs| - 1]) + cs[|cs| - 1].weight
  }

  /** Adding a client to the end of a list adds its weight to the total. */
  lemma TotalWeightAppend(cs: seq<Client>, c: Client)
    ensures TotalWeight(cs + [c]) == TotalWeight(cs) + c.weight
  {
    assert (cs + [c])[..|cs|] == cs;
  }

  /** The value of a vehicle at one moment: what load_cargo reads and writes. */
  datatype VehicleState = VehicleState(id: string, capacity: real, load: real, cargo: seq<Client>)
  {
    /** The vehicle invariant: positive capacity, load within it, load is the cargo's weight. */
    predicate Valid() {
      && 0.0 < capacity
      && 0.0 <= load <= capacity
      && load == TotalWeight(cargo)
      && forall i :: 0 <= i < |cargo| ==> cargo[i].Valid()
    }

    /** The test load_cargo makes: the weight still fits under the capacity. */
    predicate Fits(weight: real) {
      load + weight <= capacity
    }

    /** The state after a successful load_cargo of `c`. */
    function Loaded(c: Client): VehicleState {
      this.(load := load + c.weight, cargo := cargo + [c])
    }

    /** get_free_space(). */
    function FreeSpace(): (r: real)
      requires Valid()
      ensures 0.0 <= r <= capacity
      ensures Fits(r) && forall w :: w > r ==> !Fits(w)
    {
      capacity - load
    }
  }

  /** Loading a valid client that fits keeps the invariant and only grows the load. */
  lemma LoadedValid(s: VehicleState, c: Client)
    requires s.Valid() && c.Valid() && s.Fits(c.weight)
    ensures s.Loaded(c).Valid()
    ensures s.Loaded(c).load > s.load
  {
    TotalWeightAppend(s.cargo, c);
  }

  /** A vehicle of the fleet, shared by reference between the registry and the allocator. */
  class Vehicle {
    const id: string
    const capacity: real
    const kind: Kind
    var currentLoad: real
    var clients: seq<Client>

    /** The vehicle's current value. */
    function State(): VehicleState
      reads this
    {
      VehicleState(id, capacity, currentLoad, clients)
    }

    ghost predicate Valid()
      reads this
    {
      State().Valid()
    }

    /** The checked part of Vehicle.__init__: callers go through NewVehicle. */
    constructor (id: string, capacity: real, kind: Kind)
      requires capacity > 0.0
      ensures Valid()
      ensures this.id == id && this.capacity == capacity && this.kind == kind
      ensures currentLoad == 0.0 && clients == []
    {
      this.id := id;
      this.capacity := capacity;
      this.kind := kind;
      currentLoad := 0.0;
      clients := [];
    }

    /**
     * load_cargo(client): refuses, changing nothing, when the weight does not fit;
     * otherwise adds the weight to the load and the client to the end of the list.
     */
    method LoadCargo(c: Client) returns (ok: bool)
      requires Valid() && c.Valid()
      modifies this
      ensures Valid()
      ensures ok <==> old(State()).Fits(c.weight)
      ensures State() == if ok then old(State()).Loaded(c) else old(State())
    {
      if currentLoad + c.weight > capacity {
        return false;
      }
      LoadedValid(State(), c);
      currentLoad := currentLoad + c.weight;
      clients := clients + [c];
      return true;
    }

    /** get_free_space(): never negative, never more than the capacity. */
    function FreeSpace(): (r: real)
      reads this
      requires Valid()
      ensures 0.0 <= r <= capacity
      ensures r == State().FreeSpace()
    {
      capacity - currentLoad
    }
  }

  /**
   * Vehicle(capacity), and through it Van and Airplane: fails unless the capacity is
   * positive; a new vehicle is empty. `id` stands for the generated uuid prefix.
   */
  method NewVehicle(id: string, capacity: real, kind: Kind) returns (r: Result<Vehicle, VehicleError>)
    ensures r.Failure? <==> capacity <= 0.0
    ensures r.Failure? ==> r.error == NonPositiveCapacity
    ensures r.Success? ==>
              && fresh(r.value) && r.value.Valid()
              && r.value.State() == VehicleState(id, capacity, 0.0, [])
              && r.value.kind == kind
  {
    if capacity <= 0.0 {
      return Failure(NonPositiveCapacity);
    }
    var v := new Vehicle(id, capacity, kind);
    return Success(v);
  }

  /** Van(capacity, is_refrigerated=False). */
  method NewVan(id: string, capacity: real, isRefrigerated: bool := false) returns (r: Result<Vehicle, VehicleError>)
    ensures r.Failure? <==> capacity <= 0.0
    ensures r.Success? ==>
              && fresh(r.value) && r.value.Valid()
              && r.value.State() == VehicleState(id, capacity, 0.0, [])
              && r.value.kind == Van(isRefrigerated)
              && r.value.kind.CanTransportPerishable() == isRefrigerated
  {
    r := NewVehicle(id, capacity, VanKind(isRefrigerated));
  }

  /**
   * Airplane(capacity, max_altitude): the altitude is stored as given, unchecked, and the
   * airplane reaches exactly the altitudes up to it.
   */
  method NewAirplane(id: string, capacity: real, maxAltitude: real) returns (r: Result<Vehicle, VehicleError>)
    ensures r.Failure? <==> capacity <= 0.0
    ensures r.Success? ==>
              && fresh(r.value) && r.value.Valid()
              && r.value.State() == VehicleState(id, capacity, 0.0, [])
              && r.value.kind == Airplane(maxAltitude)
              && forall h :: r.value.kind.CanReachAltitude(h) <==> h <= maxAltitude
  {
    r := NewVehicle(id, capacity, Airplane(maxAltitude));
  }

  /** The current values of a sequence of vehicles. */
  function States(vs: seq<Vehicle>): (r: seq<VehicleState>)
    reads vs
    ensures |r| == |vs| && forall k :: 0 <= k < |vs| ==> r[k] == vs[k].State()
  {
    seq(|vs|, k requires 0 <= k < |vs| reads vs => vs[k].State())
  }

  /** Every vehicle of the fleet keeps the vehicle invariant. */
  predicate FleetValid(fleet: seq<VehicleState>) {
    forall k :: 0 <= k < |fleet| ==> fleet[k].Valid()
  }

  /** No two vehicles of the fleet share an id. */
  predicate DistinctIds(fleet: seq<VehicleState>) {
    forall a, b :: 0 <= a < b < |fleet| ==> fleet[a].id != fleet[b].id
  }

  /** sum(v.capacity for v in fleet). */
  function TotalCapacity(fleet: seq<VehicleState>): real
  {
    if fleet == [] then 0.0 else TotalCapacity(fleet[..|fleet| - 1]) + fleet[|fleet| - 1].capacity
  }

  /** sum(v.current_load for v in fleet). */
  function TotalLoad(fleet: seq<VehicleState>): real
  {
    if fleet == [] then 0.0 else TotalLoad(fleet[..|fleet| - 1]) + fleet[|fleet| - 1].load
  }

  /** sum(1 for v in fleet if v.current_load > 0): the vehicles carrying something. */
  function CountUsed(fleet: seq<VehicleState>): (n: nat)
    ensures n <= |fleet|
    ensures n == 0 <==> forall k :: 0 <= k < |fleet| ==> fleet[k].load <= 0.0
  {
    if fleet == [] then 0
    else CountUsed(fleet[..|fleet| - 1]) + (if fleet[|fleet| - 1].load > 0.0 then 1 else 0)
  }

  /** In a valid fleet the total load lies between zero and the total capacity, which is positive. */
  lemma {:induction false} FleetTotals(fleet: seq<VehicleState>)
    requires FleetValid(fleet)
    ensures 0.0 <= TotalLoad(fleet) <= TotalCapacity(fleet)
    ensures fleet != [] ==> TotalCapacity(fleet) > 0.0
  {
    if fleet != [] {
      FleetTotals(fleet[..|fleet| - 1]);
    }
  }

  /** A non-empty fleet of positive capacities has a positive total capacity. */
  lemma {:induction false} CapacityPositive(fleet: seq<VehicleState>)
    requires fleet != [] && forall k :: 0 <= k < |fleet| ==> fleet[k].capacity > 0.0
    ensures TotalCapacity(fleet) > 0.0
  {
    if |fleet| > 1 {
      CapacityPositive(fleet[..|fleet| - 1]);
    }
  }
}
