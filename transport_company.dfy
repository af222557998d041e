/**
 * The registry of transport/transport_company.py: a named company that holds its vehicles
 * (Vehicle objects, shared with whoever else refers to them) and its clients, refuses
 * duplicate ids, and runs the cargo allocator, whose loads land on the registry's own
 * vehicles and stay there.
 */
module Company {
  import opened Wrappers
  import opened Clients
  import opened Vehicles
  import opened Ordering
  import opened Allocation

  /** No two clients share an id. */
  predicate DistinctClientIds(cs: seq<Client>) {
    forall a, b :: 0 <= a < b < |cs| ==> cs[a].id != cs[b].id
  }

  /** No two vehicles share an id (ids never change, so this needs no heap). */
  predicate DistinctVehicleIds(vs: seq<Vehicle>) {
    forall a, b :: 0 <= a < b < |vs| ==> vs[a].id != vs[b].id
  }

  /** The ids of the vehicles' values are the vehicles' ids. */
  lemma VehicleIdsOfStates(vs: seq<Vehicle>)
    requires DistinctVehicleIds(vs)
    ensures DistinctIds(States(vs))
  {
  }

  /** No vehicle object appears twice. */
  predicate DistinctObjects(vs: seq<Vehicle>) {
    forall a, b :: 0 <= a < b < |vs| ==> vs[a] != vs[b]
  }

  /** The duplicate check of add_vehicle: some vehicle of `vs` already has the id. */
  method VehicleIdTaken(vs: seq<Vehicle>, id: string) returns (taken: bool)
    ensures taken <==> exists k :: 0 <= k < |vs| && vs[k].id == id
  {
    for i := 0 to |vs|
      invariant forall k :: 0 <= k < i ==> vs[k].id != id
    {
      if vs[i].id == id {
        return true;
      }
    }
    return false;
  }

  /** The duplicate check of add_client: some client of `cs` already has the id. */
  method ClientIdTaken(cs: seq<Client>, id: string) returns (taken: bool)
    ensures taken <==> exists k :: 0 <= k < |cs| && cs[k].id == id
  {
    for i := 0 to |cs|
      invariant forall k :: 0 <= k < i ==> cs[k].id != id
    {
      if cs[i].id == id {
        return true;
      }
    }
    return false;
  }

  /**
   * The inner loop of either pass: offer the client to each vehicle in turn; the first
   * whose load_cargo accepts it takes it and the loop stops.
   */
  method LoadFirstFit(sv: seq<Vehicle>, c: Client) returns (placed: Option<nat>)
    requires DistinctObjects(sv) && c.Valid()
    requires forall k :: 0 <= k < |sv| ==> sv[k].Valid()
    modifies sv
    ensures forall k :: 0 <= k < |sv| ==> sv[k].Valid()
    ensures placed == FirstFit(old(States(sv)), c.weight)
    ensures placed.Some? ==> States(sv) == old(States(sv))[placed.value := old(States(sv))[placed.value].Loaded(c)]
    ensures placed.None? ==> States(sv) == old(States(sv))
  {
    ghost var before := States(sv);
    var i := 0;
    while i < |sv|
      invariant 0 <= i <= |sv|
      invariant States(sv) == before
      invariant forall j :: 0 <= j < i ==> !before[j].Fits(c.weight)
    {
      var ok := sv[i].LoadCargo(c);
      if ok {
        assert forall k :: 0 <= k < |sv| && k != i ==> sv[k] != sv[i];
        assert States(sv) == before[i := before[i].Loaded(c)];
        return Some(i);
      }
      i := i + 1;
    }
    return None;
  }

  /**
   * One client of either pass: the first vehicle that takes it is recorded with the client's
   * name under its id and in the distributed list; otherwise the client is recorded as not
   * distributed, with the pass's reason.
   */
  method Offer(sv: seq<Vehicle>, c: Client, reason: Reason,
               d0: seq<Assignment>, n0: seq<Rejection>, u0: map<string, seq<string>>)
    returns (distributed: seq<Assignment>, notDistributed: seq<Rejection>, usage: map<string, seq<string>>)
    requires DistinctObjects(sv) && c.Valid() && ReasonFor(c) == reason
    requires forall k :: 0 <= k < |sv| ==> sv[k].Valid()
    requires Tracks(Run(States(sv), d0, n0, u0))
    modifies sv
    ensures forall k :: 0 <= k < |sv| ==> sv[k].Valid()
    ensures Run(States(sv), distributed, notDistributed, usage) == Step(old(Run(States(sv), d0, n0, u0)), c)
  {
    ghost var r := Run(States(sv), d0, n0, u0);
    var placed := LoadFirstFit(sv, c);
    match placed {
      case Some(j) =>
        usage := u0[sv[j].id := u0[sv[j].id] + [c.name]];
        distributed := d0 + [Assignment(c, sv[j].id)];
        notDistributed := n0;
      case None =>
        usage, distributed := u0, d0;
        notDistributed := n0 + [Rejection(c, reason)];
    }
  }

  /**
   * The VIP pass: each VIP client is offered in turn and then removed from the clients
   * remaining, which leaves exactly the others.
   */
  method VipPass(sv: seq<Vehicle>, vipClients: seq<Client>, remaining0: seq<Client>, ghost others: seq<Client>,
                 d0: seq<Assignment>, n0: seq<Rejection>, u0: map<string, seq<string>>)
    returns (remaining: seq<Client>, distributed: seq<Assignment>, notDistributed: seq<Rejection>,
             usage: map<string, seq<string>>)
    requires remaining0 == vipClients + others
    requires DistinctObjects(sv)
    requires forall k :: 0 <= k < |sv| ==> sv[k].Valid()
    requires forall k :: 0 <= k < |vipClients| ==> vipClients[k].Valid() && vipClients[k].isVip
    requires Tracks(Run(States(sv), d0, n0, u0))
    modifies sv
    ensures remaining == others
    ensures forall k :: 0 <= k < |sv| ==> sv[k].Valid()
    ensures Run(States(sv), distributed, notDistributed, usage) == Allocate(old(Run(States(sv), d0, n0, u0)), vipClients)
  {
    ghost var r0 := Run(States(sv), d0, n0, u0);
    remaining, distributed, notDistributed, usage := remaining0, d0, n0, u0;
    var i := 0;
    while i < |vipClients|
      invariant 0 <= i <= |vipClients|
      invariant remaining == vipClients[i..] + others
      invariant forall k :: 0 <= k < |sv| ==> sv[k].Valid()
      invariant Run(States(sv), distributed, notDistributed, usage) == Allocate(r0, vipClients[..i])
    {
      var c := vipClients[i];
      AllocateNext(r0, vipClients, i);
      distributed, notDistributed, usage := Offer(sv, c, NoSuitableVehicle, distributed, notDistributed, usage);
      assert remaining[0] == c;
      RemoveHead(vipClients, i, others);
      remaining := RemoveFirst(remaining, c);
      i := i + 1;
    }
    assert vipClients[..i] == vipClients;
  }

  /** The second pass: each remaining client is offered in turn. */
  method OtherPass(sv: seq<Vehicle>, cs: seq<Client>,
                   d0: seq<Assignment>, n0: seq<Rejection>, u0: map<string, seq<string>>)
    returns (distributed: seq<Assignment>, notDistributed: seq<Rejection>, usage: map<string, seq<string>>)
    requires DistinctObjects(sv)
    requires forall k :: 0 <= k < |sv| ==> sv[k].Valid()
    requires forall k :: 0 <= k < |cs| ==> cs[k].Valid() && !cs[k].isVip
    requires Tracks(Run(States(sv), d0, n0, u0))
    modifies sv
    ensures forall k :: 0 <= k < |sv| ==> sv[k].Valid()
    ensures Run(States(sv), distributed, notDistributed, usage) == Allocate(old(Run(States(sv), d0, n0, u0)), cs)
  {
    ghost var r0 := Run(States(sv), d0, n0, u0);
    distributed, notDistributed, usage := d0, n0, u0;
    var n := 0;
    while n < |cs|
      invariant 0 <= n <= |cs|
      invariant forall k :: 0 <= k < |sv| ==> sv[k].Valid()
      invariant Run(States(sv), distributed, notDistributed, usage) == Allocate(r0, cs[..n])
    {
      AllocateNext(r0, cs, n);
      distributed, notDistributed, usage := Offer(sv, cs[n], NoSpace, distributed, notDistributed, usage);
      n := n + 1;
    }
    assert cs[..n] == cs;
  }

  /**
   * The body of optimize_cargo_distribution over the registry's two lists: returns what
   * Distribute computes from the clients and the vehicles' values on entry, and leaves each
   * vehicle with the value the two passes give it.
   */
  method DistributeCargo(clients: seq<Client>, vehicles: seq<Vehicle>) returns (report: Report)
    requires FleetValid(States(vehicles)) && DistinctVehicleIds(vehicles)
    requires forall k :: 0 <= k < |clients| ==> clients[k].Valid()
    modifies vehicles
    ensures FleetValid(States(vehicles))
    ensures report == Distribute(clients, old(States(vehicles)))
    ensures report.Empty? ==> States(vehicles) == old(States(vehicles))
    ensures !report.Empty? ==>
              States(Permute(vehicles, VehicleOrder(old(States(vehicles)))))
              == Passes(clients, old(States(vehicles))).fleet
  {
    if clients == [] || vehicles == [] {
      return Empty;
    }
    ghost var fleet := States(vehicles);
    var sortedClients := SortedClients(clients);
    var sv := Permute(vehicles, VehicleOrder(States(vehicles)));
    StatesPermute(vehicles, VehicleOrder(fleet));
    SortedObjects(vehicles);
    SortedTiers(clients);
    var distributed, notDistributed, usage := RunPasses(sv, sortedClients);
    var run := Run(States(sv), distributed, notDistributed, usage);
    assert run == Passes(clients, fleet);
    PassesCapacity(clients, fleet);
    report := Report(distributed, notDistributed, usage, StatisticsOf(|clients|, run));
    ValidThroughSorted(vehicles, sv);
  }

  /**
   * Both passes over vehicles already in their fixed order and clients already sorted:
   * the usage table starts with an empty list per vehicle id, the VIP clients are offered
   * and removed from the remaining ones, and then the remaining ones are offered.
   */
  method RunPasses(sv: seq<Vehicle>, sortedClients: seq<Client>)
    returns (distributed: seq<Assignment>, notDistributed: seq<Rejection>, usage: map<string, seq<string>>)
    requires DistinctObjects(sv)
    requires forall k :: 0 <= k < |sv| ==> sv[k].Valid()
    requires sortedClients == Vips(sortedClients) + NonVips(sortedClients)
    requires forall k :: 0 <= k < |Vips(sortedClients)| ==> Vips(sortedClients)[k].Valid()
    requires forall k :: 0 <= k < |NonVips(sortedClients)| ==> NonVips(sortedClients)[k].Valid()
    modifies sv
    ensures forall k :: 0 <= k < |sv| ==> sv[k].Valid()
    ensures Run(States(sv), distributed, notDistributed, usage)
            == Allocate(Allocate(Start(old(States(sv))), Vips(sortedClients)), NonVips(sortedClients))
  {
    usage := map v | v in sv :: v.id := [];
    assert usage == Start(States(sv)).usage by {
      UsageStart(sv);
    }
    var remaining := sortedClients;
    var vipClients := Vips(remaining);
    remaining, distributed, notDistributed, usage :=
      VipPass(sv, vipClients, remaining, NonVips(sortedClients), [], [], usage);
    distributed, notDistributed, usage := OtherPass(sv, remaining, distributed, notDistributed, usage);
  }

  /** The values of rearranged vehicles are their values, rearranged. */
  lemma StatesPermute(vs: seq<Vehicle>, p: seq<int>)
    requires InRange(p, |vs|)
    ensures States(Permute(vs, p)) == Permute(States(vs), p)
  {
  }

  /** One more client of a pass is one more Step. */
  lemma AllocateNext(r: Run, cs: seq<Client>, i: nat)
    requires Tracks(r) && i < |cs|
    ensures Allocate(r, cs[..i + 1]) == Step(Allocate(r, cs[..i]), cs[i])
  {
    assert cs[..i + 1][..i] == cs[..i];
  }

  /** Removing the client just offered takes it off the front of the remaining ones. */
  lemma RemoveHead(vipClients: seq<Client>, i: nat, others: seq<Client>)
    requires i < |vipClients|
    ensures RemoveFirst(vipClients[i..] + others, vipClients[i]) == vipClients[i + 1..] + others
  {
    assert (vipClients[i..] + others)[1..] == vipClients[i + 1..] + others;
  }

  /** sum(1 for c in clients if c.is_vip). */
  function VipCount(cs: seq<Client>): (n: nat)
    ensures n <= |cs| && n == |Vips(cs)|
  {
    if cs == [] then 0 else (if cs[0].isVip then 1 else 0) + VipCount(cs[1..])
  }

  /** Both tiers of valid clients hold only valid clients. */
  lemma {:induction false} TiersValid(cs: seq<Client>)
    requires forall k :: 0 <= k < |cs| ==> cs[k].Valid()
    ensures forall k :: 0 <= k < |Vips(cs)| ==> Vips(cs)[k].Valid()
    ensures forall k :: 0 <= k < |NonVips(cs)| ==> NonVips(cs)[k].Valid()
  {
    if cs != [] {
      TiersValid(cs[1..]);
    }
  }

  /** The dictionary get_statistics returns. */
  datatype CompanyStatistics = CompanyStatistics(
    companyName: string,
    totalVehicles: nat,
    totalClients: nat,
    vipClients: nat,
    totalCapacity: real,
    usedCapacity: real,
    availableCapacity: real,
    utilizationPercentage: real)

  /**
   * list_available_vehicles as it was evidently meant: [v for v in vs if v.get_free_space() > 0],
   * the vehicles with room left, in registry order. The filter is get_free_space's expression,
   * so it needs no vehicle invariant; on valid vehicles it is exactly FreeSpace() > 0.
   */
  function AvailableVehicles(vs: seq<Vehicle>): (r: seq<Vehicle>)
    reads vs
    ensures |r| <= |vs|
    ensures forall v :: v in r ==> v in vs && v.capacity - v.currentLoad > 0.0
    ensures forall k :: 0 <= k < |vs| && vs[k].capacity - vs[k].currentLoad > 0.0 ==> vs[k] in r
    ensures forall k :: 0 <= k < |vs| && vs[k].Valid() ==> (vs[k] in r <==> vs[k].FreeSpace() > 0.0)
  {
    if vs == [] then []
    else (if vs[0].capacity - vs[0].currentLoad > 0.0 then [vs[0]] else []) + AvailableVehicles(vs[1..])
  }

  /** The error list_available_vehicles raises: Vehicle has no get_remaining_capacity. */
  datatype AttributeError = NoGetRemainingCapacity

  /** list_available_vehicles as written: the first vehicle it asks raises the error. */
  function AvailableVehiclesAsWritten(vs: seq<Vehicle>): (r: Result<seq<Vehicle>, AttributeError>)
    ensures r.Success? <==> vs == []
  {
    if vs == [] then Success([]) else Failure(NoGetRemainingCapacity)
  }

  /**
   * A registry holding one empty vehicle: the method as written raises, where the intended
   * one lists that vehicle.
   */
  lemma AvailableVehiclesAsWrittenFails(v: Vehicle)
    requires v.Valid() && v.currentLoad == 0.0
    ensures AvailableVehiclesAsWritten([v]).Failure?
    ensures AvailableVehicles([v]) == [v]
  {
    assert [v][1..] == [];
  }

  class TransportCompany {
    const name: string
    var vehicles: seq<Vehicle>
    var clients: seq<Client>

    /** Every vehicle and client keeps its own invariant, and ids are unique in each list. */
    ghost predicate Valid()
      reads this, vehicles
    {
      Registered() && FleetValid(States(vehicles))
    }

    /** The registry's own part of the invariant: valid clients, and unique ids in both lists. */
    ghost predicate Registered()
      reads this
    {
      && DistinctVehicleIds(vehicles)
      && (forall k :: 0 <= k < |clients| ==> clients[k].Valid())
      && DistinctClientIds(clients)
    }

    /** TransportCompany(name): both lists start empty. */
    constructor (name: string)
      ensures Valid()
      ensures this.name == name && vehicles == [] && clients == []
    {
      this.name := name;
      vehicles := [];
      clients := [];
    }

    /**
     * add_vehicle(vehicle): refuses a vehicle whose id is already registered, changing
     * nothing; otherwise appends it.
     */
    method AddVehicle(v: Vehicle) returns (ok: bool)
      requires Valid() && v.Valid()
      modifies this
      ensures Valid()
      ensures ok <==> forall k :: 0 <= k < |old(vehicles)| ==> old(vehicles)[k].id != v.id
      ensures vehicles == if ok then old(vehicles) + [v] else old(vehicles)
      ensures clients == old(clients)
    {
      var taken := VehicleIdTaken(vehicles, v.id);
      if taken {
        return false;
      }
      ghost var before := States(vehicles);
      vehicles := vehicles + [v];
      assert States(vehicles) == before + [v.State()];
      return true;
    }

    /**
     * add_client(client): refuses a client whose id is already registered, changing
     * nothing; otherwise appends it.
     */
    method AddClient(c: Client) returns (ok: bool)
      requires Valid() && c.Valid()
      modifies this
      ensures Valid()
      ensures ok <==> forall k :: 0 <= k < |old(clients)| ==> old(clients)[k].id != c.id
      ensures clients == if ok then old(clients) + [c] else old(clients)
      ensures vehicles == old(vehicles)
    {
      var taken := ClientIdTaken(clients, c.id);
      if taken {
        return false;
      }
      clients := clients + [c];
      return true;
    }

    /**
     * sort_vehicles_by_efficiency(): the registry's own vehicle objects, rearranged by
     * non-increasing capacity; their values are the stable sort of the registry's values.
     */
    function SortVehiclesByEfficiency(): (r: seq<Vehicle>)
      reads this, vehicles
      ensures |r| == |vehicles| && multiset(r) == multiset(vehicles)
      ensures forall a, b :: 0 <= a < b < |r| ==> r[a].capacity >= r[b].capacity
      ensures States(r) == SortedFleet(States(vehicles))
    {
      SortPermutes(vehicles, VehicleKeys(States(vehicles)));
      SortedFleetOrder(States(vehicles));
      Permute(vehicles, VehicleOrder(States(vehicles)))
    }

    /**
     * optimize_cargo_distribution(): returns what Distribute computes from the clients and
     * the vehicles' values on entry, and leaves each vehicle with the value the two passes
     * give it (nothing changes when there are no clients or no vehicles).
     */
    method OptimizeCargoDistribution() returns (report: Report)
      requires Valid()
      modifies set v | v in vehicles
      ensures Valid()
      ensures report == Distribute(clients, old(States(vehicles)))
      ensures report.Empty? ==> States(vehicles) == old(States(vehicles))
      ensures !report.Empty? ==>
                States(Permute(vehicles, VehicleOrder(old(States(vehicles)))))
                == Passes(clients, old(States(vehicles))).fleet
    {
      assert (this as object) !in (set v | v in vehicles :: v as object);
      report := DistributeCargo(clients, vehicles);
    }

    /**
     * get_statistics(): the capacity left is the capacity not used, and the utilisation is
     * 0 when there is no capacity at all.
     */
    function GetStatistics(): (st: CompanyStatistics)
      reads this, vehicles
      ensures st.companyName == name
      ensures st.totalVehicles == |vehicles| && st.totalClients == |clients|
      ensures st.vipClients == |Vips(clients)| && st.vipClients <= st.totalClients
      ensures st.availableCapacity == st.totalCapacity - st.usedCapacity
      ensures st.totalCapacity <= 0.0 ==> st.utilizationPercentage == 0.0
    {
      var fleet := States(vehicles);
      var total, used := TotalCapacity(fleet), TotalLoad(fleet);
      CompanyStatistics(
        name, |vehicles|, |clients|, VipCount(clients), total, used, total - used,
        if total > 0.0 then used / total * 100.0 else 0.0)
    }
  }

  /**
   * Sorting a registry whose vehicle ids are unique yields each of its vehicle objects
   * once, and only those.
   */
  lemma SortedObjects(vs: seq<Vehicle>)
    requires DistinctVehicleIds(vs)
    ensures var sv := Permute(vs, VehicleOrder(States(vs)));
      && DistinctObjects(sv) && multiset(sv) == multiset(vs)
      && forall v :: v in sv ==> v in vs
  {
    var sv := Permute(vs, VehicleOrder(States(vs)));
    SortPermutes(vs, VehicleKeys(States(vs)));
    VehicleIdsOfStates(vs);
    SortedFleetKeeps(States(vs));
    SortedFleetOrder(States(vs));
    forall a, b | 0 <= a < b < |sv| ensures sv[a] != sv[b] {
      assert SortedFleet(States(vs))[a].id != SortedFleet(States(vs))[b].id;
    }
    forall v | v in sv ensures v in vs {
      assert v in multiset(sv);
    }
  }

  /** The sorted valid clients split into the VIP clients and then the others, all valid. */
  lemma SortedTiers(cs: seq<Client>)
    requires forall k :: 0 <= k < |cs| ==> cs[k].Valid()
    ensures var sorted := SortedClients(cs);
      && sorted == Vips(sorted) + NonVips(sorted)
      && (forall k :: 0 <= k < |Vips(sorted)| ==> Vips(sorted)[k].Valid())
      && (forall k :: 0 <= k < |NonVips(sorted)| ==> NonVips(sorted)[k].Valid())
  {
    SortedClientsValid(cs);
    TiersValid(SortedClients(cs));
    SortedClientsOrder(cs);
    TiersSplit(SortedClients(cs));
  }

  /** Vehicles that are all valid in the sorted list are all valid in the registry. */
  lemma ValidThroughSorted(vs: seq<Vehicle>, sv: seq<Vehicle>)
    requires multiset(sv) == multiset(vs)
    requires forall k :: 0 <= k < |sv| ==> sv[k].Valid()
    ensures FleetValid(States(vs))
  {
    forall k | 0 <= k < |vs| ensures vs[k].Valid() {
      assert vs[k] in multiset(sv);
    }
  }

  /** The usage table built from the vehicle objects is the one Start builds from their values. */
  lemma UsageStart(sv: seq<Vehicle>)
    ensures (map v | v in sv :: v.id := []) == Start(States(sv)).usage
  {
    var fleet := States(sv);
    forall id | id in Start(fleet).usage ensures exists v :: v in sv && v.id == id {
      var s :| s in fleet && s.id == id;
      var k :| 0 <= k < |fleet| && fleet[k] == s;
      assert sv[k].id == id;
    }
    forall v | v in sv ensures v.id in Start(fleet).usage {
      var k :| 0 <= k < |sv| && sv[k] == v;
      assert fleet[k].id == v.id;
    }
  }

  /**
   * In a valid registry the used capacity lies between zero and the total capacity, the
   * capacity left is never negative, the utilisation is a percentage, and it is 0 exactly
   * when nothing is loaded.
   */
  lemma StatisticsBounds(company: TransportCompany)
    requires company.Valid()
    ensures var st := company.GetStatistics();
      && 0.0 <= st.usedCapacity <= st.totalCapacity
      && 0.0 <= st.availableCapacity <= st.totalCapacity
      && 0.0 <= st.utilizationPercentage <= 100.0
      && (st.utilizationPercentage == 0.0 <==> st.usedCapacity == 0.0)
      && (st.totalCapacity > 0.0 <==> st.totalVehicles > 0)
  {
    var fleet := States(company.vehicles);
    FleetTotals(fleet);
    if fleet == [] {
      assert TotalLoad(fleet) == 0.0;
    } else {
      PercentageBounds(TotalLoad(fleet), TotalCapacity(fleet));
    }
  }
}
