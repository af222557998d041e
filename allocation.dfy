/**
 * The allocator of transport/transport_company.py (optimize_cargo_distribution) as a
 * function of the registry's clients and the current values of its vehicles. Clients are
 * sorted VIP first and then by falling cargo weight, vehicles by falling capacity, both
 * stably; the VIP clients and then the others are each given to the first vehicle, in that
 * fixed order, that still has room. Vehicles keep whatever they already carried.
 */
module Allocation {
  import opened Wrappers
  import opened Clients
  import opened Vehicles
  import opened Ordering

  /** A distributed client and the vehicle it went to. */
  datatype Assignment = Assignment(client: Client, vehicleId: string)

  /** Why a client was not distributed: the VIP pass and the second pass word it differently. */
  datatype Reason = NoSuitableVehicle | NoSpace

  datatype Rejection = Rejection(client: Client, reason: Reason)

  /** The "statistics" entry of a distribution. */
  datatype Statistics = Statistics(
    totalClients: nat,
    distributedCount: nat,
    notDistributedCount: nat,
    vehiclesUsed: nat,
    totalVehicles: nat,
    loadPercentage: real)

  /** What optimize_cargo_distribution returns: nothing when there is nothing to distribute. */
  datatype Report =
    | Empty
    | Report(
        distributed: seq<Assignment>,
        notDistributed: seq<Rejection>,
        vehicleUsage: map<string, seq<string>>,
        statistics: Statistics)

  /** The allocator part way through: the vehicles in their fixed order and the results so far. */
  datatype Run = Run(
    fleet: seq<VehicleState>,
    distributed: seq<Assignment>,
    notDistributed: seq<Rejection>,
    usage: map<string, seq<string>>)

  // ---------------------------------------------------------------- the two sorts

  /** The client sort key (not is_vip, -cargo_weight); False sorts before True. */
  function ClientKey(c: Client): Key {
    Key(if c.isVip then 0 else 1, -c.weight)
  }

  /**
   * The vehicle sort key. sorted(key=capacity, reverse=True) keeps equal capacities in
   * their original order, which is the stable ascending sort by -capacity.
   */
  function VehicleKey(v: VehicleState): Key {
    Key(0, -v.capacity)
  }

  /**
   * Comparing (not is_vip, -cargo_weight) pairs puts a VIP client before any other and, within
   * a tier, a heavier cargo first; the pairs tie exactly on the same tier and weight.
   */
  lemma ClientKeyOrder(a: Client, b: Client)
    ensures Less(ClientKey(a), ClientKey(b)) <==> (a.isVip && !b.isVip) || (a.isVip == b.isVip && a.weight > b.weight)
    ensures ClientKey(a) == ClientKey(b) <==> a.isVip == b.isVip && a.weight == b.weight
  {
  }

  /** A larger capacity comes first; keys tie exactly on equal capacities. */
  lemma VehicleKeyOrder(a: VehicleState, b: VehicleState)
    ensures Less(VehicleKey(a), VehicleKey(b)) <==> a.capacity > b.capacity
    ensures VehicleKey(a) == VehicleKey(b) <==> a.capacity == b.capacity
  {
  }

  function ClientKeys(cs: seq<Client>): (keys: seq<Key>)
    ensures |keys| == |cs| && forall i :: 0 <= i < |cs| ==> keys[i] == ClientKey(cs[i])
  {
    seq(|cs|, i requires 0 <= i < |cs| => ClientKey(cs[i]))
  }

  function VehicleKeys(fleet: seq<VehicleState>): (keys: seq<Key>)
    ensures |keys| == |fleet| && forall i :: 0 <= i < |fleet| ==> keys[i] == VehicleKey(fleet[i])
  {
    seq(|fleet|, i requires 0 <= i < |fleet| => VehicleKey(fleet[i]))
  }

  /** Registration positions of the clients in processing order. */
  function ClientOrder(cs: seq<Client>): (p: seq<int>)
    ensures |p| == |cs| && InRange(p, |cs|)
  {
    StableOrder(ClientKeys(cs))
  }

  /** Registration positions of the vehicles in the order they are tried. */
  function VehicleOrder(fleet: seq<VehicleState>): (p: seq<int>)
    ensures |p| == |fleet| && InRange(p, |fleet|)
  {
    StableOrder(VehicleKeys(fleet))
  }

  /** sorted(clients, key=lambda c: (not c.is_vip, -c.cargo_weight)). */
  function SortedClients(cs: seq<Client>): seq<Client> {
    Permute(cs, ClientOrder(cs))
  }

  /** sort_vehicles_by_efficiency(). */
  function SortedFleet(fleet: seq<VehicleState>): seq<VehicleState> {
    Permute(fleet, VehicleOrder(fleet))
  }

  /**
   * The clients come out as a rearrangement of the registered ones, VIP clients first,
   * each tier by non-increasing cargo weight, and clients alike in both keep the order
   * in which they were registered.
   */
  lemma SortedClientsOrder(cs: seq<Client>)
    ensures var r, p := SortedClients(cs), ClientOrder(cs);
      && |r| == |cs| && multiset(r) == multiset(cs)
      && (forall k :: 0 <= k < |r| ==> r[k] == cs[p[k]])
      && (forall a, b :: 0 <= a < b < |r| && r[b].isVip ==> r[a].isVip)
      && (forall a, b :: 0 <= a < b < |r| && r[a].isVip == r[b].isVip ==> r[a].weight >= r[b].weight)
      && (forall a, b :: 0 <= a < b < |r| && r[a].isVip == r[b].isVip && r[a].weight == r[b].weight ==> p[a] < p[b])
  {
    var keys, r, p := ClientKeys(cs), SortedClients(cs), ClientOrder(cs);
    StableOrderSorts(keys);
    SortPermutes(cs, keys);
    forall a, b | 0 <= a < b < |r| ensures Before(keys, p[a], p[b]) {
    }
  }

  /**
   * The vehicles come out as a rearrangement of the registered ones by non-increasing
   * capacity, equal capacities in registration order.
   */
  lemma SortedFleetOrder(fleet: seq<VehicleState>)
    ensures var r, p := SortedFleet(fleet), VehicleOrder(fleet);
      && |r| == |fleet| && multiset(r) == multiset(fleet)
      && (forall k :: 0 <= k < |r| ==> r[k] == fleet[p[k]])
      && (forall a, b :: 0 <= a < b < |r| ==> r[a].capacity >= r[b].capacity)
      && (forall a, b :: 0 <= a < b < |r| && r[a].capacity == r[b].capacity ==> p[a] < p[b])
  {
    var keys, r, p := VehicleKeys(fleet), SortedFleet(fleet), VehicleOrder(fleet);
    StableOrderSorts(keys);
    SortPermutes(fleet, keys);
    forall a, b | 0 <= a < b < |r| ensures Before(keys, p[a], p[b]) {
    }
  }

  /** Sorting the fleet keeps every vehicle valid and every id distinct. */
  lemma SortedFleetKeeps(fleet: seq<VehicleState>)
    ensures FleetValid(fleet) ==> FleetValid(SortedFleet(fleet))
    ensures DistinctIds(fleet) ==> DistinctIds(SortedFleet(fleet))
  {
    var keys, r, p := VehicleKeys(fleet), SortedFleet(fleet), VehicleOrder(fleet);
    StableOrderSorts(keys);
    forall a, b | 0 <= a < b < |r| ensures p[a] != p[b] {
      StableOrderDistinct(keys, p, a, b);
    }
  }

  // ---------------------------------------------------------------- the two tiers

  /** [c for c in cs if c.is_vip]. */
  function Vips(cs: seq<Client>): (r: seq<Client>)
    ensures forall k :: 0 <= k < |r| ==> r[k].isVip
  {
    if cs == [] then [] else (if cs[0].isVip then [cs[0]] else []) + Vips(cs[1..])
  }

  /** The clients left for the second pass: those that are not VIP, in order. */
  function NonVips(cs: seq<Client>): (r: seq<Client>)
    ensures forall k :: 0 <= k < |r| ==> !r[k].isVip
  {
    if cs == [] then [] else (if cs[0].isVip then [] else [cs[0]]) + NonVips(cs[1..])
  }

  /** Every client goes to exactly one of the two passes. */
  lemma {:induction false} TiersCount(cs: seq<Client>)
    ensures |Vips(cs)| + |NonVips(cs)| == |cs|
  {
    if cs != [] {
      TiersCount(cs[1..]);
    }
  }

  lemma {:induction false} NoVips(cs: seq<Client>)
    requires forall k :: 0 <= k < |cs| ==> !cs[k].isVip
    ensures Vips(cs) == [] && NonVips(cs) == cs
  {
    if cs != [] {
      NoVips(cs[1..]);
      assert cs == [cs[0]] + cs[1..];
    }
  }

  /** Every VIP client comes before every other. */
  predicate VipsFirst(cs: seq<Client>) {
    forall a, b :: 0 <= a < b < |cs| && cs[b].isVip ==> cs[a].isVip
  }

  /** When every VIP client comes before every other, the two passes see the clients in order. */
  lemma {:induction false} TiersSplit(cs: seq<Client>)
    requires VipsFirst(cs)
    ensures cs == Vips(cs) + NonVips(cs)
  {
    if cs != [] {
      if cs[0].isVip {
        VipsFirstTail(cs);
        TiersSplit(cs[1..]);
        TiersCons(cs);
      } else {
        VipsFirstNone(cs);
        NoVips(cs);
      }
    }
  }

  lemma VipsFirstTail(cs: seq<Client>)
    requires |cs| > 0 && VipsFirst(cs)
    ensures VipsFirst(cs[1..])
  {
    var rest := cs[1..];
    forall a, b | 0 <= a < b < |rest| && rest[b].isVip ensures rest[a].isVip {
      assert cs[a + 1] == rest[a] && cs[b + 1] == rest[b];
    }
  }

  lemma VipsFirstNone(cs: seq<Client>)
    requires |cs| > 0 && !cs[0].isVip && VipsFirst(cs)
    ensures forall k :: 0 <= k < |cs| ==> !cs[k].isVip
  {
    var head := cs[0];
    forall k | 0 < k < |cs| ensures !cs[k].isVip {
      assert cs[k].isVip ==> head.isVip;
    }
  }

  lemma TiersCons(cs: seq<Client>)
    requires |cs| > 0 && cs[0].isVip && cs[1..] == Vips(cs[1..]) + NonVips(cs[1..])
    ensures cs == Vips(cs) + NonVips(cs)
  {
    assert cs == [cs[0]] + cs[1..];
  }

  /** The position of the first occurrence of x in s. */
  function IndexOf<T(==)>(s: seq<T>, x: T): (i: nat)
    requires x in s
    ensures i < |s| && s[i] == x && x !in s[..i]
  {
    if s[0] == x then 0
    else
      var j := IndexOf(s[1..], x);
      assert s[..j + 1] == [s[0]] + s[1..][..j];
      j + 1
  }

  /**
   * list.remove(x), which the source only ever calls on a list holding x: drop the first
   * element equal to x and keep the others in order.
   */
  function RemoveFirst<T(==)>(s: seq<T>, x: T): (r: seq<T>)
    requires x in s
    ensures var i := IndexOf(s, x); r == s[..i] + s[i + 1..]
    ensures |r| == |s| - 1 && multiset(r) == multiset(s) - multiset{x}
  {
    RemoveAt(s, IndexOf(s, x));
    if s[0] == x then
      assert s[..0] + s[1..] == s[1..];
      s[1..]
    else
      var t, j := RemoveFirst(s[1..], x), IndexOf(s[1..], x);
      assert IndexOf(s, x) == j + 1;
      RemoveLater(s, j, t);
      [s[0]] + t
  }

  /** Dropping the element at position i loses exactly that element. */
  lemma RemoveAt<T>(s: seq<T>, i: nat)
    requires i < |s|
    ensures multiset(s[..i] + s[i + 1..]) == multiset(s) - multiset{s[i]}
  {
    assert s == s[..i] + [s[i]] + s[i + 1..];
  }

  /** Dropping position j of the tail of s is dropping position j + 1 of s. */
  lemma RemoveLater<T>(s: seq<T>, j: nat, t: seq<T>)
    requires j + 1 < |s| && t == s[1..][..j] + s[1..][j + 1..]
    ensures [s[0]] + t == s[..j + 1] + s[j + 2..]
  {
    var u := s[1..];
    assert s[..j + 1] == [s[0]] + u[..j];
    assert s[j + 2..] == u[j + 1..];
  }

  // ---------------------------------------------------------------- first fit

  /** The first vehicle, in the given order, whose load_cargo accepts the weight. */
  function FirstFit(fleet: seq<VehicleState>, weight: real): (r: Option<nat>)
    ensures r.Some? ==> r.value < |fleet| && fleet[r.value].Fits(weight)
    ensures r.Some? ==> forall j :: 0 <= j < r.value ==> !fleet[j].Fits(weight)
    ensures r.None? <==> forall j :: 0 <= j < |fleet| ==> !fleet[j].Fits(weight)
  {
    if fleet == [] then None
    else if fleet[0].Fits(weight) then Some(0)
    else match FirstFit(fleet[1..], weight)
      case None => None
      case Some(k) => Some(k + 1)
  }

  /** Same vehicles, position by position: same ids and capacities. */
  predicate SameVehicles(f: seq<VehicleState>, g: seq<VehicleState>) {
    |f| == |g| && forall k :: 0 <= k < |f| ==> f[k].id == g[k].id && f[k].capacity == g[k].capacity
  }

  /** Every vehicle has its entry in the usage table. */
  predicate Tracks(r: Run) {
    forall k :: 0 <= k < |r.fleet| ==> r.fleet[k].id in r.usage
  }

  /** The reason recorded for a client is the one its pass uses. */
  function ReasonFor(c: Client): Reason {
    if c.isVip then NoSuitableVehicle else NoSpace
  }

  /** One client of either pass: load it into the first vehicle with room, or record it as left over. */
  function Step(r: Run, c: Client): (r': Run)
    requires Tracks(r)
    ensures Tracks(r') && SameVehicles(r.fleet, r'.fleet) && r'.usage.Keys == r.usage.Keys
    ensures FirstFit(r.fleet, c.weight).Some? ==>
              && r'.distributed == r.distributed + [Assignment(c, r.fleet[FirstFit(r.fleet, c.weight).value].id)]
              && r'.notDistributed == r.notDistributed
    ensures FirstFit(r.fleet, c.weight).None? ==>
              && r' == r.(notDistributed := r.notDistributed + [Rejection(c, ReasonFor(c))])
  {
    match FirstFit(r.fleet, c.weight)
    case Some(k) =>
      var v := r.fleet[k];
      Run(r.fleet[k := v.Loaded(c)],
          r.distributed + [Assignment(c, v.id)],
          r.notDistributed,
          r.usage[v.id := r.usage[v.id] + [c.name]])
    case None =>
      r.(notDistributed := r.notDistributed + [Rejection(c, ReasonFor(c))])
  }

  /** The clients `cs`, one after the other. */
  function Allocate(r: Run, cs: seq<Client>): (r': Run)
    requires Tracks(r)
    ensures Tracks(r') && SameVehicles(r.fleet, r'.fleet) && r'.usage.Keys == r.usage.Keys
    ensures |r'.distributed| + |r'.notDistributed| == |r.distributed| + |r.notDistributed| + |cs|
    decreases |cs|
  {
    if cs == [] then r else Step(Allocate(r, cs[..|cs| - 1]), cs[|cs| - 1])
  }

  /** Running two lists of clients one after the other is running their concatenation. */
  lemma {:induction false} AllocateAppend(r: Run, xs: seq<Client>, ys: seq<Client>)
    requires Tracks(r)
    ensures Allocate(Allocate(r, xs), ys) == Allocate(r, xs + ys)
    decreases |ys|
  {
    var zs := xs + ys;
    if ys == [] {
      assert zs == xs;
    } else {
      var init, y := ys[..|ys| - 1], ys[|ys| - 1];
      AllocateAppend(r, xs, init);
      assert zs[..|zs| - 1] == xs + init && zs[|zs| - 1] == y;
      assert Allocate(r, zs) == Step(Allocate(r, xs + init), y);
    }
  }

  // ---------------------------------------------------------------- accounting

  function AssignedClients(ds: seq<Assignment>): (r: seq<Client>)
    ensures |r| == |ds| && forall k :: 0 <= k < |ds| ==> r[k] == ds[k].client
  {
    seq(|ds|, k requires 0 <= k < |ds| => ds[k].client)
  }

  function RejectedClients(ns: seq<Rejection>): (r: seq<Client>)
    ensures |r| == |ns| && forall k :: 0 <= k < |ns| ==> r[k] == ns[k].client
  {
    seq(|ns|, k requires 0 <= k < |ns| => ns[k].client)
  }

  /** The clients recorded so far, distributed or not. */
  function Accounted(r: Run): multiset<Client> {
    multiset(AssignedClients(r.distributed)) + multiset(RejectedClients(r.notDistributed))
  }

  /** One step records its client exactly once. */
  lemma StepAccounts(r: Run, c: Client)
    requires Tracks(r)
    ensures Accounted(Step(r, c)) == Accounted(r) + multiset{c}
  {
    var r' := Step(r, c);
    if FirstFit(r.fleet, c.weight).Some? {
      assert AssignedClients(r'.distributed) == AssignedClients(r.distributed) + [c];
      assert RejectedClients(r'.notDistributed) == RejectedClients(r.notDistributed);
    } else {
      assert RejectedClients(r'.notDistributed) == RejectedClients(r.notDistributed) + [c];
      assert AssignedClients(r'.distributed) == AssignedClients(r.distributed);
    }
  }

  /** Every client the allocator is given ends up in exactly one of the two lists. */
  lemma {:induction false} AllocateAccounts(r: Run, cs: seq<Client>)
    requires Tracks(r)
    ensures Accounted(Allocate(r, cs)) == Accounted(r) + multiset(cs)
    decreases |cs|
  {
    if cs != [] {
      var init, c := cs[..|cs| - 1], cs[|cs| - 1];
      var r1 := Allocate(r, init);
      assert Allocate(r, cs) == Step(r1, c);
      AllocateAccounts(r, init);
      StepAccounts(r1, c);
      assert cs == init + [c];
      assert multiset(cs) == multiset(init) + multiset{c};
    }
  }

  /** Every rejection carries the reason of the pass its client belongs to. */
  predicate ReasonsByTier(ns: seq<Rejection>) {
    forall k :: 0 <= k < |ns| ==> ns[k].reason == ReasonFor(ns[k].client)
  }

  lemma {:induction false} AllocateReasons(r: Run, cs: seq<Client>)
    requires Tracks(r) && ReasonsByTier(r.notDistributed)
    ensures ReasonsByTier(Allocate(r, cs).notDistributed)
    decreases |cs|
  {
    if cs != [] {
      AllocateReasons(r, cs[..|cs| - 1]);
    }
  }

  // ---------------------------------------------------------------- the vehicles

  /** Loading into the first vehicle with room keeps every vehicle valid. */
  lemma StepValid(r: Run, c: Client)
    requires Tracks(r) && FleetValid(r.fleet) && c.Valid()
    ensures FleetValid(Step(r, c).fleet)
  {
    match FirstFit(r.fleet, c.weight)
    case Some(k) => LoadedValid(r.fleet[k], c);
    case None =>
  }

  /** 0 <= current_load <= capacity and load == sum of cargo weights hold after the allocator. */
  lemma {:induction false} AllocateValid(r: Run, cs: seq<Client>)
    requires Tracks(r) && FleetValid(r.fleet)
    requires forall k :: 0 <= k < |cs| ==> cs[k].Valid()
    ensures FleetValid(Allocate(r, cs).fleet)
    decreases |cs|
  {
    if cs != [] {
      AllocateValid(r, cs[..|cs| - 1]);
      StepValid(Allocate(r, cs[..|cs| - 1]), cs[|cs| - 1]);
    }
  }

  /** Nothing is ever unloaded: each vehicle's earlier cargo stays at the front of its list. */
  predicate CargoKept(f: seq<VehicleState>, g: seq<VehicleState>)
    requires |f| == |g|
  {
    forall k :: 0 <= k < |f| ==> f[k].cargo <= g[k].cargo
  }

  /** The names of clients, as vehicle_usage lists them. */
  function Names(cs: seq<Client>): (r: seq<string>)
    ensures |r| == |cs| && forall k :: 0 <= k < |cs| ==> r[k] == cs[k].name
  {
    seq(|cs|, k requires 0 <= k < |cs| => cs[k].name)
  }

  /** The usage entry of each vehicle grows by the names of the clients loaded into it, in load order. */
  predicate UsageRecords(before: Run, after: Run)
    requires Tracks(before) && Tracks(after) && SameVehicles(before.fleet, after.fleet)
    requires CargoKept(before.fleet, after.fleet)
  {
    forall k :: 0 <= k < |before.fleet| ==>
      after.usage[before.fleet[k].id]
      == before.usage[before.fleet[k].id] + Names(after.fleet[k].cargo[|before.fleet[k].cargo|..])
  }

  lemma {:induction false} AllocateUsage(r: Run, cs: seq<Client>)
    requires Tracks(r) && DistinctIds(r.fleet)
    ensures CargoKept(r.fleet, Allocate(r, cs).fleet)
    ensures UsageRecords(r, Allocate(r, cs))
    decreases |cs|
  {
    if cs == [] {
      var r' := Allocate(r, cs);
      forall k | 0 <= k < |r.fleet| ensures r'.usage[r.fleet[k].id] == r.usage[r.fleet[k].id] + Names(r'.fleet[k].cargo[|r.fleet[k].cargo|..]) {
        assert r'.fleet[k].cargo[|r.fleet[k].cargo|..] == [];
      }
    } else {
      var init, c := cs[..|cs| - 1], cs[|cs| - 1];
      AllocateUsage(r, init);
      StepUsage(r, Allocate(r, init), c);
    }
  }

  /** One more client keeps the earlier cargo and adds its name to the entry of the vehicle it went into. */
  lemma StepUsage(r: Run, r1: Run, c: Client)
    requires Tracks(r) && Tracks(r1) && DistinctIds(r.fleet) && SameVehicles(r.fleet, r1.fleet)
    requires CargoKept(r.fleet, r1.fleet) && UsageRecords(r, r1)
    ensures CargoKept(r.fleet, Step(r1, c).fleet)
    ensures UsageRecords(r, Step(r1, c))
  {
    var r' := Step(r1, c);
    match FirstFit(r1.fleet, c.weight)
    case None =>
    case Some(j) =>
      forall k | 0 <= k < |r.fleet|
        ensures r.fleet[k].cargo <= r'.fleet[k].cargo
        ensures r'.usage[r.fleet[k].id] == r.usage[r.fleet[k].id] + Names(r'.fleet[k].cargo[|r.fleet[k].cargo|..])
      {
        var id, n := r.fleet[k].id, |r.fleet[k].cargo|;
        if k == j {
          var old1 := r1.fleet[k].cargo;
          assert r'.fleet[k].cargo == old1 + [c];
          assert (old1 + [c])[n..] == old1[n..] + [c];
          assert Names(old1[n..] + [c]) == Names(old1[n..]) + [c.name];
        } else {
          assert r1.fleet[j].id != id;
        }
      }
  }

  /** Every vehicle carries exactly its capacity. */
  predicate Full(fleet: seq<VehicleState>) {
    forall k :: 0 <= k < |fleet| ==> fleet[k].load == fleet[k].capacity
  }

  /** A full fleet turns a valid client away. */
  lemma StepSaturated(r: Run, c: Client)
    requires Tracks(r) && Full(r.fleet) && c.Valid()
    ensures Step(r, c) == r.(notDistributed := r.notDistributed + [Rejection(c, ReasonFor(c))])
  {
    assert forall j :: 0 <= j < |r.fleet| ==> !r.fleet[j].Fits(c.weight);
  }

  /** The records of clients turned away, each with the reason of its pass. */
  function Rejections(cs: seq<Client>): (ns: seq<Rejection>)
    ensures |ns| == |cs| && RejectedClients(ns) == cs && ReasonsByTier(ns)
  {
    seq(|cs|, k requires 0 <= k < |cs| => Rejection(cs[k], ReasonFor(cs[k])))
  }

  /** A fleet in which every vehicle is full turns every client away and changes nothing else. */
  lemma {:induction false} AllocateSaturated(r: Run, cs: seq<Client>)
    requires Tracks(r) && Full(r.fleet)
    requires forall k :: 0 <= k < |cs| ==> cs[k].Valid()
    ensures Allocate(r, cs) == r.(notDistributed := r.notDistributed + Rejections(cs))
    decreases |cs|
  {
    if cs == [] {
      assert r.notDistributed + Rejections(cs) == r.notDistributed;
    } else {
      var init, c := cs[..|cs| - 1], cs[|cs| - 1];
      AllocateSaturated(r, init);
      SaturatedLast(r, init, c);
      assert cs == init + [c];
    }
  }

  /** One more client meets a fleet that is still full and is turned away in turn. */
  lemma SaturatedLast(r: Run, init: seq<Client>, c: Client)
    requires Tracks(r) && Full(r.fleet) && c.Valid()
    ensures Step(r.(notDistributed := r.notDistributed + Rejections(init)), c)
         == r.(notDistributed := r.notDistributed + Rejections(init + [c]))
  {
    var r1 := r.(notDistributed := r.notDistributed + Rejections(init));
    StepSaturated(r1, c);
    RejectionsSnoc(init, c);
    assert r.notDistributed + Rejections(init) + [Rejection(c, ReasonFor(c))] == r.notDistributed + Rejections(init + [c]);
  }

  lemma RejectionsSnoc(cs: seq<Client>, c: Client)
    ensures Rejections(cs + [c]) == Rejections(cs) + [Rejection(c, ReasonFor(c))]
  {
  }

  // ---------------------------------------------------------------- the whole distribution

  /** The results dictionary before either pass: one empty list per vehicle id. */
  function Start(fleet: seq<VehicleState>): (r: Run)
    ensures Tracks(r) && r.fleet == fleet && r.distributed == [] && r.notDistributed == []
  {
    Run(fleet, [], [], map v | v in fleet :: v.id := [])
  }

  // ---------------------------------------------------------------- totals

  /** Changing one vehicle changes the total load by the difference of its loads. */
  lemma {:induction false} TotalLoadUpdate(fleet: seq<VehicleState>, k: nat, v: VehicleState)
    requires k < |fleet|
    ensures TotalLoad(fleet[k := v]) == TotalLoad(fleet) - fleet[k].load + v.load
    decreases |fleet|
  {
    var n := |fleet| - 1;
    if k < n {
      TotalLoadUpdate(fleet[..n], k, v);
      assert fleet[k := v][..n] == fleet[..n][k := v];
    } else {
      assert fleet[k := v][..n] == fleet[..n];
    }
  }

  /** Fleets of the same vehicles have the same total capacity. */
  lemma {:induction false} TotalCapacitySame(f: seq<VehicleState>, g: seq<VehicleState>)
    requires SameVehicles(f, g)
    ensures TotalCapacity(f) == TotalCapacity(g)
    decreases |f|
  {
    if f != [] {
      TotalCapacitySame(f[..|f| - 1], g[..|g| - 1]);
    }
  }

  /** One step adds to the total load exactly the weight it records as distributed. */
  lemma StepLoad(r: Run, c: Client)
    requires Tracks(r)
    ensures TotalLoad(Step(r, c).fleet) + TotalWeight(AssignedClients(r.distributed))
            == TotalLoad(r.fleet) + TotalWeight(AssignedClients(Step(r, c).distributed))
  {
    match FirstFit(r.fleet, c.weight)
    case None =>
    case Some(k) =>
      TotalLoadUpdate(r.fleet, k, r.fleet[k].Loaded(c));
      assert AssignedClients(Step(r, c).distributed) == AssignedClients(r.distributed) + [c];
      TotalWeightAppend(AssignedClients(r.distributed), c);
  }

  /** The load added by a list of clients is the weight of those of them distributed. */
  lemma {:induction false} AllocateLoad(r: Run, cs: seq<Client>)
    requires Tracks(r)
    ensures TotalLoad(Allocate(r, cs).fleet) + TotalWeight(AssignedClients(r.distributed))
            == TotalLoad(r.fleet) + TotalWeight(AssignedClients(Allocate(r, cs).distributed))
    decreases |cs|
  {
    if cs != [] {
      var init, c := cs[..|cs| - 1], cs[|cs| - 1];
      AllocateLoad(r, init);
      StepLoad(Allocate(r, init), c);
    }
  }

  /**
   * The sums behind load_percentage: the passes add to the sorted vehicles' total load exactly
   * the weight of the clients distributed, and leave their total capacity as it was.
   */
  lemma PassesLoad(cs: seq<Client>, fleet: seq<VehicleState>)
    ensures var sorted, run := SortedFleet(fleet), Passes(cs, fleet);
      && TotalLoad(run.fleet) == TotalLoad(sorted) + TotalWeight(AssignedClients(run.distributed))
      && TotalCapacity(run.fleet) == TotalCapacity(sorted)
  {
    var start := Start(SortedFleet(fleet));
    PassesInSortedOrder(cs, fleet);
    AllocateLoad(start, SortedClients(cs));
    assert AssignedClients(start.distributed) == [];
    TotalCapacitySame(start.fleet, Passes(cs, fleet).fleet);
  }

  /** The VIP pass and then the pass over the remaining clients. */
  function Passes(cs: seq<Client>, fleet: seq<VehicleState>): Run {
    var sorted := SortedClients(cs);
    Allocate(Allocate(Start(SortedFleet(fleet)), Vips(sorted)), NonVips(sorted))
  }

  /**
   * The two passes run over the sorted vehicles, keep their ids and capacities, and record
   * every client once.
   */
  lemma PassesShape(cs: seq<Client>, fleet: seq<VehicleState>)
    ensures var r := Passes(cs, fleet);
      && SameVehicles(SortedFleet(fleet), r.fleet)
      && |r.distributed| + |r.notDistributed| == |cs|
  {
    var sorted := SortedClients(cs);
    TiersCount(sorted);
  }

  /**
   * The statistics of a finished run: at most every vehicle is used, and the load percentage
   * is the share of the total capacity that is loaded, 0 exactly when nothing is.
   */
  function StatisticsOf(totalClients: nat, run: Run): (st: Statistics)
    requires TotalCapacity(run.fleet) > 0.0
    ensures st.vehiclesUsed <= st.totalVehicles == |run.fleet|
    ensures st.loadPercentage * TotalCapacity(run.fleet) == TotalLoad(run.fleet) * 100.0
    ensures st.loadPercentage == 0.0 <==> TotalLoad(run.fleet) == 0.0
  {
    Statistics(totalClients, |run.distributed|, |run.notDistributed|, CountUsed(run.fleet),
               |run.fleet|, TotalLoad(run.fleet) / TotalCapacity(run.fleet) * 100.0)
  }

  /** optimize_cargo_distribution() over the registry's clients and its vehicles' current values. */
  function Distribute(cs: seq<Client>, fleet: seq<VehicleState>): (rep: Report)
    requires FleetValid(fleet)
    ensures rep.Empty? <==> cs == [] || fleet == []
  {
    if cs == [] || fleet == [] then Empty
    else
      var run := Passes(cs, fleet);
      SortedFleetKeeps(fleet);
      SortedFleetOrder(fleet);
      FleetTotals(SortedFleet(fleet));
      PassesCapacity(cs, fleet);
      Report(run.distributed, run.notDistributed, run.usage, StatisticsOf(|cs|, run))
  }

  /** The run keeps the sorted fleet's capacities, so its total capacity is positive. */
  lemma PassesCapacity(cs: seq<Client>, fleet: seq<VehicleState>)
    requires FleetValid(fleet) && fleet != []
    ensures TotalCapacity(Passes(cs, fleet).fleet) > 0.0
  {
    SortedFleetKeeps(fleet);
    SortedFleetOrder(fleet);
    CapacityPositive(Passes(cs, fleet).fleet);
  }

  /** All VIP clients are tried before any other: the two passes are one pass over the sorted clients. */
  lemma PassesInSortedOrder(cs: seq<Client>, fleet: seq<VehicleState>)
    ensures Passes(cs, fleet) == Allocate(Start(SortedFleet(fleet)), SortedClients(cs))
  {
    var sorted := SortedClients(cs);
    SortedClientsOrder(cs);
    TiersSplit(sorted);
    AllocateAppend(Start(SortedFleet(fleet)), Vips(sorted), NonVips(sorted));
  }

  /**
   * Every registered client is reported exactly once, distributed or not, so the two
   * counters add up to the number of clients.
   */
  lemma DistributeAccounts(cs: seq<Client>, fleet: seq<VehicleState>)
    requires FleetValid(fleet) && cs != [] && fleet != []
    ensures var rep := Distribute(cs, fleet);
      && multiset(AssignedClients(rep.distributed)) + multiset(RejectedClients(rep.notDistributed)) == multiset(cs)
      && rep.statistics.totalClients == |cs|
      && rep.statistics.distributedCount + rep.statistics.notDistributedCount == rep.statistics.totalClients
  {
    var start := Start(SortedFleet(fleet));
    PassesInSortedOrder(cs, fleet);
    AllocateAccounts(start, SortedClients(cs));
    SortedClientsOrder(cs);
    assert Accounted(start) == multiset{};
    var run := Passes(cs, fleet);
    assert |AssignedClients(run.distributed)| + |RejectedClients(run.notDistributed)| == |Accounted(run)|;
  }

  /** VIP clients left over are reported as lacking a suitable vehicle, the others as lacking space. */
  lemma DistributeReasons(cs: seq<Client>, fleet: seq<VehicleState>)
    requires FleetValid(fleet) && cs != [] && fleet != []
    ensures ReasonsByTier(Distribute(cs, fleet).notDistributed)
  {
    PassesInSortedOrder(cs, fleet);
    AllocateReasons(Start(SortedFleet(fleet)), SortedClients(cs));
  }

  /**
   * After the distribution every vehicle still keeps its invariant (load within capacity,
   * load equal to its cargo's weight), has its id and capacity, and still carries what it
   * carried before: loads of earlier runs persist.
   */
  lemma PassesFleet(cs: seq<Client>, fleet: seq<VehicleState>)
    requires FleetValid(fleet) && forall k :: 0 <= k < |cs| ==> cs[k].Valid()
    ensures var sorted, after := SortedFleet(fleet), Passes(cs, fleet).fleet;
      && FleetValid(after) && SameVehicles(sorted, after)
      && CargoKept(sorted, after)
  {
    var sorted := SortedClients(cs);
    SortedClientsValid(cs);
    SortedFleetKeeps(fleet);
    PassesInSortedOrder(cs, fleet);
    AllocateValid(Start(SortedFleet(fleet)), sorted);
    CargoKeptAlways(Start(SortedFleet(fleet)), sorted);
  }

  /** Nothing is ever taken off a vehicle. */
  lemma {:induction false} CargoKeptAlways(r: Run, cs: seq<Client>)
    requires Tracks(r)
    ensures CargoKept(r.fleet, Allocate(r, cs).fleet)
    decreases |cs|
  {
    if cs != [] {
      var r1 := Allocate(r, cs[..|cs| - 1]);
      CargoKeptAlways(r, cs[..|cs| - 1]);
      assert Allocate(r, cs) == Step(r1, cs[|cs| - 1]);
    }
  }

  /** The ids of a fleet do not depend on the order of its vehicles. */
  lemma IdsOfPermutation(f: seq<VehicleState>, g: seq<VehicleState>)
    requires multiset(f) == multiset(g)
    ensures (set v | v in f :: v.id) == (set v | v in g :: v.id)
  {
    forall v | v in f ensures v in g {
      assert v in multiset(f);
    }
    forall v | v in g ensures v in f {
      assert v in multiset(g);
    }
  }

  /** vehicle_usage has exactly one key per vehicle id. */
  lemma PassesUsageKeys(cs: seq<Client>, fleet: seq<VehicleState>)
    ensures Passes(cs, fleet).usage.Keys == (set v | v in fleet :: v.id)
  {
    var sorted := SortedFleet(fleet);
    SortedFleetOrder(fleet);
    IdsOfPermutation(sorted, fleet);
  }

  /**
   * Each vehicle's vehicle_usage entry lists, in load order, the names of the clients this
   * distribution loaded into it, after whatever it already carried.
   */
  lemma PassesUsage(cs: seq<Client>, fleet: seq<VehicleState>)
    requires DistinctIds(fleet)
    ensures var run, sorted := Passes(cs, fleet), SortedFleet(fleet);
      && |run.fleet| == |sorted|
      && forall k :: 0 <= k < |sorted| ==>
           && sorted[k].cargo <= run.fleet[k].cargo
           && run.usage[sorted[k].id] == Names(run.fleet[k].cargo[|sorted[k].cargo|..])
  {
    SortedFleetKeeps(fleet);
    PassesInSortedOrder(cs, fleet);
    StartUsage(SortedFleet(fleet), SortedClients(cs));
  }

  /** From a fresh start, each usage entry lists exactly the clients its vehicle took on. */
  lemma StartUsage(fleet: seq<VehicleState>, cs: seq<Client>)
    requires DistinctIds(fleet)
    ensures var run := Allocate(Start(fleet), cs);
      && |run.fleet| == |fleet|
      && forall k :: 0 <= k < |fleet| ==>
           && fleet[k].cargo <= run.fleet[k].cargo
           && run.usage[fleet[k].id] == Names(run.fleet[k].cargo[|fleet[k].cargo|..])
  {
    var start := Start(fleet);
    AllocateUsage(start, cs);
    forall k | 0 <= k < |fleet| ensures start.usage[fleet[k].id] == [] {
      assert fleet[k] in fleet;
    }
  }

  /**
   * The statistics count at most every vehicle as used, and the load percentage lies
   * between 0 and 100.
   */
  lemma DistributeStatistics(cs: seq<Client>, fleet: seq<VehicleState>)
    requires FleetValid(fleet) && cs != [] && fleet != []
    requires forall k :: 0 <= k < |cs| ==> cs[k].Valid()
    ensures var st := Distribute(cs, fleet).statistics;
      && st.totalVehicles == |fleet|
      && st.vehiclesUsed <= st.totalVehicles
      && 0.0 <= st.loadPercentage <= 100.0
  {
    var after := Passes(cs, fleet).fleet;
    SortedFleetOrder(fleet);
    PassesFleet(cs, fleet);
    FleetTotals(after);
    PercentageBounds(TotalLoad(after), TotalCapacity(after));
  }

  lemma PercentageBounds(used: real, total: real)
    requires 0.0 <= used <= total && total > 0.0
    ensures 0.0 <= used / total * 100.0 <= 100.0
  {
    assert used / total <= 1.0 by {
      assert used / total * total == used;
    }
  }

  /** With every vehicle already full, nobody is distributed and the vehicles are untouched. */
  lemma PassesSaturated(cs: seq<Client>, fleet: seq<VehicleState>)
    requires Full(fleet)
    requires forall k :: 0 <= k < |cs| ==> cs[k].Valid()
    ensures Passes(cs, fleet) == Start(SortedFleet(fleet)).(notDistributed := Rejections(SortedClients(cs)))
  {
    var start, sorted := Start(SortedFleet(fleet)), SortedClients(cs);
    SortedFleetFull(fleet);
    SortedClientsValid(cs);
    AllocateSaturated(start, sorted);
    PassesInSortedOrder(cs, fleet);
  }

  /** Sorting a full fleet leaves it full. */
  lemma SortedFleetFull(fleet: seq<VehicleState>)
    requires Full(fleet)
    ensures Full(SortedFleet(fleet))
  {
    SortedFleetOrder(fleet);
  }

  /** Sorting keeps every client valid. */
  lemma SortedClientsValid(cs: seq<Client>)
    requires forall k :: 0 <= k < |cs| ==> cs[k].Valid()
    ensures forall k :: 0 <= k < |SortedClients(cs)| ==> SortedClients(cs)[k].Valid()
  {
    var sorted := SortedClients(cs);
    SortedClientsOrder(cs);
    forall k | 0 <= k < |sorted| ensures sorted[k].Valid() {
      assert sorted[k] in multiset(cs);
    }
  }
}
