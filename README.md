# Cargo allocation of a small transport company, in Dafny

This project models the cargo-allocation core of the `lr-12` transport company program.

- **Client.** A client is a name, a cargo weight, a VIP flag and an id of the form `C` plus four digits. It is checked once when it is built and never changes afterwards.
- **Vehicle.** A vehicle has a positive capacity, a current load and the ordered list of clients loaded into it. `load_cargo` either takes a client whose weight still fits or changes nothing.
- **Van and Airplane.** They add one informational field each: a refrigeration flag or a maximum altitude. They do not change loading.
- **TransportCompany.** The company is a registry of vehicles and clients that refuses duplicate ids. Its allocator, `optimize_cargo_distribution`, works in three steps:
  1. It stably sorts the clients, VIP first and then by falling weight, and stably sorts the vehicles by falling capacity.
  2. It gives each VIP client, and then each other client, to the first vehicle in that fixed order whose `load_cargo` accepts it.
  3. It reports what was distributed, what was not, which client names went into which vehicle, and a few counters.

The sorted vehicle list holds the registry's own vehicle objects, so the allocator's loads stay on the registry's vehicles.

## Files

- **`wrappers.dfy`:** `Option` and `Result`.
- **`client.dfy`** (module `Clients`):
  - the `Client` value and its checked constructor `NewClient`;
  - the id format, with its parser and the round trip between the two.
- **`vehicle.dfy`** (module `Vehicles`):
  - `Kind`, the Van and Airplane payload and their queries;
  - `VehicleState`, the value of a vehicle at one moment, with its invariant;
  - the `Vehicle` class that `load_cargo` updates in place;
  - the checked constructors, and the fleet sums that the statistics use.
- **`ordering.dfy`** (module `Ordering`): Python's stable `sorted`. It is an insertion sort of positions by a two-part key, and it is proved to be the unique stable ordering of the keys.
- **`allocation.dfy`** (module `Allocation`): the allocator as a function of the clients and the vehicles' values.
  - `Step` is one client: first fit, or a rejection with the pass's reason.
  - `Allocate` is a list of clients, and `Passes` is the VIP pass followed by the second pass.
  - `Distribute` is the whole report.
  - The lemmas cover the order of both sorts, first fit, exact accounting of every client, rejection reasons, the vehicle invariant, the usage table and the statistics.
- **`transport_company.dfy`** (module `Company`): the `TransportCompany` class.
  - It has the duplicate-checking `AddVehicle` and `AddClient`, `SortVehiclesByEfficiency` and `GetStatistics`.
  - `OptimizeCargoDistribution` runs the two passes with loops that call `Vehicle.LoadCargo` on the registry's vehicle objects. It is proved to return `Distribute` of the values on entry, and to leave each vehicle with the value the passes give it.

## Model

| member | source | states |
|---|---|---|
| Clients.NewClient | transport/client.py:3-12 | An empty name fails first, then a non-positive weight fails. Otherwise it succeeds with the given name, weight and flag, and an id that reads back as the drawn number. |
| Clients.ClientIdOf | transport/client.py:12 | The id built from a draw in [1000, 9999] is `C` followed by four digits, the first of them not zero. |
| Clients.ParseClientId | transport/client.py:12 | Text reads as a number exactly when it has the shape of an id, and the number lies in [1000, 9999]. |
| Clients.ParseClientIdOf | transport/client.py:12 | Reading back the id of a draw gives that draw. |
| Clients.ClientIdOfParse | transport/client.py:12 | Every text of id shape is the id of the number it reads as. |
| Clients.ClientIdInjective | transport/client.py:12 | Two draws give the same id if and only if they are equal. |
| Vehicles.Kind.TypeName | transport/van.py:10-11 | A van's type name is "Фургон" and an airplane's is "Самолет" (airplane.py:10-11), each if and only if the vehicle is of that kind. |
| Vehicles.VanKind | transport/van.py:6-15 | A van's refrigeration flag defaults to false, and `can_transport_perishable` returns exactly that flag. |
| Vehicles.Kind.CanTransportPerishable | transport/van.py:13-15 | Definition: a van can carry perishable cargo exactly when it is refrigerated. `VanKind` and `NewVan` state it for the vans they build. |
| Vehicles.Kind.CanReachAltitude | airplane.py:13-15 | Definition: an airplane reaches an altitude exactly when it is at most its maximum altitude. `NewAirplane` states it for the airplanes it builds. |
| Vehicles.Vehicle.constructor | transport/vehicle.py:4-11 | A vehicle with positive capacity starts valid, with no load and no clients. |
| Vehicles.NewVehicle | transport/vehicle.py:4-11 | Construction fails with NonPositiveCapacity exactly when capacity <= 0. Otherwise it gives a fresh, valid, empty vehicle with that id and capacity. |
| Vehicles.NewVan | transport/van.py:6-15 | The same capacity check applies. A van starts empty and stores the refrigeration flag, which `can_transport_perishable` returns. |
| Vehicles.NewAirplane | airplane.py:6-15 | The same capacity check applies. An airplane starts empty and stores the maximum altitude as given, unchecked. It can reach an altitude h if and only if h <= that maximum. |
| Vehicles.LoadedValid | transport/vehicle.py:18-22 | Loading a client that fits keeps 0 <= load <= capacity and load == sum of cargo weights, and it strictly increases the load. |
| Vehicles.TotalWeightAppend | transport/vehicle.py:21-22 | Appending a client adds exactly its weight to the weight of the cargo. |
| Vehicles.Vehicle.LoadCargo | transport/vehicle.py:13-23 | It succeeds if and only if load + weight <= capacity. On success it adds the weight to the load and appends the client. On refusal it changes nothing. The vehicle invariant is kept either way. |
| Vehicles.VehicleState.FreeSpace | transport/vehicle.py:25-26 | The free space lies in [0, capacity]. It is the largest weight that still fits. |
| Vehicles.Vehicle.FreeSpace | transport/vehicle.py:25-26 | `get_free_space` is never negative and never more than the capacity. It is the free space of the vehicle's value. |
| Vehicles.CountUsed | transport/transport_company.py:151 | At most every vehicle is counted, and the count is zero exactly when no vehicle carries a positive load. |
| Vehicles.TotalCapacity | transport/transport_company.py:167 | Definition: the sum of the capacities. `FleetTotals`, `CapacityPositive`, `TotalCapacitySame` and `PassesLoad` state its properties. |
| Vehicles.TotalLoad | transport/transport_company.py:168 | Definition: the sum of the current loads. `FleetTotals`, `TotalLoadUpdate`, `StepLoad`, `AllocateLoad` and `PassesLoad` state its properties. |
| Vehicles.FleetTotals | transport/transport_company.py:167-168 | In a valid fleet, 0 <= total load <= total capacity, and a non-empty fleet has positive total capacity. |
| Vehicles.CapacityPositive | transport/transport_company.py:153-154 | The divisor of the load percentage is positive for a non-empty fleet of positive capacities. |
| Ordering.StableOrderSorts | transport/transport_company.py:100-101 | The insertion sort yields a permutation of the positions, ordered by key, with equal keys in their original order. |
| Ordering.StableOrderUnique | transport/transport_company.py:100-101 | Any permutation that is ordered by key and stable on ties is the one the sort yields, so the result of `sorted` is fully determined. |
| Ordering.SortPermutes | transport/transport_company.py:80-82 | Rearranging a list by the sort's positions gives a list with the same elements (a multiset equality). |
| Allocation.ClientKey | transport/transport_company.py:101 | Definition: the key (not is_vip, -cargo_weight), with False sorting before True. `ClientKeyOrder` states what comparing it means. |
| Allocation.ClientKeyOrder | transport/transport_company.py:99-101 | One client key is smaller than another if and only if the first client is VIP and the second is not, or both are in the same tier and the first is heavier. Two keys tie if and only if the tier and the weight are equal. |
| Allocation.VehicleKey | transport/transport_company.py:80-82 | Definition: the key -capacity, sorted ascending, which gives descending capacity with equal capacities in their original order. `VehicleKeyOrder` states what comparing it means. |
| Allocation.VehicleKeyOrder | transport/transport_company.py:80-82 | One vehicle key is smaller than another if and only if that vehicle has the larger capacity, and two keys tie if and only if the capacities are equal. |
| Allocation.SortedClients | transport/transport_company.py:100-101 | Definition: the clients rearranged by the stable order of their keys. `SortedClientsOrder` states its contract. |
| Allocation.SortedFleet | transport/transport_company.py:80-82 | Definition: the vehicles rearranged by the stable order of their keys. `SortedFleetOrder` and `SortedFleetKeeps` state its contract. |
| Allocation.SortedClientsOrder | transport/transport_company.py:99-101 | The sorted clients are a permutation of the registered ones with every VIP client first. Each tier has non-increasing weight, and clients equal in both keys keep registration order. |
| Allocation.SortedFleetOrder | transport/transport_company.py:80-82 | The sorted vehicles are a permutation of the registered ones with non-increasing capacity, and equal capacities keep registration order. |
| Allocation.SortedFleetKeeps | transport/transport_company.py:80-82 | Sorting keeps every vehicle valid and every id distinct. |
| Allocation.Vips | transport/transport_company.py:117 | The VIP tier holds only VIP clients. |
| Allocation.NonVips | transport/transport_company.py:124-133 | The clients left for the second pass are none of them VIP. |
| Allocation.TiersCount | transport/transport_company.py:117-133 | Every client is seen by exactly one of the two passes: the VIP list and the remaining list together are as long as the client list. |
| Allocation.TiersSplit | transport/transport_company.py:117-133 | When VIP clients come first, the VIP pass followed by the second pass sees exactly the sorted list. |
| Allocation.IndexOf | transport/transport_company.py:124 | The position found holds the element, and no earlier position does. |
| Allocation.RemoveFirst | transport/transport_company.py:124 | `list.remove(x)` on a list holding x drops the first occurrence of x and keeps every other element in order. The multiset loses exactly one x. |
| Allocation.FirstFit | transport/transport_company.py:120-126 | The chosen vehicle has room for the weight and every earlier vehicle lacks room. No choice is made exactly when no vehicle has room. |
| Allocation.Step | transport/transport_company.py:118-144 | A placed client is appended to `distributed` under its vehicle's id, and nothing is rejected. An unplaced client is appended to `not_distributed` with its pass's reason, and nothing else changes. Vehicle ids, capacities and usage keys are kept. |
| Allocation.Allocate | transport/transport_company.py:118-144 | Each client adds exactly one record, distributed or not. Vehicle ids, capacities and usage keys are kept. |
| Allocation.AllocateAppend | transport/transport_company.py:116-144 | Running one list of clients after another is running their concatenation. |
| Allocation.PassesInSortedOrder | transport/transport_company.py:116-144 | The VIP pass and then the second pass are one first-fit pass over the sorted clients. |
| Allocation.StepAccounts | transport/transport_company.py:118-144 | One client is recorded exactly once. |
| Allocation.AllocateAccounts | transport/transport_company.py:118-144 | The clients recorded grow by exactly the multiset of clients processed. |
| Allocation.AllocateReasons | transport/transport_company.py:128-144 | Every rejection keeps the reason of its client's tier. |
| Allocation.StepValid | transport/transport_company.py:120-141 | Loading a client into the first vehicle with room keeps every vehicle valid. |
| Allocation.AllocateValid | transport/transport_company.py:118-141 | Vehicles stay valid through any sequence of clients. |
| Allocation.CargoKeptAlways | transport/transport_company.py:118-141 | Nothing is unloaded: each vehicle's earlier cargo stays as a prefix of its client list. |
| Allocation.StepUsage | transport/transport_company.py:121-122 | Placing a client appends its name to the usage entry of exactly the vehicle it went into. |
| Allocation.AllocateUsage | transport/transport_company.py:113-138 | Each usage entry grows by the names of the clients loaded into its vehicle, in load order. |
| Allocation.Start | transport/transport_company.py:110-114 | The results start with every vehicle tracked and nothing recorded. |
| Allocation.StartUsage | transport/transport_company.py:110-114 | From empty entries, each entry lists exactly the names of the clients this run loaded into that vehicle. |
| Allocation.PassesUsage | transport/transport_company.py:113-138 | After both passes, each vehicle's `vehicle_usage` entry lists the names loaded in this run, in order, after whatever the vehicle already carried. |
| Allocation.PassesUsageKeys | transport/transport_company.py:113 | `vehicle_usage` has exactly one key per vehicle id. |
| Allocation.PassesFleet | transport/transport_company.py:104-141 | After both passes, every vehicle is still valid, has its id and capacity, and keeps its earlier cargo. |
| Allocation.PassesCapacity | transport/transport_company.py:153-154 | The load percentage divides by a positive total capacity. |
| Allocation.Passes | transport/transport_company.py:116-144 | Definition: the VIP pass over the sorted VIP clients, then the second pass over the rest, from an empty start on the sorted vehicles. `PassesShape`, `PassesInSortedOrder` and the other `Passes` lemmas state its contract. |
| Allocation.PassesShape | transport/transport_company.py:116-144 | After both passes, the vehicles are the sorted ones, with their ids and capacities kept, and the records number exactly the clients. |
| Allocation.TotalLoadUpdate | transport/transport_company.py:153 | Changing one vehicle changes the total load by exactly the difference of its loads. |
| Allocation.TotalCapacitySame | transport/transport_company.py:154 | Fleets with the same vehicles have the same total capacity. |
| Allocation.StepLoad | transport/transport_company.py:120-141 | One client adds to the total load exactly its weight if it is distributed, and nothing otherwise. |
| Allocation.AllocateLoad | transport/transport_company.py:118-144 | Over any list of clients, the total load grows by exactly the weight of the clients recorded as distributed. |
| Allocation.PassesLoad | transport/transport_company.py:153-154 | In load_percentage, the summed load of the sorted vehicles is their load before plus the weight distributed, and the summed capacity is unchanged. |
| Allocation.StatisticsOf | transport/transport_company.py:147-155 | At most every vehicle is counted as used. load_percentage times the total capacity is 100 times the total load, so it is 0 exactly when nothing is loaded. |
| Allocation.Distribute | transport/transport_company.py:91-97 | The report is empty exactly when there are no clients or no vehicles. |
| Allocation.DistributeAccounts | transport/transport_company.py:118-150 | Every registered client appears exactly once, distributed or not, so distributed_count + not_distributed_count == total_clients == len(clients). |
| Allocation.DistributeReasons | transport/transport_company.py:128-144 | A VIP client left over is reported as having no suitable vehicle. Any other client left over is reported as having no space. |
| Allocation.DistributeStatistics | transport/transport_company.py:146-155 | total_vehicles is the number of vehicles, vehicles_used is at most that, and load_percentage lies in [0, 100]. |
| Allocation.PercentageBounds | transport/transport_company.py:153-154 | used / total * 100 lies in [0, 100] when 0 <= used <= total and total > 0. |
| Allocation.StepSaturated | transport/transport_company.py:128-144 | A full fleet rejects a valid client and changes nothing else. |
| Allocation.AllocateSaturated | transport/transport_company.py:118-144 | A full fleet rejects every client, in order, each with its tier's reason, and changes nothing else. |
| Allocation.PassesSaturated | transport/transport_company.py:116-144 | With every vehicle already full, no client is distributed, every client is rejected in sorted order, and the vehicles are untouched. |
| Company.VehicleIdTaken | transport/transport_company.py:31-34 | The loop reports a duplicate if and only if some registered vehicle has that id. |
| Company.ClientIdTaken | transport/transport_company.py:63-66 | The loop reports a duplicate if and only if some registered client has that id. |
| Company.LoadFirstFit | transport/transport_company.py:120-126 | The loop over `load_cargo` places the client where FirstFit says. Only that vehicle changes, by exactly that load. When the client is not placed, no vehicle changes. |
| Company.Offer | transport/transport_company.py:119-144 | One client of either pass updates the vehicles and the three result lists exactly as Step does. |
| Company.VipPass | transport/transport_company.py:117-130 | The VIP loop is Allocate over the VIP clients. Removing each VIP client leaves exactly the others remaining. |
| Company.OtherPass | transport/transport_company.py:133-144 | The second loop is Allocate over the remaining clients. |
| Company.RunPasses | transport/transport_company.py:107-144 | The usage table starts with one empty list per vehicle id. Both loops together compute the two passes of the specification. |
| Company.UsageStart | transport/transport_company.py:113 | The table built from the vehicle objects is the one built from their values. |
| Company.DistributeCargo | transport/transport_company.py:84-157 | It returns Distribute of the values on entry, keeps every vehicle valid, and changes nothing when the report is empty. Otherwise each vehicle, taken in sorted order, ends with the value the passes give it. |
| Company.SortedObjects | transport/transport_company.py:104-108 | The sorted list holds each registry vehicle object exactly once, and no other object. |
| Company.VipCount | transport/transport_company.py:169 | The VIP count is the size of the VIP tier, at most the number of clients. |
| Company.TransportCompany.constructor | transport/transport_company.py:10-13 | A new company has its name, no vehicles and no clients, and is valid. |
| Company.TransportCompany.AddVehicle | transport/transport_company.py:15-37 | It succeeds if and only if no registered vehicle has the id. On success it appends the vehicle. Otherwise it changes nothing. Clients are untouched, ids stay distinct and vehicles stay valid. |
| Company.TransportCompany.AddClient | transport/transport_company.py:47-69 | It succeeds if and only if no registered client has the id. On success it appends the client. Otherwise it changes nothing. Vehicles are untouched and ids stay distinct. |
| Company.TransportCompany.SortVehiclesByEfficiency | transport/transport_company.py:75-82 | It returns the registry's own vehicle objects rearranged (multiset equality) by non-increasing capacity. Their values are the stable sort of the registry's values. |
| Company.TransportCompany.OptimizeCargoDistribution | transport/transport_company.py:84-157 | It returns Distribute of the clients and the vehicles' values on entry. The registry stays valid, and the loads land on the registry's own vehicles. Nothing changes when there are no clients or no vehicles. |
| Company.TransportCompany.GetStatistics | transport/transport_company.py:165-180 | available_capacity == total_capacity - used_capacity, and utilization is 0 when total capacity is not positive. The counts are the list lengths and the VIP count. |
| Company.StatisticsBounds | transport/transport_company.py:165-180 | In a valid registry, 0 <= used <= total and the capacity left lies in [0, total]. Utilization lies in [0, 100] and is 0 exactly when nothing is loaded. Total capacity is positive exactly when there is a vehicle. |
| Company.AvailableVehicles | transport/transport_company.py:43-45 | The corrected filter keeps a registry vehicle if and only if its free space is positive, and keeps nothing else. On a valid vehicle the test is exactly `FreeSpace() > 0`. |
| Company.AvailableVehiclesAsWritten | transport/transport_company.py:45 | As written, the method succeeds only on an empty registry. Any vehicle makes it raise AttributeError. |
| Company.AvailableVehiclesAsWrittenFails | transport/transport_company.py:45 | A registry holding one empty vehicle makes the as-written method fail, where the intended one lists that vehicle. |

## Left out

- The dearpygui interface (`main_gui.py`) and the text menu (`main.py`) are user interface and input/output. The kilogram-to-tonne conversion there belongs to them, not to the core.
- Vehicle ids come from `uuid.uuid4()` and client ids from `random.randint(1000, 9999)`. Both are foreign, nondeterministic calls, so they become parameters: `id` for the vehicle and `draw` for the client.
- The `isinstance` checks and their TypeError or False paths are ruled out by Dafny's types. This covers a non-string name, a non-number weight or capacity, and a non-Client or non-Vehicle argument.
- `__str__`, `list_vehicles` and `list_clients` only render text, and the `print` error messages are output. None of them is modelled.
- The formatted result messages are records instead. A distributed client is `Assignment(client, vehicle id)`. A client left over is `Rejection(client, reason)`: "нет подходящего транспорта" is `NoSuitableVehicle` and "нет места" is `NoSpace`. The "VIP " prefix is the client's flag.
- `clear_all_loads` calls `unload_cargo`, which is never defined, so every call with a vehicle raises. No unload operation is invented here.
- `max_altitude` is not validated: any value is stored, and the model does the same.
- Weights, capacities, loads and the percentages are exact reals, not IEEE floats. Rounding in `current_load +=` and in the divisions is not modelled, and `float(...)` conversions are identities.
- `airplane.py` imports `vehicle` from the repository root, while the company imports `transport.airplane`. This packaging mismatch is not modelled: Airplane is the `Kind` payload on the one Vehicle class.
- Allocation.RemoveFirst: requires x to be in the list. Python's `list.remove` raises ValueError otherwise, but at transport_company.py:124 and :130 the client removed always heads the remaining list, so that error is not modelled.
- Company.AvailableVehicles: states which vehicles are kept, not that the registry order is preserved.
- Company.TransportCompany.AddVehicle: requires the new vehicle to satisfy the vehicle invariant. Every vehicle built by the constructor and changed only by `load_cargo` satisfies it.
- Company.TransportCompany.AddClient: requires the new client to satisfy the client invariant. Every client built by `NewClient` satisfies it.
- Company.DistributeCargo: requires distinct vehicle ids and valid clients. The registry guarantees both, and `OptimizeCargoDistribution` is the only caller.
- Company.TransportCompany.GetStatistics: the source returns the integer 0 rather than 0.0 when there is no capacity. The model does not distinguish the two.

## Findings

| source | as written | input that shows it | evidently intended | confidence | as-written member | corrected member |
|---|---|---|---|---|---|---|
| transport/transport_company.py:45 | `list_available_vehicles` calls `v.get_remaining_capacity()`, which neither Vehicle nor its subclasses define, so it raises AttributeError | a company holding one new, empty vehicle | `[v for v in vehicles if v.get_free_space() > 0]`, the vehicles with room left | not executed | Company.AvailableVehiclesAsWrittenFails | Company.AvailableVehicles |
