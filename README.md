# Parking lot allocation service, modelled in Dafny

This project models the allocation state machine of the parking-lot
management service (`ParkingLotService`) and proves properties about it.
The model has four pieces of state:

- the parking-spot store: rows holding an id, an occupied flag, and the
  nullable vehicle id and licence plate of the occupant;
- the vehicle store;
- the in-memory FIFO waiting queue;
- the round-robin cursor `lastDeallocatedIndex`.

The service is a `class ParkingLotService` (`service.dfy`). Its fields are the
two stores as sequences in ascending-id order, the stores' identity counters,
the queue as a sequence (head first) and the cursor as a `nat`. Each Java
method becomes a Dafny method with `modifies this`:

- `allocateSpot` → `AllocateSpot`
- `deallocateAndAssign` → `DeallocateAndAssign`
- `resetDatabase` → `ResetDatabase`
- `initializeParkingSpots` → `InitializeParkingSpots`, with the counting
  loop kept

The two read-only observers are functions with `reads this`. Each method's
`ensures` gives the whole new state in terms of the old state, using functions
that are specified and proved separately:

- `FirstFreeIndex`: the first free spot;
- `Selected`: the round-robin pick;
- `Update`: a `save` of an existing row;
- `NewSpots`: freshly saved spots.

The class invariant `Valid()` holds after every operation. It says:

- every spot is consistent: occupied exactly when both its vehicle id and its
  plate are set;
- spot ids are unique, ascending, and below the next identity value;
- every parked or waiting vehicle is one the vehicle store holds under that
  id and plate;
- no vehicle is parked twice, queued twice, or both parked and queued.

From that invariant the model proves that parked plus waiting vehicles never
outnumber the vehicles submitted since the last reset.

Files:

- `wrappers.dfy`: `Option`.
- `model.dfy`: the `Spot` and `Vehicle` entities and the field writes the
  service makes on a spot.
- `repository.dfy`: the two derived queries `findByOccupiedFalse` and
  `findByOccupiedTrue` as filters in store order, and `save` of an existing
  row.
- `service.dfy`: the service.
- `example.dfy`: the worked run of three arrivals and two departures, and a
  deallocation on an empty lot. Both are proved from the contracts alone.

Three behaviours of the code are kept as written:

- `resetDatabase` leaves `lastDeallocatedIndex` as it is: lines 32-39 never
  assign it, so `ResetDatabase` keeps the cursor.
- `deallocateAndAssign` increments the cursor only when it succeeds: the `++`
  at line 108 sits inside the `if` at line 81, so a call that finds no
  occupied spot leaves the cursor unchanged.
- `initializeParkingSpots` is called only from `resetDatabase` (line 38), so
  the service itself creates the two free spots only on a reset.

The constructor assumes an empty database. The Java constructor touches
neither store (fields at lines 22-25 and 72), so what the stores hold at
start-up depends on the database. The model starts from empty stores, an
empty queue and cursor 0; `ResetDatabase` then yields the two free spots.

Neither derived query declares an order. Both are assumed to return rows in
store order, which is ascending id.

## Model

| member | source | states |
|---|---|---|
| Model.EmptySpot | service/ParkingLotService.java:48 | a newly built spot is unoccupied, has no vehicle id and no plate, and is consistent |
| Model.Occupy | service/ParkingLotService.java:61-63 | occupying a spot with a vehicle keeps its id, sets occupied, and records exactly that vehicle's id and plate, so the spot stays consistent |
| Model.Release | service/ParkingLotService.java:85-87 | freeing a spot keeps its id, clears occupied, and clears both vehicle fields, so the spot stays consistent |
| Model.ReoccupyOverwrites | service/ParkingLotService.java:85-96 | freeing a spot and then occupying it with a vehicle gives the same spot as occupying it with that vehicle directly |
| SpotRepository.FindByOccupiedFalse | repository/ParkingSpotRepository.java:12 | the free-spot query returns only unoccupied rows of the store and no more rows than the store has |
| SpotRepository.FindByOccupiedTrue | repository/ParkingSpotRepository.java:15 | the occupied-spot query returns only occupied rows of the store and no more rows than the store has |
| SpotRepository.QueriesFindEveryMatch | repository/ParkingSpotRepository.java:11-15 | every unoccupied row is in the free-spot result and every occupied row is in the occupied-spot result |
| SpotRepository.FreeQueryKeepsStoreOrder | repository/ParkingSpotRepository.java:12 | on a store with ascending ids, the free-spot result is in ascending id order |
| SpotRepository.OccupiedQueryKeepsStoreOrder | repository/ParkingSpotRepository.java:15 | on a store with ascending ids, the occupied-spot result is in ascending id order |
| SpotRepository.OccupancyPartition | repository/ParkingSpotRepository.java:11-15 | the two query results together have exactly as many rows as the store |
| SpotRepository.OccupiedCountAfterSet | repository/ParkingSpotRepository.java:15 | replacing one row changes the occupied count by the new row's flag minus the old row's flag |
| SpotRepository.Update | service/ParkingLotService.java:64 | saving an existing spot replaces the row with that id and leaves every other row and the store size unchanged |
| SpotRepository.UpdateAt | service/ParkingLotService.java:64 | on a store with unique ids, saving a spot whose id is at position k replaces exactly position k |
| SpotRepository.UpdateTwice | service/ParkingLotService.java:88-96 | two saves of the same row leave only the second one's effect |
| Service.FirstFreeIndex | service/ParkingLotService.java:58 | the chosen index is unoccupied and every earlier spot is occupied; no index means every spot is occupied |
| Service.FirstAvailableIsFirstFree | service/ParkingLotService.java:58 | the first row of the free-spot query exists exactly when a first free index exists, and it is the spot at that index |
| Service.Selected | service/ParkingLotService.java:79-84 | the round-robin pick `occupied[cursor mod n]` is a spot of the store and is occupied, so the index is always in range |
| Service.NewSpots | service/ParkingLotService.java:47-49 | `count` new spots, the i-th being a free spot with id `firstId + i` from the identity column |
| Service.NewSpotsKeepInvariant | service/ParkingLotService.java:47-49 | saving new free spots under the next identity values keeps the service invariant |
| Service.ParkKeepsInvariant | service/ParkingLotService.java:57-64 | registering a vehicle and parking it in a free spot keeps the service invariant |
| Service.QueueKeepsInvariant | service/ParkingLotService.java:67 | registering a vehicle and appending it to the queue keeps the service invariant |
| Service.ReleaseKeepsInvariant | service/ParkingLotService.java:100-104 | freeing a spot keeps the service invariant |
| Service.ReassignKeepsInvariant | service/ParkingLotService.java:84-97 | giving a spot to the queue head, which leaves the queue, keeps the service invariant |
| Service.ReleaseStep | service/ParkingLotService.java:98-104 | with nobody waiting: the round-robin pick is freed, only its row changes, the occupied count drops by one, and the invariant holds |
| Service.ReassignStep | service/ParkingLotService.java:82-97 | with a vehicle waiting: the two saves leave the round-robin pick occupied by the queue head and change no other row; the queue loses its head; the occupied count is unchanged; the invariant holds |
| Service.ParkingLotService.ServedWithinSubmitted | service/ParkingLotService.java:57-67 | parked plus waiting vehicles never outnumber the vehicles saved since the last reset |
| Service.ParkingLotService.constructor | service/ParkingLotService.java:72 | the service starts with an empty queue and cursor 0; the stores are assumed empty at start-up; the invariant holds |
| Service.ParkingLotService.ResetDatabase | service/ParkingLotService.java:32-39 | afterwards there are exactly two free spots with ids 1 and 2, no vehicles, vehicle ids restart at 1, and the queue is empty; the cursor is kept |
| Service.ParkingLotService.InitializeParkingSpots | service/ParkingLotService.java:44-51 | tops the store up to two spots by appending new free spots with the next ids; never removes or changes a spot; with two or more spots changes nothing |
| Service.ParkingLotService.AllocateSpot | service/ParkingLotService.java:56-69 | records the vehicle under the next id; if a spot is free, the first free spot becomes occupied by it, no other spot or the queue changes, and `Assigned` returns that spot; otherwise no spot changes, the vehicle joins the tail of the queue and the outcome is `Queued`; the occupied count rises by one exactly when assigned; the cursor is unchanged |
| Service.ParkingLotService.DeallocateAndAssign | service/ParkingLotService.java:78-113 | true exactly when some spot was occupied; false changes nothing; on true the cursor rises by exactly one; with an empty queue the round-robin pick is freed and the occupied count drops by one; otherwise the pick is occupied by the former queue head, the queue keeps the rest in order, and the count is unchanged; vehicles are never touched |
| Service.ParkingLotService.GetAvailableSpots | service/ParkingLotService.java:118-120 | returns the free-spot query over the current store: every row it returns is unoccupied and every unoccupied stored spot is returned, without changing state |
| Service.ParkingLotService.GetWaitingQueue | service/ParkingLotService.java:125-127 | returns the current queue, head first, without changing state |
| Example.ArrivalsThenRoundRobin | service/ParkingLotService.java:32-113 | after a reset, V1 and V2 get spots 1 and 2 and V3 is queued; the first deallocation (cursor 0) hands spot 1 to V3 and empties the queue; the second (cursor 1) frees spot 2 |
| Example.DeallocateEmptyLot | service/ParkingLotService.java:78-113 | on a freshly reset lot, deallocation answers false and both spots stay free |

## Left out

- Native SQL through the entity manager is modelled only by its effect: the
  stores are emptied and the identity sequences restart at 1. The
  `ALTER TABLE ... RESTART WITH 1` statements themselves are not modelled.
- The `@Transactional` and `@PreDestroy` lifecycle annotations are left out.
  A shutdown-time reset is just a call to `ResetDatabase`.
- The Spring Data repository machinery (`JpaRepository`) is left out. So are
  the unused derived queries `countByOccupiedTrue` and
  `findFirstByOccupiedTrueOrderByIdAsc`. The two queries the service uses are
  pure filters, and their store-order result is an assumption.
- `ResponseEntity` and HTTP status codes are replaced by the `Outcome`
  datatype: `Assigned(spot)` for 200 and `Queued` for 201. The REST controller
  is not part of this model.
- Persistence I/O failures, and the lack of rollback between the two saves in
  the reassignment branch, are left out. Only the final state of a successful
  call is modelled.
- Concurrent requests racing on the shared queue and cursor are left out; the
  model is sequential.
- Service.ParkingLotService.DeallocateAndAssign: does not model the Java `int`
  overflow of `lastDeallocatedIndex` after 2^31 increments. That overflow would
  make `%` negative and the index invalid; the cursor here is an unbounded
  `nat`.
- Service.ParkingLotService.DeallocateAndAssign: the `nextVehicle != null`
  test after `poll()` is always true in the model. The queue is polled only
  when it is non-empty, and it holds only vehicles the service saved. A
  spot freed without reassignment in that branch cannot occur.
- Service.ParkingLotService.AllocateSpot: the licence plate is a string, never
  null, so a request body without a plate is left out. On such a request the
  source (lines 61-63) stores an occupied spot whose plate is null. The plate
  half of `Model.Consistent` (occupied exactly when the plate is set) therefore
  holds of the model only. The source does not keep it for a null plate.
- Vehicle ids come from a counter standing in for the vehicle store's identity
  column, so every submitted vehicle is saved as a new row. A request body
  that already carries the id of a stored vehicle, which `save` would merge
  into that row, is not modelled.
