/**
 * The allocation state machine: the spot store, the vehicle store, the
 * in-memory FIFO waiting queue and the round-robin cursor, with the
 * operations that allocate, deallocate-and-reassign, reset and observe them.
 */
module Service {
  import opened Wrappers
  import opened Model
  import opened SpotRepository

  /** What `allocateSpot` answers: the updated spot (200) or "added to waiting queue" (201). */
  datatype Outcome = Assigned(spot: Spot) | Queued

  /** Index of the first unoccupied spot in store order, if any. */
  function FirstFreeIndex(spots: seq<Spot>): (r: Option<nat>)
    ensures r.Some? ==> r.value < |spots| && !spots[r.value].occupied
    ensures r.Some? ==> forall j :: 0 <= j < r.value ==> spots[j].occupied
    ensures r.None? ==> forall j :: 0 <= j < |spots| ==> spots[j].occupied
  {
    if spots == [] then None
    else if !spots[0].occupied then Some(0)
    else match FirstFreeIndex(spots[1..])
      case None => None
      case Some(i) => Some(i + 1)
  }

  /** The first spot `findByOccupiedFalse` returns is the spot at the first free index. */
  lemma {:induction false} FirstAvailableIsFirstFree(spots: seq<Spot>)
    ensures FindByOccupiedFalse(spots) != [] <==> FirstFreeIndex(spots).Some?
    ensures FirstFreeIndex(spots).Some? ==> FindByOccupiedFalse(spots)[0] == spots[FirstFreeIndex(spots).value]
  {
    if spots != [] && spots[0].occupied {
      FirstAvailableIsFirstFree(spots[1..]);
    }
  }

  /** The round-robin pick: entry `cursor mod n` of the `n` occupied spots. */
  function Selected(spots: seq<Spot>, cursor: nat): (r: Spot)
    requires FindByOccupiedTrue(spots) != []
    ensures r in spots && r.occupied
  {
    var occupiedSpots := FindByOccupiedTrue(spots);
    occupiedSpots[cursor % |occupiedSpots|]
  }

  /** The spot store is well formed: unique ascending ids below the next id, every spot consistent. */
  predicate StoreWellFormed(spots: seq<Spot>, nextSpotId: nat) {
    && nextSpotId >= 1
    && AscendingIds(spots)
    && forall i :: 0 <= i < |spots| ==> Consistent(spots[i]) && 1 <= spots[i].id < nextSpotId
  }

  /** `id` names a stored vehicle whose plate is `plate`. */
  predicate Registered(vehicles: seq<Vehicle>, id: nat, plate: string) {
    1 <= id <= |vehicles| && vehicles[id - 1].licensePlate == plate
  }

  /** No vehicle is parked in two spots. */
  predicate OccupantsDistinct(spots: seq<Spot>) {
    forall i, j :: 0 <= i < j < |spots| && spots[i].occupied && spots[j].occupied ==>
      spots[i].vehicleId != spots[j].vehicleId
  }

  /** No vehicle waits twice. */
  predicate QueueDistinct(queue: seq<Vehicle>) {
    forall i, j :: 0 <= i < j < |queue| ==> queue[i].id != queue[j].id
  }

  /** No vehicle is both parked and waiting. */
  predicate NotParkedAndQueued(spots: seq<Spot>, queue: seq<Vehicle>) {
    forall i, j :: 0 <= i < |spots| && spots[i].occupied && 0 <= j < |queue| ==>
      spots[i].vehicleId != Some(queue[j].id)
  }

  /**
   * The state invariant: a well-formed spot store, vehicle ids 1..n in the
   * vehicle store, every parked or waiting vehicle registered under its plate,
   * and no vehicle parked twice, waiting twice, or both parked and waiting.
   */
  predicate Invariant(spots: seq<Spot>, nextSpotId: nat, vehicles: seq<Vehicle>, nextVehicleId: nat,
                      queue: seq<Vehicle>)
  {
    && StoreWellFormed(spots, nextSpotId)
    && (forall i :: 0 <= i < |vehicles| ==> vehicles[i].id == i + 1)
    && nextVehicleId == |vehicles| + 1
    && (forall i :: 0 <= i < |spots| && spots[i].occupied ==>
          Registered(vehicles, spots[i].vehicleId.value, spots[i].vehicleLicensePlate.value))
    && (forall j :: 0 <= j < |queue| ==> Registered(vehicles, queue[j].id, queue[j].licensePlate))
    && OccupantsDistinct(spots)
    && QueueDistinct(queue)
    && NotParkedAndQueued(spots, queue)
  }

  /** `count` new free spots with consecutive ids from `firstId`, as the identity column hands them out. */
  function NewSpots(firstId: nat, count: nat): (r: seq<Spot>)
    ensures |r| == count
    ensures forall i :: 0 <= i < count ==> r[i] == EmptySpot(firstId + i)
  {
    seq(count, i requires 0 <= i < count => EmptySpot(firstId + i))
  }

  /** Saving `count` new free spots under the next identity values keeps the invariant. */
  lemma NewSpotsKeepInvariant(spots: seq<Spot>, nextSpotId: nat, vehicles: seq<Vehicle>,
                              nextVehicleId: nat, queue: seq<Vehicle>, count: nat)
    requires Invariant(spots, nextSpotId, vehicles, nextVehicleId, queue)
    ensures Invariant(spots + NewSpots(nextSpotId, count), nextSpotId + count, vehicles, nextVehicleId, queue)
  {
  }

  /** Saving one more new spot extends the run of new spots by one. */
  lemma NewSpotsGrow(stored: seq<Spot>, firstId: nat, count: nat)
    ensures stored + NewSpots(firstId, count) + [EmptySpot(firstId + count)] == stored + NewSpots(firstId, count + 1)
  {
  }

  /** Parking a newly registered vehicle in a free spot keeps the invariant. */
  lemma ParkKeepsInvariant(spots: seq<Spot>, nextSpotId: nat, vehicles: seq<Vehicle>, nextVehicleId: nat,
                           queue: seq<Vehicle>, i: nat, plate: string)
    requires Invariant(spots, nextSpotId, vehicles, nextVehicleId, queue)
    requires i < |spots| && !spots[i].occupied
    ensures var v := Vehicle(nextVehicleId, plate);
      Invariant(spots[i := Occupy(spots[i], v)], nextSpotId, vehicles + [v], nextVehicleId + 1, queue)
  {
  }

  /** Queueing a newly registered vehicle keeps the invariant. */
  lemma QueueKeepsInvariant(spots: seq<Spot>, nextSpotId: nat, vehicles: seq<Vehicle>, nextVehicleId: nat,
                            queue: seq<Vehicle>, plate: string)
    requires Invariant(spots, nextSpotId, vehicles, nextVehicleId, queue)
    ensures var v := Vehicle(nextVehicleId, plate);
      Invariant(spots, nextSpotId, vehicles + [v], nextVehicleId + 1, queue + [v])
  {
  }

  /** Freeing a spot keeps the invariant. */
  lemma ReleaseKeepsInvariant(spots: seq<Spot>, nextSpotId: nat, vehicles: seq<Vehicle>, nextVehicleId: nat,
                              queue: seq<Vehicle>, k: nat)
    requires Invariant(spots, nextSpotId, vehicles, nextVehicleId, queue)
    requires k < |spots|
    ensures Invariant(spots[k := Release(spots[k])], nextSpotId, vehicles, nextVehicleId, queue)
  {
  }

  /** Handing a spot to the head of the queue, which leaves the queue, keeps the invariant. */
  lemma ReassignKeepsInvariant(spots: seq<Spot>, nextSpotId: nat, vehicles: seq<Vehicle>, nextVehicleId: nat,
                               queue: seq<Vehicle>, k: nat)
    requires Invariant(spots, nextSpotId, vehicles, nextVehicleId, queue)
    requires k < |spots| && queue != []
    ensures Invariant(spots[k := Occupy(spots[k], queue[0])], nextSpotId, vehicles, nextVehicleId, queue[1..])
  {
  }

  /**
   * A successful deallocation with nobody waiting, on values: the round-robin
   * pick is freed, exactly its row changes, one fewer spot is occupied, and
   * the invariant holds.
   */
  lemma ReleaseStep(spots: seq<Spot>, nextSpotId: nat, vehicles: seq<Vehicle>, nextVehicleId: nat,
                    queue: seq<Vehicle>, cursor: nat)
    requires Invariant(spots, nextSpotId, vehicles, nextVehicleId, queue)
    requires FindByOccupiedTrue(spots) != []
    ensures var after := Update(spots, Release(Selected(spots, cursor)));
      && Invariant(after, nextSpotId, vehicles, nextVehicleId, queue)
      && |after| == |spots|
      && (exists k :: 0 <= k < |spots| && spots[k] == Selected(spots, cursor) && after == spots[k := after[k]])
      && |FindByOccupiedTrue(after)| == |FindByOccupiedTrue(spots)| - 1
  {
    var victim := Selected(spots, cursor);
    var k :| 0 <= k < |spots| && spots[k] == victim;
    ReleaseKeepsInvariant(spots, nextSpotId, vehicles, nextVehicleId, queue, k);
    OccupiedCountAfterSet(spots, k, Release(victim));
    UpdateAt(spots, k, Release(victim));
  }

  /**
   * A successful deallocation with a vehicle waiting, on values: the two saves
   * (free the round-robin pick, then park the queue head there) leave that row
   * holding the head and no other row changed, the head leaves the queue, the
   * occupied count is unchanged, and the invariant holds.
   */
  lemma ReassignStep(spots: seq<Spot>, nextSpotId: nat, vehicles: seq<Vehicle>, nextVehicleId: nat,
                     queue: seq<Vehicle>, cursor: nat)
    requires Invariant(spots, nextSpotId, vehicles, nextVehicleId, queue)
    requires FindByOccupiedTrue(spots) != [] && queue != []
    ensures var victim := Selected(spots, cursor);
      var after := Update(Update(spots, Release(victim)), Occupy(Release(victim), queue[0]));
      && Invariant(after, nextSpotId, vehicles, nextVehicleId, queue[1..])
      && after == Update(spots, Occupy(victim, queue[0]))
      && |after| == |spots|
      && (exists k :: 0 <= k < |spots| && spots[k] == victim && after == spots[k := after[k]])
      && |FindByOccupiedTrue(after)| == |FindByOccupiedTrue(spots)|
  {
    var victim := Selected(spots, cursor);
    var k :| 0 <= k < |spots| && spots[k] == victim;
    ReassignKeepsInvariant(spots, nextSpotId, vehicles, nextVehicleId, queue, k);
    OccupiedCountAfterSet(spots, k, Occupy(victim, queue[0]));
    UpdateAt(spots, k, Occupy(victim, queue[0]));
    UpdateTwice(spots, Release(victim), Occupy(Release(victim), queue[0]));
    ReoccupyOverwrites(victim, queue[0]);
  }

  /** Distinct waiting vehicles whose ids lie in `ids` are at most `|ids|` many. */
  lemma {:induction false} QueueWithin(queue: seq<Vehicle>, ids: set<nat>)
    requires QueueDistinct(queue)
    requires forall j :: 0 <= j < |queue| ==> queue[j].id in ids
    ensures |queue| <= |ids|
  {
    if queue != [] {
      var rest := queue[1..];
      forall j | 0 <= j < |rest|
        ensures rest[j].id in ids - {queue[0].id}
      {
        assert rest[j] == queue[j + 1];
      }
      QueueWithin(rest, ids - {queue[0].id});
    }
  }

  /** Parked and waiting vehicles, all distinct and with ids in `ids`, are at most `|ids|` many. */
  lemma {:induction false} ServedWithin(spots: seq<Spot>, queue: seq<Vehicle>, ids: set<nat>)
    requires OccupantsDistinct(spots) && QueueDistinct(queue) && NotParkedAndQueued(spots, queue)
    requires forall i :: 0 <= i < |spots| && spots[i].occupied ==>
      spots[i].vehicleId.Some? && spots[i].vehicleId.value in ids
    requires forall j :: 0 <= j < |queue| ==> queue[j].id in ids
    ensures |FindByOccupiedTrue(spots)| + |queue| <= |ids|
  {
    if spots == [] {
      QueueWithin(queue, ids);
    } else {
      var rest := spots[1..];
      if spots[0].occupied {
        var x := spots[0].vehicleId.value;
        forall i | 0 <= i < |rest| && rest[i].occupied
          ensures rest[i].vehicleId.value in ids - {x}
        {
          assert rest[i] == spots[i + 1];
        }
        forall j | 0 <= j < |queue|
          ensures queue[j].id in ids - {x}
        {
        }
        ServedWithin(rest, queue, ids - {x});
      } else {
        ServedWithin(rest, queue, ids);
      }
    }
  }

  /** The ids the vehicle store has handed out since the last reset: 1 to n. */
  function IdRange(n: nat): (r: set<nat>)
    ensures |r| == n
    ensures forall x :: x in r <==> 1 <= x <= n
  {
    if n == 0 then {} else IdRange(n - 1) + {n}
  }

  class ParkingLotService {
    /** The spot store's rows, in store (ascending id) order. */
    var spots: seq<Spot>
    /** The spot store's identity column: the id the next new spot gets. */
    var nextSpotId: nat
    /** The vehicle store's rows, in id order. */
    var vehicles: seq<Vehicle>
    /** The vehicle store's identity column: the id the next saved vehicle gets. */
    var nextVehicleId: nat
    /** Vehicles waiting for a spot, head first. */
    var waitingQueue: seq<Vehicle>
    /** The round-robin cursor. */
    var lastDeallocatedIndex: nat

    ghost predicate Valid()
      reads this
    {
      Invariant(spots, nextSpotId, vehicles, nextVehicleId, waitingQueue)
    }

    /** The service over an empty database: no spots, no vehicles, empty queue, cursor 0. */
    constructor ()
      ensures Valid()
      ensures spots == [] && nextSpotId == 1
      ensures vehicles == [] && nextVehicleId == 1
      ensures waitingQueue == [] && lastDeallocatedIndex == 0
    {
      spots, nextSpotId := [], 1;
      vehicles, nextVehicleId := [], 1;
      waitingQueue := [];
      lastDeallocatedIndex := 0;
    }

    /** Parked plus waiting vehicles never outnumber the vehicles submitted since the last reset. */
    lemma ServedWithinSubmitted()
      requires Valid()
      ensures |FindByOccupiedTrue(spots)| + |waitingQueue| <= |vehicles|
    {
      ServedWithin(spots, waitingQueue, IdRange(|vehicles|));
    }

    /**
     * Wipes both stores, restarts both id sequences at 1, empties the
     * queue and recreates the two free spots. The cursor is kept.
     */
    method ResetDatabase()
      modifies this
      ensures Valid()
      ensures spots == [EmptySpot(1), EmptySpot(2)] && nextSpotId == 3
      ensures vehicles == [] && nextVehicleId == 1
      ensures waitingQueue == []
      ensures lastDeallocatedIndex == old(lastDeallocatedIndex)
    {
      spots, nextSpotId := [], 1;
      vehicles, nextVehicleId := [], 1;
      waitingQueue := [];
      InitializeParkingSpots();
    }

    /** Tops the spot store up to two spots with new free spots; never removes one. */
    method InitializeParkingSpots()
      requires Valid()
      modifies this
      ensures Valid()
      ensures |old(spots)| < 2 ==>
        spots == old(spots) + NewSpots(old(nextSpotId), 2 - |old(spots)|) && nextSpotId == old(nextSpotId) + (2 - |old(spots)|)
      ensures |old(spots)| >= 2 ==> spots == old(spots) && nextSpotId == old(nextSpotId)
      ensures vehicles == old(vehicles) && nextVehicleId == old(nextVehicleId)
      ensures waitingQueue == old(waitingQueue) && lastDeallocatedIndex == old(lastDeallocatedIndex)
    {
      var existingSpots := |spots|;
      if existingSpots < 2 {
        ghost var stored, firstId := spots, nextSpotId;
        var i := existingSpots;
        ghost var added: nat := 0;
        while i < 2
          invariant existingSpots <= i <= 2 && added == i - existingSpots
          invariant spots == stored + NewSpots(firstId, added)
          invariant nextSpotId == firstId + added
          invariant vehicles == old(vehicles) && nextVehicleId == old(nextVehicleId)
          invariant waitingQueue == old(waitingQueue) && lastDeallocatedIndex == old(lastDeallocatedIndex)
        {
          NewSpotsGrow(stored, firstId, added);
          spots := spots + [EmptySpot(nextSpotId)];
          nextSpotId := nextSpotId + 1;
          i := i + 1;
          added := added + 1;
        }
        NewSpotsKeepInvariant(stored, firstId, vehicles, nextVehicleId, waitingQueue, added);
      }
    }

    /**
     * Registers a vehicle with plate `licensePlate`, then parks it in the
     * first free spot, or appends it to the waiting queue when none is free.
     */
    method AllocateSpot(licensePlate: string) returns (outcome: Outcome)
      requires Valid()
      modifies this
      ensures Valid()
      ensures vehicles == old(vehicles) + [Vehicle(old(nextVehicleId), licensePlate)]
      ensures nextVehicleId == old(nextVehicleId) + 1
      ensures nextSpotId == old(nextSpotId) && lastDeallocatedIndex == old(lastDeallocatedIndex)
      ensures match FirstFreeIndex(old(spots))
        case Some(i) =>
          && spots == old(spots)[i := Occupy(old(spots)[i], Vehicle(old(nextVehicleId), licensePlate))]
          && waitingQueue == old(waitingQueue)
          && outcome == Assigned(spots[i])
        case None =>
          && spots == old(spots)
          && waitingQueue == old(waitingQueue) + [Vehicle(old(nextVehicleId), licensePlate)]
          && outcome == Queued
      ensures |FindByOccupiedTrue(spots)| == |FindByOccupiedTrue(old(spots))| + (if outcome.Assigned? then 1 else 0)
    {
      var vehicle := Vehicle(nextVehicleId, licensePlate);
      FirstAvailableIsFirstFree(spots);
      ghost var free := FirstFreeIndex(spots);
      if free.Some? {
        ParkKeepsInvariant(spots, nextSpotId, vehicles, nextVehicleId, waitingQueue, free.value, licensePlate);
      } else {
        QueueKeepsInvariant(spots, nextSpotId, vehicles, nextVehicleId, waitingQueue, licensePlate);
      }
      vehicles := vehicles + [vehicle];
      nextVehicleId := nextVehicleId + 1;
      var availableSpots := FindByOccupiedFalse(spots);
      if availableSpots != [] {
        var spot := Occupy(availableSpots[0], vehicle);
        UpdateAt(spots, free.value, spot);
        OccupiedCountAfterSet(spots, free.value, spot);
        spots := Update(spots, spot);
        outcome := Assigned(spot);
      } else {
        waitingQueue := waitingQueue + [vehicle];
        outcome := Queued;
      }
    }

    /**
     * Frees occupied spot `cursor mod n` (of the `n` occupied at the start of
     * the call) and, when a vehicle is waiting, parks the queue head there.
     * Answers false, changing nothing, when no spot is occupied.
     */
    method DeallocateAndAssign() returns (ok: bool)
      requires Valid()
      modifies this
      ensures Valid()
      ensures ok <==> FindByOccupiedTrue(old(spots)) != []
      ensures vehicles == old(vehicles) && nextVehicleId == old(nextVehicleId) && nextSpotId == old(nextSpotId)
      ensures !ok ==> spots == old(spots) && waitingQueue == old(waitingQueue)
                      && lastDeallocatedIndex == old(lastDeallocatedIndex)
      ensures ok ==> lastDeallocatedIndex == old(lastDeallocatedIndex) + 1
      ensures ok && old(waitingQueue) == [] ==>
        && spots == Update(old(spots), Release(Selected(old(spots), old(lastDeallocatedIndex))))
        && waitingQueue == []
        && |FindByOccupiedTrue(spots)| == |FindByOccupiedTrue(old(spots))| - 1
      ensures ok && old(waitingQueue) != [] ==>
        && spots == Update(old(spots), Occupy(Selected(old(spots), old(lastDeallocatedIndex)), old(waitingQueue)[0]))
        && waitingQueue == old(waitingQueue)[1..]
        && |FindByOccupiedTrue(spots)| == |FindByOccupiedTrue(old(spots))|
    {
      var occupiedSpots := FindByOccupiedTrue(spots);
      if occupiedSpots != [] {
        var spot := occupiedSpots[lastDeallocatedIndex % |occupiedSpots|];
        if waitingQueue != [] {
          ReassignStep(spots, nextSpotId, vehicles, nextVehicleId, waitingQueue, lastDeallocatedIndex);
          spot := Release(spot);
          spots := Update(spots, spot);
          var nextVehicle := waitingQueue[0];
          waitingQueue := waitingQueue[1..];
          spot := Occupy(spot, nextVehicle);
          spots := Update(spots, spot);
        } else {
          ReleaseStep(spots, nextSpotId, vehicles, nextVehicleId, waitingQueue, lastDeallocatedIndex);
          spot := Release(spot);
          spots := Update(spots, spot);
        }
        lastDeallocatedIndex := lastDeallocatedIndex + 1;
        ok := true;
      } else {
        ok := false;
      }
    }

    /** `getAvailableSpots`: the unoccupied spots, in store order. */
    function GetAvailableSpots(): (r: seq<Spot>)
      reads this
      ensures r == FindByOccupiedFalse(spots)
      ensures forall i :: 0 <= i < |r| ==> !r[i].occupied
      ensures forall i :: 0 <= i < |spots| && !spots[i].occupied ==> spots[i] in r
    {
      QueriesFindEveryMatch(spots);
      FindByOccupiedFalse(spots)
    }

    /** `getWaitingQueue`: a copy of the queue, head first; reading it changes nothing. */
    function GetWaitingQueue(): (r: seq<Vehicle>)
      reads this
      ensures r == waitingQueue
    {
      waitingQueue
    }
  }
}
