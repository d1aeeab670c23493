/**
 * Client runs of the service, proved from the operations' contracts alone:
 * three arrivals at a freshly reset two-spot lot, then two round-robin
 * deallocations; and a deallocation on an empty lot.
 */
module Example {
  import opened Wrappers
  import opened Model
  import opened SpotRepository
  import opened Service

  const V1 := Vehicle(1, "V1")
  const V2 := Vehicle(2, "V2")
  const V3 := Vehicle(3, "V3")

  /** Two arrivals fill the freshly reset lot; the third waits. */
  method Arrivals(lot: ParkingLotService) returns (first: Outcome, second: Outcome, third: Outcome)
    requires lot.Valid()
    requires lot.spots == [EmptySpot(1), EmptySpot(2)] && lot.vehicles == [] && lot.waitingQueue == []
    modifies lot
    ensures lot.Valid()
    ensures first == Assigned(Occupy(EmptySpot(1), V1))
    ensures second == Assigned(Occupy(EmptySpot(2), V2))
    ensures third == Queued
    ensures lot.spots == [Occupy(EmptySpot(1), V1), Occupy(EmptySpot(2), V2)]
    ensures lot.waitingQueue == [V3]
    ensures lot.lastDeallocatedIndex == old(lot.lastDeallocatedIndex)
  {
    var s1, s2 := EmptySpot(1), EmptySpot(2);
    assert FirstFreeIndex([s1, s2]) == Some(0);
    first := lot.AllocateSpot("V1");
    assert lot.spots == [Occupy(s1, V1), s2];
    assert FirstFreeIndex([s2]) == Some(0);
    assert FirstFreeIndex(lot.spots) == Some(1);
    second := lot.AllocateSpot("V2");
    assert lot.spots == [Occupy(s1, V1), Occupy(s2, V2)];
    assert FirstFreeIndex([Occupy(s2, V2)]) == None;
    assert FirstFreeIndex(lot.spots) == None;
    third := lot.AllocateSpot("V3");
  }

  /** With V3 waiting, the first deallocation (cursor 0) frees spot 1 and hands it to V3. */
  method FirstDeparture(lot: ParkingLotService) returns (freed: bool)
    requires lot.Valid()
    requires lot.spots == [Occupy(EmptySpot(1), V1), Occupy(EmptySpot(2), V2)]
    requires lot.waitingQueue == [V3] && lot.lastDeallocatedIndex == 0
    modifies lot
    ensures lot.Valid()
    ensures freed && lot.spots == [Occupy(EmptySpot(1), V3), Occupy(EmptySpot(2), V2)]
    ensures lot.waitingQueue == [] && lot.lastDeallocatedIndex == 1
  {
    var s1, s2 := EmptySpot(1), EmptySpot(2);
    assert FindByOccupiedTrue([Occupy(s2, V2)]) == [Occupy(s2, V2)];
    assert FindByOccupiedTrue(lot.spots) == lot.spots;
    assert Selected(lot.spots, 0) == Occupy(s1, V1);
    UpdateAt(lot.spots, 0, Occupy(Occupy(s1, V1), V3));
    freed := lot.DeallocateAndAssign();
  }

  /** With nobody waiting, the second deallocation (cursor 1) frees spot 2. */
  method SecondDeparture(lot: ParkingLotService) returns (freed: bool)
    requires lot.Valid()
    requires lot.spots == [Occupy(EmptySpot(1), V3), Occupy(EmptySpot(2), V2)]
    requires lot.waitingQueue == [] && lot.lastDeallocatedIndex == 1
    modifies lot
    ensures lot.Valid()
    ensures freed && lot.spots == [Occupy(EmptySpot(1), V3), EmptySpot(2)]
    ensures lot.waitingQueue == [] && lot.lastDeallocatedIndex == 2
  {
    var s1, s2 := EmptySpot(1), EmptySpot(2);
    assert FindByOccupiedTrue([Occupy(s2, V2)]) == [Occupy(s2, V2)];
    assert FindByOccupiedTrue(lot.spots) == lot.spots;
    assert Selected(lot.spots, 1) == Occupy(s2, V2);
    UpdateAt(lot.spots, 1, Release(Occupy(s2, V2)));
    freed := lot.DeallocateAndAssign();
  }

  /** The worked run: allocate V1, V2, V3 after a reset, then deallocate twice. */
  method ArrivalsThenRoundRobin()
    returns (first: Outcome, second: Outcome, third: Outcome, queued: seq<Vehicle>,
             freedOnce: bool, afterOnce: seq<Spot>, freedTwice: bool, afterTwice: seq<Spot>)
    ensures first == Assigned(Spot(1, true, Some(1), Some("V1")))
    ensures second == Assigned(Spot(2, true, Some(2), Some("V2")))
    ensures third == Queued && queued == [Vehicle(3, "V3")]
    ensures freedOnce && afterOnce == [Spot(1, true, Some(3), Some("V3")), Spot(2, true, Some(2), Some("V2"))]
    ensures freedTwice && afterTwice == [Spot(1, true, Some(3), Some("V3")), Spot(2, false, None, None)]
  {
    var lot := new ParkingLotService();
    lot.ResetDatabase();
    first, second, third := Arrivals(lot);
    queued := lot.GetWaitingQueue();
    freedOnce := FirstDeparture(lot);
    afterOnce := lot.spots;
    freedTwice := SecondDeparture(lot);
    afterTwice := lot.spots;
  }

  /** Deallocating on a reset lot, where nothing is parked, fails and leaves both spots free. */
  method DeallocateEmptyLot() returns (freed: bool, available: seq<Spot>)
    ensures !freed
    ensures available == [Spot(1, false, None, None), Spot(2, false, None, None)]
  {
    var lot := new ParkingLotService();
    lot.ResetDatabase();
    assert FindByOccupiedTrue([EmptySpot(2)]) == [];
    assert FindByOccupiedTrue(lot.spots) == [];
    freed := lot.DeallocateAndAssign();
    available := lot.GetAvailableSpots();
    assert FindByOccupiedFalse([EmptySpot(2)]) == [EmptySpot(2)];
  }
}
