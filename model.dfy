/**
 * The two persisted entities: a parking spot and a vehicle.
 * Ids are the values the store's identity columns hand out (1, 2, ...).
 */
module Model {
  import opened Wrappers

  /** A registered vehicle: its store id and its licence plate. */
  datatype Vehicle = Vehicle(id: nat, licensePlate: string)

  /** A stored parking spot; the two vehicle columns are nullable. */
  datatype Spot = Spot(id: nat, occupied: bool, vehicleId: Option<nat>, vehicleLicensePlate: Option<string>)

  /** The spot invariant: the flag is set exactly when both vehicle columns are. */
  predicate Consistent(s: Spot) {
    (s.occupied <==> s.vehicleId.Some?) && (s.occupied <==> s.vehicleLicensePlate.Some?)
  }

  /** A spot as the builder creates it: unoccupied, no vehicle id and no plate. */
  function EmptySpot(id: nat): (r: Spot)
    ensures r.id == id && !r.occupied && Consistent(r)
  {
    Spot(id, false, None, None)
  }

  /** The three setters that park vehicle `v` in spot `s`. */
  function Occupy(s: Spot, v: Vehicle): (r: Spot)
    ensures r.id == s.id && r.occupied && Consistent(r)
    ensures r.vehicleId == Some(v.id) && r.vehicleLicensePlate == Some(v.licensePlate)
  {
    s.(occupied := true, vehicleId := Some(v.id), vehicleLicensePlate := Some(v.licensePlate))
  }

  /** The three setters that free spot `s`. */
  function Release(s: Spot): (r: Spot)
    ensures r.id == s.id && !r.occupied && Consistent(r)
  {
    s.(occupied := false, vehicleId := None, vehicleLicensePlate := None)
  }

  /** Freeing a spot and parking a vehicle in it ends where parking it directly would. */
  lemma ReoccupyOverwrites(s: Spot, v: Vehicle)
    ensures Occupy(Release(s), v) == Occupy(s, v)
  {
  }
}
