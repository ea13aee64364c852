/**
 * The vehicles table operations of models/vehicle.go.  Each function takes
 * the store it runs against (the source's global connection) and, for every
 * statement it issues, the `Fault` that says whether that statement fails.
 */
module VehicleModel {
  import opened Results
  import opened Db
  import opened FilterQuery

  /**
   * `(v *Vehicle) Save()`: INSERT ... RETURNING id.  On success the row is
   * stored under the id the sequence hands out and the caller's struct gets
   * that id; on failure nothing is stored and the struct is left as it was.
   */
  method Save(db: Store, v: Vehicle, fault: Fault) returns (saved: Vehicle, err: Option<DbError>)
    requires db.Valid()
    modifies db`vehicles, db`nextVehicleId
    ensures db.Valid()
    ensures fault.Some? ==>
      && err == Some(ServerError(fault.value)) && saved == v
      && db.vehicles == old(db.vehicles) && db.nextVehicleId == old(db.nextVehicleId)
    ensures fault.None? ==>
      && err == None
      && saved == v.(id := old(db.nextVehicleId))
      && saved.id !in old(db.vehicles)
      && db.vehicles == old(db.vehicles)[saved.id := saved]
      && db.nextVehicleId == old(db.nextVehicleId) + 1
  {
    if fault.Some? {
      return v, Some(ServerError(fault.value));
    }
    saved := v.(id := db.nextVehicleId);
    db.vehicles := db.vehicles[saved.id := saved];
    db.nextVehicleId := db.nextVehicleId + 1;
    err := None;
  }

  /**
   * `GetAllVehicles()`: SELECT * FROM vehicles.  A failing query or a
   * failing row scan gives no vehicles at all, only the error; a failing
   * fetch ends the read early, and the vehicles read so far come back as a
   * success (the loop never asks `rows.Err()`).
   */
  method GetAllVehicles(db: Store, queryFault: Fault, scanFault: Option<RowFault>)
    returns (vehicles: seq<Vehicle>, err: Option<DbError>)
    ensures var rows := Scan(db.vehicles, db.nextVehicleId);
      && (queryFault.Some? ==> vehicles == [] && err == Some(ServerError(queryFault.value)))
      && (queryFault.None? && ScanFails(scanFault, |rows|) ==>
            vehicles == [] && err == Some(ServerError(scanFault.value.code)))
      && (queryFault.None? && !ScanFails(scanFault, |rows|) ==> vehicles == Delivered(rows, scanFault) && err == None)
  {
    if queryFault.Some? {
      return [], Some(ServerError(queryFault.value));
    }
    vehicles, err := Collect(Scan(db.vehicles, db.nextVehicleId), scanFault);
    if err.Some? {
      vehicles := [];
    }
  }

  /** In a valid store the full listing holds exactly the stored rows. */
  lemma ListingHoldsTable(db: Store, v: Vehicle)
    requires db.Valid()
    ensures v in Scan(db.vehicles, db.nextVehicleId) <==> v.id in db.vehicles && db.vehicles[v.id] == v
  {
    ScanMembers(db.vehicles, db.nextVehicleId, v);
    if v.id in db.vehicles && db.vehicles[v.id] == v {
      assert 0 <= v.id < db.nextVehicleId;
    }
  }

  /**
   * In a valid store the full listing returns every stored vehicle exactly
   * once: as many rows as the table holds, in strictly ascending id order.
   */
  lemma ListingOncePerRow(db: Store)
    requires db.Valid()
    ensures |Scan(db.vehicles, db.nextVehicleId)| == |db.vehicles|
    ensures var rows := Scan(db.vehicles, db.nextVehicleId);
      forall i, j :: 0 <= i < j < |rows| ==> rows[i].id < rows[j].id
  {
    ScanAll(db.vehicles, db.nextVehicleId);
    ScanAscending(db.vehicles, db.nextVehicleId, (v: Vehicle) => v.id);
  }

  /** `GetVehicleByID(id)`: the row with that id, sql.ErrNoRows when there is none. */
  function GetVehicleByID(db: Store, id: int, fault: Fault): (r: Result<Vehicle, DbError>)
    reads db
    ensures r.Success? <==> fault.None? && id in db.vehicles
    ensures r.Success? ==> r.value == db.vehicles[id]
    ensures db.Valid() && r.Success? ==> r.value.id == id
    ensures fault.None? && id !in db.vehicles ==> r == Failure(ErrNoRows)
    ensures fault.Some? ==> r == Failure(ServerError(fault.value))
  {
    if fault.Some? then Failure(ServerError(fault.value))
    else if id in db.vehicles then Success(db.vehicles[id])
    else Failure(ErrNoRows)
  }

  /** The point lookup and the full listing agree on every row of a valid store. */
  lemma LookupAgreesWithListing(db: Store, id: int, v: Vehicle)
    requires db.Valid()
    ensures GetVehicleByID(db, id, None) == Success(v) <==> v in Scan(db.vehicles, db.nextVehicleId) && v.id == id
  {
    ListingHoldsTable(db, v);
  }

  /**
   * `(vehicle Vehicle) UpdateVehicle()`: every column but the id of the row
   * whose id is `vehicle.id` is overwritten, status included, so a sold
   * vehicle can be made available again.  No row with that id is not an
   * error: nothing changes.
   */
  method UpdateVehicle(db: Store, vehicle: Vehicle, fault: Fault) returns (err: Option<DbError>)
    requires db.Valid()
    modifies db`vehicles
    ensures db.Valid()
    ensures fault.Some? ==> err == Some(ServerError(fault.value)) && db.vehicles == old(db.vehicles)
    ensures fault.None? ==> err == None
    ensures fault.None? && vehicle.id in old(db.vehicles) ==> db.vehicles == old(db.vehicles)[vehicle.id := vehicle]
    ensures fault.None? && vehicle.id !in old(db.vehicles) ==> db.vehicles == old(db.vehicles)
  {
    if fault.Some? {
      return Some(ServerError(fault.value));
    }
    if vehicle.id in db.vehicles {
      db.vehicles := db.vehicles[vehicle.id := vehicle];
    }
    err := None;
  }

  /** `(vehicle Vehicle) Delete()`: removes the row whose id is `vehicle.id`, if any. */
  method Delete(db: Store, vehicle: Vehicle, fault: Fault) returns (err: Option<DbError>)
    requires db.Valid()
    modifies db`vehicles
    ensures db.Valid()
    ensures fault.Some? ==> err == Some(ServerError(fault.value)) && db.vehicles == old(db.vehicles)
    ensures fault.None? ==> err == None && db.vehicles == old(db.vehicles) - {vehicle.id}
  {
    if fault.Some? {
      return Some(ServerError(fault.value));
    }
    db.vehicles := db.vehicles - {vehicle.id};
    err := None;
  }

  /**
   * `GetVehiclesWithFilters(vehicleType, brand, year)`: builds the query
   * (FilterQuery.BuildQuery), runs it, and reads the rows.  The result is
   * the scanned vehicles that match every active filter, cut short by a
   * failing fetch; a failing query or row scan gives no vehicles, only the
   * error.
   */
  method GetVehiclesWithFilters(
    db: Store, vehicleType: string, brand: string, year: int, queryFault: Fault, scanFault: Option<RowFault>)
    returns (vehicles: seq<Vehicle>, err: Option<DbError>)
    ensures var rows := FilterRows(Scan(db.vehicles, db.nextVehicleId), vehicleType, brand, year);
      && (queryFault.Some? ==> vehicles == [] && err == Some(ServerError(queryFault.value)))
      && (queryFault.None? && ScanFails(scanFault, |rows|) ==>
            vehicles == [] && err == Some(ServerError(scanFault.value.code)))
      && (queryFault.None? && !ScanFails(scanFault, |rows|) ==> vehicles == Delivered(rows, scanFault) && err == None)
  {
    var query, args := BuildQuery(vehicleType, brand, year);
    if queryFault.Some? {
      return [], Some(ServerError(queryFault.value));
    }
    BuiltQueryExecutes(db.vehicles, db.nextVehicleId, vehicleType, brand, year);
    var rows := ExecuteSelect(db.vehicles, db.nextVehicleId, query, args).value;
    vehicles, err := Collect(rows, scanFault);
    if err.Some? {
      vehicles := [];
    }
  }

  /**
   * In a valid store, the filtered listing holds exactly the stored vehicles
   * that match every active filter.
   */
  lemma FilteredListingMeaning(db: Store, vehicleType: string, brand: string, year: int, v: Vehicle)
    requires db.Valid()
    ensures v in FilterRows(Scan(db.vehicles, db.nextVehicleId), vehicleType, brand, year)
      <==> v.id in db.vehicles && db.vehicles[v.id] == v && MatchesFilters(v, vehicleType, brand, year)
  {
    FilterRowsMembers(Scan(db.vehicles, db.nextVehicleId), vehicleType, brand, year, v);
    ListingHoldsTable(db, v);
  }
}
