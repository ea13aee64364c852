/** The vehicle handlers of routes/vehicles.go that carry decisions of their own. */
module VehicleRoutes {
  import opened Results
  import opened Db
  import opened Http
  import opened FilterQuery
  import VehicleModel

  /**
   * The `year` query parameter as `getVehicles` reads it: absent or empty
   * means 0, anything else goes through `parse` (strconv.Atoi, `None` when
   * the text is not an integer).
   */
  function YearParam(yearText: string, parse: string -> Option<int>): (y: Option<int>)
    ensures yearText == "" ==> y == Some(0)
    ensures yearText != "" ==> y == parse(yearText)
  {
    if yearText == "" then Some(0) else parse(yearText)
  }

  /** Which query `getVehicles` runs. */
  datatype VehicleQuery = InvalidYear | Filtered(vehicleType: string, brand: string, year: int) | AllVehicles

  /**
   * The dispatch of `getVehicles`: a year that does not parse is rejected;
   * the filtered query runs when type or brand is non-empty or the year is
   * positive; otherwise all vehicles are listed.
   */
  function ChooseQuery(vehicleType: string, brand: string, yearText: string, parse: string -> Option<int>)
    : (q: VehicleQuery)
    ensures q == InvalidYear <==> yearText != "" && parse(yearText).None?
    ensures q.Filtered? <==>
      q != InvalidYear && (vehicleType != "" || brand != "" || YearParam(yearText, parse).value > 0)
    ensures q.Filtered? ==> q == Filtered(vehicleType, brand, YearParam(yearText, parse).value)
    ensures yearText == "" ==> (q.Filtered? <==> vehicleType != "" || brand != "")
  {
    var year := YearParam(yearText, parse);
    if year.None? then InvalidYear
    else if vehicleType != "" || brand != "" || year.value > 0 then Filtered(vehicleType, brand, year.value)
    else AllVehicles
  }

  /**
   * `getVehicles`.  Whichever query it dispatches to, a 200 lists exactly
   * the scanned vehicles that match the active filters (when no filter is
   * active that is the whole table), or a prefix of them when a fetch
   * fails, since that failure is never reported.
   */
  method GetVehicles(
    db: Store, vehicleType: string, brand: string, yearText: string, parse: string -> Option<int>,
    queryFault: Fault, scanFault: Option<RowFault>)
    returns (r: Response)
    ensures ChooseQuery(vehicleType, brand, yearText, parse) == InvalidYear ==>
      r == Response(StatusBadRequest, Message("Invalid year format."))
    ensures ChooseQuery(vehicleType, brand, yearText, parse) != InvalidYear ==>
      var rows := FilterRows(Scan(db.vehicles, db.nextVehicleId), vehicleType, brand, YearParam(yearText, parse).value);
      && (r.status == StatusOK <==> queryFault.None? && !ScanFails(scanFault, |rows|))
      && (r.status == StatusOK ==> r.body == VehicleList(Delivered(rows, scanFault)))
      && (r.status != StatusOK ==>
            r == Response(StatusInternalServerError, Message("Could not fetch vehicles. Try again later.")))
  {
    var query := ChooseQuery(vehicleType, brand, yearText, parse);
    if query == InvalidYear {
      return Response(StatusBadRequest, Message("Invalid year format."));
    }
    var vehicles, err;
    if query.Filtered? {
      vehicles, err := VehicleModel.GetVehiclesWithFilters(db, vehicleType, brand, query.year, queryFault, scanFault);
    } else {
      NoFilterKeepsAll(Scan(db.vehicles, db.nextVehicleId), vehicleType, brand, YearParam(yearText, parse).value);
      vehicles, err := VehicleModel.GetAllVehicles(db, queryFault, scanFault);
    }
    if err.Some? {
      return Response(StatusInternalServerError, Message("Could not fetch vehicles. Try again later."));
    }
    r := Response(StatusOK, VehicleList(vehicles));
  }

  /**
   * `updateVehicle`: `id` is the parsed path parameter and `body` the bound
   * JSON (either `None` when it fails).  The row written is the body with
   * its id replaced by the path id, whatever id the body carried.
   */
  method UpdateVehicle(db: Store, id: Option<int>, body: Option<Vehicle>, fault: Fault) returns (r: Response)
    requires db.Valid()
    modifies db`vehicles
    ensures db.Valid()
    ensures id.None? ==>
      r == Response(StatusBadRequest, Message("Could not parse vehicle id.")) && db.vehicles == old(db.vehicles)
    ensures id.Some? && body.None? ==>
      r == Response(StatusBadRequest, Message("Could not parse request data.")) && db.vehicles == old(db.vehicles)
    ensures id.Some? && body.Some? && fault.Some? ==>
      r == Response(StatusInternalServerError, Message("Could not update vehicle.")) && db.vehicles == old(db.vehicles)
    ensures id.Some? && body.Some? && fault.None? ==>
      && r == Response(StatusOK, Message("Vehicle updated successfully!"))
      && (id.value in old(db.vehicles) ==> db.vehicles == old(db.vehicles)[id.value := body.value.(id := id.value)])
      && (id.value !in old(db.vehicles) ==> db.vehicles == old(db.vehicles))
  {
    if id.None? {
      return Response(StatusBadRequest, Message("Could not parse vehicle id."));
    }
    if body.None? {
      return Response(StatusBadRequest, Message("Could not parse request data."));
    }
    var vehicle := body.value.(id := id.value);
    var err := VehicleModel.UpdateVehicle(db, vehicle, fault);
    if err.Some? {
      return Response(StatusInternalServerError, Message("Could not update vehicle."));
    }
    r := Response(StatusOK, Message("Vehicle updated successfully!"));
  }

  /**
   * `deleteVehicle`: fetches the vehicle first and deletes only what it
   * fetched; a failing fetch, a missing vehicle included, gives 500 and
   * deletes nothing.
   */
  method DeleteVehicle(db: Store, id: Option<int>, lookupFault: Fault, deleteFault: Fault) returns (r: Response)
    requires db.Valid()
    modifies db`vehicles
    ensures db.Valid()
    ensures id.None? ==>
      r == Response(StatusBadRequest, Message("Could not parse vehicle id.")) && db.vehicles == old(db.vehicles)
    ensures id.Some? && (lookupFault.Some? || id.value !in old(db.vehicles)) ==>
      r == Response(StatusInternalServerError, Message("Could not fetch the vehicle."))
      && db.vehicles == old(db.vehicles)
    ensures id.Some? && lookupFault.None? && id.value in old(db.vehicles) && deleteFault.Some? ==>
      r == Response(StatusInternalServerError, Message("Could not delete the vehicle."))
      && db.vehicles == old(db.vehicles)
    ensures id.Some? && lookupFault.None? && id.value in old(db.vehicles) && deleteFault.None? ==>
      r == Response(StatusOK, Message("Vehicle deleted successfully!"))
      && db.vehicles == old(db.vehicles) - {id.value}
  {
    if id.None? {
      return Response(StatusBadRequest, Message("Could not parse vehicle id."));
    }
    var vehicle := VehicleModel.GetVehicleByID(db, id.value, lookupFault);
    if vehicle.Failure? {
      return Response(StatusInternalServerError, Message("Could not fetch the vehicle."));
    }
    var err := VehicleModel.Delete(db, vehicle.value, deleteFault);
    if err.Some? {
      return Response(StatusInternalServerError, Message("Could not delete the vehicle."));
    }
    r := Response(StatusOK, Message("Vehicle deleted successfully!"));
  }
}
