/** The sale handlers of routes/sales.go. */
module SalesRoutes {
  import opened Results
  import opened Db
  import opened Http
  import opened SaleModel

  /**
   * How `createSale` answers the outcome of `sale.Save()`: 201 with the
   * saved sale, 409 with the vehicle id for `VehicleAlreadySoldError`, and
   * 500 for every other error.
   */
  function SaveResponse(saved: Sale, err: Option<SaveError>): (r: Response)
    ensures r.status == StatusCreated <==> err.None?
    ensures err.None? ==> r.body == CreatedSale("Sale created successfully!", saved)
    ensures r.status == StatusConflict <==> err.Some? && err.value.VehicleAlreadySold?
    ensures r.status == StatusConflict ==>
      r.body == Conflict("Vehicle is already sold", err.value.vehicleId)
    ensures r.status == StatusInternalServerError <==> err.Some? && err.value.StoreError?
    ensures r.status == StatusInternalServerError ==>
      r.body == Message("Could not create sale. Try again later.")
  {
    match err
    case None => Response(StatusCreated, CreatedSale("Sale created successfully!", saved))
    case Some(VehicleAlreadySold(vehicleId)) =>
      Response(StatusConflict, Conflict("Vehicle is already sold", vehicleId))
    case Some(StoreError(_)) =>
      Response(StatusInternalServerError, Message("Could not create sale. Try again later."))
  }

  /**
   * A missing vehicle, a missing client and a failing statement all look the
   * same to the caller: one 500 response, whatever sale was attempted.
   */
  lemma StoreErrorsIndistinguishable(s1: Sale, s2: Sale, e1: DbError, e2: DbError)
    ensures SaveResponse(s1, Some(StoreError(e1))) == SaveResponse(s2, Some(StoreError(e2)))
  {
  }

  /**
   * `createSale`: `body` is the result of binding the JSON request
   * (`None` when binding fails, and then `Save` never runs).
   */
  method CreateSale(db: Store, body: Option<Sale>, now: int, faults: SaveFaults) returns (r: Response)
    requires db.Valid()
    modifies db`sales, db`nextSaleId, db`vehicles
    ensures db.Valid()
    ensures body.None? ==>
      && r == Response(StatusBadRequest, Message("Could not parse request data."))
      && db.sales == old(db.sales) && db.nextSaleId == old(db.nextSaleId) && db.vehicles == old(db.vehicles)
    ensures body.Some? && old(Checks(db, body.value, faults)).Some? ==>
      && r == SaveResponse(body.value, old(Checks(db, body.value, faults)))
      && db.sales == old(db.sales) && db.nextSaleId == old(db.nextSaleId) && db.vehicles == old(db.vehicles)
    ensures body.Some? && old(Checks(db, body.value, faults)).None? && faults.insert.Some? ==>
      && r == Response(StatusInternalServerError, Message("Could not create sale. Try again later."))
      && db.sales == old(db.sales) && db.nextSaleId == old(db.nextSaleId) && db.vehicles == old(db.vehicles)
    ensures body.Some? && old(Checks(db, body.value, faults)).None? && faults.insert.None? ==>
      var saved := body.value.(id := old(db.nextSaleId), saleDate := now);
      && db.sales == old(db.sales)[saved.id := saved]
      && db.nextSaleId == old(db.nextSaleId) + 1
      && (faults.update.None? ==>
            && r == Response(StatusCreated, CreatedSale("Sale created successfully!", saved))
            && db.vehicles ==
                 old(db.vehicles)[saved.vehicleId := old(db.vehicles)[saved.vehicleId].(status := SoldStatus)])
      // the sale stays stored, the vehicle is not marked: no rollback
      && (faults.update.Some? ==>
            && r == Response(StatusInternalServerError, Message("Could not create sale. Try again later."))
            && db.vehicles == old(db.vehicles))
  {
    if body.None? {
      return Response(StatusBadRequest, Message("Could not parse request data."));
    }
    var saved, err := Save(db, body.value, now, faults);
    r := SaveResponse(saved, err);
  }

  /**
   * `getSale`: `id` is the parsed path parameter (`None` when it does not
   * parse, and then nothing is fetched).  Any fetch error, a missing sale
   * included, gives 500.
   */
  function GetSale(db: Store, id: Option<int>, fault: Fault): (r: Response)
    reads db
    ensures id.None? ==> r == Response(StatusBadRequest, Message("Could not parse sale id."))
    ensures id.Some? ==> (r.status == StatusOK <==> GetSaleByID(db, id.value, fault).Success?)
    ensures id.Some? && r.status == StatusOK ==> r.body == SaleRecord(GetSaleByID(db, id.value, fault).value)
    ensures id.Some? && r.status != StatusOK ==>
      r == Response(StatusInternalServerError, Message("Could not fetch sale."))
  {
    if id.None? then Response(StatusBadRequest, Message("Could not parse sale id."))
    else
      var sale := GetSaleByID(db, id.value, fault);
      if sale.Failure? then Response(StatusInternalServerError, Message("Could not fetch sale."))
      else Response(StatusOK, SaleRecord(sale.value))
  }

  /** On a valid store a 200 from `getSale` carries a record of the listing, with the asked id. */
  lemma GetSaleFromListing(db: Store, id: int, fault: Fault)
    requires db.Valid()
    ensures GetSale(db, Some(id), fault).status == StatusOK ==>
      GetSale(db, Some(id), fault).body.record in SalesView(db)
      && GetSale(db, Some(id), fault).body.record.id == id
  {
    var r := GetSaleByID(db, id, fault);
    if r.Success? {
      LookupAgreesWithListing(db, id, r.value);
    }
  }

  /**
   * `getSales`: 500 when the query or a row scan fails, otherwise 200 with
   * the listing, newest first; a failing fetch is not noticed and only
   * shortens that listing.
   */
  method GetSales(db: Store, queryFault: Fault, scanFault: Option<RowFault>) returns (r: Response)
    ensures r.status == StatusOK <==> queryFault.None? && !ScanFails(scanFault, |SalesView(db)|)
    ensures r.status == StatusOK ==> r.body == SaleList(Delivered(SalesView(db), scanFault)) && NonIncreasing(r.body.sales)
    ensures r.status != StatusOK ==>
      r == Response(StatusInternalServerError, Message("Could not fetch sales. Try again later."))
  {
    var sales, err := GetAllSales(db, queryFault, scanFault);
    if err.Some? {
      return Response(StatusInternalServerError, Message("Could not fetch sales. Try again later."));
    }
    r := Response(StatusOK, SaleList(sales));
  }
}
