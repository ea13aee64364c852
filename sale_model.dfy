/**
 * The sales table operations of models/sale.go: the sale-creation state
 * machine `(s *Sale) Save()` and the two joined read projections.
 */
module SaleModel {
  import opened Results
  import opened Db
  import VehicleModel
  import ClientModel

  /** The status `Save` gives a vehicle once its sale is stored. */
  const SoldStatus := "sold"

  /** A sale joined with its client and its vehicle. */
  datatype SaleWithDetails = SaleWithDetails(id: int, price: real, saleDate: int, client: Client, vehicle: Vehicle)

  /**
   * What `Save` can return: the source's `VehicleAlreadySoldError`, carrying
   * the vehicle id, or an error of a statement passed through unchanged.
   */
  datatype SaveError = VehicleAlreadySold(vehicleId: int) | StoreError(error: DbError)

  /** Whether each of the five statements `Save` may issue fails. */
  datatype SaveFaults = SaveFaults(probe: Fault, vehicleLookup: Fault, clientLookup: Fault, insert: Fault, update: Fault)

  // ---------------------------------------------------------------- sale creation

  /**
   * The checks `Save` runs before it writes anything, in the order it runs
   * them: the probe for a sale of the vehicle, the vehicle lookup, its
   * status, the client lookup.  The first one that fails decides the error;
   * `None` means every check passed.
   */
  function Checks(db: Store, s: Sale, faults: SaveFaults): (r: Option<SaveError>)
    reads db
    // a probe error other than "no rows" is passed through
    ensures faults.probe.Some? ==> r == Some(StoreError(ServerError(faults.probe.value)))
    // a sale of the vehicle already exists
    ensures faults.probe.None? && HasSaleFor(db.sales, s.vehicleId) ==> r == Some(VehicleAlreadySold(s.vehicleId))
    // the vehicle is checked before the client
    ensures faults.probe.None? && !HasSaleFor(db.sales, s.vehicleId) && faults.vehicleLookup.Some? ==>
      r == Some(StoreError(ServerError(faults.vehicleLookup.value)))
    ensures (faults.probe.None? && !HasSaleFor(db.sales, s.vehicleId) && faults.vehicleLookup.None?
             && s.vehicleId !in db.vehicles) ==> r == Some(StoreError(ErrNoRows))
    ensures (faults.probe.None? && !HasSaleFor(db.sales, s.vehicleId) && faults.vehicleLookup.None?
             && s.vehicleId in db.vehicles && db.vehicles[s.vehicleId].status == SoldStatus) ==>
      r == Some(VehicleAlreadySold(s.vehicleId))
    // the client is checked last: its lookup error is passed through, a missing client is ErrNoRows
    ensures (faults.probe.None? && !HasSaleFor(db.sales, s.vehicleId) && faults.vehicleLookup.None?
             && s.vehicleId in db.vehicles && db.vehicles[s.vehicleId].status != SoldStatus) ==>
      && (faults.clientLookup.Some? ==> r == Some(StoreError(ServerError(faults.clientLookup.value))))
      && (faults.clientLookup.None? && s.clientId !in db.clients ==> r == Some(StoreError(ErrNoRows)))
    // every check passes exactly when the vehicle is unsold and present and the client present
    ensures r == None <==>
      && faults.probe.None? && !HasSaleFor(db.sales, s.vehicleId)
      && faults.vehicleLookup.None? && s.vehicleId in db.vehicles && db.vehicles[s.vehicleId].status != SoldStatus
      && faults.clientLookup.None? && s.clientId in db.clients
    // an error is always the vehicle's when it concerns the vehicle, never another id
    ensures r.Some? && r.value.VehicleAlreadySold? ==> r.value.vehicleId == s.vehicleId
  {
    if faults.probe.Some? then Some(StoreError(ServerError(faults.probe.value)))
    else if HasSaleFor(db.sales, s.vehicleId) then Some(VehicleAlreadySold(s.vehicleId))
    else
      var vehicle := VehicleModel.GetVehicleByID(db, s.vehicleId, faults.vehicleLookup);
      if vehicle.Failure? then Some(StoreError(vehicle.error))
      else if vehicle.value.status == SoldStatus then Some(VehicleAlreadySold(s.vehicleId))
      else
        var client := ClientModel.GetClientByID(db, s.clientId, faults.clientLookup);
        if client.Failure? then Some(StoreError(client.error))
        else None
  }

  /** Inserting a sale of a vehicle no sale references keeps sales.vehicle_id unique. */
  lemma InsertKeepsUnique(sales: map<int, Sale>, s: Sale)
    requires UniqueVehicleRefs(sales) && !HasSaleFor(sales, s.vehicleId) && s.id !in sales
    ensures UniqueVehicleRefs(sales[s.id := s])
  {
  }

  /**
   * `(s *Sale) Save()`.  After the checks it stamps the sale with `now`,
   * inserts it and takes the generated id, then marks the vehicle "sold".
   * The insert and the status update are separate statements: when the
   * update fails, the error is returned but the sale stays stored and the
   * vehicle keeps its status.
   */
  method Save(db: Store, s: Sale, now: int, faults: SaveFaults) returns (saved: Sale, err: Option<SaveError>)
    requires db.Valid()
    modifies db`sales, db`nextSaleId, db`vehicles
    ensures db.Valid()
    // a failing check: the error it names, and no write at all
    ensures old(Checks(db, s, faults)).Some? ==>
      && err == old(Checks(db, s, faults)) && saved == s
      && db.sales == old(db.sales) && db.nextSaleId == old(db.nextSaleId) && db.vehicles == old(db.vehicles)
    // the checks pass but the insert fails: the date is stamped, nothing is written
    ensures old(Checks(db, s, faults)).None? && faults.insert.Some? ==>
      && err == Some(StoreError(ServerError(faults.insert.value))) && saved == s.(saleDate := now)
      && db.sales == old(db.sales) && db.nextSaleId == old(db.nextSaleId) && db.vehicles == old(db.vehicles)
    // the insert succeeds: exactly one new sale, under the generated id
    ensures old(Checks(db, s, faults)).None? && faults.insert.None? ==>
      && saved == s.(id := old(db.nextSaleId), saleDate := now)
      && saved.id !in old(db.sales)
      && db.sales == old(db.sales)[saved.id := saved]
      && db.nextSaleId == old(db.nextSaleId) + 1
    // ... then the status update: on success the vehicle alone becomes "sold"
    ensures old(Checks(db, s, faults)).None? && faults.insert.None? && faults.update.None? ==>
      && err == None
      && s.vehicleId in old(db.vehicles)
      && db.vehicles == old(db.vehicles)[s.vehicleId := old(db.vehicles)[s.vehicleId].(status := SoldStatus)]
    // ... on failure the error, the sale kept and the vehicle not marked (no rollback)
    ensures old(Checks(db, s, faults)).None? && faults.insert.None? && faults.update.Some? ==>
      && err == Some(StoreError(ServerError(faults.update.value)))
      && db.vehicles == old(db.vehicles)
  {
    saved := s;
    // SELECT id FROM sales WHERE vehicle_id = $1
    if faults.probe.Some? {
      return saved, Some(StoreError(ServerError(faults.probe.value)));
    }
    if HasSaleFor(db.sales, s.vehicleId) {
      return saved, Some(VehicleAlreadySold(s.vehicleId));
    }
    var vehicle := VehicleModel.GetVehicleByID(db, s.vehicleId, faults.vehicleLookup);
    if vehicle.Failure? {
      return saved, Some(StoreError(vehicle.error));
    }
    if vehicle.value.status == SoldStatus {
      return saved, Some(VehicleAlreadySold(s.vehicleId));
    }
    var client := ClientModel.GetClientByID(db, s.clientId, faults.clientLookup);
    if client.Failure? {
      return saved, Some(StoreError(client.error));
    }
    saved := saved.(saleDate := now);
    // INSERT INTO sales (...) VALUES ($1, $2, $3, $4) RETURNING id
    if faults.insert.Some? {
      return saved, Some(StoreError(ServerError(faults.insert.value)));
    }
    saved := saved.(id := db.nextSaleId);
    InsertKeepsUnique(db.sales, saved);
    db.sales := db.sales[saved.id := saved];
    db.nextSaleId := db.nextSaleId + 1;
    // UPDATE vehicles SET status = 'sold' WHERE id = $1
    if faults.update.Some? {
      return saved, Some(StoreError(ServerError(faults.update.value)));
    }
    if s.vehicleId in db.vehicles {
      db.vehicles := db.vehicles[s.vehicleId := db.vehicles[s.vehicleId].(status := SoldStatus)];
    }
    err := None;
  }

  /**
   * Selling the same vehicle twice: the first sale succeeds, and the second
   * one is refused and writes nothing, even though its client and price
   * differ.
   */
  method SellTwice(db: Store, first: Sale, second: Sale, now: int, faults: SaveFaults, later: SaveFaults)
    returns (err1: Option<SaveError>, err2: Option<SaveError>)
    requires db.Valid() && second.vehicleId == first.vehicleId
    requires Checks(db, first, faults) == None && faults.insert.None? && later.probe.None?
    modifies db`sales, db`nextSaleId, db`vehicles
    ensures db.Valid()
    ensures err2 == Some(VehicleAlreadySold(first.vehicleId))
    // only the first sale is written
    ensures db.sales == old(db.sales)[old(db.nextSaleId) := first.(id := old(db.nextSaleId), saleDate := now)]
    ensures db.nextSaleId == old(db.nextSaleId) + 1
    ensures first.vehicleId in old(db.vehicles)
    ensures faults.update.None? ==>
      db.vehicles == old(db.vehicles)[first.vehicleId := old(db.vehicles)[first.vehicleId].(status := SoldStatus)]
    ensures faults.update.Some? ==> db.vehicles == old(db.vehicles)
  {
    var saved;
    saved, err1 := Save(db, first, now, faults);
    assert db.sales[saved.id].vehicleId == second.vehicleId;
    var saved2;
    saved2, err2 := Save(db, second, now, later);
  }

  /**
   * "sold" is not a permanent property of a vehicle: after a successful sale
   * the vehicle is "sold", and a later `UpdateVehicle` of the whole row can
   * give it any other status.  The stored sale still blocks a new sale of
   * the vehicle, through the probe rather than the status.
   */
  method SoldCanBeReset(db: Store, s: Sale, now: int, faults: SaveFaults, other: Vehicle, later: SaveFaults)
    returns (statusAfterSale: string, statusAfterUpdate: string, resale: Option<SaveError>)
    requires db.Valid()
    requires Checks(db, s, faults) == None && faults.insert.None? && faults.update.None?
    requires other.id == s.vehicleId && other.status != SoldStatus && later.probe.None?
    modifies db`sales, db`nextSaleId, db`vehicles
    ensures statusAfterSale == SoldStatus
    ensures statusAfterUpdate == other.status && statusAfterUpdate != SoldStatus
    ensures resale == Some(VehicleAlreadySold(s.vehicleId))
  {
    var saved, err := Save(db, s, now, faults);
    statusAfterSale := db.vehicles[s.vehicleId].status;
    var updateErr := VehicleModel.UpdateVehicle(db, other, None);
    statusAfterUpdate := db.vehicles[s.vehicleId].status;
    assert db.sales[saved.id].vehicleId == s.vehicleId;
    var saved2;
    saved2, resale := Save(db, s, now, later);
  }

  // ---------------------------------------------------------------- read projections

  /** Whether the inner join finds the sale's client and vehicle. */
  predicate Joinable(s: Sale, clients: map<int, Client>, vehicles: map<int, Vehicle>) {
    s.clientId in clients && s.vehicleId in vehicles
  }

  /** The joined record of a sale. */
  function Detail(s: Sale, clients: map<int, Client>, vehicles: map<int, Vehicle>): (d: SaleWithDetails)
    requires Joinable(s, clients, vehicles)
    ensures d.id == s.id && d.price == s.price && d.saleDate == s.saleDate
    ensures d.client == clients[s.clientId] && d.vehicle == vehicles[s.vehicleId]
  {
    SaleWithDetails(s.id, s.price, s.saleDate, clients[s.clientId], vehicles[s.vehicleId])
  }

  /**
   * `FROM sales s JOIN clients c ON s.client_id = c.id JOIN vehicles v ON
   * s.vehicle_id = v.id`: each sale that finds both partners, in the order
   * of `rows`.
   */
  function JoinRows(rows: seq<Sale>, clients: map<int, Client>, vehicles: map<int, Vehicle>): seq<SaleWithDetails>
  {
    if rows == [] then []
    else
      (if Joinable(rows[0], clients, vehicles) then [Detail(rows[0], clients, vehicles)] else [])
      + JoinRows(rows[1..], clients, vehicles)
  }

  /** The join holds exactly the joined records of the sales that find both partners. */
  lemma {:induction false} JoinRowsMembers(rows: seq<Sale>, clients: map<int, Client>, vehicles: map<int, Vehicle>, d: SaleWithDetails)
    ensures d in JoinRows(rows, clients, vehicles) <==>
      exists s :: s in rows && Joinable(s, clients, vehicles) && d == Detail(s, clients, vehicles)
  {
    if rows != [] {
      JoinRowsMembers(rows[1..], clients, vehicles, d);
      if d in JoinRows(rows[1..], clients, vehicles) {
        var s :| s in rows[1..] && Joinable(s, clients, vehicles) && d == Detail(s, clients, vehicles);
        assert s in rows;
      }
      forall s | s in rows && Joinable(s, clients, vehicles) && d == Detail(s, clients, vehicles)
        ensures d in JoinRows(rows, clients, vehicles)
      {
        if s != rows[0] {
          assert s in rows[1..];
        }
      }
    }
  }

  /** Over sales in strictly ascending id order, the join holds each record at most once. */
  lemma {:induction false} JoinRowsOnce(rows: seq<Sale>, clients: map<int, Client>, vehicles: map<int, Vehicle>)
    requires forall i, j :: 0 <= i < j < |rows| ==> rows[i].id < rows[j].id
    ensures forall d :: multiset(JoinRows(rows, clients, vehicles))[d] <= 1
  {
    if rows != [] {
      var rest := rows[1..];
      JoinRowsOnce(rest, clients, vehicles);
      if Joinable(rows[0], clients, vehicles) {
        var d0 := Detail(rows[0], clients, vehicles);
        forall s | s in rest ensures s.id > rows[0].id {
          var k :| 0 <= k < |rest| && rest[k] == s;
          assert rows[k + 1] == s;
        }
        JoinRowsMembers(rest, clients, vehicles, d0);
        assert d0 !in JoinRows(rest, clients, vehicles);
      }
    }
  }

  /** Dates never increase along `xs`. */
  predicate NonIncreasing(xs: seq<SaleWithDetails>) {
    forall i, j :: 0 <= i < j < |xs| ==> xs[i].saleDate >= xs[j].saleDate
  }

  /** Inserts `x` into a list of non-increasing dates, ahead of the records it ties with. */
  function InsertByDate(x: SaleWithDetails, sorted: seq<SaleWithDetails>): (r: seq<SaleWithDetails>)
    requires NonIncreasing(sorted)
    ensures NonIncreasing(r)
    ensures multiset(r) == multiset(sorted) + multiset{x}
    ensures |r| == |sorted| + 1
    ensures r[0] == x || (sorted != [] && r[0] == sorted[0])
  {
    if sorted == [] || x.saleDate >= sorted[0].saleDate then [x] + sorted
    else
      var rest := InsertByDate(x, sorted[1..]);
      assert sorted == [sorted[0]] + sorted[1..];
      [sorted[0]] + rest
  }

  /**
   * `ORDER BY s.sale_date DESC`.  Records with equal dates keep the order
   * of `xs` (a stable insertion sort); PostgreSQL leaves that order open,
   * so this is one of the orders it may produce.
   */
  function SortByDateDesc(xs: seq<SaleWithDetails>): (r: seq<SaleWithDetails>)
    ensures NonIncreasing(r)
    ensures multiset(r) == multiset(xs)
  {
    if xs == [] then []
    else
      assert xs == [xs[0]] + xs[1..];
      InsertByDate(xs[0], SortByDateDesc(xs[1..]))
  }

  /** What the joined listing query returns on the store. */
  function SalesView(db: Store): seq<SaleWithDetails>
    reads db
  {
    SortByDateDesc(JoinRows(Scan(db.sales, db.nextSaleId), db.clients, db.vehicles))
  }

  /**
   * On a valid store a record is in the listing exactly when it is the
   * joined record of the stored sale with its id, and that sale's client
   * and vehicle exist; the listing's dates never increase.
   */
  lemma SalesViewMeaning(db: Store, d: SaleWithDetails)
    requires db.Valid()
    ensures NonIncreasing(SalesView(db))
    ensures d in SalesView(db) <==>
      d.id in db.sales && Joinable(db.sales[d.id], db.clients, db.vehicles)
      && d == Detail(db.sales[d.id], db.clients, db.vehicles)
  {
    var rows := Scan(db.sales, db.nextSaleId);
    var joined := JoinRows(rows, db.clients, db.vehicles);
    assert d in SalesView(db) <==> d in joined by {
      assert d in multiset(SalesView(db)) <==> d in multiset(joined);
    }
    JoinRowsMembers(rows, db.clients, db.vehicles, d);
    if d in joined {
      var s :| s in rows && Joinable(s, db.clients, db.vehicles) && d == Detail(s, db.clients, db.vehicles);
      ScanMembers(db.sales, db.nextSaleId, s);
    }
    if d.id in db.sales && Joinable(db.sales[d.id], db.clients, db.vehicles)
      && d == Detail(db.sales[d.id], db.clients, db.vehicles)
    {
      ScanMembers(db.sales, db.nextSaleId, db.sales[d.id]);
      assert db.sales[d.id] in rows;
    }
  }

  /** On a valid store the listing holds every record at most once. */
  lemma SalesViewOnce(db: Store)
    requires db.Valid()
    ensures forall d :: multiset(SalesView(db))[d] <= 1
  {
    var rows := Scan(db.sales, db.nextSaleId);
    ScanAscending(db.sales, db.nextSaleId, (s: Sale) => s.id);
    JoinRowsOnce(rows, db.clients, db.vehicles);
  }

  /**
   * `GetAllSales()`: the joined listing, newest first.  A failing query or a
   * failing row scan gives no sales, only the error; a failing fetch gives
   * the newest sales read before it, with no error.
   */
  method GetAllSales(db: Store, queryFault: Fault, scanFault: Option<RowFault>)
    returns (sales: seq<SaleWithDetails>, err: Option<DbError>)
    ensures queryFault.Some? ==> sales == [] && err == Some(ServerError(queryFault.value))
    ensures queryFault.None? && ScanFails(scanFault, |SalesView(db)|) ==>
      sales == [] && err == Some(ServerError(scanFault.value.code))
    ensures queryFault.None? && !ScanFails(scanFault, |SalesView(db)|) ==>
      sales == Delivered(SalesView(db), scanFault) && NonIncreasing(sales) && err == None
  {
    if queryFault.Some? {
      return [], Some(ServerError(queryFault.value));
    }
    sales, err := Collect(SalesView(db), scanFault);
    if err.Some? {
      sales := [];
    }
  }

  /**
   * `GetSaleByID(id)`: the joined record of the sale with that id;
   * sql.ErrNoRows when there is no such sale or the join drops it.
   */
  function GetSaleByID(db: Store, id: int, fault: Fault): (r: Result<SaleWithDetails, DbError>)
    reads db
    ensures r.Success? <==> fault.None? && id in db.sales && Joinable(db.sales[id], db.clients, db.vehicles)
    ensures r.Success? ==> r.value == Detail(db.sales[id], db.clients, db.vehicles)
    ensures db.Valid() && r.Success? ==> r.value.id == id
    ensures fault.None? && !(id in db.sales && Joinable(db.sales[id], db.clients, db.vehicles)) ==> r == Failure(ErrNoRows)
    ensures fault.Some? ==> r == Failure(ServerError(fault.value))
  {
    if fault.Some? then Failure(ServerError(fault.value))
    else if id in db.sales && Joinable(db.sales[id], db.clients, db.vehicles) then
      Success(Detail(db.sales[id], db.clients, db.vehicles))
    else Failure(ErrNoRows)
  }

  /** The point lookup finds a record exactly when the listing holds it. */
  lemma LookupAgreesWithListing(db: Store, id: int, d: SaleWithDetails)
    requires db.Valid()
    ensures GetSaleByID(db, id, None) == Success(d) <==> d in SalesView(db) && d.id == id
  {
    SalesViewMeaning(db, d);
  }
}
