# Dealership backend: a Dafny model of its store and sale logic

This project models the data layer and handler logic of a small dealership
REST backend written in Go. The backend keeps three PostgreSQL tables:
vehicles, clients and sales.

- **The store.** It is a class `Db.Store` holding one map per table (id to
  row) and the next value of each SERIAL sequence. Its invariant `Valid()`
  says three things:
  - every row sits under its own id;
  - ids are positive and below their sequence's next value;
  - `sales.vehicle_id` is unique, the UNIQUE constraint of db/db.go:66, kept
    as a store invariant.

  Separately from `Valid()`, each table operation names in `modifies` only
  the fields it may change, so "no other table changes" is part of every
  contract.
- **Row order.** A `SELECT` without ORDER BY is modelled by `Db.Scan`, which
  returns rows in ascending id order. The program leaves that order to the
  database, so this is one order among those it allows.
- **Sale creation.** `SaleModel.Save` is the ordered state machine of
  `(s *Sale) Save()`:
  1. probe for an existing sale of the vehicle;
  2. look up the vehicle;
  3. check that its status is not "sold";
  4. look up the client;
  5. stamp the date;
  6. insert the sale and take the generated id;
  7. mark the vehicle "sold".

  Each step returns early on failure. `SaleModel.Checks` is the part before
  any write, stated as a function, and `Save`'s contract is written against
  it. The insert and the status update are two statements that are not in a
  transaction. A failed update therefore leaves the sale stored and the
  vehicle with its old status, and the model states exactly that.
- **Read projections.**
  - `GetAllSales` is the inner join of each sale with its client and
    vehicle (`JoinRows`), ordered by sale date, newest first
    (`SortByDateDesc`, a stable insertion sort).
  - `GetSaleByID` is the joined record of one sale.
  - Both agree with each other on a valid store.
- **The filter query.** `FilterQuery.BuildQuery` is the string builder of
  `GetVehiclesWithFilters`: one clause per active filter, placeholders
  numbered from `$1` by a running counter, and one argument per clause. The
  database side is modelled as well:
  - `ParseConditions` reads the built text back into conditions;
  - `Bindable` is PostgreSQL's rule that a statement takes as many
    parameters as its highest `$n`;
  - `Select` keeps the rows that satisfy every condition.

  `BuiltQueryExecutes` proves that the built query, bound to the built
  arguments, runs and returns exactly the vehicles matching every active
  filter.
- **Handlers.** `SalesRoutes` and `VehicleRoutes` map outcomes to HTTP
  statuses and bodies. JSON binding and integer parsing are modelled only as
  success or failure.

Everything outside the program's own logic is an input.
- **Database failures.** Each statement takes a `Fault` (`Some(code)` when
  it fails). A failure while reading row *k* of a result set is an
  `Option<RowFault>`: either `rows.Scan` fails (`ScanError`), or
  `rows.Next()` stops because fetching the row failed (`FetchStop`). No
  listing loop asks `rows.Err()`, so a fetch failure is returned as a
  success that holds only the rows read before it (`Db.Delivered`).
- **The clock.** It is a `now: int` parameter.
- **Request data.** Bound JSON bodies and parsed path ids are `Option`
  values. `strconv.Atoi` is a parameter `parse: string -> Option<int>`.
- **Receivers.** The Go methods' receiver structs (`s *Sale`, `v *Vehicle`,
  `c *Client`) are returned as values, because the source updates them only
  to report ids and dates back to the caller.

## Model

| member | source | states |
|---|---|---|
| Db.Store.constructor | db/db.go:32-75 | the schema starts as three empty tables whose sequences all start at 1, and the store invariant holds |
| Db.Scan | models/vehicle.go:43-44 | a select without ORDER BY returns at most n rows, each a row of the table stored under an id below n |
| Db.ScanMembers | models/client.go:35-36 | a row is returned by the scan iff it is stored under an id below the sequence's next value |
| Db.ScanCount | models/client.go:35-36 | the scan returns exactly as many rows as there are stored ids below n |
| Db.ScanAll | models/vehicle.go:43-44 | when every id of the table lies below n, the scan returns as many rows as the table holds |
| Db.ScanAscending | models/vehicle.go:43-44 | when each row carries its own id, the scan returns rows in strictly ascending id order (one of the orders the database may use), so no row twice |
| Db.Delivered | models/client.go:44-52 | what a `for rows.Next()` loop without a `rows.Err()` check returns as a success: a prefix of the rows, strictly shorter exactly when a fetch failure hits row k < count, and then exactly k rows long |
| Db.Collect | models/client.go:44-52 | the row-reading loop returns the rows in order; on a scan failure at row k it returns exactly the first k rows and that error; on a fetch failure at row k it returns the first k rows and no error; otherwise all rows and no error |
| VehicleModel.Save | models/vehicle.go:21-40 | on success the row is stored under the fresh id, the returned vehicle carries that id, and the sequence advances by one; on failure nothing is stored; the invariant is kept |
| VehicleModel.GetAllVehicles | models/vehicle.go:42-65 | the listing is the table scan (see Db.Scan for its order), cut short without an error by a fetch failure (Db.Delivered); a query or row-scan failure returns no vehicles (nil), only the error |
| VehicleModel.ListingHoldsTable | models/vehicle.go:42-65 | on a valid store, a vehicle is in the listing iff it is the row stored under its id |
| VehicleModel.ListingOncePerRow | models/vehicle.go:42-65 | on a valid store the full listing has as many rows as the table, in strictly ascending id order: each stored vehicle exactly once |
| VehicleModel.GetVehicleByID | models/vehicle.go:67-79 | success iff there is no fault and the id is stored; the result is that row and carries the requested id; a missing id gives ErrNoRows |
| VehicleModel.LookupAgreesWithListing | models/vehicle.go:42-79 | the point lookup returns v iff v is in the full listing with the requested id |
| VehicleModel.UpdateVehicle | models/vehicle.go:81-96 | the row with vehicle.id is replaced whole, status included, when it exists; no other row changes; a missing id changes nothing and is no error |
| VehicleModel.Delete | models/vehicle.go:98-110 | exactly the key vehicle.id is removed; on failure nothing changes |
| VehicleModel.GetVehiclesWithFilters | models/vehicle.go:112-152 | the result is exactly the scanned vehicles matching every active filter, in scan order, cut short without an error by a fetch failure; a query or row-scan failure gives no vehicles, only the error |
| VehicleModel.FilteredListingMeaning | models/vehicle.go:112-152 | on a valid store, v is in the filtered listing iff v is a stored row that matches every active filter |
| FilterQuery.DigitChar | models/vehicle.go:118 | a digit below ten prints as a decimal digit character of that value |
| FilterQuery.Decimal | models/vehicle.go:118 | `fmt.Sprintf("%d", n)` is a non-empty string of decimal digits |
| FilterQuery.DecimalValue | models/vehicle.go:118 | reading the printed number back gives n |
| FilterQuery.TakeDigits | models/vehicle.go:118 | the result is the longest digit-only prefix of the input: digits only, and the next character, if any, is not a digit |
| FilterQuery.TakeDigitsOf | models/vehicle.go:118 | the digits before a non-digit are read exactly |
| FilterQuery.ActiveFilters | models/vehicle.go:117-133 | the number of filters is the number of non-empty text parameters plus one for a positive year |
| FilterQuery.ActiveFiltersShape | models/vehicle.go:117-133 | no filter iff both strings are empty and year <= 0; each filter is present iff active; nothing else is present; the order is type, brand, year |
| FilterQuery.Numbered | models/vehicle.go:115-133 | clause k gets placeholder first + k: consecutive numbering |
| FilterQuery.ArgsOf | models/vehicle.go:119-131 | argument k is the value of filter k, with one argument per filter |
| FilterQuery.RenderAppend | models/vehicle.go:118-130 | rendering one more clause appends exactly its text |
| FilterQuery.NumberedAppend | models/vehicle.go:115-133 | one more filter gets the next placeholder number, and earlier numbers are unchanged |
| FilterQuery.ArgsAppend | models/vehicle.go:119-131 | one more filter appends its value to the arguments |
| FilterQuery.AppendFilter | models/vehicle.go:117-133 | one builder step extends both the text and the arguments consistently |
| FilterQuery.AppendClause | models/vehicle.go:117-121 | one `if` block of the builder: text, arguments and counter stay in step with the filters applied so far |
| FilterQuery.BuildQuery | models/vehicle.go:113-133 | the query is the base text plus one clause per active filter, numbered from $1; the arguments are those filters' values, equal in number to the clauses; with no active filter the query is exactly "SELECT * FROM vehicles WHERE 1=1" with no arguments |
| FilterQuery.ParseHead | models/vehicle.go:118-130 | a recognised clause head is a prefix of the text |
| FilterQuery.ParseHeadOf | models/vehicle.go:118-130 | each column's clause head is recognised as that column |
| FilterQuery.ParseOneClause | models/vehicle.go:118-130 | a rendered clause followed by a space or by nothing reads back as that clause |
| FilterQuery.ParseRender | models/vehicle.go:113-133 | the engine reads the rendered clauses back exactly (round trip) |
| FilterQuery.MaxOfNumbered | models/vehicle.go:115-133 | the highest placeholder of consecutive numbering from `first` is first + count - 1, and 0 when there is none |
| FilterQuery.FilterRowsMembers | models/vehicle.go:135-152 | a row is returned iff it was scanned and matches every active filter |
| FilterQuery.NoFilterKeepsAll | models/vehicle.go:113-133 | with no active filter every row is kept |
| FilterQuery.SatisfiesNumbered | models/vehicle.go:115-135 | consecutively numbered clauses, bound to aligned arguments, hold iff every filter holds |
| FilterQuery.AllHoldConcat | models/vehicle.go:117-133 | the filters of a concatenation all hold iff those of each part do |
| FilterQuery.ActiveFiltersMeaning | models/vehicle.go:117-135 | the built clauses with the built arguments hold for a vehicle iff it matches every active filter |
| FilterQuery.SelectIsFilter | models/vehicle.go:135-152 | evaluating the built clauses over rows is filtering by the parameters |
| FilterQuery.BuiltQueryExecutes | models/vehicle.go:113-152 | the built query with the built arguments parses, binds (argument count = highest placeholder), and returns exactly the scanned vehicles matching the filters |
| ClientModel.Save | models/client.go:15-32 | name, email and phone are stored under the fresh id, the returned client carries that id, and the sequence advances by one; on failure nothing is stored |
| ClientModel.GetAllClients | models/client.go:34-53 | the listing is the table scan, cut short without an error by a fetch failure; unlike vehicles, a row-scan failure returns the clients read before it together with the error |
| ClientModel.PartialListingIsStored | models/client.go:44-49 | every client returned before a scan failure is a stored row |
| ClientModel.ListingOncePerRow | models/client.go:34-53 | on a valid store the full listing has as many rows as the table, in strictly ascending id order: each stored client exactly once |
| ClientModel.GetClientByID | models/client.go:55-66 | success iff there is no fault and the id is stored; the result is that row with the requested id; a missing id gives ErrNoRows |
| ClientModel.LookupAgreesWithListing | models/client.go:34-66 | the point lookup returns c iff c is in the listing with the requested id |
| ClientModel.Update | models/client.go:68-91 | only the row with c.id is overwritten (name, email, phone), if present; no other row changes |
| ClientModel.Delete | models/client.go:93-109 | only the key c.id is removed |
| SaleModel.Checks | models/sale.go:31-62 | checks run in order: a probe error is passed through; an existing sale gives VehicleAlreadySold with the sale's vehicle id; then a vehicle error (ErrNoRows when missing); then "sold" status gives VehicleAlreadySold; then a client error (ErrNoRows when missing); all checks pass iff there is no existing sale, the vehicle is present and not "sold", and the client is present |
| SaleModel.InsertKeepsUnique | db/db.go:66 | inserting a sale for a vehicle that no sale references keeps sales.vehicle_id unique |
| SaleModel.Save | models/sale.go:28-91 | a failing check returns its error and writes nothing; an insert failure writes nothing; otherwise exactly one new sale row under the generated id, with the caller's client, vehicle and price and date `now`; then only that vehicle becomes "sold"; if the update fails the error is returned, the sale stays stored and the vehicles are unchanged; clients never change; the invariant (UNIQUE vehicle_id) is kept |
| SaleModel.SellTwice | models/sale.go:31-39 | after a successful sale, a second sale of the same vehicle is refused with VehicleAlreadySold and writes nothing: the sales table, its sequence and the vehicles table are as the first sale left them (vehicle "sold", or unchanged when the first status update failed) |
| SaleModel.SoldCanBeReset | models/vehicle.go:81-96 | after a sale the vehicle is "sold"; UpdateVehicle can then set any other status; the stored sale still blocks a resale through the probe |
| SaleModel.Detail | models/sale.go:110-123 | the joined record carries the sale's id, price and date and the client and vehicle rows it references |
| SaleModel.JoinRowsMembers | models/sale.go:94-102 | the join holds a record iff it pairs some sale with its existing client and vehicle |
| SaleModel.JoinRowsOnce | models/sale.go:94-102 | over sales in strictly ascending id order the join holds each record at most once |
| SaleModel.InsertByDate | models/sale.go:102 | insertion keeps dates non-increasing, adds exactly one element, and keeps everything else (multiset) |
| SaleModel.SortByDateDesc | models/sale.go:102 | the result is in non-increasing date order and is a permutation of the input |
| SaleModel.SalesViewMeaning | models/sale.go:93-127 | on a valid store, the listing holds d iff d is the joined record of the stored sale with d's id whose client and vehicle exist, and its dates never increase |
| SaleModel.SalesViewOnce | models/sale.go:93-127 | on a valid store the joined listing holds every record at most once |
| SaleModel.GetAllSales | models/sale.go:93-127 | success returns the joined listing, newest first, cut short without an error by a fetch failure (still newest first); a query or row-scan failure returns no sales, only the error |
| SaleModel.GetSaleByID | models/sale.go:129-155 | success iff the sale exists and its client and vehicle exist; the result is its joined record with the requested id; otherwise ErrNoRows |
| SaleModel.LookupAgreesWithListing | models/sale.go:93-155 | the point lookup returns d iff d is in the listing with the requested id |
| SalesRoutes.SaveResponse | routes/sales.go:54-72 | 201 iff Save succeeded, with the saved sale; 409 iff VehicleAlreadySold, with its vehicle_id; 500 iff any other error |
| SalesRoutes.StoreErrorsIndistinguishable | routes/sales.go:67 | every non-conflict error, a missing vehicle or client included, gives the same 500 response |
| SalesRoutes.CreateSale | routes/sales.go:40-73 | a bind failure gives 400 and Save never runs (nothing written); a failing check gives its mapped response and writes nothing; an insert failure gives 500 and writes nothing; otherwise the sale is stored under the generated id and either 201 with the vehicle marked "sold", or 500 with the vehicles unchanged when the update fails |
| SalesRoutes.GetSale | routes/sales.go:22-38 | an unparseable id gives 400 with no fetch; 200 iff the lookup succeeds, with its record; every fetch error, not-found included, gives 500 |
| SalesRoutes.GetSaleFromListing | routes/sales.go:22-38 | a 200 from getSale carries a record of the listing with the requested id |
| SalesRoutes.GetSales | routes/sales.go:12-20 | 200 iff neither the query nor a row scan fails, with the listing newest first (only its newest part when a fetch fails); otherwise 500 |
| VehicleRoutes.YearParam | routes/vehicles.go:17-25 | an empty year text is year 0; any other text is what the parser returns |
| VehicleRoutes.ChooseQuery | routes/vehicles.go:17-44 | invalid year iff the text is non-empty and does not parse; the filtered query iff the year is valid and type or brand is non-empty or the year is positive; otherwise all vehicles |
| VehicleRoutes.GetVehicles | routes/vehicles.go:12-45 | an invalid year gives 400 and no query; otherwise 200 iff neither the query nor a row scan fails, with exactly the vehicles matching the active filters (the whole table when none is active), or a prefix of them when a fetch fails, else 500 |
| VehicleRoutes.UpdateVehicle | routes/vehicles.go:91-116 | an unparseable id or body gives 400 and changes nothing; otherwise the row written is the body with its id replaced by the path id |
| VehicleRoutes.DeleteVehicle | routes/vehicles.go:118-140 | a failing or empty fetch gives 500 and deletes nothing; otherwise only the fetched id is deleted, with 200 on success and 500 on a delete failure |

## Left out

- Concurrency: the check-then-insert race between simultaneous sale
  requests is not modelled. Every operation is a single call on the store.
- Foreign keys (`REFERENCES` in db/db.go:65-66) are not modelled.
  - The store lets a vehicle or client with sales be deleted, and the join
    then drops those sales.
  - The insert cannot fail on a foreign key in the model. Its checks find
    both rows first, so that failure cannot arise within one call anyway.
- Db.Scan, VehicleModel.GetAllVehicles, ClientModel.GetAllClients,
  VehicleModel.GetVehiclesWithFilters and the join input of
  SaleModel.GetAllSales: their selects have no ORDER BY, so the program leaves
  the row order to the database, and an UPDATE may move a row. The model
  fixes ascending id order, a refinement of what the database may return.
  Which rows come back before a failing row read of GetAllClients depends on
  that order in the same way.
- SaleModel.SortByDateDesc: PostgreSQL leaves the order of sales with equal
  dates open. The model fixes one order (scan order, ids ascending), which is
  a refinement of what the database may return.
- Integer widths are not modelled: ids, years and phone numbers are
  unbounded integers, so SERIAL overflow at 2^31 - 1 and `int(vehicleId)` at
  routes/vehicles.go:107 are not modelled.
- `Price` and `SaleDate` are carried as opaque values. A real number and an
  integer instant stand for float64 and the timestamp; the source does no
  arithmetic on either, and REAL (float32) rounding in the column is not
  modelled.
- The `Prepare` and `Exec` statements of UpdateVehicle, Delete, Update and
  the client Delete are one statement each in the model, with one `Fault`.
- The cause of a fetch failure (`rows.Err()`) is not modelled: the source
  never consults it, so the model keeps only its effect, a shortened result.
- VehicleModel.Save, ClientModel.Save, SaleModel.Save, SalesRoutes.CreateSale:
  after a failed insert the model keeps the sequence's next value unchanged.
  PostgreSQL does not roll back `nextval`, so a real failed insert may use
  up an id and a later id may skip one. Consecutive ids are a refinement of
  what the database may assign.
- A nil slice and an empty slice are the same value, so JSON `null` versus
  `[]` is not distinguished.
- Logging, JSON encoding, gin's `binding:"required"` validation and
  `strconv` are either left out or reduced to success/failure inputs.
- `getVehicle` and `createVehicle` (routes/vehicles.go:47-89) are left out:
  they pass straight through to GetVehicleByID and Save with the same
  400/500 pattern as the modelled handlers.
- routes/clients.go, routes/routes.go, main.go and the connection setup in
  db/db.go are not part of this model. They are wiring and I/O.
- The commented-out duplicate types at models/sale.go:166-211 and the unused
  global `vehicles` at models/vehicle.go:19 are dead code and are left out.
