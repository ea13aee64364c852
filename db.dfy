/**
 * The relational store behind the dealership backend: the three tables
 * created in db/db.go (vehicles, clients, sales), each with a SERIAL
 * primary key, modelled as maps from id to row plus the next value of each
 * id sequence.  Failures of the database server or driver are not decided
 * here: every statement receives a `Fault` that says whether it fails.
 */
module Db {
  import opened Results

  /** A row of the vehicles table; `status` is free text ("available", "sold", ...). */
  datatype Vehicle = Vehicle(
    id: int, vehicleType: string, brand: string, model: string, year: int, motor: string, status: string)

  /** A row of the clients table (phone is a BIGINT). */
  datatype Client = Client(id: int, name: string, email: string, phone: int)

  /**
   * A row of the sales table.  `price` is carried and never computed with;
   * `saleDate` is a timestamp given as an integer instant.
   */
  datatype Sale = Sale(id: int, clientId: int, vehicleId: int, price: real, saleDate: int)

  /**
   * What a statement can report: `ErrNoRows` (database/sql's sql.ErrNoRows,
   * a point query that found nothing), a query text the engine cannot read,
   * a bind message whose parameter count does not match the statement, or
   * any other failure of the server or driver, identified by a code.
   */
  datatype DbError = ErrNoRows | SyntaxError | BindMismatch | ServerError(code: nat)

  /** `Some(code)` when the statement fails with `ServerError(code)`, `None` when it runs. */
  type Fault = Option<nat>

  /**
   * What can go wrong while reading row number `row` (0-based) of a result
   * set: `rows.Scan` fails with `ServerError(code)`, or `rows.Next()` stops
   * early because fetching the row failed (a failure only `rows.Err()`
   * would report).
   */
  datatype RowFault = ScanError(row: nat, code: nat) | FetchStop(row: nat)

  /** Whether a scan failure hits a result set of `count` rows. */
  predicate ScanFails(fault: Option<RowFault>, count: nat) {
    fault.Some? && fault.value.ScanError? && fault.value.row < count
  }

  /** Whether a fetch failure cuts a result set of `count` rows short. */
  predicate StopsEarly(fault: Option<RowFault>, count: nat) {
    fault.Some? && fault.value.FetchStop? && fault.value.row < count
  }

  /**
   * The rows a `for rows.Next()` loop that never asks `rows.Err()` hands
   * back as a complete, error-free result: everything before the fetch
   * failure, or all of `rows` when none hits.
   */
  function Delivered<T>(rows: seq<T>, fault: Option<RowFault>): (d: seq<T>)
    ensures d <= rows
    ensures |d| < |rows| <==> StopsEarly(fault, |rows|)
    ensures StopsEarly(fault, |rows|) ==> |d| == fault.value.row
  {
    if StopsEarly(fault, |rows|) then rows[..fault.value.row] else rows
  }

  /** Whether some sale references the vehicle `vehicleId`. */
  predicate HasSaleFor(sales: map<int, Sale>, vehicleId: int) {
    exists k :: k in sales && sales[k].vehicleId == vehicleId
  }

  /** The UNIQUE constraint on sales.vehicle_id (db/db.go:66). */
  predicate UniqueVehicleRefs(sales: map<int, Sale>) {
    forall a, b :: a in sales && b in sales && sales[a].vehicleId == sales[b].vehicleId ==> a == b
  }

  class Store {
    var vehicles: map<int, Vehicle>
    var clients: map<int, Client>
    var sales: map<int, Sale>
    // the next value each SERIAL sequence hands out
    var nextVehicleId: int
    var nextClientId: int
    var nextSaleId: int

    /**
     * Each row is stored under its own id, every id was handed out by its
     * sequence (so ids are positive and below the sequence's next value),
     * and no two sales reference the same vehicle.
     */
    ghost predicate Valid()
      reads this
    {
      && 1 <= nextVehicleId && 1 <= nextClientId && 1 <= nextSaleId
      && (forall k :: k in vehicles ==> vehicles[k].id == k && 1 <= k < nextVehicleId)
      && (forall k :: k in clients ==> clients[k].id == k && 1 <= k < nextClientId)
      && (forall k :: k in sales ==> sales[k].id == k && 1 <= k < nextSaleId)
      && UniqueVehicleRefs(sales)
    }

    /** The freshly created schema: three empty tables. */
    constructor ()
      ensures Valid()
      ensures vehicles == map[] && clients == map[] && sales == map[]
      ensures nextVehicleId == 1 && nextClientId == 1 && nextSaleId == 1
    {
      vehicles, clients, sales := map[], map[], map[];
      nextVehicleId, nextClientId, nextSaleId := 1, 1, 1;
    }
  }

  /**
   * The rows of a table as a `SELECT` without ORDER BY returns them: ids
   * 0 .. n-1 ascending, skipping ids that are not in the table.  The
   * source leaves this order to the database; ascending ids is one order
   * it may produce.
   */
  function Scan<T>(table: map<int, T>, n: int): (rows: seq<T>)
    ensures |rows| <= if n <= 0 then 0 else n
    ensures forall x :: x in rows ==> exists k :: 0 <= k < n && k in table && table[k] == x
    decreases n
  {
    if n <= 0 then []
    else
      var prev := Scan(table, n - 1);
      var last := if n - 1 in table then [table[n - 1]] else [];
      assert forall x :: x in prev + last ==> x in prev || x in last;
      prev + last
  }

  /** A scan returns exactly the rows whose ids lie below `n`. */
  lemma {:induction false} ScanMembers<T>(table: map<int, T>, n: int, x: T)
    ensures x in Scan(table, n) <==> exists k :: 0 <= k < n && k in table && table[k] == x
    decreases n
  {
    if n > 0 {
      ScanMembers(table, n - 1, x);
      if n - 1 in table && table[n - 1] == x {
        assert x in Scan(table, n);
      }
    }
  }

  /** A scan returns one row per stored id below `n`. */
  lemma {:induction false} ScanCount<T>(table: map<int, T>, n: int)
    ensures |Scan(table, n)| == |set k | 0 <= k < n && k in table|
    decreases n
  {
    if n > 0 {
      ScanCount(table, n - 1);
      var below := set k | 0 <= k < n - 1 && k in table;
      if n - 1 in table {
        assert (set k | 0 <= k < n && k in table) == below + {n - 1};
        assert n - 1 !in below;
      } else {
        assert (set k | 0 <= k < n && k in table) == below;
      }
    } else {
      assert (set k | 0 <= k < n && k in table) == {};
    }
  }

  /** When every id of the table lies below `n`, the scan returns each row of the table once. */
  lemma ScanAll<T>(table: map<int, T>, n: int)
    requires forall k :: k in table ==> 0 <= k < n
    ensures |Scan(table, n)| == |table|
  {
    ScanCount(table, n);
    assert (set k | 0 <= k < n && k in table) == table.Keys;
  }

  /**
   * When each row carries its own id as `key`, the scan returns rows in
   * strictly ascending key order, so no row comes back twice.
   */
  lemma {:induction false} ScanAscending<T>(table: map<int, T>, n: int, key: T -> int)
    requires forall k :: k in table ==> key(table[k]) == k
    ensures forall i, j :: 0 <= i < j < |Scan(table, n)| ==> key(Scan(table, n)[i]) < key(Scan(table, n)[j])
    decreases n
  {
    if n > 0 {
      ScanAscending(table, n - 1, key);
      var prev := Scan(table, n - 1);
      forall i | 0 <= i < |prev| ensures key(prev[i]) < n - 1 {
        ScanMembers(table, n - 1, prev[i]);
      }
    }
  }

  /**
   * The driver's `for rows.Next() { rows.Scan(...); ... }` loop: rows are
   * read in order until a scan fails, and what was read before the failure
   * is returned together with the error; a fetch failure just ends the
   * loop, so the rows read so far come back with no error at all.
   */
  method Collect<T>(rows: seq<T>, scanFault: Option<RowFault>) returns (read: seq<T>, err: Option<DbError>)
    ensures ScanFails(scanFault, |rows|) ==>
      read == rows[..scanFault.value.row] && err == Some(ServerError(scanFault.value.code))
    ensures !ScanFails(scanFault, |rows|) ==> read == Delivered(rows, scanFault) && err == None
  {
    read := [];
    var i := 0;
    while i < |rows|
      invariant 0 <= i <= |rows|
      invariant read == rows[..i]
      invariant scanFault.Some? ==> i <= scanFault.value.row
    {
      if scanFault.Some? && scanFault.value.row == i {
        if scanFault.value.ScanError? {
          return read, Some(ServerError(scanFault.value.code));
        }
        return read, None;
      }
      read := read + [rows[i]];
      i := i + 1;
    }
    assert rows[..i] == rows;
    err := None;
  }
}
