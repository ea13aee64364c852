/** The clients table operations of models/client.go. */
module ClientModel {
  import opened Results
  import opened Db

  /**
   * `(c *Client) Save()`: inserts name, email and phone and gives the
   * caller's struct the id the sequence hands out.
   */
  method Save(db: Store, c: Client, fault: Fault) returns (saved: Client, err: Option<DbError>)
    requires db.Valid()
    modifies db`clients, db`nextClientId
    ensures db.Valid()
    ensures fault.Some? ==>
      && err == Some(ServerError(fault.value)) && saved == c
      && db.clients == old(db.clients) && db.nextClientId == old(db.nextClientId)
    ensures fault.None? ==>
      && err == None
      && saved == c.(id := old(db.nextClientId))
      && saved.id !in old(db.clients)
      && db.clients == old(db.clients)[saved.id := saved]
      && db.nextClientId == old(db.nextClientId) + 1
  {
    if fault.Some? {
      return c, Some(ServerError(fault.value));
    }
    saved := c.(id := db.nextClientId);
    db.clients := db.clients[saved.id := saved];
    db.nextClientId := db.nextClientId + 1;
    err := None;
  }

  /**
   * `GetAllClients()`: SELECT * FROM clients.  Unlike the vehicle listing,
   * a failing row scan returns the clients read so far together with the
   * error; a failing fetch returns them with no error.
   */
  method GetAllClients(db: Store, queryFault: Fault, scanFault: Option<RowFault>)
    returns (clients: seq<Client>, err: Option<DbError>)
    ensures var rows := Scan(db.clients, db.nextClientId);
      && (queryFault.Some? ==> clients == [] && err == Some(ServerError(queryFault.value)))
      && (queryFault.None? && ScanFails(scanFault, |rows|) ==>
            clients == rows[..scanFault.value.row] && err == Some(ServerError(scanFault.value.code)))
      && (queryFault.None? && !ScanFails(scanFault, |rows|) ==> clients == Delivered(rows, scanFault) && err == None)
  {
    if queryFault.Some? {
      return [], Some(ServerError(queryFault.value));
    }
    clients, err := Collect(Scan(db.clients, db.nextClientId), scanFault);
  }

  /** Every client returned before a scan failure is a stored client. */
  lemma PartialListingIsStored(db: Store, k: nat, c: Client)
    requires db.Valid()
    requires k <= |Scan(db.clients, db.nextClientId)|
    requires c in Scan(db.clients, db.nextClientId)[..k]
    ensures c.id in db.clients && db.clients[c.id] == c
  {
    ScanMembers(db.clients, db.nextClientId, c);
  }

  /**
   * In a valid store the full listing returns every stored client exactly
   * once: as many rows as the table holds, in strictly ascending id order.
   */
  lemma ListingOncePerRow(db: Store)
    requires db.Valid()
    ensures |Scan(db.clients, db.nextClientId)| == |db.clients|
    ensures var rows := Scan(db.clients, db.nextClientId);
      forall i, j :: 0 <= i < j < |rows| ==> rows[i].id < rows[j].id
  {
    ScanAll(db.clients, db.nextClientId);
    ScanAscending(db.clients, db.nextClientId, (c: Client) => c.id);
  }

  /** `GetClientByID(id)`: the row with that id, sql.ErrNoRows when there is none. */
  function GetClientByID(db: Store, id: int, fault: Fault): (r: Result<Client, DbError>)
    reads db
    ensures r.Success? <==> fault.None? && id in db.clients
    ensures r.Success? ==> r.value == db.clients[id]
    ensures db.Valid() && r.Success? ==> r.value.id == id
    ensures fault.None? && id !in db.clients ==> r == Failure(ErrNoRows)
    ensures fault.Some? ==> r == Failure(ServerError(fault.value))
  {
    if fault.Some? then Failure(ServerError(fault.value))
    else if id in db.clients then Success(db.clients[id])
    else Failure(ErrNoRows)
  }

  /** The point lookup and the full listing agree on every row of a valid store. */
  lemma LookupAgreesWithListing(db: Store, id: int, c: Client)
    requires db.Valid()
    ensures GetClientByID(db, id, None) == Success(c) <==> c in Scan(db.clients, db.nextClientId) && c.id == id
  {
    ScanMembers(db.clients, db.nextClientId, c);
    if c.id in db.clients && db.clients[c.id] == c {
      assert 0 <= c.id < db.nextClientId;
    }
  }

  /**
   * `(c *Client) Update()`: name, email and phone of the row whose id is
   * `c.id` are overwritten; no other row changes.
   */
  method Update(db: Store, c: Client, fault: Fault) returns (err: Option<DbError>)
    requires db.Valid()
    modifies db`clients
    ensures db.Valid()
    ensures fault.Some? ==> err == Some(ServerError(fault.value)) && db.clients == old(db.clients)
    ensures fault.None? ==> err == None
    ensures fault.None? && c.id in old(db.clients) ==> db.clients == old(db.clients)[c.id := c]
    ensures fault.None? && c.id !in old(db.clients) ==> db.clients == old(db.clients)
  {
    if fault.Some? {
      return Some(ServerError(fault.value));
    }
    if c.id in db.clients {
      db.clients := db.clients[c.id := c];
    }
    err := None;
  }

  /** `(c *Client) Delete()`: removes the row whose id is `c.id`, if any. */
  method Delete(db: Store, c: Client, fault: Fault) returns (err: Option<DbError>)
    requires db.Valid()
    modifies db`clients
    ensures db.Valid()
    ensures fault.Some? ==> err == Some(ServerError(fault.value)) && db.clients == old(db.clients)
    ensures fault.None? ==> err == None && db.clients == old(db.clients) - {c.id}
  {
    if fault.Some? {
      return Some(ServerError(fault.value));
    }
    db.clients := db.clients - {c.id};
    err := None;
  }
}
