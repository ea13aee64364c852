/**
 * The responses the gin handlers write: a status code and a JSON body,
 * the body kept as the value it is serialised from.
 */
module Http {
  import opened Db
  import SaleModel

  const StatusOK := 200
  const StatusCreated := 201
  const StatusBadRequest := 400
  const StatusConflict := 409
  const StatusInternalServerError := 500

  datatype Body =
    | Message(message: string)                     // gin.H{"message": ...}
    | Conflict(message: string, vehicleId: int)    // gin.H{"message": ..., "vehicle_id": ...}
    | CreatedSale(message: string, sale: Sale)     // gin.H{"message": ..., "sale": ...}
    | SaleList(sales: seq<SaleModel.SaleWithDetails>)
    | SaleRecord(record: SaleModel.SaleWithDetails)
    | VehicleList(vehicles: seq<Vehicle>)

  datatype Response = Response(status: int, body: Body)
}
