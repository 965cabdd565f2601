/** `GET /cart` (src/cart/get.rs): every cart, without items. */
module CartGet {
  import opened Wrappers
  import opened Server
  import opened Store
  import opened AppError

  /** The payload: the carts alone; the type has no room for items. */
  datatype ListCartsResponse = ListCartsResponse(carts: seq<Cart>)

  /** `list_carts`: `SELECT id, creation_date, name FROM Cart`, one entry per row. */
  function ListCarts(db: Database, fault: Fault): (r: ServerResponseResult<ListCartsResponse>)
    reads db
    ensures r.Ok? <==> fault.None?
    ensures fault.Some? ==> r == Err(From(Failure(fault.value)))
    ensures r.Ok? ==> r.value.value.statusCode == OK && r.value.value.message == SuccessMessage
    ensures r.Ok? ==> |r.value.value.data.carts| == |db.carts|
    ensures r.Ok? ==> forall k :: 0 <= k < |db.carts| ==> r.value.value.data.carts[k] == db.carts[k]
    ensures fault.None? && db.carts == [] ==> r.Ok? && r.value.value.data.carts == []
  {
    if fault.Some? then Err(From(Failure(fault.value)))
    else Ok(ToJson(Success(ListCartsResponse(db.carts))))
  }
}
