/** `GET /cart/:cart_id` (src/cart/_id/get.rs): one cart and a reduced view of its items. */
module CartIdGet {
  import opened Wrappers
  import opened Server
  import opened Store
  import opened AppError

  /** The item view this endpoint exposes: no `is_cold`, `cart_id` or `creation_date`. */
  datatype CartItem = CartItem(
    id: int, section: string, corridor: int, shelf: int, subshelf: Option<int>, photo: string)

  datatype GetCartResponse = GetCartResponse(cart: Cart, items: seq<CartItem>)

  /** The columns `SELECT id, section, corridor, shelf, subshelf, photo` reads of a row. */
  function View(it: Item): (v: CartItem)
    ensures v.id == it.id && v.section == it.section && v.corridor == it.corridor
    ensures v.shelf == it.shelf && v.subshelf == it.subshelf && v.photo == it.photo
  {
    CartItem(it.id, it.section, it.corridor, it.shelf, it.subshelf, it.photo)
  }

  function Views(items: seq<Item>): (vs: seq<CartItem>)
    ensures |vs| == |items|
    ensures forall k :: 0 <= k < |items| ==> vs[k] == View(items[k])
  {
    seq(|items|, k requires 0 <= k < |items| => View(items[k]))
  }

  /**
   * `get_cart`: the cart row read with `fetch_one` (so a missing cart is an
   * error), then every item row of that cart (so no items is a success).
   */
  function GetCart(db: Database, cartId: int, cartFault: Fault, itemsFault: Fault): (r: ServerResponseResult<GetCartResponse>)
    reads db
    ensures r.Ok? <==> cartFault.None? && cartId in CartIds(db.carts) && itemsFault.None?
    ensures cartFault.Some? ==> r == Err(From(Failure(cartFault.value)))
    ensures cartFault.None? && cartId !in CartIds(db.carts) ==> r == Err(From(RowNotFound))
    ensures cartFault.None? && cartId in CartIds(db.carts) && itemsFault.Some? ==> r == Err(From(Failure(itemsFault.value)))
    ensures r.Ok? ==> r.value.value.statusCode == OK && r.value.value.message == SuccessMessage
    ensures r.Ok? ==> r.value.value.data.cart in db.carts && r.value.value.data.cart.id == cartId
    ensures r.Ok? ==> r.value.value.data.items == Views(ItemsOf(db.items, cartId))
    ensures r.Ok? ==> forall v :: v in r.value.value.data.items <==>
      exists it :: it in db.items && it.cartId == cartId && View(it) == v
  {
    if cartFault.Some? then Err(From(Failure(cartFault.value)))
    else match FindCart(db.carts, cartId)
      case None => Err(From(RowNotFound))
      case Some(cart) =>
        if itemsFault.Some? then Err(From(Failure(itemsFault.value)))
        else
          var items := Views(ItemsOf(db.items, cartId));
          assert forall v :: v in items <==> exists it :: it in db.items && it.cartId == cartId && View(it) == v by {
            var mine := ItemsOf(db.items, cartId);
            forall v ensures v in items <==> exists it :: it in db.items && it.cartId == cartId && View(it) == v {
              if v in items {
                var k :| 0 <= k < |items| && items[k] == v;
                assert mine[k] in mine;
              }
              if exists it :: it in db.items && it.cartId == cartId && View(it) == v {
                var it :| it in db.items && it.cartId == cartId && View(it) == v;
                assert it in mine;
                var k :| 0 <= k < |mine| && mine[k] == it;
                assert items[k] == v;
              }
            }
          }
          Ok(ToJson(Success(GetCartResponse(cart, items))))
  }
}
