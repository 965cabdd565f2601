/**
 * `DELETE /cart/:cart_id` (src/cart/_id/delete.rs): delete the cart's items,
 * then the cart row, which must exist. The steps are separate statements: when
 * the cart row is missing, the item step has already run.
 */
module CartIdDelete {
  import opened Wrappers
  import opened Server
  import opened Store
  import opened AppError

  /**
   * `delete_cart`. `itemsFault` and `cartFault` decide whether the two
   * statements fail for reasons outside the model.
   */
  method DeleteCart(db: Database, cartId: int, itemsFault: Fault, cartFault: Fault)
    returns (r: ServerResponseResult<bool>)
    requires db.Valid()
    modifies db
    ensures db.Valid()
    ensures old(db.Referential()) ==> db.Referential()
    // the item step fails: nothing changes
    ensures itemsFault.Some? ==> r == Err(From(Failure(itemsFault.value)))
    ensures itemsFault.Some? ==> db.carts == old(db.carts) && db.items == old(db.items)
    // otherwise the cart's items are gone, whatever the cart step does
    ensures itemsFault.None? ==> db.items == ItemsNotOf(old(db.items), cartId)
    ensures itemsFault.None? && cartFault.Some? ==> r == Err(From(Failure(cartFault.value))) && db.carts == old(db.carts)
    // no such cart: `fetch_one` finds no row
    ensures itemsFault.None? && cartFault.None? && cartId !in CartIds(old(db.carts)) ==>
      r == Err(From(RowNotFound)) && db.carts == old(db.carts)
    ensures itemsFault.None? && cartFault.None? && cartId in CartIds(old(db.carts)) ==>
      r == Ok(ToJson(Success(true))) && db.carts == CartsWithout(old(db.carts), cartId)
    // success: neither the cart nor any of its items remains; other rows are untouched
    ensures r.Ok? ==> r.value.value.data == true && r.value.value.statusCode == OK
    ensures r.Ok? ==> cartId !in CartIds(db.carts) && forall it :: it in db.items ==> it.cartId != cartId
    ensures r.Ok? ==> forall c :: c in old(db.carts) && c.id != cartId ==> c in db.carts
    ensures forall it :: it in old(db.items) && it.cartId != cartId ==> it in db.items
  {
    var itemsGone := db.DeleteItemsOfCart(cartId, itemsFault);
    if itemsGone.Err? {
      return Err(From(itemsGone.error));
    }
    var cartGone := db.DeleteCartReturningId(cartId, cartFault);
    if cartGone.Err? {
      return Err(From(cartGone.error));
    }
    r := Ok(ToJson(Success(true)));
  }
}
