/**
 * `POST /cart` (src/cart/post.rs): insert a cart, then, when items were
 * sent, insert them in one batch bound to the new cart. The two writes are
 * separate statements: a failing batch leaves the new cart behind.
 */
module CartPost {
  import opened Wrappers
  import opened Server
  import opened Store
  import opened AppError

  /** An item of the request; `is_cold` may be absent. */
  datatype CartItem = CartItem(
    section: char, corridor: Int32, shelf: Int32, subshelf: Option<Int32>,
    photo: string, isCold: Option<bool>)

  datatype PostCartBody = PostCartBody(name: string, items: seq<CartItem>)

  datatype PostCartResult = PostCartResult(cart: Cart, items: seq<Item>)

  /** The stored `is_cold` column: `unwrap_or_default` of the flag, as 1 or 0. */
  function IsColdValue(isCold: Option<bool>): (v: int)
    ensures v == 0 || v == 1
    ensures v == 1 <==> isCold == Some(true)
  {
    if isCold.GetOr(false) then 1 else 0
  }

  /** The values `push_values` binds for one request item. */
  function Bind(cartId: int, it: CartItem): (b: NewItem)
    ensures forall id: int, t: int :: StoredFrom(Stored(id, t, b), it, cartId, t)
  {
    NewItem(cartId, [it.section], it.corridor, it.shelf, SubshelfValue(it.subshelf), it.photo, IsColdValue(it.isCold))
  }

  /**
   * `row` is what the store holds for request item `it` in cart `cartId`:
   * the section as a one-character string, the other fields unchanged,
   * `is_cold` 1 exactly when it was sent as true, stamped `now`.
   */
  ghost predicate StoredFrom(row: Item, it: CartItem, cartId: int, now: int) {
    && row.cartId == cartId
    && |row.section| == 1 && row.section[0] == it.section
    && row.corridor == it.corridor && row.shelf == it.shelf
    && (row.subshelf.Some? <==> it.subshelf.Some?)
    && (it.subshelf.Some? ==> row.subshelf.value == it.subshelf.value)
    && row.photo == it.photo
    && (row.isCold == 1 <==> it.isCold == Some(true))
    && (row.isCold == 0 <==> it.isCold != Some(true))
    && row.creationDate == now
  }

  /** `after` is `before` with one new cart row appended: fresh id, the given name, stamped `now`. */
  ghost predicate OneNewCart(before: seq<Cart>, after: seq<Cart>, name: string, now: int) {
    |after| == |before| + 1 && after[..|before|] == before &&
    after[|before|].id !in CartIds(before) && after[|before|].name == name && after[|before|].creationDate == now
  }

  /**
   * `post_cart`. `cartNow` and `itemsNow` are the store's clock at the cart
   * insert and at the item batch; `cartFault` and `itemsFault` decide whether
   * the two statements fail for reasons outside the model.
   */
  method PostCart(db: Database, body: PostCartBody, cartNow: int, itemsNow: int, cartFault: Fault, itemsFault: Fault)
    returns (r: ServerResponseResult<PostCartResult>)
    requires db.Valid()
    modifies db
    ensures db.Valid()
    ensures old(db.Referential()) ==> db.Referential()
    // the cart insert fails: nothing is written and no item insert is tried
    ensures cartFault.Some? ==> r == Err(From(Failure(cartFault.value)))
    ensures cartFault.Some? ==> db.carts == old(db.carts) && db.items == old(db.items)
    // otherwise exactly one cart row is added, and it stays whatever happens next
    ensures cartFault.None? ==> OneNewCart(old(db.carts), db.carts, body.name, cartNow)
    // no items: no item insert; items: the batch either fails alone or succeeds
    ensures cartFault.None? && (body.items == [] || itemsFault.Some?) ==> db.items == old(db.items)
    ensures cartFault.None? && body.items != [] && itemsFault.Some? ==> r == Err(From(Failure(itemsFault.value)))
    ensures r.Ok? <==> cartFault.None? && (body.items == [] || itemsFault.None?)
    ensures r.Ok? ==> r.value.value.statusCode == CREATED && r.value.value.message == SuccessMessage
    ensures r.Ok? ==> db.carts == old(db.carts) + [r.value.value.data.cart]
    ensures r.Ok? ==> db.items == old(db.items) + r.value.value.data.items
    ensures r.Ok? ==> ItemIds(r.value.value.data.items) !! ItemIds(old(db.items))
    ensures r.Ok? ==> |r.value.value.data.items| == |body.items|
    ensures r.Ok? ==> forall k :: 0 <= k < |body.items| ==>
      StoredFrom(r.value.value.data.items[k], body.items[k], r.value.value.data.cart.id, itemsNow)
    ensures r.Ok? && body.items == [] ==> r.value.value.data.items == []
  {
    var inserted := db.InsertCart(body.name, cartNow, cartFault);
    if inserted.Err? {
      return Err(From(inserted.error));
    }
    var cart := inserted.value;
    var items: seq<Item> := [];
    if body.items != [] {
      var rows: seq<NewItem> := [];
      for i := 0 to |body.items|
        invariant |rows| == i
        invariant forall k :: 0 <= k < i ==> rows[k] == Bind(cart.id, body.items[k])
      {
        rows := rows + [Bind(cart.id, body.items[i])];
      }
      assert cart in db.carts;
      var batch := db.InsertItems(rows, itemsNow, itemsFault);
      if batch.Err? {
        return Err(From(batch.error));
      }
      items := batch.value;
    }
    r := Ok(ToJson(SuccessCode(PostCartResult(cart, items), CREATED)));
    assert db.carts[..|old(db.carts)|] == old(db.carts);
  }
}
