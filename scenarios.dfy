/**
 * Properties of the handlers taken together: what one request leaves for
 * the next to see.
 */
module Scenarios {
  import opened Wrappers
  import opened Server
  import opened Store
  import opened AppError
  import CartPost
  import CartIdGet
  import CartIdPost
  import CartIdDelete

  /** What the store holds after a cart and its items were appended, read back by the cart's id. */
  lemma ReadBackAppended(carts: seq<Cart>, items: seq<Item>, cart: Cart, created: seq<Item>)
    requires cart.id !in CartIds(carts)
    requires forall it :: it in items ==> it.cartId in CartIds(carts)
    requires forall k :: 0 <= k < |created| ==> created[k].cartId == cart.id
    ensures FindCart(carts + [cart], cart.id) == Some(cart)
    ensures ItemsOf(items + created, cart.id) == created
  {
    FindCartAppended(carts, cart);
    ItemsOfAppend(items, created, cart.id);
    ItemsOfNone(items, cart.id);
    ItemsOfAll(created, cart.id);
    assert [] + created == created;
  }

  /** A cart just created is read back with exactly the items created with it. */
  method CreateThenGet(db: Database, body: CartPost.PostCartBody, cartNow: int, itemsNow: int)
    returns (created: ServerResponseResult<CartPost.PostCartResult>, fetched: ServerResponseResult<CartIdGet.GetCartResponse>)
    requires db.Valid() && db.Referential()
    modifies db
    ensures created.Ok? && fetched.Ok?
    ensures fetched.value.value.data.cart == created.value.value.data.cart
    ensures fetched.value.value.data.items == CartIdGet.Views(created.value.value.data.items)
  {
    created := CartPost.PostCart(db, body, cartNow, itemsNow, None, None);
    var result := created.value.value.data;
    assert forall k :: 0 <= k < |result.items| ==> result.items[k].cartId == result.cart.id by {
      forall k | 0 <= k < |result.items| ensures result.items[k].cartId == result.cart.id {
        assert CartPost.StoredFrom(result.items[k], body.items[k], result.cart.id, itemsNow);
      }
    }
    ReadBackAppended(old(db.carts), old(db.items), result.cart, result.items);
    fetched := CartIdGet.GetCart(db, result.cart.id, None, None);
  }

  /** Deleting the id of a row just appended with a fresh id leaves the rows before it. */
  lemma RemoveAppended(before: seq<Item>, row: Item)
    requires row.id !in ItemIds(before)
    ensures CartIdPost.Remaining(before + [row], [row.id]) == before
  {
    assert (set id | id in [row.id]) == {row.id};
    WithoutAppend(before, [row], {row.id});
    WithoutFresh(before, {row.id});
    WithoutAll([row], {row.id});
    assert before + [] == before;
  }

  /** Adding an item and then deleting the id it was given restores the item table. */
  method AddThenRemove(db: Database, cartId: int, item: CartIdPost.CartItem, now: int)
    returns (added: ServerResponseResult<CartIdPost.PostCartResult>, removed: ServerResponseResult<CartIdPost.PostCartResult>)
    requires db.Valid() && (db.foreignKeys ==> cartId in CartIds(db.carts))
    modifies db
    ensures added.Ok? && removed.Ok?
    ensures forall id :: id in removed.value.value.data.itemsDeleted <==> id in added.value.value.data.itemsAdded
    ensures db.items == old(db.items)
    ensures removed.value.value.data.items == ItemsOf(old(db.items), cartId)
  {
    ghost var before := db.items;
    assert CartIdPost.Remaining(before, []) == before by {
      assert (set id: int | id in []) == {};
      WithoutFresh(before, {});
    }
    added := CartIdPost.PostCartItems(db, cartId, CartIdPost.PostCartBody([item], []), now, None, None, None);
    var ids := added.value.value.data.itemsAdded;
    ghost var row := db.items[|before|];
    assert db.items == before + [row];
    assert ids == [row.id];
    assert row.id !in ItemIds(before) by {
      assert row in db.items[|before|..];
    }
    RemoveAppended(before, row);
    ghost var middle := db.items;
    removed := CartIdPost.PostCartItems(db, cartId, CartIdPost.PostCartBody([], ids), now, None, None, None);
    assert row in middle;
  }

  /** A deleted cart can no longer be read, and no item of it remains. */
  method DeleteThenGet(db: Database, cartId: int)
    returns (deleted: ServerResponseResult<bool>, fetched: ServerResponseResult<CartIdGet.GetCartResponse>)
    requires db.Valid() && cartId in CartIds(db.carts)
    modifies db
    ensures deleted == Ok(ToJson(Success(true)))
    ensures fetched == Err(From(RowNotFound))
    ensures ItemsOf(db.items, cartId) == []
  {
    deleted := CartIdDelete.DeleteCart(db, cartId, None, None);
    ItemsOfNone(db.items, cartId);
    fetched := CartIdGet.GetCart(db, cartId, None, None);
  }

  /** Deleting a cart that does not exist fails, and changes nothing while every item has its cart. */
  method DeleteMissingCart(db: Database, cartId: int) returns (deleted: ServerResponseResult<bool>)
    requires db.Valid() && db.Referential() && cartId !in CartIds(db.carts)
    modifies db
    ensures deleted == Err(From(RowNotFound))
    ensures db.carts == old(db.carts) && db.items == old(db.items)
  {
    ItemsOfNone(db.items, cartId);
    deleted := CartIdDelete.DeleteCart(db, cartId, None, None);
  }

  /** Without foreign keys, items can be attached to a cart that does not exist. */
  method DanglingWithoutForeignKeys(item: CartIdPost.CartItem, now: int)
    returns (db: Database, r: ServerResponseResult<CartIdPost.PostCartResult>)
    ensures r.Ok? && !db.Referential()
  {
    db := new Database(false);
    r := CartIdPost.PostCartItems(db, 7, CartIdPost.PostCartBody([item], []), now, None, None, None);
    assert db.items[0] in db.items;
  }

  /** With foreign keys, the same request is refused and nothing is stored. */
  method ForeignKeysRefuseDangling(item: CartIdPost.CartItem, now: int)
    returns (db: Database, r: ServerResponseResult<CartIdPost.PostCartResult>)
    ensures r == Err(From(Failure(ForeignKeyMessage))) && db.items == []
  {
    db := new Database(true);
    r := CartIdPost.PostCartItems(db, 7, CartIdPost.PostCartBody([item], []), now, None, None, None);
  }

  /** With foreign keys, the cart row alone cannot be deleted while an item still names it. */
  method ForeignKeysRefuseParentDelete(name: string, item: CartIdPost.CartItem, now: int)
    returns (db: Database, r: Result<int, DbError>)
    ensures r == Err(Failure(ForeignKeyMessage)) && db.Referential() && |db.carts| == 1 && |db.items| == 1
  {
    db := new Database(true);
    var cart := db.InsertCart(name, now, None);
    var batch := db.InsertItems([CartIdPost.Bind(cart.value.id, item)], now, None);
    assert db.items[0] in db.items && db.items[0].cartId == cart.value.id;
    r := db.DeleteCartReturningId(cart.value.id, None);
    assert db.items[0] in db.items;
  }
}
