/**
 * The relational store behind the handlers: a `Cart` table and an `Item`
 * table, and the statements the handlers send to it. Every statement either
 * takes effect completely or fails and changes nothing; separate statements
 * are separate (there is no transaction around them).
 */
module Store {
  import opened Wrappers

  /** A failure reported by the database driver. */
  datatype DbError =
    | RowNotFound               // `fetch_one` on a statement that produced no row
    | Failure(message: string)  // anything else the database or the pool reports, by its text

  /** The driver's text for a `fetch_one` that found no row. */
  const RowNotFoundMessage: string := "no rows returned by a query that expected to return at least one row"

  /**
   * SQLite's text for a statement that would break the foreign key from
   * `Item.cart_id` to `Cart.id`: an item naming no cart, or deleting a cart
   * items still name.
   */
  const ForeignKeyMessage: string := "FOREIGN KEY constraint failed"

  /** The error's display text: a failure shows its own message, a missing row the driver's. */
  function Display(e: DbError): (s: string)
    ensures e.Failure? ==> s == e.message
    ensures e.RowNotFound? ==> s == RowNotFoundMessage
  {
    match e
    case RowNotFound => RowNotFoundMessage
    case Failure(m) => m
  }

  /**
   * How one statement fares for reasons outside the model (a lost
   * connection, a full disk, a pool timeout): `None` lets it run,
   * `Some(text)` makes the database report `text` instead.
   */
  type Fault = Option<string>

  /** A request field the source declares `i32`. */
  type Int32 = x: int | -0x8000_0000 <= x < 0x8000_0000

  /** An optional `i32` bound into a column that stores it as `i64`. */
  function SubshelfValue(s: Option<Int32>): (r: Option<int>)
    ensures r.Some? <==> s.Some?
    ensures s.Some? ==> r.value == s.value as int
  {
    match s
    case None => None
    case Some(x) => Some(x as int)
  }

  /** A `Cart` row: `id`, `creation_date`, `name` (also the shape every handler returns for a cart). */
  datatype Cart = Cart(id: int, creationDate: int, name: string)

  /** An `Item` row with every column. */
  datatype Item = Item(
    id: int, creationDate: int, cartId: int, section: string,
    corridor: int, shelf: int, subshelf: Option<int>, photo: string, isCold: int)

  /** The values an item insert binds: everything but the generated `id` and `creation_date`. */
  datatype NewItem = NewItem(
    cartId: int, section: string, corridor: int, shelf: int,
    subshelf: Option<int>, photo: string, isCold: int)

  /** The row the store makes of bound values, with its generated columns. */
  function Stored(id: int, creationDate: int, v: NewItem): Item {
    Item(id, creationDate, v.cartId, v.section, v.corridor, v.shelf, v.subshelf, v.photo, v.isCold)
  }

  function CartIds(carts: seq<Cart>): set<int> {
    set c | c in carts :: c.id
  }

  function ItemIds(items: seq<Item>): set<int> {
    set it | it in items :: it.id
  }

  /** The `id` column of some item rows, in order. */
  function IdsOf(items: seq<Item>): (ids: seq<int>)
    ensures |ids| == |items|
    ensures forall k :: 0 <= k < |items| ==> ids[k] == items[k].id
  {
    seq(|items|, k requires 0 <= k < |items| => items[k].id)
  }

  ghost predicate UniqueCartIds(carts: seq<Cart>) {
    carts == [] || (carts[0].id !in CartIds(carts[1..]) && UniqueCartIds(carts[1..]))
  }

  ghost predicate UniqueItemIds(items: seq<Item>) {
    items == [] || (items[0].id !in ItemIds(items[1..]) && UniqueItemIds(items[1..]))
  }

  /** No value occurs twice. */
  ghost predicate Distinct(ids: seq<int>) {
    forall i, j :: 0 <= i < j < |ids| ==> ids[i] != ids[j]
  }

  /** `SELECT ... FROM Item WHERE cart_id = ?`. */
  function ItemsOf(items: seq<Item>, cartId: int): (r: seq<Item>)
    ensures forall it :: it in r <==> it in items && it.cartId == cartId
    ensures |r| <= |items|
  {
    if items == [] then []
    else (if items[0].cartId == cartId then [items[0]] else []) + ItemsOf(items[1..], cartId)
  }

  /** What `DELETE FROM Item WHERE cart_id = ?` leaves. */
  function ItemsNotOf(items: seq<Item>, cartId: int): (r: seq<Item>)
    ensures forall it :: it in r <==> it in items && it.cartId != cartId
    ensures ItemIds(r) <= ItemIds(items)
    ensures UniqueItemIds(items) ==> UniqueItemIds(r)
  {
    if items == [] then []
    else
      var rest := ItemsNotOf(items[1..], cartId);
      if items[0].cartId != cartId then [items[0]] + rest else rest
  }

  /** The rows `DELETE FROM Item WHERE id IN (...)` removes, in table order. */
  function Only(items: seq<Item>, ids: set<int>): (r: seq<Item>)
    ensures forall it :: it in r <==> it in items && it.id in ids
    ensures ItemIds(r) <= ItemIds(items)
    ensures UniqueItemIds(items) ==> UniqueItemIds(r)
  {
    if items == [] then []
    else
      var rest := Only(items[1..], ids);
      if items[0].id in ids then [items[0]] + rest else rest
  }

  /** The rows `DELETE FROM Item WHERE id IN (...)` leaves. */
  function Without(items: seq<Item>, ids: set<int>): (r: seq<Item>)
    ensures forall it :: it in r <==> it in items && it.id !in ids
    ensures ItemIds(r) <= ItemIds(items)
    ensures UniqueItemIds(items) ==> UniqueItemIds(r)
  {
    if items == [] then []
    else
      var rest := Without(items[1..], ids);
      if items[0].id !in ids then [items[0]] + rest else rest
  }

  /** What `DELETE FROM Cart WHERE id = ?` leaves. */
  function CartsWithout(carts: seq<Cart>, id: int): (r: seq<Cart>)
    ensures forall c :: c in r <==> c in carts && c.id != id
    ensures CartIds(r) == CartIds(carts) - {id}
    ensures UniqueCartIds(carts) ==> UniqueCartIds(r)
  {
    if carts == [] then []
    else
      var rest := CartsWithout(carts[1..], id);
      if carts[0].id != id then [carts[0]] + rest else rest
  }

  /** The first row of `SELECT id, creation_date, name FROM Cart WHERE id = ?`, if any. */
  function FindCart(carts: seq<Cart>, id: int): (r: Option<Cart>)
    ensures r.Some? <==> id in CartIds(carts)
    ensures r.Some? ==> r.value in carts && r.value.id == id
  {
    if carts == [] then None
    else if carts[0].id == id then Some(carts[0])
    else FindCart(carts[1..], id)
  }

  lemma {:induction false} UniqueItemsAppend(a: seq<Item>, b: seq<Item>)
    requires UniqueItemIds(a) && UniqueItemIds(b) && ItemIds(a) !! ItemIds(b)
    ensures UniqueItemIds(a + b)
    ensures ItemIds(a + b) == ItemIds(a) + ItemIds(b)
  {
    if a == [] {
      assert a + b == b;
    } else {
      assert (a + b)[1..] == a[1..] + b;
      assert ItemIds(a) == {a[0].id} + ItemIds(a[1..]) by {
        assert a == [a[0]] + a[1..];
      }
      UniqueItemsAppend(a[1..], b);
      assert (a + b) == [a[0]] + (a[1..] + b);
    }
  }

  lemma {:induction false} UniqueCartsAppend(a: seq<Cart>, c: Cart)
    requires UniqueCartIds(a) && c.id !in CartIds(a)
    ensures UniqueCartIds(a + [c])
    ensures CartIds(a + [c]) == CartIds(a) + {c.id}
  {
    if a != [] {
      assert (a + [c])[1..] == a[1..] + [c];
      assert CartIds(a) == {a[0].id} + CartIds(a[1..]) by {
        assert a == [a[0]] + a[1..];
      }
      UniqueCartsAppend(a[1..], c);
    }
  }

  /** In a table with unique ids no two rows share an id, so neither do their ids. */
  lemma {:induction false} UniqueIdsDistinct(items: seq<Item>)
    requires UniqueItemIds(items)
    ensures Distinct(IdsOf(items))
  {
    if items != [] {
      UniqueIdsDistinct(items[1..]);
      var ids := IdsOf(items);
      forall i, j | 0 <= i < j < |ids| ensures ids[i] != ids[j] {
        if i == 0 {
          assert items[j] in items[1..];
        } else {
          assert ids[i] == IdsOf(items[1..])[i - 1] && ids[j] == IdsOf(items[1..])[j - 1];
        }
      }
    }
  }

  lemma {:induction false} ItemsOfAppend(a: seq<Item>, b: seq<Item>, cartId: int)
    ensures ItemsOf(a + b, cartId) == ItemsOf(a, cartId) + ItemsOf(b, cartId)
  {
    if a == [] {
      assert a + b == b;
    } else {
      assert (a + b)[1..] == a[1..] + b;
      ItemsOfAppend(a[1..], b, cartId);
    }
  }

  /** A cart no row belongs to has no items. */
  lemma {:induction false} ItemsOfNone(items: seq<Item>, cartId: int)
    requires forall it :: it in items ==> it.cartId != cartId
    ensures ItemsOf(items, cartId) == []
    ensures ItemsNotOf(items, cartId) == items
  {
    if items != [] {
      assert items[0] in items;
      assert forall it :: it in items[1..] ==> it in items;
      ItemsOfNone(items[1..], cartId);
      assert [items[0]] + items[1..] == items;
    }
  }

  /** When every row belongs to the cart, the cart's items are all of them, in order. */
  lemma {:induction false} ItemsOfAll(items: seq<Item>, cartId: int)
    requires forall it :: it in items ==> it.cartId == cartId
    ensures ItemsOf(items, cartId) == items
  {
    if items != [] {
      assert items[0] in items;
      assert forall it :: it in items[1..] ==> it in items;
      ItemsOfAll(items[1..], cartId);
      assert [items[0]] + items[1..] == items;
    }
  }

  lemma {:induction false} WithoutAppend(a: seq<Item>, b: seq<Item>, ids: set<int>)
    ensures Without(a + b, ids) == Without(a, ids) + Without(b, ids)
  {
    if a == [] {
      assert a + b == b;
    } else {
      assert (a + b)[1..] == a[1..] + b;
      WithoutAppend(a[1..], b, ids);
    }
  }

  /** Deleting ids no row has leaves the table as it was. */
  lemma {:induction false} WithoutFresh(items: seq<Item>, ids: set<int>)
    requires ids !! ItemIds(items)
    ensures Without(items, ids) == items
  {
    if items != [] {
      assert items[0] in items;
      assert ItemIds(items[1..]) <= ItemIds(items) by {
        assert forall it :: it in items[1..] ==> it in items;
      }
      WithoutFresh(items[1..], ids);
      assert [items[0]] + items[1..] == items;
    }
  }

  /** Deleting every id of some rows removes them all. */
  lemma {:induction false} WithoutAll(items: seq<Item>, ids: set<int>)
    requires ItemIds(items) <= ids
    ensures Without(items, ids) == []
  {
    if items != [] {
      assert items[0] in items;
      assert ItemIds(items[1..]) <= ItemIds(items) by {
        assert forall it :: it in items[1..] ==> it in items;
      }
      WithoutAll(items[1..], ids);
    }
  }

  /** A cart appended with a fresh id is the one its id finds. */
  lemma {:induction false} FindCartAppended(carts: seq<Cart>, c: Cart)
    requires c.id !in CartIds(carts)
    ensures FindCart(carts + [c], c.id) == Some(c)
  {
    if carts != [] {
      assert carts[0] in carts;
      assert (carts + [c])[1..] == carts[1..] + [c];
      assert CartIds(carts[1..]) <= CartIds(carts) by {
        assert forall x :: x in carts[1..] ==> x in carts;
      }
      FindCartAppended(carts[1..], c);
    }
  }

  /** `created` are the rows an insert made of `rows`, one per tuple, in order, stamped `now`. */
  ghost predicate InsertedRows(created: seq<Item>, rows: seq<NewItem>, now: int) {
    |created| == |rows| &&
    forall k :: 0 <= k < |rows| ==> created[k] == Stored(created[k].id, now, rows[k])
  }

  /** `returned` holds each listed id that names a row of `items`, once, and nothing else. */
  ghost predicate DeletedIds(returned: seq<int>, listed: seq<int>, items: seq<Item>) {
    Distinct(returned) &&
    forall id :: id in returned <==> id in listed && id in ItemIds(items)
  }

  /** The database: its two tables and whether it enforces foreign keys on `Item.cart_id`. */
  class Database {
    var carts: seq<Cart>
    var items: seq<Item>
    /** Where the store's id allocation stands; callers are promised only fresh ids. */
    var nextCartId: int
    var nextItemId: int
    const foreignKeys: bool

    ghost predicate Valid()
      reads this
    {
      UniqueCartIds(carts) && UniqueItemIds(items) &&
      (forall id :: id in CartIds(carts) ==> id < nextCartId) &&
      (forall id :: id in ItemIds(items) ==> id < nextItemId)
    }

    /** Every item row belongs to a cart that exists. */
    ghost predicate Referential()
      reads this
    {
      forall it :: it in items ==> it.cartId in CartIds(carts)
    }

    /** A fresh, empty database. */
    constructor (foreignKeys: bool)
      ensures Valid() && Referential()
      ensures carts == [] && items == [] && this.foreignKeys == foreignKeys
    {
      carts, items := [], [];
      nextCartId, nextItemId := 1, 1;
      this.foreignKeys := foreignKeys;
    }

    /** `INSERT INTO Cart (name) VALUES (?) RETURNING id, creation_date, name`, read with `fetch_one`. */
    method InsertCart(name: string, now: int, fault: Fault) returns (r: Result<Cart, DbError>)
      requires Valid()
      modifies this
      ensures Valid() && items == old(items)
      ensures fault.Some? ==> r == Err(Failure(fault.value)) && carts == old(carts)
      ensures fault.None? ==> r.Ok? && carts == old(carts) + [r.value]
      ensures fault.None? ==> r.value.id !in CartIds(old(carts)) && r.value.name == name && r.value.creationDate == now
    {
      if fault.Some? {
        return Err(Failure(fault.value));
      }
      var cart := Cart(nextCartId, now, name);
      UniqueCartsAppend(carts, cart);
      carts := carts + [cart];
      nextCartId := nextCartId + 1;
      r := Ok(cart);
    }

    /**
     * A batch `INSERT INTO Item (...) VALUES (...), ... RETURNING ...`, read
     * with `fetch_all`. An empty VALUES list is not a statement, so callers
     * bind at least one tuple.
     */
    method InsertItems(rows: seq<NewItem>, now: int, fault: Fault) returns (r: Result<seq<Item>, DbError>)
      requires Valid() && rows != []
      modifies this
      ensures Valid() && carts == old(carts)
      ensures r.Err? <==> fault.Some? || (foreignKeys && exists k :: 0 <= k < |rows| && rows[k].cartId !in CartIds(carts))
      ensures fault.Some? ==> r == Err(Failure(fault.value))
      ensures fault.None? && r.Err? ==> r == Err(Failure(ForeignKeyMessage))
      ensures r.Err? ==> items == old(items)
      ensures r.Ok? ==> items == old(items) + r.value && InsertedRows(r.value, rows, now)
      ensures r.Ok? ==> ItemIds(r.value) !! ItemIds(old(items))
    {
      if fault.Some? {
        return Err(Failure(fault.value));
      }
      if foreignKeys && exists k :: 0 <= k < |rows| && rows[k].cartId !in CartIds(carts) {
        return Err(Failure(ForeignKeyMessage));
      }
      var created: seq<Item> := [];
      var i := 0;
      while i < |rows|
        invariant 0 <= i <= |rows|
        invariant Valid() && carts == old(carts)
        invariant items == old(items) + created
        invariant InsertedRows(created, rows[..i], now)
        invariant UniqueItemIds(created) && ItemIds(created) !! ItemIds(old(items))
        invariant forall id :: id in ItemIds(old(items)) ==> id < nextItemId
      {
        var row := Stored(nextItemId, now, rows[i]);
        assert row.id !in ItemIds(items);
        assert row.id !in ItemIds(created) by {
          UniqueItemsAppend(old(items), created);
        }
        UniqueItemsAppend(items, [row]);
        UniqueItemsAppend(created, [row]);
        items := items + [row];
        created := created + [row];
        nextItemId := nextItemId + 1;
        i := i + 1;
      }
      assert rows[..i] == rows;
      r := Ok(created);
    }

    /** `DELETE FROM Item WHERE id IN (...) RETURNING id`, read with `fetch_all`. */
    method DeleteItemsById(ids: seq<int>, fault: Fault) returns (r: Result<seq<int>, DbError>)
      requires Valid()
      modifies this
      ensures Valid() && carts == old(carts)
      ensures fault.Some? ==> r == Err(Failure(fault.value)) && items == old(items)
      ensures fault.None? ==> r.Ok? && items == Without(old(items), set id | id in ids)
      ensures fault.None? ==> DeletedIds(r.value, ids, old(items))
    {
      if fault.Some? {
        return Err(Failure(fault.value));
      }
      var listed := set id | id in ids;
      var gone := Only(items, listed);
      UniqueIdsDistinct(gone);
      forall id ensures id in IdsOf(gone) <==> id in ids && id in ItemIds(items) {
        if id in IdsOf(gone) {
          var k :| 0 <= k < |gone| && IdsOf(gone)[k] == id;
          assert gone[k] in gone;
        }
        if id in ids && id in ItemIds(items) {
          var it :| it in items && it.id == id;
          assert it in gone;
          var k :| 0 <= k < |gone| && gone[k] == it;
          assert IdsOf(gone)[k] == id;
        }
      }
      items := Without(items, listed);
      r := Ok(IdsOf(gone));
    }

    /** `DELETE FROM Item WHERE cart_id = ?`, run with `execute`. */
    method DeleteItemsOfCart(cartId: int, fault: Fault) returns (r: Result<(), DbError>)
      requires Valid()
      modifies this
      ensures Valid() && carts == old(carts)
      ensures fault.Some? ==> r == Err(Failure(fault.value)) && items == old(items)
      ensures fault.None? ==> r.Ok? && items == ItemsNotOf(old(items), cartId)
    {
      if fault.Some? {
        return Err(Failure(fault.value));
      }
      items := ItemsNotOf(items, cartId);
      r := Ok(());
    }

    /** Some item row names cart `id`. */
    predicate Referenced(id: int)
      reads this
    {
      exists it :: it in items && it.cartId == id
    }

    /**
     * `DELETE FROM Cart WHERE id = ? RETURNING id`, read with `fetch_one`: no
     * row is an error. Where foreign keys are enforced, deleting a cart that
     * items still name is refused (the key declares no cascade).
     */
    method DeleteCartReturningId(id: int, fault: Fault) returns (r: Result<int, DbError>)
      requires Valid()
      modifies this
      ensures Valid() && items == old(items)
      ensures foreignKeys && old(Referential()) ==> Referential()
      ensures fault.Some? ==> r == Err(Failure(fault.value)) && carts == old(carts)
      ensures fault.None? && id !in CartIds(old(carts)) ==> r == Err(RowNotFound) && carts == old(carts)
      ensures fault.None? && id in CartIds(old(carts)) && foreignKeys && Referenced(id) ==>
        r == Err(Failure(ForeignKeyMessage)) && carts == old(carts)
      ensures fault.None? && id in CartIds(old(carts)) && !(foreignKeys && Referenced(id)) ==>
        r == Ok(id) && carts == CartsWithout(old(carts), id)
    {
      if fault.Some? {
        return Err(Failure(fault.value));
      }
      if id !in CartIds(carts) {
        return Err(RowNotFound);
      }
      if foreignKeys && Referenced(id) {
        return Err(Failure(ForeignKeyMessage));
      }
      carts := CartsWithout(carts, id);
      r := Ok(id);
    }
  }
}
