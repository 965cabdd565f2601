/**
 * `POST /cart/:cart_id` (src/cart/_id/post.rs): a bulk mutation of a cart's
 * items. In order: delete the listed item ids (by id alone, whatever cart
 * they belong to), insert the new items bound to the path's cart, then read
 * back every item of that cart. Three separate statements, no transaction.
 */
module CartIdPost {
  import opened Wrappers
  import opened Server
  import opened Store
  import opened AppError

  /** An item of the request; here `is_cold` is required. */
  datatype CartItem = CartItem(
    section: char, corridor: Int32, shelf: Int32, subshelf: Option<Int32>,
    photo: string, isCold: bool)

  datatype PostCartBody = PostCartBody(itemsCreated: seq<CartItem>, itemsDeleted: seq<int>)

  datatype PostCartResult = PostCartResult(itemsDeleted: seq<int>, itemsAdded: seq<int>, items: seq<Item>)

  // ---------------------------------------------------------------------
  // The text of the delete statement
  // ---------------------------------------------------------------------

  const DeletePrefix: string := "DELETE FROM Item WHERE id IN ("
  const DeleteSuffix: string := ") RETURNING id;"
  const Separator: string := ", "

  predicate IsDigit(c: char) {
    '0' <= c <= '9'
  }

  /** The decimal digits of a natural number, most significant first, no leading zeros. */
  function NatText(n: nat): (s: string)
    ensures |s| >= 1
    ensures forall i :: 0 <= i < |s| ==> IsDigit(s[i])
  {
    var d := ['0' + (n % 10) as char];
    if n < 10 then d else NatText(n / 10) + d
  }

  /** `i64::to_string`: an optional minus sign, then the digits. */
  function IntText(n: int): (s: string)
    ensures ',' !in s
  {
    if n < 0 then "-" + NatText(-n) else NatText(n)
  }

  /** The `Vec<String>::join(", ")` of the texts: it starts with the first and ends with the last. */
  function Join(parts: seq<string>): (s: string)
    ensures parts == [] ==> s == ""
    ensures parts != [] ==> |parts[0]| <= |s| && s[..|parts[0]|] == parts[0]
    ensures parts != [] ==> |parts[|parts| - 1]| <= |s| && s[|s| - |parts[|parts| - 1]|..] == parts[|parts| - 1]
  {
    if |parts| == 0 then ""
    else if |parts| == 1 then parts[0]
    else parts[0] + Separator + Join(parts[1..])
  }

  /** The id list pushed between the parentheses: empty exactly for no ids, led by the first id's text. */
  function IdListText(ids: seq<int>): (s: string)
    ensures s == "" <==> ids == []
    ensures ids != [] ==> |IntText(ids[0])| <= |s| && s[..|IntText(ids[0])|] == IntText(ids[0])
  {
    Join(seq(|ids|, k requires 0 <= k < |ids| => IntText(ids[k])))
  }

  /** The statement the handler builds for a non-empty `items_deleted`: the id list inside the fixed text. */
  function DeleteStatement(ids: seq<int>): (s: string)
    ensures |s| == |DeletePrefix| + |IdListText(ids)| + |DeleteSuffix|
    ensures s[..|DeletePrefix|] == DeletePrefix && s[|s| - |DeleteSuffix|..] == DeleteSuffix
    ensures s[|DeletePrefix|..|s| - |DeleteSuffix|] == IdListText(ids)
  {
    DeletePrefix + IdListText(ids) + DeleteSuffix
  }

  // Reading the id list back, to show the text denotes exactly the list.

  function ParseNat(s: string): (r: Option<nat>) {
    if |s| == 0 || !IsDigit(s[|s| - 1]) then None
    else
      var d := (s[|s| - 1] - '0') as nat;
      if |s| == 1 then Some(d)
      else match ParseNat(s[..|s| - 1])
        case None => None
        case Some(v) => Some(10 * v + d)
  }

  function ParseInt(s: string): Option<int> {
    if |s| > 0 && s[0] == '-' then
      match ParseNat(s[1..])
      case None => None
      case Some(v) => Some(-(v as int))
    else
      match ParseNat(s)
      case None => None
      case Some(v) => Some(v)
  }

  /** The index of the first comma of `s`, or `|s|` when there is none. */
  function CommaIndex(s: string): (k: nat)
    ensures k <= |s|
    ensures k < |s| ==> s[k] == ','
    ensures ',' !in s[..k]
  {
    if |s| == 0 then 0
    else if s[0] == ',' then 0
    else
      var k := CommaIndex(s[1..]);
      assert s[..k + 1] == [s[0]] + s[1..][..k];
      k + 1
  }

  function ParseIdList(s: string): Option<seq<int>>
    decreases |s|
  {
    var k := CommaIndex(s);
    match ParseInt(s[..k])
    case None => None
    case Some(head) =>
      if k == |s| then Some([head])
      else if k + 1 < |s| && s[k + 1] == ' ' then
        match ParseIdList(s[k + 2..])
        case None => None
        case Some(rest) => Some([head] + rest)
      else None
  }

  function ParseDeleteStatement(s: string): Option<seq<int>> {
    var p, q := |DeletePrefix|, |DeleteSuffix|;
    if |s| >= p + q && s[..p] == DeletePrefix && s[|s| - q..] == DeleteSuffix
    then ParseIdList(s[p..|s| - q])
    else None
  }

  lemma {:induction false} NatTextRoundTrip(n: nat)
    ensures ParseNat(NatText(n)) == Some(n)
  {
    var s := NatText(n);
    if n >= 10 {
      NatTextRoundTrip(n / 10);
      assert s[..|s| - 1] == NatText(n / 10);
    }
  }

  lemma {:induction false} IntTextRoundTrip(n: int)
    ensures ParseInt(IntText(n)) == Some(n)
  {
    if n < 0 {
      NatTextRoundTrip(-n);
      assert IntText(n)[1..] == NatText(-n);
    } else {
      NatTextRoundTrip(n);
      assert IsDigit(NatText(n)[0]);
    }
  }

  lemma {:induction false} CommaIndexAfter(a: string, b: string)
    requires ',' !in a
    ensures CommaIndex(a + b) == |a| + CommaIndex(b)
  {
    if |a| > 0 {
      assert a[0] in a;
      assert (a + b)[1..] == a[1..] + b;
      assert ',' !in a[1..] by {
        forall i | 0 <= i < |a[1..]| ensures a[1..][i] != ',' {
          assert a[1..][i] == a[i + 1];
        }
      }
      CommaIndexAfter(a[1..], b);
    } else {
      assert a + b == b;
    }
  }

  /** How the id-list text starts: the first id's text, then the separator and the rest. */
  lemma IdListTextCons(ids: seq<int>)
    requires ids != []
    ensures |ids| == 1 ==> IdListText(ids) == IntText(ids[0])
    ensures |ids| > 1 ==> IdListText(ids) == IntText(ids[0]) + Separator + IdListText(ids[1..])
  {
    var parts := seq(|ids|, k requires 0 <= k < |ids| => IntText(ids[k]));
    if |ids| > 1 {
      var tail := ids[1..];
      assert parts[1..] == seq(|tail|, k requires 0 <= k < |tail| => IntText(tail[k]));
    }
  }

  /** Reading a comma-free number alone, or followed by the separator. */
  lemma ParseIdListHead(head: string, x: int, tail: string)
    requires ',' !in head && ParseInt(head) == Some(x)
    ensures ParseIdList(head) == Some([x])
    ensures ParseIdList(tail).Some? ==> ParseIdList(head + Separator + tail) == Some([x] + ParseIdList(tail).value)
  {
    CommaIndexAfter(head, "");
    assert head + "" == head;
    assert head[..|head|] == head;
    var s := head + Separator + tail;
    assert s == head + (Separator + tail);
    CommaIndexAfter(head, Separator + tail);
    assert s[..|head|] == head;
    assert s[|head| + 2..] == tail;
  }

  /** The id-list text reads back as exactly the listed ids. */
  lemma {:induction false} IdListTextRoundTrip(ids: seq<int>)
    requires ids != []
    ensures ParseIdList(IdListText(ids)) == Some(ids)
  {
    IntTextRoundTrip(ids[0]);
    IdListTextCons(ids);
    if |ids| == 1 {
      ParseIdListHead(IntText(ids[0]), ids[0], "");
      assert [ids[0]] == ids;
    } else {
      IdListTextRoundTrip(ids[1..]);
      ParseIdListHead(IntText(ids[0]), ids[0], IdListText(ids[1..]));
      assert [ids[0]] + ids[1..] == ids;
    }
  }

  /** The statement text reads back as exactly the listed ids, for every non-empty list. */
  lemma {:induction false} DeleteStatementRoundTrip(ids: seq<int>)
    requires ids != []
    ensures ParseDeleteStatement(DeleteStatement(ids)) == Some(ids)
  {
    var s := DeleteStatement(ids);
    var p, q := |DeletePrefix|, |DeleteSuffix|;
    assert s[..p] == DeletePrefix;
    assert s[|s| - q..] == DeleteSuffix;
    assert s[p..|s| - q] == IdListText(ids);
    IdListTextRoundTrip(ids);
  }

  /** Different id lists make different statements. */
  lemma DeleteStatementInjective(a: seq<int>, b: seq<int>)
    ensures DeleteStatement(a) == DeleteStatement(b) ==> a == b
  {
    if DeleteStatement(a) != DeleteStatement(b) {
    } else if a != [] && b != [] {
      DeleteStatementRoundTrip(a);
      DeleteStatementRoundTrip(b);
    } else {
      assert |IdListText(a)| == |IdListText(b)|;
    }
  }

  // ---------------------------------------------------------------------
  // The handler
  // ---------------------------------------------------------------------

  /** The values `push_values` binds for one request item. */
  function Bind(cartId: int, it: CartItem): (b: NewItem)
    ensures forall id: int, t: int :: StoredFrom(Stored(id, t, b), it, cartId, t)
  {
    NewItem(cartId, [it.section], it.corridor, it.shelf, SubshelfValue(it.subshelf), it.photo, if it.isCold then 1 else 0)
  }

  /** `row` is what the store holds for request item `it` bound to `cartId`, stamped `now`. */
  ghost predicate StoredFrom(row: Item, it: CartItem, cartId: int, now: int) {
    && row.cartId == cartId
    && |row.section| == 1 && row.section[0] == it.section
    && row.corridor == it.corridor && row.shelf == it.shelf
    && (row.subshelf.Some? <==> it.subshelf.Some?)
    && (it.subshelf.Some? ==> row.subshelf.value == it.subshelf.value)
    && row.photo == it.photo
    && row.isCold == (if it.isCold then 1 else 0)
    && row.creationDate == now
  }

  /** The rows the delete step leaves (all of them when nothing is listed). */
  function Remaining(items: seq<Item>, deleted: seq<int>): seq<Item> {
    Without(items, set id | id in deleted)
  }

  /** The delete step is issued and fails. */
  predicate DeleteFails(deleted: seq<int>, deleteFault: Fault) {
    deleted != [] && deleteFault.Some?
  }

  /** The insert step is issued and fails: a fault, or a foreign key naming no cart. */
  ghost predicate InsertFails(db: Database, cartId: int, created: seq<CartItem>, insertFault: Fault)
    reads db
  {
    created != [] && (insertFault.Some? || (db.foreignKeys && cartId !in CartIds(db.carts)))
  }

  /**
   * The first step: `DELETE FROM Item WHERE id IN (...)`, issued only for a
   * non-empty list. The statement's text denotes exactly `deleted`, which is
   * the list the store's delete is given.
   */
  method DeleteStep(db: Database, deleted: seq<int>, fault: Fault) returns (r: Result<seq<int>, DbError>)
    requires db.Valid()
    modifies db
    ensures deleted != [] ==> ParseDeleteStatement(DeleteStatement(deleted)) == Some(deleted)
    ensures db.Valid() && db.carts == old(db.carts)
    ensures db.foreignKeys && old(db.Referential()) ==> db.Referential()
    ensures r.Err? <==> DeleteFails(deleted, fault)
    ensures r.Err? ==> r.error == Failure(fault.value) && db.items == old(db.items)
    ensures r.Ok? ==> db.items == Remaining(old(db.items), deleted) && DeletedIds(r.value, deleted, old(db.items))
    ensures r.Ok? && deleted == [] ==> r.value == [] && db.items == old(db.items)
  {
    if deleted != [] {
      DeleteStatementRoundTrip(deleted);
      r := db.DeleteItemsById(deleted, fault);
    } else {
      assert (set id | id in deleted) == {};
      WithoutFresh(db.items, {});
      r := Ok([]);
    }
  }

  /** The second step: the batch insert bound to `cartId`, issued only for a non-empty list. */
  method InsertStep(db: Database, cartId: int, created: seq<CartItem>, now: int, fault: Fault)
    returns (r: Result<seq<int>, DbError>)
    requires db.Valid()
    modifies db
    ensures db.Valid() && db.carts == old(db.carts)
    ensures db.foreignKeys && old(db.Referential()) ==> db.Referential()
    ensures r.Err? <==> InsertFails(db, cartId, created, fault)
    ensures r.Err? ==> db.items == old(db.items)
    ensures r.Err? ==> r.error == Failure(if fault.Some? then fault.value else ForeignKeyMessage)
    ensures r.Ok? ==> |db.items| == |old(db.items)| + |created| && db.items[..|old(db.items)|] == old(db.items)
    ensures r.Ok? ==> ItemIds(db.items[|old(db.items)|..]) !! ItemIds(old(db.items))
    ensures r.Ok? ==> forall k :: 0 <= k < |created| ==> StoredFrom(db.items[|old(db.items)| + k], created[k], cartId, now)
    ensures r.Ok? ==> r.value == IdsOf(db.items[|old(db.items)|..])
  {
    if created == [] {
      assert db.items[|db.items|..] == [];
      assert db.items[..|db.items|] == db.items;
      return Ok([]);
    }
    var rows: seq<NewItem> := [];
    for i := 0 to |created|
      invariant |rows| == i
      invariant forall k :: 0 <= k < i ==> rows[k] == Bind(cartId, created[k])
    {
      rows := rows + [Bind(cartId, created[i])];
    }
    assert rows[0].cartId == cartId;
    var batch := db.InsertItems(rows, now, fault);
    if batch.Err? {
      return Err(batch.error);
    }
    assert db.items[|old(db.items)|..] == batch.value;
    assert db.items[..|old(db.items)|] == old(db.items);
    r := Ok(IdsOf(batch.value));
  }

  /** Rows appended for `cartId` appear in that cart's snapshot. */
  lemma AddedInSnapshot(all: seq<Item>, from: nat, cartId: int)
    requires from <= |all|
    requires forall k :: from <= k < |all| ==> all[k].cartId == cartId
    ensures forall id :: id in IdsOf(all[from..]) ==> id in IdsOf(ItemsOf(all, cartId))
  {
    var mine := ItemsOf(all, cartId);
    forall id | id in IdsOf(all[from..]) ensures id in IdsOf(mine) {
      var k :| 0 <= k < |all| - from && IdsOf(all[from..])[k] == id;
      var row := all[from + k];
      assert row in mine;
      var j :| 0 <= j < |mine| && mine[j] == row;
      assert IdsOf(mine)[j] == id;
    }
  }

  /**
   * `post_cart_items`. `now` is the store's clock at the insert; the three
   * faults decide whether the delete, the insert and the final select fail
   * for reasons outside the model.
   */
  method PostCartItems(db: Database, cartId: int, body: PostCartBody, now: int,
                       deleteFault: Fault, insertFault: Fault, selectFault: Fault)
    returns (r: ServerResponseResult<PostCartResult>)
    requires db.Valid()
    modifies db
    ensures db.Valid() && db.carts == old(db.carts)
    ensures db.foreignKeys && old(db.Referential()) ==> db.Referential()
    // step 1: the delete fails and nothing changes ...
    ensures DeleteFails(body.itemsDeleted, deleteFault) ==>
      r == Err(From(Failure(deleteFault.value))) && db.items == old(db.items)
    // ... or the listed rows are gone, whichever cart they were in, and the rest stays in order
    ensures !DeleteFails(body.itemsDeleted, deleteFault) ==>
      var rest := Remaining(old(db.items), body.itemsDeleted);
      |rest| <= |db.items| && db.items[..|rest|] == rest
    // step 2: the insert fails and only the delete has happened ...
    ensures !DeleteFails(body.itemsDeleted, deleteFault) && InsertFails(db, cartId, body.itemsCreated, insertFault) ==>
      db.items == Remaining(old(db.items), body.itemsDeleted) &&
      r == Err(From(Failure(if insertFault.Some? then insertFault.value else ForeignKeyMessage)))
    // ... or one new row per created item, bound to the path's cart, with ids fresh at that point
    ensures !DeleteFails(body.itemsDeleted, deleteFault) && !InsertFails(db, cartId, body.itemsCreated, insertFault) ==>
      var rest := Remaining(old(db.items), body.itemsDeleted);
      |db.items| == |rest| + |body.itemsCreated| &&
      ItemIds(db.items[|rest|..]) !! ItemIds(rest) &&
      forall k :: 0 <= k < |body.itemsCreated| ==> StoredFrom(db.items[|rest| + k], body.itemsCreated[k], cartId, now)
    // step 3: the final select
    ensures (!DeleteFails(body.itemsDeleted, deleteFault) && !InsertFails(db, cartId, body.itemsCreated, insertFault) &&
             selectFault.Some?) ==> r == Err(From(Failure(selectFault.value)))
    ensures r.Ok? <==>
      !DeleteFails(body.itemsDeleted, deleteFault) && !InsertFails(db, cartId, body.itemsCreated, insertFault) && selectFault.None?
    ensures r.Ok? ==> r.value.value.statusCode == CREATED && r.value.value.message == SuccessMessage
    ensures r.Ok? ==> DeletedIds(r.value.value.data.itemsDeleted, body.itemsDeleted, old(db.items))
    ensures r.Ok? ==> r.value.value.data.itemsAdded == IdsOf(db.items[|Remaining(old(db.items), body.itemsDeleted)|..])
    ensures r.Ok? ==> r.value.value.data.items == ItemsOf(db.items, cartId)
    ensures r.Ok? ==> forall id :: id in r.value.value.data.itemsAdded ==> id in IdsOf(r.value.value.data.items)
    // empty lists issue no statement
    ensures r.Ok? && body.itemsDeleted == [] ==> r.value.value.data.itemsDeleted == []
    ensures r.Ok? && body.itemsCreated == [] ==> r.value.value.data.itemsAdded == []
    ensures body.itemsDeleted == [] && body.itemsCreated == [] ==> db.items == old(db.items)
  {
    var itemsDeleted := DeleteStep(db, body.itemsDeleted, deleteFault);
    if itemsDeleted.Err? {
      return Err(From(itemsDeleted.error));
    }
    ghost var rest := db.items;
    var itemsAdded := InsertStep(db, cartId, body.itemsCreated, now, insertFault);
    if itemsAdded.Err? {
      return Err(From(itemsAdded.error));
    }
    if selectFault.Some? {
      return Err(From(Failure(selectFault.value)));
    }
    var items := ItemsOf(db.items, cartId);
    forall k | |rest| <= k < |db.items| ensures db.items[k].cartId == cartId {
      assert StoredFrom(db.items[|rest| + (k - |rest|)], body.itemsCreated[k - |rest|], cartId, now);
    }
    AddedInSnapshot(db.items, |rest|, cartId);
    r := Ok(ToJson(SuccessCode(PostCartResult(itemsDeleted.value, itemsAdded.value, items), CREATED)));
  }
}
