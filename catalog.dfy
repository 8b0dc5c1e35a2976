/** The items list: listing an item and deleting one's own item. */
module Catalog {
  import opened MarketTypes
  import opened Search
  import opened Ledger

  /** Some item in the list has this id. */
  predicate Listed(items: seq<Item>, id: int) {
    exists i :: 0 <= i < |items| && items[i].id == id
  }

  /** `k` is the position `items.find(item => item.id == id)` stops at. */
  predicate IsFirstItem(items: seq<Item>, id: int, k: nat) {
    && k < |items|
    && items[k].id == id
    && forall j :: 0 <= j < k ==> items[j].id != id
  }

  /** `k` is the position `items.findIndex(item => item.id == id && item.createdBy === owner)` answers. */
  predicate IsFirstOwned(items: seq<Item>, id: int, owner: string, k: nat) {
    && k < |items|
    && items[k].id == id && items[k].createdBy == owner
    && forall j :: 0 <= j < k ==> !(items[j].id == id && items[j].createdBy == owner)
  }

  /** Every listed price is positive. */
  predicate PositivePrices(items: seq<Item>) {
    forall i :: 0 <= i < |items| ==> items[i].price > 0
  }

  /** No two items share an id. */
  predicate DistinctIds(items: seq<Item>) {
    forall i, j :: 0 <= i < j < |items| ==> items[i].id != items[j].id
  }

  /** Every item was listed by a user who is registered. */
  predicate OwnersRegistered(users: seq<User>, items: seq<Item>) {
    forall i :: 0 <= i < |items| ==> Registered(users, items[i].createdBy)
  }

  /** The position of the first item with this id (server.js:243). */
  function ItemIndex(items: seq<Item>, id: int): (r: Option<nat>)
    ensures r.Some? ==> IsFirstItem(items, id, r.value)
    ensures r.None? <==> !Listed(items, id)
  {
    FindIndex(items, (it: Item) => it.id == id)
  }

  /** The position of the first item with this id listed by `owner` (server.js:292). */
  function OwnedItemIndex(items: seq<Item>, id: int, owner: string): (r: Option<nat>)
    ensures r.Some? ==> IsFirstOwned(items, id, owner, r.value)
    ensures r.None? <==> forall i :: 0 <= i < |items| ==> !(items[i].id == id && items[i].createdBy == owner)
  {
    FindIndex(items, (it: Item) => it.id == id && it.createdBy == owner)
  }

  /** `s.splice(k, 1)`: drop the element at `k`, keep the rest in order. */
  function RemoveAt<T>(s: seq<T>, k: nat): (r: seq<T>)
    requires k < |s|
    ensures |r| == |s| - 1
    ensures forall j :: 0 <= j < k ==> r[j] == s[j]
    ensures forall j :: k <= j < |r| ==> r[j] == s[j + 1]
    ensures multiset(r) + multiset{s[k]} == multiset(s)
  {
    assert s == s[..k] + [s[k]] + s[k + 1..];
    s[..k] + s[k + 1..]
  }

  /** The fields of a create-item request are all present (server.js:177). */
  predicate FieldsPresent(itemName: string, description: string, price: PriceField, image: string) {
    itemName != "" && description != "" && !price.Missing? && image != ""
  }

  /** The `/create-item` handler on the items list: check the session, then that
      every field is present, then that the price is a positive number; append
      the new item, listed by the session user. */
  function AddItem(items: seq<Item>, session: string, itemName: string, description: string,
                   price: PriceField, image: string, id: int, createdAt: string): (r: Result<seq<Item>>)
    ensures !HasSession(session) ==> r == Err(NoSession)
    ensures HasSession(session) && !FieldsPresent(itemName, description, price, image) ==> r == Err(MissingField)
    ensures r.Ok? <==> HasSession(session) && FieldsPresent(itemName, description, price, image)
                       && price.Amount? && price.value > 0
    ensures r.Err? && HasSession(session) && FieldsPresent(itemName, description, price, image) ==> r.error == InvalidPrice
    ensures r.Ok? ==> |r.value| == |items| + 1 && r.value[..|items|] == items
    ensures r.Ok? ==> r.value[|items|] == Item(id, itemName, description, price.value, image, session, createdAt)
  {
    if !HasSession(session) then Err(NoSession)
    else if itemName == "" || description == "" || price.Missing? || image == "" then Err(MissingField)
    else if price.NotANumber? || price.value <= 0 then Err(InvalidPrice)
    else Ok(items + [Item(id, itemName, description, price.value, image, session, createdAt)])
  }

  /** Listing an item keeps every price positive; it keeps every owner
      registered when the session user is; and with an id not yet in use it
      keeps the ids distinct. */
  lemma AddItemKeepsInvariants(users: seq<User>, items: seq<Item>, session: string, itemName: string,
                               description: string, price: PriceField, image: string, id: int, createdAt: string)
    requires AddItem(items, session, itemName, description, price, image, id, createdAt).Ok?
    ensures var after := AddItem(items, session, itemName, description, price, image, id, createdAt).value;
      && (PositivePrices(items) ==> PositivePrices(after))
      && (OwnersRegistered(users, items) && Registered(users, session) ==> OwnersRegistered(users, after))
      && (DistinctIds(items) && !Listed(items, id) ==> DistinctIds(after))
  {
  }

  /** The `/delete-item` handler on the items list: check the session, then
      splice out the first item with that id listed by the session user. A
      missing item and someone else's item are one outcome. */
  function RemoveItem(items: seq<Item>, session: string, id: int): (r: Result<seq<Item>>)
    ensures r.Ok? <==> HasSession(session) && exists k :: 0 <= k < |items| && items[k].id == id && items[k].createdBy == session
    ensures r.Err? ==> r.error == if HasSession(session) then NotFoundOrNotOwner else NoSession
    ensures r.Ok? ==> exists k :: IsFirstOwned(items, id, session, k) && r.value == RemoveAt(items, k)
  {
    if !HasSession(session) then Err(NoSession)
    else
      match OwnedItemIndex(items, id, session)
      case None => Err(NotFoundOrNotOwner)
      case Some(k) => Ok(RemoveAt(items, k))
  }

  /** A delete removes exactly one item, one listed by the requester: the list
      is one shorter, and every item listed by anyone else is still there as
      often as before. */
  lemma {:induction false} RemoveItemOnlyOwn(items: seq<Item>, session: string, id: int)
    requires RemoveItem(items, session, id).Ok?
    ensures var after := RemoveItem(items, session, id).value;
      && |after| == |items| - 1
      && (forall it: Item :: it.createdBy != session ==> multiset(after)[it] == multiset(items)[it])
      && exists removed: Item :: removed.createdBy == session && removed.id == id
                          && multiset(after) + multiset{removed} == multiset(items)
  {
    var k := OwnedItemIndex(items, id, session).value;
    var after := RemoveAt(items, k);
    assert RemoveItem(items, session, id).value == after;
    assert multiset(after) + multiset{items[k]} == multiset(items);
  }

  /** A delete keeps prices positive, ids distinct and owners registered. */
  lemma RemoveItemKeepsInvariants(users: seq<User>, items: seq<Item>, session: string, id: int)
    requires RemoveItem(items, session, id).Ok?
    ensures var after := RemoveItem(items, session, id).value;
      && (PositivePrices(items) ==> PositivePrices(after))
      && (DistinctIds(items) ==> DistinctIds(after))
      && (OwnersRegistered(users, items) ==> OwnersRegistered(users, after))
  {
    var k := OwnedItemIndex(items, id, session).value;
    var after := RemoveAt(items, k);
    assert RemoveItem(items, session, id).value == after;
    if DistinctIds(items) {
      forall i, j | 0 <= i < j < |after| ensures after[i].id != after[j].id {
        var i' := if i < k then i else i + 1;
        var j' := if j < k then j else j + 1;
        assert after[i] == items[i'] && after[j] == items[j'];
      }
    }
  }
}
