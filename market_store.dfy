/** The marketplace state the handlers read and write: the users list and the
    items list, with one method per state-changing handler. Each method does
    the handler's steps in place and ends in the state the matching function
    of Ledger, Catalog or Trade describes. */
module MarketStore {
  import opened MarketTypes
  import opened Ledger
  import opened Catalog
  import opened Trade

  class Marketplace {
    var users: seq<User>
    var items: seq<Item>

    /** Usernames are unique, no balance is negative, every price is positive. */
    ghost predicate Valid()
      reads this
    {
      UniqueNames(users) && NonNegativeCoins(users) && PositivePrices(items)
    }

    /** A marketplace with no users and no items. */
    constructor ()
      ensures Valid()
      ensures users == [] && items == []
    {
      users := [];
      items := [];
    }

    /** `/register`: refuse a taken name, otherwise push the new user. */
    method Register(username: string, password: string) returns (r: Status)
      requires Valid()
      modifies this
      ensures Valid()
      ensures r == RegisterUser(old(users), username, password).ToStatus()
      ensures users == RegisterUser(old(users), username, password).GetOr(old(users))
      ensures r.Failed? ==> users == old(users)
      ensures items == old(items)
      ensures old(OwnersRegistered(users, items)) ==> OwnersRegistered(users, items)
    {
      if UserIndex(users, username).Some? {
        return Failed(UserExists);
      }
      RegisterKeepsNamesUnique(users, username, password);
      RegisterMintsStartingCoins(users, username, password);
      users := users + [User(username, password, StartingCoins)];
      r := Done;
    }

    /** `/create-item`: check the session, the fields and the price, then push
        the new item listed by the session user. */
    method CreateItem(session: string, itemName: string, description: string, price: PriceField,
                      image: string, id: int, createdAt: string) returns (r: Status)
      requires Valid()
      modifies this
      ensures Valid()
      ensures r == AddItem(old(items), session, itemName, description, price, image, id, createdAt).ToStatus()
      ensures items == AddItem(old(items), session, itemName, description, price, image, id, createdAt).GetOr(old(items))
      ensures r.Failed? ==> items == old(items)
      ensures users == old(users)
      ensures old(OwnersRegistered(users, items)) && Registered(users, session) ==> OwnersRegistered(users, items)
      ensures old(DistinctIds(items)) && !Listed(old(items), id) ==> DistinctIds(items)
    {
      if !HasSession(session) {
        return Failed(NoSession);
      }
      if itemName == "" || description == "" || price.Missing? || image == "" {
        return Failed(MissingField);
      }
      if price.NotANumber? || price.value <= 0 {
        return Failed(InvalidPrice);
      }
      AddItemKeepsInvariants(users, items, session, itemName, description, price, image, id, createdAt);
      items := items + [Item(id, itemName, description, price.value, image, session, createdAt)];
      r := Done;
    }

    /** `/buy-item`: find the item, check the buyer's funds, debit the buyer,
        then find the seller and credit them. The items list is left alone. */
    method BuyItem(session: string, itemId: int) returns (r: Status)
      requires Valid()
      modifies this
      ensures Valid()
      ensures r == Purchase(old(users), items, session, itemId).ToStatus()
      ensures users == Purchase(old(users), items, session, itemId).GetOr(old(users))
      ensures r.Failed? ==> users == old(users)
      ensures items == old(items)
      ensures TotalCoins(users) == old(TotalCoins(users))
      ensures old(OwnersRegistered(users, items)) ==> OwnersRegistered(users, items)
    {
      if !HasSession(session) {
        return Failed(NoSession);
      }
      var found := ItemIndex(items, itemId);
      if found.None? {
        return Failed(NotFound);
      }
      var i := found.value;
      var item := items[i];
      var buyerAt := UserIndex(users, session);
      if buyerAt.None? {
        return Failed(UnknownUser);
      }
      var b := buyerAt.value;
      PurchaseRefused(users, items, session, itemId, i, b);
      if users[b].coins < item.price {
        return Failed(InsufficientCoins);
      }
      var before := users;
      users := users[b := users[b].(coins := users[b].coins - item.price)];
      assert users == AdjustCoins(before, b, -item.price);
      SameAccountsSameIndex(before, users, item.createdBy);
      var sellerAt := UserIndex(users, item.createdBy);
      if sellerAt.None? {
        // The debit was never written back: the state is as before the request.
        users := before;
        return Failed(UnknownUser);
      }
      var s := sellerAt.value;
      users := users[s := users[s].(coins := users[s].coins + item.price)];
      PurchaseMovesPrice(before, items, session, itemId, i, b, s);
      assert Purchase(before, items, session, itemId) == Ok(users);
      PurchaseKeepsInvariants(before, items, session, itemId);
      r := Done;
    }

    /** `/delete-item`: find the first item with that id listed by the session
        user and splice it out. */
    method DeleteItem(session: string, itemId: int) returns (r: Status)
      requires Valid()
      modifies this
      ensures Valid()
      ensures r == RemoveItem(old(items), session, itemId).ToStatus()
      ensures items == RemoveItem(old(items), session, itemId).GetOr(old(items))
      ensures r.Failed? ==> items == old(items)
      ensures users == old(users)
      ensures old(OwnersRegistered(users, items)) ==> OwnersRegistered(users, items)
      ensures old(DistinctIds(items)) ==> DistinctIds(items)
    {
      if !HasSession(session) {
        return Failed(NoSession);
      }
      var found := OwnedItemIndex(items, itemId, session);
      if found.None? {
        return Failed(NotFoundOrNotOwner);
      }
      var k := found.value;
      RemoveItemKeepsInvariants(users, items, session, itemId);
      items := items[..k] + items[k + 1..];
      r := Done;
    }
  }
}
