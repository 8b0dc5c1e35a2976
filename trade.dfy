/** The `/buy-item` handler: a purchase moves the item's price from the buyer's
    balance to the seller's. Only the users list changes; the item stays listed. */
module Trade {
  import opened MarketTypes
  import opened Ledger
  import opened Catalog

  /** The users list after `buyer` buys the item with id `itemId`: find the item,
      find the buyer, refuse a buyer who cannot afford the price, debit the buyer,
      then find the seller in the debited list and credit them. A buyer or seller
      missing from the list is `UnknownUser`. */
  function Purchase(users: seq<User>, items: seq<Item>, buyer: string, itemId: int): (r: Result<seq<User>>)
    ensures r.Ok? ==> SameAccounts(users, r.value) && TotalCoins(r.value) == TotalCoins(users)
    ensures !HasSession(buyer) ==> r == Err(NoSession)
    ensures HasSession(buyer) && !Listed(items, itemId) ==> r == Err(NotFound)
    ensures HasSession(buyer) && Listed(items, itemId) && !Registered(users, buyer) ==> r == Err(UnknownUser)
  {
    if !HasSession(buyer) then Err(NoSession)
    else
      match ItemIndex(items, itemId)
      case None => Err(NotFound)
      case Some(i) =>
        var item := items[i];
        match UserIndex(users, buyer)
        case None => Err(UnknownUser)
        case Some(b) =>
          if users[b].coins < item.price then Err(InsufficientCoins)
          else
            var debited := AdjustCoins(users, b, -item.price);
            match UserIndex(debited, item.createdBy)
            case None => Err(UnknownUser)
            case Some(s) => Ok(AdjustCoins(debited, s, item.price))
  }

  /** Two lists with the same usernames at the same positions agree on where
      the first user of any name is. */
  lemma SameAccountsSameIndex(before: seq<User>, after: seq<User>, name: string)
    requires SameAccounts(before, after)
    ensures UserIndex(after, name) == UserIndex(before, name)
  {
    var a, b := UserIndex(after, name), UserIndex(before, name);
    if a.Some? {
      assert IsFirstUser(before, name, a.value);
    }
    if b.Some? {
      assert IsFirstUser(after, name, b.value);
    }
  }

  /** With the item at `i` and the buyer at `b`: a buyer below the price is
      refused with `InsufficientCoins`, and a seller missing from the list makes
      the purchase fail with `UnknownUser`. */
  lemma PurchaseRefused(users: seq<User>, items: seq<Item>, buyer: string, itemId: int, i: nat, b: nat)
    requires HasSession(buyer) && IsFirstItem(items, itemId, i) && IsFirstUser(users, buyer, b)
    ensures users[b].coins < items[i].price ==> Purchase(users, items, buyer, itemId) == Err(InsufficientCoins)
    ensures users[b].coins >= items[i].price && !Registered(users, items[i].createdBy) ==>
              Purchase(users, items, buyer, itemId) == Err(UnknownUser)
  {
    var debited := AdjustCoins(users, b, -items[i].price);
    SameAccountsSameIndex(users, debited, items[i].createdBy);
  }

  /** With the item at `i`, the buyer at `b` and the seller at `s`, a buyer who
      can afford the price buys: the buyer pays exactly the price, the seller
      receives exactly the price, nobody else's record changes, the buyer's
      balance stays non-negative, and buying one's own item changes nothing. */
  lemma {:induction false} PurchaseMovesPrice(users: seq<User>, items: seq<Item>, buyer: string, itemId: int,
                                              i: nat, b: nat, s: nat)
    requires HasSession(buyer) && IsFirstItem(items, itemId, i) && IsFirstUser(users, buyer, b)
    requires IsFirstUser(users, items[i].createdBy, s)
    requires users[b].coins >= items[i].price
    ensures var r := Purchase(users, items, buyer, itemId); var price := items[i].price;
      && r.Ok?
      && SameAccounts(users, r.value)
      && (b != s ==> r.value[b].coins == users[b].coins - price && r.value[s].coins == users[s].coins + price)
      && (forall k :: 0 <= k < |users| && k != b && k != s ==> r.value[k] == users[k])
      && (b != s ==> r.value[b].coins >= 0)
      && (buyer == items[i].createdBy ==> r.value == users)
  {
    var price := items[i].price;
    var debited := AdjustCoins(users, b, -price);
    SameAccountsSameIndex(users, debited, items[i].createdBy);
    var after := AdjustCoins(debited, s, price);
    assert Purchase(users, items, buyer, itemId) == Ok(after);
    if buyer == items[i].createdBy {
      assert b == s;
      assert after == users;
    }
  }

  /** A buy succeeds exactly when there is a session, the item is listed, and
      the buyer is registered and can afford its price, provided every item's
      seller is registered. */
  lemma PurchaseSucceedsIff(users: seq<User>, items: seq<Item>, buyer: string, itemId: int)
    requires OwnersRegistered(users, items)
    ensures Purchase(users, items, buyer, itemId).Ok? <==>
              HasSession(buyer) && exists i: nat, b: nat :: IsFirstItem(items, itemId, i) && IsFirstUser(users, buyer, b)
                                                 && users[b].coins >= items[i].price
  {
    if HasSession(buyer) && Listed(items, itemId) && Registered(users, buyer) {
      var i, b := ItemIndex(items, itemId).value, UserIndex(users, buyer).value;
      PurchaseRefused(users, items, buyer, itemId, i, b);
      if users[b].coins >= items[i].price {
        assert Registered(users, items[i].createdBy);
        PurchaseMovesPrice(users, items, buyer, itemId, i, b, UserIndex(users, items[i].createdBy).value);
        assert IsFirstItem(items, itemId, i) && IsFirstUser(users, buyer, b);
      }
    }
  }

  /** A successful buy keeps usernames unique, balances non-negative (prices
      being positive) and every seller registered. */
  lemma PurchaseKeepsInvariants(users: seq<User>, items: seq<Item>, buyer: string, itemId: int)
    requires Purchase(users, items, buyer, itemId).Ok?
    ensures var after := Purchase(users, items, buyer, itemId).value;
      && (UniqueNames(users) ==> UniqueNames(after))
      && (NonNegativeCoins(users) && PositivePrices(items) ==> NonNegativeCoins(after))
      && (OwnersRegistered(users, items) ==> OwnersRegistered(after, items))
  {
    var after := Purchase(users, items, buyer, itemId).value;
    var i, b := ItemIndex(items, itemId).value, UserIndex(users, buyer).value;
    PurchaseRefused(users, items, buyer, itemId, i, b);
    var s := UserIndex(users, items[i].createdBy).value;
    PurchaseMovesPrice(users, items, buyer, itemId, i, b, s);
    if OwnersRegistered(users, items) {
      forall j | 0 <= j < |items| ensures Registered(after, items[j].createdBy) {
        var k := UserIndex(users, items[j].createdBy).value;
        assert after[k].username == items[j].createdBy;
      }
    }
  }

  /** In terms of the balance lookup, with unique usernames: after a buy from
      another user, the buyer's balance is lower by the price, the seller's is
      higher by the price, and every other user's balance is as before. */
  lemma PurchaseBalances(users: seq<User>, items: seq<Item>, buyer: string, itemId: int, i: nat, name: string)
    requires UniqueNames(users) && IsFirstItem(items, itemId, i)
    requires HasSession(items[i].createdBy)
    requires Purchase(users, items, buyer, itemId).Ok?
    ensures var after := Purchase(users, items, buyer, itemId).value;
            var seller, price := items[i].createdBy, items[i].price;
      && CoinBalance(users, buyer).Ok? && CoinBalance(users, seller).Ok?
      && (buyer != seller ==> CoinBalance(after, buyer) == Ok(CoinBalance(users, buyer).value - price))
      && (buyer != seller ==> CoinBalance(after, seller) == Ok(CoinBalance(users, seller).value + price))
      && (name != buyer && name != seller ==> CoinBalance(after, name) == CoinBalance(users, name))
  {
    var after := Purchase(users, items, buyer, itemId).value;
    var seller := items[i].createdBy;
    var b := UserIndex(users, buyer).value;
    PurchaseRefused(users, items, buyer, itemId, i, b);
    var s := UserIndex(users, seller).value;
    PurchaseMovesPrice(users, items, buyer, itemId, i, b, s);
    BalanceOfUser(users, b);
    BalanceOfUser(users, s);
    if buyer != seller {
      PurchaseKeepsInvariants(users, items, buyer, itemId);
      BalanceOfUser(after, b);
      BalanceOfUser(after, s);
    }
    if name != buyer && name != seller {
      OthersUnchanged(users, after, b, s, name);
    }
  }

  /** When only the records at `b` and `s` may differ, the balance of any
      other name is looked up unchanged. */
  lemma OthersUnchanged(users: seq<User>, after: seq<User>, b: nat, s: nat, name: string)
    requires SameAccounts(users, after) && b < |users| && s < |users|
    requires forall k :: 0 <= k < |users| && k != b && k != s ==> after[k] == users[k]
    requires name != users[b].username && name != users[s].username
    ensures CoinBalance(after, name) == CoinBalance(users, name)
  {
    SameAccountsSameIndex(users, after, name);
  }

  /** A buy leaves the item listed: whoever can afford it next buys it too,
      provided every item's seller is registered. */
  lemma BuyAgain(users: seq<User>, items: seq<Item>, buyer: string, itemId: int, i: nat,
                 nextBuyer: string, b: nat)
    requires OwnersRegistered(users, items)
    requires Purchase(users, items, buyer, itemId).Ok?
    requires IsFirstItem(items, itemId, i) && HasSession(nextBuyer)
    requires IsFirstUser(Purchase(users, items, buyer, itemId).value, nextBuyer, b)
    requires Purchase(users, items, buyer, itemId).value[b].coins >= items[i].price
    ensures Purchase(Purchase(users, items, buyer, itemId).value, items, nextBuyer, itemId).Ok?
  {
    var after := Purchase(users, items, buyer, itemId).value;
    PurchaseKeepsInvariants(users, items, buyer, itemId);
    PurchaseSucceedsIff(after, items, nextBuyer, itemId);
  }
}
