/** A worked run of the handlers on concrete values: two users register, one
    lists an item, the other buys it until their coins run out. */
module Scenarios {
  import opened MarketTypes
  import opened Ledger
  import opened Catalog
  import opened Trade

  const Lamp: Item := Item(1, "Lamp", "A desk lamp", 30, "uploads/1.png", "ann", "t0")

  function Pair(annCoins: int, bobCoins: int): seq<User> {
    [User("ann", "pw1", annCoins), User("bob", "pw2", bobCoins)]
  }

  /** Registering "ann" and then "bob" gives both 100 coins; ann listing the
      lamp at 30 coins puts it in the list as hers. */
  lemma ScenarioSetup()
    ensures RegisterUser(RegisterUser([], "ann", "pw1").value, "bob", "pw2") == Ok(Pair(100, 100))
    ensures AddItem([], "ann", "Lamp", "A desk lamp", Amount(30), "uploads/1.png", 1, "t0") == Ok([Lamp])
  {
    assert RegisterUser([], "ann", "pw1") == Ok([User("ann", "pw1", 100)]);
    assert [User("ann", "pw1", 100)] + [User("bob", "pw2", 100)] == Pair(100, 100);
  }

  /** Bob buying ann's lamp moves 30 coins from bob to ann when bob has them,
      and is refused otherwise; the lamp stays listed either way. */
  lemma {:induction false} BobBuysLamp(annCoins: int, bobCoins: int)
    ensures bobCoins >= 30 ==> Purchase(Pair(annCoins, bobCoins), [Lamp], "bob", 1) == Ok(Pair(annCoins + 30, bobCoins - 30))
    ensures bobCoins < 30 ==> Purchase(Pair(annCoins, bobCoins), [Lamp], "bob", 1) == Err(InsufficientCoins)
  {
    var users := Pair(annCoins, bobCoins);
    assert IsFirstItem([Lamp], 1, 0);
    assert IsFirstUser(users, "ann", 0) && IsFirstUser(users, "bob", 1);
    PurchaseRefused(users, [Lamp], "bob", 1, 0, 1);
    if bobCoins >= 30 {
      PurchaseMovesPrice(users, [Lamp], "bob", 1, 0, 1, 0);
      var after := Purchase(users, [Lamp], "bob", 1).value;
      assert after == Pair(annCoins + 30, bobCoins - 30);
    }
  }

  /** From 100 coins each, bob buys the lamp three times (ann 130/160/190,
      bob 70/40/10) and the fourth buy is refused. */
  lemma RepeatedPurchaseScenario()
    ensures Purchase(Pair(100, 100), [Lamp], "bob", 1) == Ok(Pair(130, 70))
    ensures Purchase(Pair(130, 70), [Lamp], "bob", 1) == Ok(Pair(160, 40))
    ensures Purchase(Pair(160, 40), [Lamp], "bob", 1) == Ok(Pair(190, 10))
    ensures Purchase(Pair(190, 10), [Lamp], "bob", 1) == Err(InsufficientCoins)
  {
    BobBuysLamp(100, 100);
    BobBuysLamp(130, 70);
    BobBuysLamp(160, 40);
    BobBuysLamp(190, 10);
  }
}
