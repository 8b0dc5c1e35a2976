# Marketplace store model

A Dafny model of the state kept by a small marketplace web backend
(`server.js`). Users hold a coin balance and list items for sale. Anyone with
a session can buy a listed item, which moves its price from the buyer's
balance to the seller's. The backend keeps two lists:

- the **users** list of `{username, password, coins}`, and
- the **items** list of `{id, itemName, description, price, image, createdBy, createdAt}`.

Each request handler reads these lists, changes them in memory, and writes
them back. With the file reads, JSON and HTTP stripped away, each handler is a
deterministic transition over the two lists that either succeeds or answers
with an error. The model has these modules:

- `MarketTypes` (`market_types.dfy`): the user and item records, the create-item price field, the
  error outcomes, `Result`/`Status`, and `HasSession`. A handler's
  `!req.session.username` holds both for no session and for an empty username,
  so the session is a string and `""` means "no session".
- `Search` (`search.dfy`): `FindIndex`, the first element satisfying a predicate. This is what
  `Array.prototype.find` and `findIndex` compute.
- `Ledger` (`ledger.dfy`): the users list. Covers registration, login, the coin-balance lookup,
  the total of all balances, and the single-balance update `AdjustCoins`
  (`user.coins += delta`).
- `Catalog` (`catalog.dfy`): the items list. Covers create-item validation and append, and
  delete (first item with that id owned by the requester, spliced out).
- `Trade` (`trade.dfy`): the buy handler. It finds the item, checks the buyer's funds, debits the
  buyer, then finds the seller in the debited list and credits them.
- `AccessGate` (`access_gate.dfy`): the session middleware as a pure predicate over path and session.
- `MarketStore` (`market_store.dfy`): class `Marketplace`, which holds `users` and `items` as
  fields. It has one method per state-changing handler. Each method performs the
  handler's steps in place: `push` becomes appending, `coins -=`/`+=` become
  index updates, `splice` becomes removal. Its `ensures` state that the new
  lists are what the matching function of `Ledger`, `Catalog` or `Trade` gives,
  and that a failure leaves both lists unchanged. `Valid()` (unique usernames,
  non-negative balances, positive prices) is kept by every method.
- `Scenarios` (`scenarios.dfy`): a concrete run. Two users register, one lists an item, and the other
  buys it repeatedly until their coins run out.

Behaviours kept as the code has them:

- A buy does not reject self-purchase. The buyer and seller are the same record,
  so the balance ends where it started.
- A buy never removes the item. Only the users list is written, so the same item
  can be bought again.
- Delete reports "not found" and "not the owner" as one outcome.
- The seller is looked up in the list after the buyer has been debited.

Where this differs from the redesign described for the system, the model
follows the code. That redesign rejects self-purchase, reports `Forbidden`
apart from `NotFound`, and adds locking, rollback and persistence.

## Model

| member | source | states |
|---|---|---|
| `Search.FindIndex` | server.js:292 | The answer is the first index whose element satisfies the predicate; `None` exactly when no element does |
| `Ledger.UserIndex` | server.js:52 | Gives the first user with the name; `None` exactly when no user has that name |
| `Ledger.AdjustCoins` | server.js:263-265 | Only the one balance moves, by exactly `delta`; names, passwords and other records are kept, and the total of all balances moves by `delta` |
| `Ledger.RegisterUser` | server.js:52-58 | Fails with `UserExists` exactly when the name is taken. Otherwise it appends exactly one user at the end, with that name, that password and 100 coins, and keeps all earlier users |
| `Ledger.RegisterKeepsNamesUnique` | server.js:52-58 | Registration keeps usernames unique |
| `Ledger.RegisterMintsStartingCoins` | server.js:58 | A registration adds exactly 100 to the total of all balances and keeps balances non-negative |
| `Ledger.Login` | server.js:79-93 | Succeeds exactly when some user has both the username and the password. The session then holds that username and a balance of a user with those credentials, and the token is `username-token`. Otherwise the result is `InvalidCredentials` |
| `Ledger.CoinBalance` | server.js:152-163 | Fails with `NoSession` without a session and with `UnknownUser` for an unregistered name; otherwise it reports the balance of a user with the session's name |
| `Ledger.BalanceOfUser` | server.js:162-163 | With unique usernames, the lookup reports that one user's balance |
| `AccessGate.Allowed` | server.js:105-112 | `/` and `/index.html` always pass, a session passes everywhere, and without one exactly `/get-coin-balance`, `/items`, `/login.html` and `/register.html` pass as well |
| `Catalog.ItemIndex` | server.js:243-247 | Gives the first item with the id; `None` exactly when no item has it |
| `Catalog.OwnedItemIndex` | server.js:292 | Gives the first item that has both the id and the owner; `None` exactly when no item has both |
| `Catalog.RemoveAt` | server.js:299 | Splicing drops exactly the element at `k`: the list is one shorter, the rest stay in order, and the multiset loses exactly that element |
| `Catalog.AddItem` | server.js:170-210 | Fails with `NoSession`, then with `MissingField` if any field is absent, then with `InvalidPrice` unless the price is a positive number. Success happens exactly when all checks pass; it then appends exactly one item, owned by the session user, with the input price, and keeps all earlier items |
| `Catalog.AddItemKeepsInvariants` | server.js:182-210 | Creating an item keeps prices positive. Owners stay registered when the session user is registered. Ids stay distinct when the new id is fresh |
| `Catalog.RemoveItem` | server.js:280-299 | Succeeds exactly when some item has both the id and the requester as owner. It then removes the first such item; otherwise the result is `NotFoundOrNotOwner`, or `NoSession` |
| `Catalog.RemoveItemOnlyOwn` | server.js:292-299 | A delete removes exactly one item, which has that id and is owned by the requester. The list is one shorter, and every item owned by someone else is kept as often as before |
| `Catalog.RemoveItemKeepsInvariants` | server.js:292-299 | A delete keeps prices positive, ids distinct and owners registered |
| `Trade.Purchase` | server.js:230-265 | A successful buy keeps the same accounts in the same order and conserves the total of all balances. It reports `NoSession`, `NotFound` for an unlisted item and `UnknownUser` for an unregistered buyer |
| `Trade.PurchaseRefused` | server.js:256-265 | A buyer below the price is refused with `InsufficientCoins`; a seller missing from the list makes the buy fail with `UnknownUser` |
| `Trade.PurchaseMovesPrice` | server.js:258-265 | An affordable buy succeeds. The buyer loses exactly the price and the seller gains exactly the price; every other record is unchanged and the buyer stays non-negative. Buying one's own item changes nothing |
| `Trade.PurchaseSucceedsIff` | server.js:243-265 | When every seller is registered, a buy succeeds exactly when there is a session, the item is listed, and the buyer is registered and can afford the price |
| `Trade.PurchaseKeepsInvariants` | server.js:258-268 | A buy keeps usernames unique, balances non-negative (prices being positive) and sellers registered |
| `Trade.PurchaseBalances` | server.js:258-265 | After a buy from someone else, the balance lookup shows the buyer lower by the price and the seller higher by the price; every other user's balance is unchanged |
| `Trade.BuyAgain` | server.js:263-268 | After a buy the item stays listed, so a next buyer who can afford it also succeeds |
| `Scenarios.ScenarioSetup` | server.js:52-58 | Registering two users gives each 100 coins |
| `Scenarios.BobBuysLamp` | server.js:243-265 | A buy between two users moves exactly 30 coins when the buyer has them and is refused with `InsufficientCoins` otherwise |
| `Scenarios.RepeatedPurchaseScenario` | server.js:258-268 | Starting at 100/100, the same item is bought three times (130/70, 160/40, 190/10), and a fourth buy is refused |
| `MarketStore.Marketplace.constructor` | server.js:46-49 | An empty store: no users, no items |
| `MarketStore.Marketplace.Register` | server.js:52-58 | The new users list is what `RegisterUser` gives, or is unchanged on failure. Items are untouched, and unique names and non-negative balances are kept |
| `MarketStore.Marketplace.CreateItem` | server.js:170-210 | The new items list is what `AddItem` gives, or is unchanged on failure. Users are untouched, and positive prices are kept |
| `MarketStore.Marketplace.BuyItem` | server.js:230-268 | The new users list is what `Purchase` gives, or is unchanged on failure. The items list is never changed, the total of all balances is conserved, and the invariants are kept |
| `MarketStore.Marketplace.DeleteItem` | server.js:280-299 | The new items list is what `RemoveItem` gives, or is unchanged on failure. Users are untouched, and the invariants are kept |

## Left out

- Express, express-session, body-parser and static-file serving (server.js:1-23, 98-101, 309-311) are framework plumbing. `AccessGate.Allowed` models only the middleware at server.js:103-113. Routes mounted before it (`/register`, `/login`, `GET /index.html`, and the static files) are not gated.
- Multer storage and upload file names (server.js:26-34) are file I/O. The image path is an opaque string, and the item's `file` field (the stored file name, server.js:205) is not modelled.
- `Catalog.AddItem`: a request with no uploaded file makes the source throw at server.js:176, before validation, and it is answered 500. The model treats the image as an empty string and reports `MissingField`.
- File reads and writes and JSON parsing are left out, along with the 500 answers they produce. The model works on the lists directly.
- Overlapping requests are left out, including the lost updates that the unlocked read-modify-write can cause. The model is sequential.
- `Date.now()` ids and ISO timestamps (server.js:200, 207) depend on the clock, so the caller supplies them. Ids are not required to be fresh; `Catalog.AddItemKeepsInvariants` shows that a fresh id keeps ids distinct.
- JavaScript number semantics are left out. Prices and balances are unbounded integers. Fractional prices, `isNaN` on strings and `Number(price)` are reduced to `PriceField` (missing, not a number, or an integer amount).
- Ids are integers, so the loose `==` between string and number ids (server.js:243, 292) is not modelled.
- HTTP status codes and messages become the `Error` datatype.
- `Ledger.CoinBalance`, `Trade.Purchase`: when the session user or the seller is not in the users list, the source dereferences `undefined` and throws (server.js:163, 258, 265), and nothing is written. The model reports `UnknownUser` and changes nothing.
- `Trade.PurchaseBalances` assumes that the seller's name is non-empty. Every item created through `AddItem` meets this.
- `Trade.PurchaseMovesPrice` states the buyer's non-negative balance only when buyer and seller differ. The general case needs positive prices and is in `Trade.PurchaseKeepsInvariants`.
- The read-only routes `GET /items` and `GET /items/:id` (server.js:115-148) return the list, or the item that `Catalog.ItemIndex` finds, without changing state. They are not separate members.
