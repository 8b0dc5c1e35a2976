/** The users list: registration, login, the coin-balance lookup, and the
    coin arithmetic the buy handler performs on user records. */
module Ledger {
  import opened MarketTypes
  import opened Search

  /** Coins every newly registered user starts with. */
  const StartingCoins: int := 100

  /** Some user in the list is called `name`. */
  predicate Registered(users: seq<User>, name: string) {
    exists i :: 0 <= i < |users| && users[i].username == name
  }

  /** `k` is the position `users.find(u => u.username === name)` stops at. */
  predicate IsFirstUser(users: seq<User>, name: string, k: nat) {
    && k < |users|
    && users[k].username == name
    && forall j :: 0 <= j < k ==> users[j].username != name
  }

  /** No two users share a username. */
  predicate UniqueNames(users: seq<User>) {
    forall i, j :: 0 <= i < j < |users| ==> users[i].username != users[j].username
  }

  /** No balance is negative. */
  predicate NonNegativeCoins(users: seq<User>) {
    forall i :: 0 <= i < |users| ==> users[i].coins >= 0
  }

  /** `after` holds the same accounts as `before`, at the same positions, with
      possibly different balances. */
  predicate SameAccounts(before: seq<User>, after: seq<User>) {
    && |after| == |before|
    && forall k :: 0 <= k < |before| ==>
         after[k].username == before[k].username && after[k].password == before[k].password
  }

  /** The sum of all balances. */
  function TotalCoins(users: seq<User>): int {
    if |users| == 0 then 0 else users[0].coins + TotalCoins(users[1..])
  }

  lemma {:induction false} TotalCoinsAppend(users: seq<User>, u: User)
    ensures TotalCoins(users + [u]) == TotalCoins(users) + u.coins
  {
    if |users| == 0 {
      assert users + [u] == [u];
    } else {
      assert (users + [u])[1..] == users[1..] + [u];
      TotalCoinsAppend(users[1..], u);
    }
  }

  lemma {:induction false} TotalCoinsUpdate(users: seq<User>, k: nat, u: User)
    requires k < |users|
    ensures TotalCoins(users[k := u]) == TotalCoins(users) - users[k].coins + u.coins
  {
    if k == 0 {
      assert users[k := u][1..] == users[1..];
    } else {
      assert users[k := u][1..] == users[1..][k - 1 := u];
      TotalCoinsUpdate(users[1..], k - 1, u);
    }
  }

  /** The position of the first user called `name` (server.js:52, 162, 256, 264). */
  function UserIndex(users: seq<User>, name: string): (r: Option<nat>)
    ensures r.Some? ==> IsFirstUser(users, name, r.value)
    ensures r.None? <==> !Registered(users, name)
  {
    FindIndex(users, (u: User) => u.username == name)
  }

  /** `user.coins += delta` on the record at position `k`: that one balance moves
      by `delta`, every other record stays, and so the total moves by `delta`. */
  function AdjustCoins(users: seq<User>, k: nat, delta: int): (r: seq<User>)
    requires k < |users|
    ensures SameAccounts(users, r)
    ensures r[k].coins == users[k].coins + delta
    ensures forall j :: 0 <= j < |users| && j != k ==> r[j] == users[j]
    ensures TotalCoins(r) == TotalCoins(users) + delta
  {
    var u := users[k].(coins := users[k].coins + delta);
    TotalCoinsUpdate(users, k, u);
    users[k := u]
  }

  /** The `/register` handler on the users list: refuse a name already present,
      otherwise append the new user with the starting balance. */
  function RegisterUser(users: seq<User>, username: string, password: string): (r: Result<seq<User>>)
    ensures r.Err? <==> Registered(users, username)
    ensures r.Err? ==> r.error == UserExists
    ensures r.Ok? ==> |r.value| == |users| + 1 && r.value[..|users|] == users
    ensures r.Ok? ==> r.value[|users|] == User(username, password, StartingCoins)
  {
    if UserIndex(users, username).Some? then Err(UserExists)
    else Ok(users + [User(username, password, StartingCoins)])
  }

  /** Registration never introduces a second user with an existing name. */
  lemma RegisterKeepsNamesUnique(users: seq<User>, username: string, password: string)
    requires UniqueNames(users)
    ensures RegisterUser(users, username, password).Ok? ==>
              UniqueNames(RegisterUser(users, username, password).value)
  {
  }

  /** A successful registration adds exactly the starting balance to the total
      and keeps every balance non-negative. */
  lemma RegisterMintsStartingCoins(users: seq<User>, username: string, password: string)
    requires RegisterUser(users, username, password).Ok?
    ensures TotalCoins(RegisterUser(users, username, password).value) == TotalCoins(users) + StartingCoins
    ensures NonNegativeCoins(users) ==> NonNegativeCoins(RegisterUser(users, username, password).value)
  {
    TotalCoinsAppend(users, User(username, password, StartingCoins));
  }

  /** What a successful login stores in the session and sends back. */
  datatype LoginSession = LoginSession(username: string, coins: int, token: string)

  /** The `/login` handler on the users list: the first user whose username and
      password both match opens a session holding that user's balance. */
  function Login(users: seq<User>, username: string, password: string): (r: Result<LoginSession>)
    ensures r.Ok? <==> exists i :: 0 <= i < |users| && users[i].username == username && users[i].password == password
    ensures r.Err? ==> r.error == InvalidCredentials
    ensures r.Ok? ==> r.value.username == username && r.value.token == username + "-token"
    ensures r.Ok? ==> User(username, password, r.value.coins) in users
  {
    match FindIndex(users, (u: User) => u.username == username && u.password == password)
    case None => Err(InvalidCredentials)
    case Some(k) => Ok(LoginSession(username, users[k].coins, username + "-token"))
  }

  /** The `/get-coin-balance` handler: the balance of the session user. */
  function CoinBalance(users: seq<User>, session: string): (r: Result<int>)
    ensures r.Ok? <==> HasSession(session) && Registered(users, session)
    ensures r.Err? ==> r.error == if HasSession(session) then UnknownUser else NoSession
    ensures r.Ok? ==> exists i :: 0 <= i < |users| && users[i].username == session && users[i].coins == r.value
  {
    if !HasSession(session) then Err(NoSession)
    else
      match UserIndex(users, session)
      case None => Err(UnknownUser)
      case Some(k) => Ok(users[k].coins)
  }

  /** With unique names, the balance lookup reports the balance of the one user
      with that name. */
  lemma BalanceOfUser(users: seq<User>, k: nat)
    requires UniqueNames(users)
    requires k < |users| && HasSession(users[k].username)
    ensures CoinBalance(users, users[k].username) == Ok(users[k].coins)
  {
  }
}
