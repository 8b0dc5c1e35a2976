/** The entities of the marketplace backend: registered users, listed items,
    the error outcomes of the request handlers, and the session username. */
module MarketTypes {

  /** A registered account: `{username, password, coins}` in the users list. */
  datatype User = User(username: string, password: string, coins: int)

  /** A listed item. `createdBy` is the username of the session that listed it;
      `createdAt` is an opaque timestamp supplied by the caller. */
  datatype Item = Item(
    id: int,
    itemName: string,
    description: string,
    price: int,
    image: string,
    createdBy: string,
    createdAt: string)

  /** The `price` field of a create-item request as the handler sees it: absent
      or empty, present but not a number, or a number. */
  datatype PriceField = Missing | NotANumber | Amount(value: int)

  /** What a handler reports instead of success. */
  datatype Error =
    | UserExists          // register: a user with that name is already present
    | InvalidCredentials  // login: no user with that username and password
    | NoSession           // the handler's own session check failed
    | MissingField        // create-item: a required field is absent or empty
    | InvalidPrice        // create-item: the price is not a positive number
    | NotFound            // buy: no item with that id
    | InsufficientCoins   // buy: the buyer's balance is below the price
    | NotFoundOrNotOwner  // delete: no item with that id owned by the requester
    | UnknownUser         // a session or seller name that is not in the users list

  datatype Option<T> = None | Some(value: T)

  datatype Result<T> = Ok(value: T) | Err(error: Error) {

    /** The success value, or `default` on failure. */
    function GetOr(default: T): T {
      match this
      case Ok(v) => v
      case Err(_) => default
    }

    /** Forgets the success value. */
    function ToStatus(): Status {
      match this
      case Ok(_) => Done
      case Err(e) => Failed(e)
    }
  }

  /** The outcome of a handler that changes state and answers only with a message. */
  datatype Status = Done | Failed(error: Error)

  /** The handlers test `!req.session.username`, which holds both when no one is
      logged in and when the stored username is the empty string. */
  predicate HasSession(session: string) {
    session != ""
  }
}
