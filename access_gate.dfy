/** The session middleware that every route mounted after it passes through. */
module AccessGate {
  import opened MarketTypes

  /** The paths the middleware lets through without a session. */
  const OpenPaths: set<string> := {"/", "/index.html", "/get-coin-balance", "/items", "/login.html", "/register.html"}

  /** Whether a request for `path` from a session holding `session` reaches the
      route; otherwise it is answered 403. The home page is always reachable,
      a session reaches everything, and without one only the open paths pass. */
  function Allowed(path: string, session: string): (r: bool)
    ensures path == "/" || path == "/index.html" ==> r
    ensures HasSession(session) ==> r
    ensures !HasSession(session) ==> (r <==> path in OpenPaths)
  {
    if path == "/index.html" || path == "/" then true
    else if !HasSession(session) && path != "/get-coin-balance" && path != "/items"
            && path != "/login.html" && path != "/register.html" then false
    else true
  }
}
