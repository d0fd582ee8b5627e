/**
 * The client-side route guard: it renders the protected page only when a stored
 * token decodes and has not expired, and drops a token that fails either test.
 */
module ProtectedRoute {
  import opened Wrappers
  import opened Browser
  import Jwt

  const Home := "/"

  datatype Route = Redirect(to: string) | RenderChildren

  /**
   * `decoded.exp && decoded.exp < Date.now() / 1000`, with the clock in integer
   * milliseconds: a missing or zero `exp` never expires.
   */
  predicate Expired(c: Jwt.Claims, nowMs: int) {
    c.exp.Some? && c.exp.value != 0 && c.exp.value * 1000 < nowMs
  }

  /** The guard's decision on the stored token (`decode` stands for the signature-blind payload decoder). */
  function Decide(token: Option<string>, decode: string -> Option<Jwt.Claims>, nowMs: int): (r: Route)
    ensures r == RenderChildren <==>
              token.Some? && token.value != "" && decode(token.value).Some? && !Expired(decode(token.value).value, nowMs)
    ensures r.Redirect? ==> r.to == Home
  {
    if token.None? || token.value == "" then Redirect(Home)
    else match decode(token.value)
      case None => Redirect(Home)
      case Some(c) => if Expired(c, nowMs) then Redirect(Home) else RenderChildren
  }

  /** `ProtectedRoute`: decide, and remove a stored token that does not decode or has expired. */
  method Guard(storage: SessionStorage, decode: string -> Option<Jwt.Claims>, nowMs: int) returns (route: Route)
    modifies storage
    ensures var token := old(storage.GetItem(TokenKey));
            route == Decide(token, decode, nowMs) &&
            storage.items == if route.Redirect? && token.Some? && token.value != ""
                             then old(storage.items) - {TokenKey}
                             else old(storage.items)
  {
    var token := storage.GetItem(TokenKey);
    if token.None? || token.value == "" {
      return Redirect(Home);
    }
    var decoded := decode(token.value);
    if decoded.None? {
      storage.RemoveItem(TokenKey);
      return Redirect(Home);
    }
    if Expired(decoded.value, nowMs) {
      storage.RemoveItem(TokenKey);
      return Redirect(Home);
    }
    route := RenderChildren;
  }

  /** The comparison is strict: a token whose `exp` is exactly the current second is still accepted. */
  lemma ExpiryIsStrict(token: string, decode: string -> Option<Jwt.Claims>, c: Jwt.Claims, nowMs: int)
    requires token != "" && decode(token) == Some(c)
    requires c.exp.Some? && c.exp.value * 1000 == nowMs
    ensures Decide(Some(token), decode, nowMs) == RenderChildren
  {
  }

  /** A decodable token without an `exp` claim is accepted at every time. */
  lemma NoExpiryAlwaysAccepted(token: string, decode: string -> Option<Jwt.Claims>, c: Jwt.Claims, nowMs: int)
    requires token != "" && decode(token) == Some(c) && c.exp.None?
    ensures Decide(Some(token), decode, nowMs) == RenderChildren
  {
  }
}
