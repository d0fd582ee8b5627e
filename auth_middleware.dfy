/**
 * The bearer-token gate in front of the blog routes: it takes the token out of
 * the Authorization header, verifies it and either attaches the claims to the
 * request and passes it on, or answers 401.
 */
module AuthMiddleware {
  import opened Wrappers
  import opened Text
  import opened Http
  import Jwt

  /** The scheme prefix of section 2.1 of RFC 6750, as both the client and the server spell it. */
  const BearerPrefix := "Bearer "
  const NoToken := "No token, access denied"
  const InvalidToken := "Invalid Token"

  class Request {
    const authorization: Option<string>
    var user: Option<Jwt.Claims>

    constructor (authorization: Option<string>)
      ensures this.authorization == authorization && user == None
    {
      this.authorization := authorization;
      user := None;
    }
  }

  /** Either `next()` is called once and no answer is sent, or the gate answers and `next` is never called. */
  datatype Outcome = Next | Reject(response: Response)

  /** `req.header("Authorization")?.replace("Bearer ", "")`: the header without the first occurrence of the prefix. */
  function ExtractToken(header: Option<string>): (token: Option<string>)
    ensures header.None? <==> token.None?
    ensures header.Some? && IndexOf(header.value, BearerPrefix).None? ==> token == header
    ensures header.Some? && IndexOf(header.value, BearerPrefix).Some? ==>
              var k := IndexOf(header.value, BearerPrefix).value;
              token.value == header.value[..k] + header.value[k + |BearerPrefix|..]
  {
    match header
    case None => None
    case Some(h) =>
      assert IndexOf(h, BearerPrefix).Some? ==>
        var k := IndexOf(h, BearerPrefix).value;
        Expand("", BearerPrefix, h[..k], h[k + |BearerPrefix|..]) == "";
      Some(Replace(h, BearerPrefix, ""))
  }

  /** `authMiddleware(req, res, next)` at time `nowSec`. */
  method Authenticate(req: Request, codec: Jwt.TokenCodec, nowSec: int) returns (outcome: Outcome)
    modifies req
    ensures var token := ExtractToken(req.authorization);
            && (!Truthy(token) ==> outcome == Reject(Response(401, Message(NoToken))))
            && (Truthy(token) && Jwt.Verify(codec, token.value, nowSec).None? ==>
                  outcome == Reject(Response(401, Message(InvalidToken))))
            && (outcome == Next <==> Truthy(token) && Jwt.Verify(codec, token.value, nowSec).Some?)
            && (outcome == Next ==> req.user == Jwt.Verify(codec, token.value, nowSec))
    ensures outcome.Reject? ==> req.user == old(req.user)
  {
    var token := ExtractToken(req.authorization);
    if !Truthy(token) {
      return Reject(Response(401, Message(NoToken)));
    }
    var decoded := Jwt.Verify(codec, token.value, nowSec);
    if decoded.None? {
      return Reject(Response(401, Message(InvalidToken)));
    }
    req.user := decoded;
    outcome := Next;
  }

  /** A header built as the prefix followed by `t` gives back exactly `t`. */
  lemma BearerRoundTrip(t: string)
    ensures ExtractToken(Some(BearerPrefix + t)) == Some(t)
  {
    ReplaceLeadingPrefix(BearerPrefix, t);
  }

  /** A header that is only the prefix yields the empty token, which the gate rejects as missing. */
  lemma BarePrefixIsNoToken()
    ensures ExtractToken(Some(BearerPrefix)) == Some("")
    ensures !Truthy(ExtractToken(Some(BearerPrefix)))
  {
    BearerRoundTrip("");
    assert BearerPrefix + "" == BearerPrefix;
  }
}
