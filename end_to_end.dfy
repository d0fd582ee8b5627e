/**
 * The client and the server together: the bearer header the request
 * interceptor builds is the one the authentication gate takes apart, the
 * sign-in page shows the message that matches the handler's status, and a
 * token issued at sign-in is accepted by the route guard and by the gate for
 * the same two hours, give or take one millisecond.
 */
module EndToEnd {
  import opened Wrappers
  import opened Store
  import opened Http
  import opened Browser
  import opened EmailPattern
  import Jwt
  import AuthController
  import AuthMiddleware
  import ApiService
  import ProtectedRoute
  import FormRules
  import SignIn

  /**
   * A request leaves the client with the headers the interceptor gave it and
   * reaches the gate with its `Authorization` header, if any.
   */
  method AuthorizedCall(url: string, authenticate: Option<bool>, storage: SessionStorage,
                        codec: Jwt.TokenCodec, nowSec: int)
    returns (req: AuthMiddleware.Request, outcome: AuthMiddleware.Outcome)
    ensures var token := storage.GetItem(TokenKey);
            && (!ApiService.AddsBearer(authenticate, token) ==>
                  outcome == AuthMiddleware.Reject(Response(401, Message(AuthMiddleware.NoToken))))
            && (outcome == AuthMiddleware.Next <==>
                  ApiService.AddsBearer(authenticate, token) && Jwt.Verify(codec, token.value, nowSec).Some?)
            && (outcome == AuthMiddleware.Next ==> req.user == Jwt.Verify(codec, token.value, nowSec))
  {
    var config := new ApiService.RequestConfig(url, authenticate, map[]);
    ApiService.InterceptRequest(config, storage);
    var header := if ApiService.AuthorizationHeader in config.headers
                  then Some(config.headers[ApiService.AuthorizationHeader]) else None;
    ghost var token := storage.GetItem(TokenKey);
    if ApiService.AddsBearer(authenticate, token) {
      AuthMiddleware.BearerRoundTrip(token.value);
      assert AuthMiddleware.ExtractToken(header) == token;
    }
    req := new AuthMiddleware.Request(header);
    outcome := AuthMiddleware.Authenticate(req, codec, nowSec);
  }

  /**
   * What the page's request receives for a handler's response: a 2xx answer
   * resolves with its body, any other status rejects with the response.
   */
  function Deliver(res: Response): (reply: SignIn.SigninReply)
    requires 200 <= res.status < 300 ==> res.body.SignedIn?
    ensures reply.SignedIn? <==> 200 <= res.status < 300
    ensures reply.SignedIn? ==> reply.token == res.body.token && reply.user == res.body.user
    ensures reply.HttpError? ==> reply.status == res.status
  {
    if 200 <= res.status < 300 then SignIn.SignedIn(res.body.token, res.body.user)
    else SignIn.HttpError(res.status)
  }

  /**
   * A sign-in from the page to the handler and back. The request goes out
   * only for a valid form; then an unknown e-mail shows the not-found message,
   * a wrong password the invalid-password message, a failing store or hasher the
   * network message, and a matching password stores the issued token and the public user.
   */
  method SignInRoundTrip(page: SignIn.SignInPage, db: Database, storage: SessionStorage,
                         hasher: AuthController.Hasher, codec: Jwt.TokenCodec, nowSec: int,
                         fault: StoreFault, stringify: PublicUser -> string)
    returns (sent: Option<SignIn.SigninRequest>)
    requires db.Valid()
    modifies page, storage
    ensures sent.Some? <==> SignIn.Errors(old(page.form)) == map[]
    ensures sent.None? ==> storage.items == old(storage.items)
    ensures var f := old(page.form);
            sent.Some? && (fault == FindThrows || (f.email in db.users && hasher.compare(f.password, db.users[f.email].password).None?)) ==>
              page.errors == map[SignIn.Server := Some(FormRules.NetworkError)] && storage.items == old(storage.items)
    ensures var f := old(page.form);
            sent.Some? && fault != FindThrows && f.email !in db.users ==>
              page.errors == map[SignIn.Server := Some(SignIn.UserNotFound)] && storage.items == old(storage.items)
    ensures var f := old(page.form);
            sent.Some? && fault != FindThrows && f.email in db.users &&
            hasher.compare(f.password, db.users[f.email].password) == Some(false) ==>
              page.errors == map[SignIn.Server := Some(SignIn.WrongPassword)] && storage.items == old(storage.items)
    ensures var f := old(page.form);
            sent.Some? && fault != FindThrows && f.email in db.users &&
            hasher.compare(f.password, db.users[f.email].password) == Some(true) ==>
              var user := db.users[f.email];
              storage.items == old(storage.items)[TokenKey := Jwt.Issue(codec, user.id, nowSec)]
                                                 [UserKey := stringify(PublicUser(user.name, f.email))]
  {
    var reply := SignIn.NoResponse;
    if SignIn.Errors(page.form) == map[] {
      var res := AuthController.Signin(db, page.form.email, page.form.password, hasher, codec, nowSec, fault);
      reply := Deliver(res);
    }
    sent := page.HandleSubmit(reply, stringify, storage);
  }

  /**
   * A token issued at `issued` seconds, as the guard and the gate see it at
   * `nowMs` milliseconds: the guard (reading the payload without checking the
   * signature) renders up to and including the expiry millisecond, the gate
   * (on whole seconds) accepts strictly before it.
   */
  lemma IssuedTokenClientAndServer(codec: Jwt.TokenCodec, userId: nat, issued: int, nowMs: int)
    requires Jwt.Sound(codec)
    requires Jwt.Issue(codec, userId, issued) != "" && issued + Jwt.Lifetime != 0
    ensures var token := Jwt.Issue(codec, userId, issued);
            var route := ProtectedRoute.Decide(Some(token), codec.decode, nowMs);
            route == ProtectedRoute.RenderChildren <==> nowMs <= (issued + Jwt.Lifetime) * 1000
    ensures var token := Jwt.Issue(codec, userId, issued);
            Jwt.Verify(codec, token, nowMs / 1000).Some? <==> nowMs < (issued + Jwt.Lifetime) * 1000
  {
    var c := Jwt.Claims(userId, issued, Some(issued + Jwt.Lifetime));
    assert codec.decode(codec.sign(c)) == Some(c);
    Jwt.IssuedTokenLifetime(codec, userId, issued, nowMs / 1000);
    SecondsBeforeExpiry(nowMs, issued + Jwt.Lifetime);
  }

  /** On a clock floored to whole seconds, a second before `exp` is a millisecond before `exp * 1000`. */
  lemma SecondsBeforeExpiry(nowMs: int, exp: int)
    ensures nowMs / 1000 < exp <==> nowMs < exp * 1000
  {
    if nowMs / 1000 < exp {
      assert nowMs < (nowMs / 1000 + 1) * 1000;
    } else {
      assert nowMs >= (nowMs / 1000) * 1000;
    }
  }

  /** At the expiry millisecond itself the page still renders while every request it makes is refused. */
  lemma ExpiryMillisecondDisagrees(codec: Jwt.TokenCodec, userId: nat, issued: int)
    requires Jwt.Sound(codec)
    requires Jwt.Issue(codec, userId, issued) != "" && issued + Jwt.Lifetime != 0
    ensures var token := Jwt.Issue(codec, userId, issued);
            var nowMs := (issued + Jwt.Lifetime) * 1000;
            ProtectedRoute.Decide(Some(token), codec.decode, nowMs) == ProtectedRoute.RenderChildren &&
            Jwt.Verify(codec, token, nowMs / 1000).None?
  {
    IssuedTokenClientAndServer(codec, userId, issued, (issued + Jwt.Lifetime) * 1000);
  }
}
