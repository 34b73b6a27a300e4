/** `authenticateToken`: pick the session token from the `access_token`
    cookie or, failing that, from the `Authorization` header; answer 401
    without one and 403 when `jwt.verify` with `JWT_SECRET` fails; otherwise
    put the decoded payload on the request and call `next`. */
module AuthMiddleware {
  import opened Wrappers
  import opened JsText
  import Jwt
  import AuthController

  /** `req.cookies?.access_token || (authHeader && authHeader.split(" ")[1])`:
      a non-empty cookie wins; otherwise the second space-separated piece of
      the header, when there is one and it is not empty (empty strings and a
      missing piece are falsy). Whatever the first piece is, it is not
      checked. */
  function SelectToken(cookie: Option<string>, header: Option<string>): (t: Option<string>)
    ensures t.Some? ==> t.value != ""
    ensures cookie.Some? && cookie.value != "" ==> t == cookie
    ensures (cookie.None? || cookie.value == "") && header.None? ==> t.None?
  {
    if cookie.Some? && cookie.value != "" then cookie
    else if header.Some? && header.value != "" then
      var parts := Split(header.value);
      if |parts| > 1 && parts[1] != "" then Some(parts[1]) else None
    else None
  }

  /** The three ways the middleware ends. */
  datatype Decision = Unauthorized | Forbidden | Pass(user: Jwt.Payload)

  function DecisionStatus(d: Decision): Option<nat>
  {
    match d
    case Unauthorized => Some(401)
    case Forbidden => Some(403)
    case Pass(_) => None
  }

  /** What `authenticateToken` decides at time `now` with secret `secret`. */
  function Decide(cookie: Option<string>, header: Option<string>, secret: string, now: nat): (d: Decision)
    ensures d == Unauthorized <==> SelectToken(cookie, header).None?
    ensures d == Forbidden <==>
              SelectToken(cookie, header).Some? && Jwt.Verify(SelectToken(cookie, header).value, secret, now).Failure?
    ensures d.Pass? ==> Jwt.Verify(SelectToken(cookie, header).value, secret, now) == Success(d.user)
  {
    match SelectToken(cookie, header)
    case None => Unauthorized
    case Some(token) =>
      match Jwt.Verify(token, secret, now)
      case Failure(_) => Forbidden
      case Success(user) => Pass(user)
  }

  /** With no usable cookie, a header of two space-separated words yields the
      second word as the token, whatever the first word is (`Bearer` or not). */
  lemma {:induction false} HeaderSecondWord(cookie: Option<string>, scheme: string, token: string)
    requires cookie.None? || cookie.value == ""
    requires ' ' !in scheme && ' ' !in token && token != ""
    ensures SelectToken(cookie, Some(scheme + " " + token)) == Some(token)
  {
    SplitAtFirstSpace(scheme, token);
    SplitNoSpace(token);
  }

  /** A session token signed at `iat` passes, in the cookie or after any
      scheme word in the header, exactly while it is fresh, and is refused
      with 403 afterwards. */
  lemma {:induction false} SessionTokenPasses(claims: Jwt.Claims, secret: string, iat: nat, now: nat,
                           scheme: string, header: Option<string>)
    requires secret != "" && ' ' !in scheme
    ensures var token := Jwt.Sign(claims, secret, iat, Jwt.SessionLifetime).value;
            var expected := if now < iat + Jwt.SessionLifetime
                            then Pass(Jwt.Payload(claims, iat, iat + Jwt.SessionLifetime))
                            else Forbidden;
            && Decide(Some(token), header, secret, now) == expected
            && Decide(None, Some(scheme + " " + token), secret, now) == expected
  {
    var token := Jwt.Sign(claims, secret, iat, Jwt.SessionLifetime).value;
    Jwt.VerifySigned(claims, secret, iat, Jwt.SessionLifetime, now);
    HeaderSecondWord(None, scheme, token);
  }

  /** Without `JWT_SECRET` in the environment `jwt.verify` fails for every
      token: a request with a token gets 403, one without gets 401, and none
      passes. */
  lemma {:induction false} UnsetSessionSecretForbids(cookie: Option<string>, header: Option<string>, now: nat,
                                                    resetSecret: Option<string>, frontendUrl: Option<string>,
                                                    nodeEnv: Option<string>, recipient: string)
    ensures Decide(cookie, header, AuthController.LoadConfig(None, resetSecret, frontendUrl, nodeEnv, recipient).sessionSecret, now)
              == if SelectToken(cookie, header).None? then Unauthorized else Forbidden
  {
    var secret := AuthController.LoadConfig(None, resetSecret, frontendUrl, nodeEnv, recipient).sessionSecret;
    assert secret == "";
  }

  /** A token signed with the reset secret is refused as a session (403)
      when the two secrets differ. */
  lemma {:induction false} ResetTokenIsNoSession(claims: Jwt.Claims, sessionSecret: string, resetSecret: string,
                              iat: nat, now: nat, header: Option<string>)
    requires resetSecret != "" && sessionSecret != resetSecret
    ensures Decide(Some(Jwt.Sign(claims, resetSecret, iat, Jwt.ResetLifetime).value), header, sessionSecret, now)
              == Forbidden
  {
    Jwt.VerifyOtherKey(claims, resetSecret, sessionSecret, iat, Jwt.ResetLifetime, now);
  }

  /** After a successful login, the cookie it set lets the user through for
      two hours, and `verifyAuth` then answers with the user's id and stored
      e-mail. */
  lemma {:induction false} LoginThenVerify(db: AuthController.Db, cfg: AuthController.Config, email: string,
                        password: Option<string>, now: nat, k: nat, header: Option<string>)
    requires AuthController.WellFormed(db)
    requires AuthController.LoginSpec(db, cfg, email, password, now).LoggedIn?
    requires k < Jwt.SessionLifetime
    ensures var o := AuthController.LoginSpec(db, cfg, email, password, now);
            var id := AuthController.FindByEmail(db, email).value;
            && Decide(Some(o.cookie.value), header, cfg.sessionSecret, now + k).Pass?
            && AuthController.VerifyAuth(Decide(Some(o.cookie.value), header, cfg.sessionSecret, now + k).user)
                 == (id, Some(db.users[id].email))
  {
    AuthController.LoginSession(db, cfg, email, password, now, k);
  }

  /** A request passing through the middleware. */
  class Request {
    const cookie: Option<string>
    const authorization: Option<string>
    var user: Option<Jwt.Payload>
    var status: Option<nat>
    var nextCalls: nat

    constructor(cookie: Option<string>, authorization: Option<string>)
      ensures this.cookie == cookie && this.authorization == authorization
      ensures user.None? && status.None? && nextCalls == 0
    {
      this.cookie := cookie;
      this.authorization := authorization;
      user := None;
      status := None;
      nextCalls := 0;
    }

    /** `authenticateToken(req, res, next)` */
    method AuthenticateToken(secret: string, now: nat)
      modifies this
      ensures var d := Decide(cookie, authorization, secret, now);
              if d.Pass? then
                user == Some(d.user) && nextCalls == old(nextCalls) + 1 && status == old(status)
              else
                status == DecisionStatus(d) && user == old(user) && nextCalls == old(nextCalls)
    {
      var token := SelectToken(cookie, authorization);
      if token.None? {
        status := Some(401);
        return;
      }
      var verified := Jwt.Verify(token.value, secret, now);
      if verified.Failure? {
        status := Some(403);
        return;
      }
      user := Some(verified.value);
      nextCalls := nextCalls + 1;
    }
  }
}
