/** The account handlers: `register`, `login`, `logout`, `verifyAuth`,
    `forgotPassword` and `resetPassword`, over an in-memory user collection
    with a unique (lower-cased) e-mail index. Each handler is specified by a
    function from the collection's value before the request to its value
    after it and the outcome; the `UserStore` class carries out the same
    steps on a document object and is proved to agree with the function.
    Secrets, the clock, the bcrypt salt, `Math.random`'s JWT id and the mail
    service's success are parameters. */
module AuthController {
  import opened Wrappers
  import opened JsText
  import Bcrypt
  import Jwt
  import opened UserModel

  /** The environment the handlers read: `process.env.JWT_SECRET` (read
      directly, `""` when unset), `config.JWT_RESET_PASSWORD_SECRET`,
      `config.FRONTEND_URL`, whether `NODE_ENV` is `production`, and the
      fixed address reset mails go to in production. The handlers are stated
      for any such value; `LoadConfig` gives the one the program builds. */
  datatype Config = Config(sessionSecret: string, resetSecret: string, frontendUrl: string,
                           production: bool, productionRecipient: string)

  /** `process.env.X || fallback`: an unset or empty variable takes the
      fallback. */
  function EnvOr(v: Option<string>, fallback: string): (r: string)
    ensures v.Some? && v.value != "" ==> r == v.value
    ensures v.None? || v.value == "" ==> r == fallback
    ensures r == "" ==> fallback == ""
  {
    if v.Some? && v.value != "" then v.value else fallback
  }

  /** The values the handlers see for a given process environment. `login`
      and `authenticateToken` read `process.env.JWT_SECRET` itself, so the
      session secret has no fallback (the fallback of `config.JWT_SECRET` is
      never read). The reset secret and the later `FRONTEND_URL` key (the one
      that wins in the object literal) go through `config` and fall back to
      fixed non-empty texts. Production mode is `NODE_ENV` being exactly
      `production`. */
  function LoadConfig(jwtSecret: Option<string>, resetSecret: Option<string>, frontendUrl: Option<string>,
                      nodeEnv: Option<string>, productionRecipient: string): (cfg: Config)
    ensures cfg.sessionSecret == "" <==> jwtSecret.None? || jwtSecret.value == ""
    ensures jwtSecret.Some? ==> cfg.sessionSecret == jwtSecret.value
    ensures cfg.resetSecret != "" && cfg.frontendUrl != ""
    ensures resetSecret.Some? && resetSecret.value != "" ==> cfg.resetSecret == resetSecret.value
    ensures frontendUrl.Some? && frontendUrl.value != "" ==> cfg.frontendUrl == frontendUrl.value
    ensures cfg.production <==> nodeEnv == Some("production")
    ensures cfg.productionRecipient == productionRecipient
  {
    Config(if jwtSecret.Some? then jwtSecret.value else "",
           EnvOr(resetSecret, "your_jwt_reset_secret"),
           EnvOr(frontendUrl, "http://localhost:5173"), nodeEnv == Some("production"), productionRecipient)
  }

  /** The collection: records by id, the unique index on `email`, and the next
      fresh id. */
  datatype Db = Db(users: map<UserId, UserRecord>, emailIndex: map<string, UserId>, nextId: UserId)

  /** Every id is below `nextId`, every record passed validation when saved,
      and the e-mail index maps each stored e-mail to its one record. */
  predicate WellFormed(db: Db)
  {
    && (forall id :: id in db.users ==> id < db.nextId && RecordValid(db.users[id]))
    && (forall id :: id in db.users ==>
          db.users[id].email in db.emailIndex && db.emailIndex[db.users[id].email] == id)
    && (forall e :: e in db.emailIndex ==>
          db.emailIndex[e] in db.users && db.users[db.emailIndex[e]].email == e)
  }

  const EmptyDb := Db(map[], map[], 0)

  lemma {:induction false} EmptyWellFormed()
    ensures WellFormed(EmptyDb)
  {
  }

  /** Two stored users never share an e-mail; since stored e-mails are
      lower-cased, they never share one that differs only in case either. */
  lemma {:induction false} EmailsUnique(db: Db, a: UserId, b: UserId)
    requires WellFormed(db)
    requires a in db.users && b in db.users
    requires ToLower(db.users[a].email) == ToLower(db.users[b].email)
    ensures a == b
  {
    LowerOfLower(db.users[a].email);
    LowerOfLower(db.users[b].email);
  }

  lemma {:induction false} LowerOfLower(s: string)
    requires !HasUpper(s)
    ensures ToLower(s) == s
  {
    forall i | 0 <= i < |s| ensures ToLower(s)[i] == s[i] {
      assert !IsUpper(s[i]);
    }
  }

  /** `User.findOne({ email })`: the `lowercase` setter also applies to the
      query value. */
  function FindByEmail(db: Db, email: string): (r: Option<UserId>)
    requires WellFormed(db)
    ensures r.Some? ==> r.value in db.users && db.users[r.value].email == ToLower(email)
    ensures r.None? ==> forall id :: id in db.users ==> db.users[id].email != ToLower(email)
  {
    var key := ToLower(email);
    if key in db.emailIndex then Some(db.emailIndex[key]) else None
  }

  /** A reply's status code, `success` flag and message. */
  datatype Reply = Reply(status: nat, success: bool, message: string)

  // ------------------------------------------------------------ register

  datatype RegisterOutcome =
    | Created(userId: UserId)
    | DuplicateEmail
    | RegisterInvalid(fields: set<UserField>)

  /** The bodies `register` answers with: `{ userId }` or `{ message }`,
      without a `success` flag. */
  datatype RegisterBody = UserIdBody(userId: UserId) | MessageBody(message: string)

  /** The status and body of a `register` reply; a validation failure carries
      the `ValidationError`'s own message, which is given. */
  function RegisterReply(o: RegisterOutcome, validationMessage: string): (nat, RegisterBody)
  {
    match o
    case Created(id) => (201, UserIdBody(id))
    case DuplicateEmail => (409, MessageBody("Este correo ya está registrado."))
    case RegisterInvalid(_) => (400, MessageBody(validationMessage))
  }

  /** Adds a record under a fresh id. */
  function Insert(db: Db, rec: UserRecord): (r: Db)
    requires WellFormed(db) && RecordValid(rec) && rec.email !in db.emailIndex
    ensures WellFormed(r)
    ensures r.nextId == db.nextId + 1 && db.nextId !in db.users
    ensures r.users == db.users[db.nextId := rec]
  {
    Db(db.users[db.nextId := rec], db.emailIndex[rec.email := db.nextId], db.nextId + 1)
  }

  /** Overwrites the record stored under `id` with one that keeps its e-mail. */
  function Replace(db: Db, id: UserId, rec: UserRecord): (r: Db)
    requires WellFormed(db) && id in db.users && RecordValid(rec) && rec.email == db.users[id].email
    ensures WellFormed(r)
    ensures r.users == db.users[id := rec] && r.emailIndex == db.emailIndex
    ensures r.users.Keys == db.users.Keys && r.nextId == db.nextId
  {
    db.(users := db.users[id := rec])
  }

  /** `register`: build the document, validate it (400 with the failing
      paths), hash the password, and insert it unless its lower-cased e-mail
      is taken (the unique index answers E11000 on `email`: 409). */
  function RegisterSpec(db: Db, name: Option<string>, lastName: Option<string>, age: Option<int>,
                        email: Option<string>, password: Option<string>, salt: nat): (r: (Db, RegisterOutcome))
    requires WellFormed(db)
    ensures WellFormed(r.0)
    ensures !r.1.Created? ==> r.0 == db
    ensures r.1.RegisterInvalid? <==> !DocValid(NewUserDoc(name, lastName, age, email, password))
    ensures r.1.RegisterInvalid? ==> r.1.fields == Failures(NewUserDoc(name, lastName, age, email, password))
    ensures r.1.RegisterInvalid? ==> r.1.fields != {}
    ensures r.1.Created? <==>
              DocValid(NewUserDoc(name, lastName, age, email, password)) && ToLower(email.value) !in db.emailIndex
    ensures r.1 == DuplicateEmail <==>
              DocValid(NewUserDoc(name, lastName, age, email, password)) && ToLower(email.value) in db.emailIndex
    ensures r.1.Created? ==>
              && r.1.userId == db.nextId && r.1.userId !in db.users
              && r.0.users.Keys == db.users.Keys + {r.1.userId}
              && (forall id :: id in db.users ==> r.0.users[id] == db.users[id])
              && r.0.users[r.1.userId].name == Trim(name.value)
              && r.0.users[r.1.userId].lastName == lastName.value
              && r.0.users[r.1.userId].age == age.value
              && r.0.users[r.1.userId].email == ToLower(email.value)
              && Bcrypt.Compare(password.value, r.0.users[r.1.userId].passwordHash)
              && r.0.users[r.1.userId].resetPasswordJti == None
  {
    var d := NewUserDoc(name, lastName, age, email, password);
    var failures := Failures(d);
    if failures != {} then (db, RegisterInvalid(failures))
    else
      NewDocStored(name, lastName, age, email, password, salt);
      var rec := ToRecord(PreSave(d, salt));
      if rec.email in db.emailIndex then (db, DuplicateEmail)
      else (Insert(db, rec), Created(db.nextId))
  }

  /** A valid registration whose e-mail equals a stored one up to case is
      rejected with 409. */
  lemma {:induction false} RegisterDuplicateIgnoresCase(db: Db, name: Option<string>, lastName: Option<string>,
                                     age: Option<int>, email: Option<string>, password: Option<string>,
                                     salt: nat, other: UserId)
    requires WellFormed(db)
    requires DocValid(NewUserDoc(name, lastName, age, email, password))
    requires other in db.users && db.users[other].email == ToLower(email.value)
    ensures RegisterSpec(db, name, lastName, age, email, password, salt) == (db, DuplicateEmail)
  {
    NewDocStored(name, lastName, age, email, password, salt);
  }

  // ------------------------------------------------------------ login and logout

  /** `maxAge: 2 * 60 * 60 * 1000`, in milliseconds. */
  const SessionCookieMaxAge: nat := 2 * 60 * 60 * 1000

  datatype Cookie = Cookie(name: string, value: string, httpOnly: bool, secure: bool,
                           sameSite: string, maxAge: Option<nat>, path: string)

  /** The options both `res.cookie` and `res.clearCookie` use. */
  function SessionCookie(cfg: Config, value: string, maxAge: Option<nat>): Cookie
  {
    Cookie("access_token", value, true, cfg.production,
           if cfg.production then "none" else "lax", maxAge, "/")
  }

  datatype LoginOutcome = LoggedIn(token: string, cookie: Cookie) | BadCredentials | LoginError

  const BadCredentialsMessage := "Correo o contraseña inválidos"

  function LoginReply(o: LoginOutcome): Reply
  {
    match o
    case LoggedIn(_, _) => Reply(200, true, "Inicio de sesión exitoso.")
    case BadCredentials => Reply(401, false, BadCredentialsMessage)
    case LoginError => Reply(500, false, "")
  }

  /** `login`: look the e-mail up, compare the password with the stored digest,
      sign `{ userId, email }` for two hours and set it as the `access_token`
      cookie. A missing password makes `bcrypt.compare` throw (500), and so
      does an unset or empty `JWT_SECRET` in `jwt.sign`. */
  function LoginSpec(db: Db, cfg: Config, email: string, password: Option<string>, now: nat): (o: LoginOutcome)
    requires WellFormed(db)
  {
    match FindByEmail(db, email)
    case None => BadCredentials
    case Some(id) =>
      var u := db.users[id];
      if password.None? then LoginError
      else if !Bcrypt.Compare(password.value, u.passwordHash) then BadCredentials
      else
        match Jwt.Sign(Jwt.Claims(id, Some(u.email), None), cfg.sessionSecret, now, Jwt.SessionLifetime)
        case None => LoginError
        case Some(token) => LoggedIn(token, SessionCookie(cfg, token, Some(SessionCookieMaxAge)))
  }

  /** An unknown e-mail and a wrong password get the one same 401 reply, and
      these are the only two ways to get it. */
  lemma {:induction false} LoginRejectionsIdentical(db: Db, cfg: Config, email: string, password: Option<string>, now: nat)
    requires WellFormed(db)
    ensures LoginSpec(db, cfg, email, password, now) == BadCredentials <==>
              (|| FindByEmail(db, email).None?
               || (password.Some? && !Bcrypt.Compare(password.value, db.users[FindByEmail(db, email).value].passwordHash)))
    ensures LoginSpec(db, cfg, email, password, now) == BadCredentials ==>
              LoginReply(LoginSpec(db, cfg, email, password, now)) == Reply(401, false, BadCredentialsMessage)
  {
  }

  /** Without `JWT_SECRET` in the environment no login succeeds: a known
      e-mail with the right password (or with none) makes `jwt.sign` (or
      `bcrypt.compare`) throw, 500; the other attempts get the usual 401. */
  lemma {:induction false} UnsetSessionSecretFailsLogin(db: Db, email: string, password: Option<string>, now: nat,
                                                       resetSecret: Option<string>, frontendUrl: Option<string>,
                                                       nodeEnv: Option<string>, recipient: string)
    requires WellFormed(db)
    ensures var cfg := LoadConfig(None, resetSecret, frontendUrl, nodeEnv, recipient);
            && !LoginSpec(db, cfg, email, password, now).LoggedIn?
            && (LoginSpec(db, cfg, email, password, now) == LoginError <==>
                  FindByEmail(db, email).Some?
                  && (password.None? || Bcrypt.Compare(password.value, db.users[FindByEmail(db, email).value].passwordHash)))
  {
    var cfg := LoadConfig(None, resetSecret, frontendUrl, nodeEnv, recipient);
    assert cfg.sessionSecret == "";
  }

  /** A successful login carries a token over exactly the user's id and stored
      e-mail, signed with `JWT_SECRET`, and the cookie lives exactly as long as
      the token: the token verifies `k` seconds later exactly when `k` is below
      the cookie's max-age in seconds. */
  lemma {:induction false} LoginSession(db: Db, cfg: Config, email: string, password: Option<string>, now: nat, k: nat)
    requires WellFormed(db)
    requires LoginSpec(db, cfg, email, password, now).LoggedIn?
    ensures var o := LoginSpec(db, cfg, email, password, now);
            var id := FindByEmail(db, email).value;
            && o.cookie.value == o.token && o.cookie.name == "access_token" && o.cookie.httpOnly
            && o.cookie.maxAge == Some(Jwt.SessionLifetime * 1000)
            && Jwt.Verify(o.token, cfg.sessionSecret, now + k) ==
                 (if k < Jwt.SessionLifetime
                  then Success(Jwt.Payload(Jwt.Claims(id, Some(db.users[id].email), None), now, now + Jwt.SessionLifetime))
                  else Failure(Jwt.Expired))
  {
    var id := FindByEmail(db, email).value;
    Jwt.VerifySigned(Jwt.Claims(id, Some(db.users[id].email), None), cfg.sessionSecret, now, Jwt.SessionLifetime, now + k);
  }

  /** `logout`: clear `access_token` with the options it was set with. */
  function Logout(cfg: Config): (c: Cookie)
    ensures c.name == "access_token" && c.value == "" && c.maxAge.None?
    ensures forall token :: SessionCookie(cfg, token, Some(SessionCookieMaxAge)) ==
                              c.(value := token, maxAge := Some(SessionCookieMaxAge))
  {
    SessionCookie(cfg, "", None)
  }

  /** `verifyAuth`: the identity the token carried, as `{ id, email }`. */
  function VerifyAuth(user: Jwt.Payload): (r: (UserId, Option<string>))
  {
    (user.claims.userId, user.claims.email)
  }

  // ------------------------------------------------------------ forgotPassword

  datatype ForgotOutcome = NotRegistered | LinkSent | ForgotError

  function ForgotReply(o: ForgotOutcome): Reply
  {
    match o
    case NotRegistered => Reply(202, false, "Correo no registrado.")
    case LinkSent => Reply(200, true, "")
    case ForgotError => Reply(500, false, "")
  }

  /** A mail handed to the mail service: recipient and reset link. */
  datatype Mail = Mail(to: string, link: string)

  function ResetLink(cfg: Config, token: string): string
  {
    cfg.frontendUrl + "/reset-password?token=" + token
  }

  /** The reset token `forgotPassword` signs for the user behind `email`:
      `{ userId }` with `jwtid` as its JWT id, for one hour, with the reset
      secret. */
  function ResetToken(db: Db, cfg: Config, email: string, jwtid: string, now: nat): (t: Option<string>)
    requires WellFormed(db) && FindByEmail(db, email).Some?
    ensures t.Some? <==> cfg.resetSecret != ""
  {
    Jwt.Sign(Jwt.Claims(FindByEmail(db, email).value, None, Some(jwtid)), cfg.resetSecret, now, Jwt.ResetLifetime)
  }

  /** `forgotPassword`: an unknown e-mail gets 202 and nothing happens; an
      empty reset secret (which `LoadConfig` never produces) would make
      `jwt.sign` throw (500) before anything is written; otherwise the marker is overwritten with `jwtid` and saved, and
      the link is mailed (to the requester, or to the fixed address in
      production). A failed delivery answers 500 but the marker stays written. */
  function ForgotSpec(db: Db, cfg: Config, email: string, jwtid: string, now: nat, delivered: bool)
    : (r: (Db, ForgotOutcome, Option<Mail>))
    requires WellFormed(db)
    ensures WellFormed(r.0) && r.0.emailIndex == db.emailIndex && r.0.users.Keys == db.users.Keys
    ensures r.1 == NotRegistered <==> FindByEmail(db, email).None?
    ensures r.2.None? ==> r.0 == db
    ensures r.2.Some? <==> FindByEmail(db, email).Some? && cfg.resetSecret != ""
    ensures FindByEmail(db, email).Some? && cfg.resetSecret == "" ==> r.1 == ForgotError
    ensures r.2.Some? ==>
              var id := FindByEmail(db, email).value;
              && r.0.users == db.users[id := db.users[id].(resetPasswordJti := Some(jwtid))]
              && r.2.value == Mail(if cfg.production then cfg.productionRecipient else email,
                                   ResetLink(cfg, ResetToken(db, cfg, email, jwtid, now).value))
              && (r.1 == LinkSent <==> delivered)
  {
    match FindByEmail(db, email)
    case None => (db, NotRegistered, None)
    case Some(id) =>
      match ResetToken(db, cfg, email, jwtid, now)
      case None => (db, ForgotError, None)
      case Some(token) =>
        var db' := Replace(db, id, db.users[id].(resetPasswordJti := Some(jwtid)));
        var to := if cfg.production then cfg.productionRecipient else email;
        (db', if delivered then LinkSent else ForgotError, Some(Mail(to, ResetLink(cfg, token))))
  }

  /** `ForgotSpec` for a known e-mail once the reset token is signed. */
  lemma {:induction false} ForgotSpecKnown(db: Db, cfg: Config, email: string, jwtid: string, now: nat, delivered: bool)
    requires WellFormed(db) && FindByEmail(db, email).Some? && cfg.resetSecret != ""
    ensures var id := FindByEmail(db, email).value;
            ForgotSpec(db, cfg, email, jwtid, now, delivered)
              == (Replace(db, id, db.users[id].(resetPasswordJti := Some(jwtid))),
                  if delivered then LinkSent else ForgotError,
                  Some(Mail(if cfg.production then cfg.productionRecipient else email,
                            ResetLink(cfg, ResetToken(db, cfg, email, jwtid, now).value))))
  {
  }

  // ------------------------------------------------------------ resetPassword

  datatype ResetOutcome = PasswordUpdated | LinkInvalid | WeakPassword | ResetError

  function ResetReply(o: ResetOutcome): Reply
  {
    match o
    case PasswordUpdated => Reply(200, true, "Contraseña actualizada.")
    case LinkInvalid => Reply(400, false, "Enlace inválido o ya utilizado.")
    case WeakPassword => Reply(400, false, "La contraseña debe tener al menos 8 caracteres, una mayúscula, un número y un carácter especial")
    case ResetError => Reply(500, false, "Inténtalo de nuevo más tarde.")
  }

  /** The handler's own password check: length at least 8, and `[A-Z]`, `\d`
      and `[^A-Za-z0-9]` each found somewhere. */
  predicate ResetPolicy(p: string)
  {
    |p| >= 8 && HasUpper(p) && HasDigit(p) && HasNonAlnum(p)
  }

  /** The schema's pattern is the handler's check plus "no line terminator":
      a password passes the check and fails the pattern exactly when it has a
      line terminator in it. */
  lemma {:induction false} PolicyAndPattern(p: string)
    ensures PasswordPattern(p) ==> ResetPolicy(p)
    ensures ResetPolicy(p) && !PasswordPattern(p) <==> ResetPolicy(p) && HasLineTerminator(p)
  {
  }

  /** `user.resetPasswordJti !== decoded.jti`, negated: a `null` marker never
      equals a missing `jti` (`null !== undefined`). */
  predicate SameJti(marker: Option<string>, jti: Option<string>)
  {
    marker.Some? && jti.Some? && marker.value == jti.value
  }

  /** `resetPassword`: verify the token with the reset secret, fetch the user
      by the id in it, compare its JWT id with the marker, run the handler's
      password check, assign the password and save (schema validation, then
      the hook hashes it). Every exception — no token, bad signature, expiry,
      no such user, no password, a password the schema refuses — lands in the
      catch (500). The marker is left as it is. */
  function ResetSpec(db: Db, cfg: Config, token: Option<string>, newPassword: Option<string>,
                     now: nat, salt: nat): (r: (Db, ResetOutcome))
    requires WellFormed(db)
    ensures WellFormed(r.0) && r.0.emailIndex == db.emailIndex && r.0.users.Keys == db.users.Keys
    ensures r.1 != PasswordUpdated ==> r.0 == db
    ensures r.1 == PasswordUpdated ==>
              && token.Some? && LinkGood(db, cfg, token.value, now)
              && newPassword.Some? && PasswordPattern(newPassword.value)
              && var id := Jwt.Verify(token.value, cfg.resetSecret, now).value.claims.userId;
                 && id in db.users
                 && r.0.users == db.users[id := db.users[id].(passwordHash := Bcrypt.Hash(newPassword.value, salt))]
  {
    if token.None? then (db, ResetError)
    else
      match Jwt.Verify(token.value, cfg.resetSecret, now)
      case Failure(_) => (db, ResetError)
      case Success(decoded) =>
        var id := decoded.claims.userId;
        if id !in db.users then (db, ResetError)
        else if !SameJti(db.users[id].resetPasswordJti, decoded.claims.jti) then (db, LinkInvalid)
        else if newPassword.None? then (db, ResetError)
        else if !ResetPolicy(newPassword.value) then (db, WeakPassword)
        else if !PasswordPattern(newPassword.value) then (db, ResetError)
        else
          var rec := db.users[id].(passwordHash := Bcrypt.Hash(newPassword.value, salt));
          (Replace(db, id, rec), PasswordUpdated)
  }

  /** The link is good for the user it names: the token verifies with the reset
      secret, its user exists, and its JWT id equals the stored marker. */
  predicate LinkGood(db: Db, cfg: Config, token: string, now: nat)
  {
    && Jwt.Verify(token, cfg.resetSecret, now).Success?
    && var claims := Jwt.Verify(token, cfg.resetSecret, now).value.claims;
       claims.userId in db.users && SameJti(db.users[claims.userId].resetPasswordJti, claims.jti)
  }

  /** `resetPassword` succeeds exactly for a good link and a password the
      schema's pattern accepts, and then stores that password's digest in the
      linked user's record and changes nothing else. */
  lemma {:induction false} ResetUpdatedIff(db: Db, cfg: Config, token: Option<string>, newPassword: Option<string>,
                                          now: nat, salt: nat)
    requires WellFormed(db)
    ensures var r := ResetSpec(db, cfg, token, newPassword, now, salt);
            r.1 == PasswordUpdated <==>
              token.Some? && LinkGood(db, cfg, token.value, now) && newPassword.Some? && PasswordPattern(newPassword.value)
    ensures var r := ResetSpec(db, cfg, token, newPassword, now, salt);
            r.1 == PasswordUpdated ==>
              var id := Jwt.Verify(token.value, cfg.resetSecret, now).value.claims.userId;
              r.0.users == db.users[id := db.users[id].(passwordHash := Bcrypt.Hash(newPassword.value, salt))]
  {
    if token.Some? && LinkGood(db, cfg, token.value, now) && newPassword.Some? {
      PolicyAndPattern(newPassword.value);
    }
  }

  /** The link mailed by a successful `forgotPassword` resets the password while
      it is fresh: with a password the schema accepts, the reset succeeds, the
      new password matches the stored digest, every other field — the marker
      included — is kept, and nobody else's record changes. Once the hour is
      over the token is refused (500). */
  lemma {:induction false} ForgotThenReset(db: Db, cfg: Config, email: string, jwtid: string, t: nat, delivered: bool,
                        p: string, now: nat, salt: nat)
    requires WellFormed(db) && FindByEmail(db, email).Some? && cfg.resetSecret != ""
    requires PasswordPattern(p) && t <= now
    ensures var db1 := ForgotSpec(db, cfg, email, jwtid, t, delivered).0;
            var id := FindByEmail(db, email).value;
            var r := ResetSpec(db1, cfg, ResetToken(db, cfg, email, jwtid, t), Some(p), now, salt);
            if now < t + Jwt.ResetLifetime then
              && r.1 == PasswordUpdated
              && r.0.users == db1.users[id := db1.users[id].(passwordHash := Bcrypt.Hash(p, salt))]
              && r.0.users[id].resetPasswordJti == Some(jwtid)
              && Bcrypt.Compare(p, r.0.users[id].passwordHash)
            else r == (db1, ResetError)
  {
    var id := FindByEmail(db, email).value;
    var db1 := ForgotSpec(db, cfg, email, jwtid, t, delivered).0;
    assert db1.users[id].resetPasswordJti == Some(jwtid);
    var claims := Jwt.Claims(id, None, Some(jwtid));
    var token := ResetToken(db, cfg, email, jwtid, t).value;
    Jwt.VerifySigned(claims, cfg.resetSecret, t, Jwt.ResetLifetime, now);
    if now < t + Jwt.ResetLifetime {
      assert Jwt.Verify(token, cfg.resetSecret, now).value.claims == claims;
      assert LinkGood(db1, cfg, token, now);
      ResetUpdatedIff(db1, cfg, Some(token), Some(p), now, salt);
    } else {
      assert Jwt.Verify(token, cfg.resetSecret, now).Failure?;
    }
  }

  /** A newer `forgotPassword` for the same user invalidates every link issued
      before it: the older token is refused (400 while it would still be
      fresh, 500 once expired) and nothing changes. */
  lemma {:induction false} NewerRequestInvalidatesOlder(db: Db, cfg: Config, email: string, j1: string, j2: string,
                                     t1: nat, t2: nat, d1: bool, d2: bool,
                                     p: Option<string>, now: nat, salt: nat)
    requires WellFormed(db) && FindByEmail(db, email).Some? && cfg.resetSecret != ""
    requires j1 != j2
    ensures var db1 := ForgotSpec(db, cfg, email, j1, t1, d1).0;
            var db2 := ForgotSpec(db1, cfg, email, j2, t2, d2).0;
            ResetSpec(db2, cfg, ResetToken(db, cfg, email, j1, t1), p, now, salt)
              == (db2, if now < t1 + Jwt.ResetLifetime then LinkInvalid else ResetError)
  {
    var id := FindByEmail(db, email).value;
    Jwt.VerifySigned(Jwt.Claims(id, None, Some(j1)), cfg.resetSecret, t1, Jwt.ResetLifetime, now);
  }

  /** The marker survives a successful reset, so the same link works a second
      time while it is fresh. */
  lemma {:induction false} ResetLinkReusable(db: Db, cfg: Config, token: string, p: string, q: string,
                          now: nat, later: nat, s1: nat, s2: nat)
    requires WellFormed(db) && now <= later
    requires ResetSpec(db, cfg, Some(token), Some(p), now, s1).1 == PasswordUpdated
    requires PasswordPattern(q)
    requires Jwt.Verify(token, cfg.resetSecret, later).Success?
    ensures ResetSpec(ResetSpec(db, cfg, Some(token), Some(p), now, s1).0, cfg, Some(token), Some(q), later, s2).1
              == PasswordUpdated
  {
    var db1 := ResetSpec(db, cfg, Some(token), Some(p), now, s1).0;
    ResetUpdatedIff(db, cfg, Some(token), Some(p), now, s1);
    ResetUpdatedIff(db1, cfg, Some(token), Some(q), later, s2);
    Jwt.VerifySamePayload(token, cfg.resetSecret, later, now);
    var id := Jwt.Verify(token, cfg.resetSecret, now).value.claims.userId;
    assert db1.users[id].resetPasswordJti == db.users[id].resetPasswordJti;
  }

  /** The handler's check runs before any change: a password it refuses gets
      400 and leaves the collection as it was, whenever the link itself is
      good. */
  lemma {:induction false} WeakPasswordChangesNothing(db: Db, cfg: Config, token: string, p: string, now: nat, salt: nat)
    requires WellFormed(db)
    requires Jwt.Verify(token, cfg.resetSecret, now).Success?
    requires var id := Jwt.Verify(token, cfg.resetSecret, now).value.claims.userId;
             id in db.users &&
             SameJti(db.users[id].resetPasswordJti, Jwt.Verify(token, cfg.resetSecret, now).value.claims.jti)
    requires !ResetPolicy(p)
    ensures ResetSpec(db, cfg, Some(token), Some(p), now, salt) == (db, WeakPassword)
  {
  }

  /** A password with a line terminator in it that passes the handler's check
      fails the schema's pattern: for a good link the save throws and the
      reply is 500, not the 400 the check gives, and nothing changes. */
  lemma {:induction false} LineTerminatorPasswordFailsLate(db: Db, cfg: Config, token: string, p: string,
                                                          now: nat, salt: nat)
    requires WellFormed(db) && LinkGood(db, cfg, token, now)
    requires ResetPolicy(p) && HasLineTerminator(p)
    ensures ResetSpec(db, cfg, Some(token), Some(p), now, salt) == (db, ResetError)
  {
    PolicyAndPattern(p);
  }

  /** Such passwords exist: "Abcdefg1\n" passes the handler's check and has a
      line terminator. */
  lemma {:induction false} LineTerminatorPasswordExists()
    ensures ResetPolicy("Abcdefg1\n") && HasLineTerminator("Abcdefg1\n")
  {
    var p := "Abcdefg1\n";
    assert IsUpper(p[0]) && IsDigit(p[7]) && !IsAlnum(p[8]) && IsLineTerminator(p[8]);
  }

  /** No token, or one that does not verify with the reset secret (bad
      signature, other key, expired), lands in the catch: 500, nothing
      changes. */
  lemma {:induction false} ResetBadToken(db: Db, cfg: Config, token: Option<string>, p: Option<string>,
                                        now: nat, salt: nat)
    requires WellFormed(db)
    requires token.None? || Jwt.Verify(token.value, cfg.resetSecret, now).Failure?
    ensures ResetSpec(db, cfg, token, p, now, salt) == (db, ResetError)
  {
  }

  /** A verified token whose JWT id differs from the stored marker — a marker
      that is `null` included — gets 400 "link invalid or already used",
      whatever the password, and nothing changes. */
  lemma {:induction false} ResetMarkerMismatch(db: Db, cfg: Config, token: string, p: Option<string>,
                                              now: nat, salt: nat)
    requires WellFormed(db)
    requires Jwt.Verify(token, cfg.resetSecret, now).Success?
    requires var claims := Jwt.Verify(token, cfg.resetSecret, now).value.claims;
             claims.userId in db.users && !SameJti(db.users[claims.userId].resetPasswordJti, claims.jti)
    ensures ResetSpec(db, cfg, Some(token), p, now, salt) == (db, LinkInvalid)
  {
  }

  /** A good link with no `newPassword` in the body makes `newPassword.length`
      throw: 500, nothing changes. */
  lemma {:induction false} ResetMissingPassword(db: Db, cfg: Config, token: string, now: nat, salt: nat)
    requires WellFormed(db) && LinkGood(db, cfg, token, now)
    ensures ResetSpec(db, cfg, Some(token), None, now, salt) == (db, ResetError)
  {
  }

  /** A token for an id with no record makes `user.resetPasswordJti` throw:
      500, nothing changes. */
  lemma {:induction false} ResetUnknownUser(db: Db, cfg: Config, token: string, p: Option<string>, now: nat, salt: nat)
    requires WellFormed(db)
    requires Jwt.Verify(token, cfg.resetSecret, now).Success?
    requires Jwt.Verify(token, cfg.resetSecret, now).value.claims.userId !in db.users
    ensures ResetSpec(db, cfg, Some(token), p, now, salt) == (db, ResetError)
  {
  }

  /** A user who registered can log in with the password they registered with,
      and with no other. */
  lemma {:induction false} RegisterThenLogin(db: Db, cfg: Config, name: Option<string>, lastName: Option<string>,
                          age: Option<int>, email: Option<string>, password: Option<string>,
                          salt: nat, attempt: string, now: nat)
    requires WellFormed(db) && cfg.sessionSecret != ""
    requires RegisterSpec(db, name, lastName, age, email, password, salt).1.Created?
    ensures var db1 := RegisterSpec(db, name, lastName, age, email, password, salt).0;
            LoginSpec(db1, cfg, email.value, Some(attempt), now).LoggedIn? <==> attempt == password.value
  {
    var r := RegisterSpec(db, name, lastName, age, email, password, salt);
    var id := r.1.userId;
    assert r.0.emailIndex[ToLower(email.value)] == id;
  }

  // ------------------------------------------------------------ the store

  /** The user collection, changed in place by the handlers. */
  class UserStore {
    var users: map<UserId, UserRecord>
    var emailIndex: map<string, UserId>
    var nextId: UserId
    const config: Config

    function Value(): Db
      reads this
    {
      Db(users, emailIndex, nextId)
    }

    predicate Valid()
      reads this
    {
      WellFormed(Value())
    }

    constructor(config: Config)
      ensures Valid() && Value() == EmptyDb && this.config == config
    {
      users := map[];
      emailIndex := map[];
      nextId := 0;
      this.config := config;
    }

    /** `register` */
    method Register(name: Option<string>, lastName: Option<string>, age: Option<int>,
                    email: Option<string>, password: Option<string>, salt: nat)
      returns (outcome: RegisterOutcome)
      requires Valid()
      modifies this
      ensures Valid()
      ensures (Value(), outcome) == RegisterSpec(old(Value()), name, lastName, age, email, password, salt)
    {
      var user := new UserDocument.New(name, lastName, age, email, password);
      ghost var d := user.Value();
      var failures := Failures(user.Value());
      if failures != {} {
        return RegisterInvalid(failures);
      }
      user.PreSaveHook(salt);
      assert user.Value() == PreSave(d, salt);
      NewDocStored(name, lastName, age, email, password, salt);
      var rec := ToRecord(user.Value());
      if rec.email in emailIndex {
        return DuplicateEmail;
      }
      ghost var before := Value();
      users := users[nextId := rec];
      emailIndex := emailIndex[rec.email := nextId];
      outcome := Created(nextId);
      nextId := nextId + 1;
      assert Value() == Insert(before, rec);
    }

    /** `login` */
    method Login(email: string, password: Option<string>, now: nat) returns (outcome: LoginOutcome)
      requires Valid()
      ensures outcome == LoginSpec(Value(), config, email, password, now)
    {
      var key := ToLower(email);
      if key !in emailIndex {
        return BadCredentials;
      }
      var id := emailIndex[key];
      var user := new UserDocument.Load(users[id]);
      if password.None? {
        return LoginError;
      }
      if !Bcrypt.Compare(password.value, user.password.value.digest) {
        return BadCredentials;
      }
      var token := Jwt.Sign(Jwt.Claims(id, user.email, None), config.sessionSecret, now, Jwt.SessionLifetime);
      if token.None? {
        return LoginError;
      }
      outcome := LoggedIn(token.value, SessionCookie(config, token.value, Some(SessionCookieMaxAge)));
    }

    /** `forgotPassword` */
    method ForgotPassword(email: string, jwtid: string, now: nat, delivered: bool)
      returns (outcome: ForgotOutcome, mail: Option<Mail>)
      requires Valid()
      modifies this
      ensures Valid()
      ensures (Value(), outcome, mail) == ForgotSpec(old(Value()), config, email, jwtid, now, delivered)
    {
      ghost var before := Value();
      var key := ToLower(email);
      if key !in emailIndex {
        return NotRegistered, None;
      }
      var id := emailIndex[key];
      var user := new UserDocument.Load(users[id]);
      var token := Jwt.Sign(Jwt.Claims(id, None, Some(jwtid)), config.resetSecret, now, Jwt.ResetLifetime);
      if token.None? {
        assert Value() == before;
        return ForgotError, None;
      }
      user.AssignResetPasswordJti(jwtid);
      // Only the marker was modified: validation passes and the hook keeps the
      // digest, so no salt is drawn.
      MarkerSave(users[id], Some(jwtid), 0);
      user.PreSaveHook(0);
      ghost var rec := users[id].(resetPasswordJti := Some(jwtid));
      users := users[id := ToRecord(user.Value())];
      assert Value() == Replace(before, id, rec);
      var to := if config.production then config.productionRecipient else email;
      mail := Some(Mail(to, ResetLink(config, token.value)));
      outcome := if delivered then LinkSent else ForgotError;
      ForgotSpecKnown(before, config, email, jwtid, now, delivered);
    }

    /** `resetPassword` */
    method ResetPassword(token: Option<string>, newPassword: Option<string>, now: nat, salt: nat)
      returns (outcome: ResetOutcome)
      requires Valid()
      modifies this
      ensures Valid()
      ensures (Value(), outcome) == ResetSpec(old(Value()), config, token, newPassword, now, salt)
    {
      if token.None? {
        return ResetError;
      }
      var decoded := Jwt.Verify(token.value, config.resetSecret, now);
      if decoded.Failure? {
        return ResetError;
      }
      var id := decoded.value.claims.userId;
      if id !in users {
        return ResetError;
      }
      var user := new UserDocument.Load(users[id]);
      if !SameJti(user.resetPasswordJti, decoded.value.claims.jti) {
        return LinkInvalid;
      }
      if newPassword.None? {
        return ResetError;
      }
      var p := newPassword.value;
      if !ResetPolicy(p) {
        return WeakPassword;
      }
      user.AssignPassword(p);
      PasswordSave(users[id], p, salt);
      if Failures(user.Value()) != {} {
        return ResetError;
      }
      user.PreSaveHook(salt);
      ghost var before := Value();
      ghost var rec := users[id].(passwordHash := Bcrypt.Hash(p, salt));
      assert ToRecord(user.Value()) == rec;
      users := users[id := ToRecord(user.Value())];
      assert Value() == Replace(before, id, rec);
      outcome := PasswordUpdated;
    }
  }
}
