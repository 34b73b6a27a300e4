/** The global `errorHandler`: a cascade of rules maps the kind of error to a
    status code and a message, a later matching rule overriding an earlier
    one; then the status defaults to 500, the message to a generic text, and
    clients see a fixed text for any status of 500 or above. */
module ErrorHandler {
  import opened Wrappers
  import Jwt

  /** The parts of a thrown error the handler reads: `name`, `message`,
      `code`, the keys of `keyValue` and the messages of `errors` (`None`:
      the property is absent), whether it is a `SyntaxError` with a `body`
      property, its `status`, and its own `statusCode`. */
  datatype ErrorInfo = ErrorInfo(
    name: string,
    message: string,
    code: Option<int>,
    keyValue: Option<seq<string>>,
    errors: Option<seq<string>>,
    isSyntaxError: bool,
    hasBody: bool,
    status: Option<int>,
    statusCode: Option<int>)

  /** What one rule does with the error: nothing, replace `error` by a message
      and a status code, or throw (reading a property of `undefined`). */
  datatype RuleResult = NoMatch | Mapped(message: string, statusCode: int) | Throws

  /** The JSON reply, or a handler that threw and left the reply to Express. */
  datatype Response = Reply(status: int, error: string) | HandlerThrew

  // Error names the rules look for, and the messages they reply with.
  const CastMessage := "Recurso no encontrado - ID inválido"
  const InvalidTokenMessage := "Token inválido"
  const ExpiredTokenMessage := "Token expirado"
  const BadJsonMessage := "JSON inválido en el cuerpo de la petición"
  const RateLimitMessage := "Demasiadas peticiones, intenta más tarde"
  const DuplicateSuffix := " ya existe en la base de datos"
  const CastErrorName := "CastError"
  const ValidationErrorName := "ValidationError"
  const JwtErrorName := "JsonWebTokenError"
  const ExpiredErrorName := "TokenExpiredError"
  const GenericServerMessage := "Intenta de nuevo más tarde"
  const DefaultMessage := "Error interno del servidor"

  /** `Array.prototype.join(sep)` */
  function Join(parts: seq<string>, sep: string): string
  {
    if |parts| == 0 then ""
    else if |parts| == 1 then parts[0]
    else parts[0] + sep + Join(parts[1..], sep)
  }

  /** The first key of `keyValue`; `undefined` prints as "undefined". */
  function FirstKey(keys: seq<string>): string
  {
    if |keys| == 0 then "undefined" else keys[0]
  }

  function CastRule(err: ErrorInfo): RuleResult
  {
    if err.name == CastErrorName then Mapped(CastMessage, 404) else NoMatch
  }

  function DuplicateKeyRule(err: ErrorInfo): RuleResult
  {
    if err.code == Some(11000) then
      if err.keyValue.None? then Throws
      else Mapped("El " + FirstKey(err.keyValue.value) + DuplicateSuffix, 400)
    else NoMatch
  }

  function ValidationRule(err: ErrorInfo): RuleResult
  {
    if err.name == ValidationErrorName then
      if err.errors.None? then Throws else Mapped(Join(err.errors.value, ", "), 400)
    else NoMatch
  }

  function JwtRule(err: ErrorInfo): RuleResult
  {
    if err.name == JwtErrorName then Mapped(InvalidTokenMessage, 401) else NoMatch
  }

  function ExpiredRule(err: ErrorInfo): RuleResult
  {
    if err.name == ExpiredErrorName then Mapped(ExpiredTokenMessage, 401) else NoMatch
  }

  function SyntaxRule(err: ErrorInfo): RuleResult
  {
    if err.isSyntaxError && err.status == Some(400) && err.hasBody
    then Mapped(BadJsonMessage, 400) else NoMatch
  }

  function RateLimitRule(err: ErrorInfo): RuleResult
  {
    if err.status == Some(429) then Mapped(RateLimitMessage, 429) else NoMatch
  }

  /** The rules, in source order. */
  function Rules(err: ErrorInfo): seq<RuleResult>
  {
    [CastRule(err), DuplicateKeyRule(err), ValidationRule(err), JwtRule(err),
     ExpiredRule(err), SyntaxRule(err), RateLimitRule(err)]
  }

  /** The last rule that mapped the error, if any. */
  function LastMapped(rs: seq<RuleResult>): (r: Option<RuleResult>)
    ensures r.Some? ==> r.value.Mapped? && r.value in rs
    ensures r.None? <==> forall i :: 0 <= i < |rs| ==> !rs[i].Mapped?
  {
    if rs == [] then None
    else if rs[|rs| - 1].Mapped? then Some(rs[|rs| - 1])
    else
      var r := LastMapped(rs[..|rs| - 1]);
      assert forall i :: 0 <= i < |rs| - 1 ==> rs[..|rs| - 1][i] == rs[i];
      r
  }

  /** Appending a rule: it wins when it maps the error. */
  lemma {:induction false} LastMappedSnoc(rs: seq<RuleResult>, x: RuleResult)
    ensures LastMapped(rs + [x]) == if x.Mapped? then Some(x) else LastMapped(rs)
  {
    assert (rs + [x])[..|rs|] == rs;
  }

  /** One more rule of `rs` considered. */
  lemma {:induction false} LastMappedPrefix(rs: seq<RuleResult>, k: nat)
    requires k < |rs|
    ensures LastMapped(rs[..k + 1]) == if rs[k].Mapped? then Some(rs[k]) else LastMapped(rs[..k])
  {
    assert rs[..k + 1] == rs[..k] + [rs[k]];
    LastMappedSnoc(rs[..k], rs[k]);
  }

  /** `LastMapped` is the mapping rule with no mapping rule after it. */
  lemma {:induction false} LastMappedAt(rs: seq<RuleResult>, i: nat)
    requires i < |rs| && rs[i].Mapped?
    requires forall j :: i < j < |rs| ==> !rs[j].Mapped?
    ensures LastMapped(rs) == Some(rs[i])
  {
    if i < |rs| - 1 {
      var init := rs[..|rs| - 1];
      assert rs == init + [rs[|rs| - 1]];
      LastMappedAt(init, i);
      LastMappedSnoc(init, rs[|rs| - 1]);
    }
  }

  /** `error.statusCode || 500`, `error.message || "Error interno del
      servidor"`, and the generic text for any status of 500 or more. */
  function Project(statusCode: Option<int>, message: string): (r: Response)
    ensures r.Reply?
    ensures r.status == (if statusCode.Some? && statusCode.value != 0 then statusCode.value else 500)
    ensures r.status >= 500 ==> r.error == GenericServerMessage
    ensures r.status < 500 ==> r.error == (if message != "" then message else DefaultMessage)
  {
    var status := if statusCode.Some? && statusCode.value != 0 then statusCode.value else 500;
    var msg := if message != "" then message else DefaultMessage;
    Reply(status, if status >= 500 then GenericServerMessage else msg)
  }

  /** The reply the handler gives: it throws if any rule throws; otherwise the
      last matching rule decides status and message, and with no matching rule
      the error's own `statusCode` and `message` are used. */
  function Respond(err: ErrorInfo): Response
  {
    var rs := Rules(err);
    if Throws in rs then HandlerThrew
    else
      match LastMapped(rs)
      case Some(rule) => Project(Some(rule.statusCode), rule.message)
      case None => Project(err.statusCode, err.message)
  }

  /** `errorHandler(err, req, res, next)`: the local `error` is reassigned rule
      by rule, then projected. */
  method HandleError(err: ErrorInfo) returns (r: Response)
    ensures r == Respond(err)
  {
    var message := err.message;
    var statusCode := err.statusCode;
    ghost var last: Option<RuleResult> := None;
    if err.name == CastErrorName {
      message, statusCode := CastMessage, Some(404);
    }
    last := Step(last, CastRule(err));
    assert Holds(last, err, message, statusCode);
    if err.code == Some(11000) {
      if err.keyValue.None? {
        assert DuplicateKeyRule(err) == Throws;
        return HandlerThrew;
      }
      message, statusCode := "El " + FirstKey(err.keyValue.value) + DuplicateSuffix, Some(400);
    }
    last := Step(last, DuplicateKeyRule(err));
    assert DuplicateKeyRule(err) != Throws && Holds(last, err, message, statusCode);
    if err.name == ValidationErrorName {
      if err.errors.None? {
        assert ValidationRule(err) == Throws;
        return HandlerThrew;
      }
      message, statusCode := Join(err.errors.value, ", "), Some(400);
    }
    last := Step(last, ValidationRule(err));
    assert ValidationRule(err) != Throws && Holds(last, err, message, statusCode);
    if err.name == JwtErrorName {
      message, statusCode := InvalidTokenMessage, Some(401);
    }
    last := Step(last, JwtRule(err));
    assert Holds(last, err, message, statusCode);
    if err.name == ExpiredErrorName {
      message, statusCode := ExpiredTokenMessage, Some(401);
    }
    last := Step(last, ExpiredRule(err));
    assert Holds(last, err, message, statusCode);
    if err.isSyntaxError && err.status == Some(400) && err.hasBody {
      message, statusCode := BadJsonMessage, Some(400);
    }
    last := Step(last, SyntaxRule(err));
    assert Holds(last, err, message, statusCode);
    if err.status == Some(429) {
      message, statusCode := RateLimitMessage, Some(429);
    }
    last := Step(last, RateLimitRule(err));
    assert Holds(last, err, message, statusCode);
    CascadeIsLastMapped(err);
    RespondByLast(err, last, message, statusCode);
    r := Project(statusCode, message);
  }

  /** The last mapping rule so far, after one more rule. */
  function Step(last: Option<RuleResult>, rule: RuleResult): Option<RuleResult>
  {
    if rule.Mapped? then Some(rule) else last
  }

  /** The rules applied one at a time, in source order. */
  function Cascade(err: ErrorInfo): Option<RuleResult>
  {
    Step(Step(Step(Step(Step(Step(Step(None, CastRule(err)), DuplicateKeyRule(err)), ValidationRule(err)),
      JwtRule(err)), ExpiredRule(err)), SyntaxRule(err)), RateLimitRule(err))
  }

  /** Applying the rules one at a time finds the last one that maps the error. */
  lemma {:induction false} CascadeIsLastMapped(err: ErrorInfo)
    ensures LastMapped(Rules(err)) == Cascade(err)
  {
    var rs := Rules(err);
    var last := None;
    assert rs[..0] == [];
    for k := 0 to 7
      invariant last == LastMapped(rs[..k])
      invariant k == 0 ==> last == None
      invariant k == 1 ==> last == Step(None, rs[0])
      invariant k == 2 ==> last == Step(Step(None, rs[0]), rs[1])
      invariant k == 3 ==> last == Step(Step(Step(None, rs[0]), rs[1]), rs[2])
      invariant k == 4 ==> last == Step(Step(Step(Step(None, rs[0]), rs[1]), rs[2]), rs[3])
      invariant k == 5 ==> last == Step(Step(Step(Step(Step(None, rs[0]), rs[1]), rs[2]), rs[3]), rs[4])
      invariant k == 6 ==> last == Step(Step(Step(Step(Step(Step(None, rs[0]), rs[1]), rs[2]), rs[3]), rs[4]), rs[5])
      invariant k == 7 ==> last == Step(Step(Step(Step(Step(Step(Step(None, rs[0]), rs[1]), rs[2]), rs[3]), rs[4]), rs[5]), rs[6])
    {
      LastMappedPrefix(rs, k);
      last := Step(last, rs[k]);
    }
    assert rs[..7] == rs;
  }

  /** The local `error` after some of the rules: the last of them that
      matched, or the thrown error itself. */
  ghost predicate Holds(last: Option<RuleResult>, err: ErrorInfo, message: string, statusCode: Option<int>)
  {
    match last
    case Some(rule) => rule.Mapped? && message == rule.message && statusCode == Some(rule.statusCode)
    case None => message == err.message && statusCode == err.statusCode
  }

  /** When no rule throws, the reply projects the local `error` the cascade
      left. */
  lemma {:induction false} RespondByLast(err: ErrorInfo, last: Option<RuleResult>, message: string, statusCode: Option<int>)
    requires DuplicateKeyRule(err) != Throws && ValidationRule(err) != Throws
    requires last == LastMapped(Rules(err)) && Holds(last, err, message, statusCode)
    ensures Respond(err) == Project(statusCode, message)
  {
    NothingThrows(err);
  }

  /** Only the duplicate-key and validation rules can throw. */
  lemma {:induction false} NothingThrows(err: ErrorInfo)
    requires DuplicateKeyRule(err) != Throws && ValidationRule(err) != Throws
    ensures Throws !in Rules(err)
  {
    var rs := Rules(err);
    assert forall i | 0 <= i < |rs| :: rs[i] != Throws;
  }

  /** A rate-limit error gets 429 and its fixed message, whatever rules matched
      before it. */
  lemma {:induction false} RateLimitOverrides(err: ErrorInfo)
    requires err.status == Some(429)
    requires Throws !in Rules(err)
    ensures Respond(err) == Reply(429, RateLimitMessage)
  {
  }

  /** Both errors `jwt.verify` raises get 401, unless the error also matches
      a later rule. */
  lemma {:induction false} VerifyErrorsGet401(e: Jwt.VerifyError, err: ErrorInfo)
    requires err.name == Jwt.ErrorName(e) && err.status != Some(429)
    requires !(err.isSyntaxError && err.status == Some(400) && err.hasBody)
    requires err.code == Some(11000) ==> err.keyValue.Some?
    ensures Respond(err).Reply? && Respond(err).status == 401
    ensures Respond(err).error == (if e == Jwt.Expired then ExpiredTokenMessage else InvalidTokenMessage)
  {
    var rs := Rules(err);
    assert forall i | 0 <= i < |rs| :: rs[i] != Throws;
    LastMappedAt(rs, if e == Jwt.Expired then 4 else 3);
  }

  /** An error no rule recognises keeps its own status code (500 when it has
      none or 0) and, below 500, its own message. */
  lemma {:induction false} UnrecognisedKeepsOwnStatus(err: ErrorInfo)
    requires forall i :: 0 <= i < |Rules(err)| ==> Rules(err)[i] == NoMatch
    ensures Respond(err) == Project(err.statusCode, err.message)
  {
    var rs := Rules(err);
    assert Throws !in rs by {
      forall i | 0 <= i < |rs| ensures rs[i] != Throws { assert rs[i] == NoMatch; }
    }
  }

  /** A client never sees the details of a server error. */
  lemma {:induction false} ServerErrorsAreGeneric(err: ErrorInfo)
    requires Respond(err).Reply? && Respond(err).status >= 500
    ensures Respond(err).error == GenericServerMessage
  {
  }

  /** A Mongoose validation error lists every failing path's message, joined
      by ", ", unless a later rule matches too. */
  lemma {:induction false} ValidationJoinsMessages(err: ErrorInfo, messages: seq<string>)
    requires err.name == ValidationErrorName && err.errors == Some(messages)
    requires err.status != Some(429) && !(err.isSyntaxError && err.status == Some(400) && err.hasBody)
    requires err.code != Some(11000)
    requires messages != [] && messages[0] != ""
    ensures Respond(err) == Reply(400, Join(messages, ", "))
  {
    LastMappedAt(Rules(err), 2);
    assert Join(messages, ", ")[..|messages[0]|] == messages[0];
  }

  /** A duplicate key names the first key of `keyValue`, unless the error also
      matches a later rule. */
  lemma {:induction false} DuplicateKeyNamesField(err: ErrorInfo, field: string, more: seq<string>)
    requires err.code == Some(11000) && err.keyValue == Some([field] + more)
    requires err.name !in {ValidationErrorName, JwtErrorName, ExpiredErrorName}
    requires err.status != Some(429) && !(err.isSyntaxError && err.status == Some(400) && err.hasBody)
    ensures Respond(err) == Reply(400, "El " + field + DuplicateSuffix)
  {
    LastMappedAt(Rules(err), 1);
  }

  /** A malformed id is 404 unless a later rule matches too. */
  lemma {:induction false} CastErrorIsNotFound(err: ErrorInfo)
    requires err.name == CastErrorName && err.code != Some(11000)
    requires err.status != Some(429) && !(err.isSyntaxError && err.status == Some(400) && err.hasBody)
    ensures Respond(err) == Reply(404, CastMessage)
  {
    LastMappedAt(Rules(err), 0);
  }

  /** A duplicate-key error without `keyValue`, or a validation error without
      `errors`, makes the handler itself throw. */
  lemma {:induction false} MissingDetailsThrow(err: ErrorInfo)
    requires (err.code == Some(11000) && err.keyValue.None?)
             || (err.name == ValidationErrorName && err.errors.None?)
    ensures Respond(err) == HandlerThrew
  {
    assert Rules(err)[1] == Throws || Rules(err)[2] == Throws;
  }
}
