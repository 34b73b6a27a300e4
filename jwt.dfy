/** JSON Web Tokens as the backend uses them (`jwt.sign(payload, secret,
    { expiresIn, jwtid })` and `jwt.verify(token, secret)`), idealized: a token
    is an injective text encoding of its payload together with the key that
    signed it, so that verifying with a key accepts exactly the tokens signed
    with that key. The clock is a parameter, in whole seconds. */
module Jwt {
  import opened Wrappers

  /** The claims the backend signs: the user id, the e-mail (session tokens)
      and the JWT id (reset tokens). */
  datatype Claims = Claims(userId: nat, email: Option<string>, jti: Option<string>)

  /** The decoded payload `jwt.verify` returns: the claims with `iat` and `exp`. */
  datatype Payload = Payload(claims: Claims, iat: nat, exp: nat)

  /** Why `jwt.verify` fails: no or unreadable token ("jwt must be provided",
      "jwt malformed"), no secret, a signature made with another key, expiry. */
  datatype VerifyError = Malformed | NoSecret | BadSignature | Expired

  /** The `name` of the error `jwt.verify` raises. */
  function ErrorName(e: VerifyError): string
  {
    if e == Expired then "TokenExpiredError" else "JsonWebTokenError"
  }

  /** What a token carries: the payload and the key it was signed with. */
  datatype Envelope = Envelope(payload: Payload, key: string)

  /** `expiresIn: '2h'` */
  const SessionLifetime: nat := 7200
  /** `expiresIn: '1h'` */
  const ResetLifetime: nat := 3600

  // ------------------------------------------------------------ envelope <-> numbers

  predicate IsCharCode(n: nat) { n < 0xD800 || 0xE000 <= n < 0x11_0000 }

  function CharCodes(s: string): (r: seq<nat>)
    ensures |r| == |s| && forall i :: 0 <= i < |s| ==> IsCharCode(r[i])
  {
    seq(|s|, i requires 0 <= i < |s| => s[i] as nat)
  }

  function CharsOf(codes: seq<nat>): string
    requires forall i :: 0 <= i < |codes| ==> IsCharCode(codes[i])
  {
    seq(|codes|, i requires 0 <= i < |codes| && IsCharCode(codes[i]) => codes[i] as char)
  }

  function StrCells(s: string): seq<nat>
  {
    [|s|] + CharCodes(s)
  }

  function OptCells(o: Option<string>): seq<nat>
  {
    match o
    case None => [0]
    case Some(s) => [1] + StrCells(s)
  }

  function EnvelopeCells(e: Envelope): seq<nat>
  {
    var p := e.payload;
    [p.claims.userId] + (OptCells(p.claims.email) + (OptCells(p.claims.jti) + ([p.iat, p.exp] + StrCells(e.key))))
  }

  function ParseStr(xs: seq<nat>): Option<(string, seq<nat>)>
  {
    if |xs| == 0 || |xs| <= xs[0] then None
    else
      var codes := xs[1..xs[0] + 1];
      if forall i :: 0 <= i < |codes| ==> IsCharCode(codes[i])
      then Some((CharsOf(codes), xs[xs[0] + 1..]))
      else None
  }

  function ParseOpt(xs: seq<nat>): Option<(Option<string>, seq<nat>)>
  {
    if |xs| == 0 then None
    else if xs[0] == 0 then Some((None, xs[1..]))
    else if xs[0] == 1 then
      match ParseStr(xs[1..])
      case None => None
      case Some((s, rest)) => Some((Some(s), rest))
    else None
  }

  function ParseEnvelope(xs: seq<nat>): Option<Envelope>
  {
    if |xs| == 0 then None
    else
      match ParseOpt(xs[1..])
      case None => None
      case Some((email, r1)) =>
        match ParseOpt(r1)
        case None => None
        case Some((jti, r2)) =>
          if |r2| < 2 then None
          else
            match ParseStr(r2[2..])
            case None => None
            case Some((key, r3)) =>
              if r3 == [] then Some(Envelope(Payload(Claims(xs[0], email, jti), r2[0], r2[1]), key))
              else None
  }

  lemma {:induction false} ParseStrCells(s: string, rest: seq<nat>)
    ensures ParseStr(StrCells(s) + rest) == Some((s, rest))
  {
    var xs := StrCells(s) + rest;
    assert xs[0] == |s|;
    assert xs[1..|s| + 1] == CharCodes(s);
    assert xs[|s| + 1..] == rest;
    assert CharsOf(CharCodes(s)) == s;
  }

  lemma {:induction false} ParseOptCells(o: Option<string>, rest: seq<nat>)
    ensures ParseOpt(OptCells(o) + rest) == Some((o, rest))
  {
    var xs := OptCells(o) + rest;
    match o
    case None =>
      assert xs[1..] == rest;
    case Some(s) =>
      assert xs[1..] == StrCells(s) + rest;
      ParseStrCells(s, rest);
  }

  lemma {:induction false} ParseEnvelopeCells(e: Envelope)
    ensures ParseEnvelope(EnvelopeCells(e)) == Some(e)
  {
    var p := e.payload;
    var xs := EnvelopeCells(e);
    var r2 := [p.iat, p.exp] + StrCells(e.key);
    var r1 := OptCells(p.claims.jti) + r2;
    assert xs[1..] == OptCells(p.claims.email) + r1;
    ParseOptCells(p.claims.email, r1);
    ParseOptCells(p.claims.jti, r2);
    assert r2[2..] == StrCells(e.key) + [];
    ParseStrCells(e.key, []);
  }

  // ------------------------------------------------------------ numbers <-> text

  function Ones(n: nat): (r: string)
    ensures |r| == n && forall i :: 0 <= i < n ==> r[i] == '1'
  {
    seq(n, _ => '1')
  }

  /** Each number is written as that many '1's closed by a '0'. */
  function Render(xs: seq<nat>): (t: string)
    ensures forall i :: 0 <= i < |t| ==> t[i] == '0' || t[i] == '1'
    ensures xs != [] ==> t != []
  {
    if xs == [] then "" else Ones(xs[0]) + "0" + Render(xs[1..])
  }

  function LeadingOnes(s: string): (k: nat)
    ensures k <= |s|
    ensures forall i :: 0 <= i < k ==> s[i] == '1'
    ensures k < |s| ==> s[k] != '1'
  {
    if s != [] && s[0] == '1' then 1 + LeadingOnes(s[1..]) else 0
  }

  function Unrender(s: string): Option<seq<nat>>
    decreases |s|
  {
    if s == [] then Some([])
    else
      var k := LeadingOnes(s);
      if k < |s| && s[k] == '0' then
        match Unrender(s[k + 1..])
        case None => None
        case Some(rest) => Some([k] + rest)
      else None
  }

  lemma {:induction false} LeadingOnesOf(n: nat, rest: string)
    requires rest != [] && rest[0] != '1'
    ensures LeadingOnes(Ones(n) + rest) == n
  {
    var s := Ones(n) + rest;
    assert s[n] == rest[0];
  }

  lemma {:induction false} UnrenderRender(xs: seq<nat>)
    ensures Unrender(Render(xs)) == Some(xs)
  {
    if xs != [] {
      var s := Render(xs);
      var tail := Render(xs[1..]);
      assert s == Ones(xs[0]) + ("0" + tail);
      LeadingOnesOf(xs[0], "0" + tail);
      assert s[xs[0]] == '0';
      assert s[xs[0] + 1..] == tail;
      UnrenderRender(xs[1..]);
      assert [xs[0]] + xs[1..] == xs;
    }
  }

  // ------------------------------------------------------------ sign and verify

  function Encode(e: Envelope): string
  {
    Render(EnvelopeCells(e))
  }

  function Decode(token: string): Option<Envelope>
  {
    match Unrender(token)
    case None => None
    case Some(xs) => ParseEnvelope(xs)
  }

  /** Decoding an encoded envelope gives it back. */
  lemma {:induction false} DecodeEncode(e: Envelope)
    ensures Decode(Encode(e)) == Some(e)
  {
    UnrenderRender(EnvelopeCells(e));
    ParseEnvelopeCells(e);
  }

  /** `jwt.sign(claims, key, { expiresIn: lifetime })` at time `now`: it throws
      when the key is empty or missing; otherwise the token is non-empty, has no
      space in it, and carries the claims, `iat = now`, `exp = now + lifetime`
      and the key. */
  function Sign(claims: Claims, key: string, now: nat, lifetime: nat): (r: Option<string>)
    ensures r.None? <==> key == ""
    ensures r.Some? ==> r.value != [] && ' ' !in r.value
    ensures r.Some? ==> Decode(r.value) == Some(Envelope(Payload(claims, now, now + lifetime), key))
  {
    if key == "" then None
    else
      var e := Envelope(Payload(claims, now, now + lifetime), key);
      DecodeEncode(e);
      assert EnvelopeCells(e) != [];
      Some(Encode(e))
  }

  /** `jwt.verify(token, key)` at time `now`. The signature is checked before
      the expiry, and a token is expired once `now >= exp`. */
  function Verify(token: string, key: string, now: nat): Result<Payload, VerifyError>
  {
    if token == "" then Failure(Malformed)
    else
      match Decode(token)
      case None => Failure(Malformed)
      case Some(env) =>
        if key == "" then Failure(NoSecret)
        else if env.key != key then Failure(BadSignature)
        else if now >= env.payload.exp then Failure(Expired)
        else Success(env.payload)
  }

  /** Whenever a token verifies, it yields the same payload: only the expiry
      check depends on the time. */
  lemma {:induction false} VerifySamePayload(token: string, key: string, t1: nat, t2: nat)
    requires Verify(token, key, t1).Success? && t2 <= t1
    ensures Verify(token, key, t2) == Verify(token, key, t1)
  {
    var env := Decode(token).value;
    assert Verify(token, key, t1) == Success(env.payload);
  }

  /** A token signed at `iat` verifies, with its own claims, exactly until
      `iat + lifetime`, and is rejected as expired from then on. */
  lemma {:induction false} VerifySigned(claims: Claims, key: string, iat: nat, lifetime: nat, now: nat)
    requires key != ""
    ensures Sign(claims, key, iat, lifetime).Some?
    ensures Verify(Sign(claims, key, iat, lifetime).value, key, now)
         == if now < iat + lifetime then Success(Payload(claims, iat, iat + lifetime)) else Failure(Expired)
  {
  }

  /** A token never verifies under a key other than the one that signed it. */
  lemma {:induction false} VerifyOtherKey(claims: Claims, key: string, other: string, iat: nat, lifetime: nat, now: nat)
    requires key != "" && other != key
    ensures Verify(Sign(claims, key, iat, lifetime).value, other, now).Failure?
  {
  }
}
