/**
 * src/middleware/authMiddleware.js: bearer-token authentication and the two
 * validation middlewares. A middleware either lets the request through to the
 * next handler or answers it itself.
 */
module AuthMiddleware {
  import opened Results
  import opened Strings
  import Jwt
  import opened Helpers
  import opened Http
  import opened Validation

  /** Either `next()` with what the handler sees, or the response the middleware sent. */
  datatype Gate<T> = Next(value: T) | Stop(response: Response)

  const TokenMissing := "Token bulunamadı"

  /** `s.split(" ")[1]`: the text between the first and the second space, absent when there is no space. */
  function SecondField(s: string): (r: Option<string>)
    ensures r.None? <==> ' ' !in s
    ensures r.Some? ==> ' ' !in r.value
  {
    match IndexOf(s, ' ')
    case None => None
    case Some(i) =>
      var rest := s[i + 1..];
      match IndexOf(rest, ' ')
      case None => Some(rest)
      case Some(j) => Some(rest[..j])
  }

  /** `authHeader && authHeader.split(" ")[1]`, kept only when truthy. */
  function BearerToken(header: Option<string>): (t: Option<string>)
    ensures t.Some? ==> t.value != "" && ' ' !in t.value
    ensures header.None? || header.value == "" ==> t.None?
  {
    if header.None? then None
    else match SecondField(header.value)
      case None => None
      case Some(f) => if f == "" then None else Some(f)
  }

  /** The second field is the token whatever the first word is: "Bearer" is not checked. */
  lemma {:induction false} AnySchemeWord(scheme: string, token: string, rest: string)
    requires ' ' !in scheme && ' ' !in token && token != ""
    ensures BearerToken(Some(scheme + " " + token)) == Some(token)
    ensures BearerToken(Some(scheme + " " + token + " " + rest)) == Some(token)
  {
    IndexOfAfter(scheme, ' ', token);
    assert (scheme + " " + token)[|scheme| + 1..] == token;
    var long := scheme + " " + token + " " + rest;
    assert long == scheme + [' '] + (token + " " + rest);
    IndexOfAfter(scheme, ' ', token + " " + rest);
    assert long[|scheme| + 1..] == token + [' '] + rest;
    IndexOfAfter(token, ' ', rest);
    assert (token + [' '] + rest)[..|token|] == token;
  }

  /** Two spaces after the scheme leave an empty second field, so even a valid token is not found. */
  lemma {:induction false} DoubleSpaceLosesToken(scheme: string, token: string)
    requires ' ' !in scheme
    ensures BearerToken(Some(scheme + "  " + token)) == None
  {
    var h := scheme + "  " + token;
    assert h == scheme + [' '] + (" " + token);
    IndexOfAfter(scheme, ' ', " " + token);
    assert h[|scheme| + 1..] == " " + token;
    assert IndexOf(" " + token, ' ') == Some(0);
  }

  /** `authenticateToken` as a decision: 401 without a token, 403 with the verification error, else the claims. */
  function Authenticate(header: Option<string>, env: Option<string>, nowMs: int): (g: Gate<Jwt.Claims>)
    ensures BearerToken(header).None? ==> g == Stop(Response(401, Message(TokenMissing)))
    ensures g.Next? <==> BearerToken(header).Some? && VerifyToken(BearerToken(header).value, env, nowMs).Ok?
    ensures g.Next? ==> g.value == VerifyToken(BearerToken(header).value, env, nowMs).value
    ensures BearerToken(header).Some? && g.Stop? ==> g.response == Response(403, Message(InvalidTokenMessage))
  {
    match BearerToken(header)
    case None => Stop(Response(401, Message(TokenMissing)))
    case Some(t) =>
      match VerifyToken(t, env, nowMs)
      case Err(e) => Stop(Response(403, Message(e.message)))
      case Ok(c) => Next(c)
  }

  /** A token issued by `generateToken` and sent in any `<scheme> <token>` header admits the user's claims for 24 hours. */
  lemma IssuedTokenAuthenticates(u: Store.User, env: Option<string>, scheme: string, signedAt: int, nowMs: int)
    requires ' ' !in scheme
    requires Jwt.Seconds(nowMs) < Jwt.Seconds(signedAt) + Jwt.DaySeconds
    ensures Authenticate(Some(scheme + " " + GenerateToken(u, env, signedAt)), env, nowMs)
            == Next(Jwt.Claims(Jwt.Session(u.id, u.email, u.role), Jwt.Seconds(signedAt), Jwt.Seconds(signedAt) + Jwt.DaySeconds))
  {
    var payload := Jwt.Session(u.id, u.email, u.role);
    Jwt.SignedTokenHasNoSpace(payload, SecretKey(env), signedAt);
    AnySchemeWord(scheme, GenerateToken(u, env, signedAt), "");
    GeneratedTokenVerifies(u, env, signedAt, nowMs);
  }

  /** The request and response objects as the middleware sees them. */
  class Exchange {
    var user: Option<Jwt.Claims>
    var response: Option<Response>
    var nextCalls: nat

    constructor ()
      ensures user.None? && response.None? && nextCalls == 0
    {
      user, response, nextCalls := None, None, 0;
    }

    /** Sets `req.user` and calls `next` once, or answers and leaves `req.user` alone. */
    method AuthenticateToken(header: Option<string>, env: Option<string>, nowMs: int)
      modifies this
      ensures Authenticate(header, env, nowMs).Next? ==>
                user == Some(Authenticate(header, env, nowMs).value) && nextCalls == old(nextCalls) + 1
                && response == old(response)
      ensures Authenticate(header, env, nowMs).Stop? ==>
                user == old(user) && nextCalls == old(nextCalls)
                && response == Some(Authenticate(header, env, nowMs).response)
    {
      var token := BearerToken(header);
      if token.None? {
        response := Some(Response(401, Message(TokenMissing)));
        return;
      }
      var decoded := VerifyToken(token.value, env, nowMs);
      if decoded.Err? {
        response := Some(Response(403, Message(decoded.error.message)));
        return;
      }
      user := Some(decoded.value);
      nextCalls := nextCalls + 1;
    }
  }

  /** `error.details.map(d => ({ field: d.path[0], message: d.message }))`. */
  function FieldErrors(ds: seq<Detail>): (es: seq<FieldError>)
    ensures |es| == |ds|
    ensures forall i :: 0 <= i < |ds| ==> es[i] == FieldError(ds[i].key, ds[i].message)
  {
    if ds == [] then [] else FieldErrors(ds[..|ds| - 1]) + [FieldError(ds[|ds| - 1].key, ds[|ds| - 1].message)]
  }

  /** `validateUserMiddleware`: the body passes unchanged (the role default is discarded), or 400 with every error. */
  function ValidateUserGate(b: UserBody, emailOk: string -> bool): (g: Gate<UserBody>)
    ensures g.Next? <==> AcceptableUser(b, emailOk)
    ensures g.Next? ==> g.value == b
    ensures g.Stop? ==> g.response == Response(400, Invalid(FieldErrors(ValidateUser(b, emailOk))))
                        && g.response.body.errors != []
  {
    var details := ValidateUser(b, emailOk);
    if details == [] then Next(b) else Stop(Response(400, Invalid(FieldErrors(details))))
  }

  /** `validateLoginMiddleware`. */
  function ValidateLoginGate(b: UserBody, emailOk: string -> bool): (g: Gate<UserBody>)
    ensures g.Next? <==> ValidateLogin(b, emailOk) == []
    ensures g.Next? ==> g.value == b && b.email.Some? && b.email.value != "" && b.password.Some? && b.password.value != ""
    ensures g.Stop? ==> g.response == Response(400, Invalid(FieldErrors(ValidateLogin(b, emailOk))))
  {
    var details := ValidateLogin(b, emailOk);
    if details == [] then Next(b) else Stop(Response(400, Invalid(FieldErrors(details))))
  }

  /** A registration body whose only fault is the password "weak" gets the length error first, then the pattern error. */
  lemma WeakPasswordResponse(email: string, first: string, last: string, emailOk: string -> bool)
    requires email != "" && emailOk(email) && first != "" && last != ""
    ensures ValidateUserGate(UserBody(Some(email), Some("weak"), Some(first), Some(last), None), emailOk)
            == Stop(Response(400, Invalid([FieldError("password", PasswordTooShort), FieldError("password", PasswordWeak)])))
  {
    WeakPasswordReportsBoth();
    var details := ValidateUser(UserBody(Some(email), Some("weak"), Some(first), Some(last), None), emailOk);
    assert details == [Detail("password", "string.min", PasswordTooShort), Detail("password", "string.pattern.base", PasswordWeak)];
    var es := FieldErrors(details);
    assert es == [FieldError("password", PasswordTooShort), FieldError("password", PasswordWeak)] by {
      assert es[0] == FieldError("password", PasswordTooShort);
      assert es[1] == FieldError("password", PasswordWeak);
    }
  }
}
