/**
 * src/utils/helpers.js: session tokens and the public view of a user.
 * The signing key is the `SECRET_KEY` environment variable, passed in.
 */
module Helpers {
  import opened Results
  import opened Errors
  import Jwt
  import opened Store

  const DefaultKey := "gizli-anahtar"

  const InvalidTokenMessage := "Geçersiz token"

  /** `process.env.SECRET_KEY || "gizli-anahtar"`: an unset or empty variable falls back to the fixed default. */
  function SecretKey(env: Option<string>): (key: string)
    ensures key != ""
    ensures env.Some? && env.value != "" ==> key == env.value
    ensures env.None? || env.value == "" ==> key == DefaultKey
  {
    if env.Some? && env.value != "" then env.value else DefaultKey
  }

  /** A user as a JSON object; `password` is present only when the query selected it. */
  datatype UserJson = UserJson(id: int, email: string, password: Option<string>, firstName: string,
                               lastName: string, role: string)

  /** `user.toJSON()` of a row read with every attribute. */
  function Json(u: User): (j: UserJson)
    ensures j.password == Some(u.passwordHash)
  {
    UserJson(u.id, u.email, Some(u.passwordHash), u.firstName, u.lastName, u.role)
  }

  /** `sanitizeUser(user)`: the same id, email, names and role, and no password. */
  function SanitizeUser(u: UserJson): (s: UserJson)
    ensures s.password.None?
    ensures s.id == u.id && s.email == u.email && s.firstName == u.firstName
    ensures s.lastName == u.lastName && s.role == u.role
  {
    UserJson(u.id, u.email, None, u.firstName, u.lastName, u.role)
  }

  /** Sanitising its own output changes nothing, and the result is the input exactly when the input held no password. */
  lemma SanitizeIdempotent(u: UserJson)
    ensures SanitizeUser(SanitizeUser(u)) == SanitizeUser(u)
    ensures SanitizeUser(u) == u <==> u.password.None?
  {
  }

  /** `generateToken(user)`: signs `{ id, email, role }` for 24 hours. */
  function GenerateToken(u: User, env: Option<string>, nowMs: int): (t: string)
    ensures t != "" && ' ' !in t
  {
    Jwt.SignedTokenHasNoSpace(Jwt.Session(u.id, u.email, u.role), SecretKey(env), nowMs);
    Jwt.Sign(Jwt.Session(u.id, u.email, u.role), SecretKey(env), nowMs)
  }

  /** `verifyToken(token)`: the decoded claims, or the single error "Geçersiz token" whatever went wrong. */
  function VerifyToken(token: string, env: Option<string>, nowMs: int): (r: Result<Jwt.Claims, Error>)
    ensures r.Err? ==> r.error == Thrown(InvalidTokenMessage)
    ensures r.Ok? <==> Jwt.Verify(token, SecretKey(env), nowMs).Ok?
    ensures r.Ok? ==> r.value == Jwt.Verify(token, SecretKey(env), nowMs).value
  {
    match Jwt.Verify(token, SecretKey(env), nowMs)
    case Ok(c) => Ok(c)
    case Err(_) => Err(Thrown(InvalidTokenMessage))
  }

  /** A token from `generateToken` verifies to the user's id, email and role until 24 hours after signing, and fails with the one generic error afterwards. */
  lemma GeneratedTokenVerifies(u: User, env: Option<string>, signedAt: int, nowMs: int)
    ensures var iat := Jwt.Seconds(signedAt);
            VerifyToken(GenerateToken(u, env, signedAt), env, nowMs) ==
              if Jwt.Seconds(nowMs) < iat + Jwt.DaySeconds
              then Ok(Jwt.Claims(Jwt.Session(u.id, u.email, u.role), iat, iat + Jwt.DaySeconds))
              else Err(Thrown(InvalidTokenMessage))
  {
    Jwt.VerifySign(Jwt.Session(u.id, u.email, u.role), SecretKey(env), signedAt, nowMs);
  }

  /** A token signed under one configured key is rejected once the effective key changes. */
  lemma KeyChangeRejects(u: User, env: Option<string>, env': Option<string>, signedAt: int, nowMs: int)
    requires SecretKey(env) != SecretKey(env')
    ensures VerifyToken(GenerateToken(u, env, signedAt), env', nowMs) == Err(Thrown(InvalidTokenMessage))
  {
    Jwt.VerifyOtherKey(Jwt.Session(u.id, u.email, u.role), SecretKey(env), SecretKey(env'), signedAt, nowMs);
  }

  /** An unset key and an empty one both sign with the default, so their tokens are interchangeable. */
  lemma UnsetAndEmptyKeyAgree(u: User, signedAt: int)
    ensures GenerateToken(u, None, signedAt) == GenerateToken(u, Some(""), signedAt)
                                             == GenerateToken(u, Some(DefaultKey), signedAt)
  {
  }
}
