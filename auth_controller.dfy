/**
 * src/controllers/authController.js: each handler calls one service
 * operation and maps its outcome to a status and a JSON body. The route
 * functions add the middleware that src/routes/authRoutes.js puts in front:
 * schema validation before register and login, none before the reset steps.
 */
module AuthController {
  import opened Results
  import opened Errors
  import opened PasswordReset
  import opened Store
  import opened Helpers
  import opened Http
  import opened Validation
  import opened AuthMiddleware
  import opened AuthService

  const EmailAlreadyRegistered := "Bu email adresi zaten kayıtlı"
  const RegisterFailed := "Kayıt sırasında bir hata oluştu"
  const ResetTokenCreated := "Şifre sıfırlama token'ı oluşturuldu"
  const PasswordUpdated := "Şifre başarıyla güncellendi"

  /** `register`'s reply: 200 with `{ token, user }`, 400 for a duplicate email, 500 for anything else. */
  function RegisterReply(r: Result<Issued, Error>): (resp: Response)
    ensures r.Ok? <==> resp.status == 200
    ensures r.Ok? ==> resp.body == Authenticated(r.value.token, r.value.user)
    ensures resp.status == 400 <==> r.Err? && r.error.name == UniqueConstraint.name
    ensures resp.status == 400 ==> resp.body == Message(EmailAlreadyRegistered)
    ensures resp.status == 500 <==> r.Err? && r.error.name != UniqueConstraint.name
  {
    match r
    case Ok(s) => Response(200, Authenticated(s.token, s.user))
    case Err(e) =>
      if e.name == "SequelizeUniqueConstraintError" then Response(400, Message(EmailAlreadyRegistered))
      else Response(500, Message(RegisterFailed))
  }

  /** `login`'s reply: 200 with `{ token, user }`, otherwise 401 with the thrown message. */
  function LoginReply(r: Result<Issued, Error>): (resp: Response)
    ensures r.Ok? <==> resp.status == 200
    ensures r.Err? ==> resp == Response(401, Message(r.error.message))
  {
    match r
    case Ok(s) => Response(200, Authenticated(s.token, s.user))
    case Err(e) => Response(401, Message(e.message))
  }

  /** `forgotPassword`'s reply: 200 with the message and `{ token, expiresAt }`, otherwise 404 with the thrown message. */
  function ForgotPasswordReply(r: Result<ResetTicket, Error>): (resp: Response)
    ensures r.Ok? <==> resp.status == 200
    ensures r.Ok? ==> resp.body == ResetIssued(ResetTokenCreated, r.value.token, r.value.expiresAt)
    ensures r.Err? ==> resp == Response(404, Message(r.error.message))
  {
    match r
    case Ok(t) => Response(200, ResetIssued(ResetTokenCreated, t.token, t.expiresAt))
    case Err(e) => Response(404, Message(e.message))
  }

  /** `resetPassword`'s reply: 200 on success, otherwise 400 with the thrown message. */
  function ResetPasswordReply(r: Result<ResetRow, Error>): (resp: Response)
    ensures r.Ok? <==> resp == Response(200, Message(PasswordUpdated))
    ensures r.Err? ==> resp == Response(400, Message(r.error.message))
  {
    match r
    case Ok(_) => Response(200, Message(PasswordUpdated))
    case Err(e) => Response(400, Message(e.message))
  }

  /** The body as `User.create` receives it. */
  function InputOf(b: UserBody): UserInput
  {
    UserInput(b.email, b.password, b.firstName, b.lastName, b.role)
  }

  /** POST /register: `validateUser`, then `register`. */
  ghost function RegisterRoute(db: Db, b: UserBody, emailOk: string -> bool, env: Option<string>, nowMs: int): (r: (Db, Response))
    ensures r.1.status != 200 ==> r.0 == db
    ensures !AcceptableUser(b, emailOk) ==> r.1.status == 400
  {
    match ValidateUserGate(b, emailOk)
    case Stop(resp) => (db, resp)
    case Next(body) =>
      var (d, r) := RegisterSpec(db, InputOf(body), env, nowMs);
      (d, RegisterReply(r))
  }

  /** POST /login: `validateLogin`, then `login` with the body's email and password. */
  ghost function LoginRoute(db: Db, b: UserBody, emailOk: string -> bool, env: Option<string>, nowMs: int): (resp: Response)
    ensures ValidateLogin(b, emailOk) != [] ==> resp.status == 400
    ensures ValidateLogin(b, emailOk) == [] ==> resp.status == 200 || resp == Response(401, Message(BadCredentials))
  {
    match ValidateLoginGate(b, emailOk)
    case Stop(resp) => resp
    case Next(body) => LoginReply(LoginSpec(db, body.email.value, body.password.value, env, nowMs))
  }

  /** POST /forgot-password: no validation; `email` may be absent. */
  ghost function ForgotPasswordRoute(db: Db, email: Option<string>, newToken: string, nowMs: int): (r: (Db, Response))
    ensures r.1.status != 200 ==> r.0 == db && r.1.status == 404
  {
    var (d, r) := CreatePasswordResetSpec(db, email, newToken, nowMs);
    (d, ForgotPasswordReply(r))
  }

  /** POST /reset-password: no validation; `token` and `newPassword` may be absent. */
  ghost function ResetPasswordRoute(db: Db, token: Option<string>, newPassword: Option<string>, nowMs: int): (r: (Db, Response))
    ensures r.1.status != 200 ==> r.0 == db && r.1.status == 400
    ensures r.1.status == 200 ==> token.Some? && FirstWithToken(db.resets, token.value).Some?
                                  && !IsExpired(FirstWithToken(db.resets, token.value).value, nowMs)
  {
    var (d, r) := ResetPasswordSpec(db, token, newPassword, nowMs);
    (d, ResetPasswordReply(r))
  }

  /** Registration succeeds exactly for a body the schema accepts whose email is free; a taken email gets 400 and the store is unchanged; 500 cannot occur. */
  lemma RegisterOutcomes(db: Db, b: UserBody, emailOk: string -> bool, env: Option<string>, nowMs: int)
    ensures var (d, resp) := RegisterRoute(db, b, emailOk, env, nowMs);
            && (resp.status == 200 <==> AcceptableUser(b, emailOk) && !EmailTaken(db.users, b.email.value))
            && (AcceptableUser(b, emailOk) && EmailTaken(db.users, b.email.value)
                ==> resp == Response(400, Message(EmailAlreadyRegistered)))
            && (!AcceptableUser(b, emailOk) ==> resp.status == 400 && resp.body.Invalid?)
            && (resp.status != 200 ==> d == db)
            && resp.status != 500
  {
  }

  /** For a body that passes the login schema, every failure is the same 401 response: an unknown email cannot be told from a wrong password. */
  lemma LoginFailuresLookAlike(db: Db, b: UserBody, emailOk: string -> bool, env: Option<string>, nowMs: int)
    requires ValidateLogin(b, emailOk) == []
    ensures LoginRoute(db, b, emailOk, env, nowMs).status != 200
            ==> LoginRoute(db, b, emailOk, env, nowMs) == Response(401, Message(BadCredentials))
  {
  }

  /** An unknown email gets 404 and no row; a request without an email gets 404 with the query error. */
  lemma ForgotPasswordFailures(db: Db, email: Option<string>, newToken: string, nowMs: int)
    requires email.None? || !EmailTaken(db.users, email.value)
    ensures var (d, resp) := ForgotPasswordRoute(db, email, newToken, nowMs);
            && d == db
            && resp == Response(404, Message(if email.None? then UndefinedWhere("email").message else UserNotFound))
  {
  }

  /** An unknown token gets 400 "Geçersiz veya süresi dolmuş token" and changes nothing. */
  lemma UnknownResetToken(db: Db, token: string, newPassword: Option<string>, nowMs: int)
    requires forall r :: r in db.resets ==> r.token != token
    ensures ResetPasswordRoute(db, Some(token), newPassword, nowMs) == (db, Response(400, Message(BadResetToken)))
  {
  }

  /** A registration that answers 200 stores the new user under the next id and leaves the reset rows alone. */
  lemma RegisterStoresUser(db: Db, b: UserBody, emailOk: string -> bool, env: Option<string>, t0: int)
    requires Valid(db) && RegisterRoute(db, b, emailOk, env, t0).1.status == 200
    ensures var d1 := RegisterRoute(db, b, emailOk, env, t0).0;
            && Valid(d1) && d1.resets == db.resets
            && db.nextUserId in d1.users && d1.users[db.nextUserId].email == b.email.value
  {
    UserStepsPreserveValid(db, InputOf(b), 0, PasswordChange(None));
  }

  /** A request for a user's email issues a token that the same user redeems within the hour. */
  lemma ForgotThenReset(d1: Db, email: string, k: int, newToken: string, newPassword: string, t1: int, t2: int)
    requires Valid(d1) && TokensDistinct(d1.resets) && FreshToken(d1.resets, newToken)
    requires k in d1.users && d1.users[k].email == email && t2 <= t1 + OneHourMs
    ensures var (d2, forgot) := ForgotPasswordRoute(d1, Some(email), newToken, t1);
            && forgot.status == 200 && Valid(d2) && d2.users == d1.users
            && ResetPasswordSpec(d2, Some(newToken), Some(newPassword), t2).1 == Ok(ResetRow(d1.nextResetId, k, newToken, t1 + OneHourMs))
  {
    RequestAppendsRow(d1, email, newToken, t1, k);
    RequestPreservesValid(d1, Some(email), newToken, t1);
    var d2 := ForgotPasswordRoute(d1, Some(email), newToken, t1).0;
    var row := ResetRow(d1.nextResetId, k, newToken, t1 + OneHourMs);
    assert d2.resets == d1.resets + [row];
    forall x | x in d2.resets && x.token == newToken ensures x == row {
      assert x in d1.resets || x == row;
    }
    OnlyHolderRedeems(d2, row, Some(newPassword), t2);
  }

  /**
   * The recovery flow end to end: a registered user requests a reset, redeems
   * the token within the hour with a new password, and then logs in with it
   * while the registration password no longer works.
   */
  lemma RecoveryFlow(db: Db, b: UserBody, emailOk: string -> bool, env: Option<string>, newToken: string,
                     newPassword: string, t0: int, t1: int, t2: int, t3: int)
    requires Valid(db) && TokensDistinct(db.resets) && FreshToken(db.resets, newToken)
    requires RegisterRoute(db, b, emailOk, env, t0).1.status == 200
    requires t2 <= t1 + OneHourMs
    requires newPassword != b.password.value
    ensures var d1 := RegisterRoute(db, b, emailOk, env, t0).0;
            var email := b.email.value;
            var (d2, forgot) := ForgotPasswordRoute(d1, Some(email), newToken, t1);
            var (d3, reset) := ResetPasswordRoute(d2, Some(newToken), Some(newPassword), t2);
            && forgot.status == 200 && reset.status == 200
            && LoginSpec(d3, email, newPassword, env, t3).Ok?
            && LoginSpec(d3, email, b.password.value, env, t3) == Err(Thrown(BadCredentials))
  {
    RegisterStoresUser(db, b, emailOk, env, t0);
    var d1 := RegisterRoute(db, b, emailOk, env, t0).0;
    var k := db.nextUserId;
    ForgotThenReset(d1, b.email.value, k, newToken, newPassword, t1, t2);
    var d2 := ForgotPasswordRoute(d1, Some(b.email.value), newToken, t1).0;
    ResetReplacesLoginPassword(d2, newToken, newPassword, b.password.value, env, t2, t3);
  }
}
