/**
 * src/auth.js: an older router with its own register, login and
 * password-reset handlers. It is not mounted by the application. Its tokens
 * carry `{ userId, role }`. A reset request first deletes the user's earlier
 * rows, and an expired token's row is deleted when it is presented.
 * The two validators it imports are not exported by the middleware module; the
 * model takes them as the parameters `validEmail` and `validPassword`.
 */
module LegacyAuth {
  import opened Results
  import opened Errors
  import opened PasswordReset
  import opened Store
  import Bcrypt
  import Jwt
  import opened Helpers
  import opened Http
  import AuthService

  const InvalidEmail := "Geçersiz email formatı"
  const InvalidPassword := "Geçersiz şifre formatı"
  const EmailInUse := "Bu email zaten kayıtlı"
  const RegisterFailed := "Kayıt işlemi başarısız"
  const CredentialsRequired := "Email ve şifre gereklidir"
  const BadCredentials := "Geçersiz email veya şifre"
  const ResetRequested := "Şifre sıfırlama talebi oluşturuldu."
  const ResetRequestFailed := "Şifre sıfırlama talebi başarısız"
  const BadResetToken := "Geçersiz veya süresi dolmuş token"
  const ResetTokenExpired := "Token süresi dolmuş"
  const PasswordUpdated := "Şifre başarıyla güncellendi"
  const ResetFailed := "Şifre sıfırlama başarısız"

  /** `role || "user"`: an absent or empty role becomes "user". */
  function RoleOrDefault(role: Option<string>): (r: string)
    ensures r != ""
    ensures role.Some? && role.value != "" ==> r == role.value
  {
    if role.Some? && role.value != "" then role.value else "user"
  }

  /** A JavaScript truthy string: present and not empty. */
  predicate Truthy(v: Option<string>)
  {
    v.Some? && v.value != ""
  }

  /** The token this router signs: `{ userId, role }` for 24 hours. */
  function LegacyToken(u: User, env: Option<string>, nowMs: int): (t: string)
    ensures t != "" && ' ' !in t
  {
    Jwt.SignedTokenHasNoSpace(Jwt.Legacy(u.id, u.role), SecretKey(env), nowMs);
    Jwt.Sign(Jwt.Legacy(u.id, u.role), SecretKey(env), nowMs)
  }

  /** POST /register. */
  ghost function RegisterSpec(db: Db, b: UserBody, validEmail: Option<string> -> bool, validPassword: Option<string> -> bool,
                              env: Option<string>, nowMs: int): (r: (Db, Response))
    ensures r.1.status != 200 ==> r.0 == db
    ensures !validEmail(b.email) ==> r.1 == Response(400, ErrorText(InvalidEmail))
    ensures validEmail(b.email) && !validPassword(b.password) ==> r.1 == Response(400, ErrorText(InvalidPassword))
    ensures validEmail(b.email) && validPassword(b.password) && b.email.Some? && EmailTaken(db.users, b.email.value)
            ==> r == (db, Response(400, ErrorText(EmailInUse)))
    ensures r.1.status == 200 ==>
              && b.email.Some? && b.password.Some? && b.firstName.Some? && b.lastName.Some?
              && !EmailTaken(db.users, b.email.value) && db.nextUserId in r.0.users
              && var u := r.0.users[db.nextUserId];
                 && r.0 == db.(users := db.users[u.id := u], nextUserId := db.nextUserId + 1)
                 && u.email == b.email.value && Bcrypt.Compare(b.password.value, u.passwordHash)
                 && u.role == RoleOrDefault(b.role)
                 && r.1 == Response(200, TokenOnly(LegacyToken(u, env, nowMs)))
  {
    if !validEmail(b.email) then (db, Response(400, ErrorText(InvalidEmail)))
    else if !validPassword(b.password) then (db, Response(400, ErrorText(InvalidPassword)))
    else if b.email.None? then (db, Response(500, ErrorText(RegisterFailed)))
    else if EmailTaken(db.users, b.email.value) then (db, Response(400, ErrorText(EmailInUse)))
    else
      var (d, r) := InsertUser(db, UserInput(b.email, b.password, b.firstName, b.lastName, Some(RoleOrDefault(b.role))));
      match r
      case Err(_) => (d, Response(500, ErrorText(RegisterFailed)))
      case Ok(u) => (d, Response(200, TokenOnly(LegacyToken(u, env, nowMs))))
  }

  /** POST /login. */
  ghost function LoginSpec(db: Db, email: Option<string>, password: Option<string>, env: Option<string>, nowMs: int)
    : (resp: Response)
    ensures !Truthy(email) || !Truthy(password) ==> resp == Response(400, ErrorText(CredentialsRequired))
    ensures resp.status == 401 ==> resp == Response(401, ErrorText(BadCredentials))
  {
    if !Truthy(email) || !Truthy(password) then Response(400, ErrorText(CredentialsRequired))
    else match UserByEmail(db.users, email.value)
      case None => Response(401, ErrorText(BadCredentials))
      case Some(u) =>
        if !Bcrypt.Compare(password.value, u.passwordHash) then Response(401, ErrorText(BadCredentials))
        else Response(200, Authenticated(LegacyToken(u, env, nowMs), SanitizeUser(Json(u))))
  }

  /** POST /forgot-password: the user's earlier rows are deleted, then one new row is stored. */
  ghost function ForgotPasswordSpec(db: Db, email: Option<string>, validEmail: Option<string> -> bool, newToken: string,
                                    nowMs: int): (r: (Db, Response))
    ensures r.1.status != 200 ==> r.0 == db
    ensures validEmail(email) && email.Some? && !EmailTaken(db.users, email.value)
            ==> r == (db, Response(404, ErrorText(UserNotFound)))
  {
    if !validEmail(email) then (db, Response(400, ErrorText(InvalidEmail)))
    else if email.None? then (db, Response(500, ErrorText(ResetRequestFailed)))
    else match UserByEmail(db.users, email.value)
      case None => (db, Response(404, ErrorText(UserNotFound)))
      case Some(u) =>
        var cleared := DeleteResetsOf(db, u.id);
        var (d, r) := InsertReset(cleared, RowInput(Some(u.id), Some(newToken), Some(nowMs + OneHourMs)));
        if r.Err? then (db, Response(500, ErrorText(ResetRequestFailed)))
        else (d, Response(200, ResetExample(ResetRequested, newToken)))
  }

  /** POST /reset-password. */
  ghost function ResetPasswordSpec(db: Db, token: Option<string>, newPassword: Option<string>,
                                   validPassword: Option<string> -> bool, nowMs: int): (r: (Db, Response))
    ensures !validPassword(newPassword) ==> r == (db, Response(400, ErrorText(InvalidPassword)))
    ensures r.1.status == 404 ==> r.0 == db
    ensures validPassword(newPassword) && token.None? ==> r == (db, Response(500, ErrorText(ResetFailed)))
    ensures validPassword(newPassword) && token.Some? && FirstWithToken(db.resets, token.value).None?
            ==> r == (db, Response(404, ErrorText(BadResetToken)))
    ensures (validPassword(newPassword) && token.Some? && FirstWithToken(db.resets, token.value).Some?
             && IsExpired(FirstWithToken(db.resets, token.value).value, nowMs))
            ==> r == (DeleteReset(db, FirstWithToken(db.resets, token.value).value.id), Response(400, ErrorText(ResetTokenExpired)))
    ensures r.1.status == 200 ==>
              && validPassword(newPassword) && token.Some? && FirstWithToken(db.resets, token.value).Some?
              && var row := FirstWithToken(db.resets, token.value).value;
                 && !IsExpired(row, nowMs) && row.userId in db.users
                 && r.0 == DeleteReset(db.(users := db.users[row.userId := Applied(db.users[row.userId], AuthService.PasswordChange(newPassword))]), row.id)
                 && r.1 == Response(200, Message(PasswordUpdated))
  {
    if !validPassword(newPassword) then (db, Response(400, ErrorText(InvalidPassword)))
    else if token.None? then (db, Response(500, ErrorText(ResetFailed)))
    else match FirstWithToken(db.resets, token.value)
      case None => (db, Response(404, ErrorText(BadResetToken)))
      case Some(row) =>
        if IsExpired(row, nowMs) then (DeleteReset(db, row.id), Response(400, ErrorText(ResetTokenExpired)))
        else if row.userId !in db.users then (db, Response(404, ErrorText(UserNotFound)))
        else
          var d := UpdateUserRow(db, row.userId, AuthService.PasswordChange(newPassword)).0;
          (DeleteReset(d, row.id), Response(200, Message(PasswordUpdated)))
  }

  // ----- the handlers on the store -----

  method Register(db: Database, b: UserBody, validEmail: Option<string> -> bool, validPassword: Option<string> -> bool,
                  env: Option<string>, nowMs: int) returns (resp: Response)
    requires Valid(db.Snapshot())
    modifies db
    ensures (db.Snapshot(), resp) == RegisterSpec(old(db.Snapshot()), b, validEmail, validPassword, env, nowMs)
    ensures Valid(db.Snapshot())
  {
    if !validEmail(b.email) {
      return Response(400, ErrorText(InvalidEmail));
    }
    if !validPassword(b.password) {
      return Response(400, ErrorText(InvalidPassword));
    }
    if b.email.None? {
      return Response(500, ErrorText(RegisterFailed));
    }
    var existing := db.FindUserByEmail(b.email.value);
    if existing.Some? {
      return Response(400, ErrorText(EmailInUse));
    }
    var input := UserInput(b.email, b.password, b.firstName, b.lastName, Some(RoleOrDefault(b.role)));
    UserStepsPreserveValid(db.Snapshot(), input, 0, UserChanges(None, None, None, None, None));
    var created := db.CreateUser(input);
    if created.Err? {
      return Response(500, ErrorText(RegisterFailed));
    }
    resp := Response(200, TokenOnly(LegacyToken(created.value, env, nowMs)));
  }

  method Login(db: Database, email: Option<string>, password: Option<string>, env: Option<string>, nowMs: int)
    returns (resp: Response)
    requires Valid(db.Snapshot())
    ensures resp == LoginSpec(db.Snapshot(), email, password, env, nowMs)
  {
    if !Truthy(email) || !Truthy(password) {
      return Response(400, ErrorText(CredentialsRequired));
    }
    var user := db.FindUserByEmail(email.value);
    if user.None? {
      return Response(401, ErrorText(BadCredentials));
    }
    var isValid := Bcrypt.Compare(password.value, user.value.passwordHash);
    if !isValid {
      return Response(401, ErrorText(BadCredentials));
    }
    resp := Response(200, Authenticated(LegacyToken(user.value, env, nowMs), SanitizeUser(Json(user.value))));
  }

  method ForgotPassword(db: Database, email: Option<string>, validEmail: Option<string> -> bool, newToken: string, nowMs: int)
    returns (resp: Response)
    requires Valid(db.Snapshot())
    modifies db
    ensures (db.Snapshot(), resp) == ForgotPasswordSpec(old(db.Snapshot()), email, validEmail, newToken, nowMs)
    ensures Valid(db.Snapshot())
  {
    if !validEmail(email) {
      return Response(400, ErrorText(InvalidEmail));
    }
    if email.None? {
      return Response(500, ErrorText(ResetRequestFailed));
    }
    var user := db.FindUserByEmail(email.value);
    if user.None? {
      return Response(404, ErrorText(UserNotFound));
    }
    var u := user.value;
    DeleteUserPreservesValid(db.Snapshot(), u.id);
    db.DestroyResetsOf(u.id);
    var rin := RowInput(Some(u.id), Some(newToken), Some(nowMs + OneHourMs));
    ResetStepsPreserveValid(db.Snapshot(), rin, 0);
    var created := db.CreateReset(rin);
    if created.Err? {
      // The row always references the user just found, so the insert cannot fail.
      assert false;
      return Response(500, ErrorText(ResetRequestFailed));
    }
    resp := Response(200, ResetExample(ResetRequested, newToken));
  }

  method ResetPassword(db: Database, token: Option<string>, newPassword: Option<string>,
                       validPassword: Option<string> -> bool, nowMs: int) returns (resp: Response)
    requires Valid(db.Snapshot())
    modifies db
    ensures (db.Snapshot(), resp) == ResetPasswordSpec(old(db.Snapshot()), token, newPassword, validPassword, nowMs)
    ensures Valid(db.Snapshot())
  {
    if !validPassword(newPassword) {
      return Response(400, ErrorText(InvalidPassword));
    }
    if token.None? {
      return Response(500, ErrorText(ResetFailed));
    }
    var passwordReset := db.FindResetByToken(token.value);
    if passwordReset.None? {
      return Response(404, ErrorText(BadResetToken));
    }
    var row := passwordReset.value;
    if IsExpired(row, nowMs) {
      ResetStepsPreserveValid(db.Snapshot(), RowInput(None, None, None), row.id);
      db.DestroyReset(row.id);
      return Response(400, ErrorText(ResetTokenExpired));
    }
    if row.userId !in db.users {
      return Response(404, ErrorText(UserNotFound));
    }
    var change := AuthService.PasswordChange(newPassword);
    UserStepsPreserveValid(db.Snapshot(), UserInput(None, None, None, None, None), row.userId, change);
    var _ := db.UpdateUser(row.userId, change);
    ResetStepsPreserveValid(db.Snapshot(), RowInput(None, None, None), row.id);
    db.DestroyReset(row.id);
    resp := Response(200, Message(PasswordUpdated));
  }

  // ----- properties of the flows -----

  /** Appending a row for a user who has no row keeps at most one row per user. */
  lemma AppendNewOwner(rows: seq<ResetRow>, row: ResetRow)
    requires AtMostOneRowPerUser(rows)
    requires forall x :: x in rows ==> x.userId != row.userId
    ensures AtMostOneRowPerUser(rows + [row])
  {
    var g := rows + [row];
    forall i, j | 0 <= i < j < |g| ensures OwnersDiffer(g[i], g[j]) {
      if j == |rows| {
        assert g[i] in rows;
      }
    }
  }

  /** A request for a known email replaces the user's rows by one new row that expires an hour later; other users' rows stay. */
  lemma RequestReplacesRows(db: Db, email: string, validEmail: Option<string> -> bool, newToken: string, nowMs: int, k: int)
    requires Valid(db) && validEmail(Some(email)) && k in db.users && db.users[k].email == email
    ensures var (d, resp) := ForgotPasswordSpec(db, Some(email), validEmail, newToken, nowMs);
            && resp == Response(200, ResetExample(ResetRequested, newToken))
            && d.users == db.users
            && d.resets == DropUser(db.resets, k) + [ResetRow(db.nextResetId, k, newToken, nowMs + OneHourMs)]
  {
    UserByEmailIsUnique(db.users, email, k);
  }

  /** Forgot-password keeps the store valid, keeps at most one row per user, and with a fresh token keeps tokens distinct. */
  lemma ForgotPreservesInvariants(db: Db, email: Option<string>, validEmail: Option<string> -> bool, newToken: string, nowMs: int)
    requires Valid(db)
    ensures var d := ForgotPasswordSpec(db, email, validEmail, newToken, nowMs).0;
            && Valid(d)
            && (AtMostOneRowPerUser(db.resets) ==> AtMostOneRowPerUser(d.resets))
            && (TokensDistinct(db.resets) && FreshToken(db.resets, newToken) ==> TokensDistinct(d.resets))
  {
    if validEmail(email) && email.Some? && EmailTaken(db.users, email.value) {
      var u := UserByEmail(db.users, email.value).value;
      var cleared := DeleteResetsOf(db, u.id);
      DeleteUserPreservesValid(db, u.id);
      var rin := RowInput(Some(u.id), Some(newToken), Some(nowMs + OneHourMs));
      ResetStepsPreserveValid(cleared, rin, 0);
      FilterKeepsDistinct(db.resets, (r: ResetRow) => r.userId != u.id);
      var row := InsertReset(cleared, rin).1.value;
      if AtMostOneRowPerUser(db.resets) {
        AppendNewOwner(cleared.resets, row);
      }
      if TokensDistinct(db.resets) && FreshToken(db.resets, newToken) {
        AppendFreshToken(cleared.resets, row);
      }
    }
  }

  /** A second request revokes the first token: presenting it afterwards gets the unknown-token reply. */
  lemma NewRequestRevokesOldToken(db: Db, email: string, validEmail: Option<string> -> bool, k: int,
                                  first: string, second: string, firstAt: int, secondAt: int,
                                  newPassword: Option<string>, validPassword: Option<string> -> bool, redeemAt: int)
    requires Valid(db) && validEmail(Some(email)) && k in db.users && db.users[k].email == email
    requires FreshToken(db.resets, first) && second != first && validPassword(newPassword)
    ensures var d1 := ForgotPasswordSpec(db, Some(email), validEmail, first, firstAt).0;
            var d2 := ForgotPasswordSpec(d1, Some(email), validEmail, second, secondAt).0;
            ResetPasswordSpec(d2, Some(first), newPassword, validPassword, redeemAt) == (d2, Response(404, ErrorText(BadResetToken)))
  {
    RequestReplacesRows(db, email, validEmail, first, firstAt, k);
    ForgotPreservesInvariants(db, Some(email), validEmail, first, firstAt);
    var d1 := ForgotPasswordSpec(db, Some(email), validEmail, first, firstAt).0;
    RequestReplacesRows(d1, email, validEmail, second, secondAt, k);
    var d2 := ForgotPasswordSpec(d1, Some(email), validEmail, second, secondAt).0;
    forall x | x in d2.resets ensures x.token != first {
      if x in DropUser(d1.resets, k) {
        assert x in d1.resets && x.userId != k;
        assert x in DropUser(db.resets, k);
      }
    }
  }

  /** An expired token's row is deleted when it is presented, so presenting it again gets the unknown-token reply. */
  lemma ExpiredTokenIsPurged(db: Db, row: ResetRow, first: Option<string>, second: Option<string>,
                             validPassword: Option<string> -> bool, nowMs: int, laterMs: int)
    requires TokensDistinct(db.resets) && row in db.resets && IsExpired(row, nowMs)
    requires validPassword(first) && validPassword(second)
    ensures var (d, resp) := ResetPasswordSpec(db, Some(row.token), first, validPassword, nowMs);
            && d == DeleteReset(db, row.id)
            && resp == Response(400, ErrorText(ResetTokenExpired))
            && ResetPasswordSpec(d, Some(row.token), second, validPassword, laterMs) == (d, Response(404, ErrorText(BadResetToken)))
  {
    var found := FirstWithToken(db.resets, row.token).value;
    SameTokenSameRow(db.resets, found, row);
    var d := DeleteReset(db, row.id);
    forall x | x in d.resets ensures x.token != row.token {
      if x.token == row.token {
        SameTokenSameRow(db.resets, x, row);
      }
    }
  }

  /** A stored, unexpired row of an existing user, whose token no other row carries, is redeemed by its token. */
  lemma OnlyHolderRedeems(db: Db, row: ResetRow, newPassword: Option<string>, validPassword: Option<string> -> bool,
                          nowMs: int)
    requires row in db.resets && row.userId in db.users && !IsExpired(row, nowMs) && validPassword(newPassword)
    requires forall x :: x in db.resets && x.token == row.token ==> x == row
    ensures ResetPasswordSpec(db, Some(row.token), newPassword, validPassword, nowMs).1 == Response(200, Message(PasswordUpdated))
  {
    assert FirstWithToken(db.resets, row.token) == Some(row);
  }

  /** With distinct tokens a redeemed token is gone: presenting it again gets the unknown-token reply and changes nothing. */
  lemma RedemptionIsSingleUse(db: Db, token: string, first: Option<string>, second: Option<string>,
                              validPassword: Option<string> -> bool, firstAt: int, secondAt: int)
    requires TokensDistinct(db.resets) && validPassword(second)
    requires ResetPasswordSpec(db, Some(token), first, validPassword, firstAt).1.status == 200
    ensures var d := ResetPasswordSpec(db, Some(token), first, validPassword, firstAt).0;
            ResetPasswordSpec(d, Some(token), second, validPassword, secondAt) == (d, Response(404, ErrorText(BadResetToken)))
  {
    var row := FirstWithToken(db.resets, token).value;
    var d := ResetPasswordSpec(db, Some(token), first, validPassword, firstAt).0;
    forall x | x in d.resets ensures x.token != token {
      if x.token == token {
        SameTokenSameRow(db.resets, x, row);
      }
    }
  }

  /** With unique emails, a login with both fields given is decided by the one user holding the email. */
  lemma LoginDecidedByOwner(db: Db, email: string, password: string, env: Option<string>, nowMs: int, k: int)
    requires EmailsUnique(db.users) && k in db.users && db.users[k].email == email && email != "" && password != ""
    ensures LoginSpec(db, Some(email), Some(password), env, nowMs) ==
              if Bcrypt.Compare(password, db.users[k].passwordHash)
              then Response(200, Authenticated(LegacyToken(db.users[k], env, nowMs), SanitizeUser(Json(db.users[k]))))
              else Response(401, ErrorText(BadCredentials))
  {
    UserByEmailIsUnique(db.users, email, k);
  }

  /** After a registration the same credentials log in as the new user with the defaulted role, other passwords fail, and the email cannot register again. */
  lemma RegisterThenLogin(db: Db, b: UserBody, validEmail: Option<string> -> bool, validPassword: Option<string> -> bool,
                          env: Option<string>, registeredAt: int, nowMs: int, other: string, again: UserBody)
    requires Valid(db) && RegisterSpec(db, b, validEmail, validPassword, env, registeredAt).1.status == 200
    requires b.email.value != "" && b.password.value != "" && other != "" && other != b.password.value
    requires again.email == b.email && validEmail(again.email) && validPassword(again.password)
    ensures var d := RegisterSpec(db, b, validEmail, validPassword, env, registeredAt).0;
            var u := d.users[db.nextUserId];
            && u.role == RoleOrDefault(b.role)
            && LoginSpec(d, b.email, b.password, env, nowMs)
               == Response(200, Authenticated(LegacyToken(u, env, nowMs), SanitizeUser(Json(u))))
            && LoginSpec(d, b.email, Some(other), env, nowMs) == Response(401, ErrorText(BadCredentials))
            && RegisterSpec(d, again, validEmail, validPassword, env, nowMs) == (d, Response(400, ErrorText(EmailInUse)))
  {
    var input := UserInput(b.email, b.password, b.firstName, b.lastName, Some(RoleOrDefault(b.role)));
    UserStepsPreserveValid(db, input, 0, AuthService.PasswordChange(None));
    var d := RegisterSpec(db, b, validEmail, validPassword, env, registeredAt).0;
    var u := InsertUser(db, input).1.value;
    assert u.id == db.nextUserId && u.id in d.users && d.users[u.id] == u;
    LoginDecidedByOwner(d, b.email.value, b.password.value, env, nowMs, u.id);
    LoginDecidedByOwner(d, b.email.value, other, env, nowMs, u.id);
    Bcrypt.CompareOwnHash(b.password.value);
    Bcrypt.CompareOnlyOwnHash(b.password.value, other);
  }

  /** A redemption that answers 200 keeps the store valid and gives the token's owner the new password. */
  lemma RedeemUpdatesOwner(db: Db, token: string, newPassword: string, validPassword: Option<string> -> bool, resetAt: int)
    requires Valid(db) && ResetPasswordSpec(db, Some(token), Some(newPassword), validPassword, resetAt).1.status == 200
    ensures var d := ResetPasswordSpec(db, Some(token), Some(newPassword), validPassword, resetAt).0;
            var k := FirstWithToken(db.resets, token).value.userId;
            && k in db.users && Valid(d) && k in d.users
            && d.users[k] == Applied(db.users[k], AuthService.PasswordChange(Some(newPassword)))
  {
    var k := FirstWithToken(db.resets, token).value.userId;
    var change := AuthService.PasswordChange(Some(newPassword));
    UserStepsPreserveValid(db, UserInput(None, None, None, None, None), k, change);
    var d1 := UpdateUserRow(db, k, change).0;
    ResetStepsPreserveValid(d1, RowInput(None, None, None), FirstWithToken(db.resets, token).value.id);
  }

  /** After a reset the new password logs the owner in, and any other password, the old one included, fails. */
  lemma ResetReplacesLoginPassword(db: Db, token: string, newPassword: string, validPassword: Option<string> -> bool,
                                   other: string, env: Option<string>, resetAt: int, nowMs: int)
    requires Valid(db) && ResetPasswordSpec(db, Some(token), Some(newPassword), validPassword, resetAt).1.status == 200
    requires newPassword != "" && other != "" && other != newPassword
    ensures var d := ResetPasswordSpec(db, Some(token), Some(newPassword), validPassword, resetAt).0;
            var k := FirstWithToken(db.resets, token).value.userId;
            var email := db.users[k].email;
            && email != "" ==>
               && LoginSpec(d, Some(email), Some(newPassword), env, nowMs)
                  == Response(200, Authenticated(LegacyToken(d.users[k], env, nowMs), SanitizeUser(Json(d.users[k]))))
               && LoginSpec(d, Some(email), Some(other), env, nowMs) == Response(401, ErrorText(BadCredentials))
  {
    RedeemUpdatesOwner(db, token, newPassword, validPassword, resetAt);
    var d := ResetPasswordSpec(db, Some(token), Some(newPassword), validPassword, resetAt).0;
    var k := FirstWithToken(db.resets, token).value.userId;
    var email := db.users[k].email;
    assert d.users[k].email == email;
    if email != "" {
      LoginDecidedByOwner(d, email, newPassword, env, nowMs, k);
      LoginDecidedByOwner(d, email, other, env, nowMs, k);
      Bcrypt.CompareOnlyOwnHash(newPassword, other);
    }
  }
}
