/**
 * src/services/authService.js: registration, login and the password-reset
 * flow of the mounted API. The `ghost function`s give each operation's effect
 * on the store and its outcome; the methods perform it on a `Database`.
 * Unlike the unmounted router in src/auth.js, a new reset request leaves the
 * user's earlier rows in place, and an expired row is never deleted.
 */
module AuthService {
  import opened Results
  import opened Errors
  import opened PasswordReset
  import opened Store
  import Bcrypt
  import Jwt
  import opened Helpers

  const BadCredentials := "Geçersiz email veya şifre"
  const BadResetToken := "Geçersiz veya süresi dolmuş token"

  /** `{ token, user }` as `register` and `login` return it. */
  datatype Issued = Issued(token: string, user: UserJson)

  /** `{ token, expiresAt }` as `createPasswordReset` returns it. */
  datatype ResetTicket = ResetTicket(token: string, expiresAt: int)

  /** A session for `u`: a new token and the user without the password. */
  function SessionFor(u: User, env: Option<string>, nowMs: int): (s: Issued)
    ensures s.user.password.None? && s.user.id == u.id && s.user.email == u.email && s.user.role == u.role
  {
    Issued(GenerateToken(u, env, nowMs), SanitizeUser(Json(u)))
  }

  /** `register(userData)`: `User.create` with the whole body, then a session for the new user. */
  ghost function RegisterSpec(db: Db, input: UserInput, env: Option<string>, nowMs: int): (r: (Db, Result<Issued, Error>))
    ensures r.0 == InsertUser(db, input).0
    ensures r.1.Err? ==> r.0 == db && r.1.error == InsertUser(db, input).1.error
    ensures r.1.Ok? <==> Required(input) == [] && !EmailTaken(db.users, input.email.value)
  {
    var (d, res) := InsertUser(db, input);
    match res
    case Err(e) => (d, Err(e))
    case Ok(u) => (d, Ok(SessionFor(u, env, nowMs)))
  }

  /** `login(email, password)`: the same error whether the email is unknown or the password wrong. */
  ghost function LoginSpec(db: Db, email: string, password: string, env: Option<string>, nowMs: int): (r: Result<Issued, Error>)
    ensures r.Err? ==> r.error == Thrown(BadCredentials)
  {
    match UserByEmail(db.users, email)
    case None => Err(Thrown(BadCredentials))
    case Some(u) =>
      if !Bcrypt.Compare(password, u.passwordHash) then Err(Thrown(BadCredentials))
      else Ok(SessionFor(u, env, nowMs))
  }

  /** `createPasswordReset(email)`: a new row for the user, valid for one hour; earlier rows stay. */
  ghost function CreatePasswordResetSpec(db: Db, email: Option<string>, newToken: string, nowMs: int)
    : (r: (Db, Result<ResetTicket, Error>))
    ensures r.1.Err? ==> r.0 == db
    ensures email.None? ==> r.1 == Err(UndefinedWhere("email"))
    ensures email.Some? && !EmailTaken(db.users, email.value) ==> r.1 == Err(Thrown(UserNotFound))
  {
    match email
    case None => (db, Err(UndefinedWhere("email")))
    case Some(e) =>
      match UserByEmail(db.users, e)
      case None => (db, Err(Thrown(UserNotFound)))
      case Some(u) =>
        var (d, res) := InsertReset(db, RowInput(Some(u.id), Some(newToken), Some(nowMs + OneHourMs)));
        match res
        case Err(x) => (d, Err(x))
        case Ok(row) => (d, Ok(ResetTicket(newToken, nowMs + OneHourMs)))
  }

  /** The change `user.update({ password: newPassword })` makes; an `undefined` value is dropped. */
  function PasswordChange(newPassword: Option<string>): UserChanges
  {
    UserChanges(None, newPassword, None, None, None)
  }

  /** `resetPassword(token, newPassword)`: an unknown or expired token fails alike and changes nothing; otherwise the owner's password is updated and then the row deleted. */
  ghost function ResetPasswordSpec(db: Db, token: Option<string>, newPassword: Option<string>, nowMs: int)
    : (r: (Db, Result<ResetRow, Error>))
    ensures r.1.Err? ==> r.0 == db
    ensures token.None? ==> r.1 == Err(UndefinedWhere("token"))
    ensures token.Some? && FirstWithToken(db.resets, token.value).None? ==> r.1 == Err(Thrown(BadResetToken))
    ensures (token.Some? && FirstWithToken(db.resets, token.value).Some?
             && IsExpired(FirstWithToken(db.resets, token.value).value, nowMs)) ==> r.1 == Err(Thrown(BadResetToken))
    ensures r.1.Ok? ==> var row := r.1.value;
              && token.Some? && FirstWithToken(db.resets, token.value) == Some(row)
              && !IsExpired(row, nowMs) && row.userId in db.users
              && r.0 == DeleteReset(db.(users := db.users[row.userId := Applied(db.users[row.userId], PasswordChange(newPassword))]), row.id)
  {
    match token
    case None => (db, Err(UndefinedWhere("token")))
    case Some(t) =>
      match FirstWithToken(db.resets, t)
      case None => (db, Err(Thrown(BadResetToken)))
      case Some(row) =>
        if IsExpired(row, nowMs) then (db, Err(Thrown(BadResetToken)))
        else if row.userId !in db.users then (db, Err(NullDereference("update")))
        else
          var d := UpdateUserRow(db, row.userId, PasswordChange(newPassword)).0;
          (DeleteReset(d, row.id), Ok(row))
  }

  /** A hex string of 32 random bytes, as `randomBytes(32).toString("hex")` writes it. */
  predicate HexToken(t: string)
  {
    |t| == 64 && forall i :: 0 <= i < |t| ==> ('0' <= t[i] <= '9' || 'a' <= t[i] <= 'f')
  }

  // ----- the operations on the store -----

  method Register(db: Database, input: UserInput, env: Option<string>, nowMs: int) returns (r: Result<Issued, Error>)
    requires Valid(db.Snapshot())
    modifies db
    ensures (db.Snapshot(), r) == RegisterSpec(old(db.Snapshot()), input, env, nowMs)
    ensures Valid(db.Snapshot())
  {
    UserStepsPreserveValid(db.Snapshot(), input, 0, PasswordChange(None));
    var created := db.CreateUser(input);
    if created.Err? {
      return Err(created.error);
    }
    r := Ok(SessionFor(created.value, env, nowMs));
  }

  method Login(db: Database, email: string, password: string, env: Option<string>, nowMs: int) returns (r: Result<Issued, Error>)
    requires Valid(db.Snapshot())
    ensures r == LoginSpec(db.Snapshot(), email, password, env, nowMs)
  {
    var user := db.FindUserByEmail(email);
    if user.None? {
      return Err(Thrown(BadCredentials));
    }
    var isMatch := Bcrypt.Compare(password, user.value.passwordHash);
    if !isMatch {
      return Err(Thrown(BadCredentials));
    }
    r := Ok(SessionFor(user.value, env, nowMs));
  }

  method CreatePasswordReset(db: Database, email: Option<string>, newToken: string, nowMs: int)
    returns (r: Result<ResetTicket, Error>)
    requires Valid(db.Snapshot()) && HexToken(newToken) && FreshToken(db.resets, newToken)
    modifies db
    ensures (db.Snapshot(), r) == CreatePasswordResetSpec(old(db.Snapshot()), email, newToken, nowMs)
    ensures Valid(db.Snapshot())
    ensures TokensDistinct(old(db.resets)) ==> TokensDistinct(db.resets)
  {
    if email.None? {
      return Err(UndefinedWhere("email"));
    }
    var user := db.FindUserByEmail(email.value);
    if user.None? {
      return Err(Thrown(UserNotFound));
    }
    var expiresAt := nowMs + OneHourMs;
    ghost var before := db.Snapshot();
    ResetStepsPreserveValid(before, RowInput(Some(user.value.id), Some(newToken), Some(expiresAt)), 0);
    var created := db.CreateReset(RowInput(Some(user.value.id), Some(newToken), Some(expiresAt)));
    if created.Err? {
      return Err(created.error);
    }
    if TokensDistinct(before.resets) {
      AppendFreshToken(before.resets, created.value);
    }
    r := Ok(ResetTicket(newToken, expiresAt));
  }

  method ResetPassword(db: Database, token: Option<string>, newPassword: Option<string>, nowMs: int)
    returns (r: Result<ResetRow, Error>)
    requires Valid(db.Snapshot())
    modifies db
    ensures (db.Snapshot(), r) == ResetPasswordSpec(old(db.Snapshot()), token, newPassword, nowMs)
    ensures Valid(db.Snapshot())
  {
    if token.None? {
      return Err(UndefinedWhere("token"));
    }
    var passwordReset := db.FindResetByToken(token.value);
    if passwordReset.None? || IsExpired(passwordReset.value, nowMs) {
      return Err(Thrown(BadResetToken));
    }
    var row := passwordReset.value;
    if row.userId !in db.users {
      return Err(NullDereference("update"));
    }
    ghost var before := db.Snapshot();
    UserStepsPreserveValid(before, UserInput(None, None, None, None, None), row.userId, PasswordChange(newPassword));
    var _ := db.UpdateUser(row.userId, PasswordChange(newPassword));
    ResetStepsPreserveValid(db.Snapshot(), RowInput(None, None, None), row.id);
    db.DestroyReset(row.id);
    r := Ok(row);
  }

  // ----- properties of the flows -----

  /** With unique emails, login is decided by the one user holding the email: that user's session if the password matches, the common error if not. */
  lemma LoginDecidedByOwner(db: Db, email: string, password: string, env: Option<string>, nowMs: int, k: int)
    requires EmailsUnique(db.users) && k in db.users && db.users[k].email == email
    ensures LoginSpec(db, email, password, env, nowMs) ==
              if Bcrypt.Compare(password, db.users[k].passwordHash) then Ok(SessionFor(db.users[k], env, nowMs))
              else Err(Thrown(BadCredentials))
  {
    UserByEmailIsUnique(db.users, email, k);
  }

  /** After a successful registration the same email and password log in as the new user, and every other password fails. */
  lemma RegisterThenLogin(db: Db, input: UserInput, env: Option<string>, registeredAt: int, nowMs: int, other: string)
    requires Valid(db) && RegisterSpec(db, input, env, registeredAt).1.Ok?
    requires other != input.password.value
    ensures var d := RegisterSpec(db, input, env, registeredAt).0;
            var u := InsertUser(db, input).1.value;
            && LoginSpec(d, input.email.value, input.password.value, env, nowMs) == Ok(SessionFor(u, env, nowMs))
            && LoginSpec(d, input.email.value, other, env, nowMs) == Err(Thrown(BadCredentials))
  {
    UserStepsPreserveValid(db, input, 0, PasswordChange(None));
    var d := RegisterSpec(db, input, env, registeredAt).0;
    var u := InsertUser(db, input).1.value;
    assert u.id in d.users && d.users[u.id] == u;
    LoginDecidedByOwner(d, input.email.value, input.password.value, env, nowMs, u.id);
    LoginDecidedByOwner(d, input.email.value, other, env, nowMs, u.id);
    Bcrypt.CompareOwnHash(input.password.value);
    Bcrypt.CompareOnlyOwnHash(input.password.value, other);
  }

  /** The registration token carries the new user's id, email and role (by default "user") and verifies for 24 hours. */
  lemma RegisterIssuesSessionToken(db: Db, input: UserInput, env: Option<string>, registeredAt: int, nowMs: int)
    requires RegisterSpec(db, input, env, registeredAt).1.Ok?
    requires Jwt.Seconds(nowMs) < Jwt.Seconds(registeredAt) + Jwt.DaySeconds
    ensures var r := RegisterSpec(db, input, env, registeredAt).1.value;
            var role := if input.role.Some? then input.role.value else "user";
            var iat := Jwt.Seconds(registeredAt);
            && VerifyToken(r.token, env, nowMs)
               == Ok(Jwt.Claims(Jwt.Session(db.nextUserId, input.email.value, role), iat, iat + Jwt.DaySeconds))
            && r.user == UserJson(db.nextUserId, input.email.value, None, input.firstName.value, input.lastName.value, role)
  {
    var u := InsertUser(db, input).1.value;
    GeneratedTokenVerifies(u, env, registeredAt, nowMs);
  }

  /** A reset request for a known email appends one row expiring an hour later and keeps every earlier row. */
  lemma RequestAppendsRow(db: Db, email: string, newToken: string, nowMs: int, k: int)
    requires Valid(db) && k in db.users && db.users[k].email == email
    ensures var (d, r) := CreatePasswordResetSpec(db, Some(email), newToken, nowMs);
            && r == Ok(ResetTicket(newToken, nowMs + OneHourMs))
            && d == db.(resets := db.resets + [ResetRow(db.nextResetId, k, newToken, nowMs + OneHourMs)],
                        nextResetId := db.nextResetId + 1)
  {
    UserByEmailIsUnique(db.users, email, k);
  }

  /** Each request adds to the user's rows: nothing is deleted, so the count of the user's rows grows by one. */
  lemma ResetRequestsAccumulate(db: Db, email: string, newToken: string, nowMs: int, k: int)
    requires Valid(db) && k in db.users && db.users[k].email == email
    ensures RowsOf(CreatePasswordResetSpec(db, Some(email), newToken, nowMs).0.resets, k) == RowsOf(db.resets, k) + 1
  {
    RequestAppendsRow(db, email, newToken, nowMs, k);
    var rows := db.resets + [ResetRow(db.nextResetId, k, newToken, nowMs + OneHourMs)];
    assert rows[..|rows| - 1] == db.resets;
  }

  /** A reset request keeps the store valid, and a fresh token keeps tokens distinct. */
  lemma RequestPreservesValid(db: Db, email: Option<string>, newToken: string, nowMs: int)
    requires Valid(db)
    ensures Valid(CreatePasswordResetSpec(db, email, newToken, nowMs).0)
    ensures TokensDistinct(db.resets) && FreshToken(db.resets, newToken)
            ==> TokensDistinct(CreatePasswordResetSpec(db, email, newToken, nowMs).0.resets)
  {
    if email.Some? && EmailTaken(db.users, email.value) {
      var u := UserByEmail(db.users, email.value).value;
      var rin := RowInput(Some(u.id), Some(newToken), Some(nowMs + OneHourMs));
      ResetStepsPreserveValid(db, rin, 0);
      if InsertReset(db, rin).1.Ok? && TokensDistinct(db.resets) && FreshToken(db.resets, newToken) {
        AppendFreshToken(db.resets, InsertReset(db, rin).1.value);
      }
    }
  }

  /** A redemption keeps the store valid and tokens distinct. */
  lemma RedeemPreservesValid(db: Db, token: Option<string>, newPassword: Option<string>, nowMs: int)
    requires Valid(db)
    ensures Valid(ResetPasswordSpec(db, token, newPassword, nowMs).0)
    ensures TokensDistinct(db.resets) ==> TokensDistinct(ResetPasswordSpec(db, token, newPassword, nowMs).0.resets)
  {
    var r := ResetPasswordSpec(db, token, newPassword, nowMs);
    if r.1.Ok? {
      var row := r.1.value;
      UserStepsPreserveValid(db, UserInput(None, None, None, None, None), row.userId, PasswordChange(newPassword));
      var d := UpdateUserRow(db, row.userId, PasswordChange(newPassword)).0;
      ResetStepsPreserveValid(d, RowInput(None, None, None), row.id);
      FilterKeepsDistinct(db.resets, (x: ResetRow) => x.id != row.id);
    }
  }

  /** A stored, unexpired row whose token no other row carries is redeemed by its token. */
  lemma OnlyHolderRedeems(db: Db, row: ResetRow, newPassword: Option<string>, nowMs: int)
    requires row in db.resets && row.userId in db.users && !IsExpired(row, nowMs)
    requires forall x :: x in db.resets && x.token == row.token ==> x == row
    ensures ResetPasswordSpec(db, Some(row.token), newPassword, nowMs).1 == Ok(row)
  {
    assert FirstWithToken(db.resets, row.token) == Some(row);
  }

  /** A second request does not invalidate the first: its token still redeems within its hour. */
  lemma SupersededTokenStillRedeems(db: Db, email: string, k: int, first: string, second: string,
                                    firstAt: int, secondAt: int, redeemAt: int, newPassword: Option<string>)
    requires Valid(db) && k in db.users && db.users[k].email == email
    requires FreshToken(db.resets, first) && second != first
    requires redeemAt <= firstAt + OneHourMs
    ensures var d1 := CreatePasswordResetSpec(db, Some(email), first, firstAt).0;
            var d2 := CreatePasswordResetSpec(d1, Some(email), second, secondAt).0;
            ResetPasswordSpec(d2, Some(first), newPassword, redeemAt).1.Ok?
  {
    RequestAppendsRow(db, email, first, firstAt, k);
    RequestPreservesValid(db, Some(email), first, firstAt);
    var d1 := CreatePasswordResetSpec(db, Some(email), first, firstAt).0;
    RequestAppendsRow(d1, email, second, secondAt, k);
    var d2 := CreatePasswordResetSpec(d1, Some(email), second, secondAt).0;
    var row := ResetRow(db.nextResetId, k, first, firstAt + OneHourMs);
    var later := ResetRow(d1.nextResetId, k, second, secondAt + OneHourMs);
    assert d2.resets == db.resets + [row] + [later];
    assert d2.users == db.users;
    assert row in d2.resets;
    forall x | x in d2.resets && x.token == first ensures x == row {
      assert x in db.resets || x == row || x == later;
    }
    OnlyHolderRedeems(d2, row, newPassword, redeemAt);
  }

  /** An expired token fails with the same error as an unknown one, and its row is not deleted. */
  lemma ExpiredTokenFailsAndStays(db: Db, row: ResetRow, newPassword: Option<string>, nowMs: int)
    requires TokensDistinct(db.resets) && row in db.resets && IsExpired(row, nowMs)
    ensures ResetPasswordSpec(db, Some(row.token), newPassword, nowMs) == (db, Err(Thrown(BadResetToken)))
    ensures row in ResetPasswordSpec(db, Some(row.token), newPassword, nowMs).0.resets
  {
    var found := FirstWithToken(db.resets, row.token).value;
    SameTokenSameRow(db.resets, found, row);
  }

  /** With distinct tokens a redeemed token is gone: a second redemption fails and changes nothing. */
  lemma RedemptionIsSingleUse(db: Db, token: string, first: Option<string>, second: Option<string>, firstAt: int, secondAt: int)
    requires TokensDistinct(db.resets)
    requires ResetPasswordSpec(db, Some(token), first, firstAt).1.Ok?
    ensures var d := ResetPasswordSpec(db, Some(token), first, firstAt).0;
            ResetPasswordSpec(d, Some(token), second, secondAt) == (d, Err(Thrown(BadResetToken)))
  {
    var (d, r) := ResetPasswordSpec(db, Some(token), first, firstAt);
    var row := r.value;
    forall x | x in d.resets ensures x.token != token {
      if x.token == token {
        SameTokenSameRow(db.resets, x, row);
      }
    }
  }

  /** After a reset, the new password logs the owner in and any other password, the old one included, fails. */
  lemma ResetReplacesLoginPassword(db: Db, token: string, newPassword: string, other: string, env: Option<string>,
                                   resetAt: int, nowMs: int)
    requires Valid(db) && ResetPasswordSpec(db, Some(token), Some(newPassword), resetAt).1.Ok?
    requires other != newPassword
    ensures var (d, r) := ResetPasswordSpec(db, Some(token), Some(newPassword), resetAt);
            var email := db.users[r.value.userId].email;
            && LoginSpec(d, email, newPassword, env, nowMs) == Ok(SessionFor(d.users[r.value.userId], env, nowMs))
            && LoginSpec(d, email, other, env, nowMs) == Err(Thrown(BadCredentials))
  {
    RedeemPreservesValid(db, Some(token), Some(newPassword), resetAt);
    var (d, r) := ResetPasswordSpec(db, Some(token), Some(newPassword), resetAt);
    var k := r.value.userId;
    assert d.users[k] == Applied(db.users[k], PasswordChange(Some(newPassword)));
    LoginDecidedByOwner(d, db.users[k].email, newPassword, env, nowMs, k);
    LoginDecidedByOwner(d, db.users[k].email, other, env, nowMs, k);
    Bcrypt.CompareOnlyOwnHash(newPassword, other);
  }

  /** Without `newPassword` the update changes nothing, yet the token is consumed. */
  lemma ResetWithoutPasswordOnlyConsumes(db: Db, token: string, nowMs: int)
    requires ResetPasswordSpec(db, Some(token), None, nowMs).1.Ok?
    ensures var (d, r) := ResetPasswordSpec(db, Some(token), None, nowMs);
            d.users == db.users && r.value in db.resets && r.value !in d.resets
  {
    var (d, r) := ResetPasswordSpec(db, Some(token), None, nowMs);
    var k := r.value.userId;
    assert Applied(db.users[k], PasswordChange(None)) == db.users[k];
  }
}
