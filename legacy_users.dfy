/**
 * src/users.js: an older user router that is not mounted by the application.
 * It reads the `{ userId, role }` claims that src/auth.js signs, lists and
 * returns users with their stored password hash, merges an update field by
 * field, and hashes a new password itself before the update.
 * `authorizeRole` and `validatePassword` are imported from a module that does
 * not export them; the model takes them as the parameters `allows` and
 * `validPassword`. What a refusing `authorizeRole` answers is not known, so
 * the routes report it as `Refused`.
 */
module LegacyUsers {
  import opened Results
  import opened Errors
  import opened Store
  import Bcrypt
  import Jwt
  import opened Helpers
  import opened Http
  import opened AuthMiddleware
  import opened UserService
  import LegacyAuth
  import Decimal

  const NotFound := "Kullanıcı bulunamadı."
  const AccessDenied := "Erişim reddedildi: Yalnızca admin veya kullanıcı kendisini güncelleyebilir."
  const PasswordPolicy := "Şifre en az 8 karakter, bir büyük harf, bir rakam ve bir özel karakter (!@#$%^&*) içermelidir"
  const UpdateDone := "Kullanıcı başarıyla güncellendi."
  const UpdateFailed := "Güncelleme sırasında hata oluştu."
  const DeleteDone := "Kullanıcı başarıyla silindi."

  /** What a route does: answers, or is stopped by `authorizeRole`. */
  datatype Outcome = Answered(response: Response) | Refused

  /** `req.user.userId === id`: only the claims src/auth.js signs carry `userId`. */
  predicate Owns(claims: Jwt.Payload, id: int)
  {
    claims.Legacy? && claims.userId == id
  }

  /** GET /: every user as stored, password hash included. */
  function Listing(db: Db): (r: set<UserJson>)
    ensures forall k :: k in db.users ==> Json(db.users[k]) in r
    ensures forall j :: j in r ==> exists k :: k in db.users && j == Json(db.users[k]) && j.password == Some(db.users[k].passwordHash)
  {
    set k | k in db.users :: Json(db.users[k])
  }

  /** GET /:id after authentication: the access check on `parseInt(id)` comes before the lookup. */
  function ReadHandler(db: Db, claims: Jwt.Payload, param: string): (resp: Response)
    ensures claims.role != "admin" && !(claims.Legacy? && ParseInt(param) == Some(claims.userId))
            ==> resp == Response(403, ErrorText(Forbidden))
    ensures resp.status == 200 <==> (claims.role == "admin" || (claims.Legacy? && ParseInt(param) == Some(claims.userId)))
                                    && PrimaryKey(param) in db.users
    ensures resp.status == 200 ==> resp.body == OneUser(Json(db.users[PrimaryKey(param)]))
                                   && resp.body.user.password == Some(db.users[PrimaryKey(param)].passwordHash)
  {
    if claims.role != "admin" && !(claims.Legacy? && ParseInt(param) == Some(claims.userId)) then
      Response(403, ErrorText(Forbidden))
    else match UserById(db.users, PrimaryKey(param))
      case None => Response(404, ErrorText(UserNotFound))
      case Some(u) => Response(200, OneUser(Json(u)))
  }

  /** The changes PUT sends: a truthy field replaces the stored one, and a truthy password arrives already hashed. */
  function Merged(u: User, b: UserBody): (ch: UserChanges)
    ensures ch.role.None?
    ensures ch.password.Some? <==> LegacyAuth.Truthy(b.password)
  {
    UserChanges(
      Some(if LegacyAuth.Truthy(b.email) then b.email.value else u.email),
      if LegacyAuth.Truthy(b.password) then Some(Bcrypt.Hash(b.password.value)) else None,
      Some(if LegacyAuth.Truthy(b.firstName) then b.firstName.value else u.firstName),
      Some(if LegacyAuth.Truthy(b.lastName) then b.lastName.value else u.lastName),
      None)
  }

  /** PUT /:id after authentication and the role gate. */
  ghost function UpdateSpec(db: Db, claims: Jwt.Payload, param: string, b: UserBody, validPassword: Option<string> -> bool)
    : (r: (Db, Response))
    ensures r.1.status != 200 ==> r.0 == db
    ensures PrimaryKey(param) !in db.users ==> r == (db, Response(404, Message(NotFound)))
    ensures PrimaryKey(param) in db.users && claims.role != "admin" && !Owns(claims, db.users[PrimaryKey(param)].id)
            ==> r == (db, Response(403, Message(AccessDenied)))
    ensures (PrimaryKey(param) in db.users && (claims.role == "admin" || Owns(claims, db.users[PrimaryKey(param)].id))
             && LegacyAuth.Truthy(b.password) && !validPassword(b.password))
            ==> r == (db, Response(400, Message(PasswordPolicy)))
    ensures r.1.status == 200 ==>
              && PrimaryKey(param) in db.users && (claims.role == "admin" || Owns(claims, db.users[PrimaryKey(param)].id))
              && var v := Applied(db.users[PrimaryKey(param)], Merged(db.users[PrimaryKey(param)], b));
                 && r.0 == db.(users := db.users[PrimaryKey(param) := v])
                 && r.1 == Response(200, Updated(UpdateDone, SanitizeUser(Json(v))))
    ensures r.1.status == 200 ==> r.1.body.Updated? && r.1.body.user.password.None?
  {
    var key := PrimaryKey(param);
    if key !in db.users then (db, Response(404, Message(NotFound)))
    else
      var u := db.users[key];
      if claims.role != "admin" && !Owns(claims, u.id) then (db, Response(403, Message(AccessDenied)))
      else if LegacyAuth.Truthy(b.password) && !validPassword(b.password) then (db, Response(400, Message(PasswordPolicy)))
      else
        var (d, r) := UpdateUserRow(db, key, Merged(u, b));
        match r
        case Err(_) => (d, Response(500, Message(UpdateFailed)))
        case Ok(v) => (d, Response(200, Updated(UpdateDone, SanitizeUser(Json(v)))))
  }

  /** DELETE /:id after authentication and the role gate. */
  ghost function DeleteSpec(db: Db, param: string): (r: (Db, Response))
    ensures PrimaryKey(param) !in db.users <==> r == (db, Response(404, Message(NotFound)))
    ensures PrimaryKey(param) in db.users ==> r == (DeleteUser(db, PrimaryKey(param)), Response(200, Message(DeleteDone)))
  {
    var key := PrimaryKey(param);
    if key !in db.users then (db, Response(404, Message(NotFound)))
    else (DeleteUser(db, key), Response(200, Message(DeleteDone)))
  }

  // ----- the routes: authenticateToken, then authorizeRole where the router puts it -----

  function ListRoute(db: Db, header: Option<string>, env: Option<string>, nowMs: int,
                     allows: (seq<string>, Jwt.Payload) -> bool): (o: Outcome)
    ensures o.Answered? && o.response.status == 200 ==>
              Authenticate(header, env, nowMs).Next? && allows(["admin"], Authenticate(header, env, nowMs).value.payload)
              && o.response.body == UserList(Listing(db))
  {
    match Authenticate(header, env, nowMs)
    case Stop(resp) => Answered(resp)
    case Next(claims) =>
      if !allows(["admin"], claims.payload) then Refused else Answered(Response(200, UserList(Listing(db))))
  }

  function GetRoute(db: Db, header: Option<string>, env: Option<string>, nowMs: int, param: string): (resp: Response)
    ensures resp.status == 200 ==> Authenticate(header, env, nowMs).Next?
                                   && resp == ReadHandler(db, Authenticate(header, env, nowMs).value.payload, param)
  {
    match Authenticate(header, env, nowMs)
    case Stop(resp) => resp
    case Next(claims) => ReadHandler(db, claims.payload, param)
  }

  ghost function PutRoute(db: Db, header: Option<string>, env: Option<string>, nowMs: int,
                          allows: (seq<string>, Jwt.Payload) -> bool, param: string, b: UserBody,
                          validPassword: Option<string> -> bool): (r: (Db, Outcome))
    ensures r.0 != db ==> Authenticate(header, env, nowMs).Next?
                          && allows(["admin", "user"], Authenticate(header, env, nowMs).value.payload)
                          && r.1.Answered? && r.1.response.status == 200
  {
    match Authenticate(header, env, nowMs)
    case Stop(resp) => (db, Answered(resp))
    case Next(claims) =>
      if !allows(["admin", "user"], claims.payload) then (db, Refused)
      else
        var (d, resp) := UpdateSpec(db, claims.payload, param, b, validPassword);
        (d, Answered(resp))
  }

  ghost function DeleteRoute(db: Db, header: Option<string>, env: Option<string>, nowMs: int,
                             allows: (seq<string>, Jwt.Payload) -> bool, param: string): (r: (Db, Outcome))
    ensures r.0 != db ==> Authenticate(header, env, nowMs).Next?
                          && allows(["admin"], Authenticate(header, env, nowMs).value.payload)
                          && PrimaryKey(param) in db.users
  {
    match Authenticate(header, env, nowMs)
    case Stop(resp) => (db, Answered(resp))
    case Next(claims) =>
      if !allows(["admin"], claims.payload) then (db, Refused)
      else
        var (d, resp) := DeleteSpec(db, param);
        (d, Answered(resp))
  }

  // ----- the handlers on the store -----

  method UpdateHandler(db: Database, claims: Jwt.Payload, param: string, b: UserBody, validPassword: Option<string> -> bool)
    returns (resp: Response)
    requires Valid(db.Snapshot())
    modifies db
    ensures (db.Snapshot(), resp) == UpdateSpec(old(db.Snapshot()), claims, param, b, validPassword)
    ensures Valid(db.Snapshot())
  {
    var key := PrimaryKey(param);
    if key !in db.users {
      return Response(404, Message(NotFound));
    }
    var user := db.users[key];
    if claims.role != "admin" && !Owns(claims, user.id) {
      return Response(403, Message(AccessDenied));
    }
    if LegacyAuth.Truthy(b.password) && !validPassword(b.password) {
      return Response(400, Message(PasswordPolicy));
    }
    var ch := Merged(user, b);
    UserStepsPreserveValid(db.Snapshot(), UserInput(None, None, None, None, None), key, ch);
    var updated := db.UpdateUser(key, ch);
    if updated.Err? {
      return Response(500, Message(UpdateFailed));
    }
    resp := Response(200, Updated(UpdateDone, SanitizeUser(Json(updated.value))));
  }

  method DeleteHandler(db: Database, param: string) returns (resp: Response)
    requires Valid(db.Snapshot())
    modifies db
    ensures (db.Snapshot(), resp) == DeleteSpec(old(db.Snapshot()), param)
    ensures Valid(db.Snapshot())
  {
    var key := PrimaryKey(param);
    if key !in db.users {
      return Response(404, Message(NotFound));
    }
    DeleteUserPreservesValid(db.Snapshot(), key);
    db.DestroyUser(key);
    resp := Response(200, Message(DeleteDone));
  }

  // ----- properties of the router -----

  /** PUT keeps a field unless the body gives a truthy value for it, never touches the role, and stores a given password hashed twice: once by the route, once by the save hook. */
  lemma MergeRules(u: User, b: UserBody)
    ensures var v := Applied(u, Merged(u, b));
            && v.id == u.id && v.role == u.role
            && v.email == (if LegacyAuth.Truthy(b.email) then b.email.value else u.email)
            && v.firstName == (if LegacyAuth.Truthy(b.firstName) then b.firstName.value else u.firstName)
            && v.lastName == (if LegacyAuth.Truthy(b.lastName) then b.lastName.value else u.lastName)
            && v.passwordHash == (if LegacyAuth.Truthy(b.password) then Bcrypt.Hash(Bcrypt.Hash(b.password.value)) else u.passwordHash)
  {
  }

  /** The claims the mounted services sign carry no `userId`: a non-admin holding one reads nothing and updates nothing here. */
  lemma SessionClaimsOwnNothing(db: Db, id: int, email: string, role: string, param: string, b: UserBody,
                                validPassword: Option<string> -> bool)
    requires role != "admin"
    ensures ReadHandler(db, Jwt.Session(id, email, role), param) == Response(403, ErrorText(Forbidden))
    ensures UpdateSpec(db, Jwt.Session(id, email, role), param, b, validPassword).0 == db
    ensures PrimaryKey(param) in db.users ==>
              UpdateSpec(db, Jwt.Session(id, email, role), param, b, validPassword) == (db, Response(403, Message(AccessDenied)))
  {
  }

  /** A non-admin's read that succeeds returns its own record, however the path spells the id. */
  lemma LegacyReadsOnlyOwnRecord(db: Db, userId: int, role: string, param: string)
    requires Valid(db) && role != "admin"
    requires ReadHandler(db, Jwt.Legacy(userId, role), param).status == 200
    ensures PrimaryKey(param) == userId
  {
    LookupAgreesWithAccessCheck(param);
  }

  /** The owner reads its own record, password hash included, at the path spelled as its decimal id. */
  lemma OwnerReadsOwnRecord(db: Db, k: nat, role: string)
    requires k in db.users
    ensures ReadHandler(db, Jwt.Legacy(k, role), Decimal.Numeral(k)) == Response(200, OneUser(Json(db.users[k])))
  {
    ParseIntOfNumeral(k, "");
    assert Decimal.Numeral(k) + "" == Decimal.Numeral(k);
    PrimaryKeyOfNumeral(k);
  }

  /** An owner's password change: a password failing the policy changes nothing; one passing it is hashed twice, so the legacy login then accepts its hash and refuses the password itself. */
  lemma UpdatePasswordOutcomes(db: Db, k: nat, role: string, b: UserBody, validPassword: Option<string> -> bool,
                               env: Option<string>, nowMs: int)
    requires Valid(db) && k in db.users && db.users[k].email != ""
    requires LegacyAuth.Truthy(b.password) && !LegacyAuth.Truthy(b.email)
    ensures var param := Decimal.Numeral(k);
            !validPassword(b.password) ==>
              UpdateSpec(db, Jwt.Legacy(k, role), param, b, validPassword) == (db, Response(400, Message(PasswordPolicy)))
    ensures var (d, resp) := UpdateSpec(db, Jwt.Legacy(k, role), Decimal.Numeral(k), b, validPassword);
            var email := Some(db.users[k].email);
            validPassword(b.password) ==>
              && resp.status == 200
              && LegacyAuth.LoginSpec(d, email, b.password, env, nowMs).status == 401
              && LegacyAuth.LoginSpec(d, email, Some(Bcrypt.Hash(b.password.value)), env, nowMs).status == 200
  {
    PrimaryKeyOfNumeral(k);
    if validPassword(b.password) {
      var u := db.users[k];
      var p := b.password.value;
      var ch := Merged(u, b);
      assert !EmailTakenByOther(db.users, u.email, k);
      UserStepsPreserveValid(db, UserInput(None, None, None, None, None), k, ch);
      var d := UpdateUserRow(db, k, ch).0;
      MergeRules(u, b);
      assert d.users[k].passwordHash == Bcrypt.Hash(Bcrypt.Hash(p));
      LegacyAuth.LoginDecidedByOwner(d, u.email, p, env, nowMs, k);
      LegacyAuth.LoginDecidedByOwner(d, u.email, Bcrypt.Hash(p), env, nowMs, k);
      Bcrypt.CompareOnlyOwnHash(Bcrypt.Hash(p), p);
      Bcrypt.CompareOwnHash(Bcrypt.Hash(p));
    }
  }

  /** A successful update changes the target row only, keeps its role and leaves the reset rows alone. */
  lemma UpdateTouchesOnlyTarget(db: Db, claims: Jwt.Payload, param: string, b: UserBody, validPassword: Option<string> -> bool,
                                other: int)
    requires UpdateSpec(db, claims, param, b, validPassword).1.status == 200
    ensures var d := UpdateSpec(db, claims, param, b, validPassword).0;
            && d.resets == db.resets
            && d.users.Keys == db.users.Keys
            && d.users[PrimaryKey(param)].role == db.users[PrimaryKey(param)].role
            && (other in db.users && other != PrimaryKey(param) ==> d.users[other] == db.users[other])
  {
    var key := PrimaryKey(param);
    MergeRules(db.users[key], b);
  }

  /** A delete that reaches the handler removes the target and its reset rows and no other user. */
  lemma DeleteRemovesTarget(db: Db, param: string, other: int)
    requires Valid(db) && PrimaryKey(param) in db.users
    ensures var d := DeleteSpec(db, param).0;
            && PrimaryKey(param) !in d.users
            && PasswordReset.RowsOf(d.resets, PrimaryKey(param)) == 0
            && (other in db.users && other != PrimaryKey(param) ==> other in d.users && d.users[other] == db.users[other])
  {
    DeleteUserCascades(db, PrimaryKey(param));
  }
}
