/**
 * src/controllers/userController.js: the role and access checks around one
 * service call, and the mapping of its outcome to a status. The route
 * functions add the middleware of src/routes/userRoutes.js: authentication
 * on every route, and the registration schema before an update.
 */
module UserController {
  import opened Results
  import opened Errors
  import opened Store
  import opened Helpers
  import opened Http
  import opened Validation
  import opened AuthMiddleware
  import opened UserService
  import Jwt
  import Decimal

  const ListFailed := "Kullanıcılar getirilirken hata oluştu"
  const GetFailed := "Kullanıcı getirilirken hata oluştu"
  const UserUpdated := "Kullanıcı başarıyla güncellendi"
  const EmailAlreadyRegistered := "Bu email adresi zaten kayıtlı"
  const UpdateFailed := "Kullanıcı güncellenirken hata oluştu"
  const UserDeleted := "Kullanıcı başarıyla silindi"
  const DeleteFailed := "Kullanıcı silinirken hata oluştu"

  /** `getAllUsers`: admins only, checked before the store is read. */
  function GetAllUsersHandler(db: Db, caller: Jwt.Payload): (resp: Response)
    ensures caller.role != "admin" ==> resp == Response(403, Message(Forbidden))
    ensures caller.role == "admin" ==> resp.status == 200 && resp.body.UserList?
                                       && forall j :: j in resp.body.users ==> j.password.None?
  {
    if caller.role != "admin" then Response(403, Message(Forbidden))
    else Response(200, UserList(GetAllUsers(db)))
  }

  /** `getUser`: the lookup runs first, so a missing id is 404 for every caller; then the access check. */
  function GetUserHandler(db: Db, caller: Jwt.Payload, param: string): (resp: Response)
    ensures PrimaryKey(param) !in db.users ==> resp == Response(404, Message(UserNotFound))
    ensures PrimaryKey(param) in db.users && !CanAccessUser(caller, param) ==> resp == Response(403, Message(Forbidden))
    ensures resp.status == 200 <==> PrimaryKey(param) in db.users && CanAccessUser(caller, param)
    ensures resp.status == 200 ==> resp.body == OneUser(Projection(db.users[PrimaryKey(param)]))
  {
    match GetUserById(db, param)
    case Err(e) =>
      if e.message == UserNotFound then Response(404, Message(e.message)) else Response(500, Message(GetFailed))
    case Ok(u) =>
      if !CanAccessUser(caller, param) then Response(403, Message(Forbidden)) else Response(200, OneUser(u))
  }

  /** The reply to an update: 404 for a missing user, 400 for a taken email, 500 for anything else. */
  function UpdateReply(r: Result<UserJson, Error>): (resp: Response)
    ensures r.Ok? <==> resp.status == 200
    ensures r.Ok? ==> resp.body == Updated(UserUpdated, r.value)
    ensures r.Err? && r.error.message == UserNotFound ==> resp == Response(404, Message(UserNotFound))
    ensures r.Err? && r.error.message != UserNotFound && r.error.name == UniqueConstraint.name
            ==> resp == Response(400, Message(EmailAlreadyRegistered))
    ensures r.Err? && r.error.message != UserNotFound && r.error.name != UniqueConstraint.name
            ==> resp == Response(500, Message(UpdateFailed))
  {
    match r
    case Ok(u) => Response(200, Updated(UserUpdated, u))
    case Err(e) =>
      if e.message == UserNotFound then Response(404, Message(e.message))
      else if e.name == "SequelizeUniqueConstraintError" then Response(400, Message(EmailAlreadyRegistered))
      else Response(500, Message(UpdateFailed))
  }

  /** `updateUser`: the access check comes before any change. */
  ghost function UpdateUserHandler(db: Db, caller: Jwt.Payload, param: string, ch: UserChanges): (r: (Db, Response))
    ensures !CanAccessUser(caller, param) ==> r == (db, Response(403, Message(Forbidden)))
    ensures r.1.status != 200 ==> r.0 == db
    ensures r.1.status == 200 ==> CanAccessUser(caller, param) && PrimaryKey(param) in db.users
                                  && r.0.users.Keys == db.users.Keys && r.0.resets == db.resets
  {
    if !CanAccessUser(caller, param) then (db, Response(403, Message(Forbidden)))
    else
      var (d, r) := UpdateUserSpec(db, param, ch);
      (d, UpdateReply(r))
  }

  /** `deleteUser`: admins only, then 404 for a missing user. */
  ghost function DeleteUserHandler(db: Db, caller: Jwt.Payload, param: string): (r: (Db, Response))
    ensures caller.role != "admin" ==> r == (db, Response(403, Message(Forbidden)))
    ensures caller.role == "admin" && PrimaryKey(param) !in db.users ==> r == (db, Response(404, Message(UserNotFound)))
    ensures r.1.status == 200 <==> caller.role == "admin" && PrimaryKey(param) in db.users
    ensures r.1.status == 200 ==> r.0 == DeleteUser(db, PrimaryKey(param))
    ensures r.1.status != 200 ==> r.0 == db
  {
    if caller.role != "admin" then (db, Response(403, Message(Forbidden)))
    else
      var (d, e) := DeleteUserSpec(db, param);
      if e.None? then (d, Response(200, Message(UserDeleted)))
      else if e.value.message == UserNotFound then (d, Response(404, Message(e.value.message)))
      else (d, Response(500, Message(DeleteFailed)))
  }

  /** The body of a PUT as `user.update` receives it. */
  function ChangesOf(b: UserBody): UserChanges
  {
    UserChanges(b.email, b.password, b.firstName, b.lastName, b.role)
  }

  /** GET /users. */
  function ListRoute(db: Db, header: Option<string>, env: Option<string>, nowMs: int): (resp: Response)
    ensures resp.status == 200 ==> Authenticate(header, env, nowMs).Next?
                                   && Authenticate(header, env, nowMs).value.payload.role == "admin"
  {
    match Authenticate(header, env, nowMs)
    case Stop(resp) => resp
    case Next(c) => GetAllUsersHandler(db, c.payload)
  }

  /** GET /users/:id. */
  function GetRoute(db: Db, header: Option<string>, env: Option<string>, nowMs: int, param: string): (resp: Response)
    ensures resp.status == 200 ==> Authenticate(header, env, nowMs).Next?
                                   && CanAccessUser(Authenticate(header, env, nowMs).value.payload, param)
  {
    match Authenticate(header, env, nowMs)
    case Stop(resp) => resp
    case Next(c) => GetUserHandler(db, c.payload, param)
  }

  /** PUT /users/:id: authentication, then the registration schema, then `updateUser`. */
  ghost function PutRoute(db: Db, header: Option<string>, env: Option<string>, nowMs: int, param: string,
                          b: UserBody, emailOk: string -> bool): (r: (Db, Response))
    ensures r.1.status != 200 ==> r.0 == db
    ensures r.1.status == 200 ==> Authenticate(header, env, nowMs).Next? && AcceptableUser(b, emailOk)
                                  && CanAccessUser(Authenticate(header, env, nowMs).value.payload, param)
  {
    match Authenticate(header, env, nowMs)
    case Stop(resp) => (db, resp)
    case Next(c) =>
      match ValidateUserGate(b, emailOk)
      case Stop(resp) => (db, resp)
      case Next(body) => UpdateUserHandler(db, c.payload, param, ChangesOf(body))
  }

  /** DELETE /users/:id. */
  ghost function DeleteRoute(db: Db, header: Option<string>, env: Option<string>, nowMs: int, param: string): (r: (Db, Response))
    ensures r.1.status != 200 ==> r.0 == db
    ensures r.1.status == 200 ==> Authenticate(header, env, nowMs).Next?
                                  && Authenticate(header, env, nowMs).value.payload.role == "admin"
                                  && r.0 == DeleteUser(db, PrimaryKey(param))
  {
    match Authenticate(header, env, nowMs)
    case Stop(resp) => (db, resp)
    case Next(c) => DeleteUserHandler(db, c.payload, param)
  }

  // ----- properties -----

  /** A caller who may not access the target gets 403 from an update and the store is untouched. */
  lemma ForbiddenUpdateChangesNothing(db: Db, caller: Jwt.Payload, param: string, ch: UserChanges)
    requires !CanAccessUser(caller, param)
    ensures UpdateUserHandler(db, caller, param, ch) == (db, Response(403, Message(Forbidden)))
  {
  }

  /** What a non-admin gets from the list does not depend on the store: nothing about it leaks. */
  lemma ListRevealsNothingToNonAdmins(db1: Db, db2: Db, header: Option<string>, env: Option<string>, nowMs: int)
    requires Authenticate(header, env, nowMs).Next? ==> Authenticate(header, env, nowMs).value.payload.role != "admin"
    ensures ListRoute(db1, header, env, nowMs) == ListRoute(db2, header, env, nowMs)
  {
  }

  /** The update response and the mapping: a missing user is 404, a taken email 400, and only the target changes. */
  lemma UpdateOutcomes(db: Db, caller: Jwt.Payload, param: string, ch: UserChanges)
    requires CanAccessUser(caller, param)
    ensures var (d, resp) := UpdateUserHandler(db, caller, param, ch);
            && (PrimaryKey(param) !in db.users ==> d == db && resp == Response(404, Message(UserNotFound)))
            && (PrimaryKey(param) in db.users && ch.email.Some? && EmailTakenByOther(db.users, ch.email.value, PrimaryKey(param))
                ==> d == db && resp == Response(400, Message(EmailAlreadyRegistered)))
            && (resp.status == 200 ==> d.users == db.users[PrimaryKey(param) := Applied(db.users[PrimaryKey(param)], ch)]
                                       && resp.body.user.password.None?)
  {
  }

  /** Deletion: 403 for a non-admin with nothing removed, 404 for a missing id, otherwise exactly the target goes. */
  lemma DeleteOutcomes(db: Db, caller: Jwt.Payload, param: string)
    requires Valid(db)
    ensures var (d, resp) := DeleteUserHandler(db, caller, param);
            && (caller.role != "admin" ==> d == db && resp.status == 403)
            && (caller.role == "admin" && PrimaryKey(param) !in db.users ==> d == db && resp.status == 404)
            && (resp.status == 200 <==> caller.role == "admin" && PrimaryKey(param) in db.users)
            && (resp.status == 200 ==> d.users.Keys == db.users.Keys - {PrimaryKey(param)} && Valid(d))
  {
    if caller.role == "admin" && PrimaryKey(param) in db.users {
      DeleteRemovesExactlyTarget(db, param);
    }
  }

  /** A non-admin who reads a record successfully reads its own: the access check and the lookup agree on every path id. */
  lemma NonAdminReadsOnlyOwnRecord(db: Db, id: int, email: string, role: string, param: string)
    requires Valid(db) && role != "admin"
    requires GetUserHandler(db, Jwt.Session(id, email, role), param).status == 200
    ensures PrimaryKey(param) == id
  {
    LookupAgreesWithAccessCheck(param);
  }

  /** A non-admin may set its own role: the update schema allows `role: "admin"` and nothing else stops it. */
  lemma SelfPromotion(db: Db, id: int, email: string, b: UserBody, emailOk: string -> bool)
    requires id in db.users && id >= 0 && AcceptableUser(b, emailOk) && b.role == Some("admin")
    requires !EmailTakenByOther(db.users, b.email.value, id)
    ensures var (d, resp) := UpdateUserHandler(db, Jwt.Session(id, email, "user"), Decimal.Numeral(id), ChangesOf(b));
            resp.status == 200 && d.users[id].role == "admin"
  {
    OwnRecordOnly(id, email, "user", Decimal.Numeral(id));
    PrimaryKeyOfNumeral(id);
  }
}
