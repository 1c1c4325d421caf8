# User API credentials and password reset, in Dafny

This project models the credential and password-reset core of a small
Express/Sequelize user API (`haydardo/proje`). Dafny proves the model's properties.
The core has two variants, and the model covers both.

- **The mounted API.** The route tables in `src/routes` attach the following:
  - the Joi schemas of `src/utils/validation.js`;
  - the middleware of `src/middleware/authMiddleware.js`;
  - the controllers in `src/controllers`;
  - the services `src/services/authService.js` and `src/services/userService.js`;
  - the helpers of `src/utils/helpers.js`.
  Sessions are JSON Web Tokens carrying `{ id, email, role }`. A reset request adds a row to `password_resets` and keeps earlier rows.
- **The older, unmounted routers** `src/auth.js` and `src/users.js`. Their tokens carry `{ userId, role }`. A reset request deletes the user's earlier rows first. An expired token's row is deleted when the token is presented. The user router returns stored password hashes, merges updates field by field, and hashes a new password itself.

## Layout

| file | module | models |
|---|---|---|
| results.dfy | `Results` | `Option`, `Result` |
| errors.dfy | `Errors` | the `{ name, message }` of the errors the handlers inspect |
| decimal.dfy | `Decimal` | decimal and hexadecimal digit strings |
| strings.dfy | `Strings` | searching a string for a character |
| bcrypt.dfy | `Bcrypt` | `bcrypt.hash` and `compare`: a stand-in in which a hash matches only its own password |
| jwt.dfy | `Jwt` | `jwt.sign` and `jwt.verify`: a stand-in in which a token decodes back to its claims, expires after 24 hours, and verifies only under its own key |
| password_reset.dfy | `PasswordReset` | `src/models/PasswordReset.js`: the row, `isExpired`, the not-null checks, the row queries |
| store.dfy | `Store` | the `users` and `password_resets` tables: validity invariants, and the Sequelize calls as functions and as methods of class `Database` |
| helpers.dfy | `Helpers` | `src/utils/helpers.js` |
| http.dfy | `Http` | request bodies and responses |
| validation.dfy | `Validation` | `src/utils/validation.js`: both Joi schemas with `abortEarly: false` |
| auth_middleware.dfy | `AuthMiddleware` | `src/middleware/authMiddleware.js` |
| auth_service.dfy | `AuthService` | `src/services/authService.js` |
| user_service.dfy | `UserService` | `src/services/userService.js`: `parseInt`, and how MySQL reads the path id |
| auth_controller.dfy | `AuthController` | `src/controllers/authController.js` with `src/routes/authRoutes.js` |
| user_controller.dfy | `UserController` | `src/controllers/userController.js` with `src/routes/userRoutes.js` |
| legacy_auth.dfy | `LegacyAuth` | `src/auth.js` |
| legacy_users.dfy | `LegacyUsers` | `src/users.js` |

**How effects are modelled.** Each operation's effect is a function from the old store `Db` to a pair: the new store, and a result or response. The imperative handlers run on `Store.Database`, a class whose fields the handlers update. Each handler's `ensures` ties its final state and its result to that function. Lemmas then prove what the source promises about the function.

**Inputs from outside the program.** Clocks, the environment and random tokens are parameters:
- `nowMs` is `Date.now()`;
- `env` is `process.env.SECRET_KEY`;
- `newToken` is `crypto.randomBytes(32).toString("hex")`;
- `emailOk` is Joi's `email()` rule.

**The old routers' imports.** `src/auth.js:7-10` and `src/users.js:4-8` import `validateEmail`, `validatePassword` and `authorizeRole`. `src/middleware/authMiddleware.js:52-56` does not export them, so as written those calls would throw. The model takes the validators the routers evidently intend as parameters: `validEmail`, `validPassword` and `allows`. When `allows` refuses, the route's outcome is `Refused`, because the response `authorizeRole` would send is not known.

**Assumptions about `src/models/User.js`.** That file is not part of this model. Its tests show:
- email and password are required;
- the stored password is a bcrypt hash;
- `comparePassword` checks against that hash.

The model assumes this behaviour for `User.js`:
- firstName and lastName are also required (`allowNull: false`);
- email is unique;
- role defaults to "user";
- a save hook hashes the password on create and whenever an update changes it.

## Model

| member | source | states |
|---|---|---|
| Bcrypt.CompareOnlyOwnHash | src/services/authService.js:22-25 | in the stand-in, a hash matches exactly the password it was made from (real bcrypt reads only the first 72 bytes; see Left out) |
| Bcrypt.CompareOwnHash | src/auth.js:98-101 | a stored hash accepts its own password |
| Jwt.VerifySign | src/utils/helpers.js:3-17 | a signed token verifies under the same key to its payload with `iat` and `exp = iat + 86400` until `exp`, then fails as expired |
| Jwt.VerifyOtherKey | src/utils/helpers.js:13 | a token never verifies under a different key |
| Jwt.Verify | src/utils/helpers.js:13 | a token that verifies has not reached its `exp` |
| Jwt.SignedTokenHasNoSpace | src/middleware/authMiddleware.js:8 | a signed token is non-empty and has no space, so it survives `split(" ")` |
| PasswordReset.IsExpired | src/models/PasswordReset.js:5-7 | whether the clock is strictly past `expiresAt`; its contract is `PasswordReset.ExpiryIsStrict` |
| PasswordReset.ExpiryIsStrict | src/models/PasswordReset.js:5-7 | `isExpired` is false at the instant `expiresAt` and true one millisecond later, and stays true |
| PasswordReset.HourAgoAndHourAhead | test/models/passwordReset.test.js:89-106 | a row that expired an hour ago is expired; one that expires in an hour is not |
| PasswordReset.MissingFields | src/models/PasswordReset.js:17-34 | exactly the absent not-null fields are reported |
| PasswordReset.BuildRow | test/models/passwordReset.test.js:64-86 | a row is built exactly when userId, token and expiresAt are all given; otherwise a SequelizeValidationError |
| PasswordReset.Filter | src/auth.js:143 | the rows kept are exactly the stored rows that pass the condition, and there are no more of them than before |
| PasswordReset.FirstWithToken | src/services/authService.js:53-56 | a row found carries the token and no earlier row does; none is found exactly when no row carries it |
| Store.UserByEmail | src/services/authService.js:17 | a user found has the email; none is found exactly when the email is unused |
| Store.UserByEmailIsUnique | src/services/authService.js:17-20 | with unique emails, the lookup finds the one user who holds the email |
| Store.UserById | src/services/userService.js:23-26 | `findByPk` finds the row exactly when the key exists |
| Store.NewUser | src/services/authService.js:7 | the new row has the given email and id, its hash matches the password, and the role defaults to "user" |
| Store.InsertUser | src/services/authService.js:7 | creation succeeds exactly when every required field is given and the email is free; it stores one new row with the next id, and a failure changes nothing |
| Store.Applied | src/services/userService.js:28 | an update keeps the id; a new password is hashed so that it matches, and no password keeps the hash |
| Store.UpdateUserRow | src/services/userService.js:28 | an update fails only on an email another user holds, and then changes nothing; otherwise only the target row changes |
| Store.DeleteUser | src/models/PasswordReset.js:17-26 | deleting a user deletes exactly that user and, by the cascade, exactly that user's reset rows |
| Store.InsertReset | src/models/PasswordReset.js:10-43 | a row is stored exactly when the fields are given and the user exists; it gets the next id and is appended, and a failure changes nothing |
| Store.DeleteReset | src/services/authService.js:64 | exactly the row with that primary key is deleted; users are untouched |
| Store.DeleteResetsOf | src/auth.js:143 | exactly the user's rows are deleted; users are untouched |
| Store.EmptyIsValid | src/models/PasswordReset.js:10-43 | an empty database meets every invariant |
| Store.UserStepsPreserveValid | src/services/userService.js:22-36 | creating or updating a user keeps the store's invariants: unique emails, keys below the counters, row owners present |
| Store.DeleteUserPreservesValid | src/models/PasswordReset.js:24-25 | deleting a user or a user's rows keeps the invariants; no reset row is left without its user |
| Store.ResetStepsPreserveValid | src/models/PasswordReset.js:10-43 | inserting or deleting a reset row keeps the invariants |
| Store.FilterKeepsDistinct | src/auth.js:143 | deleting rows keeps row ids unique, and keeps distinct tokens and one row per user when those held |
| Store.SameTokenSameRow | src/services/authService.js:53-56 | while tokens are distinct, a token names at most one row |
| Store.AppendFreshToken | src/services/authService.js:40-47 | appending a row whose token is new keeps tokens distinct |
| Store.ResetSchemaAllowsDuplicates | src/models/PasswordReset.js:17-34 | the schema stores a second row with the same user and token: neither is unique |
| Store.DeleteUserCascades | src/models/PasswordReset.js:24-25 | after a user is deleted, no reset row belongs to that user, and there is one user fewer |
| Store.Database.FindUserByEmail | src/services/authService.js:17 | the loop over the table finds the email's holder, or reports that none exists |
| Store.Database.FindResetByToken | src/services/authService.js:53-56 | the loop returns the first row carrying the token |
| Store.Database.RemoveResetsWhere | src/auth.js:143 | the loop leaves exactly the rows that pass the condition, in order |
| Store.Database.EmailUsedByOther | src/services/userService.js:28 | the loop decides whether another user holds the email |
| Store.Database.CreateUser | src/services/authService.js:7 | the new state and result are those of `InsertUser` |
| Store.Database.UpdateUser | src/services/userService.js:28 | the new state and result are those of `UpdateUserRow` |
| Store.Database.DestroyUser | src/services/userService.js:44 | the new state is that of `DeleteUser` |
| Store.Database.CreateReset | src/services/authService.js:43-47 | the new state and result are those of `InsertReset` |
| Store.Database.DestroyReset | src/auth.js:197 | the new state is that of `DeleteReset` |
| Store.Database.DestroyResetsOf | src/auth.js:143 | the new state is that of `DeleteResetsOf` |
| Helpers.SecretKey | src/utils/helpers.js:6 | a set, non-empty `SECRET_KEY` is used; an unset or empty one gives "gizli-anahtar" |
| Helpers.Json | src/users.js:52-62 | the serialised row carries the stored password hash |
| Helpers.SanitizeUser | src/utils/helpers.js:19-27 | drops the password and keeps id, email, first and last name, and role |
| Helpers.SanitizeIdempotent | src/utils/helpers.js:19-27 | sanitising twice equals sanitising once; a user is unchanged exactly when it has no password |
| Helpers.VerifyToken | src/utils/helpers.js:11-17 | success exactly when `jwt.verify` succeeds, with its claims; every failure becomes "Geçersiz token" |
| Helpers.GenerateToken | src/utils/helpers.js:3-9 | a session token over `{ id, email, role }` signed with the configured key: non-empty and space-free; `Helpers.GeneratedTokenVerifies` states what it verifies to and for how long |
| Helpers.GeneratedTokenVerifies | src/utils/helpers.js:3-17 | a generated token verifies to `{ id, email, role }` for 24 hours, and fails after that |
| Helpers.KeyChangeRejects | src/utils/helpers.js:6-13 | after the key changes, every earlier token fails with "Geçersiz token" |
| Helpers.UnsetAndEmptyKeyAgree | src/utils/helpers.js:6 | an unset and an empty `SECRET_KEY` sign identical tokens |
| Validation.JsLength | src/utils/validation.js:9 | `min(8)` counts UTF-16 code units: between one and two per character, and one per character in the Basic Multilingual Plane |
| Validation.FirstLine | src/utils/validation.js:10 | the lookaheads see the text up to the first line terminator |
| Validation.OnFirstLine | src/utils/validation.js:10 | a position is on the first line exactly when no line terminator comes at or before it |
| Validation.MeetsPatternByPositions | src/utils/validation.js:10 | the pattern holds exactly when a capital and a digit each occur with no line break before them |
| Validation.LineBreakHidesRest | src/utils/validation.js:10 | nothing after a line break affects the pattern |
| Validation.FirstLineOfOneLine | src/utils/validation.js:10 | text without a line terminator is its own first line |
| Validation.EmailDetails | src/utils/validation.js:4-7 | no detail exactly when the email is given, non-empty and well-formed; at most one detail, on the email key |
| Validation.NameDetails | src/utils/validation.js:18-23 | no detail exactly when the name is given and non-empty; a missing one reports its own required message |
| Validation.PasswordDetails | src/utils/validation.js:8-17 | a non-empty password reports `min` when too short, then `pattern` when it lacks a capital or a digit, with those messages |
| Validation.RoleDetails | src/utils/validation.js:24-26 | no detail exactly when the role is absent, "user" or "admin"; otherwise `any.only` comes first, and every detail is on the role key |
| Validation.ValidateUser | src/utils/validation.js:3-27 | no details exactly when the body meets every field rule of the registration schema |
| Validation.DetailsInSchemaOrder | src/utils/validation.js:39-41 | with `abortEarly: false` the details come key by key in schema order |
| Validation.MissingKeysReportRequired | src/utils/validation.js:4-23 | an empty body reports the four required keys, once each, with their own messages |
| Validation.WeakPasswordReportsBoth | src/utils/validation.js:8-17 | "weak" gets the length message and then the pattern message |
| Validation.EmptyRoleReportsBoth | src/utils/validation.js:24-26 | `role: ""` is reported last, first by `any.only` with the schema's message, then by `string.empty` |
| Validation.AstralCharactersCountTwice | src/utils/validation.js:9 | four characters outside the Basic Multilingual Plane already meet `min(8)` |
| Validation.SecondLineDoesNotCount | src/utils/validation.js:10 | a capital and a digit on a second line do not satisfy the pattern |
| Validation.LoginPasswordDetails | src/utils/validation.js:34-36 | no detail exactly when the password is given and non-empty; no length rule is applied |
| Validation.UnknownKeyDetails | src/utils/validation.js:28-37 | no detail exactly when firstName, lastName and role are absent; every detail is `object.unknown` on one of them |
| Validation.ValidateLogin | src/utils/validation.js:29-45 | no details exactly when the email is given, non-empty and well formed, the password is given and non-empty, and no other key is present |
| Validation.LoginHasNoPasswordPolicy | src/utils/validation.js:34-36 | a password the registration schema refuses still passes login validation |
| AuthMiddleware.SecondField | src/middleware/authMiddleware.js:8 | `split(" ")[1]` exists exactly when the header has a space, and contains no space |
| AuthMiddleware.BearerToken | src/middleware/authMiddleware.js:7-8 | a token found is non-empty and has no space; a missing or empty header gives none |
| AuthMiddleware.AnySchemeWord | src/middleware/authMiddleware.js:8 | whatever the first word, the second field is the token; the scheme is not checked |
| AuthMiddleware.DoubleSpaceLosesToken | src/middleware/authMiddleware.js:8-12 | two spaces after the scheme leave an empty second field, so no token is found |
| AuthMiddleware.Authenticate | src/middleware/authMiddleware.js:5-20 | 401 "Token bulunamadı" without a token; 403 with the verification message when verification fails; otherwise `next` with the claims |
| AuthMiddleware.IssuedTokenAuthenticates | src/middleware/authMiddleware.js:5-20 | a token from `generateToken`, under any scheme word, admits the user's `{ id, email, role }` for 24 hours |
| AuthMiddleware.Exchange.AuthenticateToken | src/middleware/authMiddleware.js:5-20 | sets `req.user` and calls `next` once, or sends the response and leaves `req.user` alone |
| AuthMiddleware.FieldErrors | src/middleware/authMiddleware.js:27-30 | one `{ field, message }` per detail, in order |
| AuthMiddleware.ValidateUserGate | src/middleware/authMiddleware.js:23-35 | passes the body on exactly when the schema accepts it; otherwise 400 with every error, an empty role getting both `any.only` and `string.empty` |
| AuthMiddleware.ValidateLoginGate | src/middleware/authMiddleware.js:38-50 | passes on exactly when the login schema accepts the body, which then has a non-empty email and password; otherwise 400 with every error |
| AuthMiddleware.WeakPasswordResponse | src/middleware/authMiddleware.js:23-32 | a body whose only fault is the password "weak" gets two password errors, the length error first |
| AuthService.SessionFor | src/services/authService.js:8-13 | the session carries the user without the password, with id, email and role kept |
| AuthService.RegisterSpec | src/services/authService.js:6-14 | registration succeeds exactly when the required fields are given and the email is free; a failure changes nothing and passes the create error on |
| AuthService.LoginSpec | src/services/authService.js:16-32 | every failure is "Geçersiz email veya şifre" |
| AuthService.CreatePasswordResetSpec | src/services/authService.js:34-50 | a missing email fails with the `where` error and an unknown one with "Kullanıcı bulunamadı"; a failure changes nothing |
| AuthService.PasswordChange | src/services/authService.js:63 | the change `user.update({ password: newPassword })` makes: only the password, dropped when absent; `AuthService.ResetWithoutPasswordOnlyConsumes` states the absent case |
| AuthService.ResetPasswordSpec | src/services/authService.js:52-65 | an unknown or expired token fails alike and changes nothing; otherwise the owner's password is updated and the row deleted |
| AuthService.Register | src/services/authService.js:6-14 | the handler's new state and result are those of `RegisterSpec`, and the store stays valid |
| AuthService.Login | src/services/authService.js:16-32 | the handler's result is that of `LoginSpec` |
| AuthService.CreatePasswordReset | src/services/authService.js:34-50 | the handler follows `CreatePasswordResetSpec`, keeps the store valid, and with a fresh token keeps tokens distinct |
| AuthService.ResetPassword | src/services/authService.js:52-65 | the handler follows `ResetPasswordSpec` and keeps the store valid |
| AuthService.LoginDecidedByOwner | src/services/authService.js:16-32 | login gives the email holder's session exactly when the password matches the holder's hash |
| AuthService.RegisterThenLogin | src/services/authService.js:6-32 | after registering, the same credentials log in as the new user and every other password fails |
| AuthService.RegisterIssuesSessionToken | src/services/authService.js:67-73 | the registration token verifies to the new user's id, email and role for 24 hours; the user returned has no password |
| AuthService.RequestAppendsRow | src/services/authService.js:40-49 | a request for a known email appends one row for the holder expiring an hour later, and returns its token and expiry |
| AuthService.ResetRequestsAccumulate | src/services/authService.js:43-47 | earlier rows stay: the user's row count grows by one with each request |
| AuthService.RequestPreservesValid | src/services/authService.js:34-50 | a request keeps the store valid, and with a fresh token keeps tokens distinct |
| AuthService.RedeemPreservesValid | src/services/authService.js:52-65 | a redemption keeps the store valid and tokens distinct |
| AuthService.OnlyHolderRedeems | src/services/authService.js:52-65 | a stored unexpired row whose token is its own is redeemed by that token |
| AuthService.SupersededTokenStillRedeems | src/services/authService.js:43-47 | after a second request the first token still redeems within its hour |
| AuthService.ExpiredTokenFailsAndStays | src/services/authService.js:58-60 | an expired token fails like an unknown one, and its row is not deleted |
| AuthService.RedemptionIsSingleUse | src/services/authService.js:63-64 | a redeemed token fails when presented again and changes nothing |
| AuthService.ResetReplacesLoginPassword | src/services/authService.js:52-65 | after a reset the new password logs the owner in, and any other password, the old one included, fails |
| AuthService.ResetWithoutPasswordOnlyConsumes | src/services/authService.js:63-64 | without `newPassword` the users are untouched, yet the row is deleted |
| AuthController.RegisterReply | src/controllers/authController.js:4-15 | 200 with `{ token, user }`; 400 "Bu email adresi zaten kayıtlı" exactly for a unique-constraint error; 500 for any other error |
| AuthController.LoginReply | src/controllers/authController.js:18-27 | 200 on success, otherwise 401 with the thrown message |
| AuthController.ForgotPasswordReply | src/controllers/authController.js:30-42 | 200 with the message, token and expiry; otherwise 404 with the thrown message |
| AuthController.ResetPasswordReply | src/controllers/authController.js:45-54 | 200 "Şifre başarıyla güncellendi" on success, otherwise 400 with the thrown message |
| AuthController.RegisterRoute | src/routes/authRoutes.js:7 | a body the schema refuses gets 400; only a 200 changes the store; `AuthController.RegisterOutcomes` gives the rest |
| AuthController.LoginRoute | src/routes/authRoutes.js:8 | a body the login schema refuses gets 400; otherwise 200 or the one 401 "Geçersiz email veya şifre" |
| AuthController.ForgotPasswordRoute | src/routes/authRoutes.js:9 | every failure is a 404 with nothing changed |
| AuthController.ResetPasswordRoute | src/routes/authRoutes.js:10 | every failure is a 400 with nothing changed; a 200 needs a stored, unexpired row carrying the token |
| AuthController.RegisterOutcomes | src/routes/authRoutes.js:7 | registration answers 200 exactly for a schema-valid body with a free email; a taken email gets 400 with the store unchanged; 500 cannot occur |
| AuthController.LoginFailuresLookAlike | src/controllers/authController.js:18-27 | for a schema-valid body, an unknown email and a wrong password get the same 401 |
| AuthController.ForgotPasswordFailures | src/controllers/authController.js:30-42 | an unknown or missing email gets 404, and no row is stored |
| AuthController.UnknownResetToken | src/controllers/authController.js:45-54 | an unknown token gets 400 "Geçersiz veya süresi dolmuş token" and changes nothing |
| AuthController.RegisterStoresUser | src/services/authService.js:6-7 | a 200 registration stores the new user under the next id, keeps the store valid, and leaves the reset rows alone |
| AuthController.ForgotThenReset | src/routes/authRoutes.js:9-10 | a request for a user's email answers 200, and its token redeems the same user's row within the hour |
| AuthController.RecoveryFlow | src/routes/authRoutes.js:7-10 | after register, forgot-password and reset, the new password logs in and the old one fails |
| UserService.TrimStart | src/services/userService.js:49 | `parseInt` skips exactly the leading JavaScript white space |
| UserService.ParseUnsigned | src/services/userService.js:49 | NaN exactly when no digit follows, in the base a `0x` prefix selects |
| UserService.ParseInt | src/services/userService.js:49 | the result is the signed value of the longest digit prefix after the white space, or NaN |
| UserService.ParseIntOfNumeral | src/services/userService.js:49 | a decimal numeral followed by anything other than a digit or an `x` parses to its number |
| UserService.CanAccessUser | src/services/userService.js:47-51 | an admin, or a caller whose `id` claim equals `parseInt(target)`; its contract is `UserService.OwnRecordOnly`, `UserService.NaNAdmitsOnlyAdmins` and `UserService.LegacyClaimsOwnNothing` |
| UserService.NaNAdmitsOnlyAdmins | src/services/userService.js:47-51 | a path id that is not a number admits only admins |
| UserService.OwnRecordOnly | src/services/userService.js:47-51 | a non-admin is admitted exactly to the path ids that parse to its own id, its decimal id included |
| UserService.LegacyClaimsOwnNothing | src/services/userService.js:49 | `{ userId, role }` claims carry no `id`, so a non-admin holding them is admitted nowhere |
| UserService.PrimaryKey | src/services/userService.js:23 | the integer key MySQL compares the path id with: leading spaces, a sign, then the leading digits (none: zero); `UserService.PrimaryKeyOfNumeral` and `UserService.LookupAgreesWithAccessCheck` state its contract |
| UserService.SqlTrim | src/services/userService.js:11 | the lookup skips the leading spaces MySQL skips |
| UserService.PrimaryKeyOfNumeral | src/services/userService.js:11 | the lookup reads a decimal id as its number |
| UserService.LookupAgreesWithAccessCheck | src/services/userService.js:11-49 | where `parseInt` gives a number, the lookup key is that number or 0 |
| UserService.Projection | src/services/userService.js:5-7 | a listed user has no password and keeps id, email, names and role |
| UserService.GetAllUsers | src/services/userService.js:4-8 | the list holds every user's projection and nothing else, and no password |
| UserService.GetUserById | src/services/userService.js:10-20 | success exactly when the key exists, with that user's projection; otherwise "Kullanıcı bulunamadı" |
| UserService.UpdateUserSpec | src/services/userService.js:22-36 | a missing user gives "Kullanıcı bulunamadı"; a failure changes nothing; success returns the updated row without the password |
| UserService.DeleteUserSpec | src/services/userService.js:38-45 | the error case is exactly a missing key and changes nothing; otherwise the user is deleted |
| UserService.UpdateTouchesOnlyTarget | src/services/userService.js:22-36 | an update that leaves the email alone succeeds and changes no other user and no reset row |
| UserService.DeleteRemovesExactlyTarget | src/services/userService.js:38-45 | deletion removes the target and its reset rows and keeps every other user |
| UserService.UpdateUser | src/services/userService.js:22-36 | the handler follows `UpdateUserSpec` and keeps the store valid |
| UserService.DeleteUserById | src/services/userService.js:38-45 | the handler follows `DeleteUserSpec` and keeps the store valid |
| UserController.GetAllUsersHandler | src/controllers/userController.js:4-17 | a non-admin gets 403; an admin gets 200 with a list that holds no password |
| UserController.GetUserHandler | src/controllers/userController.js:20-38 | the lookup comes first: 404 for a missing id whoever asks; then 403 without access; 200 exactly with both, with the projection |
| UserController.UpdateReply | src/controllers/userController.js:51-65 | 200 exactly on success; 404 for a missing user; 400 for a taken email |
| UserController.UpdateUserHandler | src/controllers/userController.js:41-65 | a caller without access gets 403 with nothing changed; only a 200 changes the store, and then no key and no reset row is added or removed |
| UserController.DeleteUserHandler | src/controllers/userController.js:68-86 | 403 for a non-admin and 404 for a missing id, both with nothing changed; 200 exactly for an admin and an existing id, with that user and its rows deleted |
| UserController.ListRoute | src/routes/userRoutes.js:10 | a 200 needs an authenticated admin |
| UserController.GetRoute | src/routes/userRoutes.js:11 | a 200 needs an authenticated caller with access to the id |
| UserController.PutRoute | src/routes/userRoutes.js:12 | only a 200 changes the store, and a 200 needs authentication, a body the registration schema accepts, and access to the id |
| UserController.DeleteRoute | src/routes/userRoutes.js:13 | only a 200 changes the store, and a 200 needs an authenticated admin and deletes the target and its rows |
| UserController.ForbiddenUpdateChangesNothing | src/controllers/userController.js:47-49 | a caller without access gets 403 and the store is untouched |
| UserController.ListRevealsNothingToNonAdmins | src/routes/userRoutes.js:10 | what a non-admin gets from the list does not depend on the store |
| UserController.UpdateOutcomes | src/controllers/userController.js:41-66 | 404 for a missing user, 400 for a taken email, and on success only the target row changes |
| UserController.DeleteOutcomes | src/controllers/userController.js:69-87 | 403 for a non-admin and 404 for a missing id, both with the store unchanged; otherwise exactly the target goes |
| UserController.NonAdminReadsOnlyOwnRecord | src/controllers/userController.js:20-30 | a non-admin's successful read is of its own record, however the path spells the id |
| UserController.SelfPromotion | src/routes/userRoutes.js:12 | a non-admin can set its own role to "admin" through the update |
| LegacyAuth.RoleOrDefault | src/auth.js:64 | an absent or empty role becomes "user"; any other role is kept |
| LegacyAuth.LegacyToken | src/auth.js:68-72 | the `{ userId, role }` token signed for 24 hours: non-empty and space-free, so it survives the Bearer split |
| LegacyAuth.RegisterSpec | src/auth.js:39-79 | the email check comes first, then the password check, each with its 400; a taken email gets 400 "Bu email zaten kayıtlı" with nothing changed; only a 200 changes the store, and a 200 stores one new user under the next id with the email, a matching hash and the defaulted role, and answers `{ token }` signed over `{ userId, role }` |
| LegacyAuth.LoginSpec | src/auth.js:82-124 | a missing or empty email or password gets 400; every 401 is the same "Geçersiz email veya şifre" |
| LegacyAuth.ForgotPasswordSpec | src/auth.js:127-172 | an unknown email gets 404 with nothing changed; only a 200 changes the store |
| LegacyAuth.ResetPasswordSpec | src/auth.js:175-218 | an invalid new password gets 400 with nothing changed; a missing token gets 500; an unknown token gets 404 with nothing changed; an expired row is deleted and gets 400; a 200 means the token's first row is unexpired and its user exists, and the new state is that user's password changed and the row deleted |
| LegacyAuth.Register | src/auth.js:39-79 | the handler follows `RegisterSpec` and keeps the store valid |
| LegacyAuth.Login | src/auth.js:82-124 | the handler's response is that of `LoginSpec` |
| LegacyAuth.ForgotPassword | src/auth.js:127-172 | the handler follows `ForgotPasswordSpec` and keeps the store valid |
| LegacyAuth.ResetPassword | src/auth.js:175-218 | the handler follows `ResetPasswordSpec` and keeps the store valid |
| LegacyAuth.AppendNewOwner | src/auth.js:143-154 | appending a row for a user without rows keeps at most one row per user |
| LegacyAuth.RequestReplacesRows | src/auth.js:142-167 | a request for a known email replaces that user's rows by one new row expiring an hour later, and answers 200 with the token |
| LegacyAuth.ForgotPreservesInvariants | src/auth.js:127-172 | a request keeps the store valid and at most one row per user, and with a fresh token keeps tokens distinct |
| LegacyAuth.NewRequestRevokesOldToken | src/auth.js:142-154 | after a second request, the first token gets 404 |
| LegacyAuth.ExpiredTokenIsPurged | src/auth.js:195-199 | an expired token gets 400 and its row is deleted, so presenting it again gets 404 |
| LegacyAuth.OnlyHolderRedeems | src/auth.js:185-213 | a stored, unexpired row of an existing user whose token no other row carries is redeemed by its token with 200, given a new password the policy accepts |
| LegacyAuth.RedemptionIsSingleUse | src/auth.js:207-213 | a redeemed token gets 404 when presented again, and nothing changes |
| LegacyAuth.LoginDecidedByOwner | src/auth.js:91-119 | login answers 200 with the holder's `{ userId, role }` token and user exactly when the password matches the holder's hash, else 401 |
| LegacyAuth.RegisterThenLogin | src/auth.js:39-124 | after registering, the credentials log in with the defaulted role, other passwords fail, and the email cannot register again |
| LegacyAuth.RedeemUpdatesOwner | src/auth.js:201-211 | a 200 redemption keeps the store valid and sets the token owner's password to the new one |
| LegacyAuth.ResetReplacesLoginPassword | src/auth.js:207-213 | after a reset the new password logs in and any other password fails |
| LegacyUsers.Listing | src/users.js:20-32 | the list holds every user as stored, password hash included, and nothing else |
| LegacyUsers.ReadHandler | src/users.js:41-67 | 403 unless the caller is an admin or its `userId` equals `parseInt(id)`; 200 exactly when it is and the row exists, with the password hash |
| LegacyUsers.Merged | src/users.js:98-103 | the role is never sent; a password is sent exactly when one is given and non-empty |
| LegacyUsers.Owns | src/users.js:84 | `req.user.userId === user.id`: only `{ userId, role }` claims can own a row; `LegacyUsers.SessionClaimsOwnNothing` and `LegacyUsers.UpdateSpec` state its use |
| LegacyUsers.UpdateSpec | src/users.js:74-118 | a missing user gets 404 before any other check; a non-admin whose `userId` is not the row's id gets 403 with nothing changed; a truthy password the policy refuses gets 400 with nothing changed; only a 200 changes the store, and then only the target row, to the merged fields; the 200 reply omits the password |
| LegacyUsers.DeleteSpec | src/users.js:126-143 | a missing user gets 404 with nothing changed; otherwise the user and its rows are deleted, and the reply is 200 |
| LegacyUsers.ListRoute | src/users.js:13-17 | a 200 list requires an authenticated caller whom `authorizeRole(["admin"])` allows |
| LegacyUsers.GetRoute | src/users.js:41 | a 200 requires an authenticated caller and is the read handler's answer |
| LegacyUsers.PutRoute | src/users.js:70-74 | the store changes only for an authenticated caller whom `authorizeRole(["admin", "user"])` allows, and then the answer is 200 |
| LegacyUsers.DeleteRoute | src/users.js:122-126 | the store changes only for an authenticated caller whom `authorizeRole(["admin"])` allows, and only when the row exists |
| LegacyUsers.UpdateHandler | src/users.js:75-111 | the handler follows `UpdateSpec` and keeps the store valid |
| LegacyUsers.DeleteHandler | src/users.js:127-136 | the handler follows `DeleteSpec` and keeps the store valid |
| LegacyUsers.MergeRules | src/users.js:98-103 | a non-empty value replaces a field, otherwise the field is kept; the role is kept; a given password is stored hashed twice, otherwise the hash is kept |
| LegacyUsers.SessionClaimsOwnNothing | src/users.js:47-84 | a non-admin holding `{ id, email, role }` claims gets 403 from every read and changes nothing by an update |
| LegacyUsers.LegacyReadsOnlyOwnRecord | src/users.js:47-54 | a non-admin's successful read is of its own record |
| LegacyUsers.OwnerReadsOwnRecord | src/users.js:47-62 | the owner reads its own record, hash included, at its decimal id |
| LegacyUsers.UpdatePasswordOutcomes | src/users.js:91-103 | a password failing the policy gets 400 and changes nothing; one passing it is stored hashed twice, so the old router's login refuses the password and accepts its hash |
| LegacyUsers.UpdateTouchesOnlyTarget | src/users.js:98-103 | a successful update changes only the target row, keeps its role, and leaves the reset rows alone |
| LegacyUsers.DeleteRemovesTarget | src/users.js:135 | a delete removes the target and its reset rows, and keeps every other user |

## Left out
- bcrypt: the salt, the cost factor 10 and the hash format are not modelled. `Bcrypt.Hash` is an injective stand-in, and only "a hash matches exactly its own password" is used.
- Bcrypt.CompareOnlyOwnHash: real bcrypt reads only the first 72 UTF-8 bytes of a password, so any password sharing those bytes also matches, and neither schema caps the length. The stand-in compares whole passwords. The "any other password fails" parts of `AuthService.RegisterThenLogin`, `AuthService.ResetReplacesLoginPassword`, `AuthController.RecoveryFlow`, `LegacyAuth.RegisterThenLogin` and `LegacyAuth.ResetReplacesLoginPassword` hold for passwords that differ within their first 72 bytes only.
- MySQL collations (`src/config/database.js:9` selects MySQL): the default collation compares strings without regard to case, so the email lookups, the unique email index and the token lookups would also match a differently-cased string. The model compares strings exactly: a login with a differently-cased email, or a registration of a case variant of a stored email, is answered differently in the model. Unicode case folding is not modelled.
- `expiresAt` is a MySQL `DATETIME` without fractional seconds (`src/models/PasswordReset.js:31-33`), so a row read back carries its expiry rounded to the second. The model keeps the exact millisecond.
- jsonwebtoken: HMAC-SHA256 and base64url are not modelled. `Jwt.Sign` writes the claims and a tag of the key. Only round-trip, expiry and key mismatch are used; the secrecy of the signature is not captured.
- `src/models/User.js` is not part of this model. The validations and hooks listed above are assumed, and its `isEmail` validator is not modelled.
- Joi's `email()` rule is the parameter `emailOk`, and the email rule of `User.js` is not modelled.
- Body values that are not strings, and keys the registration schema does not declare, are not modelled: a body has five optional string fields.
- Validation.ValidateLogin: it checks unknown keys only among the five body fields modelled.
- Validation.UnknownKeyDetails: a body is a record without key order, so Joi's order of `object.unknown` details, which follows the order of the keys in the body, is not captured; the model lists them as firstName, lastName, role.
- UserService.GetAllUsers: `findAll` returns an array in primary-key order; the model returns a set, so the order is not captured. The same holds for `LegacyUsers.Listing`.
- `expiresAt` is kept as milliseconds; its serialisation as an ISO date string is not modelled.
- UserService.PrimaryKey: MySQL's reading of a fraction or an exponent in the path id is not modelled; the key is the sign and the leading decimal digits.
- UserService.ParseInt: parseInt's rounding of values above 2^53 is not modelled; integers are unbounded.
- Concurrency, transactions and the interleaving of the asynchronous handlers are not modelled: each handler runs alone.
- The nodemailer transport in `src/auth.js:14-36` is never used by a handler and is not modelled.
- The `error` field of 500 bodies and the `console.error` logging are not modelled.
- `createdAt` and `updatedAt` in the serialised rows are not modelled.
- The 500 replies of `src/auth.js` and `src/users.js` for database failures are modelled only where a modelled call can fail: a missing email, token or required field, and a unique constraint.
- The Express wiring in `src/app.js` and the database configuration are not modelled.

## Behaviour worth knowing (the model follows the code)
- The mounted register (`src/controllers/authController.js:7`, `src/services/authService.js:10-13`) answers with `{ token, user }`. Only `src/auth.js:74` answers with `{ token }` alone.
- The mounted reset (`src/services/authService.js:52-65`) applies no password policy to `newPassword`. A missing `newPassword` deletes the token and changes no password (`AuthService.ResetWithoutPasswordOnlyConsumes`).
- The mounted forgot-password (`src/services/authService.js:43-47`) keeps earlier rows, so several tokens for one user are valid at once (`AuthService.SupersededTokenStillRedeems`).
- The mounted reset never deletes an expired row (`AuthService.ExpiredTokenFailsAndStays`).
- Only `src/auth.js` deletes earlier rows and purges expired ones (`LegacyAuth.NewRequestRevokesOldToken`, `LegacyAuth.ExpiredTokenIsPurged`).
- The token column has no unique constraint (`Store.ResetSchemaAllowsDuplicates`). Distinct tokens are an invariant only while every issued token is fresh: `Store.TokensDistinct` under `Store.FreshToken`.
- A non-admin can make itself an admin through PUT /users/:id, because the update schema accepts `role: "admin"` (`UserController.SelfPromotion`).
- `src/users.js:102` hashes a new password before `user.update`, and the assumed save hook hashes it again. The stored hash is then `Hash(Hash(p))`, so the password itself no longer logs in (`LegacyUsers.UpdatePasswordOutcomes`).
