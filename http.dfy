/** Request bodies and JSON responses exchanged by the handlers. */
module Http {
  import opened Results
  import opened Helpers

  /** The user fields a request body may carry; an absent key is `None`. */
  datatype UserBody = UserBody(email: Option<string>, password: Option<string>, firstName: Option<string>,
                               lastName: Option<string>, role: Option<string>)

  /** One entry of a validation failure: `{ field, message }`. */
  datatype FieldError = FieldError(field: string, message: string)

  /** Response bodies, one constructor per JSON shape the handlers send. */
  datatype Body =
    | Message(message: string)                                  // { message }
    | ErrorText(error: string)                                  // { error }
    | Invalid(errors: seq<FieldError>)                          // { errors }
    | TokenOnly(token: string)                                  // { token }
    | Authenticated(token: string, user: UserJson)              // { token, user }
    | ResetIssued(message: string, token: string, expiresAt: int)  // { message, token, expiresAt }
    | ResetExample(message: string, token: string)              // { message, resetPasswordExample: { ..., body: { token, ... } } }
    | OneUser(user: UserJson)                                   // the user object itself
    | UserList(users: set<UserJson>)                            // the array of users
    | Updated(message: string, user: UserJson)                  // { message, user }

  datatype Response = Response(status: int, body: Body)

  /** The 403 message of both user routers. */
  const Forbidden := "Bu işlem için yetkiniz yok"
}
