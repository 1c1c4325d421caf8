/**
 * The `PasswordReset` model (src/models/PasswordReset.js): one row per
 * issued reset token, with the time after which it no longer redeems.
 */
module PasswordReset {
  import opened Results
  import opened Errors

  /** A stored row of `password_resets`; `expiresAt` in milliseconds since the epoch. */
  datatype ResetRow = ResetRow(id: int, userId: int, token: string, expiresAt: int)

  /** Lifetime given to a reset token by both forgot-password flows. */
  const OneHourMs := 3600000

  /** `isExpired()`: the clock is strictly past `expiresAt`; reads nothing else. */
  predicate IsExpired(row: ResetRow, now: int)
  {
    now > row.expiresAt
  }

  /** A token is still valid at the very instant it expires, and expired one millisecond later. */
  lemma ExpiryIsStrict(row: ResetRow)
    ensures !IsExpired(row, row.expiresAt)
    ensures IsExpired(row, row.expiresAt + 1)
    ensures forall now :: IsExpired(row, now) ==> IsExpired(row, now + 1)
  {
  }

  /** A row that expired an hour ago is expired; one that expires in an hour is not. */
  lemma HourAgoAndHourAhead(id: int, userId: int, token: string, now: int)
    ensures IsExpired(ResetRow(id, userId, token, now - OneHourMs), now)
    ensures !IsExpired(ResetRow(id, userId, token, now + OneHourMs), now)
  {
  }

  /** The attributes passed to `PasswordReset.create`; an absent one is `undefined`. */
  datatype RowInput = RowInput(userId: Option<int>, token: Option<string>, expiresAt: Option<int>)

  /** The attributes declared `allowNull: false` that `input` lacks, in declaration order. */
  function MissingFields(input: RowInput): (missing: seq<string>)
    ensures |missing| <= 3
    ensures missing == [] <==> input.userId.Some? && input.token.Some? && input.expiresAt.Some?
  {
    (if input.userId.None? then ["userId"] else [])
    + (if input.token.None? then ["token"] else [])
    + (if input.expiresAt.None? then ["expiresAt"] else [])
  }

  function NotNullMessages(fields: seq<string>): string
  {
    if fields == [] then ""
    else
      var line := "notNull Violation: PasswordReset." + fields[0] + " cannot be null";
      if |fields| == 1 then line else line + ",\n" + NotNullMessages(fields[1..])
  }

  /**
   * The model-level validation of `PasswordReset.create`: a row missing
   * any required attribute is refused with a `SequelizeValidationError`;
   * otherwise the row gets the next primary key. Nothing here checks that
   * the token or the user is unique.
   */
  function BuildRow(input: RowInput, id: int): (r: Result<ResetRow, Error>)
    ensures r.Ok? <==> MissingFields(input) == []
    ensures r.Ok? ==> r.value == ResetRow(id, input.userId.value, input.token.value, input.expiresAt.value)
    ensures r.Err? ==> r.error.name == "SequelizeValidationError"
  {
    var missing := MissingFields(input);
    if missing != [] then Err(Error("SequelizeValidationError", NotNullMessages(missing)))
    else Ok(ResetRow(id, input.userId.value, input.token.value, input.expiresAt.value))
  }

  /** The rows of `rows`, in order, that satisfy `keep`. */
  function Filter(rows: seq<ResetRow>, keep: ResetRow -> bool): (r: seq<ResetRow>)
    ensures |r| <= |rows|
    ensures forall x :: x in r <==> x in rows && keep(x)
    ensures (forall x :: x in rows ==> !keep(x)) ==> r == []
  {
    if rows == [] then []
    else
      var last := rows[|rows| - 1];
      Filter(rows[..|rows| - 1], keep) + (if keep(last) then [last] else [])
  }

  /** The rows that do not belong to `userId`: `destroy({ where: { userId } })`, and the cascade on user delete. */
  function DropUser(rows: seq<ResetRow>, userId: int): seq<ResetRow>
  {
    Filter(rows, (r: ResetRow) => r.userId != userId)
  }

  /** The rows other than the one with primary key `id`: `passwordReset.destroy()`. */
  function DropId(rows: seq<ResetRow>, id: int): seq<ResetRow>
  {
    Filter(rows, (r: ResetRow) => r.id != id)
  }

  /** The first row carrying `token`, in primary-key order: `findOne({ where: { token } })`. */
  function FirstWithToken(rows: seq<ResetRow>, token: string): (r: Option<ResetRow>)
    ensures r.Some? ==> r.value in rows && r.value.token == token
    ensures r.None? <==> forall x :: x in rows ==> x.token != token
    ensures r.Some? ==> exists i :: 0 <= i < |rows| && rows[i] == r.value && forall j :: 0 <= j < i ==> rows[j].token != token
  {
    if rows == [] then None
    else if rows[0].token == token then Some(rows[0])
    else FirstWithToken(rows[1..], token)
  }

  /** How many rows belong to `userId`. */
  function RowsOf(rows: seq<ResetRow>, userId: int): nat
  {
    |Filter(rows, (r: ResetRow) => r.userId == userId)|
  }
}
