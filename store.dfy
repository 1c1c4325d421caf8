/**
 * In-memory replacement for the Sequelize models over MySQL: the `users`
 * table keyed by primary key, the `password_resets` rows in primary-key
 * order, and the two auto-increment counters. The pure functions give each
 * store operation's effect; class `Database` performs the same operations
 * step by step and is proved against them.
 */
module Store {
  import opened Results
  import opened Errors
  import opened PasswordReset
  import Bcrypt

  /** A stored user row; `passwordHash` is the `password` column, never the plaintext. */
  datatype User = User(id: int, email: string, passwordHash: string, firstName: string, lastName: string, role: string)

  /** Attributes passed to `User.create`; an absent one is `undefined`. */
  datatype UserInput = UserInput(email: Option<string>, password: Option<string>, firstName: Option<string>,
                                 lastName: Option<string>, role: Option<string>)

  /** Attributes passed to `user.update`; an absent one is left as it is. `password` is the value written to the column, before the save hook hashes it. */
  datatype UserChanges = UserChanges(email: Option<string>, password: Option<string>, firstName: Option<string>,
                                     lastName: Option<string>, role: Option<string>)

  datatype Db = Db(users: map<int, User>, resets: seq<ResetRow>, nextUserId: int, nextResetId: int)

  const Empty := Db(map[], [], 1, 1)

  // ----- invariants -----

  /** The unique constraint on `users.email`. */
  ghost predicate EmailsUnique(users: map<int, User>)
  {
    forall a, b :: a in users && b in users && users[a].email == users[b].email ==> a == b
  }

  /** `ok` holds of every pair of rows, taken in order. */
  ghost predicate Pairwise(rows: seq<ResetRow>, ok: (ResetRow, ResetRow) -> bool)
  {
    forall i, j :: 0 <= i < j < |rows| ==> ok(rows[i], rows[j])
  }

  predicate IdsDiffer(a: ResetRow, b: ResetRow) { a.id != b.id }

  predicate TokensDiffer(a: ResetRow, b: ResetRow) { a.token != b.token }

  predicate OwnersDiffer(a: ResetRow, b: ResetRow) { a.userId != b.userId }

  ghost predicate RowIdsUnique(rows: seq<ResetRow>)
  {
    Pairwise(rows, IdsDiffer)
  }

  /** What the schema guarantees: keys match rows, counters are ahead of every key, emails are unique, and every reset row references an existing user. */
  ghost predicate Valid(db: Db)
  {
    && db.nextUserId >= 1 && db.nextResetId >= 1
    && (forall id :: id in db.users ==> db.users[id].id == id && 1 <= id < db.nextUserId)
    && EmailsUnique(db.users)
    && (forall r :: r in db.resets ==> r.userId in db.users && 1 <= r.id < db.nextResetId)
    && RowIdsUnique(db.resets)
  }

  /** Not a schema constraint: holds while every issued token was fresh. */
  ghost predicate TokensDistinct(rows: seq<ResetRow>)
  {
    Pairwise(rows, TokensDiffer)
  }

  /** Holds in the variant that deletes a user's rows before issuing a new one. */
  ghost predicate AtMostOneRowPerUser(rows: seq<ResetRow>)
  {
    Pairwise(rows, OwnersDiffer)
  }

  /** A token no stored row carries: what `crypto.randomBytes(32)` provides with overwhelming probability. */
  ghost predicate FreshToken(rows: seq<ResetRow>, token: string)
  {
    forall r :: r in rows ==> r.token != token
  }

  /** Under distinct tokens a token names at most one row. */
  lemma SameTokenSameRow(rows: seq<ResetRow>, a: ResetRow, b: ResetRow)
    requires TokensDistinct(rows) && a in rows && b in rows && a.token == b.token
    ensures a == b
  {
    var i :| 0 <= i < |rows| && rows[i] == a;
    var j :| 0 <= j < |rows| && rows[j] == b;
    assert !(i < j) && !(j < i);
  }

  /** Appending a row with a fresh token keeps tokens distinct. */
  lemma AppendFreshToken(rows: seq<ResetRow>, row: ResetRow)
    requires TokensDistinct(rows) && FreshToken(rows, row.token)
    ensures TokensDistinct(rows + [row])
  {
    var g := rows + [row];
    forall i, j | 0 <= i < j < |g| ensures TokensDiffer(g[i], g[j]) {
      if j == |rows| {
        assert g[i] in rows;
      }
    }
  }

  lemma EmptyIsValid()
    ensures Valid(Empty) && TokensDistinct(Empty.resets) && AtMostOneRowPerUser(Empty.resets)
  {
  }

  // ----- lookups -----

  ghost predicate EmailTaken(users: map<int, User>, email: string)
  {
    exists k :: k in users && users[k].email == email
  }

  ghost predicate EmailTakenByOther(users: map<int, User>, email: string, id: int)
  {
    exists k :: k in users && k != id && users[k].email == email
  }

  /** `User.findOne({ where: { email } })`. */
  ghost function UserByEmail(users: map<int, User>, email: string): (r: Option<User>)
    ensures r.Some? ==> r.value in users.Values && r.value.email == email
    ensures r.None? <==> !EmailTaken(users, email)
  {
    if EmailTaken(users, email) then
      var k :| k in users && users[k].email == email;
      Some(users[k])
    else None
  }

  /** Under the unique constraint the user found by email is the only one with that email. */
  lemma UserByEmailIsUnique(users: map<int, User>, email: string, k: int)
    requires EmailsUnique(users) && k in users && users[k].email == email
    ensures UserByEmail(users, email) == Some(users[k])
  {
  }

  /** `User.findByPk(id)`. */
  function UserById(users: map<int, User>, id: int): (r: Option<User>)
    ensures r.Some? <==> id in users
    ensures r.Some? ==> r.value == users[id]
  {
    if id in users then Some(users[id]) else None
  }

  // ----- effects of the store operations -----

  function Required(input: UserInput): seq<string>
  {
    (if input.email.None? then ["email"] else [])
    + (if input.password.None? then ["password"] else [])
    + (if input.firstName.None? then ["firstName"] else [])
    + (if input.lastName.None? then ["lastName"] else [])
  }

  /** The row `User.create` stores: the password through the save hook, the role defaulting to "user". */
  function NewUser(input: UserInput, id: int): (u: User)
    requires Required(input) == []
    ensures u.id == id && u.email == input.email.value
    ensures Bcrypt.Compare(input.password.value, u.passwordHash)
    ensures u.role == if input.role.Some? then input.role.value else "user"
  {
    User(id, input.email.value, Bcrypt.Hash(input.password.value), input.firstName.value, input.lastName.value,
         if input.role.Some? then input.role.value else "user")
  }

  /** `User.create(input)`: model validation first, then the unique index, then the insert. */
  ghost function InsertUser(db: Db, input: UserInput): (r: (Db, Result<User, Error>))
    ensures r.1.Err? ==> r.0 == db
    ensures r.1.Ok? <==> Required(input) == [] && !EmailTaken(db.users, input.email.value)
    ensures r.1.Ok? ==> r.1.value == NewUser(input, db.nextUserId)
                        && r.0 == db.(users := db.users[db.nextUserId := r.1.value], nextUserId := db.nextUserId + 1)
  {
    if Required(input) != [] then (db, Err(Error("SequelizeValidationError", "notNull Violation")))
    else if EmailTaken(db.users, input.email.value) then (db, Err(UniqueConstraint))
    else
      var u := NewUser(input, db.nextUserId);
      (db.(users := db.users[u.id := u], nextUserId := db.nextUserId + 1), Ok(u))
  }

  /** The row after `user.update(changes)`: given attributes replace the old ones; a new password goes through the save hook. */
  function Applied(u: User, ch: UserChanges): (v: User)
    ensures v.id == u.id
    ensures ch.password.Some? ==> Bcrypt.Compare(ch.password.value, v.passwordHash)
    ensures ch.password.None? ==> v.passwordHash == u.passwordHash
  {
    User(u.id,
         if ch.email.Some? then ch.email.value else u.email,
         if ch.password.Some? then Bcrypt.Hash(ch.password.value) else u.passwordHash,
         if ch.firstName.Some? then ch.firstName.value else u.firstName,
         if ch.lastName.Some? then ch.lastName.value else u.lastName,
         if ch.role.Some? then ch.role.value else u.role)
  }

  /** `user.update(changes)` on the row with key `id`: refused by the unique index if the new email belongs to another user. */
  ghost function UpdateUserRow(db: Db, id: int, ch: UserChanges): (r: (Db, Result<User, Error>))
    requires id in db.users
    ensures r.1.Err? ==> r.0 == db && r.1.error == UniqueConstraint
    ensures r.1.Ok? ==> r.1.value == Applied(db.users[id], ch) && r.0 == db.(users := db.users[id := r.1.value])
  {
    if ch.email.Some? && EmailTakenByOther(db.users, ch.email.value, id) then (db, Err(UniqueConstraint))
    else
      var v := Applied(db.users[id], ch);
      (db.(users := db.users[id := v]), Ok(v))
  }

  /** `user.destroy()`: the row goes, and `ON DELETE CASCADE` takes its reset rows with it. */
  function DeleteUser(db: Db, id: int): (d: Db)
    ensures id !in d.users && d.users == db.users - {id}
    ensures forall r :: r in d.resets <==> r in db.resets && r.userId != id
  {
    db.(users := db.users - {id}, resets := DropUser(db.resets, id))
  }

  /** `PasswordReset.create(input)`: model validation, then the foreign key, then the insert. */
  function InsertReset(db: Db, input: RowInput): (r: (Db, Result<ResetRow, Error>))
    ensures r.1.Err? ==> r.0 == db
    ensures r.1.Ok? <==> MissingFields(input) == [] && input.userId.value in db.users
    ensures r.1.Ok? ==> r.1.value.id == db.nextResetId
                        && r.1.value.userId == input.userId.value
                        && r.1.value.token == input.token.value
                        && r.1.value.expiresAt == input.expiresAt.value
                        && r.0 == db.(resets := db.resets + [r.1.value], nextResetId := db.nextResetId + 1)
  {
    match BuildRow(input, db.nextResetId)
    case Err(e) => (db, Err(e))
    case Ok(row) =>
      if row.userId !in db.users then (db, Err(ForeignKeyConstraint))
      else (db.(resets := db.resets + [row], nextResetId := db.nextResetId + 1), Ok(row))
  }

  /** `passwordReset.destroy()`: deletes by primary key. */
  function DeleteReset(db: Db, rowId: int): (d: Db)
    ensures d.users == db.users
    ensures forall r :: r in d.resets <==> r in db.resets && r.id != rowId
  {
    db.(resets := DropId(db.resets, rowId))
  }

  /** `PasswordReset.destroy({ where: { userId } })`. */
  function DeleteResetsOf(db: Db, userId: int): (d: Db)
    ensures d.users == db.users
    ensures forall r :: r in d.resets <==> r in db.resets && r.userId != userId
  {
    db.(resets := DropUser(db.resets, userId))
  }

  // ----- the schema's properties -----

  /** Deleting rows never breaks a property that held of every pair of rows. */
  lemma {:induction false} FilterKeepsPairwise(rows: seq<ResetRow>, keep: ResetRow -> bool, ok: (ResetRow, ResetRow) -> bool)
    requires Pairwise(rows, ok)
    ensures Pairwise(Filter(rows, keep), ok)
  {
    if rows != [] {
      var init := rows[..|rows| - 1];
      var last := rows[|rows| - 1];
      assert Pairwise(init, ok) by {
        forall i, j | 0 <= i < j < |init| ensures ok(init[i], init[j]) {
          assert init[i] == rows[i] && init[j] == rows[j];
        }
      }
      FilterKeepsPairwise(init, keep, ok);
      var f := Filter(init, keep);
      if keep(last) {
        var g := f + [last];
        forall i, j | 0 <= i < j < |g| ensures ok(g[i], g[j]) {
          if j == |f| {
            assert g[i] == f[i] && f[i] in init;
            var k :| 0 <= k < |init| && init[k] == f[i];
            assert rows[k] == f[i];
          } else {
            assert g[i] == f[i] && g[j] == f[j];
          }
        }
      }
    }
  }

  lemma FilterKeepsDistinct(rows: seq<ResetRow>, keep: ResetRow -> bool)
    requires RowIdsUnique(rows)
    ensures RowIdsUnique(Filter(rows, keep))
    ensures TokensDistinct(rows) ==> TokensDistinct(Filter(rows, keep))
    ensures AtMostOneRowPerUser(rows) ==> AtMostOneRowPerUser(Filter(rows, keep))
  {
    FilterKeepsPairwise(rows, keep, IdsDiffer);
    if TokensDistinct(rows) {
      FilterKeepsPairwise(rows, keep, TokensDiffer);
    }
    if AtMostOneRowPerUser(rows) {
      FilterKeepsPairwise(rows, keep, OwnersDiffer);
    }
  }

  /** Creating or updating a user keeps the schema's guarantees. */
  lemma UserStepsPreserveValid(db: Db, input: UserInput, id: int, ch: UserChanges)
    requires Valid(db)
    ensures Valid(InsertUser(db, input).0)
    ensures id in db.users ==> Valid(UpdateUserRow(db, id, ch).0)
  {
  }

  /** Deleting a user, with its cascade, keeps the schema's guarantees. */
  lemma DeleteUserPreservesValid(db: Db, id: int)
    requires Valid(db)
    ensures Valid(DeleteUser(db, id)) && Valid(DeleteResetsOf(db, id))
  {
    FilterKeepsDistinct(db.resets, (r: ResetRow) => r.userId != id);
  }

  /** Inserting or deleting reset rows keeps the schema's guarantees. */
  lemma ResetStepsPreserveValid(db: Db, rin: RowInput, rowId: int)
    requires Valid(db)
    ensures Valid(InsertReset(db, rin).0)
    ensures Valid(DeleteReset(db, rowId))
  {
    FilterKeepsDistinct(db.resets, (r: ResetRow) => r.id != rowId);
    var (d, r) := InsertReset(db, rin);
    if r.Ok? {
      forall i, j | 0 <= i < j < |d.resets| ensures d.resets[i].id != d.resets[j].id {
        if j == |db.resets| {
          assert d.resets[i] in db.resets;
        } else {
          assert d.resets[i] == db.resets[i] && d.resets[j] == db.resets[j];
        }
      }
    }
  }

  /** Nothing in the reset schema is unique: a second row for the same user, even with the same token string, is stored. */
  lemma ResetSchemaAllowsDuplicates(db: Db, row: ResetRow)
    requires Valid(db) && row in db.resets
    ensures var (d, r) := InsertReset(db, RowInput(Some(row.userId), Some(row.token), Some(row.expiresAt)));
            r.Ok? && RowsOf(d.resets, row.userId) >= 2 && !TokensDistinct(d.resets)
  {
    var input := RowInput(Some(row.userId), Some(row.token), Some(row.expiresAt));
    var (d, r) := InsertReset(db, input);
    var mine := (x: ResetRow) => x.userId == row.userId;
    var i :| 0 <= i < |db.resets| && db.resets[i] == row;
    assert d.resets[i] == row && d.resets[|db.resets|] == r.value;
    assert row.id != r.value.id;
    assert row in Filter(d.resets, mine) && r.value in Filter(d.resets, mine);
    var f := Filter(d.resets, mine);
    var a :| 0 <= a < |f| && f[a] == row;
    var b :| 0 <= b < |f| && f[b] == r.value;
    assert a != b;
  }

  /** Deleting a user leaves no reset row pointing at it (the cascade). */
  lemma DeleteUserCascades(db: Db, id: int)
    requires Valid(db) && id in db.users
    ensures RowsOf(DeleteUser(db, id).resets, id) == 0
    ensures |DeleteUser(db, id).users| == |db.users| - 1
  {
    var f := Filter(DeleteUser(db, id).resets, (r: ResetRow) => r.userId == id);
    assert forall x :: x in DeleteUser(db, id).resets ==> x.userId != id;
  }

  /** A member of a non-empty set, for the scans below. */
  lemma SomeKey<K>(keys: set<K>) returns (k: K)
    requires keys != {}
    ensures k in keys
  {
    k :| k in keys;
  }

  // ----- the store, updated in place -----

  class Database {
    var users: map<int, User>
    var resets: seq<ResetRow>
    var nextUserId: int
    var nextResetId: int

    function Snapshot(): Db
      reads this
    {
      Db(users, resets, nextUserId, nextResetId)
    }

    constructor ()
      ensures Snapshot() == Empty
    {
      users, resets, nextUserId, nextResetId := map[], [], 1, 1;
    }

    /** `User.findOne({ where: { email } })`: a scan of the table. */
    method FindUserByEmail(email: string) returns (u: Option<User>)
      ensures u.Some? ==> u.value in users.Values && u.value.email == email
      ensures u.None? <==> !EmailTaken(users, email)
      ensures EmailsUnique(users) ==> u == UserByEmail(users, email)
    {
      var keys := users.Keys;
      while keys != {}
        invariant keys <= users.Keys
        invariant forall k :: k in users.Keys - keys ==> users[k].email != email
        decreases keys
      {
        ghost var pick := SomeKey(keys);
        var k :| k in keys;
        if users[k].email == email {
          if EmailsUnique(users) {
            UserByEmailIsUnique(users, email, k);
          }
          return Some(users[k]);
        }
        keys := keys - {k};
      }
      u := None;
    }

    /** `PasswordReset.findOne({ where: { token } })`: a scan in primary-key order. */
    method FindResetByToken(token: string) returns (r: Option<ResetRow>)
      ensures r == FirstWithToken(resets, token)
    {
      var i := 0;
      while i < |resets|
        invariant 0 <= i <= |resets|
        invariant FirstWithToken(resets, token) == FirstWithToken(resets[i..], token)
      {
        if resets[i].token == token {
          return Some(resets[i]);
        }
        assert resets[i..][1..] == resets[i + 1..];
        i := i + 1;
      }
      r := None;
    }

    /** Deletes, in one pass, the reset rows that `keep` rejects. */
    method RemoveResetsWhere(keep: ResetRow -> bool)
      modifies this
      ensures resets == Filter(old(resets), keep)
      ensures users == old(users) && nextUserId == old(nextUserId) && nextResetId == old(nextResetId)
    {
      var kept: seq<ResetRow> := [];
      var i := 0;
      while i < |resets|
        invariant 0 <= i <= |resets|
        invariant kept == Filter(resets[..i], keep)
      {
        assert resets[..i + 1][..i] == resets[..i];
        if keep(resets[i]) {
          kept := kept + [resets[i]];
        }
        i := i + 1;
      }
      assert resets[..i] == resets;
      resets := kept;
    }

    /** The unique-index check of an update: does a user other than `id` have `email`? */
    method EmailUsedByOther(email: string, id: int) returns (taken: bool)
      ensures taken == EmailTakenByOther(users, email, id)
    {
      var keys := users.Keys - {id};
      while keys != {}
        invariant keys <= users.Keys - {id}
        invariant forall k :: k in users.Keys - {id} - keys ==> users[k].email != email
        decreases keys
      {
        ghost var pick := SomeKey(keys);
        var k :| k in keys;
        if users[k].email == email {
          return true;
        }
        keys := keys - {k};
      }
      taken := false;
    }

    /** The email scan finds the one holder only while emails are unique, as the unique index keeps them. */
    method CreateUser(input: UserInput) returns (r: Result<User, Error>)
      requires EmailsUnique(users)
      modifies this
      ensures (Snapshot(), r) == InsertUser(old(Snapshot()), input)
    {
      if Required(input) != [] {
        return Err(Error("SequelizeValidationError", "notNull Violation"));
      }
      var existing := FindUserByEmail(input.email.value);
      if existing.Some? {
        return Err(UniqueConstraint);
      }
      var u := NewUser(input, nextUserId);
      users := users[u.id := u];
      nextUserId := nextUserId + 1;
      r := Ok(u);
    }

    method UpdateUser(id: int, ch: UserChanges) returns (r: Result<User, Error>)
      requires id in users
      modifies this
      ensures (Snapshot(), r) == UpdateUserRow(old(Snapshot()), id, ch)
    {
      if ch.email.Some? {
        var taken := EmailUsedByOther(ch.email.value, id);
        if taken {
          return Err(UniqueConstraint);
        }
      }
      var v := Applied(users[id], ch);
      users := users[id := v];
      r := Ok(v);
    }

    method DestroyUser(id: int)
      modifies this
      ensures Snapshot() == DeleteUser(old(Snapshot()), id)
    {
      users := users - {id};
      RemoveResetsWhere((x: ResetRow) => x.userId != id);
    }

    method CreateReset(input: RowInput) returns (r: Result<ResetRow, Error>)
      modifies this
      ensures (Snapshot(), r) == InsertReset(old(Snapshot()), input)
    {
      var built := BuildRow(input, nextResetId);
      if built.Err? {
        return Err(built.error);
      }
      if built.value.userId !in users {
        return Err(ForeignKeyConstraint);
      }
      resets := resets + [built.value];
      nextResetId := nextResetId + 1;
      r := built;
    }

    method DestroyReset(rowId: int)
      modifies this
      ensures Snapshot() == DeleteReset(old(Snapshot()), rowId)
    {
      RemoveResetsWhere((x: ResetRow) => x.id != rowId);
    }

    method DestroyResetsOf(userId: int)
      modifies this
      ensures Snapshot() == DeleteResetsOf(old(Snapshot()), userId)
    {
      RemoveResetsWhere((x: ResetRow) => x.userId != userId);
    }
  }
}
