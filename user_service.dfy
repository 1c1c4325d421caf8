/**
 * src/services/userService.js: reading, updating and deleting users by the id
 * taken from the request path, and the access rule for a user's own record.
 */
module UserService {
  import opened Results
  import opened Errors
  import opened Decimal
  import opened PasswordReset
  import opened Store
  import opened Helpers
  import Jwt


  // ----- parseInt -----

  /** The characters `parseInt` skips before the number: JavaScript white space and line terminators. */
  predicate IsJsSpace(c: char)
  {
    || c == ' ' || c == '\t' || c == '\n' || c == '\U{000B}' || c == '\U{000C}' || c == '\r'
    || c == '\U{00A0}' || c == '\U{1680}' || '\U{2000}' <= c <= '\U{200A}'
    || c == '\U{2028}' || c == '\U{2029}' || c == '\U{202F}' || c == '\U{205F}' || c == '\U{3000}'
    || c == '\U{FEFF}'
  }

  /** `s` without its leading white space. */
  function TrimStart(s: string): (t: string)
    ensures |t| <= |s| && t == s[|s| - |t|..]
    ensures t != [] ==> !IsJsSpace(t[0])
    ensures forall i :: 0 <= i < |s| - |t| ==> IsJsSpace(s[i])
  {
    if s != [] && IsJsSpace(s[0]) then
      var t := TrimStart(s[1..]);
      assert s[1..][|s| - 1 - |t|..] == s[|s| - |t|..];
      assert forall i :: 1 <= i < |s| - |t| ==> s[i] == s[1..][i - 1];
      t
    else s
  }

  function Signed(negative: bool, n: nat): int
  {
    if negative then 0 - n else n
  }

  /** The number after the sign: `0x` then hexadecimal digits, or decimal digits; `None` when no digit follows. */
  function ParseUnsigned(u: string): (r: Option<nat>)
    ensures r.None? <==> if |u| >= 2 && u[0] == '0' && (u[1] == 'x' || u[1] == 'X')
                         then u[2..] == [] || !IsHexDigit(u[2])
                         else u == [] || !IsDigit(u[0])
  {
    if |u| >= 2 && u[0] == '0' && (u[1] == 'x' || u[1] == 'X') then
      var k := HexPrefixLength(u[2..]);
      if k == 0 then None else Some(HexValue(u[2..][..k]))
    else
      var k := DigitPrefixLength(u);
      if k == 0 then None else Some(Value(u[..k]))
  }

  /** `parseInt(s)` with no radix: leading white space, a sign, then the number; `None` is `NaN`. */
  function ParseInt(s: string): (r: Option<int>)
    ensures r.None? <==> ParseUnsigned(Unsigned(TrimStart(s))).None?
  {
    var t := TrimStart(s);
    var negative := t != [] && t[0] == '-';
    match ParseUnsigned(Unsigned(t))
    case None => None
    case Some(v) => Some(Signed(negative, v))
  }

  /** `t` without its sign. */
  function Unsigned(t: string): string
  {
    if t != [] && (t[0] == '-' || t[0] == '+') then t[1..] else t
  }

  /** The decimal numeral of a non-negative id parses back to that id, also with trailing text that does not continue the number. */
  lemma ParseIntOfNumeral(n: nat, rest: string)
    requires rest == [] || (!IsDigit(rest[0]) && rest[0] != 'x' && rest[0] != 'X')
    ensures ParseInt(Numeral(n) + rest) == Some(n)
  {
    var s := Numeral(n) + rest;
    var c := s[0];
    assert IsDigit(c) by {
      assert c == Numeral(n)[0];
    }
    assert !IsJsSpace(c);
    assert TrimStart(s) == s;
    assert Unsigned(s) == s;
    ParseUnsignedOfNumeral(n, rest);
  }

  lemma ParseUnsignedOfNumeral(n: nat, rest: string)
    requires rest == [] || (!IsDigit(rest[0]) && rest[0] != 'x' && rest[0] != 'X')
    ensures ParseUnsigned(Numeral(n) + rest) == Some(n)
  {
    var d := Numeral(n);
    var s := d + rest;
    assert !(|s| >= 2 && s[0] == '0' && (s[1] == 'x' || s[1] == 'X')) by {
      if |s| >= 2 && s[0] == '0' {
        NumeralLeadingZero(n);
        assert s[1] == rest[0];
      }
    }
    PrefixOfDigitsThenOther(d, rest);
    assert s[..|d|] == d;
    ValueOfNumeral(n);
  }

  lemma {:induction false} PrefixOfDigitsThenOther(d: string, rest: string)
    requires AllDigits(d) && (rest == [] || !IsDigit(rest[0]))
    ensures DigitPrefixLength(d + rest) == |d|
  {
    if d != [] {
      assert (d + rest)[1..] == d[1..] + rest;
      PrefixOfDigitsThenOther(d[1..], rest);
    }
  }

  /** Only the numeral of zero starts with the digit zero. */
  lemma NumeralLeadingZero(n: nat)
    requires Numeral(n)[0] == '0'
    ensures n == 0 && Numeral(n) == "0"
  {
    if n > 0 {
      NumeralPositiveLead(n);
    }
  }

  lemma {:induction false} NumeralPositiveLead(n: nat)
    requires n > 0
    ensures Numeral(n)[0] != '0'
  {
    if n >= 10 {
      NumeralPositiveLead(n / 10);
      assert Numeral(n)[0] == Numeral(n / 10)[0];
    } else {
      assert Numeral(n) == [DigitChar(n)];
    }
  }

  // ----- access -----

  /** `canAccessUser(requestUser, targetUserId)`: an admin, or a caller whose `id` claim equals `parseInt(target)`. */
  predicate CanAccessUser(claims: Jwt.Payload, target: string)
  {
    claims.role == "admin" || (claims.Session? && ParseInt(target) == Some(claims.id))
  }

  /** A target that is not a number admits admins only. */
  lemma NaNAdmitsOnlyAdmins(claims: Jwt.Payload, target: string)
    requires ParseUnsigned(Unsigned(TrimStart(target))).None?
    ensures CanAccessUser(claims, target) <==> claims.role == "admin"
  {
  }

  /** A non-admin reaches exactly the record whose id it carries, however the path spells that id. */
  lemma OwnRecordOnly(id: int, email: string, role: string, target: string)
    requires role != "admin"
    ensures CanAccessUser(Jwt.Session(id, email, role), target) <==> ParseInt(target) == Some(id)
    ensures id >= 0 ==> CanAccessUser(Jwt.Session(id, email, role), Numeral(id))
  {
    if id >= 0 {
      ParseIntOfNumeral(id, "");
      assert Numeral(id) + "" == Numeral(id);
    }
  }

  /** A token with `userId` instead of `id`, as src/auth.js issues, grants ownership of nothing. */
  lemma LegacyClaimsOwnNothing(userId: int, role: string, target: string)
    requires role != "admin"
    ensures !CanAccessUser(Jwt.Legacy(userId, role), target)
  {
  }

  // ----- lookups by path id -----

  /** How MySQL reads the path id when comparing it with the integer key: leading spaces, a sign, then the digits up to the first non-digit (none: zero). */
  function PrimaryKey(param: string): (k: int)
  {
    var t := SqlTrim(param);
    var negative := t != [] && t[0] == '-';
    var u := Unsigned(t);
    Signed(negative, Value(u[..DigitPrefixLength(u)]))
  }

  function SqlTrim(s: string): (t: string)
    ensures |t| <= |s|
    ensures t != [] ==> !IsSqlSpace(t[0])
  {
    if s != [] && IsSqlSpace(s[0]) then SqlTrim(s[1..]) else s
  }

  /** The numeral of an id finds that id. */
  lemma PrimaryKeyOfNumeral(n: nat)
    ensures PrimaryKey(Numeral(n)) == n
  {
    var s := Numeral(n);
    ValueOfNumeral(n);
    DigitPrefixOfDigits(s);
    assert SqlTrim(s) == s;
    assert s[..|s|] == s;
  }

  predicate IsSqlSpace(c: char)
  {
    c == ' ' || c == '\t' || c == '\n' || c == '\r' || c == '\U{000B}' || c == '\U{000C}'
  }

  /** MySQL skips fewer leading characters than `parseInt`, and every one of them is one `parseInt` skips too. */
  lemma {:induction false} TrimsAgree(s: string)
    ensures TrimStart(s) == TrimStart(SqlTrim(s))
  {
    if s != [] && IsSqlSpace(s[0]) {
      TrimsAgree(s[1..]);
    }
  }

  /** After the sign, the decimal digits MySQL reads give the number `parseInt` reads, or zero before an `0x`. */
  lemma DigitsAgree(u: string)
    requires ParseUnsigned(u).Some?
    ensures Value(u[..DigitPrefixLength(u)]) == ParseUnsigned(u).value || Value(u[..DigitPrefixLength(u)]) == 0
  {
    if |u| >= 2 && u[0] == '0' && (u[1] == 'x' || u[1] == 'X') {
      assert DigitPrefixLength(u) == 1;
      assert u[..1] == "0";
      assert "0"[..0] == [];
    }
  }

  /** A leading character that only JavaScript treats as space makes MySQL read zero. */
  lemma OnlyJsSpaceReadsZero(param: string)
    requires SqlTrim(param) != [] && IsJsSpace(SqlTrim(param)[0])
    ensures PrimaryKey(param) == 0
  {
    var t := SqlTrim(param);
    assert Unsigned(t) == t;
    assert t[..0] == [];
  }

  /** When MySQL stops skipping where `parseInt` does, both read the same sign and digits. */
  lemma SameStartAgrees(param: string)
    requires ParseInt(param).Some?
    requires TrimStart(param) == SqlTrim(param)
    ensures PrimaryKey(param) == ParseInt(param).value || PrimaryKey(param) == 0
  {
    var t := SqlTrim(param);
    var u := Unsigned(t);
    DigitsAgree(u);
  }

  /** Where `parseInt` finds a number in the path id, MySQL finds the same one or zero; so the access check and the lookup never name two different positive ids. */
  lemma LookupAgreesWithAccessCheck(param: string)
    requires ParseInt(param).Some?
    ensures PrimaryKey(param) == ParseInt(param).value || PrimaryKey(param) == 0
  {
    var t := SqlTrim(param);
    if t != [] && IsJsSpace(t[0]) {
      OnlyJsSpaceReadsZero(param);
    } else {
      TrimsAgree(param);
      assert TrimStart(t) == t;
      SameStartAgrees(param);
    }
  }

  /** The public projection of a stored user: id, email, names and role. */
  function Projection(u: User): (j: UserJson)
    ensures j.password.None? && j.id == u.id && j.email == u.email && j.role == u.role
    ensures j.firstName == u.firstName && j.lastName == u.lastName
  {
    SanitizeUser(Json(u))
  }

  /** `getAllUsers()`: every stored user, projected; no password appears. */
  function GetAllUsers(db: Db): (r: set<UserJson>)
    ensures forall j :: j in r ==> j.password.None?
    ensures forall k :: k in db.users ==> Projection(db.users[k]) in r
    ensures forall j :: j in r ==> exists k :: k in db.users && j == Projection(db.users[k])
  {
    set k | k in db.users :: Projection(db.users[k])
  }

  /** `getUserById(id)`: the projected user, or "Kullanıcı bulunamadı". */
  function GetUserById(db: Db, param: string): (r: Result<UserJson, Error>)
    ensures r.Ok? <==> PrimaryKey(param) in db.users
    ensures r.Ok? ==> r.value == Projection(db.users[PrimaryKey(param)])
    ensures r.Err? ==> r.error == Thrown(UserNotFound)
  {
    var key := PrimaryKey(param);
    if key in db.users then Ok(Projection(db.users[key])) else Err(Thrown(UserNotFound))
  }

  /** `updateUser(id, userData)`: the update applied to the stored row, answered with its projection. */
  ghost function UpdateUserSpec(db: Db, param: string, ch: UserChanges): (r: (Db, Result<UserJson, Error>))
    ensures r.1.Err? ==> r.0 == db
    ensures PrimaryKey(param) !in db.users ==> r.1 == Err(Thrown(UserNotFound))
    ensures r.1.Ok? ==> var key := PrimaryKey(param);
              && key in db.users
              && r.0 == db.(users := db.users[key := Applied(db.users[key], ch)])
              && r.1.value == Projection(Applied(db.users[key], ch))
  {
    var key := PrimaryKey(param);
    if key !in db.users then (db, Err(Thrown(UserNotFound)))
    else
      var (d, res) := UpdateUserRow(db, key, ch);
      match res
      case Err(e) => (d, Err(e))
      case Ok(v) => (d, Ok(Projection(v)))
  }

  /** `deleteUser(id)`: the row goes, with its reset rows. */
  ghost function DeleteUserSpec(db: Db, param: string): (r: (Db, Option<Error>))
    ensures r.1.Some? <==> PrimaryKey(param) !in db.users
    ensures r.1.Some? ==> r.0 == db && r.1.value == Thrown(UserNotFound)
    ensures r.1.None? ==> r.0 == DeleteUser(db, PrimaryKey(param))
  {
    var key := PrimaryKey(param);
    if key !in db.users then (db, Some(Thrown(UserNotFound))) else (DeleteUser(db, key), None)
  }

  /** An update that does not change the email is never refused, and touches no other user. */
  lemma UpdateTouchesOnlyTarget(db: Db, param: string, ch: UserChanges, other: int)
    requires PrimaryKey(param) in db.users && ch.email.None?
    requires other in db.users && other != PrimaryKey(param)
    ensures UpdateUserSpec(db, param, ch).1.Ok?
    ensures UpdateUserSpec(db, param, ch).0.users[other] == db.users[other]
    ensures UpdateUserSpec(db, param, ch).0.resets == db.resets
  {
  }

  /** Deleting removes exactly the target: every other user stays as it was, and none of the target's reset rows survive. */
  lemma DeleteRemovesExactlyTarget(db: Db, param: string)
    requires Valid(db) && PrimaryKey(param) in db.users
    ensures var d := DeleteUserSpec(db, param).0;
            && d.users.Keys == db.users.Keys - {PrimaryKey(param)}
            && (forall k :: k in d.users ==> d.users[k] == db.users[k])
            && RowsOf(d.resets, PrimaryKey(param)) == 0
            && Valid(d)
  {
    DeleteUserCascades(db, PrimaryKey(param));
    DeleteUserPreservesValid(db, PrimaryKey(param));
  }

  method UpdateUser(db: Database, param: string, ch: UserChanges) returns (r: Result<UserJson, Error>)
    requires Valid(db.Snapshot())
    modifies db
    ensures (db.Snapshot(), r) == UpdateUserSpec(old(db.Snapshot()), param, ch)
    ensures Valid(db.Snapshot())
  {
    var key := PrimaryKey(param);
    if key !in db.users {
      return Err(Thrown(UserNotFound));
    }
    UserStepsPreserveValid(db.Snapshot(), UserInput(None, None, None, None, None), key, ch);
    var updated := db.UpdateUser(key, ch);
    if updated.Err? {
      return Err(updated.error);
    }
    r := Ok(Projection(updated.value));
  }

  method DeleteUserById(db: Database, param: string) returns (r: Option<Error>)
    requires Valid(db.Snapshot())
    modifies db
    ensures (db.Snapshot(), r) == DeleteUserSpec(old(db.Snapshot()), param)
    ensures Valid(db.Snapshot())
  {
    var key := PrimaryKey(param);
    if key !in db.users {
      return Some(Thrown(UserNotFound));
    }
    DeleteUserPreservesValid(db.Snapshot(), key);
    db.DestroyUser(key);
    r := None;
  }
}
