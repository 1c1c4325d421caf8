/**
 * src/utils/validation.js: the Joi schemas for a user body and a login body,
 * validated with `abortEarly: false` so that every failing rule is reported.
 * Joi's `email()` format rule is the parameter `emailOk`.
 */
module Validation {
  import opened Results
  import Decimal
  import opened Http

  /** One entry of `error.details`: the key (`path[0]`), the error type and its message. */
  datatype Detail = Detail(key: string, kind: string, message: string)

  const EmailInvalid := "Geçerli bir email adresi giriniz"
  const EmailRequired := "Email adresi zorunludur"
  const PasswordTooShort := "Şifre en az 8 karakter olmalıdır"
  const PasswordWeak := "Şifre en az bir büyük harf ve bir rakam içermelidir"
  const PasswordRequired := "Şifre zorunludur"
  const FirstNameRequired := "Ad zorunludur"
  const LastNameRequired := "Soyad zorunludur"
  const RoleInvalid := "Rol sadece 'user' veya 'admin' olabilir"
  const MinPasswordLength := 8

  /** Joi's default `string.empty` message; the schemas do not override it. */
  function EmptyMessage(key: string): string
  {
    "\"" + key + "\" is not allowed to be empty"
  }

  /** Joi's default `object.unknown` message. */
  function UnknownMessage(key: string): string
  {
    "\"" + key + "\" is not allowed"
  }

  // ----- string length and the password pattern -----

  /** UTF-16 code units of one character: two for a character outside the Basic Multilingual Plane. */
  function CodeUnits(c: char): nat
  {
    if c as int >= 0x10000 then 2 else 1
  }

  /** JavaScript's `length` of a string, which `min(8)` compares with. */
  function JsLength(s: string): (n: nat)
    ensures |s| <= n <= 2 * |s|
    ensures (forall i :: 0 <= i < |s| ==> s[i] as int < 0x10000) ==> n == |s|
  {
    if s == [] then 0 else JsLength(s[..|s| - 1]) + CodeUnits(s[|s| - 1])
  }

  /** The characters `.` does not match in a regular expression without the `s` flag. */
  predicate IsLineTerminator(c: char)
  {
    c == '\n' || c == '\r' || c == '\U{2028}' || c == '\U{2029}'
  }

  predicate NoLineTerminator(s: string)
  {
    forall i :: 0 <= i < |s| ==> !IsLineTerminator(s[i])
  }

  /** The text before the first line terminator: all that `^(?=.*X)` can look at. */
  function FirstLine(s: string): (l: string)
    ensures |l| <= |s| && l == s[..|l|]
    ensures NoLineTerminator(l)
    ensures |l| < |s| ==> IsLineTerminator(s[|l|])
  {
    if s == [] || IsLineTerminator(s[0]) then [] else [s[0]] + FirstLine(s[1..])
  }

  predicate IsUpper(c: char) { 'A' <= c <= 'Z' }

  /** `/^(?=.*[A-Z])(?=.*\d)/`: an ASCII capital and an ASCII digit, both on the first line. */
  predicate MeetsPattern(s: string)
  {
    var l := FirstLine(s);
    (exists i :: 0 <= i < |l| && IsUpper(l[i])) && (exists i :: 0 <= i < |l| && Decimal.IsDigit(l[i]))
  }

  /** The same pattern read position by position: a capital and a digit, each with no line break before it. */
  predicate PatternByPositions(s: string)
  {
    (exists i :: 0 <= i < |s| && IsUpper(s[i]) && NoLineTerminator(s[..i + 1]))
    && (exists j :: 0 <= j < |s| && Decimal.IsDigit(s[j]) && NoLineTerminator(s[..j + 1]))
  }

  /** A position lies on the first line exactly when no line terminator precedes it. */
  lemma OnFirstLine(s: string, i: int)
    requires 0 <= i < |s|
    ensures i < |FirstLine(s)| <==> NoLineTerminator(s[..i + 1])
  {
    var l := FirstLine(s);
    if i < |l| {
      assert s[..i + 1] == l[..i + 1];
    } else {
      assert s[..i + 1][|l|] == s[|l|];
    }
  }

  lemma MeetsPatternByPositions(s: string)
    ensures MeetsPattern(s) <==> PatternByPositions(s)
  {
    var l := FirstLine(s);
    if MeetsPattern(s) {
      var i :| 0 <= i < |l| && IsUpper(l[i]);
      var j :| 0 <= j < |l| && Decimal.IsDigit(l[j]);
      OnFirstLine(s, i);
      OnFirstLine(s, j);
    }
    if PatternByPositions(s) {
      var i :| 0 <= i < |s| && IsUpper(s[i]) && NoLineTerminator(s[..i + 1]);
      var j :| 0 <= j < |s| && Decimal.IsDigit(s[j]) && NoLineTerminator(s[..j + 1]);
      OnFirstLine(s, i);
      OnFirstLine(s, j);
      assert l[i] == s[i] && l[j] == s[j];
    }
  }

  /** Whatever follows a line break is invisible to the pattern. */
  lemma {:induction false} LineBreakHidesRest(l: string, rest: string)
    requires NoLineTerminator(l)
    ensures FirstLine(l + "\n" + rest) == l
    ensures MeetsPattern(l + "\n" + rest) == MeetsPattern(l)
  {
    if l != [] {
      assert (l + "\n" + rest)[1..] == l[1..] + "\n" + rest;
      LineBreakHidesRest(l[1..], rest);
      assert [l[0]] + l[1..] == l;
    }
    assert FirstLine(l) == l by {
      FirstLineOfOneLine(l);
    }
  }

  lemma {:induction false} FirstLineOfOneLine(l: string)
    requires NoLineTerminator(l)
    ensures FirstLine(l) == l
  {
    if l != [] {
      FirstLineOfOneLine(l[1..]);
      assert [l[0]] + l[1..] == l;
    }
  }

  /** A password the registration schema accepts. */
  predicate PasswordAcceptable(s: string)
  {
    s != "" && JsLength(s) >= MinPasswordLength && MeetsPattern(s)
  }

  // ----- the registration schema -----

  /** `Joi.string().email().required()`: at most one detail, all about the email key. */
  function EmailDetails(v: Option<string>, emailOk: string -> bool): (r: seq<Detail>)
    ensures r == [] <==> v.Some? && v.value != "" && emailOk(v.value)
    ensures |r| <= 1 && forall i :: 0 <= i < |r| ==> r[i].key == "email"
  {
    match v
    case None => [Detail("email", "any.required", EmailRequired)]
    case Some(s) =>
      if s == "" then [Detail("email", "string.empty", EmptyMessage("email"))]
      else if !emailOk(s) then [Detail("email", "string.email", EmailInvalid)]
      else []
  }

  /** `min(8)` and then `pattern(...)`, both reported when both fail. */
  function PasswordDetails(v: Option<string>): (r: seq<Detail>)
    ensures v.Some? && v.value != "" ==>
      r == (if JsLength(v.value) < MinPasswordLength then [Detail("password", "string.min", PasswordTooShort)] else [])
           + (if MeetsPattern(v.value) then [] else [Detail("password", "string.pattern.base", PasswordWeak)])
  {
    match v
    case None => [Detail("password", "any.required", PasswordRequired)]
    case Some(s) =>
      if s == "" then [Detail("password", "string.empty", EmptyMessage("password"))]
      else
        (if JsLength(s) < MinPasswordLength then [Detail("password", "string.min", PasswordTooShort)] else [])
        + (if MeetsPattern(s) then [] else [Detail("password", "string.pattern.base", PasswordWeak)])
  }

  /** A required string with no other rule: firstName and lastName. */
  function NameDetails(key: string, v: Option<string>, requiredMessage: string): (r: seq<Detail>)
    ensures r == [] <==> v.Some? && v.value != ""
    ensures v.None? ==> r == [Detail(key, "any.required", requiredMessage)]
    ensures |r| <= 1 && forall i :: 0 <= i < |r| ==> r[i].key == key
  {
    match v
    case None => [Detail(key, "any.required", requiredMessage)]
    case Some(s) => if s == "" then [Detail(key, "string.empty", EmptyMessage(key))] else []
  }

  /**
   * `valid("user", "admin")`: an absent role is allowed and any other value is refused.
   * Joi checks the allowed values before the string base rule, so "" is refused twice:
   * first by `any.only`, then by `string.empty`.
   */
  function RoleDetails(v: Option<string>): (r: seq<Detail>)
    ensures r == [] <==> v.None? || v.value == "user" || v.value == "admin"
    ensures r != [] ==> r[0] == Detail("role", "any.only", RoleInvalid)
    ensures forall i :: 0 <= i < |r| ==> r[i].key == "role"
  {
    match v
    case None => []
    case Some(s) =>
      if s == "user" || s == "admin" then []
      else [Detail("role", "any.only", RoleInvalid)] + (if s == "" then [Detail("role", "string.empty", EmptyMessage("role"))] else [])
  }

  /** A body the registration schema accepts, stated field by field. */
  predicate AcceptableUser(b: UserBody, emailOk: string -> bool)
  {
    && b.email.Some? && b.email.value != "" && emailOk(b.email.value)
    && b.password.Some? && PasswordAcceptable(b.password.value)
    && b.firstName.Some? && b.firstName.value != ""
    && b.lastName.Some? && b.lastName.value != ""
    && (b.role.Some? ==> b.role.value == "user" || b.role.value == "admin")
  }

  /** Position of a key in the registration schema. */
  function KeyRank(key: string): nat
  {
    if key == "email" then 0
    else if key == "password" then 1
    else if key == "firstName" then 2
    else if key == "lastName" then 3
    else 4
  }

  /** `validateUser(data)`: the details of every failing rule, key by key in schema order. */
  function ValidateUser(b: UserBody, emailOk: string -> bool): (r: seq<Detail>)
    ensures r == [] <==> AcceptableUser(b, emailOk)
  {
    EmailDetails(b.email, emailOk) + PasswordDetails(b.password)
    + NameDetails("firstName", b.firstName, FirstNameRequired)
    + NameDetails("lastName", b.lastName, LastNameRequired)
    + RoleDetails(b.role)
  }

  /** Details listed key by key in schema order. */
  predicate InSchemaOrder(ds: seq<Detail>)
  {
    forall i, j :: 0 <= i < j < |ds| ==> KeyRank(ds[i].key) <= KeyRank(ds[j].key)
  }

  predicate RanksAtMost(ds: seq<Detail>, k: nat)
  {
    forall i :: 0 <= i < |ds| ==> KeyRank(ds[i].key) <= k
  }

  predicate AllOfRank(ds: seq<Detail>, k: nat)
  {
    forall i :: 0 <= i < |ds| ==> KeyRank(ds[i].key) == k
  }

  lemma AppendInOrder(a: seq<Detail>, b: seq<Detail>, k: nat)
    requires InSchemaOrder(a) && RanksAtMost(a, k) && AllOfRank(b, k)
    ensures InSchemaOrder(a + b) && RanksAtMost(a + b, k)
  {
    forall i, j | 0 <= i < j < |a + b| ensures KeyRank((a + b)[i].key) <= KeyRank((a + b)[j].key) {
      if j >= |a| {
        assert (a + b)[j] == b[j - |a|];
        if i >= |a| {
          assert (a + b)[i] == b[i - |a|];
        }
      }
    }
  }

  /** With `abortEarly: false` the details come key by key, in the order the schema declares the keys. */
  lemma DetailsInSchemaOrder(b: UserBody, emailOk: string -> bool)
    ensures InSchemaOrder(ValidateUser(b, emailOk))
  {
    var e := EmailDetails(b.email, emailOk);
    var p := PasswordDetails(b.password);
    var f := NameDetails("firstName", b.firstName, FirstNameRequired);
    var l := NameDetails("lastName", b.lastName, LastNameRequired);
    AppendInOrder([], e, 0);
    AppendInOrder(e, p, 1);
    AppendInOrder(e + p, f, 2);
    AppendInOrder(e + p + f, l, 3);
    AppendInOrder(e + p + f + l, RoleDetails(b.role), 4);
  }

  /** A required key that is missing is reported once, with its own message and no other rule. */
  lemma MissingKeysReportRequired(emailOk: string -> bool)
    ensures ValidateUser(UserBody(None, None, None, None, None), emailOk) ==
      [Detail("email", "any.required", EmailRequired), Detail("password", "any.required", PasswordRequired),
       Detail("firstName", "any.required", FirstNameRequired), Detail("lastName", "any.required", LastNameRequired)]
  {
  }

  /** "weak" is too short and has no capital or digit: the length message comes first, then the pattern message. */
  lemma WeakPasswordReportsBoth()
    ensures PasswordDetails(Some("weak")) ==
      [Detail("password", "string.min", PasswordTooShort), Detail("password", "string.pattern.base", PasswordWeak)]
  {
    assert JsLength("weak") == 4;
    assert FirstLine("weak") == "weak" by { FirstLineOfOneLine("weak"); }
    assert !MeetsPattern("weak");
  }

  /** An empty role gets the allowed-values message and then the empty-string message. */
  lemma EmptyRoleReportsBoth(b: UserBody, emailOk: string -> bool)
    requires b.role == Some("")
    ensures var r := ValidateUser(b, emailOk);
            |r| >= 2 && r[|r| - 2] == Detail("role", "any.only", RoleInvalid)
            && r[|r| - 1] == Detail("role", "string.empty", EmptyMessage("role"))
  {
  }

  /** Four characters outside the Basic Multilingual Plane already satisfy `min(8)`. */
  lemma AstralCharactersCountTwice(s: string)
    requires |s| == 4 && forall i :: 0 <= i < 4 ==> s[i] as int >= 0x10000
    ensures JsLength(s) == 8
  {
    assert s[..3][..2] == s[..2] && s[..2][..1] == s[..1] && s[..1][..0] == [];
    assert JsLength(s[..1]) == 2;
    assert JsLength(s[..2]) == 4;
    assert JsLength(s[..3]) == 6;
    assert s[..4] == s;
  }

  /** A capital and a digit after a line break do not satisfy the pattern when the first line has neither. */
  lemma SecondLineDoesNotCount(rest: string)
    ensures !PasswordAcceptable("abcdefgh\nA1" + rest)
  {
    assert "abcdefgh\nA1" + rest == "abcdefgh" + "\n" + ("A1" + rest);
    LineBreakHidesRest("abcdefgh", "A1" + rest);
    FirstLineOfOneLine("abcdefgh");
  }

  // ----- the login schema -----

  /** The login password: required and non-empty, with no policy. */
  function LoginPasswordDetails(v: Option<string>): (r: seq<Detail>)
    ensures r == [] <==> v.Some? && v.value != ""
    ensures forall i :: 0 <= i < |r| ==> r[i].key == "password" && r[i].kind != "string.min"
  {
    match v
    case None => [Detail("password", "any.required", PasswordRequired)]
    case Some(s) => if s == "" then [Detail("password", "string.empty", EmptyMessage("password"))] else []
  }

  /** Keys the login schema does not declare are refused after the declared ones are checked. */
  function UnknownKeyDetails(b: UserBody): (r: seq<Detail>)
    ensures r == [] <==> b.firstName.None? && b.lastName.None? && b.role.None?
    ensures forall i :: 0 <= i < |r| ==> r[i].kind == "object.unknown" && r[i].key in {"firstName", "lastName", "role"}
  {
    (if b.firstName.Some? then [Detail("firstName", "object.unknown", UnknownMessage("firstName"))] else [])
    + (if b.lastName.Some? then [Detail("lastName", "object.unknown", UnknownMessage("lastName"))] else [])
    + (if b.role.Some? then [Detail("role", "object.unknown", UnknownMessage("role"))] else [])
  }

  /** `validateLogin(data)`. */
  function ValidateLogin(b: UserBody, emailOk: string -> bool): (r: seq<Detail>)
    ensures r == [] <==> && b.email.Some? && b.email.value != "" && emailOk(b.email.value)
                         && b.password.Some? && b.password.value != ""
                         && b.firstName.None? && b.lastName.None? && b.role.None?
  {
    EmailDetails(b.email, emailOk) + LoginPasswordDetails(b.password) + UnknownKeyDetails(b)
  }

  /** Login applies no password policy: a password the registration schema refuses still passes. */
  lemma LoginHasNoPasswordPolicy(email: string, password: string, emailOk: string -> bool)
    requires email != "" && emailOk(email) && password != "" && !PasswordAcceptable(password)
    ensures ValidateLogin(UserBody(Some(email), Some(password), None, None, None), emailOk) == []
    ensures ValidateUser(UserBody(Some(email), Some(password), Some("A"), Some("B"), None), emailOk) != []
  {
  }
}
