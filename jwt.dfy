/**
 * Stand-in for `jsonwebtoken`. A signed token is a real string so that the
 * Authorization-header parsing can be stated on it: every field is a natural
 * number written in decimal and terminated by '.'. The HMAC is replaced by a
 * transparent tag that records the key; what the model keeps is which key
 * verifies a token and when it expires, not secrecy.
 */
module Jwt {
  import opened Results
  import opened Decimal
  import opened Strings

  /** The two claim shapes the repository signs. */
  datatype Payload =
    | Session(id: int, email: string, role: string)  // helpers.js and authService.js
    | Legacy(userId: int, role: string)              // auth.js

  /** A decoded token: its payload plus the registered `iat` and `exp` claims (seconds). */
  datatype Claims = Claims(payload: Payload, iat: int, exp: int)

  datatype JwtError = Malformed | InvalidSignature | Expired

  /** `expiresIn: "24h"`. */
  const DaySeconds := 86400

  /** `Math.floor(Date.now() / 1000)`; Dafny's division by a positive divisor is floor division. */
  function Seconds(nowMs: int): int { nowMs / 1000 }

  // ----- numbers and strings as fields -----

  /** Zig-zag coding of an integer as a natural number. */
  function Zig(n: int): nat { if n >= 0 then 2 * n else -2 * n - 1 }

  function Unzig(k: nat): int { if k % 2 == 0 then k / 2 else -((k + 1) / 2) }

  lemma UnzigZig(n: int)
    ensures Unzig(Zig(n)) == n
  {
  }

  predicate IsScalar(k: nat) { k < 0xD800 || 0xE000 <= k < 0x11_0000 }

  predicate AllScalar(ks: seq<nat>) { forall i :: 0 <= i < |ks| ==> IsScalar(ks[i]) }

  function Codes(s: string): (ks: seq<nat>)
    ensures |ks| == |s| && AllScalar(ks)
  {
    if s == [] then [] else [s[0] as int] + Codes(s[1..])
  }

  function Chars(ks: seq<nat>): (s: string)
    requires AllScalar(ks)
    ensures |s| == |ks|
  {
    if ks == [] then [] else [ks[0] as char] + Chars(ks[1..])
  }

  lemma {:induction false} CharsOfCodes(s: string)
    ensures Chars(Codes(s)) == s
  {
    if s != [] {
      CharsOfCodes(s[1..]);
    }
  }

  function StrFields(s: string): seq<nat> { [|s|] + Codes(s) }

  function ParseStr(fs: seq<nat>): Option<(string, seq<nat>)>
  {
    if |fs| == 0 || |fs| < 1 + fs[0] then None
    else
      var codes := fs[1..1 + fs[0]];
      if !AllScalar(codes) then None else Some((Chars(codes), fs[1 + fs[0]..]))
  }

  lemma ParseStrFields(s: string, tail: seq<nat>)
    ensures ParseStr(StrFields(s) + tail) == Some((s, tail))
  {
    var fs := StrFields(s) + tail;
    assert fs[1..1 + |s|] == Codes(s);
    assert fs[1 + |s|..] == tail;
    CharsOfCodes(s);
  }

  // ----- claims as fields -----

  function ClaimFields(c: Claims): seq<nat>
  {
    var head := match c.payload
      case Session(id, email, role) => [0, Zig(id)] + StrFields(email) + StrFields(role)
      case Legacy(userId, role) => [1, Zig(userId)] + StrFields(role);
    head + [Zig(c.iat), Zig(c.exp)]
  }

  function ParseTimes(p: Payload, fs: seq<nat>): Option<(Claims, seq<nat>)>
  {
    if |fs| < 2 then None else Some((Claims(p, Unzig(fs[0]), Unzig(fs[1])), fs[2..]))
  }

  function ParseClaims(fs: seq<nat>): Option<(Claims, seq<nat>)>
  {
    if |fs| < 2 then None
    else
      var id := Unzig(fs[1]);
      if fs[0] == 0 then
        match ParseStr(fs[2..])
        case None => None
        case Some((email, r1)) =>
          match ParseStr(r1)
          case None => None
          case Some((role, r2)) => ParseTimes(Session(id, email, role), r2)
      else if fs[0] == 1 then
        match ParseStr(fs[2..])
        case None => None
        case Some((role, r1)) => ParseTimes(Legacy(id, role), r1)
      else None
  }

  lemma ParseClaimFields(c: Claims, tail: seq<nat>)
    ensures ParseClaims(ClaimFields(c) + tail) == Some((c, tail))
  {
    var times := [Zig(c.iat), Zig(c.exp)] + tail;
    UnzigZig(c.iat);
    UnzigZig(c.exp);
    match c.payload
    case Session(id, email, role) =>
      var fs := ClaimFields(c) + tail;
      assert fs == [0, Zig(id)] + (StrFields(email) + (StrFields(role) + times));
      assert fs[2..] == StrFields(email) + (StrFields(role) + times);
      UnzigZig(id);
      ParseStrFields(email, StrFields(role) + times);
      ParseStrFields(role, times);
      assert times[2..] == tail;
    case Legacy(userId, role) =>
      var fs := ClaimFields(c) + tail;
      assert fs == [1, Zig(userId)] + (StrFields(role) + times);
      assert fs[2..] == StrFields(role) + times;
      UnzigZig(userId);
      ParseStrFields(role, times);
      assert times[2..] == tail;
  }

  // ----- fields as text -----

  /** Each field as its decimal numeral followed by '.'. */
  function Text(fs: seq<nat>): string
  {
    if fs == [] then [] else Numeral(fs[0]) + "." + Text(fs[1..])
  }

  function Fields(s: string): Option<seq<nat>>
    decreases |s|
  {
    if s == [] then Some([])
    else match IndexOf(s, '.')
      case None => None
      case Some(i) =>
        var d := s[..i];
        if d == [] || !AllDigits(d) then None
        else match Fields(s[i + 1..])
          case None => None
          case Some(rest) => Some([Value(d)] + rest)
  }

  lemma {:induction false} FieldsOfText(fs: seq<nat>)
    ensures Fields(Text(fs)) == Some(fs)
  {
    if fs != [] {
      var d := Numeral(fs[0]);
      var s := Text(fs);
      assert '.' !in d by {
        forall i | 0 <= i < |d| ensures d[i] != '.' { assert IsDigit(d[i]); }
      }
      assert s == d + ['.'] + Text(fs[1..]);
      IndexOfAfter(d, '.', Text(fs[1..]));
      assert s[..|d|] == d;
      assert s[|d| + 1..] == Text(fs[1..]);
      ValueOfNumeral(fs[0]);
      FieldsOfText(fs[1..]);
      assert [fs[0]] + fs[1..] == fs;
    }
  }

  lemma {:induction false} TextHasNoSpace(fs: seq<nat>)
    ensures ' ' !in Text(fs)
  {
    if fs != [] {
      var d := Numeral(fs[0]);
      assert forall i :: 0 <= i < |d| ==> IsDigit(d[i]);
      TextHasNoSpace(fs[1..]);
    }
  }

  // ----- sign and verify -----

  /** Stand-in for the HMAC: a tag from which only the key can be recovered. */
  function Tag(key: string): seq<nat> { StrFields(key) }

  /** `jwt.sign(payload, key, { expiresIn: "24h" })` at time `nowMs`. */
  function Sign(p: Payload, key: string, nowMs: int): string
  {
    var iat := Seconds(nowMs);
    Text(ClaimFields(Claims(p, iat, iat + DaySeconds)) + Tag(key))
  }

  /** The claims and the signature tag carried by a token, if it is well formed. */
  function Decode(token: string): Option<(Claims, seq<nat>)>
  {
    match Fields(token)
    case None => None
    case Some(fs) => ParseClaims(fs)
  }

  lemma DecodeSigned(c: Claims, key: string)
    ensures Decode(Text(ClaimFields(c) + Tag(key))) == Some((c, Tag(key)))
  {
    FieldsOfText(ClaimFields(c) + Tag(key));
    ParseClaimFields(c, Tag(key));
  }

  /**
   * `jwt.verify(token, key)` at time `nowMs`: decode, then check the
   * signature, then the expiry (`clock >= exp` is expired).
   */
  function Verify(token: string, key: string, nowMs: int): (r: Result<Claims, JwtError>)
    ensures r.Ok? ==> Seconds(nowMs) < r.value.exp
  {
    match Decode(token)
    case None => Err(Malformed)
    case Some((c, tag)) =>
      if tag != Tag(key) then Err(InvalidSignature)
      else if Seconds(nowMs) >= c.exp then Err(Expired)
      else Ok(c)
  }

  /** Signing with a key and verifying with the same key gives back the claims until 24h have passed. */
  lemma VerifySign(p: Payload, key: string, signedAt: int, nowMs: int)
    ensures var iat := Seconds(signedAt);
            Verify(Sign(p, key, signedAt), key, nowMs) ==
              if Seconds(nowMs) < iat + DaySeconds then Ok(Claims(p, iat, iat + DaySeconds))
              else Err(Expired)
  {
    var iat := Seconds(signedAt);
    DecodeSigned(Claims(p, iat, iat + DaySeconds), key);
  }

  /** A token never verifies under a key other than the one that signed it. */
  lemma VerifyOtherKey(p: Payload, key: string, other: string, signedAt: int, nowMs: int)
    requires other != key
    ensures Verify(Sign(p, key, signedAt), other, nowMs) == Err(InvalidSignature)
  {
    var iat := Seconds(signedAt);
    DecodeSigned(Claims(p, iat, iat + DaySeconds), key);
    assert Tag(key) + [] == Tag(key);
    assert Tag(other) + [] == Tag(other);
    ParseStrFields(key, []);
    ParseStrFields(other, []);
  }

  /** Signed tokens contain no space, so they survive the header split on ' '. */
  lemma SignedTokenHasNoSpace(p: Payload, key: string, nowMs: int)
    ensures ' ' !in Sign(p, key, nowMs) && Sign(p, key, nowMs) != ""
  {
    var iat := Seconds(nowMs);
    TextHasNoSpace(ClaimFields(Claims(p, iat, iat + DaySeconds)) + Tag(key));
  }
}
