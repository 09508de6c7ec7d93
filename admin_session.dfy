/**
 * Reading the admin session cookie: locating the cookie in the header, checking the
 * decrypted payload and deciding whether the session is current. The AES-GCM sealing
 * itself is a parameter (`unseal`), as is `decodeURIComponent` (`decodeUri`).
 */
module AdminSession {
  import opened Wrappers
  import Js

  const ADMIN_SESSION_COOKIE_NAME := "admin_session"

  /** A `name=value` pair names the cookie when it has an '=' and its trimmed key is the name. */
  predicate NamesCookie(pair: string, name: string) {
    var separator := Js.IndexOf(pair, '=');
    separator != -1 && Js.Trim(pair[..separator]) == name
  }

  /** The text after the first '=', trimmed. */
  function RawValue(pair: string): string
    requires '=' in pair
  {
    Js.Trim(pair[Js.IndexOf(pair, '=') + 1..])
  }

  /** The first pair at or after `from` naming the cookie, or -1. */
  function FirstNaming(pairs: seq<string>, name: string, from: nat): (k: int)
    requires from <= |pairs|
    ensures k == -1 <==> forall j :: from <= j < |pairs| ==> !NamesCookie(pairs[j], name)
    ensures k != -1 ==> from <= k < |pairs| && NamesCookie(pairs[k], name)
                        && forall j :: from <= j < k ==> !NamesCookie(pairs[j], name)
    decreases |pairs| - from
  {
    if from == |pairs| then -1
    else if NamesCookie(pairs[from], name) then from
    else FirstNaming(pairs, name, from + 1)
  }

  /**
   * The value readCookieValue finds: null for a null or empty header and when no pair
   * names the cookie; otherwise the decoded raw value of the first pair that does.
   */
  function CookieValue(header: Option<string>, name: string, decodeUri: string -> Option<string>): (r: Option<string>)
    ensures header.None? || header.value == "" ==> r.None?
    ensures header.Some? && header.value != "" ==>
      var pairs := Js.Split(header.value, ';');
      var k := FirstNaming(pairs, name, 0);
      (k == -1 ==> r.None?) && (k != -1 ==> r == decodeUri(RawValue(pairs[k])))
  {
    if header.None? || header.value == "" then None
    else
      var pairs := Js.Split(header.value, ';');
      var k := FirstNaming(pairs, name, 0);
      if k == -1 then None else decodeUri(RawValue(pairs[k]))
  }

  /** readCookieValue: the loop over the ';'-separated pairs with its early return. */
  method ReadCookieValue(header: Option<string>, name: string, decodeUri: string -> Option<string>) returns (r: Option<string>)
    ensures r == CookieValue(header, name, decodeUri)
  {
    if header.None? || header.value == "" {
      return None;
    }
    var pairs := Js.Split(header.value, ';');
    var i := 0;
    while i < |pairs|
      invariant 0 <= i <= |pairs|
      invariant forall j :: 0 <= j < i ==> !NamesCookie(pairs[j], name)
    {
      var pair := pairs[i];
      var separator := Js.IndexOf(pair, '=');
      if separator == -1 {
        i := i + 1;
        continue;
      }
      var key := Js.Trim(pair[..separator]);
      if key != name {
        i := i + 1;
        continue;
      }
      var rawValue := Js.Trim(pair[separator + 1..]);
      assert NamesCookie(pairs[i], name);
      assert FirstNaming(pairs, name, 0) == i;
      return decodeUri(rawValue);
    }
    assert FirstNaming(pairs, name, 0) == -1;
    return None;
  }

  /** parseInteger: integer numbers, and non-blank strings that read as integers; otherwise null. */
  function ParseInteger(value: Js.Value, parse: string -> Js.Number): (r: Option<int>)
    ensures value.Num? ==> (r.Some? <==> Js.IsInteger(value.n)) && (r.Some? ==> r.value as real == value.n.r)
    ensures value.Str? ==> (r.Some? <==> Js.Trim(value.s) != "" && Js.IsInteger(parse(value.s)))
                           && (r.Some? ==> r.value as real == parse(value.s).r)
    ensures !value.Num? && !value.Str? ==> r.None?
  {
    match value
    case Num(n) => if Js.IsInteger(n) then Some(Js.IntOf(n)) else None
    case Str(s) =>
      if Js.Trim(s) != "" && Js.IsInteger(Js.ToNumber(value, parse)) then Some(Js.IntOf(Js.ToNumber(value, parse))) else None
    case _ => None
  }

  /**
   * isValidSessionPayload: an object whose `sub` is a non-empty string and whose `exp`
   * parses as an integer; a truthy `role_snapshot` must be "admin" and a truthy
   * `access_token` must be a string.
   */
  predicate IsValidSessionPayload(value: Js.Value, parse: string -> Js.Number) {
    if !Js.Truthy(value) || !Js.IsObject(value) then false
    else
      var sub := Js.Get(value, "sub");
      var role := Js.Get(value, "role_snapshot");
      var token := Js.Get(value, "access_token");
      if !sub.Str? || |sub.s| == 0 then false
      else if ParseInteger(Js.Get(value, "exp"), parse).None? then false
      else if Js.Truthy(role) && role != Js.Str("admin") then false
      else if Js.Truthy(token) && !token.Str? then false
      else true
  }

  /** The payload test in its declarative form. */
  lemma ValidPayloadIsAsDescribed(value: Js.Value, parse: string -> Js.Number)
    ensures IsValidSessionPayload(value, parse) <==>
      && value.Obj?
      && "sub" in value.props && value.props["sub"].Str? && value.props["sub"].s != ""
      && "exp" in value.props && ParseInteger(value.props["exp"], parse).Some?
      && ("role_snapshot" in value.props && Js.Truthy(value.props["role_snapshot"]) ==> value.props["role_snapshot"] == Js.Str("admin"))
      && ("access_token" in value.props && Js.Truthy(value.props["access_token"]) ==> value.props["access_token"].Str?)
  {
  }

  datatype AdminSessionPayload = AdminSessionPayload(sub: string, exp: int, roleSnapshot: Js.Value, accessToken: Js.Value)

  /**
   * decodeAdminSession after decryption and `JSON.parse` (both in `unseal`): an invalid
   * payload gives null, a valid one is copied with `exp` read as an integer.
   */
  function DecodeAdminSession(cookie: string, unseal: string -> Option<Js.Value>, parse: string -> Js.Number)
    : (r: Option<AdminSessionPayload>)
    ensures r.Some? <==> unseal(cookie).Some? && IsValidSessionPayload(unseal(cookie).value, parse)
    ensures r.Some? ==>
      var v := unseal(cookie).value;
      r.value.sub == Js.Get(v, "sub").s && Some(r.value.exp) == ParseInteger(Js.Get(v, "exp"), parse)
      && r.value.roleSnapshot == Js.Get(v, "role_snapshot") && r.value.accessToken == Js.Get(v, "access_token")
  {
    match unseal(cookie)
    case None => None
    case Some(v) =>
      if !IsValidSessionPayload(v, parse) then None
      else
        Some(AdminSessionPayload(Js.Get(v, "sub").s, ParseInteger(Js.Get(v, "exp"), parse).GetOr(0),
                                 Js.Get(v, "role_snapshot"), Js.Get(v, "access_token")))
  }

  datatype SessionCheck = SessionCheck(session: Option<AdminSessionPayload>, invalid: bool)

  /** `Math.floor(nowMs / 1000)`; Dafny's division by a positive number already rounds down. */
  function NowSeconds(nowMs: int): int {
    nowMs / 1000
  }

  /**
   * getAdminSessionFromRequest: no cookie (or an empty one) is "no session" and not
   * invalid; a cookie that does not decode, or whose session expired (exp <= now in
   * seconds), is invalid; otherwise the decoded session is returned.
   */
  method GetAdminSessionFromRequest(cookieHeader: Option<string>, decodeUri: string -> Option<string>,
                                    unseal: string -> Option<Js.Value>, parse: string -> Js.Number, nowMs: int)
    returns (r: SessionCheck)
    ensures var cookie := CookieValue(cookieHeader, ADMIN_SESSION_COOKIE_NAME, decodeUri);
      && (cookie.None? || cookie.value == "" ==> r == SessionCheck(None, false))
      && (cookie.Some? && cookie.value != "" ==>
            var session := DecodeAdminSession(cookie.value, unseal, parse);
            if session.None? || session.value.exp <= NowSeconds(nowMs) then r == SessionCheck(None, true)
            else r == SessionCheck(session, false))
  {
    var cookieValue := ReadCookieValue(cookieHeader, ADMIN_SESSION_COOKIE_NAME, decodeUri);
    if cookieValue.None? || cookieValue.value == "" {
      return SessionCheck(None, false);
    }
    var session := DecodeAdminSession(cookieValue.value, unseal, parse);
    if session.None? {
      return SessionCheck(None, true);
    }
    if session.value.exp <= NowSeconds(nowMs) {
      return SessionCheck(None, true);
    }
    r := SessionCheck(session, false);
  }
}
