/** The two request guards: `authenticateToken` turns the Authorization
    header into a verified payload, and `authorizeRoles` admits a payload
    whose role is in a list. */
module AuthMiddleware {
  import opened Common
  import opened Json
  import opened Text
  import opened Jwt

  /** What a guard does with the request: answer it with a status and an
      error message, or call `next` with `req.user` set. */
  datatype Gate = Reject(status: int, error: string) | Pass(user: JsonValue)

  /** `authHeader && authHeader.split(' ')[1]`, falsy (None) when the header
      is missing or empty or has no non-empty second word. */
  function ExtractToken(header: Option<string>): (t: Option<string>)
    ensures header.None? || header.value == "" ==> t.None?
    ensures t.Some? <==> header.Some? && header.value != "" && |Split(header.value, ' ')| >= 2
                         && Split(header.value, ' ')[1] != ""
    ensures t.Some? ==> t.value == Split(header.value, ' ')[1] && t.value != "" && ' ' !in t.value
  {
    if header.None? || header.value == "" then None
    else
      var words := Split(header.value, ' ');
      if |words| >= 2 && words[1] != "" then Some(words[1]) else None
  }

  /** The token is the second word whatever the first one is: the scheme is
      not checked, so `Bearer: x` yields `x` as `Bearer x` does. */
  lemma TokenIsSecondWord(scheme: string, token: string, rest: string)
    requires ' ' !in scheme && ' ' !in token && token != ""
    ensures ExtractToken(Some(scheme + " " + token)) == Some(token)
    ensures ExtractToken(Some(scheme + " " + token + " " + rest)) == Some(token)
  {
    SecondWordOfTwo(scheme, token);
    SecondWordOfMore(scheme, token, rest);
  }

  lemma SecondWordOfTwo(scheme: string, token: string)
    requires ' ' !in scheme && ' ' !in token && token != ""
    ensures ExtractToken(Some(scheme + " " + token)) == Some(token)
  {
    var h := scheme + [' '] + token;
    assert scheme + " " + token == h;
    var words := Split(h, ' ');
    SplitCons(scheme, ' ', token);
    SplitNoSep(token, ' ');
    assert words == [scheme, token];
  }

  lemma SecondWordOfMore(scheme: string, token: string, rest: string)
    requires ' ' !in scheme && ' ' !in token && token != ""
    ensures ExtractToken(Some(scheme + " " + token + " " + rest)) == Some(token)
  {
    var tail := token + [' '] + rest;
    var h := scheme + [' '] + tail;
    assert scheme + " " + token + " " + rest == h;
    var words := Split(h, ' ');
    SplitCons(scheme, ' ', tail);
    SplitCons(token, ' ', rest);
    assert words == [scheme] + ([token] + Split(rest, ' '));
    assert words[1] == token;
  }

  /** A header without a space has no token. */
  lemma OneWordHasNoToken(word: string)
    requires ' ' !in word
    ensures ExtractToken(Some(word)).None?
  {
    SplitNoSep(word, ' ');
  }

  /** `authenticateToken` with the secret and clock: 401 without a token,
      403 when verification yields a falsy payload, otherwise `next` with
      the payload; an exception of `verifyJwt` propagates. */
  function AuthenticateToken(p: Primitives, secret: string, header: Option<string>, now: Time): (r: Result<Gate>)
    ensures ExtractToken(header).None? ==> r == Ok(Reject(401, "Access token missing"))
    ensures ExtractToken(header).Some? ==>
              var v := VerifyJwt(p, secret, ExtractToken(header).value, now);
              && (v.Err? ==> r == Err(v.error))
              && (v.Ok? ==> (r == Ok(Reject(403, "Invalid or expired token")) <==> v.value.None? || !Truthy(v.value.value)))
              && (r.Ok? && r.value.Pass? ==> v == Ok(Some(r.value.user)) && Truthy(r.value.user))
  {
    match ExtractToken(header)
    case None => Ok(Reject(401, "Access token missing"))
    case Some(token) =>
      var payload :- VerifyJwt(p, secret, token, now);
      if payload.None? || !Truthy(payload.value) then Ok(Reject(403, "Invalid or expired token"))
      else Ok(Pass(payload.value))
  }

  /** `req.user.role`, when it is a string. */
  function RoleText(user: JsonValue): Option<string> {
    match Field(user, "role")
    case Some(JStr(s)) => Some(s)
    case _ => None
  }

  /** `authorizeRoles(...allowed)`: 401 without a user, 403 when the role is
      not among the allowed ones, otherwise `next`. */
  function AuthorizeRoles(user: Option<JsonValue>, allowed: seq<string>): (g: Gate)
    ensures user.None? || !Truthy(user.value) ==> g == Reject(401, "User not authenticated")
    ensures g.Pass? <==> user.Some? && Truthy(user.value) && RoleText(user.value).Some? && RoleText(user.value).value in allowed
    ensures g.Pass? ==> g.user == user.value
    ensures user.Some? && Truthy(user.value) && !g.Pass? ==> g == Reject(403, "Forbidden: insufficient permissions")
  {
    if user.None? || !Truthy(user.value) then Reject(401, "User not authenticated")
    else if RoleText(user.value).None? || RoleText(user.value).value !in allowed then
      Reject(403, "Forbidden: insufficient permissions")
    else Pass(user.value)
  }

  /** The role a handler sees in `req.user.role`. */
  function RoleOf(user: JsonValue): (r: Role)
    ensures r != OtherRole ==> RoleText(user) == Some(RoleName(r))
    ensures RoleText(user).Some? && RoleText(user).value in ["customer", "restaurant_owner", "admin"] ==> r != OtherRole
  {
    match RoleText(user)
    case Some(s) =>
      if s == "customer" then Customer
      else if s == "restaurant_owner" then RestaurantOwner
      else if s == "admin" then Admin
      else OtherRole
    case None => OtherRole
  }

  /** `req.user` as the handlers read it. A `user_id` that is not an
      integer is outside the model and read as 0. */
  function PrincipalOf(user: JsonValue): (u: Principal)
    ensures u.role == RoleOf(user)
    ensures Field(user, "user_id").Some? && IsInteger(Field(user, "user_id").value) ==>
              u.userId as real == Field(user, "user_id").value.n
  {
    var id := if Field(user, "user_id").Some? && IsInteger(Field(user, "user_id").value)
              then Field(user, "user_id").value.n.Floor else 0;
    Principal(id, RoleOf(user))
  }

  /** A header carrying a token that verifies to a truthy payload lets the
      request through with that payload. */
  lemma AuthenticatesVerified(p: Primitives, secret: string, scheme: string, token: string, now: Time, user: JsonValue)
    requires ' ' !in scheme && ' ' !in token && token != ""
    requires VerifyJwt(p, secret, token, now) == Ok(Some(user)) && Truthy(user)
    ensures AuthenticateToken(p, secret, Some(scheme + " " + token), now) == Ok(Pass(user))
  {
    TokenIsSecondWord(scheme, token, "");
  }

  /** A token from `createTokens` admits its holder, with the id and role it
      was issued for, for the hour it lasts. */
  lemma IssuedTokenAuthenticates(p: Primitives, secret: string, scheme: string, userId: int, role: string,
                                 now: Time, refreshToken: string, later: Time, token: string)
    requires Base64Laws(p) && JsonLaw(p) && ' ' !in scheme
    requires token == CreateTokens(p, secret, userId, role, now, refreshToken).accessToken
    requires -MaxSafeInteger <= userId <= MaxSafeInteger
    requires now >= 0 && now / 1000 + AccessTokenSec <= MaxSafeInteger
    requires now <= later < (now / 1000 + AccessTokenSec) * 1000
    ensures var g := AuthenticateToken(p, secret, Some(scheme + " " + token), later);
            && g.Ok? && g.value.Pass?
            && PrincipalOf(g.value.user).userId == userId
            && RoleText(g.value.user) == Some(role)
  {
    NoSpace(p, secret, AccessClaims(userId, role), AccessTokenSec, now);
    AccessTokenLastsAnHour(p, secret, userId, role, now, refreshToken, later);
    var user := WithExp(AccessClaims(userId, role), now / 1000 + AccessTokenSec);
    AuthenticatesVerified(p, secret, scheme, token, later, user);
    ClaimsRead(userId, role, now / 1000 + AccessTokenSec);
  }

  /** The handlers read back the id and the role a token was issued for. */
  lemma ClaimsRead(userId: int, role: string, exp: int)
    ensures PrincipalOf(WithExp(AccessClaims(userId, role), exp)).userId == userId
    ensures RoleText(WithExp(AccessClaims(userId, role), exp)) == Some(role)
  {
    var user := WithExp(AccessClaims(userId, role), exp);
    assert Field(user, "user_id") == Some(JNum(userId as real));
    assert Field(user, "role") == Some(JStr(role));
  }

  /** A signed token is non-empty and contains no space. */
  lemma NoSpace(p: Primitives, secret: string, payload: map<string, JsonValue>, expiresInSec: int, now: Time)
    requires Base64Laws(p)
    ensures ' ' !in SignJwt(p, secret, payload, expiresInSec, now)
    ensures SignJwt(p, secret, payload, expiresInSec, now) != ""
  {
    var hj := p.stringify(HeaderJson());
    var pj := p.stringify(WithExp(payload, ExpiryAt(now, expiresInSec)));
    var h, pl := Base64UrlEncode(p, hj), Base64UrlEncode(p, pj);
    SignedIsJoin(p, secret, payload, expiresInSec, now);
    assert StandardBase64(p.base64(hj)) && StandardBase64(p.base64(pj)) && StandardBase64(p.hmac(secret, h + "." + pl));
    NoSpaceFrom(p.base64(hj), p.base64(pj), p.hmac(secret, h + "." + pl));
  }

  /** Three base64url texts joined by dots hold no space. */
  lemma NoSpaceFrom(b1: string, b2: string, b3: string)
    requires StandardBase64(b1) && StandardBase64(b2) && StandardBase64(b3)
    ensures var t := Join([UrlEncodeText(b1), UrlEncodeText(b2), UrlEncodeText(b3)], '.');
            ' ' !in t && t != ""
  {
    UrlTextAvoids(b1, ' ');
    UrlTextAvoids(b2, ' ');
    UrlTextAvoids(b3, ' ');
    JoinedNoSpace(UrlEncodeText(b1), UrlEncodeText(b2), UrlEncodeText(b3));
  }

  /** A signed token is its three segments joined by dots. */
  lemma SignedIsJoin(p: Primitives, secret: string, payload: map<string, JsonValue>, expiresInSec: int, now: Time)
    ensures var h := Base64UrlEncode(p, p.stringify(HeaderJson()));
            var pl := Base64UrlEncode(p, p.stringify(WithExp(payload, ExpiryAt(now, expiresInSec))));
            SignJwt(p, secret, payload, expiresInSec, now) == Join([h, pl, Signature(p, secret, h, pl)], '.')
  {
  }

  /** Three space-free segments joined by dots hold no space. */
  lemma JoinedNoSpace(h: string, pl: string, sig: string)
    requires ' ' !in h && ' ' !in pl && ' ' !in sig
    ensures ' ' !in Join([h, pl, sig], '.') && Join([h, pl, sig], '.') != ""
  {
    var parts := [h, pl, sig];
    JoinAvoids(parts, '.', ' ');
    assert parts[1..] == [parts[1], parts[2]];
    assert |Join(parts, '.')| > 0;
  }

  lemma SegmentNoSpace(p: Primitives, text: string)
    requires Base64Laws(p)
    ensures ' ' !in Base64UrlEncode(p, text)
  {
    UrlTextAvoids(p.base64(text), ' ');
  }
}
