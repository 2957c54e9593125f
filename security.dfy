/** app/utils/security.py: building and checking the claims of access and
    refresh tokens, the current-user guards and the mock credential check.
    Password hashing (bcrypt) is not part of this model. */
module Security {
  import opened Wrappers
  import opened Jwt
  import opened Config
  import opened Schemas

  const AccessKind: string := "access"
  const RefreshKind: string := "refresh"

  /** The payload `verify_token` hands back (`TokenData`). */
  datatype TokenData = TokenData(email: string)

  /** Default lifetimes in seconds. */
  function AccessTtl(settings: Settings): int { 60 * settings.accessTokenExpireMinutes }
  function RefreshTtl(settings: Settings): int { 24 * 60 * 60 * settings.refreshTokenExpireDays }

  /** The expiry instant: `now + expires_delta` when the delta is truthy, and
      `now + fallback` when it is `None` or zero (a zero `timedelta` is falsy). */
  function Expiry(now: int, expiresDelta: Option<int>, fallback: int): (exp: int)
    ensures expiresDelta.Some? && expiresDelta.value != 0 ==> exp - now == expiresDelta.value
    ensures expiresDelta.None? || expiresDelta.value == 0 ==> exp - now == fallback
  {
    if expiresDelta.Some? && expiresDelta.value != 0 then now + expiresDelta.value else now + fallback
  }

  /** `to_encode = data.copy(); to_encode.update({"exp": exp, "type": kind})`:
      the caller's claims with `exp` and `type` added, overriding same-named keys. */
  function TokenClaims(data: Claims, exp: int, kind: string): (c: Claims)
    ensures c.Keys == data.Keys + {"exp", "type"}
    ensures c["exp"] == Num(exp) && c["type"] == Str(kind)
    ensures forall k :: k in data && k != "exp" && k != "type" ==> c[k] == data[k]
  {
    data["exp" := Num(exp)]["type" := Str(kind)]
  }

  /** `create_access_token(data, expires_delta)` at instant `now`. */
  function CreateAccessToken(data: Claims, expiresDelta: Option<int>, settings: Settings, now: int): (t: Token)
    ensures t.Signed? && t.key == settings.secretKey && t.algorithm == settings.algorithm
    ensures t.claims.Keys == data.Keys + {"exp", "type"}
    ensures t.claims["type"] == Str(AccessKind)
    ensures t.claims["exp"] == Num(Expiry(now, expiresDelta, AccessTtl(settings)))
    ensures forall k :: k in data && k != "exp" && k != "type" ==> t.claims[k] == data[k]
  {
    Encode(TokenClaims(data, Expiry(now, expiresDelta, AccessTtl(settings)), AccessKind),
           settings.secretKey, settings.algorithm)
  }

  /** `create_refresh_token(data, expires_delta)` at instant `now`. */
  function CreateRefreshToken(data: Claims, expiresDelta: Option<int>, settings: Settings, now: int): (t: Token)
    ensures t.Signed? && t.key == settings.secretKey && t.algorithm == settings.algorithm
    ensures t.claims.Keys == data.Keys + {"exp", "type"}
    ensures t.claims["type"] == Str(RefreshKind)
    ensures t.claims["exp"] == Num(Expiry(now, expiresDelta, RefreshTtl(settings)))
    ensures forall k :: k in data && k != "exp" && k != "type" ==> t.claims[k] == data[k]
  {
    Encode(TokenClaims(data, Expiry(now, expiresDelta, RefreshTtl(settings)), RefreshKind),
           settings.secretKey, settings.algorithm)
  }

  /** `verify_token(token, token_type)` at instant `now`: every failure, whether
      in decoding, a missing `sub` or a `type` other than the expected one,
      becomes `None`. */
  function VerifyToken(token: Token, settings: Settings, now: int, tokenType: string := AccessKind): (r: Option<TokenData>)
    ensures r.Some? <==>
              && Decode(token, settings.secretKey, [settings.algorithm], now).Success?
              && "sub" in token.claims
              && "type" in token.claims && token.claims["type"] == Str(tokenType)
    ensures r.Some? ==> token.claims["sub"] == Str(r.value.email)
  {
    match Decode(token, settings.secretKey, [settings.algorithm], now)
    case Failure(_) => None
    case Success(payload) =>
      if "sub" !in payload then None
      else if "type" !in payload || payload["type"] != Str(tokenType) then None
      else Some(TokenData(payload["sub"].s))
  }

  /** A token created for kind `kind` verifies as that kind, with the caller's
      `sub`, until it expires; it never verifies as the other kind, and never
      after its expiry. The caller's claims carry none of the registered claims
      the decoder would check beyond `exp` (`aud`, `nbf`, `iat`, `jti`), as is
      the case for every caller in this service. */
  lemma {:induction false} CreatedTokenRoundTrip(data: Claims, expiresDelta: Option<int>, settings: Settings, now: int, later: int)
    requires "sub" in data && data["sub"].Str?
    requires "aud" !in data && "nbf" !in data && "iat" !in data && "jti" !in data
    ensures later <= Expiry(now, expiresDelta, AccessTtl(settings)) ==>
              VerifyToken(CreateAccessToken(data, expiresDelta, settings, now), settings, later, AccessKind)
                == Some(TokenData(data["sub"].s))
    ensures later <= Expiry(now, expiresDelta, RefreshTtl(settings)) ==>
              VerifyToken(CreateRefreshToken(data, expiresDelta, settings, now), settings, later, RefreshKind)
                == Some(TokenData(data["sub"].s))
    ensures VerifyToken(CreateAccessToken(data, expiresDelta, settings, now), settings, later, RefreshKind) == None
    ensures VerifyToken(CreateRefreshToken(data, expiresDelta, settings, now), settings, later, AccessKind) == None
    ensures later > Expiry(now, expiresDelta, AccessTtl(settings)) ==>
              VerifyToken(CreateAccessToken(data, expiresDelta, settings, now), settings, later, AccessKind) == None
  {
    var access := CreateAccessToken(data, expiresDelta, settings, now);
    var refresh := CreateRefreshToken(data, expiresDelta, settings, now);
    assert access.claims["sub"] == data["sub"];
    assert refresh.claims["sub"] == data["sub"];
  }

  /** Without a `sub` claim no token verifies. */
  lemma MissingSubjectRejected(data: Claims, expiresDelta: Option<int>, settings: Settings, now: int, later: int, kind: string)
    requires "sub" !in data
    ensures VerifyToken(CreateAccessToken(data, expiresDelta, settings, now), settings, later, kind) == None
    ensures VerifyToken(CreateRefreshToken(data, expiresDelta, settings, now), settings, later, kind) == None
  {
  }

  const CredentialsError: HttpError := HttpError(401, "Could not validate credentials")

  /** The answer to an exception the handlers do not catch. */
  const ServerError: HttpError := HttpError(500, "Internal Server Error")

  /** `get_current_user`: the bearer token must verify as an access token; the
      user is then the placeholder principal whose email is the token's subject
      as `EmailStr` stores it (unwrapped, stripped, domain lower-cased). A
      verified token whose subject is not an email address fails with the
      uncaught validation error rather than with 401. */
  function GetCurrentUser(token: Token, settings: Settings, now: int): (r: Result<User, HttpError>)
    ensures var data := VerifyToken(token, settings, now, AccessKind);
            r.Failure? <==> data.None? || !ValidEmail(data.value.email)
    ensures VerifyToken(token, settings, now, AccessKind).None? ==> r == Failure(CredentialsError)
    ensures var data := VerifyToken(token, settings, now, AccessKind);
            data.Some? && !ValidEmail(data.value.email) ==> r == Failure(ServerError)
    ensures var data := VerifyToken(token, settings, now, AccessKind);
            r.Success? ==> && token.claims["sub"] == Str(data.value.email)
                           && NormalEmail(data.value.email) == Some(r.value.email)
                           && r.value.isActive && !r.value.isSuperuser
  {
    match VerifyToken(token, settings, now, AccessKind)
    case None => Failure(CredentialsError)
    case Some(data) =>
      match NormalEmail(data.email)
      case Some(email) => Success(User(1, email, "Mock User", true, false))
      case None => Failure(ServerError)
  }

  /** The principal's email is already in the form `EmailStr` stores:
      validating it again changes nothing. */
  lemma CurrentUserEmailIsNormal(token: Token, settings: Settings, now: int)
    ensures var r := GetCurrentUser(token, settings, now);
            r.Success? ==> NormalEmail(r.value.email) == Some(r.value.email)
  {
    var data := VerifyToken(token, settings, now, AccessKind);
    if data.Some? && ValidEmail(data.value.email) {
      NormalEmailIdempotent(data.value.email);
    }
  }

  /** `get_current_active_user`: rejects exactly the inactive user. */
  function GetCurrentActiveUser(user: User): (r: Result<User, HttpError>)
    ensures r.Failure? <==> !user.isActive
    ensures r.Failure? ==> r.error.status == 400
    ensures r.Success? ==> r.value == user
  {
    if !user.isActive then Failure(HttpError(400, "Inactive user")) else Success(user)
  }

  /** `get_current_active_superuser`: rejects exactly the user without the
      superuser flag (it does not look at the active flag). */
  function GetCurrentActiveSuperuser(user: User): (r: Result<User, HttpError>)
    ensures r.Failure? <==> !user.isSuperuser
    ensures r.Failure? ==> r.error.status == 400
    ensures r.Success? ==> r.value == user
  {
    if !user.isSuperuser then Failure(HttpError(400, "The user doesn't have enough privileges")) else Success(user)
  }

  /** Since the principal `get_current_user` produces is never a superuser,
      every route guarded by `get_current_active_superuser` rejects every token. */
  lemma SuperuserGuardAlwaysRejects(token: Token, settings: Settings, now: int)
    ensures match GetCurrentUser(token, settings, now)
            case Failure(e) => e == CredentialsError || e == ServerError
            case Success(user) => GetCurrentActiveSuperuser(user).Failure?
  {
  }

  const MockEmail: string := "test@example.com"
  const MockPassword: string := "testpassword"

  /** `authenticate_user`: only the fixed demonstration pair is accepted. */
  function AuthenticateUser(email: string, password: string): (r: Option<User>)
    ensures r.Some? <==> email == MockEmail && password == MockPassword
    ensures r.Some? ==> r.value.email == email && r.value.isActive && !r.value.isSuperuser
  {
    if email == MockEmail && password == MockPassword then
      Some(User(1, email, "Test User", true, false))
    else None
  }
}
