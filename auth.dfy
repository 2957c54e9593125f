/** The authentication endpoints of app/api/v1/endpoints/auth.py: `register`,
    `login` (directory first, then the local fallback) and `refresh`. The
    directory's settings are passed as a `DirectoryConfig` beside the
    application `Settings`; see `LoginAsWritten` for what the code does with
    the single settings object it reads them from. */
module Auth {
  import opened Wrappers
  import opened Jwt
  import opened Config
  import opened Schemas
  import opened Security
  import opened Ldap

  /** The `Token` response: an access and a refresh token and their type. */
  datatype TokenPair = TokenPair(accessToken: Token, refreshToken: Token, tokenType: string)

  const Bearer: string := "bearer"

  /** The claims of a token minted for `subject`, of kind `kind`, expiring at `exp`. */
  function SubjectClaims(subject: string, exp: int, kind: string): Claims {
    map["sub" := Str(subject), "exp" := Num(exp), "type" := Str(kind)]
  }

  /** The pair every handler builds for `subject`: an access token living
      `ACCESS_TOKEN_EXPIRE_MINUTES` minutes and a refresh token living
      `REFRESH_TOKEN_EXPIRE_DAYS` days, both passed as explicit deltas. */
  function IssueTokens(subject: string, settings: Settings, now: int): (p: TokenPair)
    ensures p.tokenType == Bearer
    ensures p.accessToken
         == Signed(SubjectClaims(subject, now + AccessTtl(settings), AccessKind), settings.secretKey, settings.algorithm)
    ensures p.refreshToken
         == Signed(SubjectClaims(subject, now + RefreshTtl(settings), RefreshKind), settings.secretKey, settings.algorithm)
  {
    var data := map["sub" := Str(subject)];
    var access := CreateAccessToken(data, Some(settings.accessTokenExpireMinutes * 60), settings, now);
    var refresh := CreateRefreshToken(data, Some(settings.refreshTokenExpireDays * 24 * 60 * 60), settings, now);
    assert access.claims == SubjectClaims(subject, now + AccessTtl(settings), AccessKind);
    assert refresh.claims == SubjectClaims(subject, now + RefreshTtl(settings), RefreshKind);
    TokenPair(access, refresh, Bearer)
  }

  /** Whose name the login tokens carry: the directory's email when the
      directory authenticates the pair, otherwise the submitted username, since
      `None` and both directory errors fall through to the local path. */
  function LoginSubject(username: string, password: string, cfg: DirectoryConfig, dir: Directory): (subject: string)
    ensures !cfg.enabled ==> subject == username
    ensures AuthenticateLdapUser(username, password, cfg, dir).Authenticated? ==>
              subject == AuthenticateLdapUser(username, password, cfg, dir).info.email
    ensures !AuthenticateLdapUser(username, password, cfg, dir).Authenticated? ==> subject == username
  {
    if cfg.enabled then
      match AuthenticateLdapUser(username, password, cfg, dir)
      case Authenticated(info) => info.email
      case NotAuthenticated => username
      case Raised(LdapConnectionError) => username
      case Raised(LdapAuthenticationError) => username
    else username
  }

  /** `login`: always answers with a token pair. The local path does not check
      the password. */
  function Login(username: string, password: string, settings: Settings, cfg: DirectoryConfig,
                 dir: Directory, now: int): (p: TokenPair)
    ensures p.tokenType == Bearer
    ensures p.accessToken.Signed? && p.refreshToken.Signed?
    ensures p.accessToken.claims
         == SubjectClaims(LoginSubject(username, password, cfg, dir), now + AccessTtl(settings), AccessKind)
    ensures p.refreshToken.claims
         == SubjectClaims(LoginSubject(username, password, cfg, dir), now + RefreshTtl(settings), RefreshKind)
  {
    IssueTokens(LoginSubject(username, password, cfg, dir), settings, now)
  }

  /** The pair `login` returns authenticates its subject: the access token as an
      access token until it expires, the refresh token as a refresh token until
      it expires, and neither as the other kind. */
  lemma LoginTokensVerify(username: string, password: string, settings: Settings, cfg: DirectoryConfig,
                          dir: Directory, now: int, later: int)
    ensures var p := Login(username, password, settings, cfg, dir, now);
            var subject := LoginSubject(username, password, cfg, dir);
            && (later <= now + AccessTtl(settings) ==>
                  VerifyToken(p.accessToken, settings, later, AccessKind) == Some(TokenData(subject)))
            && (later > now + AccessTtl(settings) ==>
                  VerifyToken(p.accessToken, settings, later, AccessKind) == None)
            && (later <= now + RefreshTtl(settings) ==>
                  VerifyToken(p.refreshToken, settings, later, RefreshKind) == Some(TokenData(subject)))
            && VerifyToken(p.refreshToken, settings, later, AccessKind) == None
            && VerifyToken(p.accessToken, settings, later, RefreshKind) == None
  {
    var subject := LoginSubject(username, password, cfg, dir);
    PairVerifies(subject, settings, now, later);
  }

  /** The verification facts for any pair `IssueTokens` mints. */
  lemma {:induction false} PairVerifies(subject: string, settings: Settings, now: int, later: int)
    ensures var p := IssueTokens(subject, settings, now);
            && (later <= now + AccessTtl(settings) ==>
                  VerifyToken(p.accessToken, settings, later, AccessKind) == Some(TokenData(subject)))
            && (later > now + AccessTtl(settings) ==>
                  VerifyToken(p.accessToken, settings, later, AccessKind) == None)
            && (later <= now + RefreshTtl(settings) ==>
                  VerifyToken(p.refreshToken, settings, later, RefreshKind) == Some(TokenData(subject)))
            && VerifyToken(p.refreshToken, settings, later, AccessKind) == None
            && VerifyToken(p.accessToken, settings, later, RefreshKind) == None
  {
    var data := map["sub" := Str(subject)];
    var minutes := Some(settings.accessTokenExpireMinutes * 60);
    var days := Some(settings.refreshTokenExpireDays * 24 * 60 * 60);
    CreatedTokenRoundTrip(data, minutes, settings, now, later);
    CreatedTokenRoundTrip(data, days, settings, now, later);
    assert Expiry(now, minutes, AccessTtl(settings)) == now + AccessTtl(settings);
    assert Expiry(now, days, RefreshTtl(settings)) == now + RefreshTtl(settings);
  }

  /** With the directory switched off, the password plays no part in login. */
  lemma LocalLoginIgnoresPassword(username: string, password1: string, password2: string, settings: Settings,
                                  cfg: DirectoryConfig, dir: Directory, now: int)
    requires !cfg.enabled
    ensures Login(username, password1, settings, cfg, dir, now) == Login(username, password2, settings, cfg, dir, now)
  {
  }

  /** `refresh_token`'s body: a fresh pair for the current user's email. */
  function RefreshTokens(user: User, settings: Settings, now: int): (p: TokenPair)
    ensures p.tokenType == Bearer
    ensures p == IssueTokens(user.email, settings, now)
  {
    IssueTokens(user.email, settings, now)
  }

  /** The `/refresh` route: the bearer token goes through `get_current_user`
      first, so it must be a valid access token whose subject is an email
      address; the new pair is minted for that address as `EmailStr` stores it. */
  function RefreshEndpoint(bearer: Token, settings: Settings, now: int): (r: Result<TokenPair, HttpError>)
    ensures var data := VerifyToken(bearer, settings, now, AccessKind);
            r.Failure? <==> data.None? || !ValidEmail(data.value.email)
    ensures VerifyToken(bearer, settings, now, AccessKind).None? ==> r == Failure(CredentialsError)
    ensures var data := VerifyToken(bearer, settings, now, AccessKind);
            data.Some? && !ValidEmail(data.value.email) ==> r == Failure(ServerError)
    ensures var data := VerifyToken(bearer, settings, now, AccessKind);
            r.Success? ==> r.value == IssueTokens(NormalEmail(data.value.email).value, settings, now)
  {
    match GetCurrentUser(bearer, settings, now)
    case Failure(e) => Failure(e)
    case Success(user) => Success(RefreshTokens(user, settings, now))
  }

  /** A refresh token from `login` is refused by `/refresh` (401), while the
      access token of the same pair, still alive, yields a new pair for the
      normal form of the same subject when that subject is an email address,
      and the validation error (500) when it is not. */
  lemma RefreshAcceptsOnlyAccessTokens(username: string, password: string, settings: Settings,
                                       cfg: DirectoryConfig, dir: Directory, now: int, later: int)
    ensures var p := Login(username, password, settings, cfg, dir, now);
            RefreshEndpoint(p.refreshToken, settings, later) == Failure(CredentialsError)
    ensures var p := Login(username, password, settings, cfg, dir, now);
            var subject := LoginSubject(username, password, cfg, dir);
            later <= now + AccessTtl(settings) && ValidEmail(subject) ==>
              RefreshEndpoint(p.accessToken, settings, later)
                == Success(IssueTokens(NormalEmail(subject).value, settings, later))
    ensures var p := Login(username, password, settings, cfg, dir, now);
            later <= now + AccessTtl(settings) && !ValidEmail(LoginSubject(username, password, cfg, dir)) ==>
              RefreshEndpoint(p.accessToken, settings, later) == Failure(ServerError)
  {
    LoginTokensVerify(username, password, settings, cfg, dir, now, later);
  }

  /** A pair `/refresh` hands out can itself be refreshed while its access
      token lives, and the subject no longer changes: the second pair is minted
      for the same address as the first. */
  lemma RefreshKeepsSubject(bearer: Token, settings: Settings, now: int, later: int)
    requires RefreshEndpoint(bearer, settings, now).Success?
    requires later <= now + AccessTtl(settings)
    ensures var data := VerifyToken(bearer, settings, now, AccessKind);
            var email := NormalEmail(data.value.email).value;
            RefreshEndpoint(RefreshEndpoint(bearer, settings, now).value.accessToken, settings, later)
              == Success(IssueTokens(email, settings, later))
  {
    var data := VerifyToken(bearer, settings, now, AccessKind);
    var email := NormalEmail(data.value.email).value;
    NormalEmailIdempotent(data.value.email);
    PairVerifies(email, settings, now, later);
  }

  /** With the directory off, a login name without `@` gets a token pair whose
      live access token `/refresh` answers with the validation error. */
  lemma PlainUsernameCannotRefresh(username: string, password: string, settings: Settings,
                                   cfg: DirectoryConfig, dir: Directory, now: int, later: int)
    requires !cfg.enabled && '@' !in username
    requires now <= later <= now + AccessTtl(settings)
    ensures RefreshEndpoint(Login(username, password, settings, cfg, dir, now).accessToken, settings, later)
         == Failure(ServerError)
  {
    NoAtIsNotEmail(username);
    RefreshAcceptsOnlyAccessTokens(username, password, settings, cfg, dir, now, later);
  }

  /** A directory hit without an email attribute logs in with the fallback
      subject `username@unknown`, whose live access token `/refresh` answers
      with the validation error. */
  lemma FallbackAddressCannotRefresh(username: string, password: string, settings: Settings,
                                     cfg: DirectoryConfig, dir: Directory, now: int, later: int)
    requires cfg.enabled
    requires AuthenticateLdapUser(username, password, cfg, dir).Authenticated?
    requires AuthenticateLdapUser(username, password, cfg, dir).info.email == username + "@unknown"
    requires now <= later <= now + AccessTtl(settings)
    ensures RefreshEndpoint(Login(username, password, settings, cfg, dir, now).accessToken, settings, later)
         == Failure(ServerError)
  {
    UnknownDomainIsNotEmail(username);
    RefreshAcceptsOnlyAccessTokens(username, password, settings, cfg, dir, now, later);
  }

  /** `register`: echoes the email and full name, with placeholder id 1, the
      user active and the fixed creation time. The password is hashed and
      dropped. */
  function Register(data: UserCreate): (r: UserResponse)
    ensures r.email == data.email && r.fullName == data.fullName
    ensures r.id == 1 && r.isActive && r.createdAt == PlaceholderCreatedAt
  {
    UserResponse(1, data.email, data.fullName, true, PlaceholderCreatedAt)
  }

  // ---------------------------------------------------------------------------
  // `login` as written

  /** Reading an attribute the settings class does not declare. */
  datatype AttributeFault = MissingAttribute(name: string)

  /** The flag `login` reads first. */
  const DirectoryFlag: string := "LDAP_ENABLED"

  /** `login` as written reads `settings.LDAP_ENABLED` from the application
      settings object, whose class declares no such attribute; the lookup
      raises before any token is built. */
  function LoginAsWritten(username: string, password: string, settings: Settings, cfg: DirectoryConfig,
                          dir: Directory, now: int): (r: Result<TokenPair, AttributeFault>)
    ensures DirectoryFlag in DeclaredFields ==> r == Success(Login(username, password, settings, cfg, dir, now))
    ensures DirectoryFlag !in DeclaredFields ==> r == Failure(MissingAttribute(DirectoryFlag))
  {
    if DirectoryFlag in DeclaredFields then Success(Login(username, password, settings, cfg, dir, now))
    else Failure(MissingAttribute(DirectoryFlag))
  }

  /** Every call of `login` as written fails, whatever the credentials. */
  lemma LoginAsWrittenAlwaysFails(username: string, password: string, settings: Settings, cfg: DirectoryConfig,
                                  dir: Directory, now: int)
    ensures LoginAsWritten(username, password, settings, cfg, dir, now) == Failure(MissingAttribute(DirectoryFlag))
  {
  }
}
