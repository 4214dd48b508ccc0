/** `AuthController` (`/api/auth`): registration, login (two HttpOnly token
    cookies), logout (both cookies expired) and refresh (a new access cookie only).
    The security context is passed in and returned explicitly; the password check of
    the authentication manager arrives as its result. */
module AuthController {
  import opened Wrappers
  import opened JavaLang
  import opened UserModel
  import opened Http
  import opened UserDetailsService
  import opened JwtUtil
  import opened Repositories

  /** The paths the two cookies are scoped to. */
  const AccessTokenPath: string := "/"
  const RefreshTokenPath: string := "/api/auth"

  datatype RegistrationRequest = RegistrationRequest(username: string, email: string, password: string)

  /** What `authenticationManager.authenticate` did with the login request: an
      authenticated principal, `BadCredentialsException` (unknown user or wrong
      password alike), or any other exception. */
  datatype AuthenticationResult = Authenticated(principal: User) | BadCredentials | AuthenticationFailure

  /** `(int) (ms / 1000)`: long division truncating toward zero, then a narrowing cast. */
  function MaxAgeSeconds(ms: int): (seconds: int)
    ensures IntMin <= seconds <= IntMax
    ensures 0 <= ms <= 1000 * IntMax ==> seconds * 1000 <= ms < seconds * 1000 + 1000
  {
    NarrowToInt(TruncDiv1000(ms))
  }

  /** A token cookie as login and refresh set it: HttpOnly, not Secure, scoped to
      `path`, living as long as the token. */
  function TokenCookie(name: string, token: string, path: string, ttlMs: int): SetCookie {
    SetCookie(name, Some(token), Some(path), MaxAgeSeconds(ttlMs), true, false)
  }

  function AccessTokenCookie(config: JwtConfig, token: string): SetCookie {
    TokenCookie(AccessTokenCookieName, token, AccessTokenPath, config.accessTokenExpirationMs)
  }

  function RefreshTokenCookie(config: JwtConfig, token: string): SetCookie {
    TokenCookie(RefreshTokenCookieName, token, RefreshTokenPath, config.refreshTokenExpirationMs)
  }

  /** A cookie as logout sets it: no value, max-age 0, otherwise as at login. */
  function ExpiredCookie(name: string, path: string): SetCookie {
    SetCookie(name, None, Some(path), 0, true, false)
  }

  /** The cookies a successful login adds, in order. */
  function LoginCookies(codec: Codec, config: JwtConfig, u: User, now: int): seq<SetCookie> {
    [ AccessTokenCookie(config, GenerateAccessToken(codec, config, u, now)),
      RefreshTokenCookie(config, GenerateRefreshToken(codec, config, u, now)) ]
  }

  /** The cookies logout adds, in order. */
  function LogoutCookies(): seq<SetCookie> {
    [ ExpiredCookie(AccessTokenCookieName, AccessTokenPath),
      ExpiredCookie(RefreshTokenCookieName, RefreshTokenPath) ]
  }

  /** The user `registerUser` builds: the request's name and email, the encoded
      password, and the defaults of a new avenger. */
  function NewAvenger(request: RegistrationRequest, passwordEncoder: string -> string): User {
    User(0, request.username, request.email, passwordEncoder(request.password), AVENGER, DefaultBalance, DefaultAlive)
  }

  function Message(status: int, success: bool, message: string): HttpResponse {
    HttpResponse(status, Api(ApiResponse(success, message)), [])
  }

  /** `new Cookie(name, value)` followed by the four setters, one at a time. */
  method BuildCookie(name: string, value: Option<string>, path: string, maxAge: int) returns (c: SetCookie)
    ensures c == SetCookie(name, value, Some(path), maxAge, true, false)
  {
    c := NewCookie(name, value);
    c := c.(httpOnly := true);
    c := c.(secure := false);
    c := c.(path := Some(path));
    c := c.(maxAge := maxAge);
  }

  /** `registerUser`: a taken username is refused with 400 and nothing is saved;
      otherwise the new avenger is inserted and 201 returned. */
  method RegisterUser(repo: UserRepository, request: RegistrationRequest, passwordEncoder: string -> string)
    returns (response: HttpResponse)
    requires repo.Valid()
    modifies repo
    ensures repo.Valid()
    ensures old(request.username in repo.users) ==>
              && response == Message(BAD_REQUEST, false, "Username is already taken!")
              && repo.users == old(repo.users) && repo.nextId == old(repo.nextId)
    ensures old(request.username !in repo.users) ==>
              && response == Message(CREATED, true, "User registered successfully!")
              && repo.users == old(repo.users)[request.username := NewAvenger(request, passwordEncoder).(id := old(repo.nextId))]
              && repo.nextId == old(repo.nextId) + 1
  {
    if request.username in repo.users {
      return Message(BAD_REQUEST, false, "Username is already taken!");
    }
    var newUser := User(0, "", "", "", AVENGER, DefaultBalance, DefaultAlive);
    newUser := newUser.(username := request.username);
    newUser := newUser.(email := request.email);
    newUser := newUser.(password := passwordEncoder(request.password));
    newUser := newUser.(role := AVENGER);
    newUser := newUser.(balance := 0.0);
    newUser := newUser.(alive := true);
    var _ := repo.Insert(newUser);
    response := Message(CREATED, true, "User registered successfully!");
  }

  /** A registered avenger can be looked up at once; it is enabled, holds exactly
      the AVENGER authority, and its stored password is the encoding of the one given. */
  lemma RegisteredUserIsLoadable(users: UserStore, id: int, request: RegistrationRequest,
                                 passwordEncoder: string -> string)
    ensures var stored := users[request.username := NewAvenger(request, passwordEncoder).(id := id)];
            && LoadUserByUsername(stored, request.username).Ok?
            && var u := LoadUserByUsername(stored, request.username).value;
            && u.username == request.username && u.role == AVENGER && IsEnabled(u)
            && u.password == passwordEncoder(request.password)
            && Authorities(u) == [RolePrefix + "AVENGER"]
  {
  }

  /** `authenticateUser`. On success: the context holds the principal, the body
      names only the user and the role, and exactly the two token cookies are set.
      On failure: no cookie, the context is unchanged, and 401 or 500. */
  method AuthenticateUser(codec: Codec, config: JwtConfig, attempt: AuthenticationResult,
                          context: Option<Authentication>, now: int)
    returns (response: HttpResponse, newContext: Option<Authentication>)
    ensures attempt.Authenticated? ==>
              && response.status == OK
              && response.body == LoginDetails(attempt.principal.username, RoleName(attempt.principal.role))
              && response.cookies == LoginCookies(codec, config, attempt.principal, now)
              && newContext == Some(AuthenticationOf(attempt.principal))
    ensures attempt.BadCredentials? ==>
              response == Message(UNAUTHORIZED, false, "Incorrect username or password.") && newContext == context
    ensures attempt.AuthenticationFailure? ==>
              response == Message(INTERNAL_SERVER_ERROR, false, "An unexpected error occurred during login.")
              && newContext == context
  {
    match attempt {
      case BadCredentials =>
        response := Message(UNAUTHORIZED, false, "Incorrect username or password.");
        newContext := context;
      case AuthenticationFailure =>
        response := Message(INTERNAL_SERVER_ERROR, false, "An unexpected error occurred during login.");
        newContext := context;
      case Authenticated(authenticatedUser) =>
        newContext := Some(AuthenticationOf(authenticatedUser));
        var accessToken := GenerateAccessToken(codec, config, authenticatedUser, now);
        var refreshToken := GenerateRefreshToken(codec, config, authenticatedUser, now);
        var cookies: seq<SetCookie> := [];
        var accessTokenCookie := BuildCookie(AccessTokenCookieName, Some(accessToken), AccessTokenPath,
                                             MaxAgeSeconds(config.accessTokenExpirationMs));
        cookies := cookies + [accessTokenCookie];
        var refreshTokenCookie := BuildCookie(RefreshTokenCookieName, Some(refreshToken), RefreshTokenPath,
                                              MaxAgeSeconds(config.refreshTokenExpirationMs));
        cookies := cookies + [refreshTokenCookie];
        response := HttpResponse(OK, LoginDetails(authenticatedUser.username, RoleName(authenticatedUser.role)), cookies);
    }
  }

  /** With a sound codec, the login cookies carry an access token and a refresh
      token for the principal, issued now. */
  lemma LoginCookiesCarryTokens(codec: Codec, config: JwtConfig, u: User, now: int)
    requires Sound(codec)
    ensures var cookies := LoginCookies(codec, config, u, now);
            && |cookies| == 2
            && cookies[0].name == AccessTokenCookieName && cookies[1].name == RefreshTokenCookieName
            && cookies[0].httpOnly && cookies[1].httpOnly
            && cookies[0].path == Some(AccessTokenPath) && cookies[1].path == Some(RefreshTokenPath)
            && cookies[0].maxAge == MaxAgeSeconds(config.accessTokenExpirationMs)
            && cookies[1].maxAge == MaxAgeSeconds(config.refreshTokenExpirationMs)
            && codec.parse(cookies[0].value.value) ==
               Some(TokenBody(map[RolesClaim := TextList([RoleName(u.role)])], u.username,
                              config.accessTokenExpirationMs, now))
            && codec.parse(cookies[1].value.value) ==
               Some(TokenBody(map[], u.username, config.refreshTokenExpirationMs, now))
  {
  }

  /** `logoutUser`: always 200, the context is cleared, both cookies are expired. */
  method LogoutUser(context: Option<Authentication>) returns (response: HttpResponse, newContext: Option<Authentication>)
    ensures newContext == None
    ensures response == HttpResponse(OK, Api(ApiResponse(true, "Logged out successfully!")), LogoutCookies())
  {
    newContext := None;
    var cookies: seq<SetCookie> := [];
    var accessTokenCookie := BuildCookie(AccessTokenCookieName, None, AccessTokenPath, 0);
    cookies := cookies + [accessTokenCookie];
    var refreshTokenCookie := BuildCookie(RefreshTokenCookieName, None, RefreshTokenPath, 0);
    cookies := cookies + [refreshTokenCookie];
    response := HttpResponse(OK, Api(ApiResponse(true, "Logged out successfully!")), cookies);
  }

  /** Logout overwrites each login cookie: same name, path, HttpOnly and Secure, with
      no value and max-age 0. */
  lemma LogoutClearsLoginCookies(codec: Codec, config: JwtConfig, u: User, now: int)
    ensures var login := LoginCookies(codec, config, u, now);
            var logout := LogoutCookies();
            && |login| == |logout|
            && forall i :: 0 <= i < |login| ==>
                 && logout[i].name == login[i].name && logout[i].path == login[i].path
                 && logout[i].httpOnly == login[i].httpOnly && logout[i].secure == login[i].secure
                 && logout[i].value.None? && logout[i].maxAge == 0
  {
  }

  /** The refresh handler's answer, as a function of the request cookies, the user
      table and the current instant. */
  function RefreshOutcome(codec: Codec, config: JwtConfig, users: UserStore, cookies: seq<Cookie>, now: int): HttpResponse {
    match FirstCookieValue(cookies, RefreshTokenCookieName)
    case None => Message(UNAUTHORIZED, false, "Refresh token not found.")
    case Some(refreshToken) =>
      match ExtractUsername(codec, refreshToken)
      case Err(_) => Message(INTERNAL_SERVER_ERROR, false, "Error refreshing token.")
      case Ok(username) =>
        match LoadUserByUsername(users, username)
        case Err(_) => Message(INTERNAL_SERVER_ERROR, false, "Error refreshing token.")
        case Ok(userDetails) =>
          match ValidateToken(codec, refreshToken, userDetails, now)
          case Err(_) => Message(INTERNAL_SERVER_ERROR, false, "Error refreshing token.")
          case Ok(valid) =>
            if valid then
              HttpResponse(OK, Api(ApiResponse(true, "Access token refreshed successfully!")),
                           [AccessTokenCookie(config, GenerateAccessToken(codec, config, userDetails, now))])
            else
              Message(UNAUTHORIZED, false, "Invalid or expired refresh token.")
  }

  /** `refreshToken`: scans the cookies for `refreshToken`, then re-loads and
      validates. It never sets a refresh cookie, and sets the access cookie exactly
      when it answers 200. */
  method RefreshToken(codec: Codec, config: JwtConfig, users: UserStore, cookies: seq<Cookie>, now: int)
    returns (response: HttpResponse)
    ensures response == RefreshOutcome(codec, config, users, cookies, now)
    ensures forall i :: 0 <= i < |response.cookies| ==> response.cookies[i].name == AccessTokenCookieName
    ensures response.status == OK <==> |response.cookies| == 1
  {
    var refreshToken := FindCookie(cookies, RefreshTokenCookieName);
    if refreshToken.None? {
      return Message(UNAUTHORIZED, false, "Refresh token not found.");
    }
    var username := ExtractUsername(codec, refreshToken.value);
    if username.Err? {
      return Message(INTERNAL_SERVER_ERROR, false, "Error refreshing token.");
    }
    var userDetails := LoadUserByUsername(users, username.value);
    if userDetails.Err? {
      return Message(INTERNAL_SERVER_ERROR, false, "Error refreshing token.");
    }
    var valid := ValidateToken(codec, refreshToken.value, userDetails.value, now);
    if valid.Err? {
      return Message(INTERNAL_SERVER_ERROR, false, "Error refreshing token.");
    }
    if valid.value {
      var newAccessToken := GenerateAccessToken(codec, config, userDetails.value, now);
      var newAccessTokenCookie := BuildCookie(AccessTokenCookieName, Some(newAccessToken), AccessTokenPath,
                                              MaxAgeSeconds(config.accessTokenExpirationMs));
      response := HttpResponse(OK, Api(ApiResponse(true, "Access token refreshed successfully!")), [newAccessTokenCookie]);
    } else {
      response := Message(UNAUTHORIZED, false, "Invalid or expired refresh token.");
    }
  }

  /** With a sound codec and a well-keyed table, refresh succeeds exactly when a
      `refreshToken` cookie holds a token this key signed, for a stored user, not
      yet expired; the new access token is then built from the STORED user. */
  lemma {:induction false} RefreshSucceedsExactly(codec: Codec, config: JwtConfig, users: UserStore,
                                                  cookies: seq<Cookie>, now: int)
    requires Sound(codec) && WellKeyed(users)
    ensures FirstCookieValue(cookies, RefreshTokenCookieName).None? ==>
              RefreshOutcome(codec, config, users, cookies, now) == Message(UNAUTHORIZED, false, "Refresh token not found.")
    ensures var token := FirstCookieValue(cookies, RefreshTokenCookieName);
            RefreshOutcome(codec, config, users, cookies, now).status == OK <==>
              && token.Some?
              && codec.parse(token.value).Some?
              && codec.parse(token.value).value[SubjectClaim].text in users
              && now <= codec.parse(token.value).value[ExpirationClaim].millis
    ensures var token := FirstCookieValue(cookies, RefreshTokenCookieName);
            RefreshOutcome(codec, config, users, cookies, now).status == OK ==>
              var name := codec.parse(token.value).value[SubjectClaim].text;
              RefreshOutcome(codec, config, users, cookies, now).cookies ==
                [AccessTokenCookie(config, GenerateAccessToken(codec, config, users[name], now))]
  {
    var token := FirstCookieValue(cookies, RefreshTokenCookieName);
    if token.Some? && codec.parse(token.value).Some? {
      var body := codec.parse(token.value).value;
      assert ExtractUsername(codec, token.value) == Ok(body[SubjectClaim].text);
      assert ExtractExpiration(codec, token.value) == Ok(body[ExpirationClaim].millis);
    }
  }

  /** The refusals of refresh: a token this key did not sign, or one naming no stored
      user, throws inside the `try` and gives 500; a signed token for a stored user
      that has expired gives 401 "Invalid or expired refresh token."; none of them
      sets a cookie. */
  lemma {:induction false} RefreshRefusals(codec: Codec, config: JwtConfig, users: UserStore,
                                           cookies: seq<Cookie>, now: int)
    requires Sound(codec) && WellKeyed(users)
    ensures var token := FirstCookieValue(cookies, RefreshTokenCookieName);
            token.Some? && codec.parse(token.value).None? ==>
              RefreshOutcome(codec, config, users, cookies, now) == Message(INTERNAL_SERVER_ERROR, false, "Error refreshing token.")
    ensures var token := FirstCookieValue(cookies, RefreshTokenCookieName);
            token.Some? && codec.parse(token.value).Some? && codec.parse(token.value).value[SubjectClaim].text !in users ==>
              RefreshOutcome(codec, config, users, cookies, now) == Message(INTERNAL_SERVER_ERROR, false, "Error refreshing token.")
    ensures var token := FirstCookieValue(cookies, RefreshTokenCookieName);
            && token.Some? && codec.parse(token.value).Some?
            && codec.parse(token.value).value[SubjectClaim].text in users
            && now > codec.parse(token.value).value[ExpirationClaim].millis ==>
              RefreshOutcome(codec, config, users, cookies, now) == Message(UNAUTHORIZED, false, "Invalid or expired refresh token.")
  {
    var token := FirstCookieValue(cookies, RefreshTokenCookieName);
    if token.Some? && codec.parse(token.value).Some? {
      var body := codec.parse(token.value).value;
      assert ExtractUsername(codec, token.value) == Ok(body[SubjectClaim].text);
      assert ExtractExpiration(codec, token.value) == Ok(body[ExpirationClaim].millis);
    }
  }

  /** Login followed by refresh within the refresh lifetime: 200, and a new access
      cookie whose token carries the role stored NOW for that username (which may
      differ from the role at login). */
  lemma {:induction false} RefreshAfterLogin(codec: Codec, config: JwtConfig, users: UserStore, u: User,
                                             loginTime: int, cookies: seq<Cookie>, now: int)
    requires Sound(codec) && WellKeyed(users) && u.username in users
    requires FirstCookieValue(cookies, RefreshTokenCookieName) == LoginCookies(codec, config, u, loginTime)[1].value
    requires now <= loginTime + config.refreshTokenExpirationMs
    ensures RefreshOutcome(codec, config, users, cookies, now) ==
              HttpResponse(OK, Api(ApiResponse(true, "Access token refreshed successfully!")),
                           [AccessTokenCookie(config, GenerateAccessToken(codec, config, users[u.username], now))])
  {
    var token := GenerateRefreshToken(codec, config, u, loginTime);
    ExtractUsernameRoundTrip(codec, map[], u.username, config.refreshTokenExpirationMs, loginTime);
    ValidateCreatedToken(codec, map[], u.username, config.refreshTokenExpirationMs, loginTime, users[u.username], now);
  }

  /** There is no token type: an access token placed in the `refreshToken` cookie
      is honoured like a refresh token while it lives. */
  lemma {:induction false} AccessTokenAcceptedForRefresh(codec: Codec, config: JwtConfig, users: UserStore, u: User,
                                                         issuedAt: int, cookies: seq<Cookie>, now: int)
    requires Sound(codec) && WellKeyed(users) && u.username in users
    requires FirstCookieValue(cookies, RefreshTokenCookieName) == Some(GenerateAccessToken(codec, config, u, issuedAt))
    requires now <= issuedAt + config.accessTokenExpirationMs
    ensures RefreshOutcome(codec, config, users, cookies, now).status == OK
  {
    ExtractUsernameRoundTrip(codec, AccessClaims(u), u.username, config.accessTokenExpirationMs, issuedAt);
    ValidateCreatedToken(codec, AccessClaims(u), u.username, config.accessTokenExpirationMs, issuedAt,
                         users[u.username], now);
  }

  /** A signed refresh token presented after its expiration gets 401, no cookie. */
  lemma {:induction false} ExpiredRefreshTokenRefused(codec: Codec, config: JwtConfig, users: UserStore, u: User,
                                                      issuedAt: int, cookies: seq<Cookie>, now: int)
    requires Sound(codec) && WellKeyed(users) && u.username in users
    requires FirstCookieValue(cookies, RefreshTokenCookieName) == Some(GenerateRefreshToken(codec, config, u, issuedAt))
    requires issuedAt + config.refreshTokenExpirationMs < now
    ensures RefreshOutcome(codec, config, users, cookies, now) ==
              Message(UNAUTHORIZED, false, "Invalid or expired refresh token.")
  {
    ExtractUsernameRoundTrip(codec, map[], u.username, config.refreshTokenExpirationMs, issuedAt);
    ValidateCreatedToken(codec, map[], u.username, config.refreshTokenExpirationMs, issuedAt, users[u.username], now);
  }
}
