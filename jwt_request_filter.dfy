/** `JwtRequestFilter`: once per request, find an access token (the `accessToken`
    cookie first, else an `Authorization: Bearer` header), and, when the security
    context is still empty, authenticate the token's subject if the token validates
    for the stored user. The request always continues down the chain unless
    validation itself raises. */
module JwtRequestFilter {
  import opened Wrappers
  import opened JavaLang
  import opened UserModel
  import opened Http
  import opened UserDetailsService
  import opened JwtUtil

  /** The parts of a request the filter reads. */
  datatype Request = Request(cookies: seq<Cookie>, authorization: Option<string>)

  const BearerPrefix: string := "Bearer "

  /** What happens after the filter: the chain continues with this security
      context, or an exception escapes the filter. */
  datatype FilterOutcome = Proceed(context: Option<Authentication>) | Raised(error: JwtError)

  /** The token of an `Authorization` header, if it starts with "Bearer ". */
  function BearerToken(header: Option<string>): (t: Option<string>)
    ensures t.Some? <==> header.Some? && StartsWith(header.value, BearerPrefix)
    ensures t.Some? ==> header.value == BearerPrefix + t.value
  {
    if header.Some? && StartsWith(header.value, BearerPrefix) then
      Some(header.value[|BearerPrefix|..])
    else
      None
  }

  /** Steps 1 and 2 of the filter: the first `accessToken` cookie, else the bearer token. */
  function LocateToken(request: Request): Option<string> {
    match FirstCookieValue(request.cookies, AccessTokenCookieName)
    case Some(value) => Some(value)
    case None => BearerToken(request.authorization)
  }

  /** Steps 3 and 4 for a located token: the user it authenticates, if any. A token
      whose subject cannot be read, or whose subject is not stored, authenticates no
      one; a failure inside `validateToken` is not caught and escapes. */
  function Identify(codec: Codec, users: UserStore, token: string, now: int): (r: Result<Option<User>, JwtError>)
    ensures r.Ok? && r.value.Some? ==>
              && ExtractUsername(codec, token).Ok?
              && LoadUserByUsername(users, ExtractUsername(codec, token).value) == Ok(r.value.value)
              && ValidateToken(codec, token, r.value.value, now) == Ok(true)
    ensures Sound(codec) ==> r.Ok?
    ensures Sound(codec) && WellKeyed(users) ==>
              (r.value.Some? <==>
                 && codec.parse(token).Some?
                 && codec.parse(token).value[SubjectClaim].text in users
                 && now <= codec.parse(token).value[ExpirationClaim].millis)
  {
    match ExtractUsername(codec, token)
    case Err(_) => Ok(None)
    case Ok(username) =>
      match LoadUserByUsername(users, username)
      case Err(_) => Ok(None)
      case Ok(userDetails) =>
        match ValidateToken(codec, token, userDetails, now)
        case Err(e) => Err(e)
        case Ok(valid) => if valid then Ok(Some(userDetails)) else Ok(None)
  }

  /** The whole filter as a function of the request, the user table, the security
      context on entry and the current instant. */
  function FilterDecision(codec: Codec, users: UserStore, request: Request,
                          context: Option<Authentication>, now: int): FilterOutcome
  {
    match LocateToken(request)
    case None => Proceed(context)
    case Some(token) =>
      if context.Some? then Proceed(context)
      else
        match Identify(codec, users, token, now)
        case Err(e) => Raised(e)
        case Ok(None) => Proceed(None)
        case Ok(Some(userDetails)) => Proceed(Some(AuthenticationOf(userDetails)))
  }

  /** `doFilterInternal`: scans the cookies in order, falls back to the header, then
      authenticates as `FilterDecision` says. An existing authentication is never
      replaced, and with a sound codec the chain always continues. */
  method DoFilterInternal(codec: Codec, users: UserStore, request: Request,
                          context: Option<Authentication>, now: int) returns (outcome: FilterOutcome)
    ensures outcome == FilterDecision(codec, users, request, context, now)
    ensures context.Some? ==> outcome == Proceed(context)
    ensures Sound(codec) ==> outcome.Proceed?
  {
    var accessToken := FindCookie(request.cookies, AccessTokenCookieName);
    if accessToken.None? {
      accessToken := BearerToken(request.authorization);
    }
    assert accessToken == LocateToken(request);

    var username: Option<string> := None;
    if accessToken.Some? {
      var extracted := ExtractUsername(codec, accessToken.value);
      if extracted.Ok? {
        username := Some(extracted.value);
      }
    }

    outcome := Proceed(context);
    if username.Some? && context.None? {
      var loaded := LoadUserByUsername(users, username.value);
      if loaded.Ok? {
        var valid := ValidateToken(codec, accessToken.value, loaded.value, now);
        if valid.Err? {
          outcome := Raised(valid.error);
        } else if valid.value {
          outcome := Proceed(Some(AuthenticationOf(loaded.value)));
        } else {
          outcome := Proceed(None);
        }
      } else {
        outcome := Proceed(None);
      }
    }
  }

  /** A request carrying an `accessToken` cookie never consults its header. */
  lemma CookieTakesPrecedence(request: Request, value: string)
    requires FirstCookieValue(request.cookies, AccessTokenCookieName) == Some(value)
    ensures LocateToken(request) == Some(value)
  {
  }

  /** Without the cookie, a "Bearer " header supplies the token, the rest of the header verbatim. */
  lemma HeaderFallback(request: Request, token: string)
    requires forall i :: 0 <= i < |request.cookies| ==> request.cookies[i].name != AccessTokenCookieName
    requires request.authorization == Some(BearerPrefix + token)
    ensures LocateToken(request) == Some(token)
  {
    assert StartsWith(BearerPrefix + token, BearerPrefix);
    assert (BearerPrefix + token)[|BearerPrefix|..] == token;
  }

  /** A token that the key did not sign leaves the request anonymous. */
  lemma ForgedTokenAuthenticatesNoOne(codec: Codec, users: UserStore, request: Request, now: int)
    requires LocateToken(request).Some? && codec.parse(LocateToken(request).value).None?
    ensures FilterDecision(codec, users, request, None, now) == Proceed(None)
  {
  }

  /** A token whose subject is not stored leaves the request anonymous. */
  lemma UnknownSubjectAuthenticatesNoOne(codec: Codec, users: UserStore, request: Request, now: int)
    requires LocateToken(request).Some?
    requires ExtractUsername(codec, LocateToken(request).value).Ok?
    requires ExtractUsername(codec, LocateToken(request).value).value !in users
    ensures FilterDecision(codec, users, request, None, now) == Proceed(None)
  {
  }

  /** A token this key signed for a stored username, presented no later than its
      expiration, authenticates the STORED user with the stored role's authority,
      whatever the token itself says about roles. Neither the kind of token (access
      or refresh) nor the stored user's `alive` flag is checked. */
  lemma {:induction false} SignedTokenAuthenticatesStoredUser(
      codec: Codec, users: UserStore, request: Request, claims: ClaimSet, subject: string,
      expirationTime: int, issuedAt: int, now: int)
    requires Sound(codec) && WellKeyed(users)
    requires subject in users
    requires LocateToken(request) == Some(CreateToken(codec, claims, subject, expirationTime, issuedAt))
    requires now <= issuedAt + expirationTime
    ensures FilterDecision(codec, users, request, None, now) == Proceed(Some(AuthenticationOf(users[subject])))
  {
    var token := LocateToken(request).value;
    ExtractUsernameRoundTrip(codec, claims, subject, expirationTime, issuedAt);
    ValidateCreatedToken(codec, claims, subject, expirationTime, issuedAt, users[subject], now);
  }

  /** Instance: a refresh token presented as the access token authenticates its user. */
  lemma RefreshTokenAcceptedAsAccessToken(
      codec: Codec, config: JwtConfig, users: UserStore, request: Request, u: User, issuedAt: int, now: int)
    requires Sound(codec) && WellKeyed(users) && u.username in users
    requires LocateToken(request) == Some(GenerateRefreshToken(codec, config, u, issuedAt))
    requires now <= issuedAt + config.refreshTokenExpirationMs
    ensures FilterDecision(codec, users, request, None, now) == Proceed(Some(AuthenticationOf(users[u.username])))
  {
    SignedTokenAuthenticatesStoredUser(codec, users, request, map[], u.username,
                                       config.refreshTokenExpirationMs, issuedAt, now);
  }

  /** Instance: a disabled (not alive) user's live access token still authenticates. */
  lemma DisabledUserStillAuthenticated(
      codec: Codec, config: JwtConfig, users: UserStore, request: Request, u: User, issuedAt: int, now: int)
    requires Sound(codec) && WellKeyed(users) && u.username in users && !IsEnabled(users[u.username])
    requires LocateToken(request) == Some(GenerateAccessToken(codec, config, u, issuedAt))
    requires now <= issuedAt + config.accessTokenExpirationMs
    ensures FilterDecision(codec, users, request, None, now) == Proceed(Some(AuthenticationOf(users[u.username])))
  {
    SignedTokenAuthenticatesStoredUser(codec, users, request, AccessClaims(u), u.username,
                                       config.accessTokenExpirationMs, issuedAt, now);
  }

  /** A signed token presented after its expiration instant leaves the request anonymous. */
  lemma ExpiredTokenAuthenticatesNoOne(
      codec: Codec, users: UserStore, request: Request, claims: ClaimSet, subject: string,
      expirationTime: int, issuedAt: int, now: int)
    requires Sound(codec) && WellKeyed(users)
    requires LocateToken(request) == Some(CreateToken(codec, claims, subject, expirationTime, issuedAt))
    requires issuedAt + expirationTime < now
    ensures FilterDecision(codec, users, request, None, now) == Proceed(None)
  {
  }
}
