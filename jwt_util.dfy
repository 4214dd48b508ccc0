/** `JwtUtil`: building the claim sets of access and refresh tokens, and deciding
    whether a token is valid for a user at a given instant.

    Signing and parsing (HMAC-SHA256 over a base64 key, done by the JWT library) are
    not modelled: they are the two functions of a `Codec`, and the properties below
    hold for every codec that is `Sound`, i.e. whose parser accepts exactly the
    tokens the signer produced from well-formed claim sets. Instants are
    milliseconds since the epoch (`System.currentTimeMillis()`, `Date.getTime()`). */
module JwtUtil {
  import opened Wrappers
  import opened JavaLang
  import opened UserModel

  /** The kinds of claim value the application puts into a token. */
  datatype ClaimValue = Text(text: string) | Instant(millis: int) | TextList(items: seq<string>)

  /** A token body: claim name to value. */
  type ClaimSet = map<string, ClaimValue>

  const SubjectClaim: string := "sub"
  const IssuedAtClaim: string := "iat"
  const ExpirationClaim: string := "exp"
  const RolesClaim: string := "roles"

  /** `JwtConfig`: the lifetimes of the two kinds of token, in milliseconds. */
  datatype JwtConfig = JwtConfig(accessTokenExpirationMs: int, refreshTokenExpirationMs: int)

  /** The signing key's two uses: compact-and-sign, and parse-and-verify. */
  datatype Codec = Codec(sign: ClaimSet -> string, parse: string -> Option<ClaimSet>)

  /** A body as `createToken` builds it: subject, issued-at and expiration present. */
  predicate WellFormed(body: ClaimSet) {
    && SubjectClaim in body && body[SubjectClaim].Text?
    && IssuedAtClaim in body && body[IssuedAtClaim].Instant?
    && ExpirationClaim in body && body[ExpirationClaim].Instant?
  }

  /** Parsing undoes signing, and succeeds only on tokens this key signed. */
  ghost predicate Sound(codec: Codec) {
    && (forall body :: WellFormed(body) ==> codec.parse(codec.sign(body)) == Some(body))
    && (forall token :: codec.parse(token).Some? ==>
          WellFormed(codec.parse(token).value) && codec.sign(codec.parse(token).value) == token)
  }

  /** The body `createToken` signs: the custom claims, then subject, issued-at and
      expiration set on top, so that they win over same-named custom claims. */
  function TokenBody(claims: ClaimSet, subject: string, expirationTime: int, now: int): (body: ClaimSet)
    ensures WellFormed(body)
    ensures body[SubjectClaim] == Text(subject)
    ensures body[IssuedAtClaim] == Instant(now)
    ensures body[ExpirationClaim] == Instant(now + expirationTime)
    ensures body.Keys == claims.Keys + {SubjectClaim, IssuedAtClaim, ExpirationClaim}
    ensures forall k :: k in claims && k != SubjectClaim && k != IssuedAtClaim && k != ExpirationClaim ==>
                          body[k] == claims[k]
  {
    claims[SubjectClaim := Text(subject)][IssuedAtClaim := Instant(now)][ExpirationClaim := Instant(now + expirationTime)]
  }

  /** `createToken(claims, subject, expirationTime)` at instant `now`. */
  function CreateToken(codec: Codec, claims: ClaimSet, subject: string, expirationTime: int, now: int): (token: string)
    ensures Sound(codec) ==> codec.parse(token) == Some(TokenBody(claims, subject, expirationTime, now))
  {
    codec.sign(TokenBody(claims, subject, expirationTime, now))
  }

  /** Stripping "ROLE_" from a role's authority gives back the role's name. */
  lemma RoleAuthorityStripped(r: Role)
    ensures RemoveAll(RoleAuthority(r), RolePrefix) == RoleName(r)
  {
    RemoveAllLeading(RolePrefix, RoleName(r));
    RemoveAllWithoutOccurrence(RoleName(r), RolePrefix, '_');
  }

  /** The custom claims of an access token: `roles` lists every authority with each
      "ROLE_" removed, which for a user is exactly the role's name. */
  function AccessClaims(u: User): (claims: ClaimSet)
    ensures claims == map[RolesClaim := TextList([RoleName(u.role)])]
  {
    var auths := Authorities(u);
    var roles := seq(|auths|, i requires 0 <= i < |auths| => RemoveAll(auths[i], RolePrefix));
    RoleAuthorityStripped(u.role);
    assert roles == [RoleName(u.role)];
    map[RolesClaim := TextList(roles)]
  }

  /** `generateAccessToken(userDetails)`. */
  function GenerateAccessToken(codec: Codec, config: JwtConfig, u: User, now: int): (token: string)
    ensures Sound(codec) ==>
      codec.parse(token) ==
      Some(TokenBody(map[RolesClaim := TextList([RoleName(u.role)])], u.username, config.accessTokenExpirationMs, now))
  {
    CreateToken(codec, AccessClaims(u), u.username, config.accessTokenExpirationMs, now)
  }

  /** `generateRefreshToken(userDetails)`: no custom claims, the refresh lifetime. */
  function GenerateRefreshToken(codec: Codec, config: JwtConfig, u: User, now: int): (token: string)
    ensures Sound(codec) ==>
      codec.parse(token) == Some(TokenBody(map[], u.username, config.refreshTokenExpirationMs, now))
  {
    CreateToken(codec, map[], u.username, config.refreshTokenExpirationMs, now)
  }

  /** Why reading a claim fails: the library rejected the token (bad signature,
      malformed), or the claim is absent (the caller then dereferences null). */
  datatype JwtError = InvalidJwt | MissingClaim(claim: string)

  /** `extractUsername(token)`. A null subject is reported as `MissingClaim`: every
      caller treats it exactly as it treats a parse failure. */
  function ExtractUsername(codec: Codec, token: string): (r: Result<string, JwtError>)
    ensures codec.parse(token).None? ==> r == Err(InvalidJwt)
    ensures r.Ok? ==> codec.parse(token).Some? && SubjectClaim in codec.parse(token).value
                      && codec.parse(token).value[SubjectClaim] == Text(r.value)
    ensures Sound(codec) ==> (r.Ok? <==> codec.parse(token).Some?)
  {
    match codec.parse(token)
    case None => Err(InvalidJwt)
    case Some(body) =>
      if SubjectClaim in body && body[SubjectClaim].Text? then Ok(body[SubjectClaim].text)
      else Err(MissingClaim(SubjectClaim))
  }

  /** `extractExpiration(token)`, as milliseconds. */
  function ExtractExpiration(codec: Codec, token: string): (r: Result<int, JwtError>)
    ensures codec.parse(token).None? ==> r == Err(InvalidJwt)
    ensures r.Ok? ==> codec.parse(token).Some? && ExpirationClaim in codec.parse(token).value
                      && codec.parse(token).value[ExpirationClaim] == Instant(r.value)
    ensures Sound(codec) ==> (r.Ok? <==> codec.parse(token).Some?)
  {
    match codec.parse(token)
    case None => Err(InvalidJwt)
    case Some(body) =>
      if ExpirationClaim in body && body[ExpirationClaim].Instant? then Ok(body[ExpirationClaim].millis)
      else Err(MissingClaim(ExpirationClaim))
  }

  /** `isTokenExpired(token)`: the expiration lies strictly before `now`. */
  function IsTokenExpired(codec: Codec, token: string, now: int): (r: Result<bool, JwtError>)
    ensures r.Err? <==> ExtractExpiration(codec, token).Err?
    ensures r.Ok? ==> (r.value <==> ExtractExpiration(codec, token).value < now)
  {
    match ExtractExpiration(codec, token)
    case Err(e) => Err(e)
    case Ok(expiration) => Ok(expiration < now)
  }

  /** `validateToken(token, userDetails)`: the subject is the user's name and the
      token has not expired. Neither the role nor the enabled flag is consulted, and
      a token that cannot be read raises instead of yielding false. */
  function ValidateToken(codec: Codec, token: string, userDetails: User, now: int): (r: Result<bool, JwtError>)
    ensures r == Ok(true) <==>
              && ExtractUsername(codec, token) == Ok(userDetails.username)
              && ExtractExpiration(codec, token).Ok?
              && now <= ExtractExpiration(codec, token).value
    ensures r.Err? ==> ExtractUsername(codec, token).Err? || ExtractExpiration(codec, token).Err?
    ensures Sound(codec) ==> (r.Err? <==> codec.parse(token).None?)
  {
    match ExtractUsername(codec, token)
    case Err(e) => Err(e)
    case Ok(username) =>
      if username != userDetails.username then Ok(false)
      else
        match IsTokenExpired(codec, token, now)
        case Err(e) => Err(e)
        case Ok(expired) => Ok(!expired)
  }

  /** The subject of a freshly created token reads back unchanged. */
  lemma ExtractUsernameRoundTrip(codec: Codec, claims: ClaimSet, subject: string, expirationTime: int, now: int)
    requires Sound(codec)
    ensures ExtractUsername(codec, CreateToken(codec, claims, subject, expirationTime, now)) == Ok(subject)
  {
  }

  /** A created token counts as expired only once `now` is strictly past issued-at
      plus lifetime; at the expiration instant itself it is still live. */
  lemma ExpiredOnlyAfterExpiration(codec: Codec, claims: ClaimSet, subject: string, expirationTime: int,
                                   issuedAt: int, now: int)
    requires Sound(codec)
    ensures IsTokenExpired(codec, CreateToken(codec, claims, subject, expirationTime, issuedAt), now)
            == Ok(issuedAt + expirationTime < now)
  {
  }

  /** A created token validates for any user with the same username, up to and
      including its expiration instant, and for no one else. */
  lemma ValidateCreatedToken(codec: Codec, claims: ClaimSet, subject: string, expirationTime: int,
                             issuedAt: int, userDetails: User, now: int)
    requires Sound(codec)
    ensures ValidateToken(codec, CreateToken(codec, claims, subject, expirationTime, issuedAt), userDetails, now)
            == Ok(userDetails.username == subject && now <= issuedAt + expirationTime)
  {
  }

  /** Validation depends on the user's name only: role, password and `alive` play no part. */
  lemma ValidateIgnoresRoleAndStatus(codec: Codec, token: string, u1: User, u2: User, now: int)
    requires u1.username == u2.username
    ensures ValidateToken(codec, token, u1, now) == ValidateToken(codec, token, u2, now)
  {
  }

  /** An access token carries the `roles` claim, with exactly the role's name, and
      lives for the access lifetime. */
  lemma AccessTokenClaims(codec: Codec, config: JwtConfig, u: User, now: int)
    requires Sound(codec)
    ensures var body := codec.parse(GenerateAccessToken(codec, config, u, now));
            && body.Some?
            && body.value.Keys == {RolesClaim, SubjectClaim, IssuedAtClaim, ExpirationClaim}
            && body.value[RolesClaim] == TextList([RoleName(u.role)])
            && body.value[ExpirationClaim] == Instant(now + config.accessTokenExpirationMs)
  {
  }

  /** A refresh token carries subject, issued-at and expiration only (no `roles`),
      and lives for the refresh lifetime. */
  lemma RefreshTokenClaims(codec: Codec, config: JwtConfig, u: User, now: int)
    requires Sound(codec)
    ensures var body := codec.parse(GenerateRefreshToken(codec, config, u, now));
            && body.Some?
            && body.value.Keys == {SubjectClaim, IssuedAtClaim, ExpirationClaim}
            && RolesClaim !in body.value
            && body.value[SubjectClaim] == Text(u.username)
            && body.value[ExpirationClaim] == Instant(now + config.refreshTokenExpirationMs)
  {
  }
}
