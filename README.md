# Avengers-Home: authentication, authorization and attendance, in Dafny

This project models the security and attendance core of the Avengers-Home Spring
application (package `com.au.cl`) and proves properties of it.

- **JWT tokens** (`JwtUtil`): the claim sets of access and refresh tokens, extracting
  the subject and the expiry, and the validity test ("subject matches and the token
  is not expired"). Signing is a `Codec` parameter. The properties hold for every
  `Sound` codec, meaning its parser accepts exactly the tokens its signer produced.
- **The request filter** (`JwtRequestFilter`): where the token is looked for (the
  `accessToken` cookie first, then the `Bearer` header). Errors are swallowed into
  "no identity". An existing identity is never replaced.
- **The session endpoints** (`AuthController`):
  - registration, with its duplicate check and default fields;
  - login, which sets two HttpOnly cookies;
  - logout, which expires both cookies at the same paths;
  - refresh, which reissues the access cookie only.
- **URL authorization** (`SecurityConfig`): the ordered rule table as a first-match
  function, with the consequences of its order (for example, the shadowed
  `/api/missions/my` rule). `UserController` adds its method-level `@PreAuthorize`
  gates on top, so effective access is the URL rule AND the method gate.
- **Identity** (`User`, `UserDetailsServiceImpl`): the single `ROLE_` authority,
  `isEnabled = alive`, and exact lookup by username.
- **Attendance** (`AttendanceService`):
  - six-digit session codes, unique among active sessions;
  - marking attendance through three ordered checks;
  - monthly workday and absence counts.
- **`UserController`'s input checks**: the blank attendance code, the short
  password, the earnings window, and the mapping of service exceptions to 400 or 500.

Several things are parameters of the model:

- the current time;
- the random code draws;
- the password encoder;
- the result of Spring's authentication manager;
- the security context, passed in and returned as an `Option<Authentication>`.

The user table is a map from username to `User`, kept in a `UserRepository` class.
The attendance tables are sequence fields of the `AttendanceService` class.

Modules:

- `Wrappers`, `JavaLang`, `Http`, `Calendar`: the supporting Java, servlet and
  `java.time` semantics.
- `UserModel`, `UserDetailsService`, `Repositories`, `JwtUtil`, `JwtRequestFilter`,
  `AuthController`, `SecurityConfig`, `Attendance`, `UserController`: one module per
  source component.

## Model

Source paths are under `src/main/java/com/au/cl/`.

| member | source | states |
|---|---|---|
| UserModel.RoleName | src/main/java/com/au/cl/model/User.java:59 | a role's name is non-empty and has no underscore, so removing `ROLE_` from `ROLE_` + name gives the name back |
| UserModel.RoleAuthorityInjective | src/main/java/com/au/cl/model/User.java:58-60 | two roles have the same authority string exactly when they are the same role |
| UserModel.Authorities | src/main/java/com/au/cl/model/User.java:58-60 | `getAuthorities` has exactly one element, and a role's authority is in it exactly when that role is the user's |
| UserModel.AccountStatus | src/main/java/com/au/cl/model/User.java:85-115 | the account is never expired or locked and its credentials never expire; it is enabled exactly when `alive` |
| UserModel.AuthenticationOf | src/main/java/com/au/cl/filter/JwtRequestFilter.java:110-118 | the authentication the filter stores has the user as principal and holds exactly that user's role authority |
| UserDetailsService.LoadUserByUsername | src/main/java/com/au/cl/service/UserDetailsServiceImpl.java:37-49 | succeeds exactly when the username is stored, and then returns the stored user with that username; otherwise fails with `UsernameNotFound` for that name |
| UserDetailsService.LookupIsExact | src/main/java/com/au/cl/service/UserDetailsServiceImpl.java:39-44 | a name different from every stored name fails, even when a stored name differs from it only in case |
| UserDetailsService.LookupIgnoresEnabled | src/main/java/com/au/cl/service/UserDetailsServiceImpl.java:37-48 | a user who is not enabled (not alive) is still returned |
| Repositories.UserRepository.constructor | src/main/java/com/au/cl/repository/UserRepository.java:1-21 | a repository starts from a well-keyed table whose ids are all below the next identity value |
| Repositories.UserRepository.Insert | src/main/java/com/au/cl/controller/AuthController.java:88 | saving a new user gives it the next identity value and adds exactly that row; the invariant is kept |
| Repositories.UserRepository.Update | src/main/java/com/au/cl/service/UserService.java:77 | saving an existing user overwrites exactly its row; the invariant is kept |
| JavaLang.TruncDiv1000 | src/main/java/com/au/cl/controller/AuthController.java:125 | `long` division by 1000 rounds toward zero, for positive and negative operands alike |
| JavaLang.NarrowToInt | src/main/java/com/au/cl/controller/AuthController.java:125 | the `(int)` cast lands in the int range, agrees with the operand modulo 2^32, and is the identity on int values |
| JavaLang.RemoveAll | src/main/java/com/au/cl/util/JwtUtil.java:102 | `String.replace(target, "")` never lengthens the string |
| JavaLang.RemoveAllWithoutOccurrence | src/main/java/com/au/cl/util/JwtUtil.java:102 | a string lacking a character of the target is left unchanged |
| JavaLang.RemoveAllLeading | src/main/java/com/au/cl/util/JwtUtil.java:102 | removing the target from target + s is removing it from s |
| JavaLang.TrimStart | src/main/java/com/au/cl/controller/UserController.java:285 | drops a prefix made only of characters up to the space; the result is empty or starts with a visible character |
| JavaLang.TrimEnd | src/main/java/com/au/cl/controller/UserController.java:285 | the mirror image of TrimStart at the end of the string |
| JavaLang.Trim | src/main/java/com/au/cl/controller/UserController.java:285 | `trim()` is empty exactly when every character is at most the space; otherwise both ends are visible |
| Http.NewCookie | src/main/java/com/au/cl/controller/AuthController.java:121 | a new servlet cookie has the given name and value, no path, max-age -1, and is neither HttpOnly nor secure |
| Http.FirstCookieValue | src/main/java/com/au/cl/filter/JwtRequestFilter.java:63-72 | no value exactly when no cookie has the name; otherwise the value of the first cookie with that name |
| Http.FindCookie | src/main/java/com/au/cl/filter/JwtRequestFilter.java:63-72 | the loop with `break` returns the first cookie of that name, as FirstCookieValue specifies |
| JwtUtil.TokenBody | src/main/java/com/au/cl/util/JwtUtil.java:126-135 | the body is well-formed: `sub` is the subject (overriding any `sub` claim), `iat` is now, `exp` is now plus the lifetime, and every other claim is kept unchanged |
| JwtUtil.CreateToken | src/main/java/com/au/cl/util/JwtUtil.java:126-135 | under a sound codec, the token parses back to exactly that body |
| JwtUtil.RoleAuthorityStripped | src/main/java/com/au/cl/util/JwtUtil.java:100-103 | removing every `ROLE_` from a role's authority gives the role's name |
| JwtUtil.AccessClaims | src/main/java/com/au/cl/util/JwtUtil.java:98-103 | an access token's custom claims are exactly `roles` = [the role's name] |
| JwtUtil.GenerateAccessToken | src/main/java/com/au/cl/util/JwtUtil.java:98-105 | the token carries the username, `roles` and the access lifetime |
| JwtUtil.GenerateRefreshToken | src/main/java/com/au/cl/util/JwtUtil.java:113-117 | the token carries no custom claims and uses the refresh lifetime |
| JwtUtil.ExtractUsername | src/main/java/com/au/cl/util/JwtUtil.java:70-72 | an unparsable token is an error; a result is the parsed `sub` text; under a sound codec it succeeds exactly on parsable tokens |
| JwtUtil.ExtractExpiration | src/main/java/com/au/cl/util/JwtUtil.java:79-81 | the same for the `exp` instant |
| JwtUtil.IsTokenExpired | src/main/java/com/au/cl/util/JwtUtil.java:88-90 | fails exactly when the expiry cannot be read; otherwise true exactly when the expiry is strictly before now |
| JwtUtil.ValidateToken | src/main/java/com/au/cl/util/JwtUtil.java:144-147 | true exactly when the subject equals the user's username and now is not after the expiry; under a sound codec it fails (raises) exactly on unparsable tokens |
| JwtUtil.ExtractUsernameRoundTrip | src/main/java/com/au/cl/util/JwtUtil.java:70-72 | the username extracted from a created token is the subject it was created with |
| JwtUtil.ExpiredOnlyAfterExpiration | src/main/java/com/au/cl/util/JwtUtil.java:88-90 | a created token is expired exactly when iat + lifetime < now, so not at `exp == now` |
| JwtUtil.ValidateCreatedToken | src/main/java/com/au/cl/util/JwtUtil.java:144-147 | a created token validates for a user exactly when the subject is the user's name and it has not expired |
| JwtUtil.ValidateIgnoresRoleAndStatus | src/main/java/com/au/cl/util/JwtUtil.java:144-147 | validation depends on the user only through the username: not on role, password or enabled status |
| JwtUtil.AccessTokenClaims | src/main/java/com/au/cl/util/JwtUtil.java:98-105 | an access token's body has exactly the keys `roles`, `sub`, `iat`, `exp`, with `roles` = [role name] and the access expiry |
| JwtUtil.RefreshTokenClaims | src/main/java/com/au/cl/util/JwtUtil.java:113-117 | a refresh token's body has exactly `sub`, `iat`, `exp` (no `roles`) and the refresh expiry |
| JwtRequestFilter.BearerToken | src/main/java/com/au/cl/filter/JwtRequestFilter.java:74-81 | a token exactly when the header starts with "Bearer ", and the header is "Bearer " followed by the token |
| JwtRequestFilter.Identify | src/main/java/com/au/cl/filter/JwtRequestFilter.java:84-118 | a user is found only when the subject loads and the token validates for that user; under a sound codec it never raises, and it finds a user exactly when the token parses, its subject is stored and it has not expired |
| JwtRequestFilter.DoFilterInternal | src/main/java/com/au/cl/filter/JwtRequestFilter.java:54-136 | the step-by-step filter computes FilterDecision; an existing authentication is kept; under a sound codec the chain always continues |
| JwtRequestFilter.CookieTakesPrecedence | src/main/java/com/au/cl/filter/JwtRequestFilter.java:63-72 | with an `accessToken` cookie, the first such cookie's value is the token, whatever the header says |
| JwtRequestFilter.HeaderFallback | src/main/java/com/au/cl/filter/JwtRequestFilter.java:74-81 | with no such cookie, a "Bearer " header supplies the token |
| JwtRequestFilter.ForgedTokenAuthenticatesNoOne | src/main/java/com/au/cl/filter/JwtRequestFilter.java:84-94 | an unparsable token leaves the context empty and the request continues |
| JwtRequestFilter.UnknownSubjectAuthenticatesNoOne | src/main/java/com/au/cl/filter/JwtRequestFilter.java:98-105 | a subject missing from the user table leaves the context empty, without error |
| JwtRequestFilter.SignedTokenAuthenticatesStoredUser | src/main/java/com/au/cl/filter/JwtRequestFilter.java:97-118 | an unexpired created token for a stored subject authenticates exactly that stored user |
| JwtRequestFilter.RefreshTokenAcceptedAsAccessToken | src/main/java/com/au/cl/filter/JwtRequestFilter.java:108-118 | a refresh token presented as an access token authenticates its user (there is no token-type claim) |
| JwtRequestFilter.DisabledUserStillAuthenticated | src/main/java/com/au/cl/filter/JwtRequestFilter.java:108-118 | a user who is not alive is still authenticated by a valid token (the filter has no `isEnabled` check) |
| JwtRequestFilter.ExpiredTokenAuthenticatesNoOne | src/main/java/com/au/cl/filter/JwtRequestFilter.java:108-118 | a token whose expiry is before now authenticates no one and the request continues |
| AuthController.MaxAgeSeconds | src/main/java/com/au/cl/controller/AuthController.java:125 | the cookie max-age is an int, and for non-negative lifetimes it is the lifetime in ms divided by 1000, rounded down |
| AuthController.BuildCookie | src/main/java/com/au/cl/controller/AuthController.java:121-126 | setting the fields one by one gives an HttpOnly, non-secure cookie with the given name, value, path and max-age |
| AuthController.RegisterUser | src/main/java/com/au/cl/controller/AuthController.java:71-91 | an existing username gives 400 "Username is already taken!" with nothing saved; otherwise 201 and exactly one new row: an AVENGER with the encoded password, balance 0.0, alive |
| AuthController.RegisteredUserIsLoadable | src/main/java/com/au/cl/controller/AuthController.java:79-88 | a registered user loads by name as an enabled AVENGER with the encoded password and authority `ROLE_AVENGER` |
| AuthController.AuthenticateUser | src/main/java/com/au/cl/controller/AuthController.java:99-152 | success: 200 with only username and role name, the two login cookies, and the principal in the context. Bad credentials: 401 "Incorrect username or password.". Any other failure: 500. No cookie is set on failure |
| AuthController.LoginCookiesCarryTokens | src/main/java/com/au/cl/controller/AuthController.java:116-135 | exactly two HttpOnly cookies: `accessToken` at `/` holding the access token with its max-age, and `refreshToken` at `/api/auth` holding the refresh token with its max-age |
| AuthController.LogoutUser | src/main/java/com/au/cl/controller/AuthController.java:160-183 | always 200 "Logged out successfully!", both cookies cleared, the context emptied |
| AuthController.LogoutClearsLoginCookies | src/main/java/com/au/cl/controller/AuthController.java:166-179 | logout sets the same cookie names at the same paths as login, with no value and max-age 0 |
| AuthController.RefreshToken | src/main/java/com/au/cl/controller/AuthController.java:193-240 | the loop-based handler computes RefreshOutcome; it sets only `accessToken` cookies, and exactly one exactly when it answers 200 |
| AuthController.RefreshSucceedsExactly | src/main/java/com/au/cl/controller/AuthController.java:198-239 | under a sound codec: 200 exactly when a `refreshToken` cookie exists, parses, names a stored user and is unexpired; no cookie gives 401 "Refresh token not found." |
| AuthController.RefreshRefusals | src/main/java/com/au/cl/controller/AuthController.java:214-239 | under a sound codec: an unsigned token, or one naming no stored user, gives 500 "Error refreshing token."; a signed, expired token for a stored user gives 401 "Invalid or expired refresh token." |
| AuthController.RefreshAfterLogin | src/main/java/com/au/cl/controller/AuthController.java:213-231 | the refresh cookie of a login, used before it expires, yields 200 and one new access cookie for the reloaded user; the refresh token is not reissued |
| AuthController.AccessTokenAcceptedForRefresh | src/main/java/com/au/cl/controller/AuthController.java:213-231 | an unexpired access token placed in the `refreshToken` cookie is accepted too (there is no token-type claim) |
| AuthController.ExpiredRefreshTokenRefused | src/main/java/com/au/cl/controller/AuthController.java:232-235 | an expired refresh token gives 401 "Invalid or expired refresh token." and no cookie |
| SecurityConfig.DecideSkips | src/main/java/com/au/cl/config/SecurityConfig.java:37-70 | rules before the first match do not influence the decision |
| SecurityConfig.DecidedBy | src/main/java/com/au/cl/config/SecurityConfig.java:37-70 | the first matching rule decides |
| SecurityConfig.DecidedByDefault | src/main/java/com/au/cl/config/SecurityConfig.java:70 | a request matching no rule needs only authentication |
| SecurityConfig.Lits | src/main/java/com/au/cl/config/SecurityConfig.java:39-67 | a literal pattern has one literal segment per name |
| SecurityConfig.LitsPrefixMatches | src/main/java/com/au/cl/config/SecurityConfig.java:39-67 | literal segments match exactly the paths that begin with those names |
| SecurityConfig.ExactMatches | src/main/java/com/au/cl/config/SecurityConfig.java:40 | an exact pattern matches that path only |
| SecurityConfig.UnderMatches | src/main/java/com/au/cl/config/SecurityConfig.java:39 | a `/**` pattern matches the path itself and everything below it |
| SecurityConfig.RoleRuleAdmitsExactly | src/main/java/com/au/cl/config/SecurityConfig.java:44-67 | for an authenticated user, `hasAnyRole` grants exactly when the user's role is listed, and otherwise forbids |
| SecurityConfig.PrefixMatchesAt | src/main/java/com/au/cl/config/SecurityConfig.java:39-67 | a matched pattern prefix fixes each path segment it covers |
| SecurityConfig.PrefixAppend | src/main/java/com/au/cl/config/SecurityConfig.java:39-67 | matching a pattern against a path split in two parts splits accordingly |
| SecurityConfig.ApiSkipsPageRules | src/main/java/com/au/cl/config/SecurityConfig.java:39-46 | no page or resource rule matches an `/api` path outside `/api/auth` |
| SecurityConfig.ApiSkipsAdminRules | src/main/java/com/au/cl/config/SecurityConfig.java:49-52 | the `/api/admin`, `/api/users` and `/api/transactions/admin` rules match nothing outside those paths |
| SecurityConfig.ApiSkipsMissionRules | src/main/java/com/au/cl/config/SecurityConfig.java:53-66 | the `/api/missions` rules match nothing outside `/api/missions` |
| SecurityConfig.ApiSkipsFeedbackRules | src/main/java/com/au/cl/config/SecurityConfig.java:55-65 | the `/api/feedback` rules match nothing else |
| SecurityConfig.ApiSkipsSharedRules | src/main/java/com/au/cl/config/SecurityConfig.java:58-62 | the rules shared by both roles match nothing outside their own paths |
| SecurityConfig.AuthEndpointsPublic | src/main/java/com/au/cl/config/SecurityConfig.java:39 | everything under `/api/auth` is public, for every method |
| SecurityConfig.PublicPages | src/main/java/com/au/cl/config/SecurityConfig.java:40 | each of `/`, `/index.html` and `/register.html` is public, for every method |
| SecurityConfig.PublicResources | src/main/java/com/au/cl/config/SecurityConfig.java:41 | everything under the static-resource directories is public |
| SecurityConfig.FaviconPublic | src/main/java/com/au/cl/config/SecurityConfig.java:41 | `/favicon.ico` is public, for every method |
| SecurityConfig.AdminApiNeedsAdmin | src/main/java/com/au/cl/config/SecurityConfig.java:49 | everything under `/api/admin` needs ADMIN, for every method |
| SecurityConfig.MissionsMyShadowed | src/main/java/com/au/cl/config/SecurityConfig.java:54-66 | every request the `/api/missions/my` rule matches is already matched by the `/api/missions/**` rule, so that rule never decides |
| SecurityConfig.MissionsMyNeedsAdmin | src/main/java/com/au/cl/config/SecurityConfig.java:54 | hence `/api/missions/my` needs ADMIN, for every method |
| SecurityConfig.FeedbackGetNeedsAdmin | src/main/java/com/au/cl/config/SecurityConfig.java:55 | `GET /api/feedback` needs ADMIN |
| SecurityConfig.FeedbackPostNeedsAvenger | src/main/java/com/au/cl/config/SecurityConfig.java:65 | `POST /api/feedback` needs AVENGER |
| SecurityConfig.FeedbackOtherMethodsAuthenticated | src/main/java/com/au/cl/config/SecurityConfig.java:70 | any other method on `/api/feedback` needs only authentication |
| SecurityConfig.UserDetailsNeedsEitherRole | src/main/java/com/au/cl/config/SecurityConfig.java:58 | `/api/user/details` is decided by its own rule: ADMIN or AVENGER |
| SecurityConfig.UserDetailsAdmitsBothRoles | src/main/java/com/au/cl/config/SecurityConfig.java:58 | every user's authentication is granted on `/api/user/details` and anonymous requests are not |
| SecurityConfig.AvengerPathsAtUrlLevel | src/main/java/com/au/cl/config/SecurityConfig.java:67-70 | under `/api/avenger` only `attendance/mark` has a URL rule (AVENGER); every other path there needs only authentication |
| Calendar.MonthLength | src/main/java/com/au/cl/service/AttendanceService.java:141 | a month has 28 to 31 days; February has 28 exactly in common years and 29 exactly in leap years |
| Calendar.DayOfWeek | src/main/java/com/au/cl/service/AttendanceService.java:146 | the weekday index is in 0..6 (Monday is 0) |
| Calendar.EpochDayWithinMonth | src/main/java/com/au/cl/service/AttendanceService.java:144-146 | the days of a month are consecutive epoch days |
| Calendar.EpochAnchors | src/main/java/com/au/cl/service/AttendanceService.java:146 | 1970-01-01 is day 0, a Thursday; 2000-03-01 is day 11017, a Wednesday |
| Attendance.DecimalValue | src/main/java/com/au/cl/service/AttendanceService.java:58 | a string of n digits reads as a number below 10^n |
| Attendance.PadDecimal | src/main/java/com/au/cl/service/AttendanceService.java:58 | zero-padded formatting has exactly the width and only digits |
| Attendance.PadDecimalRoundTrip | src/main/java/com/au/cl/service/AttendanceService.java:58 | reading back a zero-padded number gives the number, whenever it fits in the width |
| Attendance.SixDigitCode | src/main/java/com/au/cl/service/AttendanceService.java:58 | `String.format("%06d", n)` for n in [0, 999999] is six digits that read back as n, so distinct draws give distinct codes |
| Attendance.FindActiveFrom | src/main/java/com/au/cl/service/AttendanceService.java:59 | `findByAttendanceCodeAndIsActiveTrue` finds nothing exactly when no active session has the code; otherwise it finds an active session with that code |
| Attendance.FoundIsOnlyHolder | src/main/java/com/au/cl/model/AttendanceSession.java:25 | with the unique code column, the session found is the only one holding the code |
| Attendance.Mark | src/main/java/com/au/cl/service/AttendanceService.java:87-110 | "Invalid or expired attendance code." exactly when no active session has the code. Expiry (now strictly after the end) deactivates that session. Success adds exactly the record (session, user, now) after checking there was none. Failures add no record and carry one of the three messages. The table invariants are kept |
| Attendance.MarkByCase | src/main/java/com/au/cl/service/AttendanceService.java:88-108 | for the active session holding the code: after its end, the session expires and is deactivated; before it, an already recorded user is refused with nothing changed; any other user is recorded once and nothing else changes |
| Attendance.MarkAtEndTimeAllowed | src/main/java/com/au/cl/service/AttendanceService.java:92 | marking at exactly the end time succeeds |
| Attendance.MarkTwiceFails | src/main/java/com/au/cl/service/AttendanceService.java:99-101 | a second mark by the same user for the same open session fails with "You have already marked attendance for this session." |
| Attendance.ExpiredCodeStaysRefused | src/main/java/com/au/cl/service/AttendanceService.java:92-96 | after an attempt on an expired session, its code is refused as invalid for everyone |
| Attendance.FirstFreeDraw | src/main/java/com/au/cl/service/AttendanceService.java:57-62 | the do-while loop settles on the first draw whose code no active session holds |
| Attendance.Start | src/main/java/com/au/cl/service/AttendanceService.java:64-77 | the session is refused exactly when some session (necessarily inactive) already holds the code; otherwise exactly one active session is appended with id = its position, start = now and end = now + duration, and the response repeats them; invariants kept |
| Attendance.StartSucceedsWhileAllActive | src/main/java/com/au/cl/service/AttendanceService.java:57-74 | while every stored session is active, the code the loop picks never collides with the unique column |
| Attendance.StartedSessionAcceptsMarks | src/main/java/com/au/cl/service/AttendanceService.java:64-108 | a freshly started session accepts every user's mark up to its end time |
| Attendance.AttendanceService.constructor | src/main/java/com/au/cl/service/AttendanceService.java:37-44 | empty tables, the configured duration, invariants established |
| Attendance.AttendanceService.WithDefaultDuration | src/main/java/com/au/cl/service/AttendanceService.java:37-38 | without the setting, sessions last the default 60 seconds; empty tables, invariants established |
| Attendance.AttendanceService.StartAttendanceSession | src/main/java/com/au/cl/service/AttendanceService.java:52-78 | the do-while loop picks the first free draw; the new state and result are Start's; the code is six digits and differs from every active session's code |
| Attendance.AttendanceService.MarkAttendance | src/main/java/com/au/cl/service/AttendanceService.java:87-110 | the three checks in order, then the new state and outcome Mark describes; invariants kept |
| Attendance.CountWorkDays | src/main/java/com/au/cl/service/AttendanceService.java:144-147 | among days 1..last there are at most `last` workdays |
| Attendance.CountWorkDaysIsCardinality | src/main/java/com/au/cl/service/AttendanceService.java:144-147 | the count is exactly the number of days in 1..last that are neither Saturday nor Sunday |
| Attendance.WeekHasFiveWorkDays | src/main/java/com/au/cl/service/AttendanceService.java:144-147 | any seven consecutive days of the count hold exactly five days that are not Saturday or Sunday |
| Attendance.WorkDays | src/main/java/com/au/cl/service/AttendanceService.java:144-147 | every month has 20 to 23 workdays, and a 28-day February exactly 20 |
| Attendance.DaysAbsent | src/main/java/com/au/cl/service/AttendanceService.java:152-153 | absences are never negative: workdays minus days present when that is non-negative, else 0 |
| Attendance.MonthlyStats | src/main/java/com/au/cl/service/AttendanceService.java:139-160 | days present are reported as counted; absences are between 0 and the month's workdays, zero once present reaches the workdays, and make up the workdays together with present otherwise |
| UserController.Effective | src/main/java/com/au/cl/controller/UserController.java:34-35 | a request reaches a handler exactly when both the URL rule and the method gate grant it; it is unauthenticated when either refuses for lack of identity |
| UserController.MatchedPathBegins | src/main/java/com/au/cl/controller/UserController.java:34 | a path matched by a pattern that begins with two literal segments begins with them too |
| UserController.AdminHandlersNeedAdmin | src/main/java/com/au/cl/controller/UserController.java:94-226 | every `/api/admin` handler admits a user exactly when the role is ADMIN, and refuses anonymous requests |
| UserController.AvengerHandlersFollowTheirGates | src/main/java/com/au/cl/controller/UserController.java:240-452 | every `/api/avenger` handler admits exactly AVENGER, except announcements, which admits both roles. An ADMIN is forbidden elsewhere, and anonymous requests are refused |
| UserController.UserDetailsOpenToBothRoles | src/main/java/com/au/cl/controller/UserController.java:70-71 | `/api/user/details` admits users of either role and refuses anonymous requests |
| UserController.ServiceResponse | src/main/java/com/au/cl/controller/UserController.java:291-300 | 200 exactly on success. An `IllegalArgumentException` gives 400 with its own message. Any other exception gives 500 with the handler's generic message |
| UserController.SendPaymentResponse | src/main/java/com/au/cl/controller/UserController.java:124-133 | success is 200 "Payment processed successfully!", an `IllegalArgumentException` is 400 with its message, anything else is 500 with the payment error message; no other status |
| UserController.Get | src/main/java/com/au/cl/controller/UserController.java:284 | `Map.get`: a value exactly when the key is present, and then the stored value |
| UserController.BlankCodeMeansNoVisibleCharacter | src/main/java/com/au/cl/controller/UserController.java:285 | a code is blank exactly when it is missing or has only characters up to the space |
| UserController.AsServiceOutcome | src/main/java/com/au/cl/service/AttendanceService.java:84 | every failure of `markAttendance` is an `IllegalArgumentException` carrying its message |
| UserController.MarkAttendance | src/main/java/com/au/cl/controller/UserController.java:281-301 | a missing or blank code gives 400 "Attendance code cannot be empty." and leaves the service untouched; otherwise the untrimmed code is marked and the outcome mapped (200, or 400 with the service's message) |
| UserController.MarkResponseStatus | src/main/java/com/au/cl/controller/UserController.java:291-300 | marking answers 200 or 400, and 200 exactly when one record was added |
| UserController.ChangePassword | src/main/java/com/au/cl/controller/UserController.java:451-466 | a missing password or one under 8 characters gives 400 "New password must be at least 8 characters long." with nothing saved; otherwise the principal's row gets the encoded new password, and the answer is 200 "Password changed successfully!" |
| UserController.EarningsWindow | src/main/java/com/au/cl/controller/UserController.java:366-367 | defined exactly for months 1..12 of years within `LocalDateTime`'s range, else a `DateTimeException`; both ends are valid date-times, start before end |
| UserController.EarningsWindowIsTheMonth | src/main/java/com/au/cl/controller/UserController.java:366-367 | a valid date-time lies in the window exactly when it falls in that year and month |

## Left out

- Cryptography. HMAC-SHA256 signing, base64 key decoding and the JWT library's parser are the `Codec` parameter. The properties assume a `Sound` codec.
- The JWT library's own expiry check inside `parseClaimsJws`. In the application an expired token makes parsing throw `ExpiredJwtException`. As a result:
  - the filter catches it during extraction (the model answers "no identity" too);
  - refresh answers 500 "Error refreshing token.", where the model answers 401 "Invalid or expired refresh token.".
- The second resolution of `iat` and `exp`. JWT dates are stored in whole seconds; the model keeps milliseconds.
- The `long` overflow of `now + expirationTime`. Integers are unbounded here.
- `Claims.getSubject()` returning null. It is modelled as the error `MissingClaim`, which has the same effect in every caller.
- Spring's `AuthenticationManager` and BCrypt. The authentication result and the password encoder are parameters. A disabled (not alive) user is refused by the manager with `DisabledException`, i.e. the 500 branch of login; the model receives that as `AuthenticationFailure`.
- The `SecurityContextHolder` thread-local. It is an explicit in/out `Option<Authentication>`.
- Spring's path matcher beyond the forms the tables use: literal segments, one `{var}` segment and a trailing `/**`. Trailing slashes, URL decoding and matrix parameters are not modelled.
- The HTTP status of a request refused by authorization. `Decision` says Granted, Unauthenticated or Forbidden; the entry point that turns these into 401/403 is not part of the configuration.
- `@Valid` bean validation of request DTOs, and Spring's conversion of `{year}`/`{month}` path variables to `int`.
- `@Transactional` rollback. `markAttendance` throws after deactivating an expired session, so in the application the deactivation is rolled back. The model keeps the write as the code states it.
- AuthController.AuthenticateUser: the access and refresh tokens each read `System.currentTimeMillis()` when created; the model issues both at one instant `now`, so their `iat` coincide here (also in `LoginCookiesCarryTokens` and `RefreshAfterLogin`), while in the application they may differ by a millisecond or more.
- Attendance.Mark: the two `LocalDateTime.now()` reads in `markAttendance` (the expiry test and `markedAt`) are taken as one instant.
- Attendance.MonthlyStats: days present is a parameter. The repository query `countByUserAndMarkedAtBetween` compares a `LocalDateTime` column against `LocalDate` bounds, and that query is not modelled. The floating-point `attendanceRate` is left out.
- `getAllAttendanceRecords` and `getAttendanceHistoryForAvenger`: listing and ordering queries, not modelled.
- Floating point: balances, payment sums, the attendance rate.
- The CRUD services (`TransactionService`, `MissionService`, `FeedbackService`, `AnnouncementService`, `UserService` beyond `changePassword`) and the data each handler returns. The handlers appear only through their gates, their input checks and the exception mapping.
- UserController.MarkAttendance: the 500 branch ("An unexpected error occurred during attendance marking.") cannot arise, because the modelled service throws only `IllegalArgumentException`.
- UserController.ChangePassword: the 500 branch ("An unexpected error occurred during password change.") is not modelled; the repository update cannot fail here.
- Java `String.length()` counts UTF-16 code units. Strings here are sequences of characters, so the 8-character password minimum is counted in characters.
- Concurrency, e.g. two administrators drawing the same code at once, and the database's own enforcement of the unique code column under races.
- Logging, CORS (`WebConfig`), DTO classes, and `JwtConfig` beyond its two lifetimes.
