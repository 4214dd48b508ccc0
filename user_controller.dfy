/** `UserController`: the `/api` handlers for both roles. Modelled here are the
    method-level `@PreAuthorize` gates, which apply after the URL rules of
    `SecurityConfig`, the input checks of the attendance-marking, password-change and
    earnings handlers, and the mapping of service exceptions to responses. */
module UserController {
  import opened Wrappers
  import opened UserModel
  import opened Http
  import opened JavaLang
  import opened Calendar
  import opened SecurityConfig
  import opened Attendance
  import opened Repositories

  // ---------------------------------------------------------------------------
  // Method-level gates

  /** A handler: its HTTP method, its full path pattern (under the class-level
      `/api` mapping) and its `@PreAuthorize` rule. */
  datatype Handler = Handler(httpMethod: HttpMethod, pattern: Pattern, gate: Access)

  const UserDetailsHandler: Handler := Handler(GET, Exact(["api", "user", "details"]), AdminOrAvenger)

  /** The handlers under `/api/admin`, in declaration order. */
  const AdminHandlers: seq<Handler> := [
    Handler(GET, Exact(["api", "admin", "avengers"]), AdminOnly),
    Handler(GET, Exact(["api", "admin", "dashboard-stats"]), AdminOnly),
    Handler(POST, Exact(["api", "admin", "payments", "send"]), AdminOnly),
    Handler(GET, Exact(["api", "admin", "payments", "history"]), AdminOnly),
    Handler(POST, Exact(["api", "admin", "missions"]), AdminOnly),
    Handler(GET, Exact(["api", "admin", "missions"]), AdminOnly),
    Handler(POST, Exact(["api", "admin", "attendance", "start"]), AdminOnly),
    Handler(GET, Exact(["api", "admin", "attendance", "records"]), AdminOnly),
    Handler(GET, Exact(["api", "admin", "feedback"]), AdminOnly),
    Handler(PUT, Pattern([Lit("api"), Lit("admin"), Lit("feedback"), Var, Lit("read")], false), AdminOnly),
    Handler(POST, Exact(["api", "admin", "announcements"]), AdminOnly),
    Handler(GET, Exact(["api", "admin", "announcements"]), AdminOnly)
  ]

  /** The handlers under `/api/avenger`, in declaration order. */
  const AvengerHandlers: seq<Handler> := [
    Handler(GET, Exact(["api", "avenger", "dashboard-stats"]), AvengerOnly),
    Handler(GET, Exact(["api", "avenger", "missions", "my"]), AvengerOnly),
    Handler(POST, Exact(["api", "avenger", "attendance", "mark"]), AvengerOnly),
    Handler(GET, Exact(["api", "avenger", "attendance", "history"]), AvengerOnly),
    Handler(GET, Pattern([Lit("api"), Lit("avenger"), Lit("attendance"), Lit("stats"), Var, Var], false), AvengerOnly),
    Handler(GET, Exact(["api", "avenger", "transactions", "history"]), AvengerOnly),
    Handler(GET, Pattern([Lit("api"), Lit("avenger"), Lit("earnings"), Var, Var], false), AvengerOnly),
    Handler(POST, Exact(["api", "avenger", "feedback"]), AvengerOnly),
    Handler(GET, Exact(["api", "avenger", "feedback", "my"]), AvengerOnly),
    Handler(GET, Exact(["api", "avenger", "announcements"]), AdminOrAvenger),
    Handler(PUT, Exact(["api", "avenger", "profile"]), AvengerOnly),
    Handler(PUT, Exact(["api", "avenger", "profile", "change-password"]), AvengerOnly)
  ]

  /** The position of `/api/avenger/announcements`, the one avenger handler open to both roles. */
  const AnnouncementsIndex: int := 9

  /** A request reaching a handler passes the URL rule, then the handler's own gate:
      it is granted exactly when both grant it. */
  function Effective(h: Handler, path: Path, context: Option<Authentication>): (d: Decision)
    ensures d == Granted <==> Check(h.httpMethod, path, context) == Granted && Authorize(h.gate, context) == Granted
    ensures d == Unauthenticated <==> Check(h.httpMethod, path, context) == Unauthenticated
                                      || (Check(h.httpMethod, path, context) == Granted && Authorize(h.gate, context) == Unauthenticated)
  {
    var url := Check(h.httpMethod, path, context);
    if url != Granted then url else Authorize(h.gate, context)
  }

  /** Every handler pattern in `handlers` begins with the literal segments `a` and `b`. */
  predicate AllBeginWith(handlers: seq<Handler>, a: string, b: string) {
    forall k :: 0 <= k < |handlers| ==>
      |handlers[k].pattern.segments| >= 2
      && handlers[k].pattern.segments[0] == Lit(a) && handlers[k].pattern.segments[1] == Lit(b)
  }

  /** A path matched by a pattern that begins with two literal segments begins with them too. */
  lemma MatchedPathBegins(p: Pattern, path: Path, a: string, b: string)
    requires |p.segments| >= 2 && p.segments[0] == Lit(a) && p.segments[1] == Lit(b)
    requires PatternMatches(p, path)
    ensures |path| >= 2 && path == [a, b] + path[2..]
  {
    assert PrefixMatches(p.segments[1..], path[1..]);
    assert p.segments[1..][0] == Lit(b);
  }

  /** The admin handlers all sit under `/api/admin` and are gated by ADMIN alone. */
  lemma AdminHandlersShape()
    ensures AllBeginWith(AdminHandlers, "api", "admin")
    ensures forall k :: 0 <= k < |AdminHandlers| ==> AdminHandlers[k].gate == AdminOnly
  {
  }

  /** The avenger handlers all sit under `/api/avenger` and are gated by AVENGER alone,
      except the announcements, gated by both roles. */
  lemma AvengerHandlersShape()
    ensures AllBeginWith(AvengerHandlers, "api", "avenger")
    ensures forall k :: 0 <= k < |AvengerHandlers| ==>
              AvengerHandlers[k].gate == if k == AnnouncementsIndex then AdminOrAvenger else AvengerOnly
  {
  }

  /** Every admin handler admits exactly the ADMIN role: the URL rule for
      everything under `/api/admin` and the method gate agree. */
  lemma {:induction false} AdminHandlersNeedAdmin(k: int, path: Path, u: User)
    requires 0 <= k < |AdminHandlers| && PatternMatches(AdminHandlers[k].pattern, path)
    ensures Effective(AdminHandlers[k], path, Some(AuthenticationOf(u))) == Granted <==> u.role == ADMIN
    ensures Effective(AdminHandlers[k], path, None) == Unauthenticated
  {
    AdminHandlersShape();
    MatchedPathBegins(AdminHandlers[k].pattern, path, "api", "admin");
    AdminApiNeedsAdmin(AdminHandlers[k].httpMethod, path[2..]);
    RoleRuleAdmitsExactly({ADMIN}, u);
  }

  /** The avenger handlers are guarded by their method gates alone: every one
      admits exactly AVENGER, except the announcements, which admit both roles. An
      ADMIN passes the URL level there and is then refused by the gate. */
  lemma {:induction false} AvengerHandlersFollowTheirGates(k: int, path: Path, u: User)
    requires 0 <= k < |AvengerHandlers| && PatternMatches(AvengerHandlers[k].pattern, path)
    ensures Effective(AvengerHandlers[k], path, Some(AuthenticationOf(u))) == Granted <==>
              (k == AnnouncementsIndex || u.role == AVENGER)
    ensures k != AnnouncementsIndex && u.role == ADMIN ==>
              Effective(AvengerHandlers[k], path, Some(AuthenticationOf(u))) == Forbidden
    ensures Effective(AvengerHandlers[k], path, None) == Unauthenticated
  {
    var h := AvengerHandlers[k];
    AvengerHandlersShape();
    MatchedPathBegins(h.pattern, path, "api", "avenger");
    AvengerPathsAtUrlLevel(h.httpMethod, path[2..]);
    RoleRuleAdmitsExactly(h.gate.roles, u);
    RoleRuleAdmitsExactly({AVENGER}, u);
  }

  /** `/api/user/details` admits every identity built from a user, of either role,
      and no anonymous request. */
  lemma UserDetailsOpenToBothRoles(u: User)
    ensures Effective(UserDetailsHandler, ["api", "user", "details"], Some(AuthenticationOf(u))) == Granted
    ensures Effective(UserDetailsHandler, ["api", "user", "details"], None) == Unauthenticated
  {
    UserDetailsAdmitsBothRoles(GET, u);
    RoleRuleAdmitsExactly({ADMIN, AVENGER}, u);
  }

  // ---------------------------------------------------------------------------
  // Responses and exception mapping

  function ApiResult(status: int, success: bool, message: string): HttpResponse {
    HttpResponse(status, Api(ApiResponse(success, message)), [])
  }

  /** An exception thrown by a service: an `IllegalArgumentException` with its
      message, or anything else. */
  datatype ServiceError = IllegalArgument(message: string) | Unexpected

  /** The `try`/`catch` around a service call: success is 200; an
      `IllegalArgumentException` is 400 carrying its message; any other exception is
      500 with the handler's generic message. */
  function ServiceResponse(outcome: Outcome<ServiceError>, successMessage: string, unexpectedMessage: string)
    : (r: HttpResponse)
    ensures r.body.Api? && r.cookies == []
    ensures r.status == OK <==> outcome.Pass?
    ensures r.body.api.success <==> outcome.Pass?
    ensures outcome.Pass? ==> r.body.api.message == successMessage
    ensures outcome.Fail? && outcome.error.IllegalArgument? ==>
              r.status == BAD_REQUEST && r.body.api.message == outcome.error.message
    ensures outcome == Fail(Unexpected) ==>
              r.status == INTERNAL_SERVER_ERROR && r.body.api.message == unexpectedMessage
  {
    match outcome
    case Pass => ApiResult(OK, true, successMessage)
    case Fail(IllegalArgument(message)) => ApiResult(BAD_REQUEST, false, message)
    case Fail(Unexpected) => ApiResult(INTERNAL_SERVER_ERROR, false, unexpectedMessage)
  }

  const PaymentSentMessage: string := "Payment processed successfully!"
  const PaymentUnexpectedMessage: string := "An unexpected error occurred during payment processing."

  /** `sendPayment`: the outcome of the payment service mapped to a response. */
  function SendPaymentResponse(outcome: Outcome<ServiceError>): (r: HttpResponse)
    ensures outcome.Pass? ==> r == ApiResult(OK, true, PaymentSentMessage)
    ensures outcome.Fail? && outcome.error.IllegalArgument? ==>
              r == ApiResult(BAD_REQUEST, false, outcome.error.message)
    ensures outcome == Fail(Unexpected) ==> r == ApiResult(INTERNAL_SERVER_ERROR, false, PaymentUnexpectedMessage)
    ensures r.status in {OK, BAD_REQUEST, INTERNAL_SERVER_ERROR}
  {
    ServiceResponse(outcome, PaymentSentMessage, PaymentUnexpectedMessage)
  }

  // ---------------------------------------------------------------------------
  // Marking attendance

  const CodeKey: string := "code"
  const EmptyCodeMessage: string := "Attendance code cannot be empty."
  const MarkedMessage: string := "Attendance marked successfully!"
  const MarkUnexpectedMessage: string := "An unexpected error occurred during attendance marking."

  function Get(request: map<string, string>, key: string): (v: Option<string>)
    ensures v.Some? <==> key in request
    ensures v.Some? ==> v.value == request[key]
  {
    if key in request then Some(request[key]) else None
  }

  /** `code == null || code.trim().isEmpty()`. */
  predicate IsBlankCode(code: Option<string>) {
    code.None? || Trim(code.value) == ""
  }

  /** A code is blank exactly when it is missing or made only of characters `trim` removes. */
  lemma BlankCodeMeansNoVisibleCharacter(code: Option<string>)
    ensures IsBlankCode(code) <==> code.None? || forall i :: 0 <= i < |code.value| ==> IsTrimmed(code.value[i])
  {
  }

  /** A failure of `AttendanceService.markAttendance` is an `IllegalArgumentException`. */
  function AsServiceOutcome(outcome: Outcome<string>): (r: Outcome<ServiceError>)
    ensures r.Pass? <==> outcome.Pass?
    ensures outcome.Fail? ==> r == Fail(IllegalArgument(outcome.error))
  {
    match outcome
    case Pass => Pass
    case Fail(message) => Fail(IllegalArgument(message))
  }

  /** `markAttendance`: a missing or blank code is refused with 400 before the
      service is called; otherwise the untrimmed code goes to the service, whose
      messages come back with 400. */
  method MarkAttendance(service: AttendanceService, request: map<string, string>, principal: User, now: int)
    returns (response: HttpResponse)
    requires service.Valid()
    modifies service
    ensures service.Valid()
    ensures IsBlankCode(Get(request, CodeKey)) ==>
              response == ApiResult(BAD_REQUEST, false, EmptyCodeMessage)
              && service.Contents() == old(service.Contents())
    ensures !IsBlankCode(Get(request, CodeKey)) ==>
              var marked := Mark(old(service.Contents()), principal, request[CodeKey], now);
              && service.Contents() == marked.1
              && response == ServiceResponse(AsServiceOutcome(marked.0), MarkedMessage, MarkUnexpectedMessage)
  {
    var code := Get(request, CodeKey);
    if IsBlankCode(code) {
      return ApiResult(BAD_REQUEST, false, EmptyCodeMessage);
    }
    var outcome := service.MarkAttendance(principal, code.value, now);
    response := ServiceResponse(AsServiceOutcome(outcome), MarkedMessage, MarkUnexpectedMessage);
  }

  /** Whatever the request, marking answers 200 or 400 and keeps the ledger's
      invariants; 200 comes with exactly one new record. */
  lemma MarkResponseStatus(l: Ledger, principal: User, code: string, now: int)
    requires LedgerValid(l)
    ensures var marked := Mark(l, principal, code, now);
            var r := ServiceResponse(AsServiceOutcome(marked.0), MarkedMessage, MarkUnexpectedMessage);
            && (r.status == OK || r.status == BAD_REQUEST)
            && (r.status == OK <==> |marked.1.records| == |l.records| + 1)
  {
  }

  // ---------------------------------------------------------------------------
  // Changing the password

  const NewPasswordKey: string := "newPassword"
  const MinPasswordLength: int := 8
  const ShortPasswordMessage: string := "New password must be at least 8 characters long."
  const PasswordChangedMessage: string := "Password changed successfully!"

  /** `newPassword == null || newPassword.length() < 8`. */
  predicate PasswordRejected(newPassword: Option<string>) {
    newPassword.None? || |newPassword.value| < MinPasswordLength
  }

  /** `changePassword`: a missing or short password is refused with 400 and nothing
      is saved; otherwise `UserService.changePassword` stores the encoding of the new
      password on the principal's row. */
  method ChangePassword(repo: UserRepository, request: map<string, string>, principal: User,
                        passwordEncoder: string -> string)
    returns (response: HttpResponse)
    requires repo.Valid()
    requires principal.username in repo.users && principal.id == repo.users[principal.username].id
    modifies repo
    ensures repo.Valid()
    ensures PasswordRejected(Get(request, NewPasswordKey)) ==>
              response == ApiResult(BAD_REQUEST, false, ShortPasswordMessage)
              && repo.users == old(repo.users)
    ensures !PasswordRejected(Get(request, NewPasswordKey)) ==>
              response == ApiResult(OK, true, PasswordChangedMessage)
              && |request[NewPasswordKey]| >= MinPasswordLength
              && repo.users == old(repo.users)[principal.username :=
                                 principal.(password := passwordEncoder(request[NewPasswordKey]))]
    ensures repo.nextId == old(repo.nextId)
  {
    var newPassword := Get(request, NewPasswordKey);
    if PasswordRejected(newPassword) {
      return ApiResult(BAD_REQUEST, false, ShortPasswordMessage);
    }
    var updated := principal.(password := passwordEncoder(newPassword.value));
    repo.Update(updated);
    response := ApiResult(OK, true, PasswordChangedMessage);
  }

  // ---------------------------------------------------------------------------
  // The earnings window

  /** The `DateTimeException` of `LocalDateTime.of` for an out-of-range field; it
      propagates out of the handler. */
  datatype DateTimeError = DateTimeException

  /** `getMonthlyEarnings`: the first and the last instant of the month named by the
      path variables, or the exception `LocalDateTime.of` throws for them. */
  function EarningsWindow(year: int, month: int): (r: Result<(DateTime, DateTime), DateTimeError>)
    ensures r.Ok? <==> -999_999_999 <= year <= 999_999_999 && ValidMonth(month)
    ensures r.Ok? ==> ValidDateTime(r.value.0) && ValidDateTime(r.value.1) && NotAfter(r.value.0, r.value.1)
  {
    if !(-999_999_999 <= year <= 999_999_999 && ValidMonth(month)) then Err(DateTimeException)
    else
      Ok((DateTime(year, month, 1, 0, 0, 0, 0),
          DateTime(year, month, MonthLength(year, month), 23, 59, 59, 999_999_999)))
  }

  /** The window holds exactly the valid date-times of that month. */
  lemma EarningsWindowIsTheMonth(year: int, month: int, t: DateTime)
    requires EarningsWindow(year, month).Ok? && ValidDateTime(t)
    ensures var (start, end) := EarningsWindow(year, month).value;
            NotAfter(start, t) && NotAfter(t, end) <==> t.year == year && t.month == month
  {
  }
}
