/** The servlet-level data the handlers and the filter exchange: request cookies,
    cookies set on the response, HTTP methods and response entities. */
module Http {
  import opened Wrappers

  datatype HttpMethod = GET | HEAD | POST | PUT | PATCH | DELETE | OPTIONS | TRACE

  /** A cookie received with a request. */
  datatype Cookie = Cookie(name: string, value: string)

  /** A cookie added to a response; the attributes are those of `jakarta.servlet.http.Cookie`. */
  datatype SetCookie = SetCookie(
    name: string,
    value: Option<string>,
    path: Option<string>,
    maxAge: int,
    httpOnly: bool,
    secure: bool)

  /** `new Cookie(name, value)`: no path, session lifetime (max-age -1), neither
      HttpOnly nor Secure. */
  function NewCookie(name: string, value: Option<string>): (c: SetCookie)
    ensures c.name == name && c.value == value
    ensures c.path == None && c.maxAge == -1 && !c.httpOnly && !c.secure
  {
    SetCookie(name, value, None, -1, false, false)
  }

  /** The names of the two cookies that carry the tokens. */
  const AccessTokenCookieName: string := "accessToken"
  const RefreshTokenCookieName: string := "refreshToken"

  const OK: int := 200
  const CREATED: int := 201
  const BAD_REQUEST: int := 400
  const UNAUTHORIZED: int := 401
  const NOT_FOUND: int := 404
  const INTERNAL_SERVER_ERROR: int := 500

  /** The `ApiResponse` payload: a success flag and a message. */
  datatype ApiResponse = ApiResponse(success: bool, message: string)

  datatype Body =
    | Api(api: ApiResponse)
    | LoginDetails(username: string, role: string)
    | NoBody

  /** A `ResponseEntity` together with the cookies the handler added to the servlet response. */
  datatype HttpResponse = HttpResponse(status: int, body: Body, cookies: seq<SetCookie>)

  /** The value of the first cookie called `name`, if any. */
  function FirstCookieValue(cookies: seq<Cookie>, name: string): (v: Option<string>)
    ensures v.None? <==> forall i :: 0 <= i < |cookies| ==> cookies[i].name != name
    ensures v.Some? ==> exists i :: 0 <= i < |cookies| && cookies[i].name == name && cookies[i].value == v.value
                                   && forall j :: 0 <= j < i ==> cookies[j].name != name
  {
    if cookies == [] then None
    else if cookies[0].name == name then Some(cookies[0].value)
    else
      var rest := FirstCookieValue(cookies[1..], name);
      assert forall i :: 1 <= i < |cookies| ==> cookies[i] == cookies[1..][i - 1];
      if rest.Some? then
        var k :| 0 <= k < |cookies[1..]| && cookies[1..][k].name == name && cookies[1..][k].value == rest.value
                 && forall j :: 0 <= j < k ==> cookies[1..][j].name != name;
        assert cookies[k + 1] == cookies[1..][k];
        rest
      else
        rest
  }

  /** The `for (Cookie cookie : cookies) if (name.equals(cookie.getName())) { ...; break; }`
      scan of the filter and of the refresh handler (a null array is the empty sequence). */
  method FindCookie(cookies: seq<Cookie>, name: string) returns (value: Option<string>)
    ensures value == FirstCookieValue(cookies, name)
  {
    value := None;
    var i := 0;
    while i < |cookies|
      invariant 0 <= i <= |cookies|
      invariant FirstCookieValue(cookies, name) == FirstCookieValue(cookies[i..], name)
      invariant value == None
    {
      if cookies[i].name == name {
        value := Some(cookies[i].value);
        break;
      }
      assert cookies[i..][1..] == cookies[i + 1..];
      i := i + 1;
    }
  }
}
