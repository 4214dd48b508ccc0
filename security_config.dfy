/** `SecurityConfig.securityFilterChain`: the ordered URL authorization rules. The
    first rule whose patterns and HTTP method match the request decides what the
    request needs; a request matching none needs an authenticated identity.

    A request path is its sequence of `/`-separated segments ("/" is the empty
    sequence). Patterns use only the forms the table needs: literal segments, one
    `{id}` variable segment, and a trailing `**` segment matching zero or more segments. */
module SecurityConfig {
  import opened Wrappers
  import opened UserModel
  import opened Http

  type Path = seq<string>

  datatype Segment = Lit(text: string) | Var

  /** A path pattern: its segments, and whether it ends in a `**` segment. */
  datatype Pattern = Pattern(segments: seq<Segment>, anyTail: bool)

  /** What a rule demands: nothing, one of some roles, or just any identity. */
  datatype Access = PermitAll | HasAnyRole(roles: set<Role>) | Authenticated

  /** One `requestMatchers(...)` line: its patterns, its HTTP method if it names
      one, and its access rule. */
  datatype Rule = Rule(patterns: seq<Pattern>, httpMethod: Option<HttpMethod>, access: Access)

  predicate SegmentMatches(s: Segment, segment: string) {
    match s
    case Lit(text) => segment == text
    case Var => segment != ""
  }

  /** The path begins with segments matching `segments`, one for one. */
  predicate PrefixMatches(segments: seq<Segment>, path: Path) {
    if segments == [] then true
    else path != [] && SegmentMatches(segments[0], path[0]) && PrefixMatches(segments[1..], path[1..])
  }

  predicate PatternMatches(p: Pattern, path: Path) {
    && PrefixMatches(p.segments, path)
    && (p.anyTail || |path| == |p.segments|)
  }

  predicate AnyPatternMatches(patterns: seq<Pattern>, path: Path) {
    exists i :: 0 <= i < |patterns| && PatternMatches(patterns[i], path)
  }

  predicate RuleMatches(r: Rule, m: HttpMethod, path: Path) {
    && (r.httpMethod.None? || r.httpMethod == Some(m))
    && AnyPatternMatches(r.patterns, path)
  }

  /** The access rule of the first matching rule, or `Authenticated` (`anyRequest()`). */
  function Decide(rules: seq<Rule>, m: HttpMethod, path: Path): Access {
    if rules == [] then Authenticated
    else if RuleMatches(rules[0], m, path) then rules[0].access
    else Decide(rules[1..], m, path)
  }

  /** No rule before index `k` matches the request. */
  predicate NoneMatchBefore(rules: seq<Rule>, k: int, m: HttpMethod, path: Path)
    requires k <= |rules|
  {
    forall j :: 0 <= j < k ==> !RuleMatches(rules[j], m, path)
  }

  /** Skipping rules that do not match leaves the decision unchanged. */
  lemma {:induction false} DecideSkips(rules: seq<Rule>, k: int, m: HttpMethod, path: Path)
    requires 0 <= k <= |rules| && NoneMatchBefore(rules, k, m, path)
    ensures Decide(rules, m, path) == Decide(rules[k..], m, path)
    decreases k
  {
    if k > 0 {
      assert !RuleMatches(rules[0], m, path);
      assert NoneMatchBefore(rules[1..], k - 1, m, path) by {
        forall j | 0 <= j < k - 1 ensures !RuleMatches(rules[1..][j], m, path) {
          assert rules[1..][j] == rules[j + 1];
        }
      }
      DecideSkips(rules[1..], k - 1, m, path);
      assert rules[1..][k - 1..] == rules[k..];
    }
  }

  /** First match decides: when no rule before index `k` matches and rule `k` does,
      rule `k` gives the access rule. */
  lemma DecidedBy(rules: seq<Rule>, k: int, m: HttpMethod, path: Path)
    requires 0 <= k < |rules| && NoneMatchBefore(rules, k, m, path) && RuleMatches(rules[k], m, path)
    ensures Decide(rules, m, path) == rules[k].access
  {
    DecideSkips(rules, k, m, path);
  }

  /** A request matching no rule needs an authenticated identity (`anyRequest()`). */
  lemma DecidedByDefault(rules: seq<Rule>, m: HttpMethod, path: Path)
    requires NoneMatchBefore(rules, |rules|, m, path)
    ensures Decide(rules, m, path) == Authenticated
  {
    DecideSkips(rules, |rules|, m, path);
  }

  /** The patterns of plain literal segments. */
  function Lits(names: seq<string>): (segments: seq<Segment>)
    ensures |segments| == |names|
    ensures forall i :: 0 <= i < |names| ==> segments[i] == Lit(names[i])
  {
    seq(|names|, i requires 0 <= i < |names| => Lit(names[i]))
  }

  /** Literal segments match exactly the paths that begin with those names. */
  lemma {:induction false} LitsPrefixMatches(names: seq<string>, path: Path)
    ensures PrefixMatches(Lits(names), path) <==> |names| <= |path| && path[..|names|] == names
    decreases |names|
  {
    if names != [] && path != [] {
      assert Lits(names)[1..] == Lits(names[1..]);
      LitsPrefixMatches(names[1..], path[1..]);
      if |names| <= |path| && path[..|names|] == names {
        assert path[1..][..|names| - 1] == path[..|names|][1..];
      }
      if |names| <= |path| && path[1..][..|names| - 1] == names[1..] && path[0] == names[0] {
        assert path[..|names|] == [path[0]] + path[1..][..|names| - 1];
      }
    }
  }

  /** A pattern without variables or `**`. */
  function Exact(names: seq<string>): Pattern {
    Pattern(Lits(names), false)
  }

  /** A literal pattern ending in `**`. */
  function Under(names: seq<string>): Pattern {
    Pattern(Lits(names), true)
  }

  /** An exact pattern matches that very path only. */
  lemma ExactMatches(names: seq<string>, path: Path)
    ensures PatternMatches(Exact(names), path) <==> path == names
  {
    LitsPrefixMatches(names, path);
  }

  /** A `**` pattern matches the path itself and every path below it. */
  lemma UnderMatches(names: seq<string>, path: Path)
    ensures PatternMatches(Under(names), path) <==> |names| <= |path| && path[..|names|] == names
  {
    LitsPrefixMatches(names, path);
  }

  function Any(patterns: seq<Pattern>, access: Access): Rule {
    Rule(patterns, None, access)
  }

  const AdminOnly: Access := HasAnyRole({ADMIN})
  const AvengerOnly: Access := HasAnyRole({AVENGER})
  const AdminOrAvenger: Access := HasAnyRole({ADMIN, AVENGER})

  /** The rule table, in declaration order (indices 0 to 20). */
  const Table: seq<Rule> := [
    /*  0 */ Any([Under(["api", "auth"])], PermitAll),
    /*  1 */ Any([Exact([]), Exact(["index.html"]), Exact(["register.html"])], PermitAll),
    /*  2 */ Any([Under(["css"]), Under(["js"]), Under(["images"]), Under(["fonts"]), Under(["videos"]),
                  Exact(["favicon.ico"])], PermitAll),
    /*  3 */ Any([Exact(["admin_dashboard.html"])], AdminOnly),
    /*  4 */ Any([Exact(["avenger_dashboard.html"])], AvengerOnly),
    /*  5 */ Any([Exact(["dashboard.html"])], AdminOrAvenger),
    /*  6 */ Any([Under(["api", "admin"])], AdminOnly),
    /*  7 */ Any([Exact(["api", "users"])], AdminOnly),
    /*  8 */ Any([Pattern([Lit("api"), Lit("users"), Var, Lit("status")], false)], AdminOnly),
    /*  9 */ Any([Under(["api", "transactions", "admin"])], AdminOnly),
    /* 10 */ Any([Exact(["api", "missions"])], AdminOnly),
    /* 11 */ Any([Under(["api", "missions"])], AdminOnly),
    /* 12 */ Rule([Exact(["api", "feedback"])], Some(GET), AdminOnly),
    /* 13 */ Any([Exact(["api", "user", "details"])], AdminOrAvenger),
    /* 14 */ Any([Exact(["api", "transactions", "send"])], AdminOrAvenger),
    /* 15 */ Any([Exact(["api", "transactions", "history"])], AdminOrAvenger),
    /* 16 */ Any([Exact(["api", "announcements"])], AdminOrAvenger),
    /* 17 */ Any([Exact(["api", "attendance", "stats"])], AdminOrAvenger),
    /* 18 */ Rule([Exact(["api", "feedback"])], Some(POST), AvengerOnly),
    /* 19 */ Any([Exact(["api", "missions", "my"])], AvengerOnly),
    /* 20 */ Any([Exact(["api", "avenger", "attendance", "mark"])], AvengerOnly)
  ]

  /** The outcome of checking a request's access rule against the security context. */
  datatype Decision = Granted | Unauthenticated | Forbidden

  /** `hasAnyRole(...)` compares "ROLE_" + role against the identity's authorities. */
  function Authorize(access: Access, context: Option<Authentication>): Decision {
    match access
    case PermitAll => Granted
    case Authenticated => if context.Some? then Granted else Unauthenticated
    case HasAnyRole(roles) =>
      if context.None? then Unauthenticated
      else if exists r :: r in roles && RoleAuthority(r) in context.value.authorities then Granted
      else Forbidden
  }

  /** The URL-level verdict on a request. */
  function Check(m: HttpMethod, path: Path, context: Option<Authentication>): Decision {
    Authorize(Decide(Table, m, path), context)
  }

  /** For an identity built from a user, a role rule admits exactly the listed roles. */
  lemma {:induction false} RoleRuleAdmitsExactly(roles: set<Role>, u: User)
    ensures Authorize(HasAnyRole(roles), Some(AuthenticationOf(u))) == Granted <==> u.role in roles
    ensures Authorize(HasAnyRole(roles), Some(AuthenticationOf(u))) != Unauthenticated
  {
    var auths := AuthenticationOf(u).authorities;
    if u.role in roles {
      assert RoleAuthority(u.role) in auths;
    }
  }

  /** Whether a pattern's prefix matches a path split in two parts: the first part
      alone when the pattern is no longer, else both halves in turn. */
  lemma {:induction false} PrefixAppend(segments: seq<Segment>, p: Path, rest: Path)
    ensures PrefixMatches(segments, p + rest) ==
            if |segments| <= |p| then PrefixMatches(segments, p)
            else PrefixMatches(segments[..|p|], p) && PrefixMatches(segments[|p|..], rest)
    decreases |p|
  {
    if segments != [] && p != [] {
      assert (p + rest)[0] == p[0];
      assert (p + rest)[1..] == p[1..] + rest;
      PrefixAppend(segments[1..], p[1..], rest);
      if |segments| > |p| {
        assert segments[..|p|][1..] == segments[1..][..|p| - 1];
        assert segments[1..][|p| - 1..] == segments[|p|..];
      }
    } else if segments != [] {
      assert p + rest == rest;
    }
  }

  /** A matched prefix fixes every segment it covers. */
  lemma {:induction false} PrefixMatchesAt(segments: seq<Segment>, path: Path, k: nat)
    requires PrefixMatches(segments, path) && k < |segments|
    ensures k < |path| && SegmentMatches(segments[k], path[k])
    decreases k
  {
    if k > 0 {
      PrefixMatchesAt(segments[1..], path[1..], k - 1);
    }
  }

  /** The `/api/auth` rule (index 0) matches no path outside `/api`. */
  lemma AuthRuleNeedsApi(m: HttpMethod, path: Path)
    requires path == [] || path[0] != "api"
    ensures !RuleMatches(Table[0], m, path)
  {
  }

  /** No page or resource rule (indices 0 to 5) matches an `/api` path outside `/api/auth`. */
  lemma ApiSkipsPageRules(m: HttpMethod, path: Path)
    requires |path| >= 2 && path[0] == "api"
    requires path[1] != "auth"
    ensures forall j :: 0 <= j < 6 ==> !RuleMatches(Table[j], m, path)
  {
    forall j, i | (0 <= j < 6) && 0 <= i < |Table[j].patterns|
      ensures !PatternMatches(Table[j].patterns[i], path)
    {
      var segments := Table[j].patterns[i].segments;
      if PrefixMatches(segments, path) && |segments| >= 2 {
        PrefixMatchesAt(segments, path, 1);
      }
    }
  }

  /** Rules 6 to 9 concern `/api/admin`, `/api/users` and `/api/transactions/admin`. */
  lemma ApiSkipsAdminRules(m: HttpMethod, path: Path)
    requires |path| >= 2 && path[0] == "api"
    requires path[1] != "admin" && path[1] != "users" && path[1] != "transactions"
    ensures forall j :: 6 <= j < 10 ==> !RuleMatches(Table[j], m, path)
  {
    forall j, i | (6 <= j < 10) && 0 <= i < |Table[j].patterns|
      ensures !PatternMatches(Table[j].patterns[i], path)
    {
      var segments := Table[j].patterns[i].segments;
      if PrefixMatches(segments, path) && |segments| >= 2 {
        PrefixMatchesAt(segments, path, 1);
      }
    }
  }

  /** Rules 10, 11 and 19 concern `/api/missions`. */
  lemma ApiSkipsMissionRules(m: HttpMethod, path: Path)
    requires |path| >= 2 && path[0] == "api"
    requires path[1] != "missions"
    ensures forall j :: 10 <= j < 12 || j == 19 ==> !RuleMatches(Table[j], m, path)
  {
    forall j, i | (10 <= j < 12 || j == 19) && 0 <= i < |Table[j].patterns|
      ensures !PatternMatches(Table[j].patterns[i], path)
    {
      var segments := Table[j].patterns[i].segments;
      if PrefixMatches(segments, path) && |segments| >= 2 {
        PrefixMatchesAt(segments, path, 1);
      }
    }
  }

  /** Rules 12 and 18 concern `/api/feedback`. */
  lemma ApiSkipsFeedbackRules(m: HttpMethod, path: Path)
    requires |path| >= 2 && path[0] == "api"
    requires path[1] != "feedback"
    ensures forall j :: j == 12 || j == 18 ==> !RuleMatches(Table[j], m, path)
  {
    forall j, i | (j == 12 || j == 18) && 0 <= i < |Table[j].patterns|
      ensures !PatternMatches(Table[j].patterns[i], path)
    {
      var segments := Table[j].patterns[i].segments;
      if PrefixMatches(segments, path) && |segments| >= 2 {
        PrefixMatchesAt(segments, path, 1);
      }
    }
  }

  /** Rules 13 to 17 concern `/api/user`, `/api/transactions`, `/api/announcements` and
      `/api/attendance`. */
  lemma ApiSkipsSharedRules(m: HttpMethod, path: Path)
    requires |path| >= 2 && path[0] == "api"
    requires path[1] != "user" && path[1] != "transactions" && path[1] != "announcements" && path[1] != "attendance"
    ensures forall j :: 13 <= j < 18 ==> !RuleMatches(Table[j], m, path)
  {
    forall j, i | (13 <= j < 18) && 0 <= i < |Table[j].patterns|
      ensures !PatternMatches(Table[j].patterns[i], path)
    {
      var segments := Table[j].patterns[i].segments;
      if PrefixMatches(segments, path) && |segments| >= 2 {
        PrefixMatchesAt(segments, path, 1);
      }
    }
  }

  /** Everything under `/api/auth`, including `/api/auth` itself, is public, whatever the method. */
  lemma AuthEndpointsPublic(m: HttpMethod, rest: Path)
    ensures Decide(Table, m, ["api", "auth"] + rest) == PermitAll
  {
    var path := ["api", "auth"] + rest;
    assert path[..2] == ["api", "auth"];
    assert PatternMatches(Table[0].patterns[0], path);
    DecidedBy(Table, 0, m, path);
  }

  /** The landing and registration pages are public. */
  lemma PublicPages(m: HttpMethod, page: Path)
    requires page == [] || page == ["index.html"] || page == ["register.html"]
    ensures Decide(Table, m, page) == PermitAll
  {
    AuthRuleNeedsApi(m, page);
    var i := if page == [] then 0 else if page == ["index.html"] then 1 else 2;
    ExactMatches(page, page);
    assert Table[1].patterns[i] == Exact(page);
    DecidedBy(Table, 1, m, page);
  }

  /** Everything under the static-resource directories is public. */
  lemma PublicResources(m: HttpMethod, directory: string, rest: Path)
    requires directory in {"css", "js", "images", "fonts", "videos"}
    ensures Decide(Table, m, [directory] + rest) == PermitAll
  {
    var path := [directory] + rest;
    assert path[..1] == [directory];
    forall j | 0 <= j < 2 ensures !RuleMatches(Table[j], m, path) {
      forall i | 0 <= i < |Table[j].patterns| ensures !PatternMatches(Table[j].patterns[i], path) {
        PrefixAppend(Table[j].patterns[i].segments, [directory], rest);
      }
    }
    var k := if directory == "css" then 0 else if directory == "js" then 1
             else if directory == "images" then 2 else if directory == "fonts" then 3 else 4;
    assert Table[2].patterns[k] == Under([directory]);
    UnderMatches([directory], path);
    DecidedBy(Table, 2, m, path);
  }

  /** `/favicon.ico`, listed with the static resources, is public. */
  lemma FaviconPublic(m: HttpMethod)
    ensures Decide(Table, m, ["favicon.ico"]) == PermitAll
  {
    var path: Path := ["favicon.ico"];
    AuthRuleNeedsApi(m, path);
    assert !RuleMatches(Table[1], m, path);
    ExactMatches(path, path);
    assert Table[2].patterns[5] == Exact(path);
    DecidedBy(Table, 2, m, path);
  }

  /** Everything under `/api/admin` needs the ADMIN role, whatever the method. */
  lemma AdminApiNeedsAdmin(m: HttpMethod, rest: Path)
    ensures Decide(Table, m, ["api", "admin"] + rest) == AdminOnly
  {
    var path := ["api", "admin"] + rest;
    ApiSkipsPageRules(m, path);
    assert path[..2] == ["api", "admin"];
    assert PatternMatches(Table[6].patterns[0], path);
    DecidedBy(Table, 6, m, path);
  }

  /** `/api/missions/my` is shadowed: every request its rule (index 19) matches is
      already matched by the rule for everything under `/api/missions` (index 11), so
      the AVENGER rule never decides and the path needs ADMIN. */
  lemma MissionsMyShadowed(m: HttpMethod, path: Path)
    ensures RuleMatches(Table[19], m, path) ==> RuleMatches(Table[11], m, path)
    ensures !(RuleMatches(Table[19], m, path) && NoneMatchBefore(Table, 19, m, path))
  {
    var my: Path := ["api", "missions", "my"];
    assert my[..2] == ["api", "missions"];
    assert PatternMatches(Table[11].patterns[0], my);
    ExactMatches(my, path);
  }

  /** Hence `/api/missions/my` needs ADMIN, whatever the method. */
  lemma MissionsMyNeedsAdmin(m: HttpMethod)
    ensures Decide(Table, m, ["api", "missions", "my"]) == AdminOnly
  {
    var my: Path := ["api", "missions", "my"];
    assert my[..2] == ["api", "missions"];
    assert PatternMatches(Table[11].patterns[0], my);
    ApiSkipsPageRules(m, my);
    ApiSkipsAdminRules(m, my);
    assert !RuleMatches(Table[10], m, my);
    DecidedBy(Table, 11, m, my);
  }

  /** `GET /api/feedback` needs ADMIN. */
  lemma FeedbackGetNeedsAdmin()
    ensures Decide(Table, GET, ["api", "feedback"]) == AdminOnly
  {
    var path: Path := ["api", "feedback"];
    ApiSkipsPageRules(GET, path);
    ApiSkipsAdminRules(GET, path);
    ApiSkipsMissionRules(GET, path);
    assert PatternMatches(Table[12].patterns[0], path);
    DecidedBy(Table, 12, GET, path);
  }

  /** `POST /api/feedback` needs AVENGER. */
  lemma FeedbackPostNeedsAvenger()
    ensures Decide(Table, POST, ["api", "feedback"]) == AvengerOnly
  {
    var path: Path := ["api", "feedback"];
    ApiSkipsPageRules(POST, path);
    ApiSkipsAdminRules(POST, path);
    ApiSkipsMissionRules(POST, path);
    assert !RuleMatches(Table[12], POST, path);
    ApiSkipsSharedRules(POST, path);
    assert PatternMatches(Table[18].patterns[0], path);
    DecidedBy(Table, 18, POST, path);
  }

  /** Any other method on `/api/feedback` matches no rule and needs only authentication. */
  lemma FeedbackOtherMethodsAuthenticated(m: HttpMethod)
    requires m != GET && m != POST
    ensures Decide(Table, m, ["api", "feedback"]) == Authenticated
  {
    var path: Path := ["api", "feedback"];
    ApiSkipsPageRules(m, path);
    ApiSkipsAdminRules(m, path);
    ApiSkipsMissionRules(m, path);
    assert !RuleMatches(Table[12], m, path);
    ApiSkipsSharedRules(m, path);
    assert !RuleMatches(Table[18], m, path);
    assert !RuleMatches(Table[20], m, path);
    DecidedByDefault(Table, m, path);
  }

  /** `/api/user/details` admits exactly the identities holding ADMIN or AVENGER,
      i.e. every identity built from a user, and no anonymous request. */
  lemma UserDetailsAdmitsBothRoles(m: HttpMethod, u: User)
    ensures Check(m, ["api", "user", "details"], Some(AuthenticationOf(u))) == Granted
    ensures Check(m, ["api", "user", "details"], None) == Unauthenticated
  {
    UserDetailsNeedsEitherRole(m);
    RoleRuleAdmitsExactly({ADMIN, AVENGER}, u);
  }

  /** `/api/user/details` is decided by its own rule (index 13). */
  lemma UserDetailsNeedsEitherRole(m: HttpMethod)
    ensures Decide(Table, m, ["api", "user", "details"]) == AdminOrAvenger
  {
    var path: Path := ["api", "user", "details"];
    ApiSkipsPageRules(m, path);
    ApiSkipsAdminRules(m, path);
    ApiSkipsMissionRules(m, path);
    ApiSkipsFeedbackRules(m, path);
    assert PatternMatches(Table[13].patterns[0], path);
    DecidedBy(Table, 13, m, path);
  }

  /** Under `/api/avenger`, only `/api/avenger/attendance/mark` has a URL rule (AVENGER);
      every other path there needs just an authenticated identity at URL level. */
  lemma AvengerPathsAtUrlLevel(m: HttpMethod, rest: Path)
    ensures rest == ["attendance", "mark"] ==> Decide(Table, m, ["api", "avenger"] + rest) == AvengerOnly
    ensures rest != ["attendance", "mark"] ==> Decide(Table, m, ["api", "avenger"] + rest) == Authenticated
  {
    var path := ["api", "avenger"] + rest;
    ApiSkipsPageRules(m, path);
    ApiSkipsAdminRules(m, path);
    ApiSkipsMissionRules(m, path);
    ApiSkipsFeedbackRules(m, path);
    ApiSkipsSharedRules(m, path);
    ExactMatches(["api", "avenger", "attendance", "mark"], path);
    if rest == ["attendance", "mark"] {
      assert PatternMatches(Table[20].patterns[0], path);
      DecidedBy(Table, 20, m, path);
    } else {
      assert path != ["api", "avenger", "attendance", "mark"];
      DecidedByDefault(Table, m, path);
    }
  }
}
