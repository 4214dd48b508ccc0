/** The `User` entity, which doubles as Spring Security's `UserDetails`, and the
    authentication object that the filter and the login handler store in the
    security context. */
module UserModel {

  /** The two roles the application knows (the enum's constants, by name). */
  datatype Role = ADMIN | AVENGER

  /** `role.name()`. */
  function RoleName(r: Role): (name: string)
    ensures name != [] && '_' !in name
  {
    match r
    case ADMIN => "ADMIN"
    case AVENGER => "AVENGER"
  }

  const RolePrefix: string := "ROLE_"

  /** The authority string Spring Security checks for a role. */
  function RoleAuthority(r: Role): string {
    RolePrefix + RoleName(r)
  }

  lemma RoleAuthorityInjective(r1: Role, r2: Role)
    ensures RoleAuthority(r1) == RoleAuthority(r2) <==> r1 == r2
  {
    if r1 != r2 {
      assert RoleAuthority(r1)[5] != RoleAuthority(r2)[5] || |RoleAuthority(r1)| != |RoleAuthority(r2)|;
    }
  }

  /** A row of the `users` table. The balance is a `Double` in the source; it is
      kept as an exact `real`, with no rounding. */
  datatype User = User(
    id: int,
    username: string,
    email: string,
    password: string,
    role: Role,
    balance: real,
    alive: bool)

  /** Field initialisers of the entity. */
  const DefaultBalance: real := 0.0
  const DefaultAlive: bool := true

  /** `getAuthorities()`: the single authority "ROLE_" + role name. */
  function Authorities(u: User): (auths: seq<string>)
    ensures |auths| == 1
    ensures forall r: Role :: RoleAuthority(r) in auths <==> r == u.role
  {
    var auths := [RoleAuthority(u.role)];
    forall r: Role ensures RoleAuthority(r) in auths <==> r == u.role {
      RoleAuthorityInjective(r, u.role);
    }
    auths
  }

  /** `isEnabled()`: an account is enabled exactly while the user is alive. */
  predicate IsEnabled(u: User) {
    u.alive
  }

  /** The three other `UserDetails` status flags, constantly true. */
  predicate IsAccountNonExpired(u: User) { true }
  predicate IsAccountNonLocked(u: User) { true }
  predicate IsCredentialsNonExpired(u: User) { true }

  /** What the status flags amount to: only `alive` can disable an account. */
  lemma AccountStatus(u: User)
    ensures IsAccountNonExpired(u) && IsAccountNonLocked(u) && IsCredentialsNonExpired(u)
    ensures IsEnabled(u) <==> u.alive
  {
  }

  /** A `UsernamePasswordAuthenticationToken` with its principal and authorities;
      the credentials are always null and the request details are not modelled. */
  datatype Authentication = Authentication(principal: User, authorities: seq<string>)

  /** The token built for an authenticated user: principal and the user's own authorities. */
  function AuthenticationOf(u: User): (a: Authentication)
    ensures a.principal == u
    ensures forall r: Role :: RoleAuthority(r) in a.authorities <==> r == u.role
  {
    Authentication(u, Authorities(u))
  }
}
