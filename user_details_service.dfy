/** `UserDetailsServiceImpl`: the lookup that turns a username into the stored user. */
module UserDetailsService {
  import opened Wrappers
  import opened UserModel

  /** The `users` table as the repository sees it: rows by their (unique) username. */
  type UserStore = map<string, User>

  /** Every row is filed under its own username. */
  predicate WellKeyed(users: UserStore) {
    forall name :: name in users ==> users[name].username == name
  }

  datatype LookupError = UsernameNotFound(username: string)

  /** `loadUserByUsername`: the stored user whose username is exactly `username`,
      whatever its `alive` flag, or `UsernameNotFoundException`. The store is only read. */
  function LoadUserByUsername(users: UserStore, username: string): (r: Result<User, LookupError>)
    ensures r.Ok? <==> username in users
    ensures r.Ok? ==> r.value == users[username]
    ensures WellKeyed(users) && r.Ok? ==> r.value.username == username
    ensures r.Err? ==> r.error == UsernameNotFound(username)
  {
    if username in users then Ok(users[username]) else Err(UsernameNotFound(username))
  }

  /** The lookup is exact: a differently spelt name (say, another letter case) finds
      nothing unless a row is filed under that very spelling. */
  lemma LookupIsExact(users: UserStore, stored: string, asked: string)
    requires WellKeyed(users) && stored in users && asked != stored && asked !in users
    ensures LoadUserByUsername(users, stored).Ok?
    ensures LoadUserByUsername(users, asked) == Err(UsernameNotFound(asked))
  {
  }

  /** No filtering on the account state: a dead (disabled) user is returned like any other. */
  lemma LookupIgnoresEnabled(users: UserStore, username: string)
    requires username in users && !IsEnabled(users[username])
    ensures LoadUserByUsername(users, username) == Ok(users[username])
  {
  }
}
