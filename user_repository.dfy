/** The `users` table behind `UserRepository`: rows filed by their unique username,
    and the identity counter that numbers newly inserted rows. */
module Repositories {
  import opened UserModel
  import opened UserDetailsService

  class UserRepository {
    var users: UserStore
    var nextId: int

    /** Rows are filed under their own username and every id is already issued. */
    predicate Valid()
      reads this
    {
      && WellKeyed(users)
      && forall name :: name in users ==> users[name].id < nextId
    }

    constructor (initial: UserStore, firstFreeId: int)
      requires WellKeyed(initial)
      requires forall name :: name in initial ==> initial[name].id < firstFreeId
      ensures Valid()
      ensures users == initial && nextId == firstFreeId
    {
      users := initial;
      nextId := firstFreeId;
    }

    /** `save` of a new entity: the identity column numbers it, and it is added
        under its username; no other row changes. */
    method Insert(u: User) returns (saved: User)
      requires Valid() && u.username !in users
      modifies this
      ensures Valid()
      ensures saved == u.(id := old(nextId))
      ensures users == old(users)[u.username := saved]
      ensures nextId == old(nextId) + 1
    {
      saved := u.(id := nextId);
      users := users[u.username := saved];
      nextId := nextId + 1;
    }

    /** `save` of an existing entity: its row is overwritten, ids are untouched. */
    method Update(u: User)
      requires Valid() && u.username in users && u.id == users[u.username].id
      modifies this
      ensures Valid()
      ensures users == old(users)[u.username := u]
      ensures nextId == old(nextId)
    {
      users := users[u.username := u];
    }
  }
}
