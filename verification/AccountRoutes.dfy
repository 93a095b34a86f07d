/** The authorized routes as methods over the user table and the cache. */
module AccountRoutes {
  import opened Wrappers
  import opened SortedIds
  import opened Accounts
  import opened AccountOperations
  import opened AccountMachine

  method RequireAdmin(role: string) returns (r: Result<(), AccountError>)
    ensures r == if role == "admin" then Ok(()) else Err(AdminRequired)
  {
    if role != "admin" {
      return Err(AdminRequired);
    }
    return Ok(());
  }

  method GetMe(currentUser: AuthenticatedUser, repo: SqlUserRepository) returns (answer: Answer)
    ensures answer ==
      if currentUser.userId in repo.users then Profile(ToEntity(currentUser.userId, repo.users[currentUser.userId]))
      else Failed(UserNotFound)
  {
    var user := repo.GetById(currentUser.userId);
    return if user.None? then Failed(UserNotFound) else Profile(user.value);
  }

  /** PUT and PATCH on one's own account. */
  method ChangeMe(currentUser: AuthenticatedUser, change: SelfChange, verify: Verify, newHash: string,
                  repo: SqlUserRepository, authCache: ValkeyUserAuthCache)
    returns (answer: Answer)
    modifies repo, authCache
    ensures (Of(repo, authCache), answer) ==
      Performed(old(Of(repo, authCache)), currentUser, UpdateMe(change, newHash), verify)
  {
    var r := UpdateUser(currentUser.userId, BySelf(change), verify, newHash, repo, authCache);
    return ProfileOr(r);
  }

  /** PUT and PATCH on any account. */
  method ChangeUser(currentUser: AuthenticatedUser, userId: Id, change: AdminChange, verify: Verify, newHash: string,
                    repo: SqlUserRepository, authCache: ValkeyUserAuthCache)
    returns (answer: Answer)
    modifies repo, authCache
    ensures (Of(repo, authCache), answer) ==
      Performed(old(Of(repo, authCache)), currentUser, UpdateAny(userId, change, newHash), verify)
  {
    var allowed := RequireAdmin(currentUser.role);
    if allowed.Err? {
      return Failed(allowed.error);
    }
    var r := UpdateUser(userId, ByAdmin(change), verify, newHash, repo, authCache);
    return ProfileOr(r);
  }

  method DeleteUser(currentUser: AuthenticatedUser, userId: Id, hard: bool, verify: Verify, repo: SqlUserRepository,
                    authCache: ValkeyUserAuthCache)
    returns (answer: Answer)
    modifies repo, authCache
    ensures (Of(repo, authCache), answer) ==
      Performed(old(Of(repo, authCache)), currentUser, Remove(userId, hard), verify)
  {
    var allowed := RequireAdmin(currentUser.role);
    if allowed.Err? {
      return Failed(allowed.error);
    }
    var r;
    if hard {
      r := HardDeleteUser(userId, repo, authCache);
    } else {
      r := DeactivateUser(userId, repo, authCache);
    }
    return DoneOr(r);
  }

  /** An operation that fails has not touched the tables, so there is nothing to roll back. */
  lemma FailureKeepsTables(s: Store, actor: AuthenticatedUser, operation: Operation, verify: Verify)
    ensures var (after, answer) := Performed(s, actor, operation, verify);
      answer.Failed? ==> after.users == s.users && after.todoOwners == s.todoOwners
  {
    hide Merge, IsLastAdmin, Unique;
  }

  /** Recognising the caller and then serving him is one step of the machine. */
  method Serve(token: Option<Token>, operation: Operation, verify: Verify, repo: SqlUserRepository,
               authCache: ValkeyUserAuthCache)
    returns (answer: Answer)
    requires !operation.AddTodo?
    modifies repo, authCache
    ensures (Of(repo, authCache), answer) ==
      AuthorizedStep(old(Of(repo, authCache)), token, operation, NoFault, verify)
  {
    var recognised := GetCurrentUser(token, repo, authCache);
    if recognised.Err? {
      return Failed(recognised.error);
    }
    var currentUser := recognised.value;
    FailureKeepsTables(Of(repo, authCache), currentUser, operation, verify);
    match operation {
      case ReadMe => answer := GetMe(currentUser, repo);
      case UpdateMe(change, newHash) => answer := ChangeMe(currentUser, change, verify, newHash, repo, authCache);
      case UpdateAny(target, change, newHash) =>
        answer := ChangeUser(currentUser, target, change, verify, newHash, repo, authCache);
      case Remove(target, hard) => answer := DeleteUser(currentUser, target, hard, verify, repo, authCache);
    }
  }
}
