/** What each request on accounts does to the tables and the cache, in terms of their rows. */
module AccountEffects {
  import opened Wrappers
  import opened SortedIds
  import opened Accounts
  import opened AccountOperations
  import opened AccountMachine
  import opened AccountSafety
  import opened AccountAdmins

  // Removing users

  /** The user is the only one who is an admin and active. */
  predicate OnlyActiveAdmin(users: Users, userId: Id) {
    && userId in users && users[userId].role == "admin" && users[userId].isActive
    && forall other | other in users && other != userId :: users[other].role != "admin" || !users[other].isActive
  }

  lemma OnlyActiveAdminIsLast(users: Users, userId: Id)
    ensures IsLastAdmin(users, userId) <==> OnlyActiveAdmin(users, userId)
  {
    GuardIsExact(users, userId);
    hide IsLastAdmin;
    if OnlyActiveAdmin(users, userId) {
      assert ActiveAdmins(users) == {userId};
    } else if ActiveAdmins(users) == {userId} {
      assert userId in ActiveAdmins(users);
      assert forall other | other in users && other != userId :: other !in ActiveAdmins(users);
    }
  }

  /** A row of a user, made inactive, is still one that no other row stands in the way of. */
  lemma InactiveIsStored(users: Users, userId: Id)
    requires WellFormed(users) && userId in users
    ensures UpdatedUser(users, ToEntity(userId, users[userId]).(isActive := Some(false))) ==
      Ok((users[userId := users[userId].(isActive := false)],
          Some(ToEntity(userId, users[userId].(isActive := false)))))
  {
    hide Lower;
    var row := users[userId].(isActive := false);
    assert ToRow(ToEntity(userId, users[userId]).(isActive := Some(false))) == Ok(row);
    assert Unique(users, userId, row);
  }

  /** A deactivation succeeds exactly for a user who is there and not the only active admin. Then
      his row is inactive and else as it was, and his cache entry is gone; else nothing changes. */
  lemma DeactivationIsExact(s: Store, userId: Id)
    requires WellFormed(s.users)
    ensures var (after, r) := DeactivationOf(s, userId);
      && (r.Ok? <==> userId in s.users && !OnlyActiveAdmin(s.users, userId))
      && (r == Err(LastAdmin) <==> OnlyActiveAdmin(s.users, userId))
      && (r == Err(UserNotFound) <==> userId !in s.users)
      && (r.Err? ==> after == s)
      && (r.Ok? ==>
            && after.users.Keys == s.users.Keys && !after.users[userId].isActive
            && after.users[userId].(isActive := s.users[userId].isActive) == s.users[userId]
            && (forall id | id in s.users && id != userId :: after.users[id] == s.users[id])
            && after.todoOwners == s.todoOwners
            && userId !in after.cache
            && (forall id | id != userId :: id in after.cache <==> id in s.cache)
            && (forall id | id in after.cache :: after.cache[id] == s.cache[id]))
  {
    OnlyActiveAdminIsLast(s.users, userId);
    if userId in s.users {
      InactiveIsStored(s.users, userId);
    }
    hide IsLastAdmin, OnlyActiveAdmin, UpdatedUser;
  }

  /** A hard deletion succeeds exactly for the same users. Then the user's row, his todos and his
      cache entry are gone, and nothing else; else nothing changes. */
  lemma HardDeletionIsExact(s: Store, userId: Id)
    ensures var (after, r) := HardDeletionOf(s, userId);
      && (r.Ok? <==> userId in s.users && !OnlyActiveAdmin(s.users, userId))
      && (r == Err(LastAdmin) <==> OnlyActiveAdmin(s.users, userId))
      && (r == Err(UserNotFound) <==> userId !in s.users)
      && (r.Err? ==> after == s)
      && (r.Ok? ==>
            && (forall id :: id in after.users <==> id in s.users && id != userId)
            && (forall id | id in after.users :: after.users[id] == s.users[id])
            && (forall todo :: todo in after.todoOwners <==> todo in s.todoOwners && s.todoOwners[todo] != userId)
            && (forall todo | todo in after.todoOwners :: after.todoOwners[todo] == s.todoOwners[todo])
            && (forall id :: id in after.cache <==> id in s.cache && id != userId)
            && (forall id | id in after.cache :: after.cache[id] == s.cache[id]))
  {
    OnlyActiveAdminIsLast(s.users, userId);
    assert OnlyActiveAdmin(s.users, userId) ==> userId in s.users;
    hide IsLastAdmin, OnlyActiveAdmin;
  }

  /** Once a user is deactivated or deleted, no token of his is good for any request. */
  lemma RemovedIsLockedOut(s: Store, userId: Id, token: Token, operation: Operation, verify: Verify)
    requires WellFormed(s.users) && token.userId == userId
    ensures DeactivationOf(s, userId).1.Ok? ==>
      AuthorizedStep(DeactivationOf(s, userId).0, Some(token), operation, NoFault, verify) ==
        (DeactivationOf(s, userId).0, Failed(Unauthorized))
    ensures HardDeletionOf(s, userId).1.Ok? ==>
      AuthorizedStep(HardDeletionOf(s, userId).0, Some(token), operation, NoFault, verify) ==
        (HardDeletionOf(s, userId).0, Failed(Unauthorized))
  {
    DeactivationIsExact(s, userId);
    HardDeletionIsExact(s, userId);
    hide DeactivationOf, HardDeletionOf, OnlyActiveAdmin, WellFormed, Performed;
  }

  // Requests with a token

  /** The cache once the caller has been recognised. */
  function WithCaller(s: Store, token: Token): Cache
    requires Accepts(s.users, token)
  {
    var row := s.users[token.userId];
    s.cache[token.userId := AuthenticatedUser(token.userId, row.username, row.role)]
  }

  /** A request is turned away, and changes nothing, exactly if its token is not that of an active
      user at his current version. */
  lemma TurnedAwayExactlyIf(s: Store, token: Option<Token>, operation: Operation, verify: Verify)
    ensures var (after, answer) := AuthorizedStep(s, token, operation, NoFault, verify);
      && (answer == Failed(Unauthorized) <==>
            || token.None? || token.value.userId !in s.users || !s.users[token.value.userId].isActive
            || s.users[token.value.userId].tokenVersion != token.value.tokenVersion)
      && (answer == Failed(Unauthorized) ==> after == s)
  {
    hide IsLastAdmin, Unique, ToRow;
  }

  /** Reading one's own account shows the row and caches who it is. */
  lemma ReadMeIsServed(s: Store, token: Token, verify: Verify)
    requires Accepts(s.users, token)
    ensures var (after, answer) := AuthorizedStep(s, Some(token), ReadMe, NoFault, verify);
      var me, row := token.userId, s.users[token.userId];
      && after == s.(cache := s.cache[me := AuthenticatedUser(me, row.username, row.role)])
      && answer.Profile?
      && var user := answer.user;
        && user.id == Some(me) && user.email == row.email && user.username == Some(row.username)
        && user.firstName == Some(row.firstName) && user.lastName == Some(row.lastName)
        && user.isActive == Some(row.isActive) && user.role == Some(row.role)
  {
  }

  /** The account a request changes, and how; one's own for everybody, any for an admin only. */
  predicate Changes(token: Token, operation: Operation, userId: Id, change: Change, newHash: string) {
    || (userId == token.userId && change.BySelf? && operation == UpdateMe(change.self, newHash))
    || (change.ByAdmin? && operation == UpdateAny(userId, change.admin, newHash))
  }

  /** A change is made exactly if it fits and is the caller's to make. Then one row is written, to
      say what the change says, and shown; else the tables are as before. */
  lemma ChangeIsServed(s: Store, token: Token, operation: Operation, userId: Id, change: Change, newHash: string,
                       verify: Verify)
    requires Accepts(s.users, token) && Changes(token, operation, userId, change, newHash)
    ensures var (after, answer) := AuthorizedStep(s, Some(token), operation, NoFault, verify);
      && (answer.Profile? <==>
            && (change.BySelf? || s.users[token.userId].role == "admin")
            && Fits(s.users, userId, change, verify))
      && (answer == Failed(AdminRequired) <==> change.ByAdmin? && s.users[token.userId].role != "admin")
      && (!answer.Profile? ==> answer.Failed? && after == s.(cache := WithCaller(s, token)))
      && (answer.Profile? ==>
            && after.todoOwners == s.todoOwners && after.cache == WithCaller(s, token) - {userId}
            && after.users.Keys == s.users.Keys && answer.user == ToEntity(userId, after.users[userId])
            && (forall id | id in s.users && id != userId :: after.users[id] == s.users[id])
            && var row, row' := s.users[userId], after.users[userId];
              && row'.tokenVersion == row.tokenVersion + (if row'.hashedPassword == row.hashedPassword then 0 else 1)
              && Wrote(change, row, row', newHash))
  {
    var recognised := Recognised(s, Some(token)).0;
    UpdateIsExact(recognised, userId, change, verify, newHash);
    UpdateForgets(recognised, userId, change, verify, newHash);
    hide UpdateOf, Fits, Wrote;
  }

  lemma UpdateForgets(s: Store, userId: Id, change: Change, verify: Verify, newHash: string)
    ensures var (after, r) := UpdateOf(s, userId, change, verify, newHash);
      && after.todoOwners == s.todoOwners
      && (r.Ok? ==> after.cache == s.cache - {userId})
      && r != Err(AdminRequired)
  {
    hide ToRow, Unique;
  }

  /** The new password and the current one that a change of one's own account gives. */
  predicate GivesPasswords(change: SelfChange, password: Option<string>, current: Option<string>) {
    match change
    case SelfReplace(_, _, _, _, p, c) => p == password && c == current
    case SelfPatch(_, _, _, _, p, c) =>
      && (if p.Some? then p.value == password else password == None)
      && (if c.Some? then c.value == current else current == None)
  }

  lemma ErrorOfPasswords(existing: User, change: SelfChange, newHash: string, verify: Verify,
                         password: Option<string>, current: Option<string>)
    requires GivesPasswords(change, password, current)
    ensures var r := Merge(BySelf(change), existing, verify, newHash);
      && (r == Err(CurrentPasswordRequired) <==> password.Some? && current.None?)
      && (r == Err(CurrentPasswordInvalid) <==>
            password.Some? && current.Some? && !verify(current.value, existing.hashedPassword))
  {
  }

  /** Nobody sets himself a new password without the current one: a change that gives none fails
      for want of it, one that gives a wrong one fails for that, and the hash stays. */
  lemma OwnPasswordNeedsCurrentOne(s: Store, token: Token, change: SelfChange, newHash: string, verify: Verify,
                                   password: Option<string>, current: Option<string>)
    requires Accepts(s.users, token) && GivesPasswords(change, password, current)
    ensures var (after, answer) := AuthorizedStep(s, Some(token), UpdateMe(change, newHash), NoFault, verify);
      var row := s.users[token.userId];
      && (answer == Failed(CurrentPasswordRequired) <==> password.Some? && current.None?)
      && (answer == Failed(CurrentPasswordInvalid) <==>
            password.Some? && current.Some? && !verify(current.value, row.hashedPassword))
      && token.userId in after.users
      && after.users[token.userId].hashedPassword ==
         if answer.Profile? && password.Some? then newHash else row.hashedPassword
  {
    var recognised := Recognised(s, Some(token)).0;
    ChangeIsServed(s, token, UpdateMe(change, newHash), token.userId, BySelf(change), newHash, verify);
    ErrorOfPasswords(ToEntity(token.userId, s.users[token.userId]), change, newHash, verify, password, current);
    hide Fits, StepsUp, Merge, UpdatedUser;
  }

  /** An admin removes a user who is there and not the only active admin: the hard way, row and
      todos and all, and else by making him inactive. */
  lemma RemovalIsServed(s: Store, token: Token, target: Id, hard: bool, verify: Verify)
    requires WellFormed(s.users) && Accepts(s.users, token)
    ensures var (after, answer) := AuthorizedStep(s, Some(token), Remove(target, hard), NoFault, verify);
      && (answer == Done <==>
            s.users[token.userId].role == "admin" && target in s.users && !OnlyActiveAdmin(s.users, target))
      && (answer == Failed(AdminRequired) <==> s.users[token.userId].role != "admin")
      && (answer != Done ==> answer.Failed? && after == s.(cache := WithCaller(s, token)))
      && (answer == Done ==> after.cache == WithCaller(s, token) - {target})
      && (answer == Done ==>
            forall id | id in s.users && id != target :: id in after.users && after.users[id] == s.users[id])
      && (answer == Done && hard ==>
            && after.users.Keys == s.users.Keys - {target}
            && (forall todo :: todo in after.todoOwners <==> todo in s.todoOwners && s.todoOwners[todo] != target)
            && (forall todo | todo in after.todoOwners :: after.todoOwners[todo] == s.todoOwners[todo]))
      && (answer == Done && !hard ==>
            && after.users.Keys == s.users.Keys && after.todoOwners == s.todoOwners
            && !after.users[target].isActive
            && after.users[target].(isActive := s.users[target].isActive) == s.users[target])
  {
    var recognised := Recognised(s, Some(token)).0;
    DeactivationIsExact(recognised, target);
    HardDeletionIsExact(recognised, target);
    hide DeactivationOf, HardDeletionOf, OnlyActiveAdmin, WellFormed;
  }

  /** A todo is added under a new id, for an admin with the owner he asks for if that is a user,
      for everybody else with himself. */
  lemma TodoIsAdded(s: Store, token: Token, todo: Id, requestedOwnerId: Option<Id>, verify: Verify)
    requires Accepts(s.users, token)
    ensures var (after, answer) := AuthorizedStep(s, Some(token), AddTodo(todo, requestedOwnerId), NoFault, verify);
      var owner := if s.users[token.userId].role == "admin" && requestedOwnerId.Some? then requestedOwnerId.value
                   else token.userId;
      && after.users == s.users && after.cache == WithCaller(s, token)
      && (answer == Done <==> todo !in s.todoOwners && owner in s.users)
      && (answer == Done ==> after.todoOwners == s.todoOwners[todo := owner])
      && (answer != Done ==> answer.Failed? && after.todoOwners == s.todoOwners)
  {
  }

  /** A request that breaks off once the caller is recognised has cached him; one that breaks off
      before its commit has done to the cache what it does without a fault. */
  lemma FaultIsSeenInCache(s: Store, token: Token, operation: Operation, verify: Verify)
    requires Accepts(s.users, token)
    ensures AuthorizedStep(s, Some(token), operation, AtStart, verify).0 == s
    ensures AuthorizedStep(s, Some(token), operation, AfterRecognition, verify).0 == s.(cache := WithCaller(s, token))
    ensures AuthorizedStep(s, Some(token), operation, BeforeCommit, verify).0.cache ==
      AuthorizedStep(s, Some(token), operation, NoFault, verify).0.cache
  {
    hide Performed;
  }

  /** Whatever breaks off leaves the tables alone. */
  lemma FaultIsRolledBack(s: State, request: Request, fault: Fault, verify: Verify)
    requires fault != NoFault
    ensures var (after, answer) := Handled(s, request, fault, verify);
      answer.Failed? && after.store.users == s.store.users && after.store.todoOwners == s.store.todoOwners
  {
    hide Performed, InsertedUser, LoginAnswer;
  }

  // Adding users

  /** A user is added exactly under a new id, with a name, a first and a last name and a role, and
      a name and an email that no other user has; and is active unless said not to be. */
  lemma InsertionIsExact(users: Users, user: User, newId: Id)
    ensures var r := InsertedUser(users, user, newId);
      var id := if user.id.Some? then user.id.value else newId;
      && (r == Err(NameMissing) <==> user.username.None?)
      && (r.Ok? <==>
            && user.username.Some? && user.firstName.Some? && user.lastName.Some? && user.role.Some? && id !in users
            && forall other | other in users ::
              users[other].email != user.email && Lower(users[other].username) != Lower(Lower(user.username.value)))
      && (r.Ok? ==>
            && r.value.0 == users[id :=
                 UserRow(user.email, Lower(user.username.value), user.firstName.value, user.lastName.value,
                         user.hashedPassword, user.isActive != Some(false), user.role.value, user.tokenVersion)]
            && r.value.1 == ToEntity(id, r.value.0[id]))
  {
    hide Lower;
  }

  // Requests without one

  /** A signup is served exactly if id, name and email are new, and adds an active user who is no
      admin, at version 0. */
  lemma SignupIsServed(s: State, body: SignupBody, newHash: string, newId: Id, verify: Verify)
    ensures var (after, answer) := Handled(s, Signup(body, newHash, newId), NoFault, verify);
      && (answer.Profile? <==>
            && newId !in s.store.users
            && forall id | id in s.store.users ::
              s.store.users[id].email != body.email && Lower(s.store.users[id].username) != Lower(body.username))
      && (answer.Profile? ==>
            && after.store == s.store.(users := s.store.users[newId :=
                 UserRow(body.email, Lower(body.username), body.firstName, body.lastName, newHash, true, "user", 0)])
            && answer.user == ToEntity(newId, after.store.users[newId]) && newId in after.usedIds)
      && (!answer.Profile? ==> answer.Failed? && after == s)
  {
    SignupIsExact(s.store.users, body, newHash, newId);
    InsertedIsShown(s.store.users, SignupToEntity(body, newHash), newId);
    hide InsertedUser, Lower;
  }

  lemma InsertedIsShown(users: Users, user: User, newId: Id)
    requires user.id.None?
    ensures match InsertedUser(users, user, newId)
      case Err(_) => true
      case Ok((users', stored)) => newId in users' && stored == ToEntity(newId, users'[newId])
  {
    hide Unique, ToRow;
  }

  /** A login gives a token exactly if there is an active user of that name, in any case of
      letters, whose password it is; a token with what the table says of him. */
  lemma LoginIsServed(s: State, username: string, password: string, verify: Verify)
    requires WellFormed(s.store.users)
    ensures var (after, answer) := Handled(s, Login(username, password), NoFault, verify);
      && after == s
      && (answer.Issued? <==>
            exists id :: id in s.store.users && s.store.users[id].username == Lower(username) &&
              s.store.users[id].isActive && verify(password, s.store.users[id].hashedPassword))
      && (!answer.Issued? ==> answer == Failed(InvalidCredentials))
      && (answer.Issued? ==>
            && answer.token.userId in s.store.users
            && var row := s.store.users[answer.token.userId];
              && row.username == Lower(username) && row.isActive && verify(password, row.hashedPassword)
              && answer.token.username == row.username && answer.token.role == row.role
              && answer.token.tokenVersion == row.tokenVersion)
  {
    hide Lower;
    forall id | id in s.store.users
      ensures MayLogin(s.store.users, id, verify, username, password) <==>
        s.store.users[id].username == Lower(username) &&
        s.store.users[id].isActive && verify(password, s.store.users[id].hashedPassword)
    {
    }
  }

  /** An entry that expires leaves the tables and the other entries alone. */
  lemma ExpiryForgets(s: State, userId: Id, verify: Verify)
    ensures var after := Next(s, Expire(userId), verify);
      && after.store.users == s.store.users && after.store.todoOwners == s.store.todoOwners
      && after.usedIds == s.usedIds
      && (forall id :: id in after.store.cache <==> id in s.store.cache && id != userId)
      && (forall id | id in after.store.cache :: after.store.cache[id] == s.store.cache[id])
  {
  }
}
