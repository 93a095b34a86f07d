/** When the last active admin can go, and what users may change about themselves. */
module AccountAdmins {
  import opened Wrappers
  import opened SortedIds
  import opened Accounts
  import opened AccountOperations
  import opened AccountMachine
  import opened AccountSafety

  function Admins(s: State): set<Id> {
    ActiveAdmins(s.store.users)
  }

  lemma AtMostOne(admins: set<Id>, id: Id)
    requires id in admins
    ensures |admins| <= 1 <==> admins == {id}
  {
    assert admins == {id} + (admins - {id});
  }

  /** The guard stops exactly the removal of the only active admin. */
  lemma GuardIsExact(users: Users, id: Id)
    ensures IsLastAdmin(users, id) <==> ActiveAdmins(users) == {id}
  {
    hide ActiveAdmins;
    if id in ActiveAdmins(users) {
      AtMostOne(ActiveAdmins(users), id);
    }
  }

  lemma DeactivationLeavesAdmins(s: Store, userId: Id)
    requires ActiveAdmins(s.users) != {}
    ensures ActiveAdmins(DeactivationOf(s, userId).0.users) != {}
  {
    GuardIsExact(s.users, userId);
    hide IsLastAdmin, Unique, Lower;
    OthersStay(s.users, DeactivationOf(s, userId).0.users, userId);
  }

  lemma HardDeletionLeavesAdmins(s: Store, userId: Id)
    requires ActiveAdmins(s.users) != {}
    ensures ActiveAdmins(HardDeletionOf(s, userId).0.users) != {}
  {
    GuardIsExact(s.users, userId);
    hide IsLastAdmin;
    OthersStay(s.users, HardDeletionOf(s, userId).0.users, userId);
  }

  /** When only one user's row differs, the other admins stay. */
  lemma OthersStay(before: Users, after: Users, id: Id)
    requires forall other | other in before && other != id :: other in after && after[other] == before[other]
    ensures ActiveAdmins(before) - {id} <= ActiveAdmins(after)
    ensures ActiveAdmins(before) != {} && ActiveAdmins(before) != {id} ==> ActiveAdmins(after) != {}
  {
    if ActiveAdmins(before) != {} && ActiveAdmins(before) != {id} {
      var other :| other in ActiveAdmins(before) && other != id;
      assert other in ActiveAdmins(after);
    }
  }

  lemma UpdateTouchesOne(s: Store, userId: Id, change: Change, verify: Verify, newHash: string)
    ensures var (after, r) := UpdateOf(s, userId, change, verify, newHash);
      && (forall id | id in s.users && id != userId :: id in after.users && after.users[id] == s.users[id])
      && (userId in s.users ==> userId in after.users)
      && (forall id | id in after.users :: id in s.users)
      && (r.Err? ==> after.users == s.users)
  {
    if userId in s.users {
      MergeKeepsId(change, ToEntity(userId, s.users[userId]), verify, newHash);
    }
    hide Merge, Unique, Lower;
  }

  /** Nobody changes his own role, or whether he is active. */
  lemma SelfUpdateKeepsRole(s: Store, userId: Id, change: SelfChange, verify: Verify, newHash: string)
    requires userId in s.users
    ensures var after := UpdateOf(s, userId, BySelf(change), verify, newHash).0.users;
      && userId in after
      && after[userId].role == s.users[userId].role && after[userId].isActive == s.users[userId].isActive
  {
    hide Unique, Lower;
  }

  lemma SelfUpdateKeepsAdmins(s: Store, userId: Id, change: SelfChange, verify: Verify, newHash: string)
    ensures ActiveAdmins(UpdateOf(s, userId, BySelf(change), verify, newHash).0.users) == ActiveAdmins(s.users)
  {
    UpdateTouchesOne(s, userId, BySelf(change), verify, newHash);
    if userId in s.users {
      SelfUpdateKeepsRole(s, userId, change, verify, newHash);
    }
    hide UpdateOf;
  }

  /** What an admin's replacement or patch makes of a user. */
  predicate Demotes(change: AdminChange, row: UserRow) {
    match change
    case AdminReplace(_, _, _, _, _, role, isActive) => role != "admin" || !isActive
    case AdminPatch(_, _, _, _, _, role, isActive) =>
      GetOr(role, Some(row.role)) != Some("admin") || GetOr(isActive, Some(row.isActive)) != Some(true)
  }

  /** An admin's update takes away the last active admin exactly when it fits and demotes or
      deactivates the only one there is. */
  lemma UpdateLosesAdmins(s: Store, userId: Id, change: AdminChange, verify: Verify, newHash: string)
    requires ActiveAdmins(s.users) != {}
    ensures ActiveAdmins(UpdateOf(s, userId, ByAdmin(change), verify, newHash).0.users) == {} <==>
      && Fits(s.users, userId, ByAdmin(change), verify)
      && ActiveAdmins(s.users) == {userId} && Demotes(change, s.users[userId])
  {
    UpdateSucceedsExactlyIf(s, userId, ByAdmin(change), verify, newHash);
    hide Fits;
    var (after, r) := UpdateOf(s, userId, ByAdmin(change), verify, newHash);
    UpdateTouchesOne(s, userId, ByAdmin(change), verify, newHash);
    OthersStay(s.users, after.users, userId);
    if r.Ok? {
      UpdatedRole(s, userId, change, verify, newHash);
      hide UpdateOf;
      if ActiveAdmins(s.users) == {userId} {
        assert userId in ActiveAdmins(s.users);
        assert ActiveAdmins(after.users) <= {userId};
        assert userId in ActiveAdmins(after.users) <==> !Demotes(change, s.users[userId]);
      }
    }
  }

  lemma UpdatedRole(s: Store, userId: Id, change: AdminChange, verify: Verify, newHash: string)
    requires UpdateOf(s, userId, ByAdmin(change), verify, newHash).1.Ok?
    ensures var after := UpdateOf(s, userId, ByAdmin(change), verify, newHash).0.users;
      && userId in s.users && userId in after
      && (after[userId].role != "admin" || !after[userId].isActive <==> Demotes(change, s.users[userId]))
  {
    hide Unique, Lower;
  }

  /** An admin's patch has no field for the current password, so it is refused exactly when it
      gives a new one; passwords of others are set by a replacement only. */
  lemma AdminPatchSetsNoPassword(existing: User, change: AdminChange, verify: Verify, newHash: string)
    requires change.AdminPatch?
    ensures var r := Merge(ByAdmin(change), existing, verify, newHash);
      && (r == Err(CurrentPasswordRequired) <==> GetOr(change.newPassword, None).Some?)
      && (r.Ok? <==> GetOr(change.newPassword, None).None?)
      && (r.Ok? ==> r.value.hashedPassword == existing.hashedPassword)
  {
  }

  // Over requests

  /** The step of an admin who demotes or deactivates himself and is the only active admin. */
  ghost predicate Abdicates(s: State, e: Event, verify: Verify) {
    && e.Handle? && e.fault.NoFault?
    && e.request.Authorized? && e.request.operation.UpdateAny?
    && e.request.token.Some?
    && var token, target := e.request.token.value, e.request.operation.target;
      && Accepts(s.store.users, token)
      && token.userId == target
      && Admins(s) == {target}
      && Fits(s.store.users, target, ByAdmin(e.request.operation.adminChange), verify)
      && Demotes(e.request.operation.adminChange, s.store.users[target])
  }

  lemma PerformedLosesAdmins(s: Store, actor: AuthenticatedUser, operation: Operation, verify: Verify)
    requires ActiveAdmins(s.users) != {}
    requires actor.userId in s.users && s.users[actor.userId].isActive && actor.role == s.users[actor.userId].role
    ensures var (after, answer) := Performed(s, actor, operation, verify);
      ActiveAdmins(after.users) == {} <==>
        && operation.UpdateAny? && Fits(s.users, operation.target, ByAdmin(operation.adminChange), verify)
        && operation.target == actor.userId && ActiveAdmins(s.users) == {operation.target}
        && Demotes(operation.adminChange, s.users[operation.target])
  {
    match operation {
      case UpdateMe(change, newHash) => SelfUpdateKeepsAdmins(s, actor.userId, change, verify, newHash);
      case UpdateAny(target, change, newHash) =>
        UpdateLosesAdmins(s, target, change, verify, newHash);
        assert actor.role == "admin" <==> actor.userId in ActiveAdmins(s.users);
      case Remove(target, _) =>
        DeactivationLeavesAdmins(s, target);
        HardDeletionLeavesAdmins(s, target);
      case _ =>
    }
    hide UpdateOf, DeactivationOf, HardDeletionOf, Demotes, Fits;
  }

  /** No step but an abdication takes the count of active admins to zero, and every abdication
      does; a deactivation or a hard deletion never. */
  lemma OnlyAbdicationLosesAdmins(s: State, e: Event, verify: Verify)
    requires Inv(s) && Admins(s) != {}
    ensures Admins(Next(s, e, verify)) == {} <==> Abdicates(s, e, verify)
  {
    match e {
      case Handle(Authorized(token, operation), fault) =>
        var (recognised, r) := Recognised(s.store, token);
        if r.Ok? {
          PerformedLosesAdmins(recognised, r.value, operation, verify);
        }
        hide Performed, ActiveAdmins, Demotes, Fits;
      case Handle(Signup(body, newHash, newId), fault) =>
        SignupKeepsAdmins(s.store.users, SignupToEntity(body, newHash), newId);
        hide InsertedUser, ActiveAdmins;
      case _ =>
        hide LoginAnswer, ActiveAdmins;
    }
  }

  /** And it does happen: the one admin there is patches his own role to that of a user. */
  lemma AbdicationHappens(admin: Id, row: UserRow, verify: Verify)
    requires row.role == "admin" && row.isActive && Lower(row.username) == row.username
    ensures var s := State(Store(map[admin := row], map[], map[]), {admin});
      var change := AdminPatch(None, None, None, None, None, Some(Some("user")), None);
      var token := Token(admin, row.username, row.role, row.tokenVersion);
      var e := Handle(Authorized(Some(token), UpdateAny(admin, change, "")), NoFault);
      && Inv(s) && Admins(s) == {admin} && Abdicates(s, e, verify)
      && Admins(Next(s, e, verify)) == {}
  {
    var s := State(Store(map[admin := row], map[], map[]), {admin});
    var change := AdminPatch(None, None, None, None, None, Some(Some("user")), None);
    var token := Token(admin, row.username, row.role, row.tokenVersion);
    var e := Handle(Authorized(Some(token), UpdateAny(admin, change, "")), NoFault);
    assert Inv(s) && Admins(s) == {admin} && Abdicates(s, e, verify);
    hide Inv, Next, Abdicates, Admins;
    OnlyAbdicationLosesAdmins(s, e, verify);
  }

  lemma SignupKeepsAdmins(users: Users, user: User, newId: Id)
    requires ActiveAdmins(users) != {} && user.id.None?
    ensures match InsertedUser(users, user, newId)
      case Err(_) => true
      case Ok((users', _)) => ActiveAdmins(users') != {}
  {
    var r := InsertedUser(users, user, newId);
    if r.Ok? {
      var admin :| admin in ActiveAdmins(users);
      assert admin in ActiveAdmins(r.value.0);
    }
  }

  ghost predicate Unabdicated(s: State, events: seq<Event>, verify: Verify)
    decreases events
  {
    events != [] ==> !Abdicates(s, events[0], verify) && Unabdicated(Next(s, events[0], verify), events[1..], verify)
  }

  /** In a run without an abdication there is always an active admin. */
  lemma {:induction false} AdminsRemain(s: State, events: seq<Event>, verify: Verify)
    requires Inv(s) && Admins(s) != {} && Unabdicated(s, events, verify)
    ensures Admins(Run(s, events, verify)) != {}
    decreases events
  {
    if events != [] {
      StepKeepsInv(s, events[0], verify);
      OnlyAbdicationLosesAdmins(s, events[0], verify);
      hide Next, Inv, Abdicates, Admins;
      AdminsRemain(Next(s, events[0], verify), events[1..], verify);
    }
  }

  /** The guard's error is given exactly to an active admin who removes himself while there is
      no other. */
  lemma LastAdminErrorIsExact(s: State, token: Token, operation: Operation, verify: Verify)
    requires Accepts(s.store.users, token)
    ensures Handled(s, Authorized(Some(token), operation), NoFault, verify).1 == Failed(LastAdmin) <==>
      operation.Remove? && operation.target == token.userId && Admins(s) == {token.userId}
  {
    var actor := token.userId;
    assert s.store.users[actor].role == "admin" <==> actor in ActiveAdmins(s.store.users);
    if operation.Remove? {
      GuardIsExact(s.store.users, operation.target);
    }
    hide ActiveAdmins, IsLastAdmin, Merge, Unique, Lower;
    OtherErrors(Recognised(s.store, Some(token)).0, actor, operation, verify);
  }

  /** An update never fails with the guard's error. */
  lemma OtherErrors(s: Store, actor: Id, operation: Operation, verify: Verify)
    ensures match operation
      case UpdateMe(change, newHash) => UpdateOf(s, actor, BySelf(change), verify, newHash).1 != Err(LastAdmin)
      case UpdateAny(target, change, newHash) =>
        UpdateOf(s, target, ByAdmin(change), verify, newHash).1 != Err(LastAdmin)
      case _ => true
  {
    hide Unique, Lower;
  }

  /** A request with a token that is not accepted changes nothing at all; one of a user who is
      not an admin changes at most his own row, there neither his role nor whether he is active,
      and adds only todos of his own. */
  lemma UsersStayInPlace(s: Store, token: Option<Token>, operation: Operation, fault: Fault, verify: Verify)
    ensures token.None? || !Accepts(s.users, token.value) ==>
      AuthorizedStep(s, token, operation, fault, verify).0 == s
    ensures token.Some? && Accepts(s.users, token.value) && s.users[token.value.userId].role != "admin" ==>
      var me, after := token.value.userId, AuthorizedStep(s, token, operation, fault, verify).0;
      && after.users.Keys == s.users.Keys
      && (forall id | id in s.users && id != me :: after.users[id] == s.users[id])
      && after.users[me].role == s.users[me].role && after.users[me].isActive
      && (forall todo | todo in s.todoOwners ::
            todo in after.todoOwners && after.todoOwners[todo] == s.todoOwners[todo])
      && (forall todo | todo in after.todoOwners && todo !in s.todoOwners :: after.todoOwners[todo] == me)
  {
    var (recognised, r) := Recognised(s, token);
    if r.Ok? && operation.UpdateMe? {
      UpdateTouchesOne(recognised, r.value.userId, BySelf(operation.change), verify, operation.newHash);
      SelfUpdateKeepsRole(recognised, r.value.userId, operation.change, verify, operation.newHash);
      UpdateKeepsTodos(recognised, r.value.userId, BySelf(operation.change), verify, operation.newHash);
    }
    hide UpdateOf, IsLastAdmin;
  }

  lemma UpdateKeepsTodos(s: Store, userId: Id, change: Change, verify: Verify, newHash: string)
    ensures UpdateOf(s, userId, change, verify, newHash).0.todoOwners == s.todoOwners
  {
    hide Merge, UpdatedUser;
  }
}
