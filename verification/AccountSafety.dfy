/** What every request on accounts keeps, and what whole runs of them cannot do. */
module AccountSafety {
  import opened Wrappers
  import opened SortedIds
  import opened Accounts
  import opened AccountOperations
  import opened AccountMachine

  // The invariants

  /** Names are stored in lower case, and no two users share a name or an email. */
  ghost predicate WellFormed(users: Users) {
    && (forall id | id in users :: Lower(users[id].username) == users[id].username)
    && (forall id, other | id in users && other in users && id != other ::
          users[id].username != users[other].username && users[id].email != users[other].email)
  }

  /** What is cached is what the table says of an active user. */
  ghost predicate Coherent(s: Store) {
    forall id | id in s.cache :: id in s.users && s.users[id].isActive && s.cache[id] == IdentityOf(id, s.users[id])
  }

  ghost predicate NoOrphans(s: Store) {
    forall todo | todo in s.todoOwners :: s.todoOwners[todo] in s.users
  }

  ghost predicate StoreOk(s: Store) {
    WellFormed(s.users) && Coherent(s) && NoOrphans(s)
  }

  ghost predicate Inv(s: State) {
    StoreOk(s.store) && forall id | id in s.store.users :: id in s.usedIds
  }

  lemma NewRowKeepsWellFormed(users: Users, id: Id, user: User)
    requires WellFormed(users)
    requires var row := ToRow(user); row.Ok? && Unique(users, id, row.value)
    ensures WellFormed(users[id := ToRow(user).value])
  {
    LowerIsIdempotent(user.username.value);
    hide Lower;
    var row := ToRow(user).value;
    assert Lower(row.username) == row.username;
  }

  lemma InsertKeepsWellFormed(users: Users, user: User, newId: Id)
    requires WellFormed(users)
    ensures match InsertedUser(users, user, newId)
      case Err(_) => true
      case Ok((users', _)) => WellFormed(users')
  {
    if InsertedUser(users, user, newId).Ok? {
      NewRowKeepsWellFormed(users, if user.id.Some? then user.id.value else newId, WithDefaults(user));
    }
  }

  /** What an update persists: one row, the rest as before, and its cache entry gone. */
  lemma PersistedKeepsOk(s: Store, userId: Id, merged: User)
    requires StoreOk(s) && merged.id == Some(userId)
    ensures StoreOk(PersistedUpdate(s, userId, merged).0)
  {
    if UpdatedUser(s.users, merged).Ok? && userId in s.users {
      NewRowKeepsWellFormed(s.users, userId, merged);
    }
    hide Lower, Unique, WellFormed;
  }

  lemma MergeKeepsId(change: Change, existing: User, verify: Verify, newHash: string)
    ensures var r := Merge(change, existing, verify, newHash);
      r.Ok? ==> r.value.id == existing.id && r.value.tokenVersion == existing.tokenVersion
  {
  }

  lemma UpdateKeepsOk(s: Store, userId: Id, change: Change, verify: Verify, newHash: string)
    requires StoreOk(s)
    ensures StoreOk(UpdateOf(s, userId, change, verify, newHash).0)
  {
    hide StoreOk, PersistedUpdate, Merge;
    if userId in s.users {
      var existing := ToEntity(userId, s.users[userId]);
      MergeKeepsId(change, existing, verify, newHash);
      var merge := Merge(change, existing, verify, newHash);
      if merge.Ok? {
        PersistedKeepsOk(s, userId, Versioned(merge.value, existing));
      }
    }
  }

  lemma DeactivationKeepsOk(s: Store, userId: Id)
    requires StoreOk(s)
    ensures StoreOk(DeactivationOf(s, userId).0)
  {
    hide StoreOk, PersistedUpdate, IsLastAdmin;
    if userId in s.users {
      PersistedKeepsOk(s, userId, ToEntity(userId, s.users[userId]).(isActive := Some(false)));
    }
  }

  lemma HardDeletionKeepsOk(s: Store, userId: Id)
    requires StoreOk(s)
    ensures StoreOk(HardDeletionOf(s, userId).0)
  {
    hide IsLastAdmin, Lower;
  }

  lemma RecognitionKeepsOk(s: Store, token: Option<Token>)
    requires StoreOk(s)
    ensures StoreOk(Recognised(s, token).0)
    ensures Recognised(s, token).0.users == s.users && Recognised(s, token).0.todoOwners == s.todoOwners
  {
    hide WellFormed;
  }

  lemma PerformedKeepsOk(s: Store, actor: AuthenticatedUser, operation: Operation, verify: Verify)
    requires StoreOk(s)
    ensures StoreOk(Performed(s, actor, operation, verify).0)
  {
    match operation {
      case ReadMe =>
      case UpdateMe(change, newHash) => UpdateKeepsOk(s, actor.userId, BySelf(change), verify, newHash);
      case UpdateAny(target, change, newHash) => UpdateKeepsOk(s, target, ByAdmin(change), verify, newHash);
      case Remove(target, hard) =>
        DeactivationKeepsOk(s, target);
        HardDeletionKeepsOk(s, target);
      case AddTodo(_, _) =>
        hide WellFormed;
    }
  }

  /** The cache after an operation fits the tables before it as well as those after it, so a
      rollback leaves it right. */
  lemma PerformedForgets(s: Store, actor: AuthenticatedUser, operation: Operation, verify: Verify)
    ensures var cache := Performed(s, actor, operation, verify).0.cache;
      forall id | id in cache :: id in s.cache && cache[id] == s.cache[id]
  {
    hide Merge, UpdatedUser, IsLastAdmin;
  }

  lemma RolledBackKeepsOk(s: Store, recognised: Store, cache: Cache)
    requires StoreOk(recognised) && recognised.users == s.users && recognised.todoOwners == s.todoOwners
    requires forall id | id in cache :: id in recognised.cache && cache[id] == recognised.cache[id]
    ensures StoreOk(s.(cache := cache))
  {
    hide WellFormed;
  }

  lemma AuthorizedKeepsOk(s: Store, token: Option<Token>, operation: Operation, fault: Fault, verify: Verify)
    requires StoreOk(s)
    ensures StoreOk(AuthorizedStep(s, token, operation, fault, verify).0)
  {
    hide StoreOk, Recognised, Performed;
    RecognitionKeepsOk(s, token);
    var (recognised, r) := Recognised(s, token);
    if r.Ok? {
      PerformedKeepsOk(recognised, r.value, operation, verify);
      PerformedOrRolledBackOk(s, recognised, r.value, operation, verify);
    }
  }

  lemma PerformedOrRolledBackOk(s: Store, recognised: Store, actor: AuthenticatedUser, operation: Operation,
                                verify: Verify)
    requires StoreOk(recognised) && recognised.users == s.users && recognised.todoOwners == s.todoOwners
    ensures StoreOk(s.(cache := Performed(recognised, actor, operation, verify).0.cache))
  {
    PerformedForgets(recognised, actor, operation, verify);
    hide Performed, StoreOk;
    RolledBackKeepsOk(s, recognised, Performed(recognised, actor, operation, verify).0.cache);
  }

  /** Whatever an authorized request does, no user appears. */
  lemma AuthorizedAddsNobody(s: Store, token: Option<Token>, operation: Operation, fault: Fault, verify: Verify)
    ensures forall id | id in AuthorizedStep(s, token, operation, fault, verify).0.users :: id in s.users
  {
    hide Merge, Unique, ToRow, IsLastAdmin;
  }

  lemma StepKeepsInv(s: State, e: Event, verify: Verify)
    requires Inv(s)
    ensures Inv(Next(s, e, verify))
  {
    match e {
      case Expire(userId) =>
        hide WellFormed;
      case Handle(Signup(body, newHash, newId), fault) =>
        InsertKeepsWellFormed(s.store.users, SignupToEntity(body, newHash), newId);
        hide WellFormed, Unique, Lower;
      case Handle(Login(_, _), _) =>
      case Handle(Authorized(token, operation), fault) =>
        AuthorizedKeepsOk(s.store, token, operation, fault, verify);
        AuthorizedAddsNobody(s.store, token, operation, fault, verify);
        hide AuthorizedStep, StoreOk;
    }
  }

  /** In every state that whole requests lead to, failures and expiry included. */
  lemma {:induction false} RunKeepsInv(s: State, events: seq<Event>, verify: Verify)
    requires Inv(s)
    ensures Inv(Run(s, events, verify))
    decreases events
  {
    hide Next, Inv;
    if events != [] {
      StepKeepsInv(s, events[0], verify);
      RunKeepsInv(Next(s, events[0], verify), events[1..], verify);
    }
  }

  lemma CacheIsCoherent(start: State, events: seq<Event>, verify: Verify, id: Id)
    requires Inv(start) && id in Run(start, events, verify).store.cache
    ensures var s := Run(start, events, verify).store;
      && id in s.users && s.users[id].isActive
      && s.cache[id] == AuthenticatedUser(id, s.users[id].username, s.users[id].role)
  {
    RunKeepsInv(start, events, verify);
    hide Run;
  }

  const NO_ACCOUNTS := State(Store(map[], map[], map[]), {})

  lemma NoAccountsInv()
    ensures Inv(NO_ACCOUNTS)
  {
  }

  /** Whatever requests a program without accounts has served: names and emails are unique, every
      todo is a user's, and whoever is cached is an active user, with his name and role. */
  lemma ReachableIsCoherent(events: seq<Event>, verify: Verify)
    ensures var s := Run(NO_ACCOUNTS, events, verify).store;
      && (forall id, other | id in s.users && other in s.users && id != other ::
            s.users[id].username != s.users[other].username && s.users[id].email != s.users[other].email)
      && (forall todo | todo in s.todoOwners :: s.todoOwners[todo] in s.users)
      && (forall id | id in s.cache ::
            && id in s.users && s.users[id].isActive
            && s.cache[id] == AuthenticatedUser(id, s.users[id].username, s.users[id].role))
  {
    NoAccountsInv();
    RunKeepsInv(NO_ACCOUNTS, events, verify);
    hide Run;
    forall id | id in Run(NO_ACCOUNTS, events, verify).store.cache {
      CacheIsCoherent(NO_ACCOUNTS, events, verify, id);
    }
  }
}
