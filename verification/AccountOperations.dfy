/** The changes that requests ask for, and the use cases over the user table and the cache. */
module AccountOperations {
  import opened Wrappers
  import opened SortedIds
  import opened Accounts

  datatype AccountError =
    | Unauthorized
    | InvalidCredentials
    | AdminRequired
    | UserNotFound
    | CurrentPasswordRequired
    | CurrentPasswordInvalid
    | LastAdmin
    | Database(error: DbError)
    | Crashed

  /** Whether a password matches a hash. */
  type Verify = (string, string) -> bool

  // The bodies of the requests; in a patch an unset field is None, one set to null is Some(None)

  datatype SelfChange =
    | SelfReplace(
        email: string,
        username: string,
        firstName: string,
        lastName: string,
        password: Option<string>,
        currentPassword: Option<string>)
    | SelfPatch(
        newEmail: Option<Option<string>>,
        newUsername: Option<Option<string>>,
        newFirstName: Option<Option<string>>,
        newLastName: Option<Option<string>>,
        newPassword: Option<Option<string>>,
        givenPassword: Option<Option<string>>)

  datatype AdminChange =
    | AdminReplace(
        email: string,
        username: string,
        firstName: string,
        lastName: string,
        password: Option<string>,
        role: string,
        isActive: bool)
    | AdminPatch(
        newEmail: Option<Option<string>>,
        newUsername: Option<Option<string>>,
        newFirstName: Option<Option<string>>,
        newLastName: Option<Option<string>>,
        newPassword: Option<Option<string>>,
        newRole: Option<Option<string>>,
        newIsActive: Option<Option<bool>>)

  datatype Change = BySelf(self: SelfChange) | ByAdmin(admin: AdminChange)

  /** The fields set in a patch. */
  datatype Fields = Fields(
    email: Option<Option<string>>,
    username: Option<Option<string>>,
    firstName: Option<Option<string>>,
    lastName: Option<Option<string>>,
    password: Option<Option<string>>,
    currentPassword: Option<Option<string>>,
    role: Option<Option<string>>,
    isActive: Option<Option<bool>>)

  /** A change of password by its owner needs the current one. `newHash` is the salted hash
      computed for the new password. */
  function ResolvePasswordWithStepUp(existing: User, newPassword: Option<string>, currentPassword: Option<string>,
                                     verify: Verify, newHash: string): Result<string, AccountError> {
    if newPassword.None? then Ok(existing.hashedPassword)
    else if currentPassword.None? then Err(CurrentPasswordRequired)
    else if !verify(currentPassword.value, existing.hashedPassword) then Err(CurrentPasswordInvalid)
    else Ok(newHash)
  }

  function ApplyPatch(existing: User, fields: Fields, verify: Verify, newHash: string): Result<User, AccountError> {
    var hash := ResolvePasswordWithStepUp(
      existing, GetOr(fields.password, None), GetOr(fields.currentPassword, None), verify, newHash);
    match hash
    case Err(error) => Err(error)
    case Ok(hashedPassword) =>
      var email := GetOr(fields.email, None);
      Ok(User(existing.id,
              if email.None? then existing.email else email.value,
              GetOr(fields.username, existing.username),
              GetOr(fields.firstName, existing.firstName),
              GetOr(fields.lastName, existing.lastName),
              hashedPassword,
              GetOr(fields.isActive, existing.isActive),
              GetOr(fields.role, existing.role),
              existing.tokenVersion))
  }

  /** The entity a change makes of the existing one. */
  function Merge(change: Change, existing: User, verify: Verify, newHash: string): Result<User, AccountError> {
    match change
    case BySelf(SelfReplace(email, username, firstName, lastName, password, currentPassword)) =>
      (match ResolvePasswordWithStepUp(existing, password, currentPassword, verify, newHash)
       case Err(error) => Err(error)
       case Ok(hash) =>
         Ok(existing.(email := email, username := Some(username), firstName := Some(firstName),
                      lastName := Some(lastName), hashedPassword := hash)))
    case BySelf(SelfPatch(email, username, firstName, lastName, password, currentPassword)) =>
      ApplyPatch(existing, Fields(email, username, firstName, lastName, password, currentPassword, None, None),
                 verify, newHash)
    case ByAdmin(AdminReplace(email, username, firstName, lastName, password, role, isActive)) =>
      var hash := if password.None? then existing.hashedPassword else newHash;
      Ok(User(existing.id, email, Some(username), Some(firstName), Some(lastName), hash,
              Some(isActive), Some(role), existing.tokenVersion))
    case ByAdmin(AdminPatch(email, username, firstName, lastName, password, role, isActive)) =>
      ApplyPatch(existing, Fields(email, username, firstName, lastName, password, None, role, isActive),
                 verify, newHash)
  }

  /** The tables and the cache together. */
  datatype Store = Store(users: Users, todoOwners: TodoOwners, cache: Cache)

  function Of(repo: SqlUserRepository, cache: ValkeyUserAuthCache): Store
    reads repo, cache
  {
    Store(repo.users, repo.todoOwners, cache.entries)
  }

  // What each use case answers and leaves behind

  /** A new hash comes with a new token version. */
  function Versioned(merged: User, existing: User): User {
    if merged.hashedPassword == existing.hashedPassword then merged
    else merged.(tokenVersion := existing.tokenVersion + 1)
  }

  function PersistedUpdate(s: Store, userId: Id, merged: User): (Store, Result<User, AccountError>) {
    match UpdatedUser(s.users, merged)
    case Err(error) => (s, Err(Database(error)))
    case Ok((users, None)) => (s.(users := users), Err(UserNotFound))
    case Ok((users, Some(user))) => (s.(users := users, cache := s.cache - {userId}), Ok(user))
  }

  function UpdateOf(s: Store, userId: Id, change: Change, verify: Verify, newHash: string)
    : (Store, Result<User, AccountError>)
  {
    match FetchedUser(s.users, userId)
    case None => (s, Err(UserNotFound))
    case Some(existing) =>
      match Merge(change, existing, verify, newHash)
      case Err(error) => (s, Err(error))
      case Ok(merged) => PersistedUpdate(s, userId, Versioned(merged, existing))
  }

  /** The one case in which the guard speaks up. */
  predicate IsLastAdmin(users: Users, userId: Id) {
    userId in ActiveAdmins(users) && |ActiveAdmins(users)| <= 1
  }

  function DeactivationOf(s: Store, userId: Id): (Store, Result<(), AccountError>) {
    if IsLastAdmin(s.users, userId) then (s, Err(LastAdmin))
    else
      match FetchedUser(s.users, userId)
      case None => (s, Err(UserNotFound))
      case Some(existing) =>
        var (s', r) := PersistedUpdate(s, userId, existing.(isActive := Some(false)));
        (s', if r.Ok? then Ok(()) else Err(r.error))
  }

  function HardDeletionOf(s: Store, userId: Id): (Store, Result<(), AccountError>) {
    if IsLastAdmin(s.users, userId) then (s, Err(LastAdmin))
    else if userId !in s.users then (s, Err(UserNotFound))
    else (Store(s.users - {userId}, WithoutTodosOf(s.todoOwners, userId), s.cache - {userId}), Ok(()))
  }

  method UpdateUser(userId: Id, change: Change, verify: Verify, newHash: string, repo: SqlUserRepository,
                    authCache: ValkeyUserAuthCache)
    returns (r: Result<User, AccountError>)
    modifies repo, authCache
    ensures (Of(repo, authCache), r) == UpdateOf(old(Of(repo, authCache)), userId, change, verify, newHash)
  {
    var found := repo.GetById(userId);
    if found.None? {
      return Err(UserNotFound);
    }
    var existing := found.value;
    var merge := Merge(change, existing, verify, newHash);
    if merge.Err? {
      return merge;
    }
    var merged := merge.value;
    if merged.hashedPassword != existing.hashedPassword {
      merged := merged.(tokenVersion := existing.tokenVersion + 1);
    }
    var updated := PersistUserUpdate(repo, merged);
    if updated.Err? {
      return updated;
    }
    authCache.InvalidateUser(userId);
    return updated;
  }

  method PersistUserUpdate(repo: SqlUserRepository, merged: User) returns (r: Result<User, AccountError>)
    modifies repo
    ensures repo.todoOwners == old(repo.todoOwners)
    ensures match UpdatedUser(old(repo.users), merged)
      case Err(error) => r == Err(Database(error)) && repo.users == old(repo.users)
      case Ok((users, None)) => r == Err(UserNotFound) && repo.users == users
      case Ok((users, Some(user))) => r == Ok(user) && repo.users == users
  {
    var updated := repo.Update(merged);
    match updated {
      case Err(error) => return Err(Database(error));
      case Ok(None) => return Err(UserNotFound);
      case Ok(Some(user)) => return Ok(user);
    }
  }

  method GuardLastAdmin(userId: Id, repo: SqlUserRepository) returns (r: Result<(), AccountError>)
    ensures r == if IsLastAdmin(repo.users, userId) then Err(LastAdmin) else Ok(())
  {
    var target := repo.GetById(userId);
    if target.None? || target.value.role != Some("admin") || target.value.isActive != Some(true) {
      return Ok(());
    }
    var count := repo.CountActiveAdmins();
    if count <= 1 {
      return Err(LastAdmin);
    }
    return Ok(());
  }

  method DeactivateUser(userId: Id, repo: SqlUserRepository, authCache: ValkeyUserAuthCache)
    returns (r: Result<(), AccountError>)
    modifies repo, authCache
    ensures (Of(repo, authCache), r) == DeactivationOf(old(Of(repo, authCache)), userId)
  {
    var guarded := GuardLastAdmin(userId, repo);
    if guarded.Err? {
      return guarded;
    }
    var existing := repo.GetById(userId);
    if existing.None? {
      return Err(UserNotFound);
    }
    var updated := PersistUserUpdate(repo, existing.value.(isActive := Some(false)));
    if updated.Err? {
      return Err(updated.error);
    }
    authCache.InvalidateUser(userId);
    return Ok(());
  }

  method HardDeleteUser(userId: Id, repo: SqlUserRepository, authCache: ValkeyUserAuthCache)
    returns (r: Result<(), AccountError>)
    modifies repo, authCache
    ensures (Of(repo, authCache), r) == HardDeletionOf(old(Of(repo, authCache)), userId)
  {
    var guarded := GuardLastAdmin(userId, repo);
    if guarded.Err? {
      return guarded;
    }
    var existing := repo.GetById(userId);
    if existing.None? {
      return Err(UserNotFound);
    }
    var deleted := repo.Delete(userId);
    if !deleted {
      return Err(UserNotFound);
    }
    authCache.InvalidateUser(userId);
    return Ok(());
  }

  // Signing up, logging in, and being recognised

  datatype SignupBody = SignupBody(email: string, username: string, firstName: string, lastName: string)

  function SignupToEntity(body: SignupBody, hash: string): User {
    User(None, body.email, Some(body.username), Some(body.firstName), Some(body.lastName), hash,
         Some(true), Some("user"), 0)
  }

  method CreateUser(entity: User, newId: Id, repo: SqlUserRepository) returns (r: Result<User, DbError>)
    requires entity.username.Some?
    modifies repo
    ensures repo.todoOwners == old(repo.todoOwners)
    ensures match InsertedUser(old(repo.users), entity, newId)
      case Err(error) => r == Err(error) && repo.users == old(repo.users)
      case Ok((users, stored)) => r == Ok(stored) && repo.users == users
  {
    var normalized := entity.(username := Some(Lower(entity.username.value)));
    LowerIsIdempotent(entity.username.value);
    r := repo.Add(normalized, newId);
  }

  /** What an access token says. */
  datatype Token = Token(userId: Id, username: string, role: string, tokenVersion: nat)

  /** The token of a successful login is of an active user of that name whose password it was,
      and a login fails exactly when there is no such user. */
  method Authenticate(users: SqlUserRepository, verify: Verify, username: string, password: string)
    returns (r: Result<Token, AccountError>)
    requires forall id, other | id in users.users && other in users.users && id != other ::
      Lower(users.users[id].username) != Lower(users.users[other].username)
    ensures r.Err? ==> r.error == InvalidCredentials
    ensures r.Ok? <==>
      exists id :: id in users.users && Lower(users.users[id].username) == Lower(username) &&
        users.users[id].isActive && verify(password, users.users[id].hashedPassword)
    ensures r.Ok? ==>
      && MayLogin(users.users, r.value.userId, verify, username, password)
      && var row := users.users[r.value.userId];
         && Lower(row.username) == Lower(username) && row.isActive && verify(password, row.hashedPassword)
         && r.value == Token(r.value.userId, row.username, row.role, row.tokenVersion)
  {
    LowerIsIdempotent(username);
    var found := users.GetByUsername(Lower(username));
    if found.None? {
      return Err(InvalidCredentials);
    }
    var id := found.value.id.value;
    var row := users.users[id];
    if !row.isActive || !verify(password, row.hashedPassword) {
      assert forall other | other in users.users && other != id ::
          Lower(users.users[other].username) != Lower(username);
      return Err(InvalidCredentials);
    }
    assert MayLogin(users.users, id, verify, username, password);
    return Ok(Token(id, row.username, row.role, row.tokenVersion));
  }

  predicate MayLogin(users: Users, id: Id, verify: Verify, username: string, password: string) {
    && id in users && Lower(users[id].username) == Lower(username)
    && users[id].isActive && verify(password, users[id].hashedPassword)
  }

  function IdentityOf(id: Id, row: UserRow): AuthenticatedUser {
    AuthenticatedUser(id, row.username, row.role)
  }

  predicate Accepts(users: Users, token: Token) {
    && token.userId in users
    && users[token.userId].isActive
    && users[token.userId].tokenVersion == token.tokenVersion
  }

  /** Who a request acts for; the decoded token is missing when there was none, or it was
      malformed or had expired. */
  function Recognised(s: Store, decoded: Option<Token>): (Store, Result<AuthenticatedUser, AccountError>) {
    if decoded.None? || !Accepts(s.users, decoded.value) then (s, Err(Unauthorized))
    else
      var id := decoded.value.userId;
      var identity := IdentityOf(id, s.users[id]);
      (s.(cache := s.cache[id := identity]), Ok(identity))
  }

  method GetCurrentUser(decoded: Option<Token>, repo: SqlUserRepository, authCache: ValkeyUserAuthCache)
    returns (r: Result<AuthenticatedUser, AccountError>)
    modifies authCache
    ensures (Of(repo, authCache), r) == Recognised(old(Of(repo, authCache)), decoded)
  {
    if decoded.None? {
      return Err(Unauthorized);
    }
    var dbUser := repo.GetById(decoded.value.userId);
    if dbUser.None? || dbUser.value.isActive != Some(true) {
      return Err(Unauthorized);
    }
    if dbUser.value.tokenVersion != decoded.value.tokenVersion {
      return Err(Unauthorized);
    }
    var row := repo.users[decoded.value.userId];
    var authUser := AuthenticatedUser(decoded.value.userId, row.username, row.role);
    authCache.SetActiveUser(authUser);
    return Ok(authUser);
  }

  // What the changes mean, column by column

  /** Whether the change gives the passwords it has to give. */
  predicate StepsUp(change: Change, row: UserRow, verify: Verify) {
    match change
    case BySelf(SelfReplace(_, _, _, _, password, current)) =>
      password.Some? ==> current.Some? && verify(current.value, row.hashedPassword)
    case BySelf(SelfPatch(_, _, _, _, password, current)) =>
      GetOr(password, None).Some? ==>
        GetOr(current, None).Some? && verify(GetOr(current, None).value, row.hashedPassword)
    case ByAdmin(AdminReplace(_, _, _, _, _, _, _)) => true
    case ByAdmin(AdminPatch(_, _, _, _, password, _, _)) => GetOr(password, None).None?
  }

  /** A column after a patch: the new value if the field was set, else the old one. */
  predicate Patched<T(==)>(field: Option<Option<T>>, before: T, after: T) {
    field == Some(Some(after)) || (field == None && after == before)
  }

  /** A name after a patch is stored in lower case. */
  predicate PatchedName(field: Option<Option<string>>, before: string, after: string) {
    if field.None? then after == Lower(before) else field.value.Some? && after == Lower(field.value.value)
  }

  /** An email set to null is left as it was. */
  predicate PatchedEmail(field: Option<Option<string>>, before: string, after: string) {
    after == GetOr(GetOr(field, None), before)
  }

  /** Each column of the row after a change is what the change says, or as before where it says
      nothing. */
  predicate Wrote(change: Change, row: UserRow, row': UserRow, newHash: string) {
    match change
    case BySelf(SelfReplace(email, username, firstName, lastName, password, _)) =>
      && row'.email == email && row'.username == Lower(username)
      && row'.firstName == firstName && row'.lastName == lastName
      && row'.hashedPassword == (if password.Some? then newHash else row.hashedPassword)
      && row'.role == row.role && row'.isActive == row.isActive
    case BySelf(SelfPatch(email, username, firstName, lastName, password, _)) =>
      && PatchedEmail(email, row.email, row'.email) && PatchedName(username, row.username, row'.username)
      && Patched(firstName, row.firstName, row'.firstName) && Patched(lastName, row.lastName, row'.lastName)
      && row'.hashedPassword == (if GetOr(password, None).Some? then newHash else row.hashedPassword)
      && row'.role == row.role && row'.isActive == row.isActive
    case ByAdmin(AdminReplace(email, username, firstName, lastName, password, role, isActive)) =>
      && row'.email == email && row'.username == Lower(username)
      && row'.firstName == firstName && row'.lastName == lastName
      && row'.hashedPassword == (if password.Some? then newHash else row.hashedPassword)
      && row'.role == role && row'.isActive == isActive
    case ByAdmin(AdminPatch(email, username, firstName, lastName, _, role, isActive)) =>
      && PatchedEmail(email, row.email, row'.email) && PatchedName(username, row.username, row'.username)
      && Patched(firstName, row.firstName, row'.firstName) && Patched(lastName, row.lastName, row'.lastName)
      && row'.hashedPassword == row.hashedPassword
      && Patched(role, row.role, row'.role) && Patched(isActive, row.isActive, row'.isActive)
  }

  lemma MergeIsExact(id: Id, row: UserRow, change: Change, verify: Verify, newHash: string)
    ensures var r := Merge(change, ToEntity(id, row), verify, newHash);
      && (r.Ok? <==> StepsUp(change, row, verify))
      && (r.Ok? ==> r.value.id == Some(id) && r.value.tokenVersion == row.tokenVersion)
      && (r.Ok? && ToRow(r.value).Ok? ==> Wrote(change, row, ToRow(r.value).value, newHash))
  {
    hide Lower;
  }

  /** The email and the name that a change asks for. */
  function NewEmail(change: Change, row: UserRow): string {
    match change
    case BySelf(SelfReplace(email, _, _, _, _, _)) => email
    case BySelf(SelfPatch(email, _, _, _, _, _)) => GetOr(GetOr(email, None), row.email)
    case ByAdmin(AdminReplace(email, _, _, _, _, _, _)) => email
    case ByAdmin(AdminPatch(email, _, _, _, _, _, _)) => GetOr(GetOr(email, None), row.email)
  }

  function NewUsername(change: Change, row: UserRow): Option<string> {
    match change
    case BySelf(SelfReplace(_, username, _, _, _, _)) => Some(username)
    case BySelf(SelfPatch(_, username, _, _, _, _)) => GetOr(username, Some(row.username))
    case ByAdmin(AdminReplace(_, username, _, _, _, _, _)) => Some(username)
    case ByAdmin(AdminPatch(_, username, _, _, _, _, _)) => GetOr(username, Some(row.username))
  }

  /** Whether the change sets none of the columns without nulls to null. */
  predicate SetsNoNull(change: Change) {
    match change
    case BySelf(SelfPatch(_, username, firstName, lastName, _, _)) =>
      username != Some(None) && firstName != Some(None) && lastName != Some(None)
    case ByAdmin(AdminPatch(_, username, firstName, lastName, _, role, isActive)) =>
      && username != Some(None) && firstName != Some(None) && lastName != Some(None)
      && role != Some(None) && isActive != Some(None)
    case _ => true
  }

  /** What can be looked up before an update: the user is there, the passwords it needs are given,
      it sets no null, and no other user has the email or the name. */
  predicate Fits(users: Users, userId: Id, change: Change, verify: Verify) {
    && userId in users && StepsUp(change, users[userId], verify) && SetsNoNull(change)
    && var email, username := NewEmail(change, users[userId]), GetOr(NewUsername(change, users[userId]), "");
      forall other | other in users && other != userId ::
        users[other].email != email && Lower(users[other].username) != Lower(username)
  }

  lemma StoredIffNoNull(id: Id, row: UserRow, change: Change, verify: Verify, newHash: string)
    requires Merge(change, ToEntity(id, row), verify, newHash).Ok?
    ensures var merged := Merge(change, ToEntity(id, row), verify, newHash).value;
      && (merged.username.Some? && ToRow(merged).Ok? <==> SetsNoNull(change))
      && (SetsNoNull(change) ==>
            && ToRow(merged).value.email == NewEmail(change, row)
            && NewUsername(change, row).Some?
            && ToRow(merged).value.username == Lower(NewUsername(change, row).value))
  {
    hide Lower;
  }

  /** An update succeeds exactly when it fits. */
  lemma UpdateSucceedsExactlyIf(s: Store, userId: Id, change: Change, verify: Verify, newHash: string)
    ensures UpdateOf(s, userId, change, verify, newHash).1.Ok? <==> Fits(s.users, userId, change, verify)
  {
    if userId in s.users {
      var row := s.users[userId];
      MergeIsExact(userId, row, change, verify, newHash);
      if StepsUp(change, row, verify) {
        var existing := ToEntity(userId, row);
        var merged := Merge(change, existing, verify, newHash).value;
        StoredIffNoNull(userId, row, change, verify, newHash);
        LowerIsIdempotent(GetOr(NewUsername(change, row), ""));
        hide Merge, StepsUp, Wrote, NewEmail, NewUsername, SetsNoNull, Lower;
        VersionKeepsRow(merged, existing.tokenVersion + 1);
      }
    }
  }

  lemma VersionKeepsRow(merged: User, version: nat)
    ensures ToRow(merged.(tokenVersion := version)) ==
      match ToRow(merged) case Err(error) => Err(error) case Ok(row) => Ok(row.(tokenVersion := version))
  {
  }

  /** An update succeeds exactly when it fits. Then it writes one row, column by column what the
      change says, and raises the version exactly for a new hash; else it changes nothing. */
  lemma UpdateIsExact(s: Store, userId: Id, change: Change, verify: Verify, newHash: string)
    ensures var (after, r) := UpdateOf(s, userId, change, verify, newHash);
      && (r.Ok? <==> Fits(s.users, userId, change, verify))
      && (r.Err? ==> after == s)
      && (r.Ok? ==>
            && after.users.Keys == s.users.Keys && r.value == ToEntity(userId, after.users[userId])
            && (forall id | id in s.users && id != userId :: after.users[id] == s.users[id])
            && var row, row' := s.users[userId], after.users[userId];
              && row'.tokenVersion == row.tokenVersion + (if row'.hashedPassword == row.hashedPassword then 0 else 1)
              && Wrote(change, row, row', newHash))
  {
    UpdateSucceedsExactlyIf(s, userId, change, verify, newHash);
    if Fits(s.users, userId, change, verify) {
      var row := s.users[userId];
      MergeIsExact(userId, row, change, verify, newHash);
      var merged := Merge(change, ToEntity(userId, row), verify, newHash).value;
      hide Merge, StepsUp, Fits;
      VersionIsApart(change, row, merged, row.tokenVersion + 1, newHash);
      hide Wrote, Unique, Lower;
    }
    hide Fits, Merge, Unique;
  }

  lemma VersionIsApart(change: Change, row: UserRow, merged: User, version: nat, newHash: string)
    ensures ToRow(merged.(tokenVersion := version)).Ok? <==> ToRow(merged).Ok?
    ensures ToRow(merged).Ok? ==>
      (Wrote(change, row, ToRow(merged.(tokenVersion := version)).value, newHash) <==>
       Wrote(change, row, ToRow(merged).value, newHash))
  {
    hide Lower;
  }

  /** A signup succeeds exactly if id, name and email are new, and makes an active user who is no
      admin, at version 0. */
  lemma SignupIsExact(users: Users, body: SignupBody, hash: string, newId: Id)
    ensures var r := InsertedUser(users, SignupToEntity(body, hash), newId);
      && (r.Ok? <==>
            && newId !in users
            && forall id | id in users ::
              users[id].email != body.email && Lower(users[id].username) != Lower(body.username))
      && (r.Ok? ==>
            r.value.0 == users[newId :=
              UserRow(body.email, Lower(body.username), body.firstName, body.lastName, hash, true, "user", 0)])
  {
    LowerIsIdempotent(body.username);
    hide Lower;
  }
}
