/** The user table with its constraints, and the cache of identities. */
module Accounts {
  import opened Wrappers
  import opened SortedIds
  import Text

  /** A user entity; a patch can ask for nulls that the table then refuses. */
  datatype User = User(
    id: Option<Id>,
    email: string,
    username: Option<string>,
    firstName: Option<string>,
    lastName: Option<string>,
    hashedPassword: string,
    isActive: Option<bool>,
    role: Option<string>,
    tokenVersion: nat)

  datatype UserRow = UserRow(
    email: string,
    username: string,
    firstName: string,
    lastName: string,
    hashedPassword: string,
    isActive: bool,
    role: string,
    tokenVersion: nat)

  type Users = map<Id, UserRow>

  /** The owner of every todo; the column refers to the user table. */
  type TodoOwners = map<Id, Id>

  datatype AuthenticatedUser = AuthenticatedUser(userId: Id, username: string, role: string)

  type Cache = map<Id, AuthenticatedUser>

  datatype DbError = ConstraintViolation | NameMissing

  function LowerChar(c: char): char {
    if 'A' <= c <= 'Z' then (c as int - 'A' as int + 'a' as int) as char else c
  }

  function Lower(s: string): (t: string)
    ensures |t| == |s| && forall i | 0 <= i < |s| :: t[i] == LowerChar(s[i])
  {
    seq(|s|, i requires 0 <= i < |s| => LowerChar(s[i]))
  }

  /** Each capital letter gives way to its small one, and everything else stays. */
  lemma LowerIs(s: string)
    ensures |Lower(s)| == |s|
    ensures forall i, k | 0 <= i < |s| && 0 <= k < 26 ::
      s[i] == Text.CAPITAL_LETTERS[k] ==> Lower(s)[i] == Text.SMALL_LETTERS[k]
    ensures forall i | 0 <= i < |s| :: s[i] !in Text.CAPITAL_LETTERS ==> Lower(s)[i] == s[i]
  {
    forall k | 0 <= k < 26
      ensures Text.CAPITAL_LETTERS[k] as int == 65 + k && Text.SMALL_LETTERS[k] as int == 97 + k
    {
      Text.LettersInOrder(k);
    }
    hide Text.CAPITAL_LETTERS, Text.SMALL_LETTERS;
    assert forall i | 0 <= i < |s| && 'A' <= s[i] <= 'Z' :: s[i] == Text.CAPITAL_LETTERS[s[i] as int - 65];
  }

  lemma LowerIsIdempotent(s: string)
    ensures Lower(Lower(s)) == Lower(s)
  {
  }

  function ToEntity(id: Id, row: UserRow): User {
    User(Some(id), row.email, Some(row.username), Some(row.firstName), Some(row.lastName),
         row.hashedPassword, Some(row.isActive), Some(row.role), row.tokenVersion)
  }

  /** The row an entity is stored as; no column takes a null. */
  function ToRow(user: User): Result<UserRow, DbError> {
    if user.username.None? then Err(NameMissing)
    else if user.firstName.None? || user.lastName.None? || user.isActive.None? || user.role.None? then
      Err(ConstraintViolation)
    else
      Ok(UserRow(user.email, Lower(user.username.value), user.firstName.value, user.lastName.value,
                 user.hashedPassword, user.isActive.value, user.role.value, user.tokenVersion))
  }

  /** The unique columns: the email, and the lower-cased name. */
  predicate Unique(users: Users, id: Id, row: UserRow) {
    forall other | other in users && other != id ::
      Lower(users[other].username) != Lower(row.username) && users[other].email != row.email
  }

  // The statements

  function FetchedUser(users: Users, id: Id): Option<User> {
    if id in users then Some(ToEntity(id, users[id])) else None
  }

  /** `INSERT`: a missing flag for activity is filled in with the default of its column. */
  function WithDefaults(user: User): User {
    user.(isActive := Some(GetOr(user.isActive, true)))
  }

  function InsertedUser(users: Users, user: User, newId: Id): Result<(Users, User), DbError> {
    var id := if user.id.Some? then user.id.value else newId;
    match ToRow(WithDefaults(user))
    case Err(error) => Err(error)
    case Ok(row) =>
      if id in users || !Unique(users, id, row) then Err(ConstraintViolation)
      else Ok((users[id := row], ToEntity(id, row)))
  }

  function UpdatedUser(users: Users, user: User): Result<(Users, Option<User>), DbError> {
    if user.id.None? then Ok((users, None))
    else if user.username.None? then Err(NameMissing)
    else if user.id.value !in users then Ok((users, None))
    else
      match ToRow(user)
      case Err(error) => Err(error)
      case Ok(row) =>
        if !Unique(users, user.id.value, row) then Err(ConstraintViolation)
        else Ok((users[user.id.value := row], Some(ToEntity(user.id.value, row))))
  }

  function WithoutTodosOf(todoOwners: TodoOwners, userId: Id): TodoOwners {
    map todo | todo in todoOwners && todoOwners[todo] != userId :: todoOwners[todo]
  }

  function ActiveAdmins(users: Users): set<Id> {
    set id | id in users && users[id].role == "admin" && users[id].isActive
  }

  lemma AtMostOneIsOne(s: set<Id>)
    ensures |s| <= 1 <==> forall x, y | x in s && y in s :: x == y
  {
    if s != {} {
      var x :| x in s;
      assert s == {x} + (s - {x});
      if s - {x} != {} {
        var y :| y in s - {x};
        assert s - {x} == {y} + (s - {x} - {y});
      }
    }
  }

  class SqlUserRepository {
    var users: Users
    var todoOwners: TodoOwners

    constructor ()
      ensures users == map[] && todoOwners == map[]
    {
      users, todoOwners := map[], map[];
    }

    method Add(user: User, newId: Id) returns (r: Result<User, DbError>)
      modifies this`users
      ensures match InsertedUser(old(users), user, newId)
        case Err(error) => r == Err(error) && users == old(users)
        case Ok((users', stored)) => r == Ok(stored) && users == users'
    {
      var userId := if user.id.Some? then user.id.value else newId;
      if user.username.None? {
        return Err(NameMissing);
      }
      var normalized := user.(username := Some(Lower(user.username.value)));
      LowerIsIdempotent(user.username.value);
      var row := ToRow(WithDefaults(normalized));
      if row.Err? {
        return Err(row.error);
      }
      if userId in users || !Unique(users, userId, row.value) {
        return Err(ConstraintViolation);
      }
      users := users[userId := row.value];
      return Ok(ToEntity(userId, row.value));
    }

    method GetById(userId: Id) returns (user: Option<User>)
      ensures user == FetchedUser(users, userId)
    {
      if userId !in users {
        return None;
      }
      return Some(ToEntity(userId, users[userId]));
    }

    method GetByUsername(username: string) returns (user: Option<User>)
      ensures user.None? <==> forall id | id in users :: Lower(users[id].username) != Lower(username)
      ensures user.Some? ==>
        && user.value.id.Some?
        && var id := user.value.id.value;
          id in users && Lower(users[id].username) == Lower(username) && user.value == ToEntity(id, users[id])
    {
      if id :| id in users && Lower(users[id].username) == Lower(username) {
        return Some(ToEntity(id, users[id]));
      }
      return None;
    }

    method Update(user: User) returns (r: Result<Option<User>, DbError>)
      modifies this`users
      ensures match UpdatedUser(old(users), user)
        case Err(error) => r == Err(error) && users == old(users)
        case Ok((users', stored)) => r == Ok(stored) && users == users'
    {
      if user.id.None? {
        return Ok(None);
      }
      if user.username.None? {
        return Err(NameMissing);
      }
      var userId := user.id.value;
      if userId !in users {
        return Ok(None);
      }
      var row := ToRow(user);
      if row.Err? {
        return Err(row.error);
      }
      if !Unique(users, userId, row.value) {
        return Err(ConstraintViolation);
      }
      users := users[userId := row.value];
      return Ok(Some(ToEntity(userId, row.value)));
    }

    /** `DELETE FROM users`: refused while a todo refers to the row. */
    method DeleteRow(userId: Id) returns (r: Result<bool, DbError>)
      modifies this`users
      ensures userId in old(todoOwners.Values) && userId in old(users) ==>
        r == Err(ConstraintViolation) && users == old(users)
      ensures userId !in old(todoOwners.Values) || userId !in old(users) ==>
        r == Ok(userId in old(users)) && users == old(users) - {userId}
    {
      if userId !in users {
        return Ok(false);
      }
      if userId in todoOwners.Values {
        return Err(ConstraintViolation);
      }
      users := users - {userId};
      return Ok(true);
    }

    /** Deletes the user's todos first, so that the user's row can always go. */
    method Delete(userId: Id) returns (deleted: bool)
      modifies this
      ensures deleted == (userId in old(users)) && users == old(users) - {userId}
      ensures todoOwners == WithoutTodosOf(old(todoOwners), userId)
    {
      todoOwners := map todo | todo in todoOwners && todoOwners[todo] != userId :: todoOwners[todo];
      var r := DeleteRow(userId);
      deleted := r.value;
    }

    /** Counts the rows; at most one is counted exactly if no two users are active admins. */
    method CountActiveAdmins() returns (count: nat)
      ensures count == |ActiveAdmins(users)|
      ensures count <= 1 <==>
        forall id, other | id in ActiveAdmins(users) && other in ActiveAdmins(users) :: id == other
    {
      count := 0;
      var left := users.Keys;
      ghost var counted: set<Id> := {};
      while left != {}
        invariant left <= users.Keys && count == |counted|
        invariant counted == ActiveAdmins(users) - left
      {
        var id :| id in left;
        if users[id].role == "admin" && users[id].isActive {
          counted := counted + {id};
          count := count + 1;
        }
        left := left - {id};
      }
      assert counted == ActiveAdmins(users);
      AtMostOneIsOne(counted);
    }
  }

  /** The cache of active users, one entry for a user id. */
  class ValkeyUserAuthCache {
    var entries: Cache

    constructor ()
      ensures entries == map[]
    {
      entries := map[];
    }

    method SetActiveUser(user: AuthenticatedUser)
      modifies this
      ensures entries == old(entries)[user.userId := user]
    {
      entries := entries[user.userId := user];
    }

    method InvalidateUser(userId: Id)
      modifies this
      ensures entries == old(entries) - {userId}
    {
      entries := entries - {userId};
    }
  }
}
