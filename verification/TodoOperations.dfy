/** Who may do what to a todo, and the use cases over the repository. */
module TodoOperations {
  import opened Wrappers
  import opened SortedIds
  import opened TodoTable

  datatype Actor = Actor(id: Id, role: string)

  const ADMIN_ROLE := "admin"

  predicate IsAdmin(actor: Actor) {
    actor.role == ADMIN_ROLE
  }

  /** The owner a listing, read, update or delete is narrowed to; none for an admin. */
  function ListOwnerFilter(actor: Actor): Option<Id> {
    if IsAdmin(actor) then None else Some(actor.id)
  }

  function ResolveCreateOwnerId(actor: Actor, requestedOwnerId: Option<Id>): Id {
    if IsAdmin(actor) && requestedOwnerId.Some? then requestedOwnerId.value else actor.id
  }

  predicate IsUpdateOwnerChangeForbidden(actor: Actor, existingOwnerId: Id, requestedOwnerId: Option<Id>) {
    !IsAdmin(actor) && requestedOwnerId.Some? && requestedOwnerId.value != existingOwnerId
  }

  function ResolveUpdateOwnerId(existingOwnerId: Id, requestedOwnerId: Option<Id>): Id {
    if requestedOwnerId.Some? then requestedOwnerId.value else existingOwnerId
  }

  /** The body of a PUT, or the fields set in the body of a PATCH: an unset field is None, and a
      field set to null is Some(None). */
  datatype Change =
    | Replace(
        title: string,
        description: Option<string>,
        priority: Option<string>,
        completed: bool,
        ownerId: Option<Id>)
    | Patch(
        newTitle: Option<string>,
        newDescription: Option<Option<string>>,
        newPriority: Option<Option<string>>,
        newCompleted: Option<Option<bool>>,
        newOwnerId: Option<Option<Id>>)

  function RequestedOwnerId(change: Change): Option<Id> {
    match change
    case Replace(_, _, _, _, ownerId) => ownerId
    case Patch(_, _, _, _, ownerId) => GetOr(ownerId, None)
  }

  /** The entity that an update writes, from the entity it read. */
  function Merge(change: Change, existing: Todo, todoId: Id, ownerId: Id): Todo {
    match change
    case Replace(title, description, priority, completed, _) =>
      Todo(Some(todoId), title, description, priority, Some(completed), Some(ownerId))
    case Patch(title, description, priority, completed, _) =>
      Todo(existing.id, GetOr(title, existing.title), GetOr(description, existing.description),
           GetOr(priority, existing.priority), GetOr(completed, existing.completed), Some(ownerId))
  }

  datatype TodoError = TodoNotFound(actorRole: string) | OwnerChangeForbidden | Database(error: DbError)

  // What each use case answers and leaves behind. An update and a delete read first and write
  // later, on the table as it is then.

  function GetTodo(rows: Rows, todoId: Id, actor: Actor): Result<Todo, TodoError> {
    var todo := Fetched(rows, todoId, ListOwnerFilter(actor));
    if todo.None? then Err(TodoNotFound(actor.role)) else Ok(todo.value)
  }

  function CreateTodo(users: set<Id>, rows: Rows, todo: Todo, actor: Actor, requestedOwnerId: Option<Id>, newId: Id)
    : (Rows, Result<Todo, TodoError>)
  {
    var entity := todo.(ownerId := Some(ResolveCreateOwnerId(actor, requestedOwnerId)));
    match Inserted(users, rows, entity, newId)
    case Err(error) => (rows, Err(Database(error)))
    case Ok((rows', stored)) => (rows', Ok(stored))
  }

  function PrepareUpdate(rows: Rows, todoId: Id, change: Change, actor: Actor): Result<Todo, TodoError> {
    var existing := GetTodo(rows, todoId, actor);
    if existing.Err? then existing
    else if existing.value.ownerId.None? then Err(TodoNotFound(actor.role))
    else
      var existingOwnerId := existing.value.ownerId.value;
      if IsUpdateOwnerChangeForbidden(actor, existingOwnerId, RequestedOwnerId(change)) then Err(OwnerChangeForbidden)
      else Ok(Merge(change, existing.value, todoId, ResolveUpdateOwnerId(existingOwnerId, RequestedOwnerId(change))))
  }

  function WriteUpdate(users: set<Id>, rows: Rows, merged: Todo, actor: Actor): (Rows, Result<Todo, TodoError>) {
    match Updated(users, rows, merged, ListOwnerFilter(actor))
    case Err(error) => (rows, Err(Database(error)))
    case Ok((rows', updated)) =>
      (rows', if updated.None? then Err(TodoNotFound(actor.role)) else Ok(updated.value))
  }

  /** An update with nothing between its read and its write. */
  function UpdateAtOnce(users: set<Id>, rows: Rows, todoId: Id, change: Change, actor: Actor)
    : (Rows, Result<Todo, TodoError>)
  {
    match PrepareUpdate(rows, todoId, change, actor)
    case Err(error) => (rows, Err(error))
    case Ok(merged) => WriteUpdate(users, rows, merged, actor)
  }

  function WriteDelete(rows: Rows, todoId: Id, actor: Actor): (Rows, Result<(), TodoError>) {
    var (rows', deleted) := Deleted(rows, todoId, ListOwnerFilter(actor));
    (rows', if deleted then Ok(()) else Err(TodoNotFound(actor.role)))
  }

  method GetTodoForActor(repo: SqlTodoRepository, todoId: Id, actor: Actor) returns (r: Result<Todo, TodoError>)
    ensures r == GetTodo(repo.rows, todoId, actor)
  {
    var ownerFilter := ListOwnerFilter(actor);
    var todo := repo.GetById(todoId, ownerFilter);
    if todo.None? {
      return Err(TodoNotFound(actor.role));
    }
    return Ok(todo.value);
  }

  method CreateTodoForActor(repo: SqlTodoRepository, todo: Todo, actor: Actor, requestedOwnerId: Option<Id>, newId: Id)
    returns (r: Result<Todo, TodoError>)
    modifies repo`rows
    ensures (repo.rows, r) == CreateTodo(repo.users, old(repo.rows), todo, actor, requestedOwnerId, newId)
  {
    var ownerId := ResolveCreateOwnerId(actor, requestedOwnerId);
    var entity := Todo(todo.id, todo.title, todo.description, todo.priority, todo.completed, Some(ownerId));
    var added := repo.Add(entity, newId);
    match added {
      case Err(error) => return Err(Database(error));
      case Ok(stored) => return Ok(stored);
    }
  }

  /** An update up to its write. */
  method ReadForUpdate(repo: SqlTodoRepository, todoId: Id, change: Change, actor: Actor)
    returns (r: Result<Todo, TodoError>)
    ensures r == PrepareUpdate(repo.rows, todoId, change, actor)
  {
    var existing := GetTodoForActor(repo, todoId, actor);
    if existing.Err? {
      return existing;
    }
    var existingTodo := existing.value;
    if existingTodo.ownerId.None? {
      return Err(TodoNotFound(actor.role));
    }
    var existingOwnerId := existingTodo.ownerId.value;
    if IsUpdateOwnerChangeForbidden(actor, existingOwnerId, RequestedOwnerId(change)) {
      return Err(OwnerChangeForbidden);
    }
    var ownerId := ResolveUpdateOwnerId(existingOwnerId, RequestedOwnerId(change));
    return Ok(Merge(change, existingTodo, todoId, ownerId));
  }

  /** An update from its write on. */
  method WriteForUpdate(repo: SqlTodoRepository, merged: Todo, actor: Actor) returns (r: Result<Todo, TodoError>)
    modifies repo`rows
    ensures (repo.rows, r) == WriteUpdate(repo.users, old(repo.rows), merged, actor)
  {
    var ownerFilter := ListOwnerFilter(actor);
    var updated := repo.Update(merged, ownerFilter);
    match updated {
      case Err(error) => return Err(Database(error));
      case Ok(None) => return Err(TodoNotFound(actor.role));
      case Ok(Some(todo)) => return Ok(todo);
    }
  }

  /** Nothing else acts in between. */
  method UpdateTodoForActor(repo: SqlTodoRepository, todoId: Id, change: Change, actor: Actor)
    returns (r: Result<Todo, TodoError>)
    modifies repo`rows
    ensures (repo.rows, r) == UpdateAtOnce(repo.users, old(repo.rows), todoId, change, actor)
  {
    var merged := ReadForUpdate(repo, todoId, change, actor);
    if merged.Err? {
      return merged;
    }
    r := WriteForUpdate(repo, merged.value, actor);
  }

  method WriteForDelete(repo: SqlTodoRepository, todoId: Id, actor: Actor) returns (r: Result<(), TodoError>)
    modifies repo`rows
    ensures (repo.rows, r) == WriteDelete(old(repo.rows), todoId, actor)
  {
    var ownerFilter := ListOwnerFilter(actor);
    var deleted := repo.Delete(todoId, ownerFilter);
    if !deleted {
      return Err(TodoNotFound(actor.role));
    }
    return Ok(());
  }

  method DeleteTodoForActor(repo: SqlTodoRepository, todoId: Id, actor: Actor) returns (r: Result<(), TodoError>)
    modifies repo`rows
    ensures match GetTodo(old(repo.rows), todoId, actor)
      case Err(error) => repo.rows == old(repo.rows) && r == Err(error)
      case Ok(_) => (repo.rows, r) == WriteDelete(old(repo.rows), todoId, actor)
  {
    var existing := GetTodoForActor(repo, todoId, actor);
    if existing.Err? {
      return Err(existing.error);
    }
    r := WriteForDelete(repo, todoId, actor);
  }

  /** A create succeeds exactly for a new id and an owner who is a user; then it adds one row with
      what was asked for, open unless it was said to be completed, and owned by the actor unless an
      admin chose another owner. */
  lemma CreateIsExact(users: set<Id>, rows: Rows, todo: Todo, actor: Actor, requestedOwnerId: Option<Id>, newId: Id)
    ensures var (rows', r) := CreateTodo(users, rows, todo, actor, requestedOwnerId, newId);
      var id, owner := GetOr(todo.id, newId), if IsAdmin(actor) then GetOr(requestedOwnerId, actor.id) else actor.id;
      && (r.Ok? <==> id !in rows && owner in users)
      && (r.Err? ==> rows' == rows)
      && (r.Ok? ==>
            && rows'.Keys == rows.Keys + {id} && (forall other | other in rows :: rows'[other] == rows[other])
            && r.value == ToEntity(id, rows'[id])
            && r.value.(completed := None) == todo.(id := Some(id), ownerId := Some(owner), completed := None)
            && (rows'[id].completed <==> todo.completed == Some(true)))
  {
  }

  /** A delete alone succeeds exactly for a todo in scope, and removes that one. */
  lemma DeleteIsExact(rows: Rows, todoId: Id, actor: Actor)
    ensures var (rows', r) := WriteDelete(rows, todoId, actor);
      && (r.Ok? <==> GetTodo(rows, todoId, actor).Ok?)
      && (r.Ok? <==> todoId in rows && (IsAdmin(actor) || rows[todoId].ownerId == actor.id))
      && rows'.Keys == (if r.Ok? then rows.Keys - {todoId} else rows.Keys)
      && (forall id | id in rows' :: rows'[id] == rows[id])
  {
  }

  /** Whether an actor may read a todo for this change. */
  predicate MayRead(rows: Rows, todoId: Id, change: Change, actor: Actor) {
    && todoId in rows
    && (IsAdmin(actor) || rows[todoId].ownerId == actor.id)
    && (IsAdmin(actor) || RequestedOwnerId(change) in {None, Some(actor.id)})
  }

  /** Whether the table refuses what the change sets: a null, or an owner who is no user. */
  predicate Refused(users: set<Id>, change: Change) {
    || (change.Patch? && change.newCompleted == Some(None))
    || (RequestedOwnerId(change).Some? && RequestedOwnerId(change).value !in users)
  }

  /** Every owner is a user. */
  ghost predicate OwnersAreUsers(users: set<Id>, rows: Rows) {
    forall id | id in rows :: rows[id].ownerId in users
  }

  /** Alone, an update succeeds exactly if it may be read for and is not refused, and then writes
      exactly the change; in all other cases it writes nothing. */
  lemma UndisturbedUpdate(users: set<Id>, rows: Rows, todoId: Id, change: Change, actor: Actor)
    requires OwnersAreUsers(users, rows)
    ensures var (rows', answer) := UpdateAtOnce(users, rows, todoId, change, actor);
      && (answer.Ok? <==> MayRead(rows, todoId, change, actor) && !Refused(users, change))
      && (answer.Err? ==> rows' == rows)
      && (answer.Ok? ==>
            && rows'.Keys == rows.Keys && answer.value == ToEntity(todoId, rows'[todoId])
            && (forall id | id in rows && id != todoId :: rows'[id] == rows[id])
            && rows'[todoId].ownerId == GetOr(RequestedOwnerId(change), rows[todoId].ownerId)
            && match change
               case Replace(title, description, priority, completed, _) =>
                 rows'[todoId].(ownerId := 0) == Row(title, description, priority, completed, 0)
               case Patch(title, description, priority, completed, _) =>
                 && rows'[todoId].title == GetOr(title, rows[todoId].title)
                 && rows'[todoId].description == GetOr(description, rows[todoId].description)
                 && rows'[todoId].priority == GetOr(priority, rows[todoId].priority)
                 && Some(rows'[todoId].completed) == GetOr(completed, Some(rows[todoId].completed)))
  {
  }

  /** Where a change leaves a field as it is, the row has the same there as the other one. */
  predicate SameWhereUnset(change: Change, row: Row, other: Row) {
    && (RequestedOwnerId(change).None? ==> row.ownerId == other.ownerId)
    && match change
       case Replace(_, _, _, _, _) => true
       case Patch(title, description, priority, completed, _) =>
         && (title.None? ==> row.title == other.title)
         && (description.None? ==> row.description == other.description)
         && (priority.None? ==> row.priority == other.priority)
         && (completed.None? ==> row.completed == other.completed)
  }

  /** An update that read one table and writes to a later one does what it would have done on the
      later one in one go, exactly if the todo is out of scope by then, or the table refuses the
      change anyway, or no field it leaves unset was changed in between; else the change made in
      between is lost. */
  lemma InterleavedIsAtomicExactlyIf(users: set<Id>, read: Rows, written: Rows, todoId: Id, change: Change,
                                     actor: Actor)
    requires MayRead(read, todoId, change, actor) && OwnersAreUsers(users, written)
    ensures PrepareUpdate(read, todoId, change, actor).Ok?
    ensures
      WriteUpdate(users, written, PrepareUpdate(read, todoId, change, actor).value, actor) ==
        UpdateAtOnce(users, written, todoId, change, actor)
      <==>
      || !MayRead(written, todoId, change, actor)
      || Refused(users, change)
      || SameWhereUnset(change, read[todoId], written[todoId])
  {
    var early := PrepareUpdate(read, todoId, change, actor).value;
    if MayRead(written, todoId, change, actor) && !Refused(users, change) {
      var late := PrepareUpdate(written, todoId, change, actor).value;
      assert WriteUpdate(users, written, late, actor).1.Ok?;
      if !SameWhereUnset(change, read[todoId], written[todoId]) {
        assert WriteUpdate(users, written, early, actor).1 != WriteUpdate(users, written, late, actor).1;
      }
    }
  }
}
