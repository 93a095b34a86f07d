/** The todo table, the SQL repository over it, and the dictionary form used as reference. */
module TodoTable {
  import opened Wrappers
  import opened SortedIds

  /** A todo entity; a stored one has an id, an owner and a completed flag. */
  datatype Todo = Todo(
    id: Option<Id>,
    title: string,
    description: Option<string>,
    priority: Option<string>,
    completed: Option<bool>,
    ownerId: Option<Id>)

  datatype Row = Row(title: string, description: Option<string>, priority: Option<string>, completed: bool, ownerId: Id)

  type Rows = map<Id, Row>

  datatype Page = Page(items: seq<Todo>, nextLastId: Option<Id>)

  datatype DbError = ConstraintViolation | OwnerMissing

  function ToEntity(id: Id, row: Row): Todo {
    Todo(Some(id), row.title, row.description, row.priority, Some(row.completed), Some(row.ownerId))
  }

  function ToEntities(rows: Rows, ids: seq<Id>): (items: seq<Todo>)
    requires forall i | 0 <= i < |ids| :: ids[i] in rows
    ensures |items| == |ids|
    ensures forall i | 0 <= i < |ids| :: items[i] == ToEntity(ids[i], rows[ids[i]])
  {
    if ids == [] then [] else [ToEntity(ids[0], rows[ids[0]])] + ToEntities(rows, ids[1..])
  }

  predicate InScope(row: Row, ownerFilter: Option<Id>) {
    ownerFilter.None? || row.ownerId == ownerFilter.value
  }

  /** The ids a listing ranges over. */
  function Matching(rows: Rows, ownerFilter: Option<Id>, lastId: Option<Id>): set<Id> {
    set id | id in rows && InScope(rows[id], ownerFilter) && (lastId.None? || lastId.value < id)
  }

  function Take(ids: seq<Id>, n: nat): (r: seq<Id>)
    ensures r <= ids && |r| == if n < |ids| then n else |ids|
  {
    if n < |ids| then ids[..n] else ids
  }

  /** `SELECT ... WHERE ... ORDER BY id LIMIT ...` */
  datatype Select = Select(limit: nat, ownerFilter: Option<Id>, after: Option<Id>) {
    function Execute(rows: Rows): seq<Id> {
      Take(Sort(Matching(rows, ownerFilter, after)), limit)
    }
  }

  /** A page: up to `limit` matching ids, and where to go on when there are more. */
  function PageIds(rows: Rows, lastId: Option<Id>, limit: nat, ownerFilter: Option<Id>): seq<Id> {
    Select(limit, ownerFilter, lastId).Execute(rows)
  }

  function NextLastId(rows: Rows, lastId: Option<Id>, limit: nat, ownerFilter: Option<Id>): Option<Id> {
    var ids := PageIds(rows, lastId, limit, ownerFilter);
    if |Matching(rows, ownerFilter, lastId)| > limit && ids != [] then Some(ids[|ids| - 1]) else None
  }

  lemma PageIdsMatch(rows: Rows, lastId: Option<Id>, limit: nat, ownerFilter: Option<Id>)
    ensures forall i | 0 <= i < |PageIds(rows, lastId, limit, ownerFilter)| ::
      PageIds(rows, lastId, limit, ownerFilter)[i] in Matching(rows, ownerFilter, lastId)
  {
    var s := Matching(rows, ownerFilter, lastId);
    SortIsAscending(s);
    forall i | 0 <= i < |PageIds(rows, lastId, limit, ownerFilter)|
      ensures PageIds(rows, lastId, limit, ownerFilter)[i] in s
    {
      assert PageIds(rows, lastId, limit, ownerFilter)[i] == Sort(s)[i];
      assert Sort(s)[i] in Sort(s);
    }
  }

  /** Asking for one row more than the limit tells whether there are more, and cutting that row
      off leaves the page. */
  lemma CutToLimit(rows: Rows, lastId: Option<Id>, limit: nat, ownerFilter: Option<Id>)
    ensures var found := Select(limit + 1, ownerFilter, lastId).Execute(rows);
      && Take(found, limit) == PageIds(rows, lastId, limit, ownerFilter)
      && (|found| > limit <==> |Matching(rows, ownerFilter, lastId)| > limit)
  {
    var matching := Matching(rows, ownerFilter, lastId);
    SortIsAscending(matching);
    hide Sort, Matching;
    var ids := Sort(matching);
    if limit + 1 < |ids| {
      assert ids[..limit + 1][..limit] == ids[..limit];
    }
  }

  /** What one query for one row too many has to do with the page. */
  lemma FoundIsPage(rows: Rows, lastId: Option<Id>, limit: nat, ownerFilter: Option<Id>)
    ensures var found := Select(limit + 1, ownerFilter, lastId).Execute(rows);
      var cut := if limit < |found| then found[..limit] else found;
      && (forall i | 0 <= i < |cut| :: cut[i] in rows)
      && PageOf(rows, lastId, limit, ownerFilter) ==
        Page(ToEntities(rows, cut), if |found| > limit && cut != [] then Some(cut[|cut| - 1]) else None)
  {
    CutToLimit(rows, lastId, limit, ownerFilter);
    PageIdsMatch(rows, lastId, limit, ownerFilter);
    hide Sort, ToEntities;
  }

  function PageOf(rows: Rows, lastId: Option<Id>, limit: nat, ownerFilter: Option<Id>): Page {
    PageIdsMatch(rows, lastId, limit, ownerFilter);
    Page(ToEntities(rows, PageIds(rows, lastId, limit, ownerFilter)), NextLastId(rows, lastId, limit, ownerFilter))
  }

  // The statements on single rows

  function Fetched(rows: Rows, id: Id, ownerFilter: Option<Id>): Option<Todo> {
    if id in rows && InScope(rows[id], ownerFilter) then Some(ToEntity(id, rows[id])) else None
  }

  /** `INSERT`: the id must be new and the owner a user; a missing completed flag is filled in with
      the default of its column. */
  function Inserted(users: set<Id>, rows: Rows, todo: Todo, newId: Id): Result<(Rows, Todo), DbError> {
    var id := if todo.id.Some? then todo.id.value else newId;
    if todo.ownerId.None? then Err(OwnerMissing)
    else if id in rows || todo.ownerId.value !in users then Err(ConstraintViolation)
    else
      var row := Row(todo.title, todo.description, todo.priority, GetOr(todo.completed, false), todo.ownerId.value);
      Ok((rows[id := row], ToEntity(id, row)))
  }

  /** `UPDATE ... WHERE id = ... AND owner_id = ... RETURNING`: for a row that matches, the owner must
      be a user, and a missing completed flag is a null, which the column refuses. */
  function Updated(users: set<Id>, rows: Rows, todo: Todo, ownerFilter: Option<Id>)
    : Result<(Rows, Option<Todo>), DbError>
  {
    if todo.id.None? then Ok((rows, None))
    else if todo.ownerId.None? then Err(OwnerMissing)
    else
      var id := todo.id.value;
      if id !in rows || !InScope(rows[id], ownerFilter) then Ok((rows, None))
      else if todo.completed.None? || todo.ownerId.value !in users then Err(ConstraintViolation)
      else
        var row := Row(todo.title, todo.description, todo.priority, todo.completed.value, todo.ownerId.value);
        Ok((rows[id := row], Some(ToEntity(id, row))))
  }

  function Deleted(rows: Rows, id: Id, ownerFilter: Option<Id>): (Rows, bool) {
    if id in rows && InScope(rows[id], ownerFilter) then (rows - {id}, true) else (rows, false)
  }

  class SqlTodoRepository {
    /** The ids of the user table, which the owner column refers to. */
    var users: set<Id>
    var rows: Rows

    constructor (users: set<Id>)
      ensures this.users == users && rows == map[]
    {
      this.users, rows := users, map[];
    }

    method ListPage(lastId: Option<Id>, limit: nat, ownerId: Option<Id>) returns (page: Page)
      ensures page == PageOf(rows, lastId, limit, ownerId)
    {
      FoundIsPage(rows, lastId, limit, ownerId);
      hide *;
      var stmt := Select(limit + 1, None, None);
      if ownerId.Some? {
        stmt := stmt.(ownerFilter := ownerId);
      }
      if lastId.Some? {
        stmt := stmt.(after := lastId);
      }
      assert stmt == Select(limit + 1, ownerId, lastId);
      var found := stmt.Execute(rows);
      var hasMore := |found| > limit;
      var pageRows := if limit < |found| then found[..limit] else found;
      var items := ToEntities(rows, pageRows);
      var nextLastId := if hasMore && pageRows != [] then Some(pageRows[|pageRows| - 1]) else None;
      page := Page(items, nextLastId);
    }

    method GetById(todoId: Id, ownerId: Option<Id>) returns (todo: Option<Todo>)
      ensures todo == Fetched(rows, todoId, ownerId)
    {
      if todoId in rows && InScope(rows[todoId], ownerId) {
        return Some(ToEntity(todoId, rows[todoId]));
      }
      return None;
    }

    method Add(todo: Todo, newId: Id) returns (r: Result<Todo, DbError>)
      modifies this`rows
      ensures match Inserted(users, old(rows), todo, newId)
        case Err(e) => r == Err(e) && rows == old(rows)
        case Ok((rows', stored)) => r == Ok(stored) && rows == rows'
    {
      var todoId := if todo.id.Some? then todo.id.value else newId;
      if todo.ownerId.None? {
        return Err(OwnerMissing);
      }
      if todoId in rows || todo.ownerId.value !in users {
        return Err(ConstraintViolation);
      }
      var row := Row(todo.title, todo.description, todo.priority, GetOr(todo.completed, false), todo.ownerId.value);
      rows := rows[todoId := row];
      return Ok(ToEntity(todoId, row));
    }

    method Update(todo: Todo, ownerId: Option<Id>) returns (r: Result<Option<Todo>, DbError>)
      modifies this`rows
      ensures match Updated(users, old(rows), todo, ownerId)
        case Err(e) => r == Err(e) && rows == old(rows)
        case Ok((rows', stored)) => r == Ok(stored) && rows == rows'
    {
      if todo.id.None? {
        return Ok(None);
      }
      if todo.ownerId.None? {
        return Err(OwnerMissing);
      }
      var id := todo.id.value;
      if id !in rows || !InScope(rows[id], ownerId) {
        return Ok(None);
      }
      if todo.completed.None? || todo.ownerId.value !in users {
        return Err(ConstraintViolation);
      }
      var row := Row(todo.title, todo.description, todo.priority, todo.completed.value, todo.ownerId.value);
      rows := rows[id := row];
      return Ok(Some(ToEntity(id, row)));
    }

    method Delete(todoId: Id, ownerId: Option<Id>) returns (deleted: bool)
      modifies this`rows
      ensures (rows, deleted) == Deleted(old(rows), todoId, ownerId)
    {
      if todoId !in rows || !InScope(rows[todoId], ownerId) {
        return false;
      }
      rows := rows - {todoId};
      return true;
    }
  }

  /** The ids of a list above the cursor, in order. */
  function After(ids: seq<Id>, lastId: Option<Id>): seq<Id> {
    if lastId.None? then ids
    else if ids == [] then []
    else (if ids[0] > lastId.value then [ids[0]] else []) + After(ids[1..], lastId)
  }

  /** The ids of a list whose rows are in scope, in order. */
  function InScopeOnly(rows: Rows, ids: seq<Id>, ownerFilter: Option<Id>): (kept: seq<Id>)
    requires forall i | 0 <= i < |ids| :: ids[i] in rows
    ensures forall i | 0 <= i < |kept| :: kept[i] in rows
  {
    if ids == [] then []
    else
      var id := ids[|ids| - 1];
      InScopeOnly(rows, ids[..|ids| - 1], ownerFilter) + if InScope(rows[id], ownerFilter) then [id] else []
  }

  lemma NoTodos(rows: Rows, ownerFilter: Option<Id>)
    ensures ToEntities(rows, InScopeOnly(rows, [], ownerFilter)) == []
  {
  }

  lemma OneTodoMore(rows: Rows, ids: seq<Id>, i: nat, ownerFilter: Option<Id>)
    requires i < |ids| && forall k | 0 <= k < |ids| :: ids[k] in rows
    ensures ToEntities(rows, InScopeOnly(rows, ids[..i + 1], ownerFilter)) ==
      ToEntities(rows, InScopeOnly(rows, ids[..i], ownerFilter)) +
      if InScope(rows[ids[i]], ownerFilter) then [ToEntity(ids[i], rows[ids[i]])] else []
  {
    assert ids[..i + 1][..i] == ids[..i];
    hide ToEntities, InScope;
    var kept := InScopeOnly(rows, ids[..i], ownerFilter);
    assert kept + [] == kept;
    assert InScope(rows[ids[i]], ownerFilter) ==>
      ToEntities(rows, kept + [ids[i]]) == ToEntities(rows, kept) + [ToEntity(ids[i], rows[ids[i]])];
  }

  lemma {:induction false} AfterKeeps(ids: seq<Id>, lastId: Option<Id>)
    requires Ascending(ids)
    ensures Ascending(After(ids, lastId))
    ensures forall id :: id in After(ids, lastId) <==> id in ids && (lastId.None? || lastId.value < id)
  {
    if ids != [] && lastId.Some? {
      AfterKeeps(ids[1..], lastId);
      assert ids == [ids[0]] + ids[1..];
      var rest := After(ids[1..], lastId);
      forall i | 0 <= i < |rest| ensures ids[0] < rest[i] {
        assert rest[i] in rest;
      }
    }
  }

  lemma {:induction false} InScopeOnlyKeeps(rows: Rows, ids: seq<Id>, ownerFilter: Option<Id>)
    requires Ascending(ids) && forall i | 0 <= i < |ids| :: ids[i] in rows
    ensures Ascending(InScopeOnly(rows, ids, ownerFilter))
    ensures forall id :: id in InScopeOnly(rows, ids, ownerFilter) <==> id in ids && InScope(rows[id], ownerFilter)
  {
    if ids != [] {
      var last := ids[|ids| - 1];
      var front := ids[..|ids| - 1];
      InScopeOnlyKeeps(rows, front, ownerFilter);
      assert ids == front + [last];
      forall x | x in InScopeOnly(rows, front, ownerFilter) ensures x < last {
        EarlierIsSmaller(ids, |ids| - 1, x);
      }
      AppendKeepsAscending(InScopeOnly(rows, front, ownerFilter), last);
    }
  }

  /** Sorting everything and then filtering is filtering and then sorting. */
  lemma FilterOfAll(rows: Rows, lastId: Option<Id>, ownerFilter: Option<Id>)
    ensures forall i | 0 <= i < |After(Sort(rows.Keys), lastId)| :: After(Sort(rows.Keys), lastId)[i] in rows
    ensures InScopeOnly(rows, After(Sort(rows.Keys), lastId), ownerFilter) ==
      Sort(Matching(rows, ownerFilter, lastId))
  {
    SortIsAscending(rows.Keys);
    SortIsAscending(Matching(rows, ownerFilter, lastId));
    var all := Sort(rows.Keys);
    AfterKeeps(all, lastId);
    hide Sort, After, InScopeOnly, Ascending;
    var rest := After(all, lastId);
    forall i | 0 <= i < |rest| ensures rest[i] in rows {
      assert rest[i] in rest;
    }
    InScopeOnlyKeeps(rows, rest, ownerFilter);
    AscendingIsUnique(InScopeOnly(rows, rest, ownerFilter), Sort(Matching(rows, ownerFilter, lastId)));
  }

  lemma SortKeepsSize(rows: Rows, lastId: Option<Id>, ownerFilter: Option<Id>)
    ensures |Sort(Matching(rows, ownerFilter, lastId))| == |Matching(rows, ownerFilter, lastId)|
  {
    SortIsAscending(Matching(rows, ownerFilter, lastId));
  }

  /** Cutting the entities of all matching ids to the limit is the page. */
  lemma CutIsPage(rows: Rows, lastId: Option<Id>, limit: nat, ownerFilter: Option<Id>, items: seq<Todo>)
    requires forall i | 0 <= i < |Sort(Matching(rows, ownerFilter, lastId))| ::
      Sort(Matching(rows, ownerFilter, lastId))[i] in rows
    requires items == ToEntities(rows, Sort(Matching(rows, ownerFilter, lastId)))
    ensures var cut := if limit < |items| then items[..limit] else items;
      PageOf(rows, lastId, limit, ownerFilter) ==
        Page(cut, if |items| > limit && cut != [] then cut[|cut| - 1].id else None)
  {
    SortKeepsSize(rows, lastId, ownerFilter);
    PageIdsMatch(rows, lastId, limit, ownerFilter);
    var ids := PageIds(rows, lastId, limit, ownerFilter);
    hide Sort, Matching;
    var cut := if limit < |items| then items[..limit] else items;
    assert cut == ToEntities(rows, ids);
  }

  /** The reference: all ids sorted, then filtered in a loop, then cut. */
  class FakeTodoRepository {
    var todos: Rows

    constructor (todos: Rows)
      ensures this.todos == todos
    {
      this.todos := todos;
    }

    method ListPage(lastId: Option<Id>, limit: nat, ownerId: Option<Id>) returns (page: Page)
      ensures page == PageOf(todos, lastId, limit, ownerId)
    {
      var todoIds := After(Sort(todos.Keys), lastId);
      FilterOfAll(todos, lastId, ownerId);
      var items := Owned(todoIds, ownerId);
      CutIsPage(todos, lastId, limit, ownerId, items);
      hide *;
      var hasMore := |items| > limit;
      var pageItems := if limit < |items| then items[..limit] else items;
      var nextLastId := if hasMore && pageItems != [] then pageItems[|pageItems| - 1].id else None;
      page := Page(pageItems, nextLastId);
    }

    /** The loop that keeps the todos of one owner. */
    method Owned(todoIds: seq<Id>, ownerId: Option<Id>) returns (items: seq<Todo>)
      requires forall i | 0 <= i < |todoIds| :: todoIds[i] in todos
      ensures items == ToEntities(todos, InScopeOnly(todos, todoIds, ownerId))
    {
      items := [];
      hide ToEntities, InScopeOnly;
      NoTodos(todos, ownerId);
      for i := 0 to |todoIds|
        invariant items == ToEntities(todos, InScopeOnly(todos, todoIds[..i], ownerId))
      {
        var todo := todos[todoIds[i]];
        OneTodoMore(todos, todoIds, i, ownerId);
        if ownerId.Some? && todo.ownerId != ownerId.value {
          continue;
        }
        items := items + [ToEntity(todoIds[i], todo)];
      }
      assert todoIds[..|todoIds|] == todoIds;
    }
  }
}
