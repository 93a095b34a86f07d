/** What each request on todos is answered, and leaves in the table, in terms of rows and columns. */
module TodoAnswers {
  import opened Wrappers
  import opened SortedIds
  import opened TodoTable
  import opened TodoOperations
  import opened TodoIsolation
  import TodoPaging

  /** Whether an actor has to do with a row at all. */
  predicate MayTouch(actor: Actor, row: Row) {
    actor.role == "admin" || row.ownerId == actor.id
  }

  /** A todo as it stands in the table. */
  predicate Shows(rows: Rows, todo: Todo) {
    && todo.id.Some? && todo.id.value in rows
    && var row := rows[todo.id.value];
      && todo.title == row.title && todo.description == row.description && todo.priority == row.priority
      && todo.completed == Some(row.completed) && todo.ownerId == Some(row.ownerId)
  }

  ghost predicate SameBut(rows: Rows, rows': Rows, todoId: Id) {
    forall id | id != todoId :: (id in rows <==> id in rows') && (id in rows ==> rows'[id] == rows[id])
  }

  /** A ticket that has not been used. */
  predicate Unused(s: State, ticket: Ticket) {
    ticket !in s.pending && ticket !in s.answers
  }

  // The write

  /** An update that is finished and answered with a todo has written that one, which is the one
      prepared, over a row of the same id; one answered with an error has written nothing. */
  lemma UpdateIsFinished(s: State, ticket: Ticket)
    requires ticket in s.pending && s.pending[ticket].Updating? && s.pending[ticket].merged.id.Some?
    requires s.pending[ticket].merged.ownerId.Some?
    ensures var s', merged := Step(s, Finish(ticket)), s.pending[ticket].merged;
      var id := merged.id.value;
      && s'.users == s.users && s'.pending == s.pending - {ticket} && ticket in s'.answers
      && (s'.answers[ticket].Ok? <==>
            && id in s.rows && MayTouch(ticket.actor, s.rows[id])
            && merged.completed.Some? && merged.ownerId.value in s.users)
      && (s'.answers[ticket].Err? ==> s'.rows == s.rows)
      && (s'.answers[ticket].Ok? ==>
            && s'.answers[ticket].value == Stored(merged) && Shows(s'.rows, merged) && SameBut(s.rows, s'.rows, id))
  {
  }

  /** A delete that is finished and answered as done has removed its row, and only that; one
      answered with an error has removed nothing. */
  lemma DeleteIsFinished(s: State, ticket: Ticket)
    requires ticket in s.pending && s.pending[ticket].Deleting?
    ensures var s', id := Step(s, Finish(ticket)), s.pending[ticket].todoId;
      && s'.users == s.users && s'.pending == s.pending - {ticket} && ticket in s'.answers
      && (s'.answers[ticket] == Ok(Gone) <==> id in s.rows && MayTouch(ticket.actor, s.rows[id]))
      && (s'.answers[ticket] != Ok(Gone) ==>
            s'.answers[ticket] == Err(TodoNotFound(ticket.actor.role)) && s'.rows == s.rows)
      && (s'.answers[ticket] == Ok(Gone) ==> id !in s'.rows && SameBut(s.rows, s'.rows, id))
  {
  }

  // Whole requests, with nothing in between

  /** Each column after a change: what the change says, and where it says nothing what was there. */
  predicate Written(change: Change, row: Row, row': Row) {
    match change
    case Replace(title, description, priority, completed, ownerId) =>
      row' == Row(title, description, priority, completed, if ownerId.Some? then ownerId.value else row.ownerId)
    case Patch(title, description, priority, completed, ownerId) =>
      && row'.title == (if title.Some? then title.value else row.title)
      && row'.description == (if description.Some? then description.value else row.description)
      && row'.priority == (if priority.Some? then priority.value else row.priority)
      && (if completed.Some? then completed.value == Some(row'.completed) else row'.completed == row.completed)
      && (if ownerId.Some? && ownerId.value.Some? then row'.ownerId == ownerId.value.value
          else row'.ownerId == row.ownerId)
  }

  /** Read and written with nothing in between, an update is what the use case makes of it. */
  lemma UpdateInTwoSteps(s: State, ticket: Ticket, todoId: Id, change: Change, newId: Id)
    requires Unused(s, ticket)
    ensures var (rows, r) := UpdateAtOnce(s.users, s.rows, todoId, change, ticket.actor);
      Step(Step(s, Begin(ticket, Update(todoId, change), newId)), Finish(ticket)) ==
        s.(rows := rows, answers := s.answers[ticket := TodoReply(r)])
  {
    hide PrepareUpdate, WriteUpdate;
    assert s.pending - {ticket} == s.pending;
    match PrepareUpdate(s.rows, todoId, change, ticket.actor) {
      case Err(_) =>
      case Ok(merged) => assert s.pending[ticket := Updating(merged)] - {ticket} == s.pending;
    }
  }

  lemma ErrorOfUpdate(users: set<Id>, rows: Rows, todoId: Id, change: Change, actor: Actor)
    ensures var (r, requested) := (UpdateAtOnce(users, rows, todoId, change, actor).1, RequestedOwnerId(change));
      && (r == Err(TodoNotFound(actor.role)) <==> todoId !in rows || !MayTouch(actor, rows[todoId]))
      && (r == Err(OwnerChangeForbidden) <==>
            && todoId in rows && rows[todoId].ownerId == actor.id && actor.role != "admin"
            && requested.Some? && requested.value != actor.id)
      && (r.Ok? ==> r.value.id == Some(todoId))
  {
  }

  /** Which answer an update gets: not found outside the actor's scope, forbidden to give the todo
      away, refused by the table, or the todo as it is afterwards. */
  lemma UpdateIsAnswered(s: State, ticket: Ticket, todoId: Id, change: Change, newId: Id)
    requires Unused(s, ticket) && Inv(s)
    ensures var s' := Step(Step(s, Begin(ticket, Update(todoId, change), newId)), Finish(ticket));
      var requested := RequestedOwnerId(change);
      && s'.pending == s.pending && ticket in s'.answers
      && var answer := s'.answers[ticket];
        && (answer == Err(TodoNotFound(ticket.actor.role)) <==>
              todoId !in s.rows || !MayTouch(ticket.actor, s.rows[todoId]))
        && (answer == Err(OwnerChangeForbidden) <==>
              && todoId in s.rows && s.rows[todoId].ownerId == ticket.actor.id && ticket.actor.role != "admin"
              && requested.Some? && requested.value != ticket.actor.id)
        && (answer.Ok? <==>
              && todoId in s.rows && MayTouch(ticket.actor, s.rows[todoId])
              && (ticket.actor.role == "admin" || requested in {None, Some(ticket.actor.id)})
              && (requested.Some? ==> requested.value in s.users)
              && (change.Patch? ==> change.newCompleted != Some(None)))
        && (answer.Err? ==> s'.rows == s.rows)
        && (answer.Ok? ==>
              && answer.value.Stored? && answer.value.todo.id == Some(todoId) && Shows(s'.rows, answer.value.todo)
              && SameBut(s.rows, s'.rows, todoId)
              && Written(change, s.rows[todoId], s'.rows[todoId]))
  {
    UpdateInTwoSteps(s, ticket, todoId, change, newId);
    ErrorOfUpdate(s.users, s.rows, todoId, change, ticket.actor);
    UndisturbedUpdate(s.users, s.rows, todoId, change, ticket.actor);
    hide UpdateAtOnce, Step;
  }

  lemma DeleteIsAnswered(s: State, ticket: Ticket, todoId: Id, newId: Id)
    requires Unused(s, ticket)
    ensures var s' := Step(Step(s, Begin(ticket, Delete(todoId), newId)), Finish(ticket));
      && s'.pending == s.pending && ticket in s'.answers
      && (if todoId in s.rows && MayTouch(ticket.actor, s.rows[todoId])
          then s'.answers[ticket] == Ok(Gone) && todoId !in s'.rows && SameBut(s.rows, s'.rows, todoId)
          else s'.answers[ticket] == Err(TodoNotFound(ticket.actor.role)) && s'.rows == s.rows)
  {
  }

  /** The answer to a create is the new todo: under its own id or the one drawn, open unless said
      to be completed, and owned by the actor unless an admin asks for another user. */
  lemma CreateIsAnswered(s: State, ticket: Ticket, todo: Todo, requestedOwnerId: Option<Id>, newId: Id)
    requires Unused(s, ticket)
    ensures var s' := Step(s, Begin(ticket, Create(todo, requestedOwnerId), newId));
      var id := if todo.id.Some? then todo.id.value else newId;
      var owner := if ticket.actor.role == "admin" && requestedOwnerId.Some? then requestedOwnerId.value
                   else ticket.actor.id;
      && s'.users == s.users && s'.pending == s.pending && ticket in s'.answers
      && (s'.answers[ticket].Ok? <==> id !in s.rows && owner in s.users)
      && (s'.answers[ticket].Err? ==> s'.rows == s.rows && s'.answers[ticket] == Err(Database(ConstraintViolation)))
      && (s'.answers[ticket].Ok? ==>
            && id in s'.rows && SameBut(s.rows, s'.rows, id)
            && s'.rows[id] == Row(todo.title, todo.description, todo.priority, todo.completed == Some(true), owner)
            && s'.answers[ticket].value.Stored? && s'.answers[ticket].value.todo.id == Some(id)
            && Shows(s'.rows, s'.answers[ticket].value.todo))
  {
  }

  lemma ReadIsAnswered(s: State, ticket: Ticket, todoId: Id, newId: Id)
    requires Unused(s, ticket)
    ensures var s' := Step(s, Begin(ticket, Read(todoId), newId));
      && s'.users == s.users && s'.rows == s.rows && s'.pending == s.pending && ticket in s'.answers
      && (if todoId in s.rows && MayTouch(ticket.actor, s.rows[todoId])
          then
            && s'.answers[ticket].Ok? && s'.answers[ticket].value.Stored?
            && s'.answers[ticket].value.todo.id == Some(todoId) && Shows(s.rows, s'.answers[ticket].value.todo)
          else s'.answers[ticket] == Err(TodoNotFound(ticket.actor.role)))
  {
  }

  /** Whether a listing of this actor from this cursor is about a row. */
  predicate Listable(rows: Rows, actor: Actor, lastId: Option<Id>, id: Id) {
    id in rows && MayTouch(actor, rows[id]) && (lastId.Some? ==> lastId.value < id)
  }

  ghost predicate IsListed(items: seq<Todo>, id: Id) {
    exists i :: 0 <= i < |items| && items[i].id == Some(id)
  }

  ghost predicate InOrder(items: seq<Todo>) {
    && (forall i | 0 <= i < |items| :: items[i].id.Some?)
    && (forall i, j | 0 <= i < j < |items| :: items[i].id.value < items[j].id.value)
  }

  lemma ListableIsMatching(rows: Rows, actor: Actor, lastId: Option<Id>, id: Id)
    ensures Listable(rows, actor, lastId, id) <==> id in Matching(rows, ListOwnerFilter(actor), lastId)
  {
  }

  lemma EntitiesOfIds(rows: Rows, ids: seq<Id>)
    requires Ascending(ids) && forall i | 0 <= i < |ids| :: ids[i] in rows
    ensures var items := ToEntities(rows, ids);
      && |items| == |ids| && InOrder(items)
      && (forall i | 0 <= i < |items| :: items[i].id == Some(ids[i]) && Shows(rows, items[i]))
      && (forall id :: IsListed(items, id) <==> id in ids)
  {
    var items := ToEntities(rows, ids);
    hide ToEntities;
    assert forall i | 0 <= i < |items| :: items[i] == ToEntity(ids[i], rows[ids[i]]);
    forall id ensures IsListed(items, id) <==> id in ids {
      if id in ids {
        var i :| 0 <= i < |ids| && ids[i] == id;
        assert items[i].id == Some(id);
      }
    }
  }

  lemma IdsAreListable(rows: Rows, actor: Actor, lastId: Option<Id>, limit: nat)
    requires limit > 0
    ensures var ids, next := PageIds(rows, lastId, limit, ListOwnerFilter(actor)),
                             NextLastId(rows, lastId, limit, ListOwnerFilter(actor));
      && Ascending(ids) && |ids| <= limit
      && (forall i | 0 <= i < |ids| :: ids[i] in rows && Listable(rows, actor, lastId, ids[i]))
      && (forall id: Id | Listable(rows, actor, lastId, id) :: id in ids || (next.Some? && next.value < id))
      && (next.Some? ==> |ids| == limit && next.value == ids[limit - 1])
  {
    TodoPaging.PageCovers(rows, lastId, limit, ListOwnerFilter(actor));
    forall id ensures Listable(rows, actor, lastId, id) <==> id in Matching(rows, ListOwnerFilter(actor), lastId) {
      ListableIsMatching(rows, actor, lastId, id);
    }
    hide Matching, PageIds, NextLastId, Sort, ListOwnerFilter;
    var ids := PageIds(rows, lastId, limit, ListOwnerFilter(actor));
    forall i | 0 <= i < |ids| ensures Listable(rows, actor, lastId, ids[i]) {
      assert ids[i] in ids;
    }
  }

  /** With a cursor, something is left above it. */
  lemma CursorLeavesSome(rows: Rows, actor: Actor, lastId: Option<Id>, limit: nat)
    returns (id: Id)
    requires limit > 0 && NextLastId(rows, lastId, limit, ListOwnerFilter(actor)).Some?
    ensures Listable(rows, actor, lastId, id)
    ensures id !in PageIds(rows, lastId, limit, ListOwnerFilter(actor))
  {
    var filter := ListOwnerFilter(actor);
    TodoPaging.PageCovers(rows, lastId, limit, filter);
    TodoPaging.RestAfterPage(rows, lastId, limit, filter);
    var ids, next := PageIds(rows, lastId, limit, filter), NextLastId(rows, lastId, limit, filter);
    assert Matching(rows, filter, next) != {};
    id :| id in Matching(rows, filter, next);
    assert next.value < id;
    assert id in Matching(rows, filter, lastId) by {
      assert next.value in ids;
    }
    ListableIsMatching(rows, actor, lastId, id);
    assert forall i | 0 <= i < |ids| :: ids[i] <= next.value;
  }

  lemma CursorIffSomeAreLeft(rows: Rows, actor: Actor, lastId: Option<Id>, limit: nat)
    requires limit > 0
    ensures var ids, next := PageIds(rows, lastId, limit, ListOwnerFilter(actor)),
                             NextLastId(rows, lastId, limit, ListOwnerFilter(actor));
      next.Some? <==> exists id: Id :: Listable(rows, actor, lastId, id) && id !in ids
  {
    IdsAreListable(rows, actor, lastId, limit);
    hide PageIds, NextLastId, Listable, ListOwnerFilter;
    if NextLastId(rows, lastId, limit, ListOwnerFilter(actor)).Some? {
      var id := CursorLeavesSome(rows, actor, lastId, limit);
    }
  }

  /** Todos of the actor's scope above the cursor, in ascending order and as they stand, at most as
      many as asked for; a cursor at the last one exactly if not all are listed, and then those left
      out are above it. */
  ghost predicate IsPageFor(rows: Rows, actor: Actor, lastId: Option<Id>, limit: nat, page: Page) {
    var items, next := page.items, page.nextLastId;
    && |items| <= limit && InOrder(items)
    && (forall i | 0 <= i < |items| :: Shows(rows, items[i]) && Listable(rows, actor, lastId, items[i].id.value))
    && (forall id: Id | Listable(rows, actor, lastId, id) :: IsListed(items, id) || (next.Some? && next.value < id))
    && (next.Some? <==> exists id: Id :: Listable(rows, actor, lastId, id) && !IsListed(items, id))
    && (next.Some? ==> 0 < |items| == limit && next == items[limit - 1].id)
  }

  lemma PageIsForActor(rows: Rows, actor: Actor, lastId: Option<Id>, limit: nat)
    requires limit > 0
    ensures IsPageFor(rows, actor, lastId, limit, PageOf(rows, lastId, limit, ListOwnerFilter(actor)))
  {
    var filter := ListOwnerFilter(actor);
    PageIdsMatch(rows, lastId, limit, filter);
    IdsAreListable(rows, actor, lastId, limit);
    EntitiesOfIds(rows, PageIds(rows, lastId, limit, filter));
    CursorIffSomeAreLeft(rows, actor, lastId, limit);
    hide Listable, Shows, IsListed, PageIds, NextLastId, ToEntities, Ascending, ListOwnerFilter;
  }

  /** The answer to a listing is such a page. */
  lemma ListIsAnswered(s: State, ticket: Ticket, lastId: Option<Id>, limit: nat, newId: Id)
    requires Unused(s, ticket) && limit > 0
    ensures var s' := Step(s, Begin(ticket, List(lastId, limit), newId));
      && s'.users == s.users && s'.rows == s.rows && s'.pending == s.pending && ticket in s'.answers
      && s'.answers[ticket].Ok? && s'.answers[ticket].value.Listed?
      && IsPageFor(s.rows, ticket.actor, lastId, limit, s'.answers[ticket].value.page)
  {
    PageIsForActor(s.rows, ticket.actor, lastId, limit);
    hide IsPageFor, PageOf, ListOwnerFilter;
  }

  /** A ticket is used once: what is waiting is not begun again, and an answer is final. */
  lemma TicketIsUsedOnce(s: State, e: Event, ticket: Ticket)
    requires !Unused(s, ticket) && !(ticket in s.pending && ticket in s.answers)
    ensures e.Begin? && e.ticket == ticket ==> Step(s, e) == s
    ensures ticket in s.answers ==>
      var s' := Step(s, e);
      ticket in s'.answers && s'.answers[ticket] == s.answers[ticket] && ticket !in s'.pending
  {
    hide CreateTodo, PrepareUpdate, GetTodo, PageOf, WriteUpdate, WriteDelete;
  }

  // Accounts

  /** A new account changes no row; one that goes takes its todos with it, and nothing else. */
  lemma AccountsComeAndGo(s: State, user: Id)
    ensures var s' := Step(s, SignedUp(user)); s'.rows == s.rows && s'.users == s.users + {user}
    ensures var s' := Step(s, HardDeleted(user));
      && s'.users == s.users - {user}
      && (forall id :: id in s'.rows <==> id in s.rows && s.rows[id].ownerId != user)
      && (forall id | id in s'.rows :: s'.rows[id] == s.rows[id])
  {
  }
}
