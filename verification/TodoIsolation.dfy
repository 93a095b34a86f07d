/** Many actors at work on one todo table, their reads and writes interleaved in any order. */
module TodoIsolation {
  import opened Wrappers
  import opened SortedIds
  import opened TodoTable
  import opened TodoOperations

  datatype Call =
    | Create(todo: Todo, requestedOwnerId: Option<Id>)
    | Update(todoId: Id, change: Change)
    | Delete(todoId: Id)
    | Read(todoId: Id)
    | List(lastId: Option<Id>, limit: nat)

  datatype Reply = Stored(todo: Todo) | Listed(page: Page) | Gone

  type Outcome = Result<Reply, TodoError>

  /** What a request that has read still has to write. */
  datatype Pending = Updating(merged: Todo) | Deleting(todoId: Id)

  /** One request of one actor. */
  datatype Ticket = Ticket(actor: Actor, number: nat)

  /** The ids of the users, the todo table, the requests between their read and their write, and
      the answers given. */
  datatype State = State(
    users: set<Id>,
    rows: Rows,
    pending: map<Ticket, Pending>,
    answers: map<Ticket, Outcome>)

  /** A request starts, and reads; or it goes on to its write. Accounts come, and go with all
      their todos. */
  datatype Event =
    | Begin(ticket: Ticket, call: Call, newId: Id)
    | Finish(ticket: Ticket)
    | SignedUp(user: Id)
    | HardDeleted(user: Id)

  function TodoReply(r: Result<Todo, TodoError>): Outcome {
    match r
    case Ok(todo) => Ok(Stored(todo))
    case Err(error) => Err(error)
  }

  function Answered(s: State, ticket: Ticket, rows: Rows, outcome: Outcome): State {
    s.(rows := rows, pending := s.pending - {ticket}, answers := s.answers[ticket := outcome])
  }

  function Begun(s: State, ticket: Ticket, call: Call, newId: Id): State {
    var actor := ticket.actor;
    match call
    case Create(todo, requestedOwnerId) =>
      var (rows, r) := CreateTodo(s.users, s.rows, todo, actor, requestedOwnerId, newId);
      Answered(s, ticket, rows, TodoReply(r))
    case Update(todoId, change) =>
      (match PrepareUpdate(s.rows, todoId, change, actor)
       case Ok(merged) => s.(pending := s.pending[ticket := Updating(merged)])
       case Err(error) => Answered(s, ticket, s.rows, Err(error)))
    case Delete(todoId) =>
      (match GetTodo(s.rows, todoId, actor)
       case Ok(_) => s.(pending := s.pending[ticket := Deleting(todoId)])
       case Err(error) => Answered(s, ticket, s.rows, Err(error)))
    case Read(todoId) =>
      Answered(s, ticket, s.rows, TodoReply(GetTodo(s.rows, todoId, actor)))
    case List(lastId, limit) =>
      Answered(s, ticket, s.rows, Ok(Listed(PageOf(s.rows, lastId, limit, ListOwnerFilter(actor)))))
  }

  function Finished(s: State, ticket: Ticket, pending: Pending): State {
    match pending
    case Updating(merged) =>
      var (rows, r) := WriteUpdate(s.users, s.rows, merged, ticket.actor);
      Answered(s, ticket, rows, TodoReply(r))
    case Deleting(todoId) =>
      var (rows, r) := WriteDelete(s.rows, todoId, ticket.actor);
      Answered(s, ticket, rows, if r.Ok? then Ok(Gone) else Err(r.error))
  }

  function WithoutTodosOf(rows: Rows, user: Id): Rows {
    map id | id in rows && rows[id].ownerId != user :: rows[id]
  }

  /** A ticket is used once; an event that does not apply changes nothing. */
  function Step(s: State, e: Event): State {
    match e
    case Begin(ticket, call, newId) =>
      if ticket in s.pending || ticket in s.answers then s else Begun(s, ticket, call, newId)
    case Finish(ticket) =>
      if ticket in s.pending then Finished(s, ticket, s.pending[ticket]) else s
    case SignedUp(user) => s.(users := s.users + {user})
    case HardDeleted(user) => s.(users := s.users - {user}, rows := WithoutTodosOf(s.rows, user))
  }

  function Run(s: State, events: seq<Event>): State
    decreases events
  {
    if events == [] then s else Run(Step(s, events[0]), events[1..])
  }

  predicate IsRequest(e: Event) {
    e.Begin? || e.Finish?
  }

  predicate AdminActs(e: Event) {
    IsRequest(e) && IsAdmin(e.ticket.actor)
  }

  /** Whose request or account an event is. */
  function UserOf(e: Event): Id {
    if IsRequest(e) then e.ticket.actor.id else e.user
  }

  // What every step keeps

  /** Every owner is a user, and a pending update of someone who is not an admin writes a row of
      his own. */
  ghost predicate Inv(s: State) {
    && OwnersAreUsers(s.users, s.rows)
    && forall t | t in s.pending && !IsAdmin(t.actor) && s.pending[t].Updating? ::
      s.pending[t].merged.ownerId == Some(t.actor.id)
  }

  lemma StepKeepsInv(s: State, e: Event)
    requires Inv(s)
    ensures Inv(Step(s, e))
  {
    hide PageOf, Fetched;
    if e.Begin? && e.call.Update? && !IsAdmin(e.ticket.actor) {
      PreparedIsOwn(s.rows, e.call.todoId, e.call.change, e.ticket.actor);
    }
  }

  lemma PreparedIsOwn(rows: Rows, todoId: Id, change: Change, actor: Actor)
    requires !IsAdmin(actor)
    ensures var merged := PrepareUpdate(rows, todoId, change, actor);
      merged.Ok? ==> merged.value.id == Some(todoId) && merged.value.ownerId == Some(actor.id)
  {
  }

  /** A step of someone who is not an admin leaves every row of others as it is, takes none
      over, and gives none away. */
  lemma StepStaysInScope(s: State, e: Event)
    requires Inv(s) && IsRequest(e) && !IsAdmin(e.ticket.actor)
    ensures var who, rows' := e.ticket.actor.id, Step(s, e).rows;
      && (forall id | id in s.rows && s.rows[id].ownerId != who :: id in rows' && rows'[id] == s.rows[id])
      && (forall id | id in s.rows && id in rows' :: rows'[id].ownerId == s.rows[id].ownerId)
      && (forall id | id in rows' && id !in s.rows :: rows'[id].ownerId == who)
  {
    hide PageOf;
  }

  // What one user can observe

  function Own(rows: Rows, who: Id): Rows {
    map id | id in rows && rows[id].ownerId == who :: rows[id]
  }

  /** The state as far as it concerns one user: whether he is one, his rows, his pending requests,
      his answers. */
  function View(s: State, who: Id): State {
    State(
      s.users * {who},
      Own(s.rows, who),
      map t | t in s.pending && t.actor.id == who :: s.pending[t],
      map t | t in s.answers && t.actor.id == who :: s.answers[t])
  }

  predicate Concerns(e: Event, who: Id) {
    UserOf(e) == who
  }

  /** A create gets an id that is not in the table. */
  predicate Fresh(rows: Rows, e: Event) {
    e.Begin? && e.call.Create? ==>
      e.newId !in rows && (e.call.todo.id.Some? ==> e.call.todo.id.value !in rows)
  }

  lemma OwnPage(rows: Rows, lastId: Option<Id>, limit: nat, who: Id)
    ensures PageOf(rows, lastId, limit, Some(who)) == PageOf(Own(rows, who), lastId, limit, Some(who))
  {
    assert Matching(rows, Some(who), lastId) == Matching(Own(rows, who), Some(who), lastId);
    PageIdsMatch(rows, lastId, limit, Some(who));
    hide Sort, Take;
    var a, b := PageOf(rows, lastId, limit, Some(who)), PageOf(Own(rows, who), lastId, limit, Some(who));
    assert a.items == b.items;
  }

  /** On a row, what a user who is not an admin reads or writes depends on his own rows only,
      and so do the own rows it leaves; this holds for any table at the read and any at the write. */
  lemma OwnRowsDecide(rows: Rows, actor: Actor, todoId: Id, change: Change)
    requires !IsAdmin(actor)
    ensures var own := Own(rows, actor.id);
      && GetTodo(rows, todoId, actor) == GetTodo(own, todoId, actor)
      && PrepareUpdate(rows, todoId, change, actor) == PrepareUpdate(own, todoId, change, actor)
  {
  }

  lemma OwnCreate(users: set<Id>, rows: Rows, actor: Actor, todo: Todo, requestedOwnerId: Option<Id>, newId: Id)
    requires !IsAdmin(actor)
    requires if todo.id.Some? then todo.id.value !in rows else newId !in rows
    ensures var (after, r) := CreateTodo(users, rows, todo, actor, requestedOwnerId, newId);
      CreateTodo(users * {actor.id}, Own(rows, actor.id), todo, actor, requestedOwnerId, newId) ==
        (Own(after, actor.id), r)
  {
    var (after, _) := CreateTodo(users, rows, todo, actor, requestedOwnerId, newId);
    var (own, _) := CreateTodo(users * {actor.id}, Own(rows, actor.id), todo, actor, requestedOwnerId, newId);
    assert Own(after, actor.id) == own;
  }

  lemma OwnWriteUpdate(users: set<Id>, rows: Rows, actor: Actor, merged: Todo)
    requires !IsAdmin(actor) && merged.ownerId == Some(actor.id)
    ensures var (after, r) := WriteUpdate(users, rows, merged, actor);
      WriteUpdate(users * {actor.id}, Own(rows, actor.id), merged, actor) == (Own(after, actor.id), r)
  {
    var (after, _) := WriteUpdate(users, rows, merged, actor);
    assert Own(after, actor.id) == WriteUpdate(users * {actor.id}, Own(rows, actor.id), merged, actor).0;
  }

  lemma OwnWriteDelete(rows: Rows, actor: Actor, todoId: Id)
    requires !IsAdmin(actor)
    ensures var (after, r) := WriteDelete(rows, todoId, actor);
      WriteDelete(Own(rows, actor.id), todoId, actor) == (Own(after, actor.id), r)
  {
    var (after, _) := WriteDelete(rows, todoId, actor);
    assert Own(after, actor.id) == WriteDelete(Own(rows, actor.id), todoId, actor).0;
  }

  lemma ViewOfAnswered(s: State, ticket: Ticket, rows: Rows, outcome: Outcome)
    ensures var who := ticket.actor.id;
      View(Answered(s, ticket, rows, outcome), who) == Answered(View(s, who), ticket, Own(rows, who), outcome)
  {
    hide Own;
    var who := ticket.actor.id;
    var a, b := View(Answered(s, ticket, rows, outcome), who), Answered(View(s, who), ticket, Own(rows, who), outcome);
    assert a.pending == b.pending;
    assert a.answers == b.answers;
  }

  lemma ViewOfWaiting(s: State, ticket: Ticket, pending: Pending)
    ensures var who := ticket.actor.id;
      View(s.(pending := s.pending[ticket := pending]), who) ==
      View(s, who).(pending := View(s, who).pending[ticket := pending])
  {
    hide Own;
  }

  lemma OwnBegin(s: State, ticket: Ticket, call: Call, newId: Id)
    requires !IsAdmin(ticket.actor) && Fresh(s.rows, Begin(ticket, call, newId))
    ensures View(Begun(s, ticket, call, newId), ticket.actor.id) == Begun(View(s, ticket.actor.id), ticket, call, newId)
  {
    var actor, users, rows, who := ticket.actor, s.users, s.rows, ticket.actor.id;
    assert View(s, who).users == users * {who} && View(s, who).rows == Own(rows, who);
    hide View, Answered, Own, CreateTodo, PrepareUpdate, GetTodo, PageOf;
    match call {
      case Create(todo, requestedOwnerId) =>
        OwnCreate(users, rows, actor, todo, requestedOwnerId, newId);
        var (after, r) := CreateTodo(users, rows, todo, actor, requestedOwnerId, newId);
        ViewOfAnswered(s, ticket, after, TodoReply(r));
      case Update(todoId, change) =>
        OwnRowsDecide(rows, actor, todoId, change);
        match PrepareUpdate(rows, todoId, change, actor) {
          case Ok(merged) => ViewOfWaiting(s, ticket, Updating(merged));
          case Err(error) => ViewOfAnswered(s, ticket, rows, Err(error));
        }
      case Delete(todoId) =>
        OwnRowsDecide(rows, actor, todoId, Patch(None, None, None, None, None));
        match GetTodo(rows, todoId, actor) {
          case Ok(_) => ViewOfWaiting(s, ticket, Deleting(todoId));
          case Err(error) => ViewOfAnswered(s, ticket, rows, Err(error));
        }
      case Read(todoId) =>
        OwnRowsDecide(rows, actor, todoId, Patch(None, None, None, None, None));
        ViewOfAnswered(s, ticket, rows, TodoReply(GetTodo(rows, todoId, actor)));
      case List(lastId, limit) =>
        OwnPage(rows, lastId, limit, who);
        ViewOfAnswered(s, ticket, rows, Ok(Listed(PageOf(rows, lastId, limit, Some(who)))));
    }
  }

  lemma OwnFinish(s: State, ticket: Ticket)
    requires Inv(s) && !IsAdmin(ticket.actor) && ticket in s.pending
    ensures var pending := s.pending[ticket];
      View(Finished(s, ticket, pending), ticket.actor.id) == Finished(View(s, ticket.actor.id), ticket, pending)
  {
    var actor, users, rows, who := ticket.actor, s.users, s.rows, ticket.actor.id;
    assert View(s, who).users == users * {who} && View(s, who).rows == Own(rows, who);
    hide View, Answered, Own, WriteUpdate, WriteDelete, OwnersAreUsers;
    match s.pending[ticket] {
      case Updating(merged) =>
        OwnWriteUpdate(users, rows, actor, merged);
        var (after, r) := WriteUpdate(users, rows, merged, actor);
        ViewOfAnswered(s, ticket, after, TodoReply(r));
      case Deleting(todoId) =>
        OwnWriteDelete(rows, actor, todoId);
        var (after, r) := WriteDelete(rows, todoId, actor);
        ViewOfAnswered(s, ticket, after, if r.Ok? then Ok(Gone) else Err(r.error));
    }
  }

  /** A user's own account comes or goes. */
  lemma OwnAccount(s: State, e: Event)
    requires !IsRequest(e)
    ensures View(Step(s, e), e.user) == Step(View(s, e.user), e)
  {
    var who := e.user;
    var after, own := View(Step(s, e), who), Step(View(s, who), e);
    assert after.users == own.users;
    assert after.rows == own.rows;
  }

  /** What a step of a user who is not an admin does for him is what the same step does on his
      view alone. */
  lemma OwnStep(s: State, e: Event)
    requires Inv(s) && !AdminActs(e) && Fresh(s.rows, e)
    ensures View(Step(s, e), UserOf(e)) == Step(View(s, UserOf(e)), e)
  {
    if IsRequest(e) {
      var v := View(s, UserOf(e));
      assert e.ticket in s.pending <==> e.ticket in v.pending;
      assert e.ticket in s.pending ==> v.pending[e.ticket] == s.pending[e.ticket];
      assert e.ticket in s.answers <==> e.ticket in v.answers;
    } else {
      OwnAccount(s, e);
    }
    hide View, Begun, Finished, Inv;
    match e {
      case Begin(ticket, call, newId) => OwnBegin(s, ticket, call, newId);
      case Finish(ticket) => if ticket in s.pending { OwnFinish(s, ticket); }
      case _ =>
    }
  }

  lemma UsersChangeByAccount(s: State, e: Event)
    ensures IsRequest(e) ==> Step(s, e).users == s.users
    ensures !IsRequest(e) ==> forall user | user != e.user :: user in Step(s, e).users <==> user in s.users
    ensures e.SignedUp? ==> Step(s, e).rows == s.rows
    ensures e.HardDeleted? ==> Step(s, e).rows == WithoutTodosOf(s.rows, e.user)
  {
    hide CreateTodo, PrepareUpdate, GetTodo, PageOf, WriteUpdate, WriteDelete;
  }

  lemma StepIsLocal(s: State, e: Event, t: Ticket)
    requires IsRequest(e) ==> t != e.ticket
    ensures t in Step(s, e).pending <==> t in s.pending
    ensures t in s.pending ==> Step(s, e).pending[t] == s.pending[t]
    ensures t in Step(s, e).answers <==> t in s.answers
    ensures t in s.answers ==> Step(s, e).answers[t] == s.answers[t]
  {
    hide CreateTodo, PrepareUpdate, GetTodo, PageOf, WriteUpdate, WriteDelete;
  }

  /** Nobody else's step, not even an admin's, touches a user's pending requests and answers. */
  lemma OthersLeaveRequests(s: State, e: Event, who: Id)
    requires !Concerns(e, who)
    ensures View(Step(s, e), who).pending == View(s, who).pending
    ensures View(Step(s, e), who).answers == View(s, who).answers
  {
    forall t: Ticket | t.actor.id == who
      ensures t in Step(s, e).pending <==> t in s.pending
      ensures t in s.pending ==> Step(s, e).pending[t] == s.pending[t]
      ensures t in Step(s, e).answers <==> t in s.answers
      ensures t in s.answers ==> Step(s, e).answers[t] == s.answers[t]
    {
      StepIsLocal(s, e, t);
    }
    hide Step, Own;
  }

  /** A step of another user who is not an admin changes nothing a user can observe, and neither
      does another account that comes or goes. */
  lemma OthersStep(s: State, e: Event, who: Id)
    requires Inv(s) && !AdminActs(e) && !Concerns(e, who)
    ensures View(Step(s, e), who) == View(s, who)
  {
    OthersLeaveRequests(s, e, who);
    UsersChangeByAccount(s, e);
    if IsRequest(e) {
      StepStaysInScope(s, e);
    }
    hide Step, Inv;
    assert Own(Step(s, e).rows, who) == Own(s.rows, who);
  }

  // Whole runs

  lemma {:induction false} RunKeepsInv(s: State, events: seq<Event>)
    requires Inv(s)
    ensures Inv(Run(s, events))
    decreases events
  {
    if events != [] {
      StepKeepsInv(s, events[0]);
      RunKeepsInv(Step(s, events[0]), events[1..]);
    }
  }

  /** Every create of one user gets an id that is not in the table. */
  predicate FreshRun(s: State, events: seq<Event>, who: Id)
    decreases events
  {
    events != [] ==>
      (Concerns(events[0], who) ==> Fresh(s.rows, events[0])) && FreshRun(Step(s, events[0]), events[1..], who)
  }

  function Purged(events: seq<Event>, who: Id): seq<Event> {
    if events == [] then []
    else (if Concerns(events[0], who) then [events[0]] else []) + Purged(events[1..], who)
  }

  ghost predicate NoAdmins(events: seq<Event>) {
    forall i | 0 <= i < |events| :: !AdminActs(events[i])
  }

  /** Among users who are not admins, everything one of them observes in a run is what he would
      have observed alone: the same answers, the same own rows. */
  lemma {:induction false} OthersAreInvisible(s: State, events: seq<Event>, who: Id)
    requires Inv(s) && NoAdmins(events) && FreshRun(s, events, who)
    ensures View(Run(s, events), who) == Run(View(s, who), Purged(events, who))
    decreases events
  {
    if events == [] {
    } else {
      var e, rest := events[0], events[1..];
      StepKeepsInv(s, e);
      if Concerns(e, who) {
        OwnStep(s, e);
        assert Purged(events, who) == [e] + Purged(rest, who);
        assert Purged(events, who)[1..] == Purged(rest, who);
      } else {
        OthersStep(s, e, who);
        assert Purged(events, who) == Purged(rest, who);
      }
      hide Step, Inv, View, Fresh;
      OthersAreInvisible(Step(s, e), rest, who);
    }
  }

  /** Whoever takes no part keeps his rows as they are. */
  lemma BystanderKeepsRows(s: State, events: seq<Event>, who: Id)
    requires Inv(s) && NoAdmins(events) && forall i | 0 <= i < |events| :: !Concerns(events[i], who)
    ensures Own(Run(s, events).rows, who) == Own(s.rows, who)
  {
    NothingToPurge(s, events, who);
    OthersAreInvisible(s, events, who);
  }

  lemma {:induction false} NothingToPurge(s: State, events: seq<Event>, who: Id)
    requires forall i | 0 <= i < |events| :: !Concerns(events[i], who)
    ensures Purged(events, who) == [] && FreshRun(s, events, who)
    decreases events
  {
    if events != [] {
      NothingToPurge(Step(s, events[0]), events[1..], who);
    }
  }

  // With admins in the run

  /** What one user saw: whether he is one, and his own rows, at each of his steps. */
  function Seen(s: State, events: seq<Event>, who: Id): seq<(set<Id>, Rows, Event)>
    decreases events
  {
    if events == [] then []
    else
      (if Concerns(events[0], who) then [(s.users * {who}, Own(s.rows, who), events[0])] else []) +
      Seen(Step(s, events[0]), events[1..], who)
  }

  /** One user's part of the state after the steps he took, from what he saw at each. */
  function Replayed(v: State, seen: seq<(set<Id>, Rows, Event)>): State
    decreases seen
  {
    if seen == [] then v else Replayed(Step(v.(users := seen[0].0, rows := seen[0].1), seen[0].2), seen[1..])
  }

  /** Whatever admins and others do between his steps, and between the read and the write of his
      updates and deletes, a user's answers are determined by his own rows at his own steps. */
  lemma {:induction false} AnswersComeFromOwnRows(s: State, events: seq<Event>, who: Id, v: State)
    requires Inv(s) && FreshRun(s, events, who)
    requires forall i | 0 <= i < |events| && Concerns(events[i], who) :: !AdminActs(events[i])
    requires v.pending == View(s, who).pending && v.answers == View(s, who).answers
    ensures var r, own := Replayed(v, Seen(s, events, who)), View(Run(s, events), who);
      r.pending == own.pending && r.answers == own.answers
    decreases events
  {
    if events == [] {
    } else {
      var e, rest := events[0], events[1..];
      StepKeepsInv(s, e);
      if Concerns(e, who) {
        OwnStep(s, e);
        assert v.(users := s.users * {who}, rows := Own(s.rows, who)) == View(s, who);
        var seen := Seen(s, events, who);
        assert seen == [(s.users * {who}, Own(s.rows, who), e)] + Seen(Step(s, e), rest, who);
        assert seen[1..] == Seen(Step(s, e), rest, who);
        hide Step, Inv, View, Fresh, Own;
        AnswersComeFromOwnRows(Step(s, e), rest, who, Step(View(s, who), e));
      } else {
        OthersLeaveRequests(s, e, who);
        assert Seen(s, events, who) == Seen(Step(s, e), rest, who);
        hide Step, Inv, View, Fresh, Own;
        AnswersComeFromOwnRows(Step(s, e), rest, who, v);
      }
    }
  }

  /** Two runs in which a user saw the same give him the same answers. */
  lemma SameSightSameAnswers(s1: State, events1: seq<Event>, s2: State, events2: seq<Event>, who: Id)
    requires Inv(s1) && FreshRun(s1, events1, who) && Inv(s2) && FreshRun(s2, events2, who)
    requires forall i | 0 <= i < |events1| && Concerns(events1[i], who) :: !AdminActs(events1[i])
    requires forall i | 0 <= i < |events2| && Concerns(events2[i], who) :: !AdminActs(events2[i])
    requires View(s1, who).pending == View(s2, who).pending && View(s1, who).answers == View(s2, who).answers
    requires Seen(s1, events1, who) == Seen(s2, events2, who)
    ensures View(Run(s1, events1), who).answers == View(Run(s2, events2), who).answers
  {
    AnswersComeFromOwnRows(s1, events1, who, View(s1, who));
    AnswersComeFromOwnRows(s2, events2, who, View(s1, who));
  }
}
