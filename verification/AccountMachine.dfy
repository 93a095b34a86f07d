/** Whole requests on accounts, one after the other, with failures and expiring cache entries. */
module AccountMachine {
  import opened Wrappers
  import opened SortedIds
  import opened Accounts
  import opened AccountOperations
  import TodoOperations

  datatype Operation =
    | ReadMe
    | UpdateMe(change: SelfChange, newHash: string)
    | UpdateAny(target: Id, adminChange: AdminChange, newHash: string)
    | Remove(target: Id, hard: bool)
    | AddTodo(todo: Id, requestedOwnerId: Option<Id>)

  datatype Request =
    | Signup(body: SignupBody, newHash: string, newId: Id)
    | Login(username: string, password: string)
    | Authorized(token: Option<Token>, operation: Operation)

  /** Where a request breaks off, if it does: before the caller is recognised, right after, or
      before the commit. */
  datatype Fault = NoFault | AtStart | AfterRecognition | BeforeCommit

  datatype Event = Handle(request: Request, fault: Fault) | Expire(userId: Id)

  datatype Answer = Issued(token: Token) | Profile(user: User) | Done | Failed(error: AccountError)

  /** The tables and the cache, and every id a user ever had. */
  datatype State = State(store: Store, usedIds: set<Id>)

  function ProfileOr(r: Result<User, AccountError>): Answer {
    match r
    case Ok(user) => Profile(user)
    case Err(error) => Failed(error)
  }

  function DoneOr(r: Result<(), AccountError>): Answer {
    match r
    case Ok(_) => Done
    case Err(error) => Failed(error)
  }

  /** A request of someone recognised. */
  function Performed(s: Store, actor: AuthenticatedUser, operation: Operation, verify: Verify): (Store, Answer) {
    match operation
    case ReadMe =>
      (s, if actor.userId in s.users then Profile(ToEntity(actor.userId, s.users[actor.userId]))
          else Failed(UserNotFound))
    case UpdateMe(change, newHash) =>
      var (s', r) := UpdateOf(s, actor.userId, BySelf(change), verify, newHash);
      (s', ProfileOr(r))
    case UpdateAny(target, change, newHash) =>
      if actor.role != "admin" then (s, Failed(AdminRequired))
      else
        var (s', r) := UpdateOf(s, target, ByAdmin(change), verify, newHash);
        (s', ProfileOr(r))
    case Remove(target, hard) =>
      if actor.role != "admin" then (s, Failed(AdminRequired))
      else
        var (s', r) := if hard then HardDeletionOf(s, target) else DeactivationOf(s, target);
        (s', DoneOr(r))
    case AddTodo(todo, requestedOwnerId) =>
      var owner := TodoOperations.ResolveCreateOwnerId(
        TodoOperations.Actor(actor.userId, actor.role), requestedOwnerId);
      if todo in s.todoOwners || owner !in s.users then (s, Failed(Database(ConstraintViolation)))
      else (s.(todoOwners := s.todoOwners[todo := owner]), Done)
  }

  /** A request that breaks off leaves the tables as they were, and the cache as far as it got. */
  function AuthorizedStep(s: Store, token: Option<Token>, operation: Operation, fault: Fault, verify: Verify)
    : (Store, Answer)
  {
    if fault == AtStart then (s, Failed(Crashed))
    else
      var (recognised, r) := Recognised(s, token);
      match r
      case Err(error) => (recognised, Failed(error))
      case Ok(actor) =>
        if fault == AfterRecognition then (recognised, Failed(Crashed))
        else
          var (after, answer) := Performed(recognised, actor, operation, verify);
          if answer.Failed? then (s.(cache := after.cache), answer)
          else if fault == BeforeCommit then (s.(cache := after.cache), Failed(Crashed))
          else (after, answer)
  }

  ghost function LoginAnswer(s: Store, username: string, password: string, verify: Verify): Answer {
    if id :| MayLogin(s.users, id, verify, username, password) then
      var row := s.users[id];
      Issued(Token(id, row.username, row.role, row.tokenVersion))
    else Failed(InvalidCredentials)
  }

  ghost function Handled(s: State, request: Request, fault: Fault, verify: Verify): (State, Answer) {
    match request
    case Signup(body, newHash, newId) =>
      (match InsertedUser(s.store.users, SignupToEntity(body, newHash), newId)
       case Err(error) => (s, Failed(Database(error)))
       case Ok((users, user)) =>
         if fault != NoFault then (s, Failed(Crashed))
         else (State(s.store.(users := users), s.usedIds + {newId}), Profile(user)))
    case Login(username, password) =>
      (s, if fault != NoFault then Failed(Crashed) else LoginAnswer(s.store, username, password, verify))
    case Authorized(token, operation) =>
      var (store, answer) := AuthorizedStep(s.store, token, operation, fault, verify);
      (s.(store := store), answer)
  }

  ghost function Next(s: State, e: Event, verify: Verify): State {
    match e
    case Handle(request, fault) => Handled(s, request, fault, verify).0
    case Expire(userId) => s.(store := s.store.(cache := s.store.cache - {userId}))
  }

  ghost function Run(s: State, events: seq<Event>, verify: Verify): State
    decreases events
  {
    if events == [] then s else Run(Next(s, events[0], verify), events[1..], verify)
  }

  /** A signup gets an id that no user ever had. */
  predicate Fresh(s: State, e: Event) {
    e.Handle? && e.request.Signup? ==> e.request.newId !in s.usedIds
  }

  ghost predicate FreshRun(s: State, events: seq<Event>, verify: Verify)
    decreases events
  {
    events != [] ==> Fresh(s, events[0]) && FreshRun(Next(s, events[0], verify), events[1..], verify)
  }

  lemma {:induction false} RunOfConcat(s: State, a: seq<Event>, b: seq<Event>, verify: Verify)
    ensures Run(s, a + b, verify) == Run(Run(s, a, verify), b, verify)
    ensures FreshRun(s, a + b, verify) <==> FreshRun(s, a, verify) && FreshRun(Run(s, a, verify), b, verify)
    decreases a
  {
    hide Next, Fresh;
    if a == [] {
      assert a + b == b;
    } else {
      assert (a + b)[1..] == a[1..] + b;
      RunOfConcat(Next(s, a[0], verify), a[1..], b, verify);
    }
  }
}
