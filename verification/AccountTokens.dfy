/** How long an access token is good for. */
module AccountTokens {
  import opened Wrappers
  import opened SortedIds
  import opened Accounts
  import opened AccountOperations
  import opened AccountMachine
  import opened AccountSafety

  /** From one table to a later one, a user who stays keeps his version or gets a higher one, and
      with a new hash always a higher one. */
  ghost predicate Forward(before: Users, after: Users, id: Id) {
    id in before && id in after ==>
      && before[id].tokenVersion <= after[id].tokenVersion
      && (before[id].hashedPassword != after[id].hashedPassword ==> before[id].tokenVersion < after[id].tokenVersion)
  }

  /** In one step, the version of a user who stays is kept exactly when his hash is. */
  ghost predicate InStep(before: Users, after: Users, id: Id) {
    id in before && id in after ==>
      (before[id].hashedPassword == after[id].hashedPassword <==> before[id].tokenVersion == after[id].tokenVersion)
  }

  lemma UpdateGoesForward(s: Store, userId: Id, change: Change, verify: Verify, newHash: string, id: Id)
    ensures Forward(s.users, UpdateOf(s, userId, change, verify, newHash).0.users, id)
    ensures InStep(s.users, UpdateOf(s, userId, change, verify, newHash).0.users, id)
  {
    hide Merge, Unique;
    if userId in s.users {
      MergeKeepsId(change, ToEntity(userId, s.users[userId]), verify, newHash);
    }
  }

  lemma AuthorizedGoesForward(s: Store, token: Option<Token>, operation: Operation, fault: Fault, verify: Verify,
                              id: Id)
    ensures Forward(s.users, AuthorizedStep(s, token, operation, fault, verify).0.users, id)
    ensures InStep(s.users, AuthorizedStep(s, token, operation, fault, verify).0.users, id)
  {
    var (recognised, r) := Recognised(s, token);
    if r.Ok? {
      match operation {
        case UpdateMe(change, newHash) =>
          UpdateGoesForward(recognised, r.value.userId, BySelf(change), verify, newHash, id);
        case UpdateAny(target, change, newHash) =>
          UpdateGoesForward(recognised, target, ByAdmin(change), verify, newHash, id);
        case _ =>
      }
    }
    hide UpdateOf, IsLastAdmin, Unique;
  }

  /** Versions never go down, and every change of a hash raises its version. */
  lemma StepGoesForward(s: State, e: Event, verify: Verify, id: Id)
    requires Inv(s)
    ensures Forward(s.store.users, Next(s, e, verify).store.users, id)
    ensures InStep(s.store.users, Next(s, e, verify).store.users, id)
  {
    if e.Handle? && e.request.Authorized? {
      AuthorizedGoesForward(s.store, e.request.token, e.request.operation, e.fault, verify, id);
    }
    hide AuthorizedStep, Unique, ToRow, LoginAnswer;
  }

  /** An id once used and gone stays gone. */
  lemma GoneStaysGone(s: State, e: Event, verify: Verify, id: Id)
    requires Inv(s) && Fresh(s, e) && id in s.usedIds && id !in s.store.users
    ensures id in Next(s, e, verify).usedIds && id !in Next(s, e, verify).store.users
  {
    if e.Handle? && e.request.Authorized? {
      AuthorizedAddsNobody(s.store, e.request.token, e.request.operation, e.fault, verify);
    }
    hide AuthorizedStep, Unique, ToRow, LoginAnswer;
  }

  lemma {:induction false} GoneForGood(s: State, events: seq<Event>, verify: Verify, id: Id)
    requires Inv(s) && FreshRun(s, events, verify) && id in s.usedIds && id !in s.store.users
    ensures id !in Run(s, events, verify).store.users
    decreases events
  {
    if events != [] {
      StepKeepsInv(s, events[0], verify);
      GoneStaysGone(s, events[0], verify, id);
      hide Next, Inv, Fresh;
      GoneForGood(Next(s, events[0], verify), events[1..], verify, id);
    }
  }

  /** A user who is still there at the end of a run was there all along, and his hash and his
      version moved forward. */
  lemma {:induction false} RunGoesForward(s: State, events: seq<Event>, verify: Verify, id: Id)
    requires Inv(s) && FreshRun(s, events, verify) && id in s.store.users
    ensures Forward(s.store.users, Run(s, events, verify).store.users, id)
    decreases events
  {
    if events != [] {
      var s' := Next(s, events[0], verify);
      StepKeepsInv(s, events[0], verify);
      StepGoesForward(s, events[0], verify, id);
      if id in s'.store.users {
        hide Next, Inv, Fresh;
        RunGoesForward(s', events[1..], verify, id);
      } else {
        assert id in s.usedIds;
        hide FreshRun, Run;
        UsedStaysUsed(s, events[0], verify, id);
        GoneAfterFirst(s, events, verify, id);
      }
    }
  }

  lemma UsedStaysUsed(s: State, e: Event, verify: Verify, id: Id)
    requires id in s.usedIds
    ensures id in Next(s, e, verify).usedIds
  {
    hide AuthorizedStep, InsertedUser, LoginAnswer;
  }

  lemma GoneAfterFirst(s: State, events: seq<Event>, verify: Verify, id: Id)
    requires Inv(s) && events != [] && FreshRun(s, events, verify)
    requires var s' := Next(s, events[0], verify); id in s'.usedIds && id !in s'.store.users
    ensures id !in Run(s, events, verify).store.users
  {
    StepKeepsInv(s, events[0], verify);
    hide Next, Inv, Fresh;
    GoneForGood(Next(s, events[0], verify), events[1..], verify, id);
  }

  /** A token that a login issued, and that a later state still accepts, is of a user whose
      password hash was the same in every state in between, and whose version was too. */
  lemma TokenRevocation(s: State, username: string, password: string, token: Token, events: seq<Event>, k: nat,
                        verify: Verify)
    requires Inv(s) && FreshRun(s, events, verify) && k <= |events|
    requires Handled(s, Login(username, password), NoFault, verify).1 == Issued(token)
    requires Accepts(Run(s, events, verify).store.users, token)
    ensures var id, between := token.userId, Run(s, events[..k], verify).store.users;
      && id in s.store.users && verify(password, s.store.users[id].hashedPassword)
      && id in between
      && between[id].hashedPassword == s.store.users[id].hashedPassword
      && between[id].tokenVersion == token.tokenVersion
  {
    var id := token.userId;
    assert events[..k] + events[k..] == events;
    RunOfConcat(s, events[..k], events[k..], verify);
    RunKeepsInv(s, events[..k], verify);
    var between := Run(s, events[..k], verify);
    RunGoesForward(s, events[..k], verify, id);
    hide Run, FreshRun, Inv;
    if id in between.store.users {
      RunGoesForward(between, events[k..], verify, id);
    } else {
      UsedThroughRun(s, events[..k], verify, id);
      GoneForGood(between, events[k..], verify, id);
    }
  }

  lemma {:induction false} UsedThroughRun(s: State, events: seq<Event>, verify: Verify, id: Id)
    requires Inv(s) && id in s.store.users
    ensures id in Run(s, events, verify).usedIds
  {
    hide Next;
    UsedForGood(s, events, verify, id);
  }

  lemma {:induction false} UsedForGood(s: State, events: seq<Event>, verify: Verify, id: Id)
    requires id in s.usedIds
    ensures id in Run(s, events, verify).usedIds
    decreases events
  {
    hide Next;
    if events != [] {
      UsedStaysUsed(s, events[0], verify, id);
      UsedForGood(Next(s, events[0], verify), events[1..], verify, id);
    }
  }

  ghost predicate HashKept(s: State, events: seq<Event>, verify: Verify, id: Id) {
    && id in s.store.users
    && var after := Run(s, events, verify).store.users;
      id in after && after[id].hashedPassword == s.store.users[id].hashedPassword
  }

  lemma {:induction false} KeptHashKeepsVersion(s: State, events: seq<Event>, verify: Verify, id: Id)
    requires Inv(s) && forall k | 0 <= k <= |events| :: HashKept(s, events[..k], verify, id)
    ensures id in s.store.users && id in Run(s, events, verify).store.users
    ensures Run(s, events, verify).store.users[id].tokenVersion == s.store.users[id].tokenVersion
    decreases events
  {
    assert events[..|events|] == events;
    assert HashKept(s, events[..|events|], verify, id);
    if events != [] {
      var e, rest := events[0], events[1..];
      var s' := Next(s, e, verify);
      StepKeepsInv(s, e, verify);
      StepGoesForward(s, e, verify, id);
      assert events[..1] == [e];
      assert HashKept(s, events[..1], verify, id) && Run(s, [e], verify) == s';
      forall k | 0 <= k <= |rest| ensures HashKept(s', rest[..k], verify, id) {
        assert HashKept(s, events[..k + 1], verify, id);
        assert events[..k + 1][1..] == rest[..k];
      }
      hide Inv, Next;
      KeptHashKeepsVersion(s', rest, verify, id);
    }
  }

  /** A token is good exactly as long as its user is there and active and never changed his
      password since. */
  lemma TokenIsGoodWhileHashIsKept(s: State, username: string, password: string, token: Token, events: seq<Event>,
                                   verify: Verify)
    requires Inv(s) && FreshRun(s, events, verify)
    requires Handled(s, Login(username, password), NoFault, verify).1 == Issued(token)
    ensures Accepts(Run(s, events, verify).store.users, token) <==>
      && (forall k | 0 <= k <= |events| :: HashKept(s, events[..k], verify, token.userId))
      && token.userId in Run(s, events, verify).store.users
      && Run(s, events, verify).store.users[token.userId].isActive
  {
    assert events[..|events|] == events;
    if Accepts(Run(s, events, verify).store.users, token) {
      forall k | 0 <= k <= |events| ensures HashKept(s, events[..k], verify, token.userId) {
        TokenRevocation(s, username, password, token, events, k, verify);
      }
    } else if forall k | 0 <= k <= |events| :: HashKept(s, events[..k], verify, token.userId) {
      KeptHashKeepsVersion(s, events, verify, token.userId);
      assert HashKept(s, events[..|events|], verify, token.userId);
    }
  }
}
