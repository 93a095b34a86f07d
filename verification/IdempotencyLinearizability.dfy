/**
 The interleaved protocol refines a map on which deciding, finishing, dropping and lapsing are
 single atomic steps, and the three store calls of the begin phase act as one of those steps.
 */
module IdempotencyLinearizability {
  import opened Wrappers
  import opened IdempotencyRecords
  import opened IdempotencyProtocol
  import opened IdempotencySafety
  import opened IdempotencyRuns

  /** A record, whose it is, and when it is due: the time to live after its begin or finish. */
  datatype OnceSlot = OnceSlot(record: Record, owner: Rid, due: nat)

  /** The once-only map with its clock: what a caller may rely on. */
  datatype OnceMap = OnceMap(now: nat, slots: map<Key, OnceSlot>)

  datatype OnceOp =
    | Begin(key: Key, fingerprint: string, rid: Rid, decision: Decision)
    | Finish(key: Key, rid: Rid, response: Response)
    | Drop(key: Key, rid: Rid)
    | Lapse(elapsed: nat)
    | Idle

  ghost predicate OnceStep(ttl: nat, m: OnceMap, op: OnceOp, m': OnceMap) {
    match op
    case Begin(key, fingerprint, rid, decision) =>
      && decision == Decide(if key in m.slots then Some(m.slots[key].record) else None, fingerprint)
      && m' ==
         if decision.Proceed? then
           m.(slots := m.slots[key := OnceSlot(InProgressRecord(fingerprint), rid, m.now + ttl)])
         else m
    case Finish(key, rid, response) =>
      && key in m.slots
      && var slot := m.slots[key];
        && slot.record == InProgressRecord(slot.record.fingerprint) && slot.owner == rid
        && m' == m.(slots :=
             m.slots[key := OnceSlot(CompletedRecord(slot.record.fingerprint, response), rid, m.now + ttl)])
    case Drop(key, rid) => key in m.slots && m.slots[key].owner == rid && m' == m.(slots := m.slots - {key})
    case Lapse(elapsed) =>
      // exactly the keys whose begin or finish was a time to live ago or more
      var now := m.now + elapsed;
      m' == OnceMap(now, map key | key in m.slots && now < m.slots[key].due :: m.slots[key])
    case Idle => m' == m
  }

  ghost function OnceView(w: World): OnceMap {
    OnceMap(w.now,
      map key | key in w.entries :: OnceSlot(w.entries[key].record, w.entries[key].owner, w.entries[key].expiresAt))
  }

  /** The atomic step that an event of the protocol is. */
  ghost function OpOf(w: World, e: Event): OnceOp
    requires Enabled(w, e)
  {
    match e
    case Get(rid) => Reading(w, rid)
    case GetAgain(rid) => Reading(w, rid)
    case SetNx(rid) =>
      if w.requests[rid].key in w.entries then Idle
      else Begin(w.requests[rid].key, w.requests[rid].fingerprint, rid, Proceed)
    case Complete(rid) => Finish(w.requests[rid].key, rid, w.requests[rid].produced.value)
    case CompleteFails(rid, applied) =>
      if applied then Finish(w.requests[rid].key, rid, w.requests[rid].produced.value) else Idle
    case Release(rid) => Drop(w.requests[rid].key, rid)
    case Tick(elapsed) => Lapse(elapsed)
    case _ => Idle
  }

  ghost function Reading(w: World, rid: Rid): OnceOp
    requires rid in w.requests
  {
    var request := w.requests[rid];
    if request.key in w.entries
    then Begin(request.key, request.fingerprint, rid,
               ResolveExisting(w.entries[request.key].record, request.fingerprint))
    else Idle
  }

  /** Every event, crashes and expiry included, is one atomic step of the once-only map. */
  lemma EventIsAtomicStep(ttl: nat, w: World, e: Event)
    requires ttl > 0 && Inv(ttl, w) && Enabled(w, e)
    ensures OnceStep(ttl, OnceView(w), OpOf(w, e), OnceView(Apply(ttl, w, e)))
  {
    if e.Tick? {
      LapseIsAtomicStep(ttl, w, e.elapsed);
    } else {
      InvHolds(ttl, w, e, "");
      hide Inv, Conserved, ReplayOk, HistoryOk, ResolveExisting, Concatenated, Pass;
      if e.rid in w.requests && w.requests[e.rid].key in w.entries {
        ResolvingNeverProceeds(w.entries[w.requests[e.rid].key].record, w.requests[e.rid].fingerprint);
      }
    }
  }

  lemma LapseIsAtomicStep(ttl: nat, w: World, elapsed: nat)
    ensures OnceStep(ttl, OnceView(w), OpOf(w, Tick(elapsed)), OnceView(Apply(ttl, w, Tick(elapsed))))
  {
  }

  lemma RunRefinesOnceMap(run: Run)
    requires TimelyValid(run)
    ensures OnceView(run.worlds[0]) == OnceMap(0, map[])
    ensures forall i | 0 <= i < |run.events| ::
      OnceStep(run.ttl, OnceView(run.worlds[i]), OpOf(run.worlds[i], run.events[i]), OnceView(run.worlds[i + 1]))
  {
    hide Apply, Enabled, Inv, OnceStep, OpOf;
    forall i | 0 <= i < |run.events|
      ensures OnceStep(run.ttl, OnceView(run.worlds[i]), OpOf(run.worlds[i], run.events[i]),
                       OnceView(run.worlds[i + 1]))
    {
      RunKeepsInv(run, i);
      EventIsAtomicStep(run.ttl, run.worlds[i], run.events[i]);
    }
  }

  ghost predicate InBegin(run: Run, i: nat, rid: Rid, key: Key)
    requires i < |run.worlds|
  {
    && rid in run.worlds[i].requests
    && BeginPhase(run.worlds[i].requests[rid].phase)
    && run.worlds[i].requests[rid].key == key
  }

  ghost predicate InProgressAt(run: Run, i: nat, key: Key)
    requires i < |run.worlds|
  {
    key in run.worlds[i].entries && run.worlds[i].entries[key].record.state == InProgress
  }

  /** A key can only become present by an acquire, that is, as in progress. */
  lemma AppearsInProgress(ttl: nat, w: World, e: Event, key: Key)
    requires ttl > 0 && Inv(ttl, w) && Enabled(w, e)
    requires key !in w.entries && key in Apply(ttl, w, e).entries
    ensures Apply(ttl, w, e).entries[key].record.state == InProgress
  {
    InvHolds(ttl, w, e, key);
    hide Inv, Conserved, ReplayOk, HistoryOk, EntryOk;
  }

  lemma StepIntoMissed(ttl: nat, w: World, e: Event, rid: Rid, key: Key)
    requires Enabled(w, e) && At(Apply(ttl, w, e), rid, Missed)
    requires Apply(ttl, w, e).requests[rid].key == key && key in Apply(ttl, w, e).entries
    ensures rid in w.requests && w.requests[rid].key == key
    ensures At(w, rid, Missed)
  {
  }

  /** If a request that has missed now finds its key present, some instant since its miss had
      the key in progress. */
  lemma {:induction false} MissedThenPresent(run: Run, i: nat, rid: Rid, key: Key) returns (j: nat)
    requires TimelyValid(run) && i < |run.worlds|
    requires At(run.worlds[i], rid, Missed) && run.worlds[i].requests[rid].key == key
    requires key in run.worlds[i].entries
    ensures j <= i && InBegin(run, j, rid, key) && InProgressAt(run, j, key)
  {
    hide Apply, Enabled, Inv;
    var w, e := run.worlds[i - 1], run.events[i - 1];
    RunKeepsInv(run, i - 1);
    StepIntoMissed(run.ttl, w, e, rid, key);
    if key in w.entries {
      j := MissedThenPresent(run, i - 1, rid, key);
    } else {
      AppearsInProgress(run.ttl, w, e, key);
      j := i;
    }
  }

  lemma StepIntoContended(ttl: nat, w: World, e: Event, rid: Rid)
    requires Enabled(w, e) && At(Apply(ttl, w, e), rid, Contended)
    ensures rid in w.requests && Apply(ttl, w, e).requests[rid].key == w.requests[rid].key
    ensures At(w, rid, Contended) || (e == SetNx(rid) && At(w, rid, Missed) && w.requests[rid].key in w.entries)
  {
  }

  lemma {:induction false} ContendedSawInProgress(run: Run, i: nat, rid: Rid, key: Key) returns (j: nat)
    requires TimelyValid(run) && i < |run.worlds|
    requires At(run.worlds[i], rid, Contended) && run.worlds[i].requests[rid].key == key
    ensures j <= i && InBegin(run, j, rid, key) && InProgressAt(run, j, key)
  {
    hide Apply, Enabled, Inv;
    StepIntoContended(run.ttl, run.worlds[i - 1], run.events[i - 1], rid);
    if At(run.worlds[i - 1], rid, Contended) {
      j := ContendedSawInProgress(run, i - 1, rid, key);
    } else {
      j := MissedThenPresent(run, i - 1, rid, key);
    }
  }

  /** The get, SET NX, get sequence is one atomic decision, taken at an instant `j` at which the
      request is in its begin phase; a `Proceed` takes effect at that same instant. */
  lemma BeginIsAtomic(run: Run, i: nat, rid: Rid, decision: Decision) returns (j: nat)
    requires TimelyValid(run) && DecidesAt(run, i, rid, decision)
    ensures j <= i && InBegin(run, j, rid, run.worlds[i].requests[rid].key)
    ensures var request := run.worlds[i].requests[rid];
      && decision == Decide(Slot(run.worlds[j], request.key), request.fingerprint)
      && OnceStep(run.ttl, OnceView(run.worlds[j]), Begin(request.key, request.fingerprint, rid, decision),
                  OnceView(run.worlds[if decision.Proceed? then j + 1 else j]))
  {
    hide Apply, Enabled, Inv, ResolveExisting;
    var w, e := run.worlds[i], run.events[i];
    var key := w.requests[rid].key;
    RunKeepsInv(run, i);
    DecidingStep(run.ttl, w, e, rid, decision);
    if e == GetAgain(rid) && key !in w.entries {
      j := ContendedSawInProgress(run, i, rid, key);
      InProgressRefuses(run.worlds[j].entries[key].record, w.requests[rid].fingerprint);
    } else {
      j := i;
      if key in w.entries { ResolvingNeverProceeds(w.entries[key].record, w.requests[rid].fingerprint); }
    }
  }

  lemma InProgressRefuses(record: Record, fingerprint: string)
    requires record.state == InProgress
    ensures ResolveExisting(record, fingerprint) == RequestInProgress
  {
  }

  /** The three ways out of the begin phase. */
  lemma DecidingStep(ttl: nat, w: World, e: Event, rid: Rid, decision: Decision)
    requires Enabled(w, e) && rid in w.requests && BeginPhase(w.requests[rid].phase)
    requires At(Apply(ttl, w, e), rid, if decision.Proceed? then Executing else Finished(Decided(decision)))
    ensures var request := w.requests[rid];
      if request.key in w.entries then
        && decision == ResolveExisting(w.entries[request.key].record, request.fingerprint)
      else if decision.Proceed? then
        && OnceView(Apply(ttl, w, e)) ==
           OnceView(w).(slots := OnceView(w).slots[request.key :=
             OnceSlot(InProgressRecord(request.fingerprint), rid, w.now + ttl)])
        && e != GetAgain(rid)
      else
        e == GetAgain(rid) && At(w, rid, Contended) && decision == RequestInProgress
  {
    if w.requests[rid].key in w.entries {
      ResolvingNeverProceeds(w.entries[w.requests[rid].key].record, w.requests[rid].fingerprint);
    }
  }

  /** How many more store calls or handler steps a request in this phase can take. */
  function Remaining(phase: Phase): nat {
    match phase
    case Arrived => 5
    case Missed => 4
    case Contended => 1
    case Executing => 3
    case Responding => 2
    case Releasing => 1
    case Finished(_) => 0
  }

  function StepsOf(events: seq<Event>, rid: Rid): nat {
    if events == [] then 0
    else StepsOf(events[..|events| - 1], rid) +
         (var e := events[|events| - 1]; if !e.Tick? && e.rid == rid then 1 else 0)
  }

  /** Steps taken so far, at most, by the phase a request is in. */
  function Taken(w: World, rid: Rid): nat {
    if rid in w.requests then 6 - Remaining(w.requests[rid].phase) else 0
  }

  lemma OwnStepAdvances(ttl: nat, w: World, e: Event, rid: Rid)
    requires Enabled(w, e)
    ensures if !e.Tick? && e.rid == rid then Taken(w, rid) < Taken(Apply(ttl, w, e), rid)
            else Taken(w, rid) == Taken(Apply(ttl, w, e), rid)
  {
  }

  lemma {:induction false} StepsAreBounded(run: Run, i: nat, rid: Rid)
    requires ValidRun(run) && i < |run.worlds|
    ensures StepsOf(run.events[..i], rid) <= Taken(run.worlds[i], rid)
  {
    if i > 0 {
      OwnStepAdvances(run.ttl, run.worlds[i - 1], run.events[i - 1], rid);
      StepsAreBounded(run, i - 1, rid);
      assert run.events[..i][..i - 1] == run.events[..i - 1];
    }
  }

  /** In any interleaving each request takes at most six steps, its arrival included. */
  lemma RequestTakesAtMostSixSteps(run: Run, rid: Rid)
    requires ValidRun(run)
    ensures StepsOf(run.events, rid) <= 6
  {
    StepsAreBounded(run, |run.events|, rid);
    assert run.events[..|run.events|] == run.events;
  }
}
