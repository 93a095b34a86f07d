/** Safety of whole runs of the idempotency protocol with timely holders. */
module IdempotencyRuns {
  import opened Wrappers
  import opened IdempotencyRecords
  import opened IdempotencyProtocol
  import opened IdempotencySafety

  ghost predicate TimelyValid(run: Run) {
    ValidRun(run) && TimelyRun(run)
  }

  lemma EmptyWorldInv(ttl: nat)
    ensures Inv(ttl, EMPTY_WORLD)
  {
  }

  lemma {:induction false} RunKeepsInv(run: Run, i: nat)
    requires TimelyValid(run) && i < |run.worlds|
    ensures Inv(run.ttl, run.worlds[i])
  {
    if i == 0 {
      EmptyWorldInv(run.ttl);
    } else {
      hide Apply, Enabled, Inv;
      RunKeepsInv(run, i - 1);
      assert Timely(run.ttl, run.worlds[i]);
      StepKeepsInv(run.ttl, run.worlds[i - 1], run.events[i - 1]);
    }
  }

  /** At most one live request holds a key, and the stored record is the one it wrote. */
  lemma MutualExclusion(run: Run, i: nat, first: Rid, second: Rid)
    requires TimelyValid(run) && i < |run.worlds|
    requires first in run.worlds[i].requests && second in run.worlds[i].requests
    requires Holding(run.worlds[i].requests[first].phase) && Holding(run.worlds[i].requests[second].phase)
    requires run.worlds[i].requests[first].key == run.worlds[i].requests[second].key
    ensures first == second
    ensures var holder := run.worlds[i].requests[first];
      && holder.key in run.worlds[i].entries
      && run.worlds[i].entries[holder.key].owner == first
      && (!holder.phase.Releasing? ==>
            run.worlds[i].entries[holder.key].record == InProgressRecord(holder.fingerprint))
  {
    RunKeepsInv(run, i);
    assert HolderOk(run.ttl, run.worlds[i], first) && HolderOk(run.ttl, run.worlds[i], second);
  }

  /** The completing SET and the DEL carry no condition, yet only ever hit the caller's own record. */
  lemma UnguardedWritesHitOwnRecord(run: Run, i: nat)
    requires TimelyValid(run) && i < |run.events|
    requires run.events[i].Complete? || run.events[i].CompleteFails? || run.events[i].Release?
    ensures run.events[i].rid in run.worlds[i].requests
    ensures var key := run.worlds[i].requests[run.events[i].rid].key;
      && key in run.worlds[i].entries
      && run.worlds[i].entries[key].owner == run.events[i].rid
      && (forall other | other != key && other in run.worlds[i].entries ::
            other in run.worlds[i + 1].entries && run.worlds[i + 1].entries[other] == run.worlds[i].entries[other])
  {
    RunKeepsInv(run, i);
    assert HolderOk(run.ttl, run.worlds[i], run.events[i].rid);
  }

  /** Every acquire is matched by a release, an expiry, or the record still stored. */
  lemma ConservationOfExecutions(run: Run, i: nat, key: Key)
    requires TimelyValid(run) && i < |run.worlds|
    ensures var tally := TallyOf(run.worlds[i], key);
      && tally.acquired == tally.released + tally.expired + (if key in run.worlds[i].entries then 1 else 0)
      && Executions(run.events[..i], run.worlds[..i + 1], key) == tally.acquired
      && Executions(run.events[..i], run.worlds[..i + 1], key) <= 1 + tally.released + tally.expired
  {
    RunKeepsInv(run, i);
    assert Conserved(run.worlds[i], key);
    ExecutionsAreAcquires(run, i, key);
  }

  /** How many times, in a stretch of a run, a request with this key went on to its handler. */
  ghost function Executions(events: seq<Event>, worlds: seq<World>, key: Key): nat
    requires |worlds| == |events| + 1
  {
    if events == [] then 0
    else
      var last := |events| - 1;
      Executions(events[..last], worlds[..last + 1], key) +
      (if StartsHandler(worlds[last], worlds[last + 1], key) then 1 else 0)
  }

  ghost predicate StartsHandler(w: World, w': World, key: Key) {
    exists rid :: rid in w'.requests && w'.requests[rid].key == key && At(w', rid, Executing) && !At(w, rid, Executing)
  }

  lemma {:induction false} ExecutionsAreAcquires(run: Run, i: nat, key: Key)
    requires ValidRun(run) && i < |run.worlds|
    ensures Executions(run.events[..i], run.worlds[..i + 1], key) == TallyOf(run.worlds[i], key).acquired
  {
    hide Apply, Enabled, StartsHandler;
    if i > 0 {
      ExecutionsAreAcquires(run, i - 1, key);
      assert run.events[..i][..i - 1] == run.events[..i - 1];
      assert run.worlds[..i + 1][..i] == run.worlds[..i];
      HandlerStartsByAcquiring(run.ttl, run.worlds[i - 1], run.events[i - 1], key);
    }
  }

  lemma HandlerStartsByAcquiring(ttl: nat, w: World, e: Event, key: Key)
    requires Enabled(w, e)
    ensures TallyOf(Apply(ttl, w, e), key).acquired ==
      TallyOf(w, key).acquired + (if StartsHandler(w, Apply(ttl, w, e), key) then 1 else 0)
  {
    var w' := Apply(ttl, w, e);
    if e.SetNx? && w.requests[e.rid].key == key && key !in w.entries {
      assert At(w', e.rid, Executing) && !At(w, e.rid, Executing);
    }
  }

  ghost predicate Present(run: Run, key: Key, i: nat, j: nat)
    requires j < |run.worlds|
  {
    forall m {:trigger run.worlds[m]} | i <= m <= j :: key in run.worlds[m].entries
  }

  /** One lifetime of a record has one owner, and a completed record never changes again. */
  lemma {:induction false} OneLifetimeOneExecution(run: Run, key: Key, i: nat, j: nat)
    requires TimelyValid(run) && i <= j < |run.worlds| && Present(run, key, i, j)
    ensures run.worlds[j].entries[key].owner == run.worlds[i].entries[key].owner
    ensures run.worlds[j].entries[key].record.fingerprint == run.worlds[i].entries[key].record.fingerprint
    ensures run.worlds[i].entries[key].record.state == Completed ==>
      run.worlds[j].entries[key].record == run.worlds[i].entries[key].record
  {
    hide Apply, Enabled, Inv;
    if i < j {
      OneLifetimeOneExecution(run, key, i, j - 1);
      RunKeepsInv(run, j - 1);
      assert key in run.worlds[j].entries;
      StepKeepsLifetime(run.ttl, run.worlds[j - 1], run.events[j - 1], key);
    }
  }

  lemma StepKeepsLifetime(ttl: nat, w: World, e: Event, key: Key)
    requires Inv(ttl, w) && Enabled(w, e) && key in w.entries && key in Apply(ttl, w, e).entries
    ensures var before, after := w.entries[key], Apply(ttl, w, e).entries[key];
      && after.owner == before.owner
      && after.record.fingerprint == before.record.fingerprint
      && (before.record.state == Completed ==> after.record == before.record)
  {
    InvHolds(ttl, w, e, key);
    hide Inv, Conserved, ReplayOk;
  }

  /** What no later event changes about a request. */
  ghost predicate Stable(before: Request, after: Request) {
    && after.key == before.key && after.fingerprint == before.fingerprint
    && (before.produced.Some? ==> after.produced == before.produced)
    && (before.phase.Finished? ==> after == before)
  }

  lemma StepIsStable(ttl: nat, w: World, e: Event, rid: Rid)
    requires Enabled(w, e) && rid in w.requests && HistoryOk(w, rid)
    ensures rid in Apply(ttl, w, e).requests
    ensures Stable(w.requests[rid], Apply(ttl, w, e).requests[rid])
  {
  }

  lemma {:induction false} RequestsAreStable(run: Run, rid: Rid, i: nat, j: nat)
    requires TimelyValid(run) && i <= j < |run.worlds| && rid in run.worlds[i].requests
    ensures rid in run.worlds[j].requests
    ensures Stable(run.worlds[i].requests[rid], run.worlds[j].requests[rid])
  {
    hide Apply, Enabled, Inv;
    if i < j {
      RequestsAreStable(run, rid, i, j - 1);
      RunKeepsInv(run, j - 1);
      InvHolds(run.ttl, run.worlds[j - 1], Event.Get(rid), "");
      StepIsStable(run.ttl, run.worlds[j - 1], run.events[j - 1], rid);
    }
  }

  /** A produced response is what one HandlerReturns event of that request delivered. */
  lemma {:induction false} ProducedByHandler(run: Run, rid: Rid, i: nat) returns (m: nat)
    requires ValidRun(run) && i < |run.worlds| && rid in run.worlds[i].requests
    requires run.worlds[i].requests[rid].produced.Some?
    ensures m < i && run.events[m].HandlerReturns? && run.events[m].rid == rid
    ensures run.worlds[i].requests[rid].produced.value ==
      Response(run.events[m].statusCode, Concatenated(run.events[m].chunks),
               StoredContentType(run.events[m].mediaType, run.events[m].header))
  {
    hide Apply, Enabled;
    var e := run.events[i - 1];
    StepProduces(run.ttl, run.worlds[i - 1], e, rid);
    if e.HandlerReturns? && e.rid == rid {
      m := i - 1;
    } else {
      m := ProducedByHandler(run, rid, i - 1);
    }
  }

  lemma StepProduces(ttl: nat, w: World, e: Event, rid: Rid)
    requires Enabled(w, e) && rid in Apply(ttl, w, e).requests
    requires Apply(ttl, w, e).requests[rid].produced.Some?
    ensures var produced := Apply(ttl, w, e).requests[rid].produced;
      if e.HandlerReturns? && e.rid == rid
      then produced == Some(Response(e.statusCode, Concatenated(e.chunks), StoredContentType(e.mediaType, e.header)))
      else rid in w.requests && w.requests[rid].produced == produced
  {
  }

  /** Every replay returns the status, content type and joined body of one earlier execution,
      which ran under the same key and the same fingerprint. */
  lemma ReplayFidelity(run: Run, rid: Rid, i: nat) returns (source: Rid, m: nat)
    requires TimelyValid(run) && i < |run.worlds| && rid in run.worlds[i].requests
    requires run.worlds[i].requests[rid].phase.Finished?
    requires run.worlds[i].requests[rid].phase.outcome.Decided?
    requires run.worlds[i].requests[rid].phase.outcome.decision.Replay?
    ensures source in run.worlds[i].requests
    ensures run.worlds[i].requests[source].key == run.worlds[i].requests[rid].key
    ensures run.worlds[i].requests[source].fingerprint == run.worlds[i].requests[rid].fingerprint
    ensures m < i && run.events[m].HandlerReturns? && run.events[m].rid == source
    ensures run.worlds[i].requests[rid].phase.outcome.decision.response ==
      Response(run.events[m].statusCode, Concatenated(run.events[m].chunks),
               StoredContentType(run.events[m].mediaType, run.events[m].header))
  {
    RunKeepsInv(run, i);
    assert ReplayOk(run.worlds[i], rid);
    source := run.worlds[i].requests[rid].source.value;
    m := ProducedByHandler(run, source, i);
  }

  /** The step at which `rid` leaves the begin phase with a decision. */
  ghost predicate DecidesAt(run: Run, i: nat, rid: Rid, decision: Decision) {
    && i < |run.events| && |run.worlds| == |run.events| + 1
    && rid in run.worlds[i].requests && BeginPhase(run.worlds[i].requests[rid].phase)
    && rid in run.worlds[i + 1].requests
    && run.worlds[i + 1].requests[rid].phase ==
       (if decision.Proceed? then Executing else Finished(Decided(decision)))
  }

  /** Only the request's own GET can turn a begin phase into a replay. */
  lemma ReplayStep(ttl: nat, w: World, e: Event, rid: Rid, decision: Decision)
    requires Enabled(w, e) && decision.Replay?
    requires rid in w.requests && BeginPhase(w.requests[rid].phase)
    requires At(Apply(ttl, w, e), rid, Finished(Decided(decision)))
    ensures var request := w.requests[rid];
      && request.key in w.entries
      && Apply(ttl, w, e).entries == w.entries
      && decision == ResolveExisting(w.entries[request.key].record, request.fingerprint)
  {
  }

  /** A replay is exactly the completed record it read, which stays as it was. */
  lemma ReplayReadsRecord(run: Run, i: nat, rid: Rid, decision: Decision)
    requires TimelyValid(run) && DecidesAt(run, i, rid, decision) && decision.Replay?
    ensures var request := run.worlds[i].requests[rid];
      && request.key in run.worlds[i].entries && request.key in run.worlds[i + 1].entries
      && run.worlds[i].entries[request.key] == run.worlds[i + 1].entries[request.key]
      && run.worlds[i].entries[request.key].record == CompletedRecord(request.fingerprint, decision.response)
  {
    hide Apply, Enabled, Inv, ResolveExisting;
    RunKeepsInv(run, i);
    ReplayStep(run.ttl, run.worlds[i], run.events[i], rid, decision);
    RecordOfReplay(run.ttl, run.worlds[i], rid, decision);
  }

  lemma RecordOfReplay(ttl: nat, w: World, rid: Rid, decision: Decision)
    requires Inv(ttl, w) && rid in w.requests && w.requests[rid].key in w.entries && decision.Replay?
    requires decision == ResolveExisting(w.entries[w.requests[rid].key].record, w.requests[rid].fingerprint)
    ensures w.entries[w.requests[rid].key].record == CompletedRecord(w.requests[rid].fingerprint, decision.response)
  {
    var entry := w.entries[w.requests[rid].key];
    assert EntryOk(w, w.requests[rid].key);
    assert HistoryOk(w, entry.owner);
  }

  lemma ProceedCreatesRecord(run: Run, i: nat, rid: Rid)
    requires ValidRun(run) && DecidesAt(run, i, rid, Proceed)
    ensures var request := run.worlds[i].requests[rid];
      && request.key !in run.worlds[i].entries
      && request.key in run.worlds[i + 1].entries
      && run.worlds[i + 1].entries[request.key] ==
         Entry(InProgressRecord(request.fingerprint), run.worlds[i].now + run.ttl, rid)
  {
    hide Apply, Enabled;
    AcquireStep(run.ttl, run.worlds[i], run.events[i], rid);
  }

  lemma AcquireStep(ttl: nat, w: World, e: Event, rid: Rid)
    requires Enabled(w, e) && rid in w.requests && BeginPhase(w.requests[rid].phase)
    requires At(Apply(ttl, w, e), rid, Executing)
    ensures var request := w.requests[rid];
      && request.key !in w.entries && request.key in Apply(ttl, w, e).entries
      && Apply(ttl, w, e).entries[request.key] ==
         Entry(InProgressRecord(request.fingerprint), w.now + ttl, rid)
  {
  }

  /** Within one lifetime of the stored record, whoever proceeded or was replayed has the one
      fingerprint, and all replays are the same response. */
  lemma LifetimeHasOneAnswer(run: Run, i: nat, j: nat, first: Rid, second: Rid, d1: Decision, d2: Decision)
    requires TimelyValid(run) && i <= j
    requires DecidesAt(run, i, first, d1) && (d1.Proceed? || d1.Replay?)
    requires DecidesAt(run, j, second, d2) && d2.Replay?
    requires run.worlds[i].requests[first].key == run.worlds[j].requests[second].key
    requires Present(run, run.worlds[i].requests[first].key, i + 1, j)
    ensures run.worlds[i].requests[first].fingerprint == run.worlds[j].requests[second].fingerprint
    ensures d1.Replay? ==> d1 == d2
    ensures d1.Proceed? ==>
      first in run.worlds[j].requests && run.worlds[j].requests[first].produced == Some(d2.response)
  {
    var key := run.worlds[i].requests[first].key;
    ReplayReadsRecord(run, j, second, d2);
    if d1.Proceed? {
      ProceedCreatesRecord(run, i, first);
      RunKeepsInv(run, j);
      assert EntryOk(run.worlds[j], key);
      if i < j { OneLifetimeOneExecution(run, key, i + 1, j); }
    } else {
      ReplayReadsRecord(run, i, first, d1);
      if i < j { OneLifetimeOneExecution(run, key, i + 1, j); }
    }
  }
}
