/** How requests begin and end in a run, and what each of them leaves under its key. */
module IdempotencyOutcomes {
  import opened Wrappers
  import opened IdempotencyRecords
  import opened IdempotencyProtocol

  lemma StepBringsIn(ttl: nat, w: World, e: Event, rid: Rid)
    requires Enabled(w, e) && rid in Apply(ttl, w, e).requests
    ensures var request := Apply(ttl, w, e).requests[rid];
      || e == Arrive(rid, request.key, request.fingerprint)
      || (&& rid in w.requests
          && w.requests[rid].key == request.key && w.requests[rid].fingerprint == request.fingerprint)
  {
    hide ResolveExisting, Concatenated, StoredContentType;
  }

  /** A request has the key and the fingerprint that it arrived with. */
  lemma {:induction false} ArrivedWith(run: Run, i: nat, rid: Rid) returns (m: nat)
    requires ValidRun(run) && i < |run.worlds| && rid in run.worlds[i].requests
    ensures m < i
    ensures run.events[m] == Arrive(rid, run.worlds[i].requests[rid].key, run.worlds[i].requests[rid].fingerprint)
  {
    hide Apply, Enabled;
    StepBringsIn(run.ttl, run.worlds[i - 1], run.events[i - 1], rid);
    var request := run.worlds[i].requests[rid];
    if run.events[i - 1] == Arrive(rid, request.key, request.fingerprint) {
      m := i - 1;
    } else {
      m := ArrivedWith(run, i - 1, rid);
    }
  }

  /** A request ends in one of four ways. A decision changes nothing, and is that of the record
      under the key, or in progress when that has just gone; serving leaves the response as
      completed; raising leaves the key absent; and giving up leaves everything as it is. */
  ghost predicate EndsWell(ttl: nat, w: World, w': World, rid: Rid, outcome: Outcome)
    requires rid in w.requests
  {
    var request := w.requests[rid];
    var key := request.key;
    match outcome
    case Decided(decision) =>
      && w'.entries == w.entries
      && (if key !in w.entries || w.entries[key].record.state == InProgress then decision == RequestInProgress
          else
            var record := w.entries[key].record;
            if record.fingerprint != request.fingerprint then decision == KeyMismatch
            else record.statusCode.Some? && record.body.Some? ==>
              && decision.Replay?
              && decision.response.statusCode == record.statusCode.value
              && decision.response.body == record.body.value)
    case Served =>
      && request.produced.Some?
      && key in w'.entries && w'.entries[key].owner == rid && w'.entries[key].expiresAt == w.now + ttl
      && w'.entries[key].record ==
         Record(Completed, request.fingerprint, Some(request.produced.value.statusCode),
                Some(request.produced.value.body), Some(request.produced.value.contentType))
      && w'.entries - {key} == w.entries - {key}
    case Raised => key !in w'.entries && w'.entries == w.entries - {key}
    case Abandoned => w'.entries == w.entries
  }

  lemma StepEndsWell(ttl: nat, w: World, e: Event, rid: Rid, outcome: Outcome)
    requires Enabled(w, e) && rid in w.requests && !w.requests[rid].phase.Finished?
    requires At(Apply(ttl, w, e), rid, Finished(outcome))
    ensures EndsWell(ttl, w, Apply(ttl, w, e), rid, outcome)
    ensures !e.Tick? && e.rid == rid && (outcome == Abandoned <==> e == Crash(rid))
  {
    hide Concatenated, StoredContentType, TallyOf;
  }

  lemma RequestEndsWell(run: Run, i: nat, rid: Rid, outcome: Outcome)
    requires ValidRun(run) && i < |run.events|
    requires rid in run.worlds[i].requests && !run.worlds[i].requests[rid].phase.Finished?
    requires At(run.worlds[i + 1], rid, Finished(outcome))
    ensures EndsWell(run.ttl, run.worlds[i], run.worlds[i + 1], rid, outcome)
    ensures outcome == Abandoned <==> run.events[i] == Crash(rid)
  {
    hide Apply, Enabled, EndsWell;
    StepEndsWell(run.ttl, run.worlds[i], run.events[i], rid, outcome);
  }

  /** On its way out with an exception, or out. */
  predicate FailingOrFailed(phase: Phase) {
    phase in {Releasing, Finished(Raised), Finished(Abandoned)}
  }

  lemma FailureGoesOn(ttl: nat, w: World, e: Event, rid: Rid)
    requires Enabled(w, e)
    requires
      || e == HandlerRaises(rid) || e == CompleteFails(rid, false) || e == CompleteFails(rid, true)
      || (rid in w.requests && FailingOrFailed(w.requests[rid].phase))
    ensures rid in Apply(ttl, w, e).requests && FailingOrFailed(Apply(ttl, w, e).requests[rid].phase)
  {
    hide ResolveExisting, Concatenated, StoredContentType, TallyOf;
  }

  /** After its handler has raised, or its completion has failed, a request is never served: it
      releases its key, which leaves that absent, and raises, unless it is cancelled before. */
  lemma {:induction false} FailureIsNeverServed(run: Run, i: nat, j: nat, rid: Rid)
    requires ValidRun(run) && i < j < |run.worlds|
    requires run.events[i] in {HandlerRaises(rid), CompleteFails(rid, false), CompleteFails(rid, true)}
    ensures rid in run.worlds[j].requests && FailingOrFailed(run.worlds[j].requests[rid].phase)
    decreases j
  {
    hide Apply, Enabled, FailingOrFailed;
    if i + 1 < j {
      FailureIsNeverServed(run, i, j - 1, rid);
    }
    FailureGoesOn(run.ttl, run.worlds[j - 1], run.events[j - 1], rid);
  }

  /** A completion that failed has stored the response, or has not. */
  lemma FailedCompletionStores(run: Run, i: nat, rid: Rid, applied: bool)
    requires ValidRun(run) && i < |run.events| && run.events[i] == CompleteFails(rid, applied)
    ensures At(run.worlds[i], rid, Responding) && run.worlds[i].requests[rid].produced.Some?
    ensures var w, w', request := run.worlds[i], run.worlds[i + 1], run.worlds[i].requests[rid];
      if applied then
        && request.key in w'.entries && w'.entries - {request.key} == w.entries - {request.key}
        && w'.entries[request.key].record == CompletedRecord(request.fingerprint, request.produced.value)
      else w'.entries == w.entries
  {
  }
}
