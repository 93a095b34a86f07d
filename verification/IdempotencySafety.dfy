/** What every step of the idempotency protocol keeps, when holders are timely. */
module IdempotencySafety {
  import opened Wrappers
  import opened IdempotencyRecords
  import opened IdempotencyProtocol

  /** A stored record is still due, and carries the fingerprint (and, once completed, the
      response) of the request that owns it. */
  ghost predicate EntryOk(w: World, key: Key) {
    key in w.entries ==>
      var entry := w.entries[key];
      && w.now < entry.expiresAt
      && entry.owner in w.requests
      && var owner := w.requests[entry.owner];
        && owner.key == key
        && owner.acquiredAt.Some?
        && if entry.record.state == InProgress
           then entry.record == InProgressRecord(owner.fingerprint)
           else
             && owner.produced.Some?
             && entry.record == CompletedRecord(owner.fingerprint, owner.produced.value)
             && !owner.phase.Executing? && !owner.phase.Responding?
  }

  /** A live holder owns the record stored under its key; until it completes, that record is
      exactly its in-progress record. */
  ghost predicate HolderOk(ttl: nat, w: World, rid: Rid) {
    rid in w.requests && Holding(w.requests[rid].phase) ==>
      var request := w.requests[rid];
      && request.acquiredAt.Some?
      && request.acquiredAt.value <= w.now
      && request.key in w.entries
      && var entry := w.entries[request.key];
        && entry.owner == rid
        && request.acquiredAt.value + ttl <= entry.expiresAt
        && (!request.phase.Releasing? ==>
              entry.record == InProgressRecord(request.fingerprint) &&
              entry.expiresAt == request.acquiredAt.value + ttl)
  }

  /** A request acquires, then produces a response; a produced content type is never empty. */
  ghost predicate HistoryOk(w: World, rid: Rid) {
    rid in w.requests ==>
      var request := w.requests[rid];
      && (BeginPhase(request.phase) ==> request.acquiredAt.None?)
      && (BeginPhase(request.phase) || request.phase.Executing? ==> request.produced.None?)
      && (request.phase.Responding? || request.phase == Finished(Served) ==> request.produced.Some?)
      && (request.produced.Some? ==> request.produced.value.contentType != "" && request.acquiredAt.Some?)
  }

  /** A replay gave back the response its source produced for the same key and fingerprint. */
  ghost predicate ReplayOk(w: World, rid: Rid) {
    rid in w.requests ==>
      var request := w.requests[rid];
      && (request.phase.Finished? && request.phase.outcome.Decided? && request.phase.outcome.decision.Replay? ==>
            && request.source.Some?
            && request.source.value in w.requests
            && var source := w.requests[request.source.value];
              && source.key == request.key
              && source.fingerprint == request.fingerprint
              && source.produced == Some(request.phase.outcome.decision.response))
  }

  ghost predicate Conserved(w: World, key: Key) {
    TallyOf(w, key).acquired ==
    TallyOf(w, key).released + TallyOf(w, key).expired + (if key in w.entries then 1 else 0)
  }

  ghost predicate Inv(ttl: nat, w: World) {
    && (forall key :: EntryOk(w, key))
    && (forall rid :: HolderOk(ttl, w, rid))
    && (forall rid :: HistoryOk(w, rid))
    && (forall rid :: ReplayOk(w, rid))
    && (forall key :: Conserved(w, key))
  }

  lemma StepKeepsEntry(ttl: nat, w: World, e: Event, key: Key)
    requires ttl > 0 && Inv(ttl, w) && Enabled(w, e)
    ensures EntryOk(Apply(ttl, w, e), key)
  {
    hide Inv, Conserved, ReplayOk, ResolveExisting, Concatenated;
    InvHolds(ttl, w, e, key);
  }

  /** What the invariant says about an event's request, a key, and the key's owner. */
  lemma InvHolds(ttl: nat, w: World, e: Event, key: Key)
    requires Inv(ttl, w)
    ensures EntryOk(w, key) && Conserved(w, key)
    ensures !e.Tick? ==> HolderOk(ttl, w, e.rid) && HistoryOk(w, e.rid) && ReplayOk(w, e.rid)
    ensures !e.Tick? && e.rid in w.requests ==> EntryOk(w, w.requests[e.rid].key)
    ensures key in w.entries ==>
      HolderOk(ttl, w, w.entries[key].owner) && HistoryOk(w, w.entries[key].owner)
  {
  }

  lemma StepKeepsHolder(ttl: nat, w: World, e: Event, rid: Rid)
    requires ttl > 0 && Inv(ttl, w) && Enabled(w, e) && Timely(ttl, Apply(ttl, w, e))
    ensures HolderOk(ttl, Apply(ttl, w, e), rid)
  {
    assert HolderOk(ttl, w, rid);
    InvHolds(ttl, w, e, "");
    hide Inv, EntryOk, Conserved, ReplayOk, HistoryOk, ResolveExisting, Concatenated;
  }

  lemma StepKeepsHistory(ttl: nat, w: World, e: Event, rid: Rid)
    requires ttl > 0 && Inv(ttl, w) && Enabled(w, e)
    ensures HistoryOk(Apply(ttl, w, e), rid)
  {
    assert HistoryOk(w, rid);
    InvHolds(ttl, w, e, "");
    hide Inv, Conserved, ReplayOk, EntryOk, ResolveExisting, Concatenated;
  }

  lemma PassKeepsRequests(w: World, elapsed: nat)
    ensures Pass(w, elapsed).requests == w.requests
  {
  }

  /** A replay decided now has the record's owner as its source. */
  lemma ResolveKeepsReplay(w: World, rid: Rid, other: Rid)
    requires rid in w.requests && w.requests[rid].key in w.entries
    requires EntryOk(w, w.requests[rid].key) && HistoryOk(w, w.entries[w.requests[rid].key].owner)
    requires ReplayOk(w, other) && !w.requests[rid].phase.Finished?
    ensures ReplayOk(Resolve(w, rid), other)
  {
    hide Concatenated, StoredContentType;
  }

  lemma StepKeepsReplay(ttl: nat, w: World, e: Event, rid: Rid)
    requires ttl > 0 && Inv(ttl, w) && Enabled(w, e)
    ensures ReplayOk(Apply(ttl, w, e), rid)
  {
    assert ReplayOk(w, rid);
    hide Concatenated, StoredContentType, TallyOf, Pass, Resolve;
    if e.Tick? {
      PassKeepsRequests(w, e.elapsed);
    } else {
      if e.rid in w.requests {
        InvHolds(ttl, w, e, w.requests[e.rid].key);
        if w.requests[e.rid].key in w.entries && (e.Get? || e.GetAgain?) {
          ResolveKeepsReplay(w, e.rid, rid);
        }
      }
    }
    hide Inv, EntryOk, HistoryOk, HolderOk, Conserved;
  }

  lemma StepKeepsTally(ttl: nat, w: World, e: Event, key: Key)
    requires ttl > 0 && Inv(ttl, w) && Enabled(w, e)
    ensures Conserved(Apply(ttl, w, e), key)
  {
    InvHolds(ttl, w, e, key);
    hide Inv, EntryOk, ReplayOk, HistoryOk, ResolveExisting, Concatenated;
  }

  lemma StepKeepsInv(ttl: nat, w: World, e: Event)
    requires ttl > 0 && Inv(ttl, w) && Enabled(w, e) && Timely(ttl, Apply(ttl, w, e))
    ensures Inv(ttl, Apply(ttl, w, e))
  {
    hide EntryOk, HolderOk, HistoryOk, ReplayOk, Conserved, Apply, Enabled;
    var w' := Apply(ttl, w, e);
    forall key ensures EntryOk(w', key) { StepKeepsEntry(ttl, w, e, key); }
    forall rid ensures HolderOk(ttl, w', rid) { StepKeepsHolder(ttl, w, e, rid); }
    forall rid ensures HistoryOk(w', rid) { StepKeepsHistory(ttl, w, e, rid); }
    forall rid ensures ReplayOk(w', rid) { StepKeepsReplay(ttl, w, e, rid); }
    forall key ensures Conserved(w', key) { StepKeepsTally(ttl, w, e, key); }
  }
}
