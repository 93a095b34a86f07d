/**
 The step machine over the store the program uses: texts with an expiry, which a reader decodes.
 Its runs are the runs of the machine over records, so what holds of those holds of it.
 */
module IdempotencyTexts {
  import opened Wrappers
  import opened IdempotencyRecords
  import opened IdempotencyProtocol
  import opened IdempotencySafety
  import opened IdempotencyRuns
  import opened IdempotencyCodec
  import opened IdempotencyStores
  import opened IdempotencyLinearizability
  import Middleware = IdempotencyMiddleware

  /** The texts, expired ones included, and the requests; a text does not tell whose it is. */
  datatype TextWorld = TextWorld(now: nat, keyspace: map<Key, Stored>, requests: map<Rid, Request>)

  const EMPTY_TEXTS := TextWorld(0, map[], map[])

  predicate IsLive(t: TextWorld, key: Key) {
    key in t.keyspace && t.now < t.keyspace[key].expiresAt
  }

  function Live(t: TextWorld): map<Key, string> {
    map key | key in t.keyspace && IsLive(t, key) :: t.keyspace[key].payload
  }

  /** The requests, without the store. */
  function Callers(t: TextWorld): World {
    World(t.now, map[], t.requests, map[])
  }

  // The store

  function Saved(ttl: nat, t: TextWorld, key: Key, record: Record): TextWorld {
    t.(keyspace := t.keyspace[key := Stored(Serialized(record), t.now + ttl)])
  }

  function Called(ttl: nat, t: TextWorld, op: StoreOp): TextWorld {
    match op
    case GetOp(_) => t
    case TryAcquireOp(key, fingerprint) =>
      if IsLive(t, key) then t else Saved(ttl, t, key, InProgressRecord(fingerprint))
    case CompleteOp(key, fingerprint, response) => Saved(ttl, t, key, CompletedRecord(fingerprint, response))
    case ReleaseOp(key) => t.(keyspace := t.keyspace - {key})
  }

  /** What a GET gives: nothing when there is no live text, or none that decodes. */
  function Read(t: TextWorld, key: Key): Option<Record> {
    if IsLive(t, key) then Deserialized(t.keyspace[key].payload) else None
  }

  /** Every call does to the live texts, and answers, what the store's methods promise. */
  lemma CallIsPayloadStep(ttl: nat, t: TextWorld, op: StoreOp)
    requires ttl > 0
    ensures Live(Called(ttl, t, op)) == PayloadStep(Live(t), op).0
    ensures op.GetOp? ==> PayloadStep(Live(t), op).1 == Got(Read(t, op.key))
    ensures op.TryAcquireOp? ==> PayloadStep(Live(t), op).1 == Acquired(!IsLive(t, op.key))
  {
    hide Serialized, Deserialized;
  }

  // The machine

  function Moved(t: TextWorld, rid: Rid, phase: Phase): TextWorld
    requires rid in t.requests
  {
    t.(requests := t.requests[rid := t.requests[rid].(phase := phase)])
  }

  function CompleteCall(request: Request): StoreOp
    requires request.produced.Some?
  {
    CompleteOp(request.key, request.fingerprint, request.produced.value)
  }

  function TextApply(ttl: nat, t: TextWorld, e: Event): TextWorld
    requires Enabled(Callers(t), e)
  {
    match e
    case Get(rid) =>
      var existing := Read(t, t.requests[rid].key);
      Moved(t, rid, if existing.None? then Missed
                    else Finished(Decided(ResolveExisting(existing.value, t.requests[rid].fingerprint))))
    case SetNx(rid) =>
      var request := t.requests[rid];
      if IsLive(t, request.key) then Moved(t, rid, Contended)
      else
        var called := Called(ttl, t, TryAcquireOp(request.key, request.fingerprint));
        called.(requests := t.requests[rid := request.(phase := Executing, acquiredAt := Some(t.now))])
    case GetAgain(rid) =>
      var existing := Read(t, t.requests[rid].key);
      Moved(t, rid, Finished(Decided(if existing.None? then RequestInProgress
                                     else ResolveExisting(existing.value, t.requests[rid].fingerprint))))
    case Complete(rid) =>
      Moved(Called(ttl, t, CompleteCall(t.requests[rid])), rid, Finished(Served))
    case CompleteFails(rid, applied) =>
      Moved(if applied then Called(ttl, t, CompleteCall(t.requests[rid])) else t, rid, Releasing)
    case Release(rid) =>
      Moved(Called(ttl, t, ReleaseOp(t.requests[rid].key)), rid, Finished(Raised))
    case Tick(elapsed) => t.(now := t.now + elapsed)
    case _ => t.(requests := Apply(ttl, Callers(t), e).requests)
  }

  datatype TextRun = TextRun(ttl: nat, worlds: seq<TextWorld>, events: seq<Event>)

  ghost predicate ValidTextRun(run: TextRun) {
    && run.ttl > 0
    && |run.worlds| == |run.events| + 1
    && run.worlds[0] == EMPTY_TEXTS
    && forall i | 0 <= i < |run.events| ::
      && Enabled(Callers(run.worlds[i]), run.events[i])
      && run.worlds[i + 1] == TextApply(run.ttl, run.worlds[i], run.events[i])
  }

  ghost predicate TimelyTextRun(run: TextRun) {
    ValidTextRun(run) && forall i | 0 <= i < |run.worlds| :: Timely(run.ttl, Callers(run.worlds[i]))
  }

  // Texts and records side by side

  /** Under a key: a live text exactly for a record, its serialised form, due at the same time. */
  ghost predicate SameEntry(t: TextWorld, w: World, key: Key) {
    && (key in w.entries <==> IsLive(t, key))
    && (key in w.entries ==>
          && t.keyspace[key] == Stored(Serialized(w.entries[key].record), w.entries[key].expiresAt)
          && (w.entries[key].record.state == Completed ==>
                w.entries[key].record.statusCode.Some? && w.entries[key].record.body.Some?))
  }

  ghost predicate SameRequest(t: TextWorld, w: World, rid: Rid) {
    && (rid in w.requests <==> rid in t.requests)
    && (rid in w.requests ==> t.requests[rid] == w.requests[rid].(source := None))
  }

  /** The live texts are the records, and every request is in the same phase. */
  ghost predicate Mirrors(t: TextWorld, w: World) {
    && t.now == w.now
    && (forall key :: SameEntry(t, w, key))
    && (forall rid :: SameRequest(t, w, rid))
  }

  lemma ReadIsRecord(t: TextWorld, w: World, key: Key, fingerprint: string)
    requires SameEntry(t, w, key)
    ensures Read(t, key).Some? <==> key in w.entries
    ensures key in w.entries ==>
      ResolveExisting(Read(t, key).value, fingerprint) == ResolveExisting(w.entries[key].record, fingerprint)
    ensures Middleware.DecidePayload(Live(t), key, fingerprint) == Decide(Slot(w, key), fingerprint)
  {
    if key in w.entries {
      RoundTrip(w.entries[key].record);
      DecisionSurvivesStoring(w.entries[key].record, fingerprint);
    }
    hide Serialized, Deserialized, ResolveExisting;
  }

  lemma SameEnabled(t: TextWorld, w: World, e: Event)
    requires Mirrors(t, w)
    ensures Enabled(Callers(t), e) <==> Enabled(w, e)
  {
    if !e.Tick? {
      assert SameRequest(t, w, e.rid);
    }
  }

  predicate Writes(e: Event) {
    e.SetNx? || e.Complete? || e.CompleteFails? || e.Release?
  }

  lemma OnlyWritesWrite(ttl: nat, t: TextWorld, w: World, e: Event)
    requires Enabled(Callers(t), e) && Enabled(w, e) && !Writes(e) && !e.Tick?
    ensures TextApply(ttl, t, e).keyspace == t.keyspace && TextApply(ttl, t, e).now == t.now
    ensures Apply(ttl, w, e).entries == w.entries
  {
    hide Read, ResolveExisting, Concatenated, StoredContentType;
  }

  lemma WriteKeepsSameEntry(ttl: nat, t: TextWorld, w: World, e: Event, key: Key)
    requires ttl > 0 && t.now == w.now && Enabled(Callers(t), e) && Enabled(w, e) && Writes(e)
    requires SameEntry(t, w, key) && SameRequest(t, w, e.rid) && SameEntry(t, w, w.requests[e.rid].key)
    ensures SameEntry(TextApply(ttl, t, e), Apply(ttl, w, e), key)
  {
    hide Serialized, Read, TallyOf;
  }

  lemma StepKeepsSameEntry(ttl: nat, t: TextWorld, w: World, e: Event, key: Key)
    requires ttl > 0 && t.now == w.now && Enabled(Callers(t), e) && Enabled(w, e)
    requires SameEntry(t, w, key)
    requires !e.Tick? ==> SameRequest(t, w, e.rid)
    requires !e.Tick? && e.rid in w.requests ==> SameEntry(t, w, w.requests[e.rid].key)
    ensures SameEntry(TextApply(ttl, t, e), Apply(ttl, w, e), key)
  {
    hide Serialized;
    if Writes(e) {
      hide TextApply, Apply;
      WriteKeepsSameEntry(ttl, t, w, e, key);
    } else if !e.Tick? {
      hide TextApply, Apply;
      OnlyWritesWrite(ttl, t, w, e);
    }
  }

  lemma OthersStay(ttl: nat, t: TextWorld, w: World, e: Event, rid: Rid)
    requires Enabled(Callers(t), e) && Enabled(w, e) && (e.Tick? || e.rid != rid)
    requires SameRequest(t, w, rid)
    ensures SameRequest(TextApply(ttl, t, e), Apply(ttl, w, e), rid)
  {
    hide Read, ResolveExisting, Concatenated, StoredContentType, TallyOf, IsLive, Serialized;
  }

  lemma OwnStepKeepsSameRequest(ttl: nat, t: TextWorld, w: World, e: Event)
    requires t.now == w.now && Enabled(Callers(t), e) && Enabled(w, e) && !e.Tick?
    requires SameRequest(t, w, e.rid)
    requires e.rid in w.requests ==> SameEntry(t, w, w.requests[e.rid].key)
    ensures SameRequest(TextApply(ttl, t, e), Apply(ttl, w, e), e.rid)
  {
    if e.rid in w.requests {
      ReadIsRecord(t, w, w.requests[e.rid].key, w.requests[e.rid].fingerprint);
      assert IsLive(t, w.requests[e.rid].key) <==> w.requests[e.rid].key in w.entries;
    }
    hide Serialized, ResolveExisting, Concatenated, StoredContentType, Read, SameEntry, TallyOf, IsLive, Decide, Slot;
  }

  /** The same event does the same to both. */
  lemma StepMirrors(ttl: nat, t: TextWorld, w: World, e: Event)
    requires ttl > 0 && Mirrors(t, w) && Enabled(Callers(t), e)
    ensures Enabled(w, e) && Mirrors(TextApply(ttl, t, e), Apply(ttl, w, e))
  {
    SameEnabled(t, w, e);
    var t', w' := TextApply(ttl, t, e), Apply(ttl, w, e);
    assert t'.now == w'.now;
    hide SameEntry, SameRequest, TextApply, Apply, Enabled;
    forall key ensures SameEntry(t', w', key) {
      StepKeepsSameEntry(ttl, t, w, e, key);
    }
    forall rid ensures SameRequest(t', w', rid) {
      if e.Tick? || e.rid != rid {
        OthersStay(ttl, t, w, e, rid);
      } else {
        OwnStepKeepsSameRequest(ttl, t, w, e);
      }
    }
  }

  /** The records that the texts of a run stand for. */
  ghost function RecordsAt(run: TextRun, i: nat): World
    requires ValidTextRun(run) && i < |run.worlds|
  {
    if i == 0 then EMPTY_WORLD
    else
      var w := RecordsAt(run, i - 1);
      if Enabled(w, run.events[i - 1]) then Apply(run.ttl, w, run.events[i - 1]) else w
  }

  ghost function RecordRun(run: TextRun): Run
    requires ValidTextRun(run)
  {
    Run(run.ttl, seq(|run.worlds|, i requires 0 <= i < |run.worlds| => RecordsAt(run, i)), run.events)
  }

  lemma {:induction false} WorldsMirror(run: TextRun, i: nat)
    requires ValidTextRun(run) && i < |run.worlds|
    ensures Mirrors(run.worlds[i], RecordsAt(run, i))
  {
    if i > 0 {
      WorldsMirror(run, i - 1);
      hide Mirrors, TextApply, Apply, Enabled;
      StepMirrors(run.ttl, run.worlds[i - 1], RecordsAt(run, i - 1), run.events[i - 1]);
    }
  }

  /** Every run over texts is a run over records, with the same events, and with every request in
      the same phase at every step, whether its holders are timely or not. */
  lemma TextRunIsRun(run: TextRun)
    requires ValidTextRun(run)
    ensures ValidRun(RecordRun(run)) && RecordRun(run).events == run.events
    ensures forall i | 0 <= i < |run.worlds| :: Mirrors(run.worlds[i], RecordRun(run).worlds[i])
    ensures TimelyTextRun(run) ==> TimelyValid(RecordRun(run))
  {
    forall i | 0 <= i < |run.worlds| ensures Mirrors(run.worlds[i], RecordRun(run).worlds[i]) {
      WorldsMirror(run, i);
    }
    forall i | 0 <= i < |run.events| ensures Enabled(RecordRun(run).worlds[i], run.events[i]) {
      SameEnabled(run.worlds[i], RecordRun(run).worlds[i], run.events[i]);
    }
    hide TextApply, Apply, Enabled;
    if TimelyTextRun(run) {
      forall i | 0 <= i < |run.worlds| ensures Timely(run.ttl, RecordRun(run).worlds[i]) {
        SameTime(run.ttl, run.worlds[i], RecordRun(run).worlds[i]);
      }
    }
  }

  lemma SameTime(ttl: nat, t: TextWorld, w: World)
    requires Mirrors(t, w)
    ensures Timely(ttl, Callers(t)) <==> Timely(ttl, w)
  {
    forall rid | rid in t.requests || rid in w.requests
      ensures rid in t.requests && rid in w.requests && t.requests[rid] == w.requests[rid].(source := None)
    {
      assert SameRequest(t, w, rid);
    }
  }

  // What holds of the texts therefore

  ghost predicate Holds(t: TextWorld, rid: Rid, key: Key) {
    rid in t.requests && t.requests[rid].key == key && Holding(t.requests[rid].phase)
  }

  /** Two requests never hold one key, and the live text under it is the holder's own record. */
  lemma OneHolder(run: TextRun, i: nat, first: Rid, second: Rid, key: Key)
    requires TimelyTextRun(run) && i < |run.worlds|
    requires Holds(run.worlds[i], first, key) && Holds(run.worlds[i], second, key)
    ensures first == second && key in Live(run.worlds[i])
    ensures var holder := run.worlds[i].requests[first];
      !holder.phase.Releasing? ==>
        Live(run.worlds[i])[key] == Serialized(InProgressRecord(holder.fingerprint))
  {
    TextRunIsRun(run);
    var records := RecordRun(run);
    assert Mirrors(run.worlds[i], records.worlds[i]);
    assert SameRequest(run.worlds[i], records.worlds[i], first);
    assert SameRequest(run.worlds[i], records.worlds[i], second);
    assert SameEntry(run.worlds[i], records.worlds[i], key);
    hide Serialized, Mirrors, ValidTextRun, TimelyTextRun, RecordRun;
    MutualExclusion(records, i, first, second);
  }

  ghost predicate TextDecidesAt(run: TextRun, i: nat, rid: Rid, decision: Decision) {
    && i < |run.events| && |run.worlds| == |run.events| + 1
    && rid in run.worlds[i].requests && BeginPhase(run.worlds[i].requests[rid].phase)
    && rid in run.worlds[i + 1].requests
    && run.worlds[i + 1].requests[rid].phase ==
       (if decision.Proceed? then Executing else Finished(Decided(decision)))
  }

  /** The decision that a request takes in two or three store calls is the one that the text of
      one instant gives, with the request in its begin phase. */
  lemma TextDecisionIsAtomic(run: TextRun, i: nat, rid: Rid, decision: Decision) returns (j: nat)
    requires TimelyTextRun(run) && TextDecidesAt(run, i, rid, decision)
    ensures j <= i && rid in run.worlds[j].requests && BeginPhase(run.worlds[j].requests[rid].phase)
    ensures var request := run.worlds[i].requests[rid];
      decision == Middleware.DecidePayload(Live(run.worlds[j]), request.key, request.fingerprint)
  {
    TextRunIsRun(run);
    var records := RecordRun(run);
    assert SameRequest(run.worlds[i], records.worlds[i], rid);
    assert SameRequest(run.worlds[i + 1], records.worlds[i + 1], rid);
    hide Mirrors, ValidTextRun, TimelyTextRun, RecordRun, Middleware.DecidePayload, Live, Slot, OnceStep;
    j := BeginIsAtomic(records, i, rid, decision);
    MirroredDecision(run.worlds[j], records.worlds[j], rid, run.worlds[i].requests[rid]);
  }

  lemma MirroredDecision(t: TextWorld, w: World, rid: Rid, request: Request)
    requires Mirrors(t, w)
    ensures SameRequest(t, w, rid)
    ensures Middleware.DecidePayload(Live(t), request.key, request.fingerprint) ==
      Decide(Slot(w, request.key), request.fingerprint)
  {
    assert SameEntry(t, w, request.key);
    hide SameEntry;
    ReadIsRecord(t, w, request.key, request.fingerprint);
  }

  /** A replay read from a text is, status, content type and every byte, what the handler of one
      earlier request returned under the same key and fingerprint. */
  lemma TextReplayFidelity(run: TextRun, rid: Rid, i: nat, response: Response) returns (source: Rid, m: nat)
    requires TimelyTextRun(run) && i < |run.worlds| && rid in run.worlds[i].requests
    requires run.worlds[i].requests[rid].phase == Finished(Decided(Replay(response)))
    ensures source in run.worlds[i].requests
    ensures run.worlds[i].requests[source].key == run.worlds[i].requests[rid].key
    ensures run.worlds[i].requests[source].fingerprint == run.worlds[i].requests[rid].fingerprint
    ensures m < i && run.events[m].HandlerReturns? && run.events[m].rid == source
    ensures var returned := run.events[m];
      response == Response(returned.statusCode, Concatenated(returned.chunks),
                           StoredContentType(returned.mediaType, returned.header))
  {
    TextRunIsRun(run);
    var records := RecordRun(run);
    assert Mirrors(run.worlds[i], records.worlds[i]);
    assert forall r :: SameRequest(run.worlds[i], records.worlds[i], r);
    assert SameRequest(run.worlds[i], records.worlds[i], rid);
    hide Mirrors, ValidTextRun, TimelyTextRun, RecordRun, Concatenated, StoredContentType;
    source, m := ReplayFidelity(records, rid, i);
    assert SameRequest(run.worlds[i], records.worlds[i], source);
  }
}
