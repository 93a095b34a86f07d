/**
 The idempotency middleware as a step machine.  Many requests share one store; every `await`
 is an interleaving point, so each store call is one event.  A request may also be cancelled
 at any point, and time may pass at any point.
 */
module IdempotencyProtocol {
  import opened Wrappers
  import opened IdempotencyRecords

  type Key = string

  type Rid = nat

  /** A stored record; `owner` is the request whose write created or completed it. */
  datatype Entry = Entry(record: Record, expiresAt: nat, owner: Rid)

  datatype Outcome =
    | Decided(decision: Decision)   // replay, 409 or 422 from the begin phase
    | Served                        // handler response returned to the caller
    | Raised                        // exception re-raised after the release
    | Abandoned                     // cancelled; nothing was cleaned up

  datatype Phase =
    | Arrived       // before the first GET
    | Missed        // the first GET found nothing; SET NX is next
    | Contended     // SET NX was refused; the second GET is next
    | Executing     // the handler runs
    | Responding    // the body has been read; the completing SET is next
    | Releasing     // an exception is on its way out; DEL is next
    | Finished(outcome: Outcome)

  /** `acquiredAt`, `produced` and `source` are history: the acquire time, the handler's
      response, and the request whose record was replayed. */
  datatype Request = Request(
    key: Key,
    fingerprint: string,
    phase: Phase,
    acquiredAt: Option<nat>,
    produced: Option<Response>,
    source: Option<Rid>)

  datatype Tally = Tally(acquired: nat, released: nat, expired: nat)

  datatype World = World(
    now: nat,
    entries: map<Key, Entry>,
    requests: map<Rid, Request>,
    tallies: map<Key, Tally>)

  datatype Event =
    | Arrive(rid: Rid, key: Key, fingerprint: string)
    | Get(rid: Rid)
    | SetNx(rid: Rid)
    | GetAgain(rid: Rid)
    | HandlerReturns(rid: Rid, statusCode: int, mediaType: Option<string>, header: Option<string>, chunks: seq<Bytes>)
    | HandlerRaises(rid: Rid)
    | Complete(rid: Rid)
    | CompleteFails(rid: Rid, applied: bool)   // the SET raised, before or after it took effect
    | Release(rid: Rid)
    | Crash(rid: Rid)                          // cancellation, or an error nothing catches
    | Tick(elapsed: nat)

  predicate BeginPhase(phase: Phase) {
    phase.Arrived? || phase.Missed? || phase.Contended?
  }

  /** Between acquiring the key and having completed or released it. */
  predicate Holding(phase: Phase) {
    phase.Executing? || phase.Responding? || phase.Releasing?
  }

  function Slot(w: World, key: Key): Option<Record> {
    if key in w.entries then Some(w.entries[key].record) else None
  }

  function TallyOf(w: World, key: Key): Tally {
    if key in w.tallies then w.tallies[key] else Tally(0, 0, 0)
  }

  predicate At(w: World, rid: Rid, phase: Phase) {
    rid in w.requests && w.requests[rid].phase == phase
  }

  predicate Enabled(w: World, e: Event) {
    match e
    case Arrive(rid, _, _) => rid !in w.requests
    case Get(rid) => At(w, rid, Arrived)
    case SetNx(rid) => At(w, rid, Missed)
    case GetAgain(rid) => At(w, rid, Contended)
    case HandlerReturns(rid, _, _, _, _) => At(w, rid, Executing)
    case HandlerRaises(rid) => At(w, rid, Executing)
    case Complete(rid) => At(w, rid, Responding) && w.requests[rid].produced.Some?
    case CompleteFails(rid, _) => At(w, rid, Responding) && w.requests[rid].produced.Some?
    case Release(rid) => At(w, rid, Releasing)
    case Crash(rid) => rid in w.requests && !w.requests[rid].phase.Finished?
    case Tick(_) => true
  }

  function Put(w: World, rid: Rid, request: Request): World {
    w.(requests := w.requests[rid := request])
  }

  function Enter(w: World, rid: Rid, phase: Phase): World
    requires rid in w.requests
  {
    Put(w, rid, w.requests[rid].(phase := phase))
  }

  /** The begin phase ends with the decision taken from a record it has read. */
  function Resolve(w: World, rid: Rid): World
    requires rid in w.requests && w.requests[rid].key in w.entries
  {
    var request := w.requests[rid];
    var entry := w.entries[request.key];
    var decision := ResolveExisting(entry.record, request.fingerprint);
    Put(w, rid, request.(phase := Finished(Decided(decision)),
                         source := if decision.Replay? then Some(entry.owner) else None))
  }

  function Acquire(ttl: nat, w: World, rid: Rid): World
    requires rid in w.requests
  {
    var request := w.requests[rid];
    var tally := TallyOf(w, request.key);
    World(w.now,
          w.entries[request.key := Entry(InProgressRecord(request.fingerprint), w.now + ttl, rid)],
          w.requests[rid := request.(phase := Executing, acquiredAt := Some(w.now))],
          w.tallies[request.key := tally.(acquired := tally.acquired + 1)])
  }

  /** SET with EX but without NX: it overwrites whatever is stored. */
  function Store(ttl: nat, w: World, rid: Rid): World
    requires rid in w.requests && w.requests[rid].produced.Some?
  {
    var request := w.requests[rid];
    w.(entries := w.entries[request.key :=
      Entry(CompletedRecord(request.fingerprint, request.produced.value), w.now + ttl, rid)])
  }

  /** DEL: it removes whatever is stored. */
  function Delete(w: World, rid: Rid): World
    requires rid in w.requests
  {
    var key := w.requests[rid].key;
    var tally := TallyOf(w, key);
    w.(entries := w.entries - {key}, tallies := w.tallies[key := tally.(released := tally.released + 1)])
  }

  /** Time passes, and the store drops every entry whose time to live has run out. */
  function Pass(w: World, elapsed: nat): World {
    var now := w.now + elapsed;
    World(now,
          map key | key in w.entries && now < w.entries[key].expiresAt :: w.entries[key],
          w.requests,
          map key | key in w.tallies.Keys + w.entries.Keys ::
            var tally := TallyOf(w, key);
            if key in w.entries && w.entries[key].expiresAt <= now
            then tally.(expired := tally.expired + 1)
            else tally)
  }

  function Apply(ttl: nat, w: World, e: Event): World
    requires Enabled(w, e)
  {
    match e
    case Arrive(rid, key, fingerprint) =>
      Put(w, rid, Request(key, fingerprint, Arrived, None, None, None))
    case Get(rid) =>
      if w.requests[rid].key in w.entries then Resolve(w, rid) else Enter(w, rid, Missed)
    case SetNx(rid) =>
      if w.requests[rid].key in w.entries then Enter(w, rid, Contended) else Acquire(ttl, w, rid)
    case GetAgain(rid) =>
      if w.requests[rid].key in w.entries then Resolve(w, rid)
      else Enter(w, rid, Finished(Decided(RequestInProgress)))
    case HandlerReturns(rid, statusCode, mediaType, header, chunks) =>
      Put(w, rid, w.requests[rid].(
        phase := Responding,
        produced := Some(Response(statusCode, Concatenated(chunks), StoredContentType(mediaType, header)))))
    case HandlerRaises(rid) => Enter(w, rid, Releasing)
    case Complete(rid) => Enter(Store(ttl, w, rid), rid, Finished(Served))
    case CompleteFails(rid, applied) =>
      Enter(if applied then Store(ttl, w, rid) else w, rid, Releasing)
    case Release(rid) => Enter(Delete(w, rid), rid, Finished(Raised))
    case Crash(rid) => Enter(w, rid, Finished(Abandoned))
    case Tick(elapsed) => Pass(w, elapsed)
  }

  const EMPTY_WORLD := World(0, map[], map[], map[])

  /** A run: `worlds[i + 1]` is what `events[i]` makes of `worlds[i]`. */
  datatype Run = Run(ttl: nat, worlds: seq<World>, events: seq<Event>)

  ghost predicate ValidRun(run: Run) {
    && run.ttl > 0
    && |run.worlds| == |run.events| + 1
    && run.worlds[0] == EMPTY_WORLD
    && forall i | 0 <= i < |run.events| ::
      Enabled(run.worlds[i], run.events[i]) && run.worlds[i + 1] == Apply(run.ttl, run.worlds[i], run.events[i])
  }

  /** The time assumption: no live holder has used up the time to live of its acquire. */
  ghost predicate Timely(ttl: nat, w: World) {
    forall rid | rid in w.requests ::
      Holding(w.requests[rid].phase) && w.requests[rid].acquiredAt.Some? ==>
        w.now < w.requests[rid].acquiredAt.value + ttl
  }

  ghost predicate TimelyRun(run: Run) {
    forall i | 0 <= i < |run.worlds| :: Timely(run.ttl, run.worlds[i])
  }
}
