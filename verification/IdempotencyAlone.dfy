/** A request that nothing interleaves with: the step machine does what the middleware does. */
module IdempotencyAlone {
  import opened Wrappers
  import opened IdempotencyRecords
  import opened IdempotencyProtocol
  import opened IdempotencySafety
  import opened IdempotencyCodec
  import Middleware = IdempotencyMiddleware

  ghost function Perform(ttl: nat, w: World, events: seq<Event>): Option<World>
    decreases events
  {
    if events == [] then Some(w)
    else if !Enabled(w, events[0]) then None
    else Perform(ttl, Apply(ttl, w, events[0]), events[1..])
  }

  /** The steps of one request, from its arrival to its end. */
  function StepsOf(w: World, rid: Rid, handler: Middleware.Handler): seq<Event>
    requires rid in w.requests
  {
    if w.requests[rid].key in w.entries then [Get(rid)]
    else
      match handler
      case Responds(statusCode, mediaType, header, chunks) =>
        [Get(rid), SetNx(rid), HandlerReturns(rid, statusCode, mediaType, header, chunks), Complete(rid)]
      case Raises => [Get(rid), SetNx(rid), HandlerRaises(rid), Release(rid)]
  }

  /** What is stored, as texts. */
  ghost function Payloads(w: World): map<string, string> {
    map key | key in w.entries :: Serialized(w.entries[key].record)
  }

  /** What the caller of a finished request got. */
  function Answer(request: Request): Option<Middleware.Outcome> {
    match request.phase
    case Finished(Decided(Replay(response))) => Some(Middleware.Replayed(response))
    case Finished(Decided(decision)) => Some(Middleware.Refused(decision))
    case Finished(Served) => if request.produced.Some? then Some(Middleware.Served(request.produced.value)) else None
    case Finished(Raised) => Some(Middleware.Reraised)
    case _ => None
  }

  /** The decision taken from the stored text is the one taken from the record. */
  lemma StoredRecordIsRead(w: World, key: Key, fingerprint: string)
    requires EntryOk(w, key)
    ensures Middleware.DecidePayload(Payloads(w), key, fingerprint) == Decide(Slot(w, key), fingerprint)
  {
    if key in w.entries {
      DecisionSurvivesStoring(w.entries[key].record, fingerprint);
    }
    hide Serialized, Deserialized;
  }

  lemma OneStep(ttl: nat, w: World, e: Event)
    requires Enabled(w, e)
    ensures Perform(ttl, w, [e]) == Some(Apply(ttl, w, e))
  {
    var none: seq<Event> := [];
    assert [e][1..] == none;
    hide Apply, Enabled;
  }

  lemma TwoSteps(ttl: nat, w: World, e: Event, f: Event)
    requires Enabled(w, e) && Enabled(Apply(ttl, w, e), f)
    ensures Perform(ttl, w, [e, f]) == Some(Apply(ttl, Apply(ttl, w, e), f))
  {
    assert [e, f][1..] == [f];
    OneStep(ttl, Apply(ttl, w, e), f);
    hide Apply, Enabled;
  }

  lemma FourSteps(ttl: nat, w: World, e: Event, f: Event, g: Event, h: Event)
    requires Enabled(w, e) && Enabled(Apply(ttl, w, e), f)
    requires var w2 := Apply(ttl, Apply(ttl, w, e), f); Enabled(w2, g) && Enabled(Apply(ttl, w2, g), h)
    ensures var w2 := Apply(ttl, Apply(ttl, w, e), f);
      Perform(ttl, w, [e, f, g, h]) == Some(Apply(ttl, Apply(ttl, w2, g), h))
  {
    hide Apply, Enabled;
    assert [e, f, g, h][1..] == [f, g, h] && [f, g, h][1..] == [g, h];
    TwoSteps(ttl, Apply(ttl, Apply(ttl, w, e), f), g, h);
  }

  // One stretch of the way at a time

  lemma Resolved(ttl: nat, w: World, rid: Rid)
    requires At(w, rid, Arrived) && w.requests[rid].key in w.entries
    ensures var w' := Apply(ttl, w, Get(rid));
      && w'.entries == w.entries && rid in w'.requests
      && var decision := ResolveExisting(w.entries[w.requests[rid].key].record, w.requests[rid].fingerprint);
        w'.requests[rid].phase == Finished(Decided(decision))
  {
    hide ResolveExisting;
  }

  lemma Acquired(ttl: nat, w: World, rid: Rid)
    requires At(w, rid, Arrived) && w.requests[rid].key !in w.entries
    ensures var w1 := Apply(ttl, w, Get(rid));
      && Enabled(w1, SetNx(rid))
      && var w2, request := Apply(ttl, w1, SetNx(rid)), w.requests[rid];
        && At(w2, rid, Executing)
        && w2.requests[rid].key == request.key && w2.requests[rid].fingerprint == request.fingerprint
        && w2.entries == w.entries[request.key := Entry(InProgressRecord(request.fingerprint), w.now + ttl, rid)]
  {
  }

  lemma HandlerServes(ttl: nat, w: World, rid: Rid, handler: Middleware.Handler)
    requires At(w, rid, Executing) && handler.Responds?
    ensures var returned := HandlerReturns(rid, handler.statusCode, handler.mediaType, handler.header, handler.chunks);
      var w1 := Apply(ttl, w, returned);
      && Enabled(w1, Complete(rid))
      && var w2, request, response := Apply(ttl, w1, Complete(rid)), w.requests[rid], Middleware.ResponseOf(handler);
        && rid in w2.requests
        && w2.requests[rid].phase == Finished(Served)
        && w2.requests[rid].produced == Some(response)
        && w2.entries ==
           w.entries[request.key := Entry(CompletedRecord(request.fingerprint, response), w.now + ttl, rid)]
  {
    hide Concatenated, StoredContentType;
  }

  lemma HandlerFails(ttl: nat, w: World, rid: Rid)
    requires At(w, rid, Executing)
    ensures var w1 := Apply(ttl, w, HandlerRaises(rid));
      && Enabled(w1, Release(rid))
      && var w2 := Apply(ttl, w1, Release(rid));
        && rid in w2.requests && w2.requests[rid].phase == Finished(Raised)
        && w2.entries == w.entries - {w.requests[rid].key}
  {
  }

  lemma PayloadOfEntry(w: World, w': World, key: Key, entry: Entry)
    requires w'.entries == w.entries[key := entry]
    ensures Payloads(w') == Payloads(w)[key := Serialized(entry.record)]
  {
    hide Serialized;
  }

  lemma SamePayloads(w: World, w': World)
    requires w'.entries == w.entries
    ensures Payloads(w') == Payloads(w)
  {
    hide Serialized;
  }

  /** The middleware in one go: the same payloads, and the same answer. */
  ghost predicate AsHandled(w: World, rid: Rid, handler: Middleware.Handler, after: Option<World>)
    requires rid in w.requests
  {
    var request := w.requests[rid];
    var (stored, answer) := Middleware.Handled(Payloads(w), request.key, request.fingerprint, handler);
    && after.Some? && Payloads(after.value) == stored
    && rid in after.value.requests && Answer(after.value.requests[rid]) == Some(answer)
  }

  lemma ResolvedIsHandled(w: World, w': World, rid: Rid, handler: Middleware.Handler)
    requires rid in w.requests && EntryOk(w, w.requests[rid].key) && w.requests[rid].key in w.entries
    requires rid in w'.requests && w'.entries == w.entries
    requires var request := w.requests[rid];
      w'.requests[rid].phase == Finished(Decided(ResolveExisting(w.entries[request.key].record, request.fingerprint)))
    ensures AsHandled(w, rid, handler, Some(w'))
  {
    var request := w.requests[rid];
    StoredRecordIsRead(w, request.key, request.fingerprint);
    SamePayloads(w, w');
    ResolvingNeverProceeds(w.entries[request.key].record, request.fingerprint);
    hide Payloads, ResolveExisting, EntryOk, Middleware.DecidePayload, Middleware.ResponseOf, Serialized;
  }

  lemma AbsentIsServed(payloads: map<string, string>, key: Key, fingerprint: string, handler: Middleware.Handler)
    requires key !in payloads && handler.Responds?
    ensures var response := Middleware.ResponseOf(handler);
      Middleware.Handled(payloads, key, fingerprint, handler) ==
        (payloads[key := Serialized(CompletedRecord(fingerprint, response))], Middleware.Served(response))
  {
    hide Serialized, Deserialized, Middleware.ResponseOf;
  }

  lemma ServedIsHandled(w: World, w': World, rid: Rid, handler: Middleware.Handler, entry: Entry)
    requires rid in w.requests && w.requests[rid].key !in w.entries && handler.Responds? && rid in w'.requests
    requires var request := w.requests[rid];
      && w'.entries == w.entries[request.key := entry]
      && entry.record == CompletedRecord(request.fingerprint, Middleware.ResponseOf(handler))
    requires w'.requests[rid].phase == Finished(Served)
    requires w'.requests[rid].produced == Some(Middleware.ResponseOf(handler))
    ensures AsHandled(w, rid, handler, Some(w'))
  {
    assert w.requests[rid].key !in Payloads(w);
    PayloadOfEntry(w, w', w.requests[rid].key, entry);
    AbsentIsServed(Payloads(w), w.requests[rid].key, w.requests[rid].fingerprint, handler);
    hide Payloads, Serialized, Middleware.Handled, Middleware.ResponseOf;
  }

  lemma RaisedIsHandled(w: World, w': World, rid: Rid)
    requires rid in w.requests && w.requests[rid].key !in w.entries && rid in w'.requests
    requires w'.entries == w.entries && w'.requests[rid].phase == Finished(Raised)
    ensures AsHandled(w, rid, Middleware.Raises, Some(w'))
  {
    assert w.requests[rid].key !in Payloads(w);
    SamePayloads(w, w');
    hide Payloads;
  }

  /** A request that finds its key present is answered from what is stored. */
  lemma PresentIsAnswered(ttl: nat, w: World, rid: Rid, handler: Middleware.Handler)
    requires Inv(ttl, w) && At(w, rid, Arrived) && w.requests[rid].key in w.entries
    ensures AsHandled(w, rid, handler, Perform(ttl, w, StepsOf(w, rid, handler)))
  {
    assert EntryOk(w, w.requests[rid].key);
    hide Inv, EntryOk, Perform, AsHandled;
    OneStep(ttl, w, Get(rid));
    Resolved(ttl, w, rid);
    hide Apply, ResolveExisting;
    ResolvedIsHandled(w, Apply(ttl, w, Get(rid)), rid, handler);
  }

  /** A request that finds its key absent runs the handler, and stores its response. */
  lemma AbsentIsExecuted(ttl: nat, w: World, rid: Rid, handler: Middleware.Handler)
    requires At(w, rid, Arrived) && w.requests[rid].key !in w.entries && handler.Responds?
    ensures AsHandled(w, rid, handler, Perform(ttl, w, StepsOf(w, rid, handler)))
  {
    var returned := HandlerReturns(rid, handler.statusCode, handler.mediaType, handler.header, handler.chunks);
    hide Perform, AsHandled, Apply;
    Acquired(ttl, w, rid);
    var w2 := Apply(ttl, Apply(ttl, w, Get(rid)), SetNx(rid));
    HandlerServes(ttl, w2, rid, handler);
    FourSteps(ttl, w, Get(rid), SetNx(rid), returned, Complete(rid));
    hide Enabled;
    var w4 := Apply(ttl, Apply(ttl, w2, returned), Complete(rid));
    assert w4.entries == w.entries[w.requests[rid].key := w4.entries[w.requests[rid].key]];
    ServedIsHandled(w, w4, rid, handler, w4.entries[w.requests[rid].key]);
  }

  /** And if the handler raises, it leaves nothing. */
  lemma AbsentIsReleased(ttl: nat, w: World, rid: Rid)
    requires At(w, rid, Arrived) && w.requests[rid].key !in w.entries
    ensures AsHandled(w, rid, Middleware.Raises, Perform(ttl, w, StepsOf(w, rid, Middleware.Raises)))
  {
    hide Perform, AsHandled, Apply;
    Acquired(ttl, w, rid);
    var w2 := Apply(ttl, Apply(ttl, w, Get(rid)), SetNx(rid));
    HandlerFails(ttl, w2, rid);
    FourSteps(ttl, w, Get(rid), SetNx(rid), HandlerRaises(rid), Release(rid));
    hide Enabled;
    var w4 := Apply(ttl, Apply(ttl, w2, HandlerRaises(rid)), Release(rid));
    assert w4.entries == w.entries;
    RaisedIsHandled(w, w4, rid);
  }

  /** Alone, the steps of a request amount to what the middleware does in one go, in every state
      the machine can be in. */
  lemma AloneIsHandled(ttl: nat, w: World, rid: Rid, handler: Middleware.Handler)
    requires Inv(ttl, w) && At(w, rid, Arrived)
    ensures AsHandled(w, rid, handler, Perform(ttl, w, StepsOf(w, rid, handler)))
  {
    hide Perform, StepsOf, AsHandled, Inv;
    if w.requests[rid].key in w.entries {
      PresentIsAnswered(ttl, w, rid, handler);
    } else if handler.Responds? {
      AbsentIsExecuted(ttl, w, rid, handler);
    } else {
      AbsentIsReleased(ttl, w, rid);
    }
  }
}
