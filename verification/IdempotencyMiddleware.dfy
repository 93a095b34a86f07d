/** The middleware run by one request with nothing interleaved, over the string-payload store. */
module IdempotencyMiddleware {
  import opened Wrappers
  import opened IdempotencyRecords
  import opened IdempotencyCodec
  import opened IdempotencyStores
  import opened RequestIdentity
  import Query = QueryCanonical
  import Text

  // Reading the header

  function ReadIdempotencyKey(raw: Option<string>, maxKeyLength: nat): Option<string> {
    match raw
    case None => None
    case Some(text) =>
      var key := Text.Strip(text);
      if key == "" || |key| > maxKeyLength then None else Some(key)
  }

  predicate Trimmed(key: string) {
    key != "" && !Text.IsBlank(key[0]) && !Text.IsBlank(key[|key| - 1])
  }

  /** Blanks around a key do not matter, and a trimmed key is accepted up to the length limit. */
  lemma KeyIsTrimmed(left: string, key: string, right: string, maxKeyLength: nat)
    requires Text.AllBlank(left) && Text.AllBlank(right) && Trimmed(key)
    ensures ReadIdempotencyKey(Some(left + key + right), maxKeyLength) ==
      if |key| <= maxKeyLength then Some(key) else None
  {
    assert left + key + right == left + (key + right);
    Text.StripLeftPadding(left, key + right);
    assert (key + right)[0] == key[0];
    Text.StripRightPadding(key, right);
  }

  // The begin phase

  /** The decision taken from what is stored; a payload that does not decode refuses. */
  function DecidePayload(payloads: map<string, string>, scopeKey: string, fingerprint: string): Decision {
    if scopeKey !in payloads then Proceed
    else
      match Deserialized(payloads[scopeKey])
      case None => RequestInProgress
      case Some(existing) => ResolveExisting(existing, fingerprint)
  }

  method BeginIdempotency(store: ValkeyIdempotencyStore, scopeKey: string, fingerprint: string, ttlSeconds: nat)
    returns (decision: Decision)
    requires ttlSeconds > 0
    modifies store.client`keyspace
    ensures decision == DecidePayload(old(store.Payloads()), scopeKey, fingerprint)
    ensures store.Payloads() ==
      if decision == Proceed then old(store.Payloads())[scopeKey := Serialized(InProgressRecord(fingerprint))]
      else old(store.Payloads())
  {
    hide Serialized, Deserialized;
    var existing := store.Get(scopeKey);
    if existing.None? {
      var acquired := store.TryAcquire(scopeKey, fingerprint, ttlSeconds);
      if acquired {
        return Proceed;
      }
      existing := store.Get(scopeKey);
      if existing.None? {
        return RequestInProgress;
      }
    }
    decision := ResolveExisting(existing.value, fingerprint);
  }

  // The driver

  method ReadResponseBody(chunks: seq<Bytes>) returns (body: Bytes)
    ensures body == Concatenated(chunks)
  {
    body := [];
    for i := 0 to |chunks|
      invariant body == Concatenated(chunks[..i])
    {
      ConcatenatedAppend(chunks[..i], chunks[i]);
      assert chunks[..i] + [chunks[i]] == chunks[..i + 1];
      body := body + chunks[i];
    }
    assert chunks[..|chunks|] == chunks;
  }

  datatype Settings = Settings(enabled: bool, ttlSeconds: nat, maxKeyLength: nat)

  datatype HttpRequest = HttpRequest(
    method_: string, path: string, query: string, body: Bytes, keyHeader: Option<string>, principal: Option<Uuid>)

  /** What the wrapped application does with the request. */
  datatype Handler =
    | Responds(statusCode: int, mediaType: Option<string>, header: Option<string>, chunks: seq<Bytes>)
    | Raises

  datatype Outcome =
    | PassedThrough
    | KeyInvalid
    | Refused(decision: Decision)
    | Replayed(response: Response)
    | Served(response: Response)
    | Reraised

  predicate IsIdempotentMethod(method_: string) {
    Text.Upper(method_) in {"POST", "PUT", "PATCH", "DELETE"}
  }

  predicate IsIdempotentPath(path: string) {
    !("/health" <= path) && path != "/auth/login"
  }

  function ResponseOf(handler: Handler): Response
    requires handler.Responds?
  {
    Response(handler.statusCode, Concatenated(handler.chunks), StoredContentType(handler.mediaType, handler.header))
  }

  /** What one request under a scope key does to the stored payloads, and what it answers. */
  function Handled(payloads: map<string, string>, scopeKey: string, fingerprint: string, handler: Handler)
    : (map<string, string>, Outcome)
  {
    match DecidePayload(payloads, scopeKey, fingerprint)
    case Replay(response) => (payloads, Replayed(response))
    case RequestInProgress => (payloads, Refused(RequestInProgress))
    case KeyMismatch => (payloads, Refused(KeyMismatch))
    case Proceed =>
      if handler.Raises? then (payloads, Reraised)
      else (payloads[scopeKey := Serialized(CompletedRecord(fingerprint, ResponseOf(handler)))],
            Served(ResponseOf(handler)))
  }

  /** Whether the request comes under the protocol at all, and with which key. */
  function Admission(settings: Settings, request: HttpRequest): Option<Option<string>> {
    if !settings.enabled || !IsIdempotentMethod(request.method_) || !IsIdempotentPath(request.path) then None
    else if request.keyHeader.None? then None
    else Some(ReadIdempotencyKey(request.keyHeader, settings.maxKeyLength))
  }

  /** What the holder of the key does: run the handler, then complete or release. */
  method RunHandler(store: ValkeyIdempotencyStore, scopeKey: string, fingerprint: string, ttlSeconds: nat,
                    handler: Handler)
    returns (outcome: Outcome)
    requires ttlSeconds > 0
    modifies store.client`keyspace
    ensures handler.Raises? ==> outcome == Reraised && store.Payloads() == old(store.Payloads()) - {scopeKey}
    ensures handler.Responds? ==>
      && outcome == Served(ResponseOf(handler))
      && store.Payloads() ==
         old(store.Payloads())[scopeKey := Serialized(CompletedRecord(fingerprint, ResponseOf(handler)))]
  {
    hide Serialized;
    if handler.Raises? {
      store.Release(scopeKey);
      return Reraised;
    }
    var body := ReadResponseBody(handler.chunks);
    var response := Response(handler.statusCode, body, StoredContentType(handler.mediaType, handler.header));
    store.Complete(scopeKey, fingerprint, response, ttlSeconds);
    outcome := Served(response);
  }

  /** What the middleware does with one request: the stored payloads, and the outcome. */
  function Handling(settings: Settings, digest: Bytes -> string, payloads: map<string, string>, request: HttpRequest,
                    handler: Handler): (map<string, string>, Outcome)
  {
    match Admission(settings, request)
    case None => (payloads, PassedThrough)
    case Some(None) => (payloads, KeyInvalid)
    case Some(Some(key)) =>
      Handled(payloads, BuildScopeKey(request.principal, key),
              Fingerprint(digest, request.method_, request.path, request.query, request.body), handler)
  }

  lemma MethodIsSpelled(method_: string)
    ensures IsIdempotentMethod(method_) <==>
      || Text.Spelled(method_, "POST", "post") || Text.Spelled(method_, "PUT", "put")
      || Text.Spelled(method_, "PATCH", "patch") || Text.Spelled(method_, "DELETE", "delete")
  {
    Text.UpperIsSpelled(method_, "POST", "post");
    Text.UpperIsSpelled(method_, "PUT", "put");
    Text.UpperIsSpelled(method_, "PATCH", "patch");
    Text.UpperIsSpelled(method_, "DELETE", "delete");
    hide Text.Upper, Text.Spelled;
  }

  /** Whom the protocol does not concern, and who gives no usable key; neither changes what is
      stored. */
  lemma PassesThroughExactlyIf(settings: Settings, digest: Bytes -> string, payloads: map<string, string>,
                               request: HttpRequest, handler: Handler)
    ensures var (stored, outcome) := Handling(settings, digest, payloads, request, handler);
      var method_, path, header := request.method_, request.path, request.keyHeader;
      && (outcome.PassedThrough? <==>
            || !settings.enabled
            || !(|| Text.Spelled(method_, "POST", "post") || Text.Spelled(method_, "PUT", "put")
                 || Text.Spelled(method_, "PATCH", "patch") || Text.Spelled(method_, "DELETE", "delete"))
            || "/health" <= path || path == "/auth/login" || header.None?)
      && (outcome.KeyInvalid? <==>
            && !outcome.PassedThrough?
            && exists key :: Text.TrimsTo(header.value, key) && (key == "" || |key| > settings.maxKeyLength))
      && (outcome.PassedThrough? || outcome.KeyInvalid? ==> stored == payloads)
  {
    MethodIsSpelled(request.method_);
    hide IsIdempotentMethod, Text.Spelled, DecidePayload, BuildScopeKey, Fingerprint, Serialized, Text.Strip;
    if request.keyHeader.Some? {
      var header := request.keyHeader.value;
      Text.StripIs(header, Text.Strip(header));
      forall key | Text.TrimsTo(header, key) ensures key == Text.Strip(header) {
        Text.StripIs(header, key);
      }
    }
  }

  /** Every other request comes under its trimmed key. A slot without a payload runs the handler,
      and keeps what it responds; a payload is answered from, and stays. */
  lemma KeyedRequestIsHandled(settings: Settings, digest: Bytes -> string, payloads: map<string, string>,
                              request: HttpRequest, handler: Handler, key: string)
    requires !Handling(settings, digest, payloads, request, handler).1.PassedThrough?
    requires !Handling(settings, digest, payloads, request, handler).1.KeyInvalid?
    requires request.keyHeader.Some? && Text.TrimsTo(request.keyHeader.value, key)
    ensures var (stored, outcome) := Handling(settings, digest, payloads, request, handler);
      var slot := BuildScopeKey(request.principal, key);
      var fingerprint := Fingerprint(digest, request.method_, request.path, request.query, request.body);
      && (slot !in payloads && handler.Raises? ==> outcome == Reraised && stored == payloads)
      && (slot !in payloads && handler.Responds? ==>
            && outcome.Served?
            && outcome.response.statusCode == handler.statusCode
            && outcome.response.body == Concatenated(handler.chunks)
            && outcome.response.contentType == StoredContentType(handler.mediaType, handler.header)
            && stored == payloads[slot := Serialized(CompletedRecord(fingerprint, outcome.response))])
      && (slot in payloads ==>
            && stored == payloads
            && var existing := Deserialized(payloads[slot]);
              if existing.None? || existing.value.state == InProgress then outcome == Refused(RequestInProgress)
              else if existing.value.fingerprint != fingerprint then outcome == Refused(KeyMismatch)
              else if existing.value.statusCode.None? || existing.value.body.None? then
                outcome == Refused(RequestInProgress)
              else
                && outcome.Replayed?
                && outcome.response.statusCode == existing.value.statusCode.value
                && outcome.response.body == existing.value.body.value
                && outcome.response.contentType ==
                   if existing.value.contentType in {None, Some("")} then "application/json"
                   else existing.value.contentType.value)
  {
    Text.StripIs(request.keyHeader.value, key);
    hide IsIdempotentMethod, Text.Strip, Text.TrimsTo, Serialized, Deserialized, BuildScopeKey, Fingerprint,
      StoredContentType, Concatenated;
  }

  lemma ProceedsIffAbsent(payloads: map<string, string>, scopeKey: string, fingerprint: string)
    ensures DecidePayload(payloads, scopeKey, fingerprint) == Proceed <==> scopeKey !in payloads
  {
    hide Deserialized;
  }

  /** From the decision on. */
  method HandleKeyed(store: ValkeyIdempotencyStore, scopeKey: string, fingerprint: string, ttlSeconds: nat,
                     handler: Handler)
    returns (outcome: Outcome)
    requires ttlSeconds > 0
    modifies store.client`keyspace
    ensures (store.Payloads(), outcome) == Handled(old(store.Payloads()), scopeKey, fingerprint, handler)
  {
    hide Serialized, Deserialized, ResolveExisting;
    ghost var before := store.Payloads();
    var decision := BeginIdempotency(store, scopeKey, fingerprint, ttlSeconds);
    match decision {
      case RequestInProgress => return Refused(decision);
      case KeyMismatch => return Refused(decision);
      case Replay(response) => return Replayed(response);
      case Proceed =>
    }
    ProceedsIffAbsent(before, scopeKey, fingerprint);
    outcome := RunHandler(store, scopeKey, fingerprint, ttlSeconds, handler);
    if handler.Raises? {
      assert store.Payloads() == before;
    } else {
      assert store.Payloads() ==
        before[scopeKey := Serialized(CompletedRecord(fingerprint, ResponseOf(handler)))];
    }
  }

  method Handle(settings: Settings, digest: Bytes -> string, request: HttpRequest, store: ValkeyIdempotencyStore,
                handler: Handler)
    returns (outcome: Outcome)
    requires settings.ttlSeconds > 0
    modifies store.client`keyspace
    ensures (store.Payloads(), outcome) == Handling(settings, digest, old(store.Payloads()), request, handler)
    ensures outcome.PassedThrough? <==>
      || !settings.enabled
      || !(|| Text.Spelled(request.method_, "POST", "post") || Text.Spelled(request.method_, "PUT", "put")
           || Text.Spelled(request.method_, "PATCH", "patch") || Text.Spelled(request.method_, "DELETE", "delete"))
      || "/health" <= request.path || request.path == "/auth/login" || request.keyHeader.None?
    ensures outcome.KeyInvalid? <==>
      && !outcome.PassedThrough?
      && exists key :: Text.TrimsTo(request.keyHeader.value, key) && (key == "" || |key| > settings.maxKeyLength)
  {
    PassesThroughExactlyIf(settings, digest, store.Payloads(), request, handler);
    hide Handled, IsIdempotentMethod, IsIdempotentPath, BuildScopeKey, Fingerprint, Text.Strip, Text.Spelled,
      Text.TrimsTo;
    if !settings.enabled {
      return PassedThrough;
    }
    if !IsIdempotentMethod(request.method_) || !IsIdempotentPath(request.path) {
      return PassedThrough;
    }
    var key := ReadIdempotencyKey(request.keyHeader, settings.maxKeyLength);
    if key.None? {
      if request.keyHeader.Some? {
        return KeyInvalid;
      }
      return PassedThrough;
    }
    var fingerprint := Fingerprint(digest, request.method_, request.path, request.query, request.body);
    var scopeKey := BuildScopeKey(request.principal, key.value);
    outcome := HandleKeyed(store, scopeKey, fingerprint, settings.ttlSeconds, handler);
  }

  /** A served response is replayed to every later request with the same fingerprint, byte for
      byte, and refuses every other fingerprint; neither changes what is stored. */
  lemma ServedIsReplayed(payloads: map<string, string>, scopeKey: string, f: string, g: string, first: Handler,
                         second: Handler)
    requires Handled(payloads, scopeKey, f, first).1.Served?
    ensures var (stored, outcome) := Handled(payloads, scopeKey, f, first);
      Handled(stored, scopeKey, g, second) ==
      (stored, if f == g then Replayed(outcome.response) else Refused(KeyMismatch))
  {
    hide Serialized, Deserialized;
    ProceedsIffAbsent(payloads, scopeKey, f);
    RoundTrip(CompletedRecord(f, ResponseOf(first)));
    assert StoredContentType(first.mediaType, first.header) != "";
  }

  lemma PostIsAdmitted(settings: Settings, request: HttpRequest, key: string)
    requires settings.enabled && 0 < |key| <= settings.maxKeyLength
    requires Text.Spelled(request.method_, "POST", "post")
    requires !("/health" <= request.path) && request.path != "/auth/login"
    requires request.keyHeader.Some? && Text.TrimsTo(request.keyHeader.value, key)
    ensures Admission(settings, request) == Some(Some(key))
  {
    MethodIsSpelled(request.method_);
    Text.StripIs(request.keyHeader.value, key);
    hide IsIdempotentMethod, Text.Strip, Text.TrimsTo;
  }

  /** Sending a POST a second time, with one key and the same content, gives the first one's
      response, byte for byte, whatever the handler would do; and the handler is not run. */
  lemma RetriedPostIsReplayed(settings: Settings, digest: Bytes -> string, payloads: map<string, string>, key: string,
                              first: HttpRequest, second: HttpRequest, handler: Handler, other: Handler)
    requires settings.enabled && 0 < |key| <= settings.maxKeyLength
    requires Text.Spelled(first.method_, "POST", "post") && Text.Spelled(second.method_, "POST", "post")
    requires first.path == second.path && !("/health" <= first.path) && first.path != "/auth/login"
    requires first.keyHeader.Some? && Text.TrimsTo(first.keyHeader.value, key)
    requires second.keyHeader.Some? && Text.TrimsTo(second.keyHeader.value, key)
    requires first.principal == second.principal && first.body == second.body
    requires multiset(Query.ParseQuery(first.query)) == multiset(Query.ParseQuery(second.query))
    requires BuildScopeKey(first.principal, key) !in payloads && handler.Responds?
    ensures var (stored, served) := Handling(settings, digest, payloads, first, handler);
      && served.Served?
      && served.response.statusCode == handler.statusCode && served.response.body == Concatenated(handler.chunks)
      && served.response.contentType == StoredContentType(handler.mediaType, handler.header)
      && Handling(settings, digest, stored, second, other) == (stored, Replayed(served.response))
  {
    SameFingerprint(digest, first, second);
    PostIsAdmitted(settings, first, key);
    PostIsAdmitted(settings, second, key);
    var slot := BuildScopeKey(first.principal, key);
    var fingerprint := Fingerprint(digest, first.method_, first.path, first.query, first.body);
    ProceedsIffAbsent(payloads, slot, fingerprint);
    ServedIsReplayed(payloads, slot, fingerprint, fingerprint, handler, other);
    hide Admission, DecidePayload, Text.TrimsTo, Text.Spelled, Serialized, BuildScopeKey, Fingerprint, Query.ParseQuery,
      StoredContentType, Concatenated;
  }

  lemma SameFingerprint(digest: Bytes -> string, first: HttpRequest, second: HttpRequest)
    requires Text.Spelled(first.method_, "POST", "post") && Text.Spelled(second.method_, "POST", "post")
    requires first.path == second.path && first.body == second.body
    requires multiset(Query.ParseQuery(first.query)) == multiset(Query.ParseQuery(second.query))
    ensures Fingerprint(digest, first.method_, first.path, first.query, first.body) ==
      Fingerprint(digest, second.method_, second.path, second.query, second.body)
  {
    Text.UpperIsSpelled(first.method_, "POST", "post");
    Text.UpperIsSpelled(second.method_, "POST", "post");
    Query.SameFormIffSamePairs(first.query, second.query);
    hide Text.Upper, Text.Spelled, Text.Joined, Latin1, Query.ParseQuery, Query.NormalizeQuery;
  }
}
