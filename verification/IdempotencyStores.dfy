/** The record-map store, the string-payload store, and why nobody can tell them apart. */
module IdempotencyStores {
  import opened Wrappers
  import opened IdempotencyRecords
  import opened IdempotencyCodec

  datatype StoreOp =
    | GetOp(key: string)
    | TryAcquireOp(key: string, fingerprint: string)
    | CompleteOp(key: string, fingerprint: string, response: Response)
    | ReleaseOp(key: string)

  datatype StoreResult = Got(record: Option<Record>) | Acquired(ok: bool) | Done

  /** One operation on a map of records. */
  function RecordStep(m: map<string, Record>, op: StoreOp): (map<string, Record>, StoreResult) {
    match op
    case GetOp(key) => (m, Got(if key in m then Some(m[key]) else None))
    case TryAcquireOp(key, fingerprint) =>
      if key in m then (m, Acquired(false)) else (m[key := InProgressRecord(fingerprint)], Acquired(true))
    case CompleteOp(key, fingerprint, response) => (m[key := CompletedRecord(fingerprint, response)], Done)
    case ReleaseOp(key) => (m - {key}, Done)
  }

  /** One operation on a map of payload texts. */
  function PayloadStep(p: map<string, string>, op: StoreOp): (map<string, string>, StoreResult) {
    match op
    case GetOp(key) => (p, Got(if key in p then Deserialized(p[key]) else None))
    case TryAcquireOp(key, fingerprint) =>
      if key in p then (p, Acquired(false))
      else (p[key := Serialized(InProgressRecord(fingerprint))], Acquired(true))
    case CompleteOp(key, fingerprint, response) =>
      (p[key := Serialized(CompletedRecord(fingerprint, response))], Done)
    case ReleaseOp(key) => (p - {key}, Done)
  }

  class FakeIdempotencyStore {
    var records: map<string, Record>

    constructor ()
      ensures records == map[]
    {
      records := map[];
    }

    method Get(scopeKey: string) returns (record: Option<Record>)
      ensures (records, Got(record)) == RecordStep(records, GetOp(scopeKey))
    {
      if scopeKey in records {
        record := Some(records[scopeKey]);
      } else {
        record := None;
      }
    }

    method TryAcquire(scopeKey: string, fingerprint: string, ttlSeconds: nat) returns (acquired: bool)
      modifies this
      ensures (records, Acquired(acquired)) == RecordStep(old(records), TryAcquireOp(scopeKey, fingerprint))
    {
      if scopeKey in records {
        return false;
      }
      records := records[scopeKey := InProgressRecord(fingerprint)];
      return true;
    }

    method Complete(scopeKey: string, fingerprint: string, response: Response, ttlSeconds: nat)
      modifies this
      ensures (records, Done) == RecordStep(old(records), CompleteOp(scopeKey, fingerprint, response))
    {
      records := records[scopeKey := CompletedRecord(fingerprint, response)];
    }

    method Release(scopeKey: string)
      modifies this
      ensures (records, Done) == RecordStep(old(records), ReleaseOp(scopeKey))
    {
      records := records - {scopeKey};
    }
  }

  datatype Stored = Stored(payload: string, expiresAt: nat)

  /** The four commands used of the key-value server, with its expiry rule. */
  class ValkeyClient {
    var now: nat
    var keyspace: map<string, Stored>

    constructor ()
      ensures Live() == map[]
    {
      now, keyspace := 0, map[];
    }

    /** The keys that have not expired, with their payloads. */
    function Live(): map<string, string>
      reads this
    {
      map key | key in keyspace && now < keyspace[key].expiresAt :: keyspace[key].payload
    }

    method Get(key: string) returns (payload: Option<string>)
      ensures payload == if key in Live() then Some(Live()[key]) else None
    {
      if key in keyspace && now < keyspace[key].expiresAt {
        payload := Some(keyspace[key].payload);
      } else {
        payload := None;
      }
    }

    method Set(key: string, payload: string, nx: bool, ex: nat) returns (stored: bool)
      requires ex > 0
      modifies `keyspace
      ensures stored == !(nx && key in old(Live()))
      ensures keyspace == if stored then old(keyspace)[key := Stored(payload, now + ex)] else old(keyspace)
      ensures Live() == if stored then old(Live())[key := payload] else old(Live())
    {
      if nx && key in keyspace && now < keyspace[key].expiresAt {
        return false;
      }
      keyspace := keyspace[key := Stored(payload, now + ex)];
      return true;
    }

    method Delete(key: string)
      modifies `keyspace
      ensures keyspace == old(keyspace) - {key}
      ensures Live() == old(Live()) - {key}
    {
      keyspace := keyspace - {key};
    }
  }

  class ValkeyIdempotencyStore {
    const client: ValkeyClient

    constructor (client: ValkeyClient)
      ensures this.client == client
    {
      this.client := client;
    }

    function Payloads(): map<string, string>
      reads client
    {
      client.Live()
    }

    method Get(scopeKey: string) returns (record: Option<Record>)
      ensures (Payloads(), Got(record)) == PayloadStep(Payloads(), GetOp(scopeKey))
    {
      var payload := client.Get(scopeKey);
      if payload.None? {
        return None;
      }
      return Deserialized(payload.value);
    }

    method TryAcquire(scopeKey: string, fingerprint: string, ttlSeconds: nat) returns (acquired: bool)
      requires ttlSeconds > 0
      modifies client`keyspace
      ensures (Payloads(), Acquired(acquired)) == PayloadStep(old(Payloads()), TryAcquireOp(scopeKey, fingerprint))
      ensures acquired ==> scopeKey in client.keyspace && client.keyspace[scopeKey].expiresAt == client.now + ttlSeconds
    {
      var text := SerializeIdempotencyRecord(InProgressRecord(fingerprint));
      acquired := client.Set(scopeKey, text, true, ttlSeconds);
    }

    method Complete(scopeKey: string, fingerprint: string, response: Response, ttlSeconds: nat)
      requires ttlSeconds > 0
      modifies client`keyspace
      ensures (Payloads(), Done) == PayloadStep(old(Payloads()), CompleteOp(scopeKey, fingerprint, response))
      ensures scopeKey in client.keyspace && client.keyspace[scopeKey].expiresAt == client.now + ttlSeconds
    {
      var text := SerializeIdempotencyRecord(CompletedRecord(fingerprint, response));
      var _ := client.Set(scopeKey, text, false, ttlSeconds);
    }

    method Release(scopeKey: string)
      modifies client`keyspace
      ensures (Payloads(), Done) == PayloadStep(old(Payloads()), ReleaseOp(scopeKey))
    {
      client.Delete(scopeKey);
    }
  }

  // Whole sequences of operations

  function RecordResults(m: map<string, Record>, ops: seq<StoreOp>): seq<StoreResult>
    decreases ops
  {
    if ops == [] then []
    else var (m', result) := RecordStep(m, ops[0]); [result] + RecordResults(m', ops[1..])
  }

  function PayloadResults(p: map<string, string>, ops: seq<StoreOp>): seq<StoreResult>
    decreases ops
  {
    if ops == [] then []
    else var (p', result) := PayloadStep(p, ops[0]); [result] + PayloadResults(p', ops[1..])
  }

  /** Each payload decodes, to the record as storing leaves it. */
  ghost predicate Represents(p: map<string, string>, m: map<string, Record>) {
    && p.Keys == m.Keys
    && forall key | key in m ::
      && (m[key].state == Completed ==> m[key].statusCode.Some? && m[key].body.Some?)
      && p[key] == Serialized(m[key])
  }

  ghost predicate ProperContentType(op: StoreOp) {
    op.CompleteOp? ==> op.response.contentType != ""
  }

  lemma StepKeepsRepresentation(p: map<string, string>, m: map<string, Record>, op: StoreOp)
    requires Represents(p, m)
    ensures Represents(PayloadStep(p, op).0, RecordStep(m, op).0)
  {
    hide Serialized, Deserialized;
  }

  lemma {:induction false} ResultsAgree(p: map<string, string>, m: map<string, Record>, ops: seq<StoreOp>)
    requires Represents(p, m) && forall key | key in m :: Storable(m[key])
    requires forall op <- ops :: ProperContentType(op)
    ensures PayloadResults(p, ops) == RecordResults(m, ops)
    decreases ops
  {
    hide Serialized, Deserialized;
    if ops != [] {
      var op := ops[0];
      if op.GetOp? && op.key in m {
        LosslessIffStorable(m[op.key]);
      }
      StepKeepsRepresentation(p, m, op);
      assert ProperContentType(op);
      ResultsAgree(PayloadStep(p, op).0, RecordStep(m, op).0, ops[1..]);
    }
  }

  /** From an empty store, the string-payload store answers every sequence of operations like
      the record map, as long as no response has an empty content type. */
  lemma SerialisedStoreRefinesRecordStore(ops: seq<StoreOp>)
    requires forall op <- ops :: ProperContentType(op)
    ensures PayloadResults(map[], ops) == RecordResults(map[], ops)
  {
    ResultsAgree(map[], map[], ops);
  }

  /** The content type matters: with an empty one, the two stores answer differently. */
  lemma EmptyContentTypeShows(key: string, fingerprint: string, response: Response)
    ensures var ops := [CompleteOp(key, fingerprint, response), GetOp(key)];
      PayloadResults(map[], ops) == RecordResults(map[], ops) <==> response.contentType != ""
  {
    hide Serialized, Deserialized;
    var record := CompletedRecord(fingerprint, response);
    var ops := [CompleteOp(key, fingerprint, response), GetOp(key)];
    LosslessIffStorable(record);
    assert ops[1..] == [GetOp(key)] && ops[1..][1..] == [];
    var p, m := PayloadStep(map[], ops[0]).0, RecordStep(map[], ops[0]).0;
    assert PayloadResults(p, ops[1..]) == [Got(Deserialized(Serialized(record)))];
    assert RecordResults(m, ops[1..]) == [Got(Some(record))];
    assert PayloadResults(map[], ops) == [Done] + PayloadResults(p, ops[1..]);
    assert RecordResults(map[], ops) == [Done] + RecordResults(m, ops[1..]);
    assert PayloadResults(map[], ops)[1] == Got(Deserialized(Serialized(record)));
    assert RecordResults(map[], ops)[1] == Got(Some(record));
  }

  /** Two answers lead to the same begin decision. */
  ghost predicate SameDecisions(a: StoreResult, b: StoreResult) {
    if a.Got? && b.Got? then forall fingerprint :: Decide(a.record, fingerprint) == Decide(b.record, fingerprint)
    else a == b
  }

  /** What the middleware decides never differs, whatever the content types. */
  lemma {:induction false} DecisionsAgree(p: map<string, string>, m: map<string, Record>, ops: seq<StoreOp>)
    requires Represents(p, m)
    ensures |PayloadResults(p, ops)| == |RecordResults(m, ops)| == |ops|
    ensures forall i | 0 <= i < |ops| :: SameDecisions(PayloadResults(p, ops)[i], RecordResults(m, ops)[i])
    decreases ops
  {
    hide Serialized, Deserialized, ResolveExisting;
    if ops != [] {
      var op := ops[0];
      if op.GetOp? && op.key in m {
        forall fingerprint
          ensures Decide(Deserialized(Serialized(m[op.key])), fingerprint) == Decide(Some(m[op.key]), fingerprint)
        {
          DecisionSurvivesStoring(m[op.key], fingerprint);
        }
      }
      StepKeepsRepresentation(p, m, op);
      DecisionsAgree(PayloadStep(p, op).0, RecordStep(m, op).0, ops[1..]);
    }
  }
}
