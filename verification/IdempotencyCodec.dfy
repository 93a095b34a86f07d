/** The text form of an idempotency record. */
module IdempotencyCodec {
  import opened Wrappers
  import opened IdempotencyRecords
  import Base64
  import Json

  function StateText(state: RecordState): string {
    match state
    case InProgress => "in_progress"
    case Completed => "completed"
  }

  function BodyBytes(body: Option<Bytes>): Bytes {
    match body
    case None => []
    case Some(data) => data
  }

  function StatusValue(statusCode: Option<int>): Json.Value {
    match statusCode
    case None => Json.Null
    case Some(n) => Json.Int(n)
  }

  function PayloadOf(record: Record): Json.Members {
    [("state", Json.Str(StateText(record.state))),
     ("fingerprint", Json.Str(record.fingerprint))] +
    if record.state == InProgress then [] else
      [("status_code", StatusValue(record.statusCode)),
       ("body", Json.Str(Base64.Encode(BodyBytes(record.body)))),
       ("content_type", Json.Str(OrElse(record.contentType, DEFAULT_CONTENT_TYPE)))]
  }

  function Serialized(record: Record): string {
    Json.Dumps(PayloadOf(record))
  }

  method SerializeIdempotencyRecord(record: Record) returns (text: string)
    ensures text == Serialized(record)
  {
    var payload: Json.Members :=
      [("state", Json.Str(StateText(record.state))), ("fingerprint", Json.Str(record.fingerprint))];
    if record.state == Completed {
      payload := payload + [("status_code", StatusValue(record.statusCode))];
      payload := payload + [("body", Json.Str(Base64.Encode(BodyBytes(record.body))))];
      payload := payload + [("content_type", Json.Str(OrElse(record.contentType, DEFAULT_CONTENT_TYPE)))];
    }
    assert payload == PayloadOf(record);
    text := Json.Dumps(payload);
  }

  predicate IsAscii(s: string) {
    forall c <- s :: c as int < 128
  }

  /** JSON true and false are integers to Python. */
  function AsInt(v: Option<Json.Value>): Option<int> {
    match v
    case Some(Int(n)) => Some(n)
    case Some(Bool(b)) => Some(if b then 1 else 0)
    case _ => None
  }

  function AsText(v: Option<Json.Value>): Option<string> {
    match v
    case Some(Str(text)) => Some(text)
    case _ => None
  }

  function RecordFrom(data: Json.Members): Option<Record> {
    var state := AsText(Json.Lookup(data, "state"));
    var fingerprint := AsText(Json.Lookup(data, "fingerprint"));
    if (state != Some("in_progress") && state != Some("completed")) || fingerprint.None? then None
    else if state == Some("in_progress") then Some(InProgressRecord(fingerprint.value))
    else
      var statusCode := AsInt(Json.Lookup(data, "status_code"));
      var bodyText := AsText(Json.Lookup(data, "body"));
      var contentType := AsText(Json.Lookup(data, "content_type"));
      if statusCode.None? || bodyText.None? || !IsAscii(bodyText.value) then None
      else
        match Base64.Decode(bodyText.value)
        case None => None
        case Some(body) =>
          Some(Record(Completed, fingerprint.value, statusCode, Some(body),
                      if contentType.None? then Some(DEFAULT_CONTENT_TYPE) else contentType))
  }

  function Deserialized(payload: string): Option<Record> {
    match Json.Loads(payload)
    case None => None
    case Some(data) => RecordFrom(data)
  }

  /** What a record becomes by being stored: defaults are filled in, and a completed record
      without a status is lost. */
  function AsStored(record: Record): Option<Record> {
    if record.state == InProgress then Some(InProgressRecord(record.fingerprint))
    else if record.statusCode.None? then None
    else Some(Record(Completed, record.fingerprint, record.statusCode, Some(BodyBytes(record.body)),
                     Some(OrElse(record.contentType, DEFAULT_CONTENT_TYPE))))
  }

  /** Records that storing leaves exactly as they are. */
  predicate Storable(record: Record) {
    if record.state == InProgress then record == InProgressRecord(record.fingerprint)
    else record.statusCode.Some? && record.body.Some? && record.contentType.Some? && record.contentType.value != ""
  }

  lemma LookupLast(data: Json.Members, name: string, v: Json.Value, other: string)
    ensures Json.Lookup(data + [(name, v)], other) == if name == other then Some(v) else Json.Lookup(data, other)
  {
    assert (data + [(name, v)])[..|data|] == data;
  }

  /** The payload of a completed record has exactly the five values, under their names. */
  lemma CompletedFields(state: Json.Value, fingerprint: Json.Value, status: Json.Value, body: Json.Value,
                        ctype: Json.Value)
    ensures
      var data := [("state", state), ("fingerprint", fingerprint), ("status_code", status),
                   ("body", body), ("content_type", ctype)];
      && Json.Lookup(data, "state") == Some(state)
      && Json.Lookup(data, "fingerprint") == Some(fingerprint)
      && Json.Lookup(data, "status_code") == Some(status)
      && Json.Lookup(data, "body") == Some(body)
      && Json.Lookup(data, "content_type") == Some(ctype)
  {
    var d1 := [("state", state)];
    var d2 := d1 + [("fingerprint", fingerprint)];
    var d3 := d2 + [("status_code", status)];
    var d4 := d3 + [("body", body)];
    var d5 := d4 + [("content_type", ctype)];
    assert d5 == [("state", state), ("fingerprint", fingerprint), ("status_code", status), ("body", body),
        ("content_type", ctype)];
    assert Json.Lookup(d1, "state") == Some(state);
    forall name: string
      ensures Json.Lookup(d2, name) == if name == "fingerprint" then Some(fingerprint) else Json.Lookup(d1, name)
      ensures Json.Lookup(d3, name) == if name == "status_code" then Some(status) else Json.Lookup(d2, name)
      ensures Json.Lookup(d4, name) == if name == "body" then Some(body) else Json.Lookup(d3, name)
      ensures Json.Lookup(d5, name) == if name == "content_type" then Some(ctype) else Json.Lookup(d4, name)
    {
      LookupLast(d1, "fingerprint", fingerprint, name);
      LookupLast(d2, "status_code", status, name);
      LookupLast(d3, "body", body, name);
      LookupLast(d4, "content_type", ctype, name);
    }
    hide Json.Lookup;
  }

  lemma InProgressFields(state: Json.Value, fingerprint: Json.Value)
    ensures var data := [("state", state), ("fingerprint", fingerprint)];
      Json.Lookup(data, "state") == Some(state) && Json.Lookup(data, "fingerprint") == Some(fingerprint)
  {
    var d1 := [("state", state)];
    assert d1 + [("fingerprint", fingerprint)] == [("state", state), ("fingerprint", fingerprint)];
    LookupLast(d1, "fingerprint", fingerprint, "state");
    LookupLast(d1, "fingerprint", fingerprint, "fingerprint");
  }

  /** Reading back a stored record, for every record. */
  lemma RoundTrip(record: Record)
    ensures Deserialized(Serialized(record)) == AsStored(record)
  {
    hide Json.Lookup, Json.Loads, Json.Dumps, Base64.Decode, Base64.Encode;
    var data := PayloadOf(record);
    Json.RoundTrip(data);
    if record.state == InProgress {
      InProgressFields(Json.Str(StateText(record.state)), Json.Str(record.fingerprint));
      assert data == [("state", Json.Str(StateText(record.state))), ("fingerprint", Json.Str(record.fingerprint))];
    } else {
      var body := BodyBytes(record.body);
      Base64.RoundTrip(body);
      Base64.EncodedIsAscii(body);
      var state, fingerprint := Json.Str(StateText(record.state)), Json.Str(record.fingerprint);
      var status, text := StatusValue(record.statusCode), Json.Str(Base64.Encode(body));
      var ctype := Json.Str(OrElse(record.contentType, DEFAULT_CONTENT_TYPE));
      CompletedFields(state, fingerprint, status, text, ctype);
      assert data == [("state", state), ("fingerprint", fingerprint), ("status_code", status), ("body", text),
          ("content_type", ctype)];
    }
  }

  /** The codec is lossless on a record exactly when nothing in it needs a default. */
  lemma LosslessIffStorable(record: Record)
    ensures Deserialized(Serialized(record)) == Some(record) <==> Storable(record)
  {
    hide Serialized, Deserialized;
    RoundTrip(record);
  }

  /** Whatever was completed with a status, the decision taken from it survives storing. */
  lemma DecisionSurvivesStoring(record: Record, fingerprint: string)
    requires record.state == Completed ==> record.statusCode.Some? && record.body.Some?
    ensures Decide(Deserialized(Serialized(record)), fingerprint) == Decide(Some(record), fingerprint)
  {
    hide Serialized, Deserialized;
    RoundTrip(record);
  }

  /** Whatever object of scalars a payload is, it is read exactly if it has a known state and a
      fingerprint and, once completed, a status and a body in base64; by the last member of each
      name. */
  lemma ReadExactlyIf(data: Json.Members)
    ensures var record := Deserialized(Json.Dumps(data));
      var state, fingerprint := Json.Lookup(data, "state"), Json.Lookup(data, "fingerprint");
      var status, body, ctype :=
        Json.Lookup(data, "status_code"), Json.Lookup(data, "body"), Json.Lookup(data, "content_type");
      && (record.Some? <==>
            && fingerprint.Some? && fingerprint.value.Str?
            && (|| state == Some(Json.Str("in_progress"))
                || (&& state == Some(Json.Str("completed"))
                    && status.Some? && (status.value.Int? || status.value.Bool?)
                    && body.Some? && body.value.Str? && (forall c <- body.value.text :: c as int < 128)
                    && Base64.Decode(body.value.text).Some?)))
      && (record.Some? ==> record.value.fingerprint == fingerprint.value.text)
      && (record.Some? && state == Some(Json.Str("in_progress")) ==>
            record.value == Record(InProgress, fingerprint.value.text, None, None, None))
      && (record.Some? && state == Some(Json.Str("completed")) ==>
            && record.value.state == Completed
            && (status.value.Int? ==> record.value.statusCode == Some(status.value.n))
            && (status.value.Bool? ==> record.value.statusCode == if status.value.b then Some(1) else Some(0))
            && record.value.body == Base64.Decode(body.value.text)
            && record.value.contentType ==
               Some(if ctype.Some? && ctype.value.Str? then ctype.value.text else "application/json"))
  {
    Json.RoundTrip(data);
    hide Json.Lookup, Json.Loads, Json.Dumps, Base64.Decode;
  }
}
