/** The record kept under one idempotency key, and the decision taken from it. */
module IdempotencyRecords {
  import opened Wrappers

  type byte = b: int | 0 <= b < 256

  type Bytes = seq<byte>

  datatype RecordState = InProgress | Completed

  datatype Record = Record(
    state: RecordState,
    fingerprint: string,
    statusCode: Option<int>,
    body: Option<Bytes>,
    contentType: Option<string>)

  /** What the handler produced, and what a replay gives back. */
  datatype Response = Response(statusCode: int, body: Bytes, contentType: string)

  /** Outcome of the begin phase: run the handler, replay, 409 or 422. */
  datatype Decision =
    | Proceed
    | Replay(response: Response)
    | RequestInProgress
    | KeyMismatch

  const DEFAULT_CONTENT_TYPE := "application/json"

  /** Python's `a or b` on optional strings: None and "" both fall through. */
  function OrElse(first: Option<string>, fallback: string): string {
    match first
    case Some(text) => if text == "" then fallback else text
    case None => fallback
  }

  function InProgressRecord(fingerprint: string): Record {
    Record(InProgress, fingerprint, None, None, None)
  }

  function CompletedRecord(fingerprint: string, response: Response): Record {
    Record(Completed, fingerprint, Some(response.statusCode), Some(response.body), Some(response.contentType))
  }

  function ResolveExisting(existing: Record, fingerprint: string): Decision {
    if existing.state == InProgress then RequestInProgress
    else if existing.fingerprint != fingerprint then KeyMismatch
    else if existing.statusCode.None? || existing.body.None? then RequestInProgress
    else Replay(Response(existing.statusCode.value, existing.body.value,
                         OrElse(existing.contentType, DEFAULT_CONTENT_TYPE)))
  }

  lemma ResolvingNeverProceeds(record: Record, fingerprint: string)
    ensures !ResolveExisting(record, fingerprint).Proceed?
  {
  }

  /** The atomic once-only decision on the content of a slot. */
  function Decide(slot: Option<Record>, fingerprint: string): Decision {
    match slot
    case None => Proceed
    case Some(existing) => ResolveExisting(existing, fingerprint)
  }

  /** The content type stored with a response: media type, else header, else the default. */
  function StoredContentType(mediaType: Option<string>, header: Option<string>): string {
    OrElse(mediaType, OrElse(header, DEFAULT_CONTENT_TYPE))
  }

  /** A media type counts if it is there and not empty, next a header that is, and last JSON. */
  lemma ContentTypeIs(mediaType: Option<string>, header: Option<string>)
    ensures var stored, missing := StoredContentType(mediaType, header), {None, Some("")};
      && (mediaType !in missing ==> mediaType == Some(stored))
      && (mediaType in missing && header !in missing ==> header == Some(stored))
      && (mediaType in missing && header in missing ==> stored == "application/json")
  {
  }

  /** The bytes of a streamed body. */
  function Concatenated(chunks: seq<Bytes>): Bytes {
    if chunks == [] then [] else chunks[0] + Concatenated(chunks[1..])
  }

  lemma {:induction false} ConcatenatedAppend(chunks: seq<Bytes>, chunk: Bytes)
    ensures Concatenated(chunks + [chunk]) == Concatenated(chunks) + chunk
  {
    if chunks == [] {
      assert [chunk][1..] == [];
    } else {
      assert (chunks + [chunk])[1..] == chunks[1..] + [chunk];
      ConcatenatedAppend(chunks[1..], chunk);
    }
  }

  /** Each chunk comes between those before it and those after it, and there is nothing else. */
  lemma {:induction false} ChunkInItsPlace(chunks: seq<Bytes>, i: nat)
    requires i < |chunks|
    ensures Concatenated([]) == []
    ensures Concatenated(chunks) == Concatenated(chunks[..i]) + chunks[i] + Concatenated(chunks[i + 1..])
  {
    if i == 0 {
      assert chunks[..0] == [];
    } else {
      ChunkInItsPlace(chunks[1..], i - 1);
      assert chunks[1..][..i - 1] == chunks[..i][1..] && chunks[1..][i..] == chunks[i + 1..];
    }
  }
}
