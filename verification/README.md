# The todo service, modelled in Dafny

A model of the parts of the todo service where mistakes would be hard to see, and proofs of
what those parts are for. `dafny verify dfyconfig.toml` checks everything.

**Idempotent requests.** Many requests race on one key-value store with three unconnected calls
(get, SET NX, get), a handler, and then a SET or a DEL that checks no owner. `IdempotencyProtocol`
is the step machine: each store call is one event, a request can be cancelled anywhere (then its
key stays locked until it expires), the completing SET can fail before or after it took effect,
and time can pass at any point. `IdempotencySafety` and `IdempotencyRuns` hold the invariant and
what follows for whole runs, `IdempotencyLinearizability` the refinement of a once-only map. These
results assume that a live holder finishes within the time to live of its acquire
(`IdempotencyProtocol.TimelyRun`); `IdempotencyOverrun` shows what happens otherwise.
`IdempotencyOutcomes` says how requests end and what they leave, without that assumption.
`IdempotencyMiddleware` and `IdempotencyStores` are the same code as methods over the store's
classes, and `IdempotencyCodec`, `Base64` and `Json` the texts that are stored. `IdempotencyTexts`
is the step machine over such texts, every run of which is a run over records, and
`IdempotencyAlone` a request that nothing interleaves with.

**Request identity.** `RequestIdentity` is the scope key and the fingerprint, `QueryCanonical`
the canonical query over `Percent`, `Utf8` and `Ordering`. The digest is a parameter, and the
exactness result assumes that it is injective, and that method and path have no newline.

**Todos.** `TodoTable` has the SQL repository and the dictionary form used as its reference, both
proved against one specification of a page; `TodoPaging` walks over tables that change and tables
that do not. `TodoOperations` has the use cases, an update and a delete as a read and a later
write; `TodoIsolation` interleaves many of them, with accounts that come and go, and
shows what one user can observe, and `TodoAnswers` what each request is answered and leaves.

**Accounts.** `Accounts` is the user table and the identity cache, `AccountOperations` the use
cases, `AccountRoutes` the routes, `AccountMachine` whole requests one after the other with failures
and expiring entries.
Then `AccountSafety` (cache coherence and constraints), `AccountTokens` (revocation),
`AccountAdmins` (the last active admin) and `AccountEffects` (what each request does to the rows). Hashing is a parameter: each new hash is given with the
request, and a function says whether a password matches a hash. Runs assume that a signup gets an
id that no user had before.

**Configuration.** `ConfigTree` is the algebra of merging, `ConfigFlatten` the environment that a
tree is printed as, with the order of keys, `ConfigSettings` the schema of the settings and why
their names in the environment are different, `ConfigValues` their values as text, `ConfigOverrides` the dotted overrides on trees,
`ConfigDicts` and `ConfigMerge` the same on nested dictionaries in memory, changed in place or
merged into new ones. `Dotenv` is the printer and a reader for it, `ConfigExport` both on the
settings, and `DotenvShell` a shell that sources what is printed.

Where the code and what is said about it part ways, the model follows the code:

- `format_dotenv_value` is described as quoting where a shell that sources the file needs it. It
  leaves values with `;`, `&`, `|`, `<`, `>`, parentheses, a single quote or a tilde bare, and does
  not escape a backquote. `DotenvShell.ShellReadsExactlyIf` is the exact condition.
- `deep_merge` is not associative in general; `ConfigTree.MergeIsAssociativeExactlyIf` says when.
- The two idempotency stores differ for an empty content type; `IdempotencyStores.EmptyContentTypeShows`.
- An admin's PATCH offers a password, and every request that sets one fails;
  `AccountAdmins.AdminPatchSetsNoPassword`.
- `update_user` has no last-admin guard: the only active admin can demote himself;
  `AccountAdmins.OnlyAbdicationLosesAdmins` and `AccountAdmins.AbdicationHappens`.

## Model

| member | source | states |
|---|---|---|
| IdempotencySafety.StepKeepsInv | src/todos_app/idempotency/adapters/api/middleware.py:119-150 | every event of the step machine (store calls, handler, crash, passing time) keeps the invariant that ties each live holder to the record stored under its key, each record to its owner, each replay to its source, and the counters to the store |
| IdempotencyRuns.RunKeepsInv | src/todos_app/idempotency/adapters/api/middleware.py:119-150 | that invariant holds in every state of every timely run from the empty store |
| IdempotencyRuns.MutualExclusion | src/todos_app/idempotency/adapters/api/middleware.py:119-150 | in every state of a timely run at most one live request is between acquire and complete/release on a key, and what is stored is the record that request wrote |
| IdempotencyRuns.UnguardedWritesHitOwnRecord | src/todos_app/idempotency/adapters/cache/valkey_idempotency_store.py:36-60 | the completing SET and the DEL check no owner, yet in a timely run they find their own request's record and leave every other key alone |
| IdempotencyRuns.ConservationOfExecutions | src/todos_app/idempotency/adapters/cache/valkey_idempotency_store.py:26-60 | acquires = releases + expirations + (1 if the key is present), the number of handler starts on a key is the number of acquires, and so at most 1 + releases + expirations |
| IdempotencyRuns.ExecutionsAreAcquires | src/todos_app/idempotency/adapters/api/middleware.py:119-135 | counted over the run itself, a handler starts exactly as often as the key is acquired |
| IdempotencyRuns.OneLifetimeOneExecution | src/todos_app/idempotency/adapters/cache/valkey_idempotency_store.py:26-60 | as long as a key stays present its record keeps one owner and one fingerprint, and once completed never changes |
| IdempotencyRuns.ReplayFidelity | src/todos_app/idempotency/adapters/api/middleware.py:47-71 | every replay has status, content type and joined body of one earlier handler return, under the same key and fingerprint |
| IdempotencyRuns.ReplayReadsRecord | src/todos_app/idempotency/application/begin_idempotency.py:23-40 | at the instant of a replay the stored record is the completed one with that response, before and after |
| IdempotencyRuns.ProceedCreatesRecord | src/todos_app/idempotency/application/begin_idempotency.py:15-18 | at the instant of a proceed the key goes from absent to that request's in-progress record, due after the time to live |
| IdempotencyRuns.LifetimeHasOneAnswer | src/todos_app/idempotency/adapters/api/middleware.py:47-71 | within one lifetime all proceeds and replays have one fingerprint, all replays are equal, and equal to what the request that proceeded produced |
| IdempotencyRuns.RequestsAreStable | src/todos_app/idempotency/adapters/api/middleware.py:87-150 | a request never changes its key, its fingerprint or a response once produced, and nothing once it is finished |
| IdempotencyRuns.ProducedByHandler | src/todos_app/idempotency/adapters/api/middleware.py:59-71 | a produced response is the chunks of one handler return joined, with its status and stored content type |
| IdempotencyOutcomes.ArrivedWith | src/todos_app/idempotency/adapters/api/middleware.py:87-118 | a request has the key and the fingerprint it arrived with |
| IdempotencyOutcomes.RequestEndsWell | src/todos_app/idempotency/adapters/api/middleware.py:119-150 | in every run, timely or not: a request that ends with a decision changes nothing and gets what the record under its key calls for, one that is served leaves its response as the completed record of that key, one that raises leaves the key absent, and one that is cancelled leaves everything as it is |
| IdempotencyOutcomes.FailureIsNeverServed | src/todos_app/idempotency/adapters/api/middleware.py:148-150 | once its handler has raised or its completion has failed, a request is never served: it goes on to the release, and raises, unless it is cancelled before |
| IdempotencyOutcomes.FailedCompletionStores | src/todos_app/idempotency/adapters/api/middleware.py:138-150 | a completion that failed has stored the response as completed, or nothing |
| IdempotencyLinearizability.EventIsAtomicStep | src/todos_app/idempotency/application/begin_idempotency.py:14-40 | every event is one atomic step of a once-only map (begin, finish, drop, lapse), from every state with the invariant |
| IdempotencyLinearizability.RunRefinesOnceMap | src/todos_app/idempotency/application/begin_idempotency.py:14-40 | every timely run, crashes and expiry included, is a run of the once-only map from the empty map; time takes from it exactly the keys whose begin or finish is a time to live ago |
| IdempotencyLinearizability.BeginIsAtomic | src/todos_app/idempotency/application/begin_idempotency.py:14-40 | get, SET NX, get take one decision (proceed, replay, 409 or 422) that is right for the store at one instant inside the request's begin phase; a proceed takes effect at that instant |
| IdempotencyLinearizability.ContendedSawInProgress | src/todos_app/idempotency/application/begin_idempotency.py:16-21 | a request whose SET NX was refused had, at some instant of its begin phase, an in-progress record under its key, so the 409 after a second miss is justified |
| IdempotencyLinearizability.RequestTakesAtMostSixSteps | src/todos_app/idempotency/adapters/api/middleware.py:87-150 | whatever the interleaving, a request takes at most six steps, its arrival included |
| IdempotencyOverrun.OwnRecordSurvivesIffTimely | src/todos_app/idempotency/adapters/cache/valkey_idempotency_store.py:26-34 | as time passes, an executing holder's record is still stored exactly if it is within the time to live of its acquire |
| IdempotencyOverrun.TimelyIffRecordsSurvive | src/todos_app/idempotency/adapters/cache/valkey_idempotency_store.py:26-34 | what the time assumption says: with nobody on the way out, time passes in a timely manner exactly if every holder still finds his record |
| IdempotencyOverrun.LateCompleteOverwrites | src/todos_app/idempotency/adapters/api/middleware.py:134-150 | why the time assumption is needed: a run in which a late holder's SET overwrites another request's in-progress record |
| IdempotencyAlone.AloneIsHandled | src/todos_app/idempotency/adapters/api/middleware.py:119-150 | in every state with the invariant, the machine's steps of one request alone leave the texts and give the answer of the middleware method run in one go |
| IdempotencyTexts.CallIsPayloadStep | src/todos_app/idempotency/adapters/cache/valkey_idempotency_store.py:18-60 | the machine's store calls on texts with expiry do to the live texts, and answer, what the store's methods are proved to do |
| IdempotencyTexts.StepMirrors | src/todos_app/idempotency/application/begin_idempotency.py:14-40 | one event on a store of texts and the same event on a store of records keep both in step: the live texts are the records, due at the same time, and every request is in the same phase |
| IdempotencyTexts.TextRunIsRun | src/todos_app/idempotency/application/begin_idempotency.py:14-40 | every run over texts, interleaved in any way, timely or not, is a run over records with the same events, in which every request gets the same decision |
| IdempotencyTexts.OneHolder | src/todos_app/idempotency/adapters/api/middleware.py:119-150 | so in a timely run over texts no two live requests hold one key, and the live text is the holder's own in-progress record |
| IdempotencyTexts.TextDecisionIsAtomic | src/todos_app/idempotency/application/begin_idempotency.py:14-40 | and what a request decides in two or three calls is what the texts of one instant of its begin phase give |
| IdempotencyTexts.TextReplayFidelity | src/todos_app/idempotency/adapters/cache/idempotency_codec.py:19-47 | and a replay decoded from a text has status, content type and bytes of one earlier handler return, under the same key and fingerprint |
| IdempotencyMiddleware.BeginIdempotency | src/todos_app/idempotency/application/begin_idempotency.py:7-40 | over the string store: the once-only decision, and a text stored only for a proceed |
| IdempotencyMiddleware.ReadResponseBody | src/todos_app/idempotency/adapters/api/middleware.py:59-71 | the body is all chunks of the stream, joined in order |
| IdempotencyRecords.ChunkInItsPlace | src/todos_app/idempotency/adapters/api/middleware.py:59-64 | the joined body has each chunk between the chunks before it and those after it, and nothing else |
| IdempotencyRecords.ContentTypeIs | src/todos_app/idempotency/adapters/api/middleware.py:137 | the stored content type is the media type if there is one that is not empty, else the header likewise, else JSON |
| IdempotencyMiddleware.RunHandler | src/todos_app/idempotency/adapters/api/middleware.py:134-150 | a response is stored as completed and served; an exception leaves the key absent and is raised again |
| IdempotencyMiddleware.Handle | src/todos_app/idempotency/adapters/api/middleware.py:87-150 | the whole middleware: passes through exactly what is switched off, not a POST, PUT, PATCH or DELETE in any case of letters, under /health, the login, or without a key header; refuses exactly a key that is blank or too long once trimmed; and for the rest does what is specified |
| IdempotencyMiddleware.PassesThroughExactlyIf | src/todos_app/idempotency/adapters/api/helpers.py:15-22 | the same of the specification, in letters, and nothing stored changes |
| IdempotencyMiddleware.KeyedRequestIsHandled | src/todos_app/idempotency/adapters/api/middleware.py:109-150 | every other request: an absent slot runs the handler, and its response is served and stored, or its exception leaves nothing; a present one is answered from, by state, fingerprint and content, and stays |
| IdempotencyMiddleware.RetriedPostIsReplayed | src/todos_app/idempotency/adapters/api/middleware.py:87-147 | a POST sent again under one key with the same path, query pairs and body gets the status, bytes and content type of the first response, whatever the handler would do |
| IdempotencyMiddleware.KeyIsTrimmed | src/todos_app/idempotency/adapters/api/helpers.py:56-63 | white space around a key does not matter, and a trimmed key is accepted exactly up to the maximal length |
| Text.StripIs | src/todos_app/idempotency/adapters/api/helpers.py:60 | trimming leaves exactly the part from the first to the last character that is not blank |
| Text.BlanksAre | src/todos_app/idempotency/adapters/api/helpers.py:60 | and these are the blank characters |
| Text.UpperIs | src/todos_app/idempotency/adapters/api/helpers.py:16 | upper case: a capital for each small letter, everything else as it is |
| IdempotencyMiddleware.ServedIsReplayed | src/todos_app/idempotency/adapters/api/middleware.py:131-147 | a served response is replayed, status, content type and bytes, to each later request with that fingerprint, and refuses every other; the store stays as it is |
| IdempotencyStores.FakeIdempotencyStore.Get | tests/fakes/idempotency_store.py:14-15 | the record under the key, nothing changed |
| IdempotencyStores.FakeIdempotencyStore.TryAcquire | tests/fakes/idempotency_store.py:17-21 | acquires exactly an absent key |
| IdempotencyStores.FakeIdempotencyStore.Complete | tests/fakes/idempotency_store.py:23-39 | stores the completed record whatever was there |
| IdempotencyStores.FakeIdempotencyStore.Release | tests/fakes/idempotency_store.py:41-42 | removes the key, present or not |
| IdempotencyStores.ValkeyClient.Set | src/todos_app/idempotency/adapters/cache/valkey_idempotency_store.py:26-57 | SET with NX and EX as used: refused exactly for NX on a live key, and then a payload that expires |
| IdempotencyStores.ValkeyIdempotencyStore.Get | src/todos_app/idempotency/adapters/cache/valkey_idempotency_store.py:18-24 | the decoded live payload; one that does not decode counts as absent |
| IdempotencyStores.ValkeyIdempotencyStore.TryAcquire | src/todos_app/idempotency/adapters/cache/valkey_idempotency_store.py:26-34 | acquires exactly a key without a live payload, and sets its expiry |
| IdempotencyStores.ValkeyIdempotencyStore.Complete | src/todos_app/idempotency/adapters/cache/valkey_idempotency_store.py:36-57 | stores the completed payload whatever was there, and sets its expiry |
| IdempotencyStores.ValkeyIdempotencyStore.Release | src/todos_app/idempotency/adapters/cache/valkey_idempotency_store.py:59-60 | removes the key |
| IdempotencyStores.SerialisedStoreRefinesRecordStore | src/todos_app/idempotency/adapters/cache/valkey_idempotency_store.py:14-60 | from an empty store, every sequence of operations without an empty content type gets the same results from the string store as from the record map |
| IdempotencyStores.EmptyContentTypeShows | src/todos_app/idempotency/adapters/cache/idempotency_codec.py:15 | the two stores answer a get after a complete alike exactly if the content type is not empty |
| IdempotencyStores.DecisionsAgree | src/todos_app/idempotency/application/begin_idempotency.py:26-40 | whatever the content types, no begin decision ever differs between the two stores |
| IdempotencyCodec.SerializeIdempotencyRecord | src/todos_app/idempotency/adapters/cache/idempotency_codec.py:7-16 | filling the payload step by step gives the text of the payload specified |
| IdempotencyCodec.RoundTrip | src/todos_app/idempotency/adapters/cache/idempotency_codec.py:7-47 | reading back the text of any record gives that record with the codec's defaults, or nothing for a completed one without a status |
| IdempotencyCodec.ReadExactlyIf | src/todos_app/idempotency/adapters/cache/idempotency_codec.py:19-47 | whatever object of scalars a payload is, it is read exactly if it has a known state, a fingerprint and, once completed, a status and a base64 body, and then as what these say, with JSON as the missing content type |
| IdempotencyCodec.LosslessIffStorable | src/todos_app/idempotency/adapters/cache/idempotency_codec.py:7-47 | the text loses nothing exactly if no default was needed |
| IdempotencyCodec.DecisionSurvivesStoring | src/todos_app/idempotency/adapters/cache/idempotency_codec.py:19-47 | the begin decision taken from the text is the one taken from the record |
| Base64.RoundTrip | src/todos_app/idempotency/adapters/cache/idempotency_codec.py:14 | decoding base64 (section 4 of RFC 4648) gives back all bytes, with the library's lenient decoder |
| Base64.AlphabetIs | src/todos_app/idempotency/adapters/cache/idempotency_codec.py:14 | the sixty-four digits in their order (table 1 of RFC 4648) |
| Base64.ThreeBytesAreFourDigits | src/todos_app/idempotency/adapters/cache/idempotency_codec.py:14 | three bytes are four digits with the same bits in the same order |
| Base64.LastBytesArePadded | src/todos_app/idempotency/adapters/cache/idempotency_codec.py:14 | and two bytes or one at the end three digits or two, zeros after the bits and pads after the digits |
| Json.RoundTrip | src/todos_app/idempotency/adapters/cache/idempotency_codec.py:16 | parsing a dumped object (strings as in section 7 of RFC 8259, surrogate pairs included) gives back its members |
| QueryCanonical.RoundTrip | src/todos_app/idempotency/adapters/api/helpers.py:28 | parsing an encoded list of pairs without blank values gives back the list |
| QueryCanonical.ParsedInParts | src/todos_app/idempotency/adapters/api/helpers.py:28 | parsing two texts with & in between is parsing one and then the other |
| QueryCanonical.PairIsRead | src/todos_app/idempotency/adapters/api/helpers.py:28 | for every name without = or & and every value without &, name=value is the one pair of their unquoted forms, whatever other = the value has |
| QueryCanonical.BlankIsNothing | src/todos_app/idempotency/adapters/api/helpers.py:28 | a part without =, or with nothing after it, is no pair |
| QueryCanonical.DifferentValuesDifferentForms | src/todos_app/idempotency/adapters/api/helpers.py:25-28 | two values that are read differently never get one canonical form |
| QueryCanonical.NormalizeIsIdempotent | src/todos_app/idempotency/adapters/api/helpers.py:25-28 | normalising twice is normalising once, for every query |
| QueryCanonical.SameFormIffSamePairs | src/todos_app/idempotency/adapters/api/helpers.py:25-28 | two queries have one canonical form exactly if they have the same non-blank pairs, as multisets |
| QueryCanonical.NormalizedHasNoNewline | src/todos_app/idempotency/adapters/api/helpers.py:25-28 | a canonical query has no newline, whatever the query |
| Percent.RoundTrip | src/todos_app/idempotency/adapters/api/helpers.py:28 | unquoting undoes percent-encoding (section 2.1 of RFC 3986) with plus signs, for every text |
| Percent.WrittenIsUnquoted | src/todos_app/idempotency/adapters/api/helpers.py:28 | any text that writes bytes with + for a space, % and two hexadecimal digits of either case, or the ASCII character itself, is read as the text these bytes encode |
| Percent.PlusIsSpace | src/todos_app/idempotency/adapters/api/helpers.py:28 | without a percent sign, each plus is a space and everything else stays |
| Percent.StrayPercentStays | src/todos_app/idempotency/adapters/api/helpers.py:28 | a percent sign without two hexadecimal digits after it stays |
| Percent.BeyondAsciiStays | src/todos_app/idempotency/adapters/api/helpers.py:28 | a character beyond ASCII stays, and what is before and after it is read for itself |
| Utf8.RoundTrip | src/todos_app/idempotency/adapters/api/helpers.py:47 | decoding undoes UTF-8 encoding, for every text, with a decoder that replaces malformed bytes |
| Utf8.EncodedBytes | src/todos_app/idempotency/adapters/api/helpers.py:47 | each character is one to four bytes with its bits in their places (section 3 of RFC 3629) |
| Utf8.EncodedConcat | src/todos_app/idempotency/adapters/api/helpers.py:47 | a text is encoded character by character |
| Utf8.MalformedIsReplaced | src/todos_app/idempotency/adapters/api/helpers.py:28 | what malformed bytes become: a byte that starts nothing, a character cut short, an overlong form, a surrogate |
| Ordering.SortedIsOrdered | src/todos_app/idempotency/adapters/api/helpers.py:28 | sorting pairs orders them and keeps them as a multiset |
| Ordering.OrderedIsUnique | src/todos_app/idempotency/adapters/api/helpers.py:28 | a multiset of pairs has one ordered arrangement only |
| Ordering.TextLeIsByFirstDifference | src/todos_app/idempotency/adapters/api/helpers.py:28 | a text is before another exactly if it is the start of it or has the smaller character where they first differ |
| RequestIdentity.UuidTextInjective | src/todos_app/idempotency/adapters/api/helpers.py:52 | the text form of a UUID (section 4 of RFC 9562) determines it |
| RequestIdentity.UuidIsNumber | src/todos_app/idempotency/adapters/api/helpers.py:52 | that text is thirty-two hexadecimal digits that stand for the number, with hyphens in their four places |
| RequestIdentity.ScopeKeyIsExact | src/todos_app/idempotency/adapters/api/helpers.py:50-53 | two scope keys are equal exactly if principal and key are, whatever colons the key contains |
| RequestIdentity.FingerprintTextIsExact | src/todos_app/idempotency/adapters/api/helpers.py:38-46 | the newline join determines its four parts exactly, whatever newlines the body contains |
| RequestIdentity.NewlineInPathCollides | src/todos_app/idempotency/adapters/api/helpers.py:38-46 | why method and path must have no newline: two different requests with one joined text |
| RequestIdentity.SlotAndFingerprintAreExact | src/todos_app/idempotency/adapters/api/helpers.py:31-53 | two requests share scope key and fingerprint exactly if they have the same principal, key, upper-cased method, path, non-blank query pairs and body |
| TodoTable.SqlTodoRepository.ListPage | src/todos_app/todos/adapters/database/repository.py:20-33 | one query for limit + 1 rows gives the specified page: the first ids of the sorted scope above the cursor, and a cursor exactly if there are more |
| TodoTable.SqlTodoRepository.GetById | src/todos_app/todos/adapters/database/repository.py:35-43 | the row, if it is there and in scope |
| TodoTable.SqlTodoRepository.Add | src/todos_app/todos/adapters/database/repository.py:45-50 | one new row, open unless said to be completed; refused without an owner, for a used id, or for an owner who is no user |
| TodoTable.SqlTodoRepository.Update | src/todos_app/todos/adapters/database/repository.py:52-69 | changes the one row in scope or none; a null or an owner who is no user is refused only when a row matches |
| TodoTable.SqlTodoRepository.Delete | src/todos_app/todos/adapters/database/repository.py:71-76 | removes the one row in scope and says whether there was one |
| TodoTable.FakeTodoRepository.ListPage | tests/fakes/todo_repository.py:16-37 | sort, filter and slice give the same specified page, items and next cursor, as the query |
| TodoTable.FakeTodoRepository.Owned | tests/fakes/todo_repository.py:27-32 | the loop keeps exactly the todos of the owner, in order |
| TodoTable.FoundIsPage | src/todos_app/todos/adapters/database/repository.py:29-33 | cutting the row too many off and looking whether it was there yields the page and the next cursor |
| TodoTable.FilterOfAll | tests/fakes/todo_repository.py:23-32 | sorting all ids and then filtering by cursor and owner is sorting the ids that match |
| TodoPaging.PageCovers | src/todos_app/todos/adapters/database/repository.py:20-33 | a page has at most limit ids, ascending, all in scope, and every id in scope is on it or above its cursor |
| TodoPaging.WalkOverChangingTable | src/todos_app/todos/adapters/database/repository.py:20-33 | over a table that changes arbitrarily between fetches, with any limits from 1, a walk emits strictly increasing ids, none twice, and when it ends every id in scope throughout exactly once |
| TodoPaging.WalkEmitsSeen | src/todos_app/todos/adapters/database/repository.py:20-33 | every id emitted was in scope at some fetch |
| TodoPaging.WalkFindsSteady | src/todos_app/todos/adapters/database/repository.py:20-33 | an id in scope at every fetch and above the cursor is emitted |
| TodoPaging.RestAfterPage | src/todos_app/todos/adapters/database/repository.py:28-33 | on a fixed table a page and what is above its cursor partition what was above the previous one |
| TodoPaging.FixedWalkIsExact | src/todos_app/todos/adapters/database/repository.py:20-33 | on a fixed table the walk returns the sorted ids in scope, each once |
| TodoPaging.FixedWalkPageCount | src/todos_app/todos/adapters/database/repository.py:20-33 | in max(1, n / limit rounded up) pages |
| TodoPaging.FixedWalkIsAWalk | src/todos_app/todos/adapters/database/repository.py:20-33 | a walk over a fixed table is the changing-table walk with equal tables |
| TodoOperations.GetTodoForActor | src/todos_app/todos/application/get_todo.py:9-20 | the todo in the actor's scope, or not found |
| TodoOperations.CreateTodoForActor | src/todos_app/todos/application/create_todo.py:8-29 | inserts with the owner the actor may choose |
| TodoOperations.ReadForUpdate | src/todos_app/todos/application/update_todo.py:24-44 | the read half of an update: not found, owner change forbidden, or the merged entity |
| TodoOperations.WriteForUpdate | src/todos_app/todos/application/update_todo.py:44-48 | the write half, on the table as it is by then |
| TodoOperations.UpdateTodoForActor | src/todos_app/todos/application/update_todo.py:15-48 | both halves with nothing in between |
| TodoOperations.DeleteTodoForActor | src/todos_app/todos/application/delete_todo.py:9-25 | looks the todo up in scope, then deletes it in scope |
| TodoOperations.UndisturbedUpdate | src/todos_app/todos/adapters/api/mappers.py:23-44 | an update alone succeeds exactly for a todo in scope, an owner the actor may set, and nothing the table refuses; then it writes each set field, keeps each unset one and every other row, and else writes nothing |
| TodoOperations.CreateIsExact | src/todos_app/todos/application/create_todo.py:17-29 | a create succeeds exactly for a new id and an owner who is a user, adds one row with what was asked for, completed only if that was said, and only an admin chooses another owner |
| TodoOperations.DeleteIsExact | src/todos_app/todos/application/delete_todo.py:16-25 | a delete alone succeeds exactly for a todo in scope, and removes that one |
| TodoOperations.InterleavedIsAtomicExactlyIf | src/todos_app/todos/application/update_todo.py:24-48 | an update that read one table and writes to a later one does what it would have done on the later one in one go exactly if the todo is out of scope by then, or the table refuses the change anyway, or no field it leaves unset changed in between; else that change is lost |
| TodoAnswers.UpdateIsFinished | src/todos_app/todos/application/update_todo.py:44-48 | whatever happened since its read, an update that finishes writes the todo it prepared exactly if that row is in scope by then and the table takes it, shows it in the row and in the answer, and else writes nothing |
| TodoAnswers.DeleteIsFinished | src/todos_app/todos/application/delete_todo.py:22-25 | a delete that finishes removes its row exactly if that is in scope by then, and else nothing |
| TodoAnswers.UpdateIsAnswered | src/todos_app/todos/application/update_todo.py:24-48 | an update with nothing in between: which answer it gets, not found, forbidden, refused or the todo, and the columns it leaves |
| TodoAnswers.DeleteIsAnswered | src/todos_app/todos/application/delete_todo.py:9-25 | likewise for a delete |
| TodoAnswers.CreateIsAnswered | src/todos_app/todos/application/create_todo.py:8-29 | a create is answered with the new row, column by column, and owned as the actor may have it |
| TodoAnswers.ReadIsAnswered | src/todos_app/todos/application/get_todo.py:9-20 | a read shows the row exactly if it is in scope, and changes nothing |
| TodoAnswers.ListIsAnswered | src/todos_app/todos/application/list_todos.py:8-17 | a listing has todos in scope above the cursor, as they stand, in order, no more than asked for, and none left out below its last; and a cursor, at its last, exactly if some are left out |
| TodoAnswers.TicketIsUsedOnce | src/todos_app/todos/application/update_todo.py:15-48 | a request is begun once, and its answer is final |
| TodoAnswers.AccountsComeAndGo | src/todos_app/users/application/hard_delete_user.py:9-22 | a new account changes no row, one that is deleted takes its todos with it and no other |
| TodoIsolation.StepKeepsInv | src/todos_app/todos/application/update_todo.py:34-45 | whatever interleaves, accounts that come and go included, every owner is a user and a pending update of someone who is not an admin carries his own id as owner |
| TodoIsolation.StepStaysInScope | src/todos_app/todos/application/update_todo.py:24-48 | a step of someone who is not an admin leaves every row he does not own at that moment identical, changes no row's owner, and adds only rows of his own |
| TodoIsolation.OwnRowsDecide | src/todos_app/todos/application/get_todo.py:16-20 | what he reads, and the entity an update prepares, depends on his own rows only |
| TodoIsolation.OwnWriteUpdate | src/todos_app/todos/application/update_todo.py:44-48 | the result of his write and the own rows it leaves depend on his own rows at that moment only |
| TodoIsolation.OwnWriteDelete | src/todos_app/todos/application/delete_todo.py:22-25 | likewise for a delete |
| TodoIsolation.OwnCreate | src/todos_app/todos/application/create_todo.py:17-29 | likewise for a create with a fresh id |
| TodoIsolation.OwnPage | src/todos_app/todos/application/list_todos.py:8-17 | the page he lists is the page over his own rows |
| TodoIsolation.OwnStep | src/todos_app/todos/application/update_todo.py:24-48 | each step of his, and the coming and going of his account, acts on his view (whether he is a user, own rows, pending requests, answers) as it would if that were everything |
| TodoIsolation.OthersStep | src/todos_app/todos/application/update_todo.py:24-48 | a step of another user who is not an admin, or another account that comes or goes, changes nothing in his view |
| TodoIsolation.OthersAreInvisible | src/todos_app/todos/application/update_todo.py:24-48 | two-run noninterference over whole runs: among users who are not admins, what one observes in any interleaving is what he would observe with all others' events removed |
| TodoIsolation.BystanderKeepsRows | src/todos_app/todos/application/update_todo.py:24-48 | in such a run, rows of users who take no part stay identical |
| TodoIsolation.AnswersComeFromOwnRows | src/todos_app/todos/application/update_todo.py:24-48 | even with admins acting between his reads and writes, his answers are computed from his own rows at his own steps |
| TodoIsolation.SameSightSameAnswers | src/todos_app/todos/application/update_todo.py:24-48 | two runs that show him the same own rows at his steps give him the same answers |
| Accounts.SqlUserRepository.Add | src/todos_app/users/adapters/database/repository.py:21-37 | one new user with a lower-cased name; refused for a used id, name or email |
| Accounts.SqlUserRepository.GetByUsername | src/todos_app/users/adapters/database/repository.py:47-53 | a user of that name in any case of letters, or none exactly if there is none |
| Accounts.SqlUserRepository.Update | src/todos_app/users/adapters/database/repository.py:55-77 | changes the one row or none; refused for a null or a name or email of another user |
| Accounts.SqlUserRepository.Delete | src/todos_app/users/adapters/database/repository.py:79-86 | removes the user's todos and then the user; the foreign key never stands in the way |
| Accounts.SqlUserRepository.CountActiveAdmins | src/todos_app/users/adapters/database/repository.py:88-91 | counting row by row gives the number of active admins, which is at most one exactly if no two users are active admins |
| Accounts.LowerIs | src/todos_app/auth/application/authenticate.py:20 | lower case: a small letter for each capital, everything else as it is |
| AccountOperations.UpdateUser | src/todos_app/users/application/update_user.py:11-35 | not found, an error of the merge, a refused row, or the row persisted with a raised version for a new hash and its cache entry gone |
| AccountOperations.PersistUserUpdate | src/todos_app/users/application/_support.py:8-12 | a missing row becomes not found |
| AccountOperations.GuardLastAdmin | src/todos_app/users/application/_support.py:15-22 | speaks up exactly for an active admin when no more than one is counted |
| AccountOperations.DeactivateUser | src/todos_app/users/application/deactivate_user.py:9-18 | guard, then inactive row, then cache entry gone; errors change nothing |
| AccountOperations.HardDeleteUser | src/todos_app/users/application/hard_delete_user.py:9-22 | guard, then todos, user and cache entry gone; errors change nothing |
| AccountOperations.CreateUser | src/todos_app/users/application/create_user.py:5-17 | inserts with a lower-cased name |
| AccountOperations.Authenticate | src/todos_app/auth/application/authenticate.py:12-31 | issues a token exactly if there is an active user of that name whose password it is, and for that user's current name, role and version |
| AccountOperations.GetCurrentUser | src/todos_app/auth/adapters/api/current_user.py:24-48 | recognises exactly a token of an existing active user with the current version, as what the table says, and caches that |
| AccountOperations.MergeIsExact | src/todos_app/users/adapters/api/mappers.py:34-107 | a change is accepted exactly with the passwords it has to give, keeps id and version, and gives each column what it says or what was there |
| AccountOperations.UpdateIsExact | src/todos_app/users/application/update_user.py:18-35 | an update succeeds exactly if it fits; then it writes one row, column by column as the change says, and raises the version exactly for a new hash; else nothing changes |
| AccountOperations.UpdateSucceedsExactlyIf | src/todos_app/users/application/update_user.py:18-35 | an update succeeds exactly if the user is there, the passwords it needs are given, it sets no null, and no other user has the email or the name |
| AccountOperations.SignupIsExact | src/todos_app/users/adapters/api/mappers.py:20-31 | a signup succeeds exactly for a new id, name and email, and makes an active user who is no admin, at version 0 |
| AccountRoutes.ChangeMe | src/todos_app/users/adapters/api/router.py:65-105 | a route on one's own account is the machine's operation on the caller |
| AccountRoutes.ChangeUser | src/todos_app/users/adapters/api/router.py:108-152 | a route on any account is refused to all but admins, and else the machine's operation on that account |
| AccountRoutes.DeleteUser | src/todos_app/users/adapters/api/router.py:155-169 | likewise for a removal, hard or not |
| AccountRoutes.Serve | src/todos_app/users/adapters/api/router.py:55-169 | recognising the caller and serving him is one step of the machine without a fault, the rollback of a failed request included |
| AccountRoutes.FailureKeepsTables | src/todos_app/shared/adapters/persistence/database.py:81-88 | an operation that fails has not touched the tables |
| AccountSafety.StepKeepsInv | src/todos_app/users/adapters/api/router.py:40-169 | every request, broken off at any point or not, and every expiry keeps names and emails unique, the cache coherent and todos owned by existing users |
| AccountSafety.RunKeepsInv | src/todos_app/users/adapters/api/router.py:40-169 | so does every run |
| AccountSafety.CacheIsCoherent | src/todos_app/auth/adapters/api/current_user.py:37-48 | in every state that whole requests lead to from one with the invariant, a cached identity is of an existing active user with the current name and role |
| AccountSafety.ReachableIsCoherent | src/todos_app/auth/adapters/api/current_user.py:37-48 | in every state that requests and expiries lead to from a program without accounts, names and emails are unique, every todo is a user's, and whoever is cached is an active user with his current name and role |
| AccountEffects.DeactivationIsExact | src/todos_app/users/application/deactivate_user.py:9-18 | a deactivation succeeds exactly for a user who is there and not the only active admin; then his row is inactive and else as it was, his cache entry is gone, and nothing else changes |
| AccountEffects.HardDeletionIsExact | src/todos_app/users/application/hard_delete_user.py:9-22 | a hard deletion succeeds exactly for the same users, and takes the row, the todos and the cache entry of the user and nothing else |
| AccountEffects.RemovedIsLockedOut | src/todos_app/auth/adapters/api/current_user.py:37-42 | after either, no token of that user is good for any request |
| AccountEffects.TurnedAwayExactlyIf | src/todos_app/auth/adapters/api/current_user.py:31-42 | a request is turned away, and changes nothing, exactly if its token is not of an active user at his current version |
| AccountEffects.ReadMeIsServed | src/todos_app/users/adapters/api/router.py:50-57 | reading one's own account shows the row, column by column, and caches who it is |
| AccountEffects.ChangeIsServed | src/todos_app/users/adapters/api/router.py:60-152 | a change of an account is made exactly if it fits and is the caller's to make, and then is that row, the answer, and a cache entry gone |
| AccountEffects.OwnPasswordNeedsCurrentOne | src/todos_app/users/adapters/api/mappers.py:34-47 | nobody sets himself a new password without the current one: which error a missing or a wrong one gives, and the hash stays |
| AccountEffects.RemovalIsServed | src/todos_app/users/adapters/api/router.py:155-169 | an admin's removal is the deletion when asked to be hard, and else the deactivation |
| AccountEffects.TodoIsAdded | src/todos_app/todos/application/create_todo.py:17-29 | a todo is added with the owner the caller may choose, if that is a user |
| AccountEffects.FaultIsRolledBack | src/todos_app/shared/adapters/persistence/database.py:81-88 | a request that breaks off anywhere leaves both tables as they were |
| AccountEffects.FaultIsSeenInCache | src/todos_app/auth/adapters/api/current_user.py:43-48 | and the cache as far as it got |
| AccountEffects.InsertionIsExact | src/todos_app/users/adapters/database/repository.py:21-37 | a user is added exactly under a new id with names and a role, and a name and an email of his own, column by column, and active unless said not to be |
| AccountEffects.SignupIsServed | src/todos_app/users/adapters/api/router.py:40-47 | a signup is served exactly for a new id, name and email, and adds and shows an active user who is no admin, at version 0 |
| AccountEffects.LoginIsServed | src/todos_app/auth/application/authenticate.py:12-31 | a login gives a token exactly for an active user of that name in any case whose password it is, with his current name, role and version |
| AccountEffects.ExpiryForgets | src/todos_app/auth/adapters/cache/valkey_user_auth_cache.py:26-31 | an expiry takes one entry from the cache |
| AccountTokens.StepGoesForward | src/todos_app/users/application/update_user.py:18-33 | in each step a user's version does not fall, rises with every change of hash, and changes only with one |
| AccountTokens.RunGoesForward | src/todos_app/users/application/update_user.py:18-33 | likewise over every run with fresh ids |
| AccountTokens.GoneForGood | src/todos_app/users/application/hard_delete_user.py:9-22 | a user who is gone never comes back under that id |
| AccountTokens.TokenRevocation | src/todos_app/users/application/update_user.py:18-35 | a token issued by a login and accepted later is of a user whose hash was the same in every state in between |
| AccountTokens.TokenIsGoodWhileHashIsKept | src/todos_app/auth/adapters/api/current_user.py:37-42 | a token is accepted at the end of a run exactly if its user's hash was kept in every state and he is active |
| AccountAdmins.GuardIsExact | src/todos_app/users/application/_support.py:15-22 | the guard stops exactly the removal of the only active admin |
| AccountAdmins.UpdateLosesAdmins | src/todos_app/users/adapters/api/mappers.py:66-107 | an admin's replacement or patch takes the last active admin away exactly if it fits and demotes or deactivates the only one |
| AccountAdmins.OnlyAbdicationLosesAdmins | src/todos_app/users/adapters/api/router.py:108-169 | among all requests and expiries, the count of active admins goes from positive to zero exactly when the only one replaces or patches himself with a change that fits and demotes or deactivates him; a deactivation or a hard deletion never does it |
| AccountAdmins.AbdicationHappens | src/todos_app/users/adapters/api/router.py:131-152 | and it does happen: the only admin there is patches his own role |
| AccountAdmins.AdminsRemain | src/todos_app/users/adapters/api/router.py:108-169 | every run without such a step keeps an active admin |
| AccountAdmins.LastAdminErrorIsExact | src/todos_app/users/adapters/api/router.py:155-169 | with a recognised caller, the last-admin error is given exactly if he removes himself and no other active admin exists |
| AccountAdmins.SelfUpdateKeepsRole | src/todos_app/users/adapters/api/mappers.py:50-63 | nobody changes his own role or whether he is active |
| AccountAdmins.UsersStayInPlace | src/todos_app/users/adapters/api/router.py:65-169 | a token that is not accepted changes nothing; a user who is not an admin changes at most his own row, neither role nor activity in it, and adds only own todos |
| ConfigTree.MergeIsIdempotent | src/todos_app/shared/config/merge.py:4-16 | merging a tree with itself changes nothing |
| ConfigTree.NothingIsIdentity | src/todos_app/shared/config/merge.py:4-16 | the empty table is the identity on both sides |
| ConfigTree.MergeIsAssociativeExactlyIf | src/todos_app/shared/config/merge.py:4-16 | merging three trees is associative exactly if, wherever a scalar of the middle one meets a table of the first and one of the last, the last covers the first key by key |
| ConfigTree.MergeIsOverlayExactlyIf | src/todos_app/shared/config/merge.py:4-16 | a merge gives back the overlay exactly if its tables have all keys of the base's |
| ConfigTree.SameShapesAssociate | src/todos_app/shared/config/merge.py:4-16 | in particular on trees whose common paths are tables in all or scalars in all |
| ConfigTree.TableScalarTable | src/todos_app/shared/config/merge.py:10-15 | the case in which it is not |
| ConfigTree.FlattenCommutesExactlyIf | src/todos_app/shared/config/merge.py:4-16 | by key path, the leaves of a merge are the base's overridden by the overlay's, exactly if a scalar replaces only tables without leaves and a table no scalar |
| ConfigFlatten.MergedAsTree | src/todos_app/shared/config/merge.py:4-16 | the loop over the overlay in the order of its keys, keys in their places and new ones at the end, is the merge of trees and keeps keys unique |
| ConfigFlatten.EnvironmentsOverrideExactlyIf | src/todos_app/shared/config/flatten.py:7-30 | where no two leaf paths of base and overlay get one environment name, which ConfigSettings shows for settings, what the pairs of a merge set is what the base's and then the overlay's set, exactly if a scalar replaces only tables without leaves and a table no scalar |
| ConfigFlatten.NameHasLeaf | src/todos_app/shared/config/flatten.py:18-30 | every name that the pairs set is the name of a leaf, and has its value |
| ConfigFlatten.LeafIsInEnvironment | src/todos_app/shared/config/flatten.py:18-30 | with names apart every leaf is set, to its own value |
| ConfigFlatten.PrintedInOrder | src/todos_app/shared/config/flatten.py:20-28 | items are printed one after the other |
| ConfigValues.ValueIs | src/todos_app/shared/config/flatten.py:12-15 | truth is printed as true and falsehood as false, and text as it is |
| ConfigValues.ValueIsRead | src/todos_app/shared/config/flatten.py:12-15 | every scalar, whole numbers included, is read back from its text by the kind of the setting |
| ConfigSettings.SettingIsNamed | src/todos_app/shared/config/flatten.py:7-9 | a setting is named by its section, an underscore and its field, a capital for each small letter |
| ConfigSettings.NamesAreApartExactlyIf | src/todos_app/shared/config/flatten.py:7-9 | for every schema of fields and sections with names of lower-case letters, digits and underscores, section names without any, the paths of all settings get different environment names exactly if no field at the top is called like a section, an underscore and one of its fields |
| ConfigSettings.SettingsAreApart | src/todos_app/shared/config/schema.py:26-151 | the program's own schema is such a schema, and meets that condition |
| ConfigSettings.MergedSettingsOverride | src/todos_app/shared/config/flatten.py:12-30 | for every such schema, settings made by merging two trees that fit it fit it as well, and set, whatever the order of their keys, what the base and then the overlay sets, without any condition on the trees |
| ConfigSettings.FittingTreesMerge | src/todos_app/shared/config/merge.py:4-16 | two trees that fit a schema merge into one that fits, and never have a scalar where the other has a table |
| ConfigSettings.OrderDoesNotShow | src/todos_app/shared/config/flatten.py:12-30 | with names apart, two dictionaries that differ in the order of keys only set the same |
| ConfigExport.SettingsAreNameable | src/todos_app/shared/config/export.py:36-37 | every name printed for the program's settings is one that a reader can tell from a comment and from the value |
| ConfigExport.RenderDotenv | src/todos_app/shared/config/export.py:23-38 | printing settings: a file from which a reader gets back the profile and every setting under its name, in order |
| ConfigExport.ValuesAreRead | src/todos_app/shared/config/export.py:23-38 | from the file, a reader who knows the kinds gets the value of every setting under its name, and nothing else but the profile |
| ConfigExport.MergedProfilesAreRead | src/todos_app/shared/config/export.py:23-38 | from the file of two merged profiles a reader gets what the first one sets, over it what the second one sets, and the profile's name where no setting has it |
| ConfigMerge.DeepMerge | src/todos_app/shared/config/merge.py:4-16 | over any two dictionaries in memory, sub-dictionaries shared between them or not: a new dictionary that shows the merge; neither argument is changed, and two trees that share nothing give a tree |
| ConfigMerge.MergedEntries | src/todos_app/shared/config/merge.py:7-15 | the loop over the overlay's keys, in any order, makes the entries of the merge |
| ConfigDicts.Descend | src/todos_app/shared/config/loader.py:151-154 | the inner loop reaches the section of a path exactly if all sections are there |
| ConfigDicts.SetLeaf | src/todos_app/shared/config/loader.py:151-155 | setting the leaf in place is the path update of the tree; a missing section leaves it as it was |
| ConfigDicts.ApplyDottedOverrides | src/todos_app/shared/config/loader.py:148-155 | all overrides in place: they succeed exactly if the sections exist and none lies below an earlier one, and are then one merge with their nested form |
| ConfigDicts.LeafIsSet | src/todos_app/shared/config/loader.py:155 | an assignment deep inside changes the tree at that path only, and keeps it a tree |
| ConfigDicts.RequireComposeUrl | src/todos_app/shared/config/loader.py:102-110 | the section's address if it is text and not blank |
| ConfigDicts.ApplyComposeUrls | src/todos_app/shared/config/loader.py:113-125 | succeeds exactly if both sections give an address, and is then one merge |
| ConfigDicts.AddressesAreComposed | src/todos_app/shared/config/loader.py:102-125 | the condition and the effect by keys: text that is not blank under both compose_url, which is then under url, and everything else stays |
| ConfigOverrides.SetPathIsMerge | src/todos_app/shared/config/loader.py:148-156 | one override is one merge exactly if its sections exist |
| ConfigOverrides.OverridesAreOneMerge | src/todos_app/shared/config/loader.py:148-156 | so are several, exactly if they are applicable |
| ConfigOverrides.OrderDoesNotMatter | src/todos_app/shared/config/loader.py:148-156 | any rearrangement of overrides none of which is at or below another gives the same tree, or fails as well |
| ConfigOverrides.OverridesTouchNothingElse | src/todos_app/shared/config/loader.py:148-156 | whatever is apart from every override stays |
| ConfigOverrides.OverrideHolds | src/todos_app/shared/config/loader.py:148-156 | an override holds in the end if all later ones are apart from it |
| Dotenv.ThreeReplacesAreOnePass | src/todos_app/shared/config/export.py:13 | the three replacements in a row escape each character once |
| Dotenv.LeftBareExactlyIf | src/todos_app/shared/config/export.py:9-20 | a value is left bare exactly if it is not empty and has none of eight characters, and else quoted and escaped |
| Dotenv.RenderDotenv | src/todos_app/shared/config/export.py:23-38 | the header, the profile if it is not empty, then one line a pair |
| Dotenv.LineIsRead | src/todos_app/shared/config/export.py:9-20 | a reader of bare and double-quoted values (section 2.2.3 of the POSIX Shell Command Language) gets any value back from its line, line ends included |
| Dotenv.DotenvRoundTrip | src/todos_app/shared/config/export.py:23-38 | and from the whole file exactly the list of names and values |
| DotenvShell.ShellReadsExactlyIf | src/todos_app/shared/config/export.py:9-20 | a shell that sources the file gets a value right, whatever commands print, exactly if it has no backquote and, when left bare, no operator or single quote and no tilde that expands |
| DotenvShell.SafeIsRead | src/todos_app/shared/config/export.py:9-20 | then it is read as it is, outside and inside quotes |
| DotenvShell.SemicolonCutsValue | src/todos_app/shared/config/export.py:17-20 | one value it gets wrong: a;b is left bare and assigned as a |
| DotenvShell.SingleQuotesVanish | src/todos_app/shared/config/export.py:17-20 | and another, which loses its single quotes |

## Left out

- Idempotency: `_inject_body`, response headers other than the content type, the bearer header parsing and the error bodies; the decoded principal is a parameter.
- Idempotency: a payload that is JSON but not an object, which the code answers with an unhandled error; no payload the store writes is one.
- Idempotency: the clock counts whole units, an entry is gone when its expiry is reached, and the time to live is positive.
- Json.RoundTrip: objects of null, booleans, integers and strings; nested containers, fractions, exponents and lone surrogates count as text that does not parse.
- Text: upper and lower case change ASCII letters only, and white space is that of the code points up to 255.
- QueryCanonical.RoundTrip: the standard library's limit on the number of fields and its separators other than `&` are not used by the code.
- Todos: length limits; a new id is a parameter.
- TodoTable.FakeTodoRepository.ListPage: the fake's other methods, which the SQL form states.
- TodoPaging.WalkOverChangingTable: a walk that never meets a page without a cursor has no last page; the last clause is about walks that end.
- Accounts: requests are whole; the code takes no row locks, and nothing is stated for interleaved account updates.
- Accounts: password hashing, token signing and expiry (a token that does not decode is a missing one), rate limits, field lengths, and the text form of a cached identity.
- Accounts: `get_active_user` of the cache, which no route calls.
- AccountRoutes.Serve: adding a todo is a step of the machine, not one of these routes.
- Accounts: a commit that takes effect although the caller is told it failed is a request without a fault, as far as the state goes.
- Accounts.SqlUserRepository.GetByUsername: with several users of one name it returns one of them; the unique index excludes that, and so does the invariant.
- ConfigMerge.DeepMerge: the loop takes the overlay's keys in any order, and the order of keys in the result is not modelled there but in ConfigFlatten.
- ConfigDicts.SetLeaf: in-place changes are to trees, in which no dictionary is held twice.
- ConfigDicts.ApplyDottedOverrides: values set are scalars; the validation of the result and the overrides already made when a later one fails are not modelled.
- ConfigTree.FlattenCommutesExactlyIf: speaks of key paths only; ConfigFlatten has the environment names.
- ConfigFlatten.EnvironmentsOverrideExactlyIf: leaves are text, whole numbers and truth values; it speaks of names that are apart, as those of all settings are, and ConfigFlatten.CollidingNamesDiffer shows that other dictionaries need not have such names.
- ConfigSettings.MergedSettingsOverride: scalars are printed as they are given; what validation makes of them (defaults, conversions, limits) is not modelled.
- Dotenv.RenderDotenv: takes the pairs as they come; ConfigExport.RenderDotenv takes settings.
- DotenvShell.ShellReadsExactlyIf: bash's array assignment and process substitution, a quote that runs on into later lines, and the Compose reader; a tilde that expands gives something that does not start with a tilde.
- Profile files, settings validation (the choices and limits of the schema), compose files, the MCP server, shell scripts, migrations and seeding.
