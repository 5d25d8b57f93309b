# Verified model of Open-rush

A Dafny model of the parts of Open-rush where correctness is hardest to see, with proofs. `dafny verify dfyconfig.toml`
checks everything. Code that updates variables, fields or buffers is modelled as methods and classes; each is proved
against a function of its inputs and old state, and the guarantees are lemmas about that function.

## What is modelled

**The run event log and its delivery.** Writers append to a log per run through a store that alone numbers the entries:
in memory with a chain of promises per run (`EventLog`), in Postgres with an advisory lock and `MAX + 1`
(`PgEventStore`). Both refine one atomic append. `PgAppend` is Postgres' insert-or-read append; `IdempotentConsumer`
is the at-least-once path over the same store.
Readers get the log as `id:`/`data:` frames: `SseFrames` splits chunks, `SseEvents` writes and parses a frame,
`SseFields` says what the fields of a frame mean, `SseStream` reads one connection, `SseReconnect` is the SDK's
reconnect loop, and `SseIds` has what holds of the delivered ids whatever the payloads are. A `World` holds every
choice the reader does not make: replies, chunk boundaries, where a connection breaks, the reconnect policy and aborts.
`RunChatStream` is the browser's second reader of the same frames. `EndToEnd` puts writers and consumer together.
Frames follow sections 9.2.4 to 9.2.6 of the WHATWG HTML Living Standard (LF only); payloads follow RFC 8259 (`Json`,
`JsonLaws`): `JsonGrammar` writes its grammar out as trees and proves that the parser reads exactly that, and
`JsonForms` lists the forms of printed text and of numbers.

**Versioned agent definitions.** `AgentDefinitions` has the rows, the two snapshot spellings and the service's
operations; `AgentTransactions` lets create, patch and archive transactions interleave under row locks with each
other and with the older agent store, which writes the same rows; `KeysetPaging` and `AgentListing` are the
cursor-paginated lists over a table that changes between pages.

**Smaller cores.** Canonical JSON comparison (`Compare`), the sliding-window limiter and its Redis script
(`RateLimiter`, `RedisRateLimiter`), JSON-RPC 2.0 request matching (`McpClient`), cosine similarity and greedy
re-ranking over the reals (`HybridSearch`), completing truncated JSX (`JsxTags`, `JsxDocuments`, `JsxOpenTags`), and
run statuses with the two-step lock release (`TaskLock`). `Text`, `Numbers` and `Sorting` model the host language's
string, number and sorting operations.

## Where the code does less than its comments say

- The flush at the end of a connection can deliver an event that was never sent: a payload that is a bare number of
  several digits, cut inside the number, parses as a different number under the right id, and the whole event is then
  filtered out as already seen. `SseEvents.CutSafeIff` and `SseReconnect.ExactIffUncuttable` give the exact condition.
  Object payloads, the only ones the protocol defines, are never affected.
- A `null` payload makes the terminal-event test throw after the event was handed over, which sends the reader through
  its error branch (`SseReconnect.DeliverAll`). Delivery stays exact.
- The two transition tables disagree on three pairs (`TaskLock.TablesDiffer`), and only one of them calls `failed`
  terminal; the model's steps use the table the run service uses.
- A head run is not always completed: creation with a first run sets it to a queued run, and a status write that was
  decided on an older status can overwrite `completed` (`TaskLock.FirstRunIsQueuedHead`,
  `TaskLock.StaleCancelFailsTheHead`). `TaskLock.StepKeepsIff` and `TaskLock.HeadsCompletedIff` give the exact steps.
- The Redis script counts a repeated member once: a call with the same time and random suffix as an earlier one is
  granted again and again without any limit (`RedisRateLimiter.RepeatsAreGrantedWithoutEnd`). It decides as the
  in-memory limiter does exactly as long as no granted call repeats a live member (`RedisRateLimiter.SameDecisionsIff`).
- A request whose params cannot be printed as JSON (a cycle, a `bigint`) is rejected at once but stays in the client's
  table with a live timer (`McpClient.ThrowingSendIsOpenAndSettled`). `McpClient.NeverBothIff` says exactly when no
  id is open and settled at once.
- A reply whose error has a `code` or `message` without a string form (an object with a member `toString`) removes the
  request before the error message is made, which throws: its promise is never settled
  (`McpClient.FirstRequestIsLost`; exact condition in `McpClient.ExactlyOneIff`).
- The older agent store inserts agents without a first version and overwrites fields without a version, even of archived
  agents (`AgentTransactions.LegacyAgentHasNoFirstVersion`, `AgentTransactions.OverwriteIsNotVersioned`,
  `AgentTransactions.ArchivedRowIsOverwritten`). Current versions read as the live definition exactly while neither
  happens (`AgentTransactions.ReadsAsLiveIff`), and archived rows stay as they are exactly while no such update touches
  them (`AgentTransactions.ArchivedRowStaysIff`).
- A connection that brings nothing new counts as the end of the run, even when it was cut before its first event
  (`SseReconnect.CutAtOnceEnds`, `SseReconnect.NothingNewIsCompleteIff`).
- `projectId` is documented to take precedence over `projectIds`, but an empty `projectIds` lists nothing whatever
  `projectId` says (`AgentListing.PrecedenceIff`).

## Model

| member | source | states |
|---|---|---|
| `SseFrames.SplitIsExact` | packages/sdk/src/sse.ts:153-160 | splitting at blank lines loses no character, and no frame nor the rest hides a break |
| `SseFrames.SplitOfGlue` | packages/sdk/src/sse.ts:153-160 | that decomposition of a body is the only one |
| `SseFrames.SplitResumes` | packages/sdk/src/sse.ts:153-160 | splitting may stop after any character and go on from the kept buffer: same frames, same rest |
| `SseFrames.DrainBuffer` | packages/sdk/src/sse.ts:154-160 | the inner loop takes off exactly the non-blank complete frames and keeps what follows the last break |
| `SseFrames.IterateSseFrames` | packages/sdk/src/sse.ts:138-173 | for every text and every way of cutting it into chunks the frames are those of the whole text; at a regular end a tail that is not white space follows |
| `Numbers.NumberOfDecimal` | packages/sdk/src/sse.ts:198-201 | the decimal text of a positive integer passes the id test with its own value |
| `JsonForms.PositiveIntegerIff` | packages/sdk/src/sse.ts:198-201 | a text passes the id test as n if and only if its number is n and n is positive |
| `JsonForms.ExponentMeans` | packages/sdk/src/sse.ts:198-201 | an exponent in the text of a number multiplies or divides by a power of ten |
| `JsonForms.SpaceAround` | packages/sdk/src/sse.ts:198-201 | white space around a number does not matter |
| `SseEvents.ParseSseFrame` | packages/sdk/src/sse.ts:187-214 | the loop over lines computes the frame parser, with each early `null` where the code returns it |
| `SseFields.ParseFrameIff` | packages/sdk/src/sse.ts:187-214 | on every text: an event is parsed if and only if every `id` field is a positive integer, the last of them is the event's, and the `data` fields in order, glued by newlines, are JSON for its payload |
| `SseEvents.ParseServerFrame` | packages/sdk/src/sse.ts:175-214 | a frame as the server writes it parses back to the event, with or without a trailing newline |
| `SseEvents.CutFrame` | packages/sdk/src/sse.ts:162-164 | whatever is cut off a frame, the flush yields nothing or an event under the same id; the event itself unless the payload is a number literal with a shorter literal in front |
| `SseEvents.CutSafeIff` | packages/sdk/src/sse.ts:187-214 | every cut of a frame parses to nothing or to its event if and only if the payload is not such a number |
| `SseStream.ReadSingleConnection` | packages/sdk/src/sse.ts:222-244 | one connection yields exactly the parsed events of its body past the last id, in body order |
| `SseStream.CutBody` | packages/sdk/src/sse.ts:162-164 | a body cut at any character yields an initial part of the events past the id, when none of these has a payload that is a number of several digits |
| `SseStream.WholeBody` | packages/sdk/src/sse.ts:138-173 | an uncut body yields all its events |
| `SseReconnect.DeliverAll` | packages/sdk/src/sse.ts:281-294 | every event is handed over and its id remembered before its payload is looked at; a null payload throws after that |
| `SseReconnect.HandleError` | packages/sdk/src/sse.ts:320-331 | the catch branch: abort ends silently, a refusing or throwing policy or an aborted sleep throws, otherwise the loop goes round |
| `SseReconnect.HandleEof` | packages/sdk/src/sse.ts:315-319 | the end-of-stream branch: a throwing policy falls into the catch branch, an aborted sleep ends silently |
| `SseReconnect.HandleReply` | packages/sdk/src/sse.ts:278-319 | one streamed reply: what is delivered and which branch follows |
| `SseReconnect.StreamEvents` | packages/sdk/src/sse.ts:266-333 | the reconnect loop computes the run of turns, for every world of replies, policies and aborts |
| `SseReconnect.FreshMeans` | packages/sdk/src/sse.ts:138-173 | a body hands on the parsed events past the last id of its complete frames, and of its tail exactly when it ended regularly |
| `SseReconnect.TurnHandsOver` | packages/sdk/src/sse.ts:281-294 | a turn delivers every fresh event, or those up to and including the first null payload, and remembers the last delivered id |
| `SseReconnect.ClosingEventEnds` | packages/sdk/src/sse.ts:248-315 | a regularly ended body with an event of type `data-openrush-run-done` ends the iteration whatever the policy would answer |
| `SseReconnect.OtherBodiesAskPolicy` | packages/sdk/src/sse.ts:315-319 | without such an event the iteration never ends as done: no fresh events end it, any others ask the policy with cause `eof`, and what follows each answer |
| `SseReconnect.ErrorsAskPolicy` | packages/sdk/src/sse.ts:320-331 | a refused request, a broken body and a null payload ask the policy with the error, unless it is an abort; what follows each answer |
| `SseReconnect.DeliversExactPrefix` | packages/sdk/src/sse.ts:222-333 | in the same runs the events themselves, not only their ids, are those of the log, when none past the start has such a payload |
| `SseIds.CutBodyIds` | packages/sdk/src/sse.ts:162-164 | whatever the payloads, a body cut at any character yields events under the first ids past the last one, in order |
| `SseIds.DeliversIdsInOrder` | packages/sdk/src/sse.ts:222-333 | whatever the payloads, over any connections, each cut anywhere, honouring Last-Event-ID or not, with the log growing: the delivered ids followed by those a resume would ask for are exactly the ids of the log after the start |
| `SseIds.IdsGrow` | packages/sdk/src/sse.ts:239-242 | no id is delivered twice, out of order or after a skipped one |
| `SseReconnect.RunDoneIsComplete` | packages/sdk/src/sse.ts:315-315 | when the run-done event closes the log, ending on it means all of the log was delivered, under the same condition on payloads |
| `SseReconnect.CuttableIsAltered` | packages/sdk/src/sse.ts:162-164 | for every log with such a number payload past the start there are connections, all serving the log, after which delivery is not exact |
| `SseReconnect.ExactIffUncuttable` | packages/sdk/src/sse.ts:222-333 | delivery is exact in every world that serves the log if and only if no event past the start has such a number payload |
| `SseReconnect.DefaultPolicyTerminates` | packages/sdk/src/sse.ts:107-107 | a policy that stops after five attempts ends the iteration within six turns |
| `SseReconnect.EverythingArrives` | packages/sdk/src/sse.ts:266-333 | if delivery was exact so far and from some turn on connections bring whole bodies, the policy goes on and nothing aborts, the iteration ends with everything delivered, within one turn an event and one more |
| `SseReconnect.NothingNewIsCompleteIff` | packages/sdk/src/sse.ts:295-315 | ending because a body of the first m events brought nothing new is complete if and only if nothing is left behind those m |
| `SseReconnect.CutAtOnceEnds` | packages/sdk/src/sse.ts:295-315 | a connection cut before its first event ends the iteration silently with events missing |
| `RunChatStream.ReadBlock` | apps/web/lib/run-chat-stream.ts:34-55 | one block yields its event, the end marker, or nothing, as its last `id: ` and last `data: ` line say; the literal `[DONE]` is the end marker |
| `RunChatStream.ReadRunSseStream` | apps/web/lib/run-chat-stream.ts:21-57 | incremental reading yields the events of the blocks of the whole text, each chunk normalised on its own |
| `RunChatStream.NormalizeFirst` | apps/web/lib/run-chat-stream.ts:30-30 | the first CRLF becomes LF, and so on behind it |
| `RunChatStream.ParseIntReads` | apps/web/lib/run-chat-stream.ts:39-39 | white space, a sign and digits read as that number, whatever follows the digits |
| `RunChatStream.ParseIntFinds` | apps/web/lib/run-chat-stream.ts:39-39 | and no other text reads as a number |
| `RunChatStream.BlockOfServerFrame` | apps/web/lib/run-chat-stream.ts:34-55 | a server frame reads as its own id and payload |
| `RunChatStream.ReadersAgree` | apps/web/lib/run-chat-stream.ts:12-57 | on complete LF-only bodies of server frames, however chunked, both readers give the ids and payloads the server wrote |
| `RunChatStream.CutBodyIsPrefix` | apps/web/lib/run-chat-stream.ts:21-57 | on a body cut at any character, however chunked, the browser reader sees an initial part of the events, none of them altered |
| `JsonLaws.RoundTrip` | packages/sdk/src/sse.ts:209-209 | parsing the printed text of a value gives the value back |
| `JsonLaws.PrintPrintable` | apps/web/app/api/v1/agents/[agentId]/runs/[runId]/events/route.ts:224-225 | printed JSON holds no control character, so a payload never breaks its frame |
| `JsonLaws.CutNeverParses` | packages/sdk/src/sse.ts:208-213 | no proper beginning of the printed text of a value is itself JSON, save for number literals |
| `JsonGrammar.ParsesIff` | packages/sdk/src/sse.ts:209-209 | `JSON.parse` accepts a text if and only if the grammar of RFC 8259 generates it, and gives the value the text denotes: white space, escapes, surrogate pairs, nesting, repeated names |
| `JsonForms.NumberFormFinds` | packages/sdk/src/sse.ts:209-209 | a number literal is an optional minus, digits without a leading zero, and optionally a fraction and an exponent |
| `JsonForms.AssembleIs` | packages/sdk/src/sse.ts:209-209 | of members with the same name the last one counts |
| `Compare.LessTextTotal` | e2e/llm-router/lib/compare.ts:27-29 | of two different names exactly one comes before the other, and none before itself |
| `Compare.LessTextIff` | e2e/llm-router/lib/compare.ts:27-29 | one name comes before another if and only if its UTF-16 code units are a proper beginning of the other's, or the first differing unit is smaller |
| `Compare.StableTextIsSorted` | e2e/llm-router/lib/compare.ts:24-31 | the stable text is JSON whose members are in that ascending order at every depth |
| `Compare.StableIsPrintOfCanon` | e2e/llm-router/lib/compare.ts:24-31 | the stable text is the plain JSON text of the value with all members sorted |
| `Compare.StableTextDecidesSame` | e2e/llm-router/lib/compare.ts:24-31 | two values have equal stable text if and only if they are equal up to member order at every depth |
| `Compare.StableTextParses` | e2e/llm-router/lib/compare.ts:24-31 | the stable text is JSON for the same value |
| `Compare.OmitKeys` | e2e/llm-router/lib/compare.ts:38-45 | the loop keeps exactly the members whose name is not omitted, in order |
| `Compare.DeepEqualExcept` | e2e/llm-router/lib/compare.ts:34-36 | holds if and only if the values agree outside the omitted top-level names |
| `EventLog.InsertEvent` | packages/control-plane/src/event-store.ts:93-95 | push and sort put an event with a new seq in its place and keep the log strictly increasing |
| `EventLog.InMemoryEventStore.constructor` | packages/control-plane/src/event-store.ts:61-69 | a new store holds no events and no chains |
| `EventLog.InMemoryEventStore.Append` | packages/control-plane/src/event-store.ts:71-98 | rejects a negative seq, answers a known (run, seq) with the stored event unchanged, otherwise adds exactly this event with its defaults to its run; order of the checks included |
| `EventLog.InMemoryEventStore.AppendAssignSeq` | packages/control-plane/src/event-store.ts:100-109 | a call joins the end of its run's chain and nothing else changes |
| `EventLog.InMemoryEventStore.DoAssignSeq` | packages/control-plane/src/event-store.ts:111-132 | adds exactly this event with a seq one above the largest stored one, or fails and changes nothing |
| `EventLog.InMemoryEventStore.RunChain` | packages/control-plane/src/event-store.ts:102-107 | the oldest call of a chain runs, and the chain goes on whether or not it failed |
| `EventLog.InMemoryEventStore.GetEvents` | packages/control-plane/src/event-store.ts:134-137 | exactly the events past the given seq, in increasing order |
| `EventLog.InMemoryEventStore.GetLastSeq` | packages/control-plane/src/event-store.ts:139-143 | the largest stored seq, or -1 |
| `EventLog.InMemoryEventStore.DetectGaps` | packages/control-plane/src/event-store.ts:145-172 | lists, in order and once each, exactly the seqs absent between two stored ones |
| `EventLog.AssignIsAppend` | packages/control-plane/src/event-store.ts:111-132 | on a log numbered 1..n an assignment is one atomic append at n + 1; a failing one uses no seq |
| `EventLog.LogIsNumberedCalls` | packages/control-plane/src/event-store.ts:100-132 | in every interleaving of callers on any runs, some failing, each run's log is the successful calls in call order numbered 1..n |
| `EventLog.StepIsAtomic` | packages/control-plane/src/event-store.ts:100-132 | every step of the promise-chain store is one atomic append or nothing |
| `PgEventStore.ActionKeeps` | packages/control-plane/src/drizzle-event-store.ts:86-111 | every transaction step keeps the rows equal to the atomic log and the locks exclusive |
| `PgEventStore.RunRefinesAtomicLog` | packages/control-plane/src/drizzle-event-store.ts:82-112 | every run of concurrent transactions is a run of the atomic log; committed rows are always the seqs 1..n, also when runs share a lock key |
| `PgEventStore.CommitFindsFreeKey` | packages/control-plane/src/drizzle-event-store.ts:89-98 | the (run, seq) key a transaction inserts is always free |
| `PgEventStore.EnabledIff` | packages/control-plane/src/drizzle-event-store.ts:82-111 | when a call can begin, get its lock, commit or fail: it waits exactly while another call holds a lock with the same key |
| `PgEventStore.BegunWith` | packages/control-plane/src/drizzle-event-store.ts:82-112 | over every run, what a call commits is the run and content it was begun with |
| `PgAppend.OneInserterEach` | packages/control-plane/src/drizzle-event-store.ts:23-66 | however insert-or-read calls interleave, each stored (run, seq) has exactly one call told that it inserted, the row holds its content, and every other call answered for it was told the stored event |
| `PgAppend.ConflictFindsRow` | packages/control-plane/src/drizzle-event-store.ts:52-60 | the read after a conflict always finds a row, and rows never change |
| `PgAppend.BegunWith` | packages/control-plane/src/drizzle-event-store.ts:23-66 | over every run a call is rejected if and only if its seq is negative, and otherwise keeps the run, seq and content it was begun with |
| `IdempotentConsumer.Consumer.Consume` | packages/control-plane/src/idempotent-consumer.ts:15-27 | appends, then reports accepted or duplicate, the stored event, and the gaps of the log after the append and the deliveries that came in between |
| `IdempotentConsumer.ReportedGaps` | packages/control-plane/src/idempotent-consumer.ts:15-27 | the missing seqs it reports are exactly those no delivery before, meanwhile or of its own has brought, between two that were brought |
| `IdempotentConsumer.DeliveredLog` | packages/control-plane/src/event-store.ts:71-98 | after any deliveries a run's log is the sorted list of the first event of each seq |
| `IdempotentConsumer.SeqDelivered` | packages/control-plane/src/event-store.ts:71-98 | a seq is stored exactly when some acceptable delivery brought it |
| `IdempotentConsumer.LogIsDistinctEvents` | packages/control-plane/src/idempotent-consumer.ts:15-27 | with one payload per (run, seq) the log is exactly the set of distinct delivered events, sorted |
| `IdempotentConsumer.OrderAndRepeatsDoNotMatter` | packages/control-plane/src/idempotent-consumer.ts:15-27 | deliveries that bring the same events in any order and number leave the same log |
| `EndToEnd.LogGrows` | packages/control-plane/src/event-store.ts:100-137 | whatever the writers do a run's log only grows at its end |
| `EndToEnd.ConsumerSeesTheWritersLog` | packages/sdk/src/sse.ts:222-333 | writers interleaving and failing on the in-memory store, the log replayed as it stands, connections cut anywhere: the consumer gets seqs start + 1, start + 2, … none missing, none twice, with exactly the writers' contents under the same condition |
| `EndToEnd.ConsumerSeesCommittedRows` | packages/control-plane/src/drizzle-event-store.ts:82-122 | the same for the committed rows of concurrent transactions on the database store |
| `AgentDefinitions.AllFieldsListed` | packages/control-plane/src/agent-definition-service.ts:226-240 | every editable field is in the key list the patch picker goes through |
| `AgentDefinitions.SnapshotsReadBack` | packages/control-plane/src/agent-definition-service.ts:302-360 | a snapshot in either spelling reads back as the fields it was written from |
| `AgentDefinitions.MigratedKeys` | packages/control-plane/src/agent-definition-service.ts:302-360 | the keys of a migrated snapshot: one-word fields as they are, the others in snake case |
| `AgentDefinitions.AgentDefinitionService.Create` | packages/control-plane/src/agent-definition-service.ts:403-436 | one row at version 1 and one first snapshot, with every field, the note and the author as given |
| `AgentDefinitions.AgentDefinitionService.Get` | packages/control-plane/src/agent-definition-service.ts:442-446 | the current row, archived or not, or not found |
| `AgentDefinitions.AgentDefinitionService.GetByVersion` | packages/control-plane/src/agent-definition-service.ts:525-543 | succeeds exactly when agent and version exist; which of the three errors otherwise |
| `AgentDefinitions.AgentDefinitionService.PickEditablePatch` | packages/control-plane/src/agent-definition-service.ts:377-388 | for every field: it is in the patch if and only if the body has its key with a defined value, and then with that value |
| `AgentDefinitions.AgentDefinitionService.Patch` | packages/control-plane/src/agent-definition-service.ts:594-665 | the checks in order; on success every field of the live row and of the new version is the body's value where it gives one and otherwise the old one, and nothing else changes |
| `AgentDefinitions.AgentDefinitionService.Archive` | packages/control-plane/src/agent-definition-service.ts:672-690 | sets the archive time once; archiving again changes nothing |
| `AgentTransactions.ActionKeeps` | packages/control-plane/src/agent-definition-service.ts:594-690 | every transaction step and every write of the older agent store keeps the state invariant |
| `AgentTransactions.PatchStartsIff` | packages/control-plane/src/agent-definition-service.ts:594-627 | a patch can start if and only if no transaction holds the row, If-Match is at least 1, the body gives some field, and the agent exists, is not archived and has that version; what it will write is the body's fields |
| `AgentTransactions.ArchiveStartsIff` | packages/control-plane/src/agent-definition-service.ts:672-690 | an archival can start if and only if the row is free and not archived; every transaction that has started can commit |
| `AgentTransactions.LegacyCreateIff` | packages/control-plane/src/agent/drizzle-agent-config-store.ts:55-83 | the older store can insert a row exactly under a free id, with its one provider and without a config |
| `AgentTransactions.LegacyUpdateWrites` | packages/control-plane/src/agent/drizzle-agent-config-store.ts:85-108 | an update of the older store writes the given fields, save for provider type and config, and the update time, and nothing else |
| `AgentTransactions.RunKeepsInv` | packages/control-plane/src/agent-definition-service.ts:403-690 | in every reachable state versions are exactly 1..currentVersion, or 2..currentVersion for an agent of the older store, snapshot v is the created fields with every change up to the (v - 1)-th patch folded in, and the live fields have all changes folded in |
| `AgentTransactions.CurrentVersionIsLive` | packages/control-plane/src/agent-definition-service.ts:525-543 | the current version can be read and agrees with the live definition, save for the update time, if and only if the agent has a version and what the older store wrote since the last patch changed nothing |
| `AgentTransactions.ActionReadsIff` | packages/control-plane/src/agent/drizzle-agent-config-store.ts:55-108 | from a state where all current versions read as live, exactly two actions lead to one where they do not: creating an agent in the older store and changing a field through it |
| `AgentTransactions.ReadsAsLiveIff` | packages/control-plane/src/agent/drizzle-agent-config-store.ts:55-108 | over every run each current version exists and reads as the live definition throughout if and only if no such action occurs |
| `AgentTransactions.CommitRestores` | packages/control-plane/src/agent-definition-service.ts:628-662 | whatever was overwritten before, once a patch commits the current version reads as the live definition again |
| `AgentTransactions.LegacyAgentHasNoFirstVersion` | packages/control-plane/src/agent/drizzle-agent-config-store.ts:55-83 | an agent of the older store has current version 1 and no version row, and after a patch version 2 alone |
| `AgentTransactions.OverwriteIsNotVersioned` | packages/control-plane/src/agent/drizzle-agent-config-store.ts:85-108 | an update of the older store leaves the current version behind the live definition |
| `AgentTransactions.OldVersionReads` | packages/control-plane/src/agent-definition-service.ts:525-543 | a stored version reads as it was written, whatever happened since |
| `AgentTransactions.SnapshotsNeverChange` | packages/control-plane/src/agent-definition-service.ts:594-690 | no written snapshot ever changes or disappears |
| `AgentTransactions.NoLostUpdate` | packages/control-plane/src/agent-definition-service.ts:620-626 | of all patches with the same If-Match at most one committed |
| `AgentTransactions.NothingAfterArchive` | packages/control-plane/src/agent-definition-service.ts:616-619 | after archiving, an agent's archive time, version number and versions never change again |
| `AgentTransactions.ArchivedRowStaysIff` | packages/control-plane/src/agent/drizzle-agent-config-store.ts:85-108 | over every run an archived row stays as it is if and only if no update of the older store changes a field or the update time of it |
| `AgentTransactions.ArchivedRowIsOverwritten` | packages/control-plane/src/agent/drizzle-agent-config-store.ts:85-108 | a run in which the older store changes the fields of an archived agent |
| `AgentTransactions.CommitIsAtomicPatch` | packages/control-plane/src/agent-definition-service.ts:607-664 | the two-step transaction under the row lock does what the whole patch would do at its commit |
| `KeysetPaging.PageIsPage` | packages/control-plane/src/agent-definition-service.ts:492-518 | a page is the first rows behind the cursor in order, with a cursor exactly when more remain |
| `KeysetPaging.WalkIsExact` | packages/control-plane/src/agent-definition-service.ts:492-518 | a walk over a changing table is in descending key order and, when it ended, met every key present throughout |
| `AgentListing.ClampLimit` | packages/control-plane/src/agent-definition-service.ts:693-696 | 50 by default, otherwise the limit rounded down and at most 200 |
| `AgentListing.PrecedenceIff` | packages/control-plane/src/agent-definition-service.ts:466-480 | a project takes precedence over a set of projects, as documented, if and only if the set is not empty |
| `AgentListing.List` | packages/control-plane/src/agent-definition-service.ts:464-519 | the newest matching entries by (millisecond, id) past the cursor, and a cursor to the last one exactly when more remain; nothing for an empty set of projects |
| `AgentListing.ListWalk` | packages/control-plane/src/agent-definition-service.ts:464-519 | following cursors lists every definition present and matching throughout exactly once, in order, for all limits, microsecond times and changes between pages |
| `AgentListing.ListVersions` | packages/control-plane/src/agent-definition-service.ts:549-575 | one page of versions in descending order with a cursor exactly when more remain; not found exactly when the agent is missing |
| `RateLimiter.RateLimiter.TryAcquire` | packages/agent-runtime/src/rate-limiter.ts:10-22 | prunes, grants when fewer than the maximum are left, and records exactly the grants |
| `RateLimiter.RateLimiter.GetRemaining` | packages/agent-runtime/src/rate-limiter.ts:24-29 | the number of attempts left in the window |
| `RateLimiter.RemainingIsExact` | packages/agent-runtime/src/rate-limiter.ts:24-29 | that number is how many attempts in a row would be granted now |
| `RateLimiter.RateLimiter.GetRetryAfterMs` | packages/agent-runtime/src/rate-limiter.ts:31-37 | the time until the oldest listed grant leaves the window |
| `RateLimiter.PrunedDecidesAsHistory` | packages/agent-runtime/src/rate-limiter.ts:10-22 | the pruned list decides every attempt as the full history of grants would |
| `RateLimiter.GrantedIff` | packages/agent-runtime/src/rate-limiter.ts:10-22 | on every history with a non-decreasing clock an attempt is granted if and only if fewer than the maximum of earlier ones were granted in the 60 seconds before it |
| `RateLimiter.WindowLimit` | packages/agent-runtime/src/rate-limiter.ts:10-22 | on every history with a non-decreasing clock at most the maximum of grants fall in any half-open 60-second window |
| `RateLimiter.ClosedWindowHoldsTwice` | packages/agent-runtime/src/rate-limiter.ts:14-14 | for every limit, as many grants at one moment and as many again exactly 60 seconds later are all made |
| `RateLimiter.RetryAfterIsExact` | packages/agent-runtime/src/rate-limiter.ts:31-37 | after a refusal under a positive limit an attempt later is granted if and only if at least the reported wait has passed |
| `RedisRateLimiter.RedisKey.Eval` | packages/agent-runtime/src/redis-rate-limiter.ts:10-25 | one evaluation of the script: drops what has expired or left the window, grants below the limit, and then adds the member with a 61-second expiry |
| `RedisRateLimiter.ScriptMeans` | packages/agent-runtime/src/redis-rate-limiter.ts:10-25 | what an evaluation leaves: exactly the entries that count, and the new one with a new expiry if those are fewer than the limit |
| `RedisRateLimiter.RedisKey.TryAcquire` | packages/agent-runtime/src/redis-rate-limiter.ts:38-50 | the caller's answer is the script's |
| `RedisRateLimiter.ExpiryDropsNothing` | packages/agent-runtime/src/redis-rate-limiter.ts:20-20 | the 61-second key expiry never drops an entry that still counts |
| `RedisRateLimiter.HistoryAgrees` | packages/agent-runtime/src/redis-rate-limiter.ts:10-25 | while no granted call repeats a live member the sorted set lists the in-memory limiter's timestamps |
| `RedisRateLimiter.SameDecisions` | packages/agent-runtime/src/redis-rate-limiter.ts:10-25 | on every history with one clock in which no granted call repeats a live member, the script decides every call as the in-memory limiter does |
| `RedisRateLimiter.SameDecisionsIff` | packages/agent-runtime/src/redis-rate-limiter.ts:10-25 | on every history with one clock, no granted call repeats a live member if and only if both decide alike on every beginning of it and on all continuations with fresh members |
| `RedisRateLimiter.RepeatsAreGrantedWithoutEnd` | packages/agent-runtime/src/redis-rate-limiter.ts:16-20 | with a limit above 1 the script grants the same call any number of times, where the in-memory limiter grants only as many as the limit |
| `McpClient.StdioMcpClient.constructor` | packages/mcp/src/client.ts:58-68 | a new client has no requests, and its first id is 1 |
| `McpClient.StdioMcpClient.Connect` | packages/mcp/src/client.ts:70-83 | without a command nothing happens; otherwise a process runs and the initialize request is sent |
| `McpClient.StdioMcpClient.Initialized` | packages/mcp/src/client.ts:121-121 | the notification that follows is written to a running process |
| `McpClient.StdioMcpClient.SendRequest` | packages/mcp/src/client.ts:124-137 | issues the next id, starts its timer and records it as open before printing; then writes one line to a running process, or, when the printer throws, rejects the promise and leaves the record |
| `McpClient.StdioMcpClient.HandleData` | packages/mcp/src/client.ts:144-161 | every complete line is handled in order and the unfinished one kept; what is not JSON, or has no known id, is ignored |
| `McpClient.StdioMcpClient.HandleResponse` | packages/mcp/src/client.ts:163-175 | an open request is closed first; then its promise is settled with the error if it is truthy, else the result, unless it was settled before or the error cannot be put into text; any other response changes nothing |
| `McpClient.StdioMcpClient.HandleTimeout` | packages/mcp/src/client.ts:127-130 | a firing timer removes its request and rejects it |
| `McpClient.StdioMcpClient.HandleExit` | packages/mcp/src/client.ts:177-184 | rejects every open request, in order, and forgets the process |
| `McpClient.StdioMcpClient.Close` | packages/mcp/src/client.ts:102-113 | the same on disconnecting |
| `McpClient.EveryRunKeeps` | packages/mcp/src/client.ts:102-184 | every order of steps keeps the invariant: only issued ids are open, with a live timer, or settled, once; and what a promise was settled with stays |
| `McpClient.EveryReachableStateKeeps` | packages/mcp/src/client.ts:102-184 | in every reachable state open and settled ids are issued ones, settled at most once, open exactly with a live timer, and both only when the send threw |
| `McpClient.ThrowingSendIsOpenAndSettled` | packages/mcp/src/client.ts:124-136 | a request whose params have no JSON text, sent to a running process, is rejected at once and stays open with a live timer |
| `McpClient.FirstSendThrows` | packages/mcp/src/client.ts:124-136 | for instance the first request of a client whose process runs |
| `McpClient.OpenOrSettledIff` | packages/mcp/src/client.ts:102-184 | after every run an issued id is open or settled if and only if no complete line answered it, while it was open and not settled, with an error whose code or message has no string form |
| `McpClient.NeverBothIff` | packages/mcp/src/client.ts:124-137 | after every run no id is both open and settled if and only if no send that threw is still open |
| `McpClient.ExactlyOneIff` | packages/mcp/src/client.ts:102-184 | after every run each issued id is open with a live timer or settled, never both, if and only if neither of these happened |
| `McpClient.FirstRequestIsLost` | packages/mcp/src/client.ts:163-172 | a first request answered by an error whose code is an object with a member toString is never settled, whatever comes after |
| `McpClient.LostForEver` | packages/mcp/src/client.ts:102-184 | no timeout, exit or disconnect ever settles a lost request |
| `McpClient.ExitSettlesAll` | packages/mcp/src/client.ts:177-184 | after exit or disconnect nothing is open, no timer lives, and an issued id is settled if and only if it was not lost that way |
| `McpClient.DataSettlesTheAnswered` | packages/mcp/src/client.ts:144-175 | after a chunk an open request is closed exactly when a complete line answers its id, and its promise settled as the first such line says unless its error has no string form; no other request changes |
| `McpClient.TwoChunks` | packages/mcp/src/client.ts:144-148 | two chunks do what one chunk with the same text does |
| `McpClient.ChunksDoNotMatter` | packages/mcp/src/client.ts:144-148 | how the child's output is cut into chunks does not matter |
| `McpClient.RequestIsOneLine` | packages/mcp/src/client.ts:134-135 | a request is written as one line that parses to the object of exactly `jsonrpc` 2.0, `method`, `params` and the issued `id` |
| `McpClient.NotificationIsOneLine` | packages/mcp/src/client.ts:139-142 | a notification is one line with exactly `jsonrpc`, `method` and `params` |
| `McpClient.SendOpens` | packages/mcp/src/client.ts:124-142 | sending opens a request with a live timer in any case; without a process nothing is written |
| `McpClient.LineAnswersIff` | packages/mcp/src/client.ts:144-165 | a line answers a request if and only if it is an object whose `id` is a number with a positive integer value |
| `McpClient.OutcomeMeans` | packages/mcp/src/client.ts:163-175 | an error member that is not null, false, zero or empty decides; without one the result does, or its absence |
| `McpClient.NoMessageIff` | packages/mcp/src/client.ts:169-171 | making the error message throws if and only if the error is an object whose code or message has no string form |
| `McpClient.NoTextIff` | packages/mcp/src/client.ts:169-171 | a parsed value has no string form if and only if it is an object with a member `toString` or an array that holds such a value |
| `McpClient.TimeoutMeans` | packages/mcp/src/client.ts:127-130 | a live timer closes its request and rejects it as timed out unless it was settled; no other request changes |
| `McpClient.EndMeans` | packages/mcp/src/client.ts:102-184 | exit and disconnect reject the open requests in the order they were made, each with its own reason |
| `McpClient.ReplySettlesItsRequest` | packages/mcp/src/client.ts:163-175 | a reply with a request's id closes that request and no other, settling it with the result or error unless the error has no string form |
| `McpClient.OtherIdTypesAreDropped` | packages/mcp/src/client.ts:163-165 | a reply whose id is the number as a string, or null, changes nothing |
| `HybridSearch.CauchySchwarz` | packages/memory/src/hybrid-search.ts:17-26 | the squared dot product is at most the product of the squared norms |
| `HybridSearch.CosineSim` | packages/memory/src/hybrid-search.ts:15-27 | the loop computes the dot product over the product of the norms, 0 for empty, unequal or zero vectors, and it lies in [-1, 1] |
| `HybridSearch.CosineOfSelf` | packages/memory/src/hybrid-search.ts:15-27 | a vector that is not zero has similarity 1 to itself |
| `HybridSearch.MaxSimBounded` | packages/memory/src/hybrid-search.ts:85-93 | the running largest similarity lies in [0, 1] |
| `HybridSearch.ScoreBounded` | packages/memory/src/hybrid-search.ts:95-95 | for 0 ≤ λ ≤ 1 a score lies within 1 - λ below λ times the relevance |
| `HybridSearch.ScoreIs` | packages/memory/src/hybrid-search.ts:95-95 | a score is λ times the relevance less 1 - λ times that largest similarity |
| `HybridSearch.MaxSimilarity` | packages/memory/src/hybrid-search.ts:85-93 | the inner loop computes the largest similarity to a selected candidate with an embedding, and 0 if there is none above it |
| `HybridSearch.BestIndex` | packages/memory/src/hybrid-search.ts:78-100 | the first of the highest-scoring remaining candidates |
| `HybridSearch.ApplyMMR` | packages/memory/src/hybrid-search.ts:69-115 | all candidates in order when they fit the limit; otherwise exactly limit of them, each pick maximal at its step with first-index ties |
| `HybridSearch.GreedyHasNoRepeats` | packages/memory/src/hybrid-search.ts:102-105 | no candidate is picked twice |
| `HybridSearch.RerankingIsUnique` | packages/memory/src/hybrid-search.ts:77-112 | the result is determined by the candidates, the limit and the weight |
| `HybridSearch.PureRelevanceIsTopOfRanking` | packages/memory/src/hybrid-search.ts:64-73 | at λ = 1 the picks are the first positions of the stable descending order by score |
| `HybridSearch.PureRelevanceIsStableSort` | packages/memory/src/hybrid-search.ts:64-73 | at λ = 1 the result is the start of the stable descending sort by score |
| `JsxTags.MatchJsxTag` | apps/web/components/ai-elements/jsx-preview.tsx:44-74 | on every text: none if and only if no position starts a tag; otherwise the leftmost tag, with its own name, end and kind |
| `JsxTags.TagIsUnique` | apps/web/components/ai-elements/jsx-preview.tsx:34-75 | at most one tag, with one name, end and kind, starts at a position |
| `JsxTags.CompleteJsxTag` | apps/web/components/ai-elements/jsx-preview.tsx:93-125 | the loop computes the kept text and the open names, and closes them innermost first |
| `JsxOpenTags.CompletedIs` | apps/web/components/ai-elements/jsx-preview.tsx:93-125 | on every text, the result is the text without an unfinished last tag and a closing tag for each of the successive tags that no later tag closes, innermost first |
| `JsxOpenTags.StripIs` | apps/web/components/ai-elements/jsx-preview.tsx:76-91 | a text is kept as it is unless its last `<` has no `>` behind it; then everything from there is dropped |
| `JsxDocuments.TokenFound` | apps/web/components/ai-elements/jsx-preview.tsx:34-74 | a printed tag is found where it starts, ends at its `>`, and has its own name and kind |
| `JsxDocuments.KeptIsStripped` | apps/web/components/ai-elements/jsx-preview.tsx:76-104 | on every text, what is kept is the text without an unfinished last tag |
| `JsxDocuments.CompletedExtends` | apps/web/components/ai-elements/jsx-preview.tsx:93-125 | on every text, the result is that text followed by closing tags only |
| `JsxDocuments.CompleteDocument` | apps/web/components/ai-elements/jsx-preview.tsx:93-125 | a well-nested document is left as it is |
| `JsxDocuments.CutCompletes` | apps/web/components/ai-elements/jsx-preview.tsx:76-125 | a document cut at any character completes to a well-nested document that extends the cut less its unfinished tag, and completing again changes nothing |
| `TaskLock.TablesDiffer` | packages/contracts/src/enums.ts:24-40 | the contracts table and the run service's own table differ on exactly three transitions |
| `TaskLock.TransitionsAre` | packages/control-plane/src/run/run-state-machine.ts:18-38 | the run service's transitions, listed: the stages in order, off to failed, and the ways of recovery |
| `TaskLock.CompletedIsTheOnlyEnd` | packages/contracts/src/enums.ts:42-50 | completed is the one status that cannot be left, and every status can reach it |
| `TaskLock.Database.Transition` | packages/control-plane/src/run/run-service.ts:360-382 | an undisturbed transition succeeds exactly when the run exists and the table allows it |
| `TaskLock.Database.ReleaseTaskLock` | apps/control-worker/src/worker.ts:77-88 | an undisturbed release clears the lock if this run holds it and moves the head if the run completed |
| `TaskLock.StepChanges` | apps/control-worker/src/worker.ts:77-88 | what a step changes: new runs are queued, a status only by a write that was set out for it, a head only by a release that held the lock for a run read as completed |
| `TaskLock.ReleaseClearsOnlyItsOwn` | apps/control-worker/src/worker.ts:80-87 | whatever happened since the run was read, a release changes only a task whose lock its own run holds |
| `TaskLock.LockIsLostOnlyTo` | apps/control-worker/src/worker.ts:80-87 | over every interleaving a run keeps its lock throughout if and only if no other run acquires it, no cancellation comes and its own release does not commit |
| `TaskLock.StepKeepsIff` | apps/control-worker/src/worker.ts:77-88 | from heads that are completed runs a step leads to one that is not if and only if it creates a task with its first run, writes another status over a head, or commits a release that read its run as completed, still holds the lock, and whose run is no longer completed |
| `TaskLock.HeadsCompletedIff` | apps/control-worker/src/worker.ts:77-88 | over every interleaving every head is a completed run throughout if and only if no such step occurs |
| `TaskLock.FreshRunsKeepHeads` | packages/control-plane/src/run/run-service.ts:360-382 | when every status write finds the status it was decided on, every head is a completed run or the run its task was created with |
| `TaskLock.FreshRunsKeep` | packages/control-plane/src/run/run-service.ts:360-382 | with such writes a completed run stays completed |
| `TaskLock.FirstRunIsQueuedHead` | apps/web/app/api/v1/agents/route.ts:170-186 | a task created with its first run has a queued run for its head |
| `TaskLock.StaleCancelFailsTheHead` | packages/control-plane/src/run/run-service.ts:360-379 | a cancellation decided before completion and written after the release leaves a head that names a failed run |

## Left out

- CRLF framing: the SDK splits only on two LFs, and the browser reader normalises CRLF chunk by chunk, so chunk
  invariance is stated for LF-only streams.
- UTF-8 bytes and `TextDecoder`: text is characters. The MCP client decodes each chunk on its own, so a character whose
  bytes are split between chunks is outside the model.
- Lone surrogates in JSON strings, and the `__proto__` key.
- Double rounding of numbers: JSON numbers are kept as their literal and compared by exact value, so `-0`, literals
  beyond double precision and ids above 2^53 are outside the model.
- The host language's enumeration of integer-like object keys before other keys; it does not matter to the sorted text.
- Generated event ids and creation times in the event stores, and `clear`.
- Non-integer `seq`, `ifMatchVersion` and version arguments; the model's are integers.
- Mixing the legacy `append` with concurrent `appendAssignSeq` in Postgres, where `append` takes no lock, and delivery
  of a legacy event with seq 0, whose id the frame parser rejects.
- Reading the log from Postgres, which the in-memory store's methods state.
- Database internals: transactions are sequences of atomic row reads and writes under the locks the code takes.
- The base64 and ISO text of list cursors, and malformed cursors, which the code treats as no cursor.
- A consumer that stops iterating early, the timing of back-off sleeps, and closing of readers.
- The HTTP MCP client, tool listing, and a second process started while the first one's exit is pending.
- `applyTimeDecay`, floating-point rounding in scores and similarities; the square root is any function with its
  defining property.
- The attributes text that the JSX tag matcher also returns; completing does not use it.
- Other columns of runs and task rows, `setHeadRunId` (it has no caller), and the cancelled flag, because of which a
  repeated cancellation writes nothing.
- `sseEventTypes`, `sseText`, `bytesEqual` and `firstDiffAt`, which are single passes without an interplay.
- Sandboxes, memory consolidation, the model router, authentication, prompts, templates and the user interface.
- RedisRateLimiter.SameDecisionsIff: for callers sharing one clock that starts at time 0 or later and never goes back.
- Permanent deletion of a project, which removes its agents with their versions and has no caller, and deletion of a
  user, which clears the author of version rows.
- The older agent store's columns that no definition shows: status, built-in flag and owner.
