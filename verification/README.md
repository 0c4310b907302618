# Pitot, modelled in Dafny

Pitot carries agent actions from a host to passive Consumers and to a deciding Controller, and
hydrates, configures and wires itself into repositories. This project models the parts of it
where order, concurrency or input decide what happens, and proves what they promise.

How each part is modelled:

- **Controller requests** (`Router`, `ReplyMemory` and the files named `Controller*`).
  Many callers share one child process through a pending map, a slot, a deadline that starts
  at admission, an interruptible pipe write and a reply loop. `resolveMode` is a transition
  system: one event for each test, channel operation and write, in any order the scheduler
  may choose. The Router and the reply memory are classes proved against functions.
- **Events to Consumers** (`FanOut`, `ConsumerDelivery`). The cached fan-out runs on heap
  objects, so that sharing is visible; queue, delivery and termination are a transition system.
- **Framing** (`Framing`, `FrameReaders`). One plain definition of the frames of a byte
  stream, and the four readers as loops over a source that yields arbitrary chunks.
- **JSON admission** (`Json*`, `GoTokens`, `RustVisitor`, `Accounting`). RFC 8259 as concrete
  syntax trees. inspectJSON is given both as functions on the remaining text and as the class
  with a cursor; the flat scanners of Python and Go are loops proved to compute facts about
  the tree; and one document is followed through UTF-8, UTF-16 and code points.
- **Envelopes** (`EnvelopeRules`, `GoEnvelopes`, `SdkEnvelopes`, `EnvelopeLines`). The rules once,
  the four SDK validators as written, each accepting exactly what the rules describe, and each
  SDK's parser and validator together, from a line's bytes.
- **The delivery supervisor** (`Supervisor`, `SupervisorRuns`, `SupervisorPolicy`): the session as a
  class, and runs of calls, clock readings, test reports and outside edits.
- **Hydration** (`Checksums`, `Hydration`): Go processes and POSIX shims sharing a lock directory.
- **Configuration** (`NameOrder`, `ConfigMerge`, `ConfigFragments`), **ACP** (`Acp`, `AcpRuns`),
  **wiring** (`Wiring`) and the **doctor** scanners (`CommentStripper`, `CommentedJson`,
  `TrustRules`, `LiteralWords`).

What the proofs found where code and expectation part:

- The worker's `remember` can hold an ID in its FIFO that its map has lost, because it may be
  called twice with one ID; `MapEqualsFifoIff` says exactly when, `RepeatedIDIsForgotten` shows it,
  and `ForgottenInARun` builds a run of callers that ends so. `LateReply` says what it costs.
- `qwenTrustDecision` counts "/" and "/a" as equally deep, so a refusal of the root outweighs a
  trust of a top-level directory; `NearestDecides` says exactly when the nearest rule decides.
- A consumer worker may report a fault after its context has ended, since the test of the context
  and the stop are two steps; `QuietExactly` says when it will not, `ReportAfterContextEnded` shows
  a run in which it does, and every report was chosen while the context was alive.
- `validateEvent` in TypeScript and `event` in Rust do not apply the counter rule by themselves:
  `ValidateEventTakesThousand` and `EventRefusesMinusZero` give the inputs, `RulesAgreeExactly` the
  exact condition. With the checks of the spelling before them they accept what Go does.
- `Preflight` of a file whose extension is not .yaml or .yml says nothing about later discovery.

Calls out of the modelled code are parameters: `World`, `Codec`, `Files` and `Outside` hold
decoders, digests, path resolution and the answers of other processes. Digests are injective only
where a lemma asks for it. Strings of Go and Python are sequences of units or code points as each
module says. Inputs read from disk or pipes arrive as values.

`dafny verify dfyconfig.toml` checks everything.

## Model

| member | source | states |
|---|---|---|
| Bridge.MarkKeepsInv | bridge/bridge.go:72-80 | Marking an ID that is not in the map keeps map, order and the last 4096 marks equal, and keeps equal IDs of the history more than 4096 marks apart. |
| Bridge.ResolveKeepsInv | bridge/bridge.go:129-178 | Both ways of ending an action keep that invariant, for every request and candidate. |
| Bridge.DuplicateIffRecent | bridge/bridge.go:135-142 | A valid request for a registered kind is refused as a duplicate exactly when its ID is among the last 4096 resolutions, and then nothing changes; otherwise its ID is added once. |
| Bridge.OutcomeIsCorrelated | bridge/bridge.go:129-159 | A reply that is accepted is valid and names this action and the registered Controller; any other candidate yields at most the declared default. |
| Bridge.RefusedExactly | bridge/bridge.go:129-145 | Each refusal by its own reason, in order: an invalid request, an action resolved before, a kind without Controller; otherwise the timeout path answers with the on_timeout default. |
| Bridge.ReplyAcceptedExactly | bridge/bridge.go:146-159 | A reply to a request that is not refused is accepted, and is the answer, exactly when it is a valid response of the registered Controller to this action; each of the three errors says exactly what is wrong, and the answer is then the on_unavailable default. |
| Bridge.NoReplyIsUnavailable | bridge/bridge.go:143-145 | Without a reply the answer is the on_unavailable default, with no error. |
| Bridge.Router.Register | bridge/bridge.go:82-94 | One Controller per kind: a registration is refused exactly when a field is empty, the deadline not positive, an outcome neither allow nor deny, or the kind taken, and then nothing changes. |
| Bridge.Router.Mark | bridge/bridge.go:72-80 | The in-place update of map and order is the functional mark. |
| Bridge.Router.ResolveRequest | bridge/bridge.go:129-159 | The method refuses, marks and answers as the functional Router does, with the history of every marked ID. |
| Bridge.Router.ResolveTimeout | bridge/bridge.go:163-178 | The timeout path likewise, with the declared on_timeout outcome. |
| ReplyMemory.RememberedIffKnown | runtime/runtime.go:494-501 | For every history, repeats included: an ID is in the map exactly when some occurrence of it is still vouched for, no equal ID having been evicted since. |
| ReplyMemory.MemoryIsBounded | runtime/runtime.go:494-501 | Whatever is remembered, the FIFO is the last 1024 IDs and the map holds no other. |
| ReplyMemory.MapEqualsFifoIff | runtime/runtime.go:494-501 | The map equals the FIFO contents exactly when no ID still queued was evicted after its last occurrence. |
| ReplyMemory.SpacedHistoryLosesNothing | runtime/runtime.go:494-501 | If equal IDs are more than 1024 apart the two are equal. |
| ReplyMemory.RepeatedIDIsForgotten | runtime/runtime.go:494-501 | They can differ: an ID remembered twice in a row and followed by 1023 others is queued but forgotten. |
| ReplyMemory.ControllerWorker.Remember | runtime/runtime.go:494-501 | The in-place update is the functional one. |
| ControllerSafety.DecideIsOk | runtime/runtime.go:375-491 | Every branch of a call, in any state that keeps the invariants, leads to one of the effects the proofs admit in that phase. |
| ControllerSafety.RunKeepsInv | runtime/runtime.go:355-512 | Every interleaving of callers, clock, cancellations, child output and exit keeps the slot exclusive, the pending map equal to the IDs of the callers that have not returned, the wire well formed, the marks accounted for, the answers correlated and their faults true. |
| ControllerSafety.ResolvedOnceWithinWindow | runtime/runtime.go:355-492 | In every run each mark of the Router belongs to one answered call, and equal IDs have at least 4096 other resolutions between them. |
| ControllerSafety.ConcurrentDuplicateNeverTouchesRouter | runtime/runtime.go:363-366 | A caller whose action is pending elsewhere is refused at once, leaves Router and slot alone and takes no further step. |
| ControllerSafety.WireIsFramesInSlotOrder | runtime/runtime.go:408-437 | In every run the bytes sent are whole request frames in slot order and at most one frame in part at the end; at most one request is being written or awaiting its reply. |
| ControllerSafety.CutFrameEndsTheStream | runtime/runtime.go:412-437 | After a frame that was cut short no byte ever follows. |
| ControllerSafety.VisibleExpiryIsNeverStarted | runtime/runtime.go:393-407 | A request cancelled or expired before its pre-write checks is never started, in any continuation of the run. |
| ControllerSafety.AnswersAreCorrelated | runtime/runtime.go:438-491 | In every run an answer is a refusal for its reason (the action is another caller's, or the Router finds the request invalid or has no Controller for it), the declared default for its cause, or without fault a reply this caller took after its whole frame was written, naming its own action and registered Controller; every fault it carries is true of the run; in explicit mode a nil error implies such a reply. |
| ControllerDeadlines.TimeoutTakesTheDeadline | runtime/runtime.go:367-378 | In every run an answer that neither a fault nor a reply of the child accounts for is the on_timeout default, and the whole deadline has passed since the call arrived. |
| ControllerDeadlines.ReplyInTimeIsTheAnswer | runtime/runtime.go:438-472 | In every run a right reply that is ahead of a waiting, uncancelled caller before the deadline has passed since its arrival is its answer once it takes it; unless the worker ended or the child exited, no step gives it another. |
| ControllerWire.ChildReadsRequests | runtime/runtime.go:410-437 | In every run whose requests are written as lines, the plain split of what the child reads is the requests of the started callers in slot order, each whole and once, with a frame cut short as an unterminated tail at the end. |
| ControllerMemory.MemoryIsHistory | runtime/runtime.go:408-501 | In every run the worker's memory is what remembering the IDs of the started and answered callers, each once and in the order of their answers, leaves. |
| ControllerMemory.LateReply | runtime/runtime.go:453-472 | In every run a reply that a waiting caller takes ends its call exactly when it names the call's own action or one that the history no longer vouches for; any other is dropped and nothing else changes. |
| ControllerMemory.AnyHistoryIsReached | runtime/runtime.go:359-501 | Any list of action IDs, repeats included, is what a run from a healthy worker remembers. |
| ControllerMemory.ForgottenInARun | runtime/runtime.go:494-501 | So a run exists after which an action is still in the FIFO and no longer known. |
| FanOut.ProjectionWithholds | runtime/runtime.go:651-686 | Projection never carries raw content to a Consumer whose mode does not ask for it, and keeps type and metadata. |
| FanOut.ProjectedExactly | runtime/runtime.go:651-686 | What each mode makes of an event: raw content is carried as a string that decodes to the same, as its digest, or not at all; projected content stays or is omitted; anything else is refused, by its reason. |
| FanOut.OfferedExactly | runtime/runtime.go:566-591 | An event joins the end of the queue exactly when its type is subscribed to, it can be projected, the worker is alive and one of the 128 places is free; each fault says which of these failed. |
| FanOut.ProjectedStaysProjected | runtime/runtime.go:664-675 | Projecting a projected event again changes nothing, and it can only be narrowed to omit, never widened. |
| FanOut.ProjectEvent | runtime/runtime.go:651-686 | The projection on heap objects gives the value projection, in Content and bytes of its own. |
| FanOut.ConsumerWorker.Enqueue | runtime/runtime.go:577-591 | Refused when dead or full, else appended at the end of the queue. |
| FanOut.ConsumerWorker.OfferEvent | runtime/runtime.go:566-575 | Offering to one Consumer: filter, project, enqueue. |
| FanOut.OfferShared | runtime/runtime.go:215-230 | One Consumer served from the cache is offered the event as in a plain offer and gains a copy of the projection that shares nothing with what the cache holds afterwards. |
| FanOut.OfferConsumers | runtime/runtime.go:186-232 | The cached fan-out leaves the queues and reports the faults of offering to each Consumer in turn, and no Content or Full buffer gained by a queue is shared with another queue, the event or what the loop left in its caches. |
| ConsumerDelivery.RunKeepsInv | runtime/runtime.go:577-649 | Every interleaving of offer, deliver, process exit, stop and close, with each test of the context apart from the stop it leads to, keeps admitted = written + in hand + queued and at most one report. |
| ConsumerDelivery.DeliveryIsPrefix | runtime/runtime.go:577-642 | In every run the events written are an in-order prefix of those admitted, at most 128 are queued and at most one fault is reported. |
| ConsumerDelivery.DeadAdmitsNothing | runtime/runtime.go:577-591 | Once the dead state is published nothing is admitted, and at most the event in hand is still written. |
| ConsumerDelivery.QuietExactly | runtime/runtime.go:555-562 | A worker whose context has ended reports nothing more, in any continuation, exactly when nothing is left to report and the dead state is published or no goroutine stands between its test of the context and its stop with a reason. |
| ConsumerDelivery.ReportAfterContextEnded | runtime/runtime.go:555-562 | It may report: the process exits, the context is found alive, it ends, and then the exit is published and reported. |
| ConsumerDelivery.ReportsWereChosenAlive | runtime/runtime.go:593-642 | In every run a report names a failed write or a process exit that its goroutine met while the context was still alive. |
| ConsumerDelivery.PhaseMovesOnly | runtime/runtime.go:593-622 | Which way the delivery goroutine goes at each step, and on what condition; nothing else moves it. |
| ConsumerDelivery.QueueIsWritten | runtime/runtime.go:593-622 | While neither context nor worker has ended, all that is queued can be written, in order and with no report. |
| ConsumerDelivery.FaultIsReported | runtime/runtime.go:611-642 | A failed write or an exit that finds the context alive kills the worker and is reported, once; with the context ended it is silent. |
| Framing.NewlineResynchronises | protocol/framing.go:52-91 | Whatever precedes a newline, however malformed or oversized, leaves the records after it untouched. |
| Framing.ReadsBackWhatWasWritten | protocol/framing.go:14-33 | Reading back any list of written records gives each accepted payload once and in order, blank ones dropped and those over the limit faulted. |
| Framing.DroppedExactly | protocol/framing.go:54-91 | A record is dropped exactly when it is within 4 MiB and all spaces, tabs, carriage returns and line feeds, and faulted exactly when it is longer. |
| FrameReaders.ReadFrames | protocol/framing.go:54-91 | Go: for every stream, every cut into chunks and every buffer size, the frames and oversize faults of the plain split, and never more than the limit retained. |
| FrameReaders.NextFrame | sdk/rust/src/runner.rs:10-43 | Rust: one call yields the next frame or fault of the plain split, within the limit. |
| FrameReaders.RunRust | sdk/rust/src/runner.rs:47-76 | Rust: the whole stream gives the plain split. |
| FrameReaders.LineSerializer.Chunk | sdk/typescript/src/runner.ts:16-59 | TypeScript: one chunk keeps pieces, length and the oversize flag equal to the open record. |
| FrameReaders.SerializeLines | sdk/typescript/src/runner.ts:16-59 | TypeScript: the whole stream gives the plain split, and never more than the limit is retained of a record. |
| FrameReaders.Lines | sdk/python/pitot/runner.py:11-40 | Python: the whole stream gives the plain split. |
| Accounting.FourCountersAgree | schema/wire.go:143-150 | For every JSON number the four accounting checks accept exactly the integer spellings of 0 to 2^53-1, "-0" included. |
| Accounting.WholeMagnitude | sdk/typescript/src/wire.ts:109-120 | The 16-character bound excludes nothing in range. |
| JsonCorrectness.ValueSound | sdk/typescript/src/wire.ts:52-122 | What `value` accepts is the text of a value of the grammar within the depth, surrogate, name and counter rules, and the cursor ends right after it. |
| JsonGrammar.CharactersByName | sdk/typescript/src/wire.ts:26-122 | White space, escape letters, hexadecimal digits and what may stand in a string unescaped, character by character. |
| JsonGrammar.SpellingsByName | sdk/typescript/src/wire.ts:26-122 | What each escape stands for, and how words, strings and escapes are written. |
| JsonGrammar.HexDigitsByName | sdk/typescript/src/wire.ts:26-50 | The value of each hexadecimal digit of either case. |
| JsonGrammar.MarksByName | sdk/typescript/src/wire.ts:52-122 | Brackets, braces, comma, colon, and the marks in numbers. |
| JsonCompleteness.ValueComplete | sdk/typescript/src/wire.ts:52-122 | The text of any value of the grammar is read as that value if it keeps the rules and refused if not. |
| JsonCompleteness.AcceptsExactlyConforming | sdk/typescript/src/wire.ts:26-126 | inspectJSON accepts a text exactly when it is RFC 8259 JSON nested at most 128 deep, with no repeated decoded name, only well-formed surrogates and usage counters in range. |
| JsonCompleteness.NestedArrays | sdk/typescript/src/wire.ts:52-122 | Nested arrays are accepted up to 128 deep, and at no greater depth. |
| JsonCompleteness.DocumentDecided | sdk/typescript/src/wire.ts:26-126 | Every document of the grammar is read back as itself if it conforms and refused if not. |
| JsonCompleteness.Unambiguous | sdk/typescript/src/wire.ts:26-126 | An accepted text is the text of one document only. |
| JsonCompleteness.CountedIffUsageCounted | sdk/typescript/src/wire.ts:109-120 | The path bookkeeping reaches exactly the two counters of a root object's usage member. |
| JsonPrinter.PrintedReadsBack | sdk/typescript/src/wire.ts:26-126 | The printed text of a value tree is accepted exactly when the tree keeps the rules, and reads back as that tree. |
| JsonInspector.Inspector.StringToken | sdk/typescript/src/wire.ts:31-51 | The string loop accepts and decodes as the grammar says, and moves the cursor past the token. |
| JsonInspector.Inspector.Value | sdk/typescript/src/wire.ts:52-122 | The recursive closure with its cursor and set of seen names does what the functional recogniser does. |
| JsonInspector.Inspector.MemberLoop | sdk/typescript/src/wire.ts:58-76 | The member loop with its seen set refuses exactly the repeated decoded names. |
| JsonInspector.InspectJSON | sdk/typescript/src/wire.ts:26-126 | The running inspectJSON returns without throwing exactly on the texts of conforming documents. |
| JsonDepth.DepthGate | sdk/python/pitot/wire.py:33-54 | The flat loop raises exactly when its running depth exceeds 128 somewhere. |
| JsonDepth.PeakIsDepth | sdk/python/pitot/wire.py:33-54 | On every text of the grammar the greatest depth of the flat loop is the nesting depth of the tree. |
| JsonEscapes.ScalarEscapes | protocol/parse.go:94-134 | Total on any bytes, with every index in range. |
| JsonEscapes.ScanIffPaired | protocol/parse.go:94-134 | On the text of any document it answers true exactly when every surrogate escape in a string or name of the tree is paired. |
| JsonEncodings.DocumentRecoded | protocol/parse.go:19-33 | The UTF-8 or UTF-16 text of a document of characters is the text of the same tree with its characters encoded. |
| JsonUtf8.EncodedIsValid | protocol/parse.go:20-20 | The UTF-8 encoding of a text is valid UTF-8 exactly when the text is of Unicode scalar values. |
| JsonUtf8.DocumentUtf8 | protocol/parse.go:20-20 | The bytes of a document are valid UTF-8 exactly when its strings and names are of Unicode scalar values. |
| JsonNames.ScalarStringIffPaired | sdk/typescript/src/wire.ts:12-22 | scalarString on the decoded UTF-16 is the pairing of the escapes. |
| JsonNames.AllScalarIffPaired | sdk/python/pitot/wire.py:20-30 | _scalars on the decoded code points is the pairing of the escapes. |
| JsonNames.NamesAgree | sdk/typescript/src/wire.ts:65-67 | Two well-formed names are equal as UTF-16 exactly when they are equal as code points. |
| GoTokens.Decoder.Value | protocol/parse.go:35-90 | The recursive reader over decoder tokens does what the functional reader does. |
| GoTokens.ValueDecided | protocol/parse.go:35-90 | On the tokens of any value it accepts exactly when nesting and names keep the rules, and consumes just that value. |
| RustVisitor.Visit | sdk/rust/src/wire.rs:44-66 | The visitor's recursion with its sets of seen names does what its functional form does. |
| RustVisitor.StrictDecided | sdk/rust/src/wire.rs:6-83 | Deserializing with it succeeds exactly when nesting and names keep the rules, strings are UTF-8 with paired escapes and the decoder takes every number. |
| JsonAgreement.GoDecides | protocol/parse.go:19-33 | Go admits a document of the grammar exactly when it is within the frame limit, of Unicode scalar values, at most 128 deep, with paired escapes and distinct names. |
| JsonAgreement.TypeScriptDecides | sdk/typescript/src/wire.ts:258-265 | TypeScript admits it under the same conditions but the limit, and the usage rule. |
| JsonAgreement.PythonDecides | sdk/python/pitot/wire.py:33-57 | Python admits it under the same conditions but the limit, if json.loads takes every number. |
| JsonAgreement.RustDecides | sdk/rust/src/wire.rs:68-76 | Rust admits it under the same conditions but the limit, if serde_json takes every number. |
| JsonAgreement.ReadersAgree | protocol/parse.go:19-134 | Of the documents of the grammar within the frame limit, Rust and Python admit exactly those that Go admits and whose numbers their own runtime takes, and TypeScript those that Go admits and whose usage counters are counts; at any length the three SDKs agree on documents whose numbers are taken. |
| GoEnvelopes.GoObject | schema/wire.go:71-88 | The two key loops accept exactly the objects with all required and no unknown members. |
| GoEnvelopes.GoEvent | schema/wire.go:123-168 | eventWire accepts exactly the events of the rules. |
| GoEnvelopes.GoRequest | schema/wire.go:39-46 | The request case accepts exactly the requests of the rules. |
| GoEnvelopes.GoResponse | schema/wire.go:47-54 | The response case accepts exactly the responses of the rules. |
| GoEnvelopes.GoFault | schema/wire.go:55-62 | The boundary fault case accepts exactly the faults of the rules. |
| GoEnvelopes.WireEventPassesTyped | schema/validate.go:47-81 | Every event admitted from the wire passes ValidateEvent once decoded. |
| GoEnvelopes.WireControlPassesTyped | schema/validate.go:83-111 | Every admitted request, response and boundary fault passes its typed validator. |
| EnvelopeRules.DigestByCharacters | schema/wire.go:158-166 | A digest is 64 hexadecimal digits of either case. |
| SdkEnvelopes.TypeScriptEvent | sdk/typescript/src/wire.ts:186-256 | validateEvent by itself accepts exactly the events of the rules with, for counters, whatever JSON.parse makes a safe integer of. |
| EnvelopeRules.RulesAgreeExactly | sdk/typescript/src/wire.ts:212-223 | A validator with any other test of the counters decides a value as the rules do exactly when the value fails for another reason, has no usage or an ill-shaped one, or the test judges its two counters, together, as the rule does. |
| SdkEnvelopes.ValidateEventTakesThousand | sdk/typescript/src/wire.ts:218-218 | It can differ: validateEvent by itself accepts counters spelled 1e3, if JSON.parse makes a safe integer of that, and the rules do not. |
| SdkEnvelopes.InspectedEvent | sdk/typescript/src/wire.ts:109-120 | The spelling test of inspectJSON and validateEvent together ask just what the rules ask, if every count is read as a safe integer. |
| SdkEnvelopes.TypeScriptRequest | sdk/typescript/src/wire.ts:158-169 | validateRequest accepts exactly the requests of the rules. |
| SdkEnvelopes.TypeScriptResponse | sdk/typescript/src/wire.ts:171-184 | validateResponse accepts exactly the responses of the rules, also when the handler's strings have unpaired surrogates. |
| SdkEnvelopes.RustEvent | sdk/rust/src/wire.rs:158-214 | event by itself accepts exactly the events of the rules with, for counters, whatever as_u64 reads as at most 2^53-1. |
| SdkEnvelopes.EventRefusesMinusZero | sdk/rust/src/wire.rs:184-184 | It can differ: event by itself refuses counters spelled -0, if the decoder makes a float of that, and the rules accept them. |
| SdkEnvelopes.RustEventRaw | sdk/rust/src/wire.rs:83-122 | event_raw accepts exactly the events of the rules, as Go does, and leaves them with the counters read from their tokens, if as_u64 reads unsigned counts as their value. |
| SdkEnvelopes.RustRequest | sdk/rust/src/wire.rs:216-226 | request accepts exactly the requests of the rules. |
| SdkEnvelopes.RustResponse | sdk/rust/src/wire.rs:227-247 | response accepts exactly the responses of the rules. |
| SdkEnvelopes.PythonEvent | sdk/python/pitot/wire.py:80-131 | On values that parse has put through _scalars, event accepts exactly the events of the rules. |
| SdkEnvelopes.PythonRequest | sdk/python/pitot/wire.py:134-138 | On values that parse has put through _scalars, request accepts exactly the requests of the rules. |
| SdkEnvelopes.PythonResponse | sdk/python/pitot/wire.py:141-155 | response, with its own call of _scalars, accepts exactly the responses of the rules, whatever strings the handler returned. |
| EnvelopeLines.UsageCountedIsTsCounter | sdk/typescript/src/wire.ts:109-120 | The counters that inspectJSON tests by path in the text are the counters of the decoded value. |
| EnvelopeLines.GoLine | schema/wire.go:18-54 | A line of the grammar is accepted as an event, request or response exactly when it is within the limit, sound, and its decoded value keeps the rules. |
| EnvelopeLines.TypeScriptLine | sdk/typescript/src/wire.ts:258-265 | decodeWire and the validator accept exactly the sound lines whose decoded value keeps the rules. |
| EnvelopeLines.PythonLine | sdk/python/pitot/runner.py:46-47 | parse and the validator accept exactly those, if json.loads takes every number. |
| EnvelopeLines.RustLine | sdk/rust/src/runner.rs:65-66 | parse and the validator accept exactly those, if serde_json takes every number. |
| EnvelopeLines.FourLines | schema/wire.go:18-54 | Of the lines within the limit whose numbers every runtime takes, the four SDKs accept the same events, the same requests and the same responses. |
| Supervision.Supervisor.AdmitAction | examples/supervisory-control/supervisor.py:43-64 | Admission records its decision and, if allowed, reserves the action for the current epoch and 30 seconds. |
| Supervision.Supervisor.ExecuteAction | examples/supervisory-control/supervisor.py:66-102 | A reservation is consumed whatever happens; only a current one executes, and a release also needs the tested bytes. |
| Supervision.Supervisor.Observe | examples/supervisory-control/supervisor.py:104-121 | A report counts only for the current revision and the bytes on disk. |
| Supervision.Supervisor.InvalidateTests | examples/supervisory-control/supervisor.py:123-129 | Invalidation takes a built or verified session back and revokes reservations. |
| SupervisorRuns.ReleasedBytesWereTested | examples/supervisory-control/supervisor.py:93-102 | In every run, with outside edits of the artifact: a release writes exactly the bytes that passed the test of the current revision, with no build and no invalidation since (injective digest). |
| SupervisorRuns.ReleasedIsFinal | examples/supervisory-control/supervisor.py:32-41 | After a release nothing builds, releases or dispatches again, and released.txt keeps its bytes. |
| SupervisorRuns.ReleasedOnlyByRelease | examples/supervisory-control/supervisor.py:98-102 | released.txt exists exactly when a release has completed, and only one ever does. |
| SupervisorRuns.RevisionCountsBuilds | examples/supervisory-control/supervisor.py:84-92 | The revision is the number of completed builds, and the session has left draft exactly when there is one. |
| SupervisorRuns.ExecutionWasAdmitted | examples/supervisory-control/supervisor.py:66-79 | Every completed execution has an earlier allowed admission of the same actor and action, in the same epoch and within 30 seconds, with no attempt between. |
| SupervisorRuns.AdmissionPaysOnce | examples/supervisory-control/supervisor.py:70-70 | No admission pays for two executions. |
| SupervisorRuns.EventRevokesGrants | examples/supervisory-control/supervisor.py:62-63 | No build, release, passing test or effective invalidation lies between an admission and the execution it pays for. |
| SupervisorRuns.EpochsNeverDecrease | examples/supervisory-control/supervisor.py:22-23 | Epoch and revision never decrease. |
| SupervisorRuns.DispatchedOnce | examples/supervisory-control/supervisor.py:32-34 | Dispatch completes at most once, by the dispatcher, before any build. |
| SupervisorPolicy.WhoActs | examples/supervisory-control/supervisor.py:32-41 | In every run what is built and released is the worker's doing, by the action of that name, and what is dispatched the dispatcher's. |
| SupervisorPolicy.AdmittedExactly | examples/supervisory-control/supervisor.py:43-64 | In every run a proposal is admitted exactly when the first command with its text names an action that, as the log stands, the actor may do: dispatch by the dispatcher, once and before any build; build by the worker until a release; release by the worker while a passing test stands. |
| SupervisorPolicy.AdmittedCompletes | examples/supervisory-control/supervisor.py:66-102 | In every run an admitted action attempted within 30 seconds and before any change of epoch completes; a release, if the artifact is still the tested bytes. |
| SupervisorPolicy.CompletedWasAdmitted | examples/supervisory-control/supervisor.py:66-79 | In every run a completed execution follows such an admission, right when given and right still. |
| SupervisorPolicy.RefusedChangesNothing | examples/supervisory-control/supervisor.py:66-97 | A refused attempt uses up its reservation and changes nothing else, unless it was a release of edited bytes, which revokes the test. |
| SupervisorPolicy.TestedExactly | examples/supervisory-control/supervisor.py:104-121 | In every run a test is logged as passed exactly when it is reported for the current revision with the candidate's bytes, which are those on disk, while what is built is neither tested nor released. |
| Checksums.LowerLetters | hydrate/hydrate.go:282-282 | Digests are compared in small letters: capitals become them and all else stays. |
| Checksums.ChecksumFor | hydrate/hydrate.go:276-286 | The scan returns the lower-cased digest of the first two-field line for the name, and an error exactly when there is none. |
| Checksums.ShimAcceptsExactly | cmd/pitot/shim.go:97-106 | The shim accepts a digest exactly when one line, and no other, names the archive and spells it. |
| Checksums.ShimIsStricter | cmd/pitot/shim.go:97-106 | On a plain manifest whose lines for the archive have two fields, what the shim accepts, Go accepts. |
| Checksums.GoReadsWritten | hydrate/hydrate.go:276-286 | In a manifest of "digest  name" lines Go finds the lower-cased digest of the first entry of the name. |
| Checksums.ShimReadsWritten | cmd/pitot/shim.go:97-106 | By such a manifest the shim accepts exactly the digest of the only entry of the name. |
| Hydration.RunKeepsInv | hydrate/hydrate.go:131-205 | Any number of Go processes and shims, failing or crashing anywhere, keep the lock exclusive while the slot is absent. |
| Hydration.SlotIsFinal | hydrate/hydrate.go:200-204 | In every run the slot goes from absent to present at most once and never changes afterwards. |
| Hydration.SlotIsVerified | hydrate/hydrate.go:169-181 | In every run, if the slot is present: some process that had seen it absent under the lock fetched a manifest that, as that process reads it, lists the digest of the archive fetched with it, and the same process later published the extraction of that archive where there was none. |
| Hydration.NothingExecutesUnverified | cmd/pitot/shim.go:78-121 | Whenever a process may execute the slot, it was installed so, and in every continuation it is still that binary. |
| Hydration.GoodDownloadFillsTheSlot | hydrate/hydrate.go:155-204 | A process at work that fetches an archive whose digest the manifest lists, and which holds a binary, can go on to fill the slot with it, free the lock and execute; no other process moves. |
| Hydration.BadDownloadFails | hydrate/hydrate.go:155-181 | One that fetches anything else fails, leaves the slot as it is and frees the lock. |
| Hydration.ReleaseHydrates | cmd/pitot/shim.go:74-120 | In any cache without a slot whose lock is free, a process of either kind that starts and downloads an archive and a manifest with its digest fills the slot and may execute it. |
| Hydration.PresentSlotIsFound | hydrate/hydrate.go:131-141 | Once the slot is present, a process that starts and looks may execute it at once. |
| Hydration.FirstHydration | hydrate/hydrate.go:131-205 | From an empty cache one process fills the slot, if the downloaded manifest names the archive once, with its digest. |
| Hydration.WaiterFindsTheSlot | hydrate/hydrate.go:131-153 | A process that waited while another filled the slot finds it and may execute, with the slot unchanged. |
| Hydration.FailuresLeaveTheSlot | hydrate/hydrate.go:131-205 | No failure touches the slot; one under the lock frees it, giving up leaves it, and a crash leaves it held. |
| Hydration.OneHydratorAtATime | hydrate/hydrate.go:230-250 | At most one process is between seeing the slot absent under the lock and publishing or giving up. |
| Hydration.ForeignUnlockIsHarmless | cmd/pitot/shim.go:74-120 | A shim removes a lock it does not hold only once the slot is present, after which no continuation changes the slot. |
| NameOrder.SortIgnoresOrder | config/config.go:207-207 | Sorting fragments of distinct names does not depend on the order given. |
| NameOrder.LessAtDifference | config/config.go:185-185 | Names are ordered by the first unit in which they differ, a prefix before what it begins. |
| ConfigMerge.CheckConsumer | config/config.go:292-324 | What a consumer must be: an id, a command without empty words, no absolute directory, action.requested as its one event, and one of three projections. |
| ConfigMerge.CheckController | config/config.go:327-355 | What a controller must be: a kind, an id, such a command and directory, a positive deadline, and allow or deny for both outcomes. |
| ConfigMerge.Validate | config/config.go:273-358 | The final validation succeeds exactly on valid configs, complains of the protocol exactly when another one is required, and names a duplicate only when there is one. |
| ConfigFragments.MergeSources | config/config.go:203-252 | The merge accepts exactly the mergeable sets of fragments (each sound, every two apart), returns their union and digest, and its final validation never reports a duplicate. |
| ConfigFragments.MergeIgnoresOrder | config/config.go:203-252 | Acceptance, merged config and digest do not depend on the order of the fragments. |
| ConfigFragments.SomeOfMergeableMerge | config/config.go:203-252 | Any non-empty choice of mergeable fragments merges. |
| ConfigFragments.MergedIsDisjointUnion | config/config.go:226-243 | The merged config holds every consumer and controller of every fragment under its own ID and kind, and nothing else. |
| ConfigFragments.UnionConsistent | config/config.go:301-303 | After the merge loop no duplicate ID is left for the final validation to find. |
| ConfigFragments.ReadSources | config/config.go:166-197 | The .yaml and .yml files of the directory, in ascending order of name. |
| ConfigFragments.YamlByEnding | config/config.go:180-183 | Those are the files whose name ends in .yaml or .yml. |
| ConfigFragments.Discover | config/config.go:137-146 | Discovery succeeds exactly when the fragments read are mergeable. |
| ConfigFragments.Preflight | config/config.go:151-164 | Preflight accepts exactly when the fragments, with the candidate in place of its namesake, are mergeable. |
| ConfigFragments.PreflightForetellsDiscover | config/config.go:137-164 | Preflight accepts a .yaml or .yml fragment exactly when Discover succeeds once it is written, with the same result; a file of any other extension changes nothing discovered. |
| Acp.Transport.Update | internal/devinacp/client.go:266-309 | An exec tool_call caches its command; a missing tool name is reported once. |
| Acp.Transport.RequestPermission | internal/devinacp/client.go:316-372 | A permission request is answered as its options, the cached command and the runtime decide, and uses its command up once delivered. |
| Acp.Transport.Inbound | internal/devinacp/client.go:245-264 | Dispatch on the method, with an error response to an unknown request. |
| Acp.Transport.Call | internal/devinacp/client.go:207-243 | A call sends its request and serves inbound messages until its own response. |
| AcpRuns.ExchangeIsRun | internal/devinacp/client.go:207-243 | What a call does is a run of message steps, ending with the response of its own number if it succeeds. |
| AcpRuns.EachRequestAnsweredOnce | internal/devinacp/client.go:245-264 | Handled without error, every permission request has been answered exactly once, with its own id and in order. |
| AcpRuns.AllowIsEarned | internal/devinacp/client.go:339-372 | Any selection but the first reject_once is the first allow_once offered, for a command that an exec tool_call of that session and tool call cached, delivered verbatim, with no Controller or an allow of that very action. |
| AcpRuns.PicksFirst | internal/devinacp/client.go:386-393 | The option picked is the first one of its kind, and none if none is offered. |
| AcpRuns.AnsweredExactly | internal/devinacp/client.go:332-372 | A request that offers to reject is answered with the first allow_once exactly when it has earned that and one is offered, and with the first reject_once otherwise; one that does not is cancelled, or left alone if it does not decode. |
| AcpRuns.DeliveredExactly | internal/devinacp/client.go:339-371 | A request that reaches the runtime is delivered once with the cached command, which it uses up; any other touches neither. |
| AcpRuns.UnwrittenIsError | internal/devinacp/client.go:255-264 | A reply that cannot be written is not sent, and is an error. |
| AcpRuns.OthersRefused | internal/devinacp/client.go:245-264 | Any other request is refused as unsupported, any other notification ignored. |
| AcpRuns.CachedExactly | internal/devinacp/client.go:266-293 | An update caches a command exactly when it is a tool_call of the exec tool with a command, in a named session and tool call; one of no tool is warned of once, text is passed on, and nothing else happens. |
| AcpRuns.KeysApart | internal/devinacp/client.go:395-395 | The key tells sessions and tool calls apart as long as the session's name has no NUL. |
| AcpRuns.AllowsAreBounded | internal/devinacp/client.go:364-371 | Each key gets at most as many allows as updates have cached it. |
| Wiring.ContainsMarker | wiring/wiring.go:127-145 | The recursive walk finds the marker exactly when some string leaf contains it. |
| Wiring.MarkedByALeaf | wiring/wiring.go:127-145 | A value is marked exactly when one of its string leaves holds the text .pitot/bin/. |
| Wiring.CanonicalIsMarked | wiring/wiring.go:82-123 | Pitot's own entry carries the marker on every host. |
| Wiring.WiredWhere | wiring/wiring.go:43-123 | Under which event each host keeps its hook, and the command there that runs Pitot. |
| Wiring.EntryTerms | wiring/wiring.go:82-123 | Which tools each entry is about, its timeout, its Windows command, and that a failing hook stops the action. |
| Wiring.HostConfig.Merge | wiring/wiring.go:151-202 | Merge succeeds exactly on the structures it may touch, and changes nothing when it fails. |
| Wiring.MergeKeepsForeign | wiring/wiring.go:186-194 | Foreign entries keep their order, other events and keys their values, and exactly one marked entry remains. |
| Wiring.MergeIsIdempotent | wiring/wiring.go:151-202 | Merging again changes nothing. |
| Wiring.Check | wiring/wiring.go:263-292 | Check finds the entry exactly when one entry is owned, it is written back as the witness is, and none is owned elsewhere. |
| Wiring.OneEntryJudged | wiring/wiring.go:263-303 | The one owned entry is found exactly when it is the witness but for the spelling of numbers that are written back alike, and drifted otherwise. |
| Wiring.MergeIsFound | wiring/wiring.go:238-293 | What Merge leaves, Check finds against its own fragment, however numbers are written back. |
| Wiring.FoundIsMergeable | wiring/wiring.go:238-293 | What Check finds, Merge accepts, keeping the event's entries as they are written back. |
| CommentStripper.StripComments | cmd/pitot/doctor_qwen.go:18-55 | The in-place loop blanks comments as the functional stripper does, and fails exactly on an unterminated block. |
| CommentStripper.LineCommentBlanked | cmd/pitot/doctor_qwen.go:38-42 | From // up to a line feed or the end, every byte becomes a space and what follows is stripped on its own. |
| CommentStripper.BlockCommentBlanked | cmd/pitot/doctor_qwen.go:43-54 | From /* up to the first */ after it, every byte but line breaks becomes a space and what follows is stripped on its own. |
| CommentStripper.UnendedFails | cmd/pitot/doctor_qwen.go:50-52 | A /* that no */ follows is an error. |
| CommentStripper.StripKeepsCode | cmd/pitot/doctor_qwen.go:22-55 | Length and line feeds are kept; every byte outside comments is kept; comment bytes become spaces or stay line breaks. |
| CommentedJson.CommentedDocumentStrips | cmd/pitot/doctor_qwen.go:18-55 | A JSON document with comments wherever white space may stand strips to the same document with the comments blanked, and that is a document of the grammar. |
| CommentedJson.PlainJsonUnchanged | cmd/pitot/doctor_qwen.go:23-34 | JSON without comments is left exactly as it is, even where a string holds what would open a comment. |
| CommentedJson.WholeString | cmd/pitot/doctor_qwen.go:23-34 | Every string literal is kept whole, whatever it holds. |
| CommentStripper.StripIsIdempotent | cmd/pitot/doctor_qwen.go:18-55 | Stripping a stripped text changes nothing. |
| TrustRules.TrustDecision | cmd/pitot/doctor_qwen.go:122-153 | Whatever order the map is walked in: unknown if a path is not absolute or a level none of the three, else trusted exactly when the deepest applying rules all allow. |
| TrustRules.OneRule | cmd/pitot/doctor_qwen.go:126-148 | What each level says alone: TRUST_FOLDER trusts the directory, TRUST_PARENT the one above it, DO_NOT_TRUST nothing. |
| TrustRules.NearestDecides | cmd/pitot/doctor_qwen.go:142-150 | The nearest directory with a rule decides, unless it is a top-level directory and the root is refused. |
| TrustRules.OnlyNearestIsTrusted | cmd/pitot/doctor_qwen.go:142-150 | A trusted project always has a nearest rule that allows it. |
| TrustRules.TopLevelTrustIsLost | cmd/pitot/doctor_qwen.go:146-150 | That exception exists: "/" and "/a" count as equally deep. |
| LiteralWords.KimiLiteralWords | cmd/pitot/doctor_kimi.go:149-200 | The byte loop splits as the functional splitter does. |
| LiteralWords.AcceptsExactlyLiteral | cmd/pitot/doctor_kimi.go:145-200 | A command is accepted exactly when it is spelled with blanks, literal characters and closed quotes, and its words are what those spell. |
| LiteralWords.OneCharacter | cmd/pitot/doctor_kimi.go:155-189 | Every character by name: taken, separating or refused outside quotes on either platform, and between either quotes. |
| LiteralWords.QuotedWordsSurvive | cmd/pitot/doctor_kimi.go:163-189 | Lists of single-quoted words survive on Unix. |

## Left out

- HTTP transport, authorization, descriptor files, file permissions and command-line handling: foreign calls and plumbing.
- Process spawning, pipes, timers, goroutine scheduling and randomness: kept only as nondeterministic events and parameters.
- SHA-256, hexadecimal coding, YAML, archives, and the decoders of Go, Rust and Python on texts outside the JSON grammar: parameters, or refused by assumption; agreement between languages is stated on texts of the grammar.
- Numbers inside arbitrary data: which numbers serde_json and json.loads take, what JSON.parse and as_u64 make of a spelling, and how Go writes a float back are parameters; the values are not compared between languages.
- Python's text-mode fallback for standard input: a line is its UTF-8 bytes.
- The decoding into typed values after a validator has accepted (json.Unmarshal, from_value, from_dict), except for Go's fields in the two typed results.
- EnvelopeLines.DataOf: member names are strings of scalar values; a name with an unpaired surrogate in a value that a TypeScript or Python handler built would be an unknown one.
- Error texts: which check fails is modelled, the wording is not, except in the supervisor's reasons and the outcomes of the merge.
- Router.Kinds and Router.Registration, consumer reports on standard error, and reportDecision: lookups and diagnostics.
- DecodeEnvelope's assignment of the target: the result of decoding is a value here, so that the target stays untouched on refusal is not stated.
- FrameReaders.Lines: states the frames but no bound on what the Python reader retains, which is readline's own buffer of the limit plus two bytes.
- Wiring.Merge and Wiring.Check: the configuration is a value between the two; that writing it as JSON and reading it back preserves it is taken for granted.
- Windows: the PowerShell shim, path case folding and ACLs; filepath.IsAbs is the POSIX rule.
- Hydration.Step: an operator who removes a stale lock by hand, and a cache slot written or deleted by anything but these programs, are not part of the model.
- Acp.CommandKey: the concatenated key itself is the map key, so two pairs that concatenate alike count as one.
- Init templates, doctor report text, the remaining host adapters, generated types, the Java and C# bindings, the DeepSeek launcher and upgrade commands: tables, text and records whose claims a reading settles.
