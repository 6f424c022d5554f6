# Verified models of Wayfinder's protocols and state machines

This project models the parts of Wayfinder that keep state across calls or rest
on exact arithmetic, and proves what they promise.

| file | models |
|---|---|
| `Prelude.dfy`, `Ordering.dfy` | bytes, line feeds, concatenation; sorting by a strict order |
| `JsonLines.dfy`, `AppServerSession.dfy`, `SessionAnswers.dfy`, `OutgoingFrames.dfy` | the newline-delimited decoder, the request/response session over it, what its calls give for the lines that come, and what it puts on the wire |
| `ServerSentEvents.dfy`, `WrittenEvents.dfy`, `ProviderStream.dfy` | the server-sent event parser, the bodies it recovers, and the loop that executes a streamed request |
| `Authorization.dfy`, `AuthorizationHistory.dfy` | the authorization code controller as an actor whose calls interleave at every await, and what must have happened for one to finish |
| `ChatTurn.dfy`, `StreamedTurn.dfy` | one chat turn with stops at any suspension point, the history it sends, and the path from response bytes to the kept answer |
| `ThreadCache.dfy` | the sorted thread list and the conversation store it must equal |
| `TextChunks.dfy` | the broker's bounded chunks and the client that validates the numbered stream |
| `Rounding.dfy`, `Scorer.dfy` | rounding through a 20-digit string, the feature extractor, the score and the tier choice |
| `OwnedStore.dfy`, `ConfigReplace.dfy` | the staged store creation and the atomic config replace, with crashes |
| `Lexicon.dfy` | the distilled reasoning lexicon |

Objects that the program updates in place are classes whose methods are proved
equal to specification functions; the theorems over whole runs are about those
functions. File-system protocols and actor interleavings are state machines over
atomic steps. `dafny verify dfyconfig.toml` checks everything.

Findings about the code:

- With completions one at a time and refresh alone, "ready implies a stored
  credential" still fails in exactly two ways (`Authorization.UnbackedExactly`).
  One is a begin while a sign-out's delete is outstanding: the delete can land
  after the save of the authorization begun after it. The other is a sign-out in
  `ready` while the pending authorization is being saved: the store can refuse
  its delete, and the orphaned completion then removes the credential. A caller
  who awaits each sign-out before beginning, and each completion before signing
  out of `ready`, is safe.
- A write cut off by its deadline leaves a fragment on the wire, the session
  stays usable, and the next value is heard glued to that fragment
  (`OutgoingFrames.TornWriteGlues`).
- The rounding is exact up to 62 binary places and no further; doubles with more
  places are too small to matter, so it is exact for every double.
- A streamed body that ends without its marker leaves the answer failed rather
  than interrupted, because the provider reports the interruption as an error.

## Model

| member | source | states |
|---|---|---|
| `JsonLines.SplitIndependence` | rust/crates/wayfinder-codex-app-server/src/protocol.rs:212-230 | For every schedule of reads, with deadlines anywhere between them and whatever breaks it off, the lines taken and the first error are those of a one-pass split at LF of the bytes before the break (one trailing CR dropped, an empty line and a line over 65,536 bytes refused); where the split only runs out of bytes the error is that of the break |
| `JsonLines.SameWireSameLines` | rust/crates/wayfinder-codex-app-server/src/protocol.rs:212-230 | Two cuts of the same bytes, broken off alike, are heard alike: same lines, same first error |
| `JsonLines.FrontStable` | rust/crates/wayfinder-codex-app-server/src/protocol.rs:361-379 | A verdict reached on a prefix of the stream (a line, an empty line, a line too long) is the verdict on every continuation of it |
| `JsonLines.PushRefusal` | rust/crates/wayfinder-codex-app-server/src/protocol.rs:343-359 | A push onto a buffer with no complete line is refused if and only if every continuation of the stream has an overlong next line |
| `JsonLines.BufferBound` | rust/crates/wayfinder-codex-app-server/src/protocol.rs:212-230 | With reads of at most 8,192 bytes the buffer never exceeds the line limit plus one read, across any number of waits |
| `JsonLines.LineBound` | rust/crates/wayfinder-codex-app-server/src/protocol.rs:214-217 | Every line handed on is non-empty and within 65,536 bytes, so the separate response limit, the same number, never fires |
| `JsonLines.FrameRoundTrip` | rust/crates/wayfinder-codex-app-server/src/protocol.rs:194-202 | A message without line feeds, within the limit, is read back unchanged from its frame if and only if it is not empty and does not end in a carriage return |
| `JsonLines.FrontMeaning` | rust/crates/wayfinder-codex-app-server/src/protocol.rs:361-379 | What any first line is heard as, whatever follows: without one trailing carriage return and no more, refused as empty when that leaves nothing, refused as too long when its bytes before the LF exceed the limit; without an LF it is incomplete or already too long |
| `JsonLines.FramedMessagesSurvive` | rust/crates/wayfinder-codex-app-server/src/protocol.rs:194-230 | Messages framed one after the other come back unchanged and in order for every cut of the bytes and every deadline in between, and then the error of whatever breaks the stream off |
| `JsonLines.JsonlDecoder.Push` | rust/crates/wayfinder-codex-app-server/src/protocol.rs:343-359 | Success and error of a push and the buffer it leaves, equal to the specification that `PushRefusal` is about; an error keeps the new bytes only when they held a line feed |
| `JsonLines.JsonlDecoder.Position` | rust/crates/wayfinder-codex-app-server/src/protocol.rs:345-355 | The scan finds the first LF of the buffer, or its length |
| `JsonLines.JsonlDecoder.NextLine` | rust/crates/wayfinder-codex-app-server/src/protocol.rs:361-379 | Takes out of the buffer exactly the front of the one-pass split and nothing more; on no line or an overlong line the buffer is untouched, an empty line is consumed with its error |
| `AppServerSession.Conservation` | rust/crates/wayfinder-codex-app-server/src/protocol.rs:107-155 | Over any run of requests, reads and drains: handed-out then queued notifications are the decoded ones in wire order if and only if no call reported a full queue, and each such report stands for exactly one lost notification |
| `AppServerSession.QueueBound` | rust/crates/wayfinder-codex-app-server/src/protocol.rs:204-210 | Over any run the notification queue never exceeds 128 |
| `AppServerSession.Correlation` | rust/crates/wayfinder-codex-app-server/src/protocol.rs:78-131 | Over any run with deadlines and late, duplicate or foreign answers: each success is taken from a decoded response with that request's own id, decoded during that call; later successes have larger ids and later responses, so no id or response is used twice and a stale answer reaches no later request |
| `AppServerSession.StepCorrelation` | rust/crates/wayfinder-codex-app-server/src/protocol.rs:78-105 | One successful request spent a fresh id, wrote its own call on the wire and ended on the response carrying that id and that result |
| `AppServerSession.StepAccount` | rust/crates/wayfinder-codex-app-server/src/protocol.rs:107-155 | One call of any kind keeps the account of notifications, except that a full queue loses exactly the one that did not fit |
| `AppServerSession.WaitAccount` | rust/crates/wayfinder-codex-app-server/src/protocol.rs:107-131 | One wait for a response only appends to log and outgoing side, keeps ids, pending count and queue bound, and succeeds only on a response with the expected id, a result and no error |
| `AppServerSession.RequestAccount` | rust/crates/wayfinder-codex-app-server/src/protocol.rs:78-105 | One request leaves the pending count as it was, never reuses an id, and on success has sent its call and taken its own response last |
| `AppServerSession.NextAccount` | rust/crates/wayfinder-codex-app-server/src/protocol.rs:133-151 | Taking one notification conserves them: from the queue first, otherwise straight off the wire; ids are untouched |
| `AppServerSession.AnswerArrives` | rust/crates/wayfinder-codex-app-server/src/protocol.rs:107-131 | On a live connection whose next lines are notifications that still fit in the queue and then the request's own answer, the wait succeeds with that answer and has queued exactly those notifications, however the bytes are cut |
| `SessionAnswers.ResultComesBack` | rust/crates/wayfinder-codex-app-server/src/protocol.rs:78-131 | From how the coming lines parse: notifications that fit, then a line with this id, a result and no error, make the request succeed with that result; they are queued with their own names and parameters, pending is as before, and exactly its own call went out |
| `SessionAnswers.ErrorComesBack` | rust/crates/wayfinder-codex-app-server/src/protocol.rs:107-131 | The same with an error and no result: the request fails, with authentication required if and only if the error says so |
| `SessionAnswers.ServerRequestDenied` | rust/crates/wayfinder-codex-app-server/src/protocol.rs:124-129 | A line with an id and a name is denied under its own id and the request is given up as forbidden |
| `SessionAnswers.StrangeLineComesBack` | rust/crates/wayfinder-codex-app-server/src/protocol.rs:313-336 | An answer to another request, or with an id that is no number, is a correlation failure; everything that is no message, or a response with both or neither of result and error, is malformed |
| `SessionAnswers.NextMeets` | rust/crates/wayfinder-codex-app-server/src/protocol.rs:133-151 | Reading with an empty queue: a notification is handed out with its name and parameters, a server request is denied under its id, a response is a correlation failure, anything else malformed |
| `SessionAnswers.RefusedAtOnce` | rust/crates/wayfinder-codex-app-server/src/protocol.rs:85-92 | Before the handshake, with sixteen pending or with the ids used up, a request is refused and changes nothing |
| `SessionAnswers.RefusedSending` | rust/crates/wayfinder-codex-app-server/src/protocol.rs:93-104 | A call too long, or whose write fails, ends the request with that error before anything is read; it costs an id and nothing stays pending |
| `SessionAnswers.SendEnds` | rust/crates/wayfinder-codex-app-server/src/protocol.rs:194-202 | An oversized value puts out nothing; a write that fails is reported as timed out or failed, and only a full write as success |
| `AppServerSession.ReceiveNext` | rust/crates/wayfinder-codex-app-server/src/protocol.rs:212-230 | While no deadline falls, one wait takes exactly the next line of the whole stream, if one is still to come, and leaves the rest of it |
| `OutgoingFrames.IntactExactly` | rust/crates/wayfinder-codex-app-server/src/protocol.rs:164-202 | Over any run, with requests, denials and writes that fail after any number of bytes: the bytes put out are the frames of the values sent, in order, if and only if no write was cut off in the middle |
| `OutgoingFrames.PeerHearsWhatWasSent` | rust/crates/wayfinder-codex-app-server/src/protocol.rs:194-202 | After any run without a torn write the other side, framing alike, hears every value sent, once and in order, for every cut of the bytes |
| `OutgoingFrames.TornWriteGlues` | rust/crates/wayfinder-codex-app-server/src/protocol.rs:194-202 | After a torn write the next value is heard glued to the fragment, as one line that nobody sent |
| `AppServerSession.Session.Queue` | rust/crates/wayfinder-codex-app-server/src/protocol.rs:204-210 | Refuses at 128 queued and changes nothing then; otherwise appends at the end |
| `AppServerSession.Session.Send` | rust/crates/wayfinder-codex-app-server/src/protocol.rs:194-202 | Refuses an oversized value before writing; otherwise the frame goes out, whole when success is returned and in part or whole when the write fails, and the state records which |
| `AppServerSession.Session.NextFrame` | rust/crates/wayfinder-codex-app-server/src/protocol.rs:212-230 | The read loop over decoder and transport equals the specification of one wait: result, remaining buffer and remaining input; a deadline takes no bytes, because the one read it can cancel has none yet |
| `AppServerSession.Session.Take` | rust/crates/wayfinder-codex-app-server/src/protocol.rs:212-230 | Reads and classifies one message; result and whole session state equal the specification used by the run theorems |
| `AppServerSession.Session.DenyServerRequest` | rust/crates/wayfinder-codex-app-server/src/protocol.rs:178-192 | A refused server request is answered once and reported as forbidden, or as the failure of that write |
| `AppServerSession.Session.Await` | rust/crates/wayfinder-codex-app-server/src/protocol.rs:107-131 | The response loop equals the recursive specification: result, queue, log, wire and decoder |
| `AppServerSession.Session.Ask` | rust/crates/wayfinder-codex-app-server/src/protocol.rs:78-105 | One request equals its specification, including the limits on pending requests and ids and the restored pending count |
| `AppServerSession.Session.TakeNotification` | rust/crates/wayfinder-codex-app-server/src/protocol.rs:133-151 | Equal to its specification: queue first, then one message off the wire; a response or server request there is an error |
| `AppServerSession.Session.Perform` | rust/crates/wayfinder-codex-app-server/src/protocol.rs:66-155 | Every public call is exactly one step of a run, so all run theorems hold of the object |
| `ServerSentEvents.ChunksCutAlike` | ios/WayfinderIOS/WayfinderIOS/OpenAICompatibleProvider.swift:179-195 | The events cut by successive appends are those of the whole body, in order, with the same bytes left, even when a separator straddles chunks |
| `ServerSentEvents.CutTwice` | ios/WayfinderIOS/WayfinderIOS/OpenAICompatibleProvider.swift:186-194 | Cutting a stream in two instalments, the second from what the first left, cuts the same events |
| `ServerSentEvents.FrontStable` | ios/WayfinderIOS/WayfinderIOS/OpenAICompatibleProvider.swift:212-226 | Bytes that arrive later never move a separator that is already complete |
| `ServerSentEvents.ParserSplitIndependence` | ios/WayfinderIOS/WayfinderIOS/OpenAICompatibleProvider.swift:179-210 | When every event decodes and no append overflows, the payloads of successive appends followed by those of finish equal those of the whole body |
| `ServerSentEvents.ShortEventsFit` | ios/WayfinderIOS/WayfinderIOS/OpenAICompatibleProvider.swift:180-183 | No append overflows, for any cut into chunks of at most c bytes, when every event with its separator is at most 524,288 - c bytes |
| `WrittenEvents.WrittenPayloadsRecovered` | ios/WayfinderIOS/WayfinderIOS/OpenAICompatibleProvider.swift:179-252 | From any cut of a body of events closed by blank lines of either kind, the appends give exactly the values of the data lines, in order, with or without a space after the colon, and nothing for comments, other fields and events without data; a last event that is not closed is given by the finish |
| `WrittenEvents.JoinMeaning` | ios/WayfinderIOS/WayfinderIOS/OpenAICompatibleProvider.swift:248-251 | The values of one event are joined by one line feed each and nothing else: they are the lines of the payload |
| `WrittenEvents.PayloadOfEvent` | ios/WayfinderIOS/WayfinderIOS/OpenAICompatibleProvider.swift:228-252 | The payload of any mixture of data lines and other lines, ended by any newline characters, is the joined values of its data lines, each without one leading space; without a data line there is none |
| `ServerSentEvents.OverflowExactly` | ios/WayfinderIOS/WayfinderIOS/OpenAICompatibleProvider.swift:179-184 | The appends refuse for size if and only if one of them takes the buffer over its limit |
| `ServerSentEvents.DrainedExactly` | ios/WayfinderIOS/WayfinderIOS/OpenAICompatibleProvider.swift:186-194 | An append within the limit throws if and only if an event in it does not decode, and then as an invalid response |
| `ProviderStream.ServerSentEventParser.SeparatorRange` | ios/WayfinderIOS/WayfinderIOS/OpenAICompatibleProvider.swift:212-226 | Searching each kind of separator and taking the earlier bounds exactly the first event of the buffer; none is reported only when none is there |
| `ProviderStream.ServerSentEventParser.Append` | ios/WayfinderIOS/WayfinderIOS/OpenAICompatibleProvider.swift:179-195 | Payloads and remaining buffer of the extraction loop equal the specification, including the size refusal and the first undecodable event |
| `ProviderStream.ServerSentEventParser.Finish` | ios/WayfinderIOS/WayfinderIOS/OpenAICompatibleProvider.swift:197-210 | Empties the buffer and reads what is left as one last event, unless it is only line breaks |
| `ProviderStream.Consume` | ios/WayfinderIOS/WayfinderIOS/OpenAICompatibleProvider.swift:487-535 | Handles payloads in order up to the first that ends the response and emits exactly the specified events |
| `ProviderStream.Execute` | ios/WayfinderIOS/WayfinderIOS/OpenAICompatibleProvider.swift:365-400 | The streaming loop with its size limit, early stop at the marker, final drain, and a body that breaks off by an error or a cancellation equals the chunk-wise specification |
| `ProviderStream.ExecutionSplitIndependence` | ios/WayfinderIOS/WayfinderIOS/OpenAICompatibleProvider.swift:365-400 | For every body within the limits whose complete events decode, and whatever breaks it off, emitted events and outcome do not depend on how the body is cut |
| `ProviderStream.BodyConsumed` | ios/WayfinderIOS/WayfinderIOS/OpenAICompatibleProvider.swift:365-400 | Executing a whole body is consuming its payloads in order and then reporting its end |
| `ProviderStream.MarkerCompletes` | ios/WayfinderIOS/WayfinderIOS/OpenAICompatibleProvider.swift:487-535 | Readable payloads followed by the marker emit exactly their non-empty deltas, then one completion, whatever follows |
| `ProviderStream.UnreadableRefuses` | ios/WayfinderIOS/WayfinderIOS/OpenAICompatibleProvider.swift:495-535 | A payload that is no deltas, after readable ones, ends the response after their deltas: an error envelope as rejected, anything else as invalid |
| `ProviderStream.OversizeRefused` | ios/WayfinderIOS/WayfinderIOS/OpenAICompatibleProvider.swift:369-383 | The chunk that takes the body over its limit refuses it as too large, after everything in the chunks before it was emitted |
| `ProviderStream.UndecodableLosesEarlier` | ios/WayfinderIOS/WayfinderIOS/OpenAICompatibleProvider.swift:186-194 | Why all events must decode: a marker before an event that does not decode completes the response when they come in two chunks and is lost when they come in one |
| `ProviderStream.DeltasEach` | ios/WayfinderIOS/WayfinderIOS/OpenAICompatibleProvider.swift:528-533 | Contents are emitted one by one in order, the empty ones left out |
| `ProviderStream.CompletionExactlyAtMarker` | ios/WayfinderIOS/WayfinderIOS/OpenAICompatibleProvider.swift:384-400 | Completion is emitted if and only if a marker comes before any payload that is not readable; it is emitted once and last; a readable body without a marker ends as interrupted, or as what broke it off |
| `Authorization.NothingLeftBehind` | ios/WayfinderIOS/WayfinderIOS/AuthorizationCodePKCE.swift:253-318 | In every interleaving, with any exchange, save and delete failing, once no call is in flight a stored credential is the initial one, one of a completion that finished ready, or one whose cleanup delete the store refused |
| `Authorization.StoredMeansInitialOrReady` | ios/WayfinderIOS/WayfinderIOS/AuthorizationCodePKCE.swift:253-318 | When cleanup deletes succeed, the refused-cleanup case is gone: a cancelled or superseded authorization leaves nothing behind |
| `Authorization.ReadyMeansStored` | ios/WayfinderIOS/WayfinderIOS/AuthorizationCodePKCE.swift:208-318 | In every interleaving of orderly calls (completions one at a time, refresh alone) none of which is harmful, whatever the token endpoint and the store answer, the actor never rests in `ready` with nothing stored; harmful are a begin while a sign-out's delete is outstanding, and a sign-out in `ready` while the pending authorization is being saved |
| `Authorization.UnbackedExactly` | ios/WayfinderIOS/WayfinderIOS/AuthorizationCodePKCE.swift:208-318 | After any such run the next orderly event can be followed by one that rests in `ready` with nothing stored if and only if it is one of the two harmful calls |
| `Authorization.BeginHarms` | ios/WayfinderIOS/WayfinderIOS/AuthorizationCodePKCE.swift:253-318 | The first kind: store answers, resumptions and one completion lead there, by an orderly and otherwise harmless run |
| `Authorization.SignOutHarms` | ios/WayfinderIOS/WayfinderIOS/AuthorizationCodePKCE.swift:275-318 | The second kind: store answers and resumptions alone lead there |
| `Authorization.PrudentIsHarmless` | ios/WayfinderIOS/WayfinderIOS/AuthorizationCodePKCE.swift:208-318 | A caller who begins only when no sign-out is in flight, and signs out in `ready` only when no completion is, makes no harmful call |
| `Authorization.OvertakingRestsUnbacked` | ios/WayfinderIOS/WayfinderIOS/AuthorizationCodePKCE.swift:275-318 | A concrete orderly run: sign-out, begin and complete, with the delete carried out after the save |
| `Authorization.RefusedSignOutRestsUnbacked` | ios/WayfinderIOS/WayfinderIOS/AuthorizationCodePKCE.swift:275-318 | A concrete orderly run: a refresh makes readiness `ready` during an authorization, a sign-out clears it, its delete is refused, and the orphaned completion undoes its save |
| `Authorization.OverlappingCompletionsRestUnbacked` | ios/WayfinderIOS/WayfinderIOS/AuthorizationCodePKCE.swift:279-282 | A concrete run without a harmful call: the cleanup delete of one of two completions removes the credential of the other, which finished ready |
| `Authorization.OverlappingRefreshRestsUnbacked` | ios/WayfinderIOS/WayfinderIOS/AuthorizationCodePKCE.swift:303-318 | A concrete run without a harmful call: a refresh that read the store before a sign-out emptied it reports ready afterwards |
| `Authorization.Actor.Perform` | ios/WayfinderIOS/WayfinderIOS/AuthorizationCodePKCE.swift:208-318 | Every event performed by the controller's own methods is exactly one step of a run, so the theorems over interleavings hold of the object |
| `AuthorizationHistory.FinishedReadyWasEarned` | ios/WayfinderIOS/WayfinderIOS/AuthorizationCodePKCE.swift:253-293 | Over every run: a call that finished ready was opened by a completion with a code of the authorization pending then, its exchange succeeded, its save was carried out, and all the while that authorization stayed pending, with no cancel of it and no sign-out between |
| `AuthorizationHistory.StoredWasEarned` | ios/WayfinderIOS/WayfinderIOS/AuthorizationCodePKCE.swift:253-278 | Over every run: a credential written by a call comes from such a completion, through a successful exchange during which the authorization stayed pending |
| `AuthorizationHistory.RejectedCallback` | ios/WayfinderIOS/WayfinderIOS/AuthorizationCodePKCE.swift:261-292 | After any run, a callback without a code for the pending authorization leaves nothing pending, readiness failed and the store as it was; afterwards that call never writes and that authorization never finishes |
| `AuthorizationHistory.CancelSticks` | ios/WayfinderIOS/WayfinderIOS/AuthorizationCodePKCE.swift:295-318 | After any run, a cancel of the pending authorization signs out and leaves the store alone, a sign-out forgets it at once, and after either it never finishes; a cancel of another changes nothing |
| `AuthorizationHistory.ForeignCallback` | ios/WayfinderIOS/WayfinderIOS/AuthorizationCodePKCE.swift:257-259 | A completion of an authorization that is not pending changes neither fields nor store |
| `AuthorizationHistory.BeginRefused` | ios/WayfinderIOS/WayfinderIOS/AuthorizationCodePKCE.swift:209-218 | A begin while one is pending, or with a bad configuration, changes neither fields nor store |
| `AuthorizationHistory.UndisturbedAuthorization` | ios/WayfinderIOS/WayfinderIOS/AuthorizationCodePKCE.swift:208-293 | An undisturbed authorization ends ready with its own credential stored if and only if the callback carried a code, the exchange worked and the save was carried out; otherwise failed, nothing pending, the store as it was |
| `AuthorizationHistory.UndisturbedRefresh` | ios/WayfinderIOS/WayfinderIOS/AuthorizationCodePKCE.swift:303-312 | An undisturbed refresh tells whether the store holds a credential, or that it failed |
| `AuthorizationHistory.UndisturbedSignOut` | ios/WayfinderIOS/WayfinderIOS/AuthorizationCodePKCE.swift:314-318 | An undisturbed sign-out empties the store and signs out, or changes only what is pending |
| `Authorization.AuthorizationCodePKCEController.Continue` | ios/WayfinderIOS/WayfinderIOS/AuthorizationCodePKCE.swift:253-318 | Resuming a call runs the stretch after its await: fields and next await or end equal the specification the runs use |
| `Authorization.AuthorizationCodePKCEController.BeginAuthorization` | ios/WayfinderIOS/WayfinderIOS/AuthorizationCodePKCE.swift:208-251 | Refused while one is pending or misconfigured, changing nothing; otherwise pending and authorizing even when the challenge then fails to build |
| `Authorization.AuthorizationCodePKCEController.StartCompletion` | ios/WayfinderIOS/WayfinderIOS/AuthorizationCodePKCE.swift:253-266 | Goes on to the exchange exactly when this authorization is pending and the callback carries a code; a bad callback fails the pending one, a foreign id changes nothing |
| `Authorization.AuthorizationCodePKCEController.ExchangeReturned` | ios/WayfinderIOS/WayfinderIOS/AuthorizationCodePKCE.swift:267-274 | Goes on to save exactly when the exchange worked and the authorization is still pending; otherwise only its own pending state is failed |
| `Authorization.AuthorizationCodePKCEController.SaveReturned` | ios/WayfinderIOS/WayfinderIOS/AuthorizationCodePKCE.swift:275-293 | Ready and no longer pending, or on to delete what was saved exactly when the authorization was superseded, or failed |
| `Authorization.AuthorizationCodePKCEController.UndoReturned` | ios/WayfinderIOS/WayfinderIOS/AuthorizationCodePKCE.swift:279-293 | Gives the authorization up whether or not the cleanup delete worked |
| `Authorization.AuthorizationCodePKCEController.CancelAuthorization` | ios/WayfinderIOS/WayfinderIOS/AuthorizationCodePKCE.swift:295-301 | Clears only the authorization it names |
| `Authorization.AuthorizationCodePKCEController.RefreshReturned` | ios/WayfinderIOS/WayfinderIOS/AuthorizationCodePKCE.swift:303-312 | Readiness becomes what the store answered; pending is untouched |
| `Authorization.AuthorizationCodePKCEController.StartSignOut` | ios/WayfinderIOS/WayfinderIOS/AuthorizationCodePKCE.swift:314-316 | Forgets the pending authorization at once, before the store is asked |
| `Authorization.AuthorizationCodePKCEController.SignOutReturned` | ios/WayfinderIOS/WayfinderIOS/AuthorizationCodePKCE.swift:316-317 | Reports signed out only when the delete worked and keeps an authorization begun meanwhile |
| `ChatTurn.AnswerMeaning` | ios/WayfinderIOS/WayfinderIOS/AppModel.swift:490-557 | For every provider run and every placement of stops: the answer is terminal; its text is the concatenation of a prefix of the deltas, all of them unless stopped, or the failure text when a failed turn had none; completed if and only if the provider completed and no stop came before |
| `ChatTurn.AppModel.SendMessage` | ios/WayfinderIOS/WayfinderIOS/AppModel.swift:415-563 | Whatever the provider does and wherever stops fall, the thread gains the user's message and one answer with exactly that status and text; every saved version of it is open with growing text until one terminal version, the last; the phase is idle again; a busy or empty send changes nothing |
| `ChatTurn.AppModel.Converse` | ios/WayfinderIOS/WayfinderIOS/AppModel.swift:415-563 | One prompt after the other gives exactly the thread that the history theorem is about |
| `ChatTurn.HistoryAfter` | ios/WayfinderIOS/WayfinderIOS/AppModel.swift:1054-1101 | After any run of turns of the object on a new thread, the next request sends exactly the pairs of the completed turns and the new prompt |
| `ChatTurn.AppModel.Receive` | ios/WayfinderIOS/WayfinderIOS/AppModel.swift:500-557 | The event loop with all its endings settles the answer as specified, once |
| `ChatTurn.AppModel.TakePieces` | ios/WayfinderIOS/WayfinderIOS/AppModel.swift:512-523 | Deltas are appended in order until the first stop is seen, and no delta after it |
| `ChatTurn.AppModel.BeginTurn` | ios/WayfinderIOS/WayfinderIOS/AppModel.swift:714-767 | Appends the user's message and an empty pending answer under fresh ids |
| `ChatTurn.AppModel.PersistFailedTurn` | ios/WayfinderIOS/WayfinderIOS/AppModel.swift:769-811 | Appends both messages with the answer already failed |
| `ChatTurn.AppModel.AppendDelta` | ios/WayfinderIOS/WayfinderIOS/AppModel.swift:813-834 | An empty delta changes nothing; otherwise only the answer changes: its text grows by the delta and it is streaming |
| `ChatTurn.AppModel.FinishMessage` | ios/WayfinderIOS/WayfinderIOS/AppModel.swift:836-861 | A terminal answer is left alone; an open one takes the status and keeps its text |
| `ChatTurn.AppModel.FailMessage` | ios/WayfinderIOS/WayfinderIOS/AppModel.swift:863-884 | The answer is failed and keeps its text, or takes the failure text when it had none |
| `ChatTurn.AppModel.StopGenerating` | ios/WayfinderIOS/WayfinderIOS/AppModel.swift:569-576 | Marks the active request as stopping; idle stays idle |
| `ChatTurn.ProviderHistory` | ios/WayfinderIOS/WayfinderIOS/AppModel.swift:1054-1101 | The loop with its pending user message keeps exactly the specified entries and ends with the new prompt |
| `ChatTurn.HistoryIsCompletedPairs` | ios/WayfinderIOS/WayfinderIOS/AppModel.swift:1054-1101 | After any run of turns with any outcomes the history is exactly the prompt and answer of each completed turn, in order; failed, stopped and interrupted turns contribute nothing |
| `ChatTurn.TurnKept` | ios/WayfinderIOS/WayfinderIOS/AppModel.swift:1062-1094 | One turn leaves no user message waiting, and gives its pair if and only if it completed |
| `ChatTurn.UnroutableFails` | ios/WayfinderIOS/WayfinderIOS/AppModel.swift:467-478 | A prompt that cannot be routed is answered as failed with the failure in words, and adds nothing to later history |
| `ChatTurn.HistoryOfAnyThread` | ios/WayfinderIOS/WayfinderIOS/AppModel.swift:1054-1101 | Of any thread of system notes, unanswered and answered prompts with any statuses the history keeps, in order, the completed notes and the pairs with prompt and answer both completed |
| `StreamedTurn.MarkedBodyCompletes` | ios/WayfinderIOS/WayfinderIOS/AppModel.swift:500-542 | Across parser, provider and turn: an unstopped turn over a body with a marker after readable payloads is answered completed with exactly the content before the marker, for every cut of the bytes and whatever follows |
| `StreamedTurn.UnmarkedBodyFails` | ios/WayfinderIOS/WayfinderIOS/AppModel.swift:530-557 | An unstopped turn over a readable body without a marker is interrupted when the provider was cancelled and otherwise fails, keeping the content, or the wording of the error when there was none |
| `StreamedTurn.NothingInvented` | ios/WayfinderIOS/WayfinderIOS/AppModel.swift:500-557 | With stops anywhere the kept text is a front of the body's content or the wording of its error, and a completed answer is all the content before the body's first marker |
| `ThreadCache.UpsertIsSave` | ios/WayfinderIOS/WayfinderIOS/AppModel.swift:1169-1178 | Remove, append and sort on the listing of a store gives the listing of the store after a save |
| `ThreadCache.ListingUnique` | ios/WayfinderIOS/WayfinderIOS/ConversationStore.swift:389-396 | A store has one listing only: newest first, id as tie-break |
| `ThreadCache.ListingDistinct` | ios/WayfinderIOS/WayfinderIOS/ConversationStore.swift:389-396 | In a listing no id occurs twice, newer threads come first, and of equally new ones the smaller id |
| `ThreadCache.InMemoryConversationStore.ListThreads` | ios/WayfinderIOS/WayfinderIOS/ConversationStore.swift:389-396 | The pass over the dictionary and the sort give the listing of the store |
| `ThreadCache.InMemoryConversationStore.DeleteThread` | ios/WayfinderIOS/WayfinderIOS/ConversationStore.swift:406-411 | Exactly that thread goes, and the saved workspace is emptied when it had that thread open |
| `ThreadCache.InMemoryConversationStore.PruneThreads` | ios/WayfinderIOS/WayfinderIOS/ConversationStore.swift:418-429 | Exactly the threads older than the cutoff go, their number is returned, and the saved workspace is left with a stored thread open or none |
| `ThreadCache.ThreadList.UpsertInMemory` | ios/WayfinderIOS/WayfinderIOS/AppModel.swift:1169-1178 | The new list is the sorted upsert of the old one |
| `ThreadCache.ThreadList.SaveUpdatedThread` | ios/WayfinderIOS/WayfinderIOS/AppModel.swift:886-898 | Keeps the list equal to the store's own listing, list first and store second |
| `ThreadCache.ThreadList.PersistDraft` | ios/WayfinderIOS/WayfinderIOS/AppModel.swift:1103-1117 | The same for a draft, store first and list second |
| `ThreadCache.ThreadList.BeginTurn` | ios/WayfinderIOS/WayfinderIOS/AppModel.swift:753-764 | Saving and reloading gives the same list as an upsert would have |
| `ThreadCache.ThreadList.DeleteThread` | ios/WayfinderIOS/WayfinderIOS/AppModel.swift:682-698 | The list loses exactly that id and still equals the store's listing |
| `ThreadCache.ThreadList.DeleteAllThreads` | ios/WayfinderIOS/WayfinderIOS/AppModel.swift:700-712 | List and store are both empty |
| `ThreadCache.ThreadList.ApplyRetention` | ios/WayfinderIOS/WayfinderIOS/AppModel.swift:1142-1167 | The list keeps exactly the threads not older than the cutoff and equals the store's listing |
| `Rounding.EveryDoubleIsExact` | clients/shared/src/scorer.js:60-75 | For every m / 2^e with m below 2^53, whatever e, the 20-digit string alone gives the exact round-half-even to hundredths |
| `Rounding.ExactUpTo62` | clients/shared/src/scorer.js:60-75 | The same for every dyadic of any size with at most 62 binary places |
| `Rounding.SixtyThreeIsTooMany` | clients/shared/src/scorer.js:60-75 | 62 is sharp: a value with 63 binary places just above a tie shows a tie in its string and is rounded down |
| `Rounding.TieGap` | clients/shared/src/scorer.js:67-73 | The distance of 100 x from a tie is zero or at least 4 / 2^e |
| `Rounding.FarFromTie` | clients/shared/src/scorer.js:67-73 | At that distance, rounding to 20 places first does no harm |
| `Rounding.HalfEvenIsNearest` | clients/shared/src/scorer.js:55-56 | The reference rounds to within half, and to the even neighbour on a tie |
| `Rounding.ToFixedReads` | clients/shared/src/scorer.js:63-69 | The digits before and after the second decimal read back as the scaled integer, and a non-zero digit follows the third decimal if and only if the rest is not zero |
| `Rounding.PyRound2` | clients/shared/src/scorer.js:60-75 | The digit-by-digit method, sign included, returns the exact round-half-even in hundredths |
| `Scorer.ExtractStructure` | clients/shared/src/scorer.js:86-99 | The one-pass loop with its fence flag gives heading, depth, item, row and link counts over the lines outside fences, and (fence lines + 1) / 2 code blocks |
| `Scorer.CutAddsUp` | clients/shared/src/scorer.js:89-99 | Cutting the lines at any point outside a fence makes the counts add up and the depth the maximum; cutting inside one makes the code blocks one too many when both parts leave a fence open |
| `Scorer.SingleLine` | clients/shared/src/scorer.js:92-98 | The counts of one line: a heading of its depth, or else an item, or else a row, and its links in any case; with `CutAddsUp` and `FencedBlock` this fixes the counts of every text |
| `Scorer.FencedBlock` | clients/shared/src/scorer.js:90-93 | A fenced block, closed or not, counts as one code block and nothing else, whatever is in it |
| `Scorer.ScalarScore` | clients/shared/src/scorer.js:115-125 | The two loops give the rounded weighted mean of the normalised counts, between 0 and 100 hundredths |
| `Scorer.ScoreInUnit` | clients/shared/src/scorer.js:115-125 | With non-negative weights the exact score lies in [0, 1] |
| `Scorer.NothingScoresNothing` | clients/shared/src/scorer.js:115-125 | All counts zero give score zero |
| `Scorer.SaturatedScoresOne` | clients/shared/src/scorer.js:115-125 | All counts at or above saturation give score one when the total weight is positive |
| `Scorer.RaisedExactly` | clients/shared/src/scorer.js:115-125 | Raising one count by d within its saturation raises the exact score by weight * d / (saturation * total weight); raising a saturated count changes nothing |
| `Scorer.ScoreMonotone` | clients/shared/src/scorer.js:115-134 | Raising any feature count never lowers the rounded score nor the index of the chosen tier |
| `Scorer.RoundingsAgree` | clients/shared/src/scorer.js:60-75 | The rounding used on the exact score is the one proved for the digit string |
| `Scorer.RecommendTier` | clients/shared/src/scorer.js:127-134 | The loop with a break returns the last of the leading tiers reached, or the first tier; thresholds are any numbers |
| `Scorer.NaturalTier` | clients/shared/src/gateway.js:5-17 | Sorting a copy and scanning all of it returns the last tier reached, or the first, or a question mark when there is none |
| `Scorer.LoopPicksNatural` | clients/shared/src/gateway.js:5-12 | On ascending tiers the loop with a break picks the tier that sorting and scanning pick from the same tiers in any order |
| `TextChunks.BoundedChunks` | macos/WayfinderMac/Sources/WayfinderFoundationModelBroker/main.swift:175-189 | The chunks concatenate to the text, none is empty or over 65,536 bytes, each but the last has more than 65,532, and none was closed while the next scalar still fitted |
| `TextChunks.SendStream` | macos/WayfinderMac/Sources/WayfinderFoundationModelBroker/main.swift:97-116 | The events are bounded chunks of the text numbered from zero and one terminal with the next number; they reassemble to the text, and the client accepts them if and only if the text is within its limit |
| `TextChunks.ReceiveStream` | rust/crates/wayfinder-apple-foundation-xpc/src/lib.rs:268-316 | The client's loop delivers exactly the events before the first refused one, up to and including one its callback refuses, and gives the specified verdict |
| `TextChunks.AcceptedExactly` | rust/crates/wayfinder-apple-foundation-xpc/src/lib.rs:268-316 | A stream is accepted if and only if it is some run of chunks within all three limits, numbered from zero and closed by one terminal |
| `TextChunks.RefusedAs` | rust/crates/wayfinder-apple-foundation-xpc/src/lib.rs:268-312 | After any chunks within the limits the next event is refused for what is wrong with it: version, request, number, missing or unwanted content, anything after the terminal, and only length for its size |
| `TextChunks.UnfinishedRefused` | rust/crates/wayfinder-apple-foundation-xpc/src/lib.rs:313-315 | A stream without its terminal is refused as invalid |
| `TextChunks.BrokerStreamsAccepted` | rust/crates/wayfinder-apple-foundation-xpc/src/lib.rs:268-316 | The broker's stream for a reply is accepted if and only if the reply is within 524,288 bytes; then it has at most ten events; and it reassembles to the reply |
| `TextChunks.NineChunks` | macos/WayfinderMac/Sources/WayfinderFoundationModelBroker/main.swift:175-189 | A reply within the response limit makes at most nine chunks |
| `OwnedStore.AlwaysAbsentOrComplete` | rust/crates/wayfinder-cli/src/codex_app_server.rs:677-757 | For any number of processes, any interleaving, any failures and deaths: the store path is absent or a private directory with the complete marker, once complete it stays so, and a reported success is true |
| `OwnedStore.LaterRunSucceeds` | rust/crates/wayfinder-cli/src/codex_app_server.rs:677-757 | After any such history a new process that meets no failure of its own succeeds, leaves the complete store and no stage of its own |
| `OwnedStore.OccupiedPathUntouched` | rust/crates/wayfinder-cli/src/codex_app_server.rs:677-689 | Whatever else occupies the path, other than an empty directory, is never replaced, written to or removed |
| `OwnedStore.WrongStoreRefused` | rust/crates/wayfinder-cli/src/codex_app_server.rs:677-689 | While anything but a complete store or an empty directory occupies the path, no process ever reports success |
| `OwnedStore.NoStageLeft` | rust/crates/wayfinder-cli/src/codex_app_server.rs:711-714 | When removals work, no process that returns leaves its stage behind |
| `OwnedStore.NeverHalfMade` | rust/crates/wayfinder-cli/src/codex_app_server.rs:677-757 | The same from a path with nothing or a complete store at it, before any process starts |
| `OwnedStore.SafeNext` | rust/crates/wayfinder-cli/src/codex_app_server.rs:690-757 | One file-system step of one process keeps the invariant and never takes a complete store away |
| `ConfigReplace.OldOrNewNeverMixed` | rust/crates/wayfinder-cli/src/config_command.rs:271-317 | For any number of writers, any interleaving, failures and deaths: a reader sees the whole old file or the whole contents of the last committed writer, with the old permissions; success is reported if and only if the rename took place |
| `ConfigReplace.ReaderSeesOneWhole` | rust/crates/wayfinder-cli/src/config_command.rs:271-317 | From any file, before any writer starts: that file, or the whole contents of a committed writer under its permissions |
| `ConfigReplace.LaterWriterSucceeds` | rust/crates/wayfinder-cli/src/config_command.rs:286-317 | After any history of any writers, a new writer that goes on alone, with writes of any positive sizes and whether or not the directory syncs, reports success, is committed, has no stage left, and the path holds its whole contents with the old permissions |
| `ConfigReplace.NoStageLeft` | rust/crates/wayfinder-cli/src/config_command.rs:313-316 | When removals work, no writer that returns leaves its stage behind |
| `ConfigReplace.IrregularUntouched` | rust/crates/wayfinder-cli/src/config_command.rs:272-279 | A path that is no regular file is never replaced, and no writer succeeds on it |
| `ConfigReplace.WholeNext` | rust/crates/wayfinder-cli/src/config_command.rs:286-317 | One step of one writer keeps that invariant |
| `Lexicon.DistillReasoningLexicon` | rust/crates/wayfinder-cli/src/calibrate_command.rs:378-428 | Too few rows is reported exactly below four in either arm, nothing found only when no term qualifies, and otherwise the result is strictly ascending, at most 128 long, and holds a term if and only if it is eligible, in at least two high rows and no low one, and fewer than 128 such terms rank before it |
| `Lexicon.QualifiesMeaning` | rust/crates/wayfinder-cli/src/calibrate_command.rs:413-418 | A term qualifies if and only if it has three to forty-eight bytes, is no stop word, at least two high rows hold it and no low row does |
| `Lexicon.TermLessMeaning` | rust/crates/wayfinder-cli/src/calibrate_command.rs:426 | The term order is byte by byte at the first difference, a term before what it starts |
| `Lexicon.LexiconIgnoresRowOrder` | rust/crates/wayfinder-cli/src/calibrate_command.rs:378-428 | The lexicon of a dataset is unique and the same for every permutation of its rows |
| `Lexicon.TruncatedAreChosen` | rust/crates/wayfinder-cli/src/calibrate_command.rs:413-421 | The first 128 sorted candidates are exactly the chosen terms |
| `Lexicon.RivalsBefore` | rust/crates/wayfinder-cli/src/calibrate_command.rs:419-420 | In sorted order the terms that rank before a candidate are exactly the entries before it |
| `Lexicon.CountRows` | rust/crates/wayfinder-cli/src/calibrate_command.rs:393-412 | The two count maps hold every eligible term with the number of rows of that arm that contain it |
| `Lexicon.Candidates` | rust/crates/wayfinder-cli/src/calibrate_command.rs:413-418 | The filter keeps exactly the qualifying terms, each once, with its count |
| `Lexicon.BestTerms` | rust/crates/wayfinder-cli/src/calibrate_command.rs:419-427 | Sorting, cutting at 128 and sorting again by term gives the lexicon of the rows |

## Left out

Parameters and foreign calls:

- JSON parsing and writing, UTF-8 decoding, the line patterns of the feature extractor, `lexical_terms`, hashing, nonces, URLs and the Keychain are parameters or predicates.
- The network, XPC, process launch and clocks appear as arbitrary schedules of chunks, events and deadlines.

Session:

- The connect handshake and its validation, and `terminate`.
- AppServerSession.Session.Send: encoding is total, so an error of the JSON writer is not modelled.
- AppServerSession.Session.NextFrame: requests dropped by their caller in mid-await are not modelled, only the internal deadlines.
- The error texts that mark an authentication failure are one predicate.

Streams:

- ServerSentEvents.ParserSplitIndependence: an undecodable event makes what is emitted depend on the cut, because the append that meets it throws away earlier payloads of its chunk; the theorem requires that all events decode and that no append overflows.
- ProviderStream.ExecutionSplitIndependence: requires the same of complete events.
- ProviderStream.Execute: a cancellation is noticed between chunks; the check after the last event, which only changes how a finished stream is reported, is not modelled, nor are the credential lookup and the status validation before the loop.

Authorization:

- The configuration, nonce and URL checks of `beginAuthorization` are three outcomes; the callback check is one; a store operation that fails leaves the store as it was.
- Authorization.UnbackedExactly: a begin that throws after it became pending hands out no id, so whether it harms is not settled there; `ReadyMeansStored` counts it as harmful like any other.
- Authorization.ReadyMeansStored: completions one at a time and refresh alone are assumed; the two concrete runs with overlaps show why.

Chat turn and thread list:

- ChatTurn.AppModel.SendMessage: assumes a store that succeeds, no deletion of the thread and no draft save during the turn, and no provider event after completion; `retry`, `startNewChat`, `selectThread` and the clean-up of open messages at restart are not modelled.
- The thread's title, timestamps and route receipt; the saved workspace is its open thread only, and only in the store.
- ThreadCache.ThreadList.SaveUpdatedThread: with a store that fails the list and the store may differ, which is not modelled.

Scorer and rounding:

- Rounding.PyRound2: integers are exact, so a value whose hundredths exceed 2^53 or that is at least 10^21 (printed with an exponent) is not modelled, nor is the final division by 100 or a value that is not finite.
- Scorer.ScalarScore: sums and quotients are exact rationals; floating-point rounding before the last step is not modelled.
- Scorer.NaturalTier: the server's own model overriding the natural one is not modelled.
- Word, term, math symbol and question counts, and front matter stripping.
- JavaScript's and Swift's built-in sorts are modelled as a stable insertion sort.

Chunks:

- The inference task tables, cancellation between chunks and encoded message sizes.
- Swift's maximum chunk is taken equal to the client's 65,536 bytes; `AppleFoundationModelsProtocolV1` is not part of this model.

Files:

- Ownership, access control lists, link counts, checks of the parent directory, symbolic links appearing mid-run, and power loss that loses what was synced.
- The workspace directory that is created and then made private in place.
- Files and processes are modelled on values as state machines, one step for each file-system call.

Lexicon:

- The table of stop words is a parameter; saturation of the 64-bit counts is not modelled.

Not modelled at all: the routing core, the FFI conversions, user interfaces, the command line and its reports.
