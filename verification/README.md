# AudioCallApp call signalling, modelled in Dafny

AudioCallApp is a one-to-one audio calling app. Its `CallManager` does the
signalling for a WebRTC call through a Firestore collection `calls`:

- **Placing a call.** The caller creates a call document holding its offer,
  with status `ringing`, the caller id and the receiver id. The offer is
  rewritten so that it proposes the DTLS role `a=setup:actpass`.
- **Answering.** The callee's query for ringing calls addressed to it
  delivers the document. The callee sets the offer, writes its answer over
  the document with status `accepted`, and becomes active.
- **Candidates.** Both sides exchange ICE candidates through the call's two
  sub-collections:
  - the caller writes `localCandidates` and reads `remoteCandidates`;
  - the callee does the opposite.
- **Hanging up.** The call document is deleted once directly. Then both
  candidate sub-collections are read and their documents deleted. Then the
  call document is deleted again.

The project models that core. It has these parts:

- `sdp.dfy` (module `Sdp`): the offer rewrite of the `setup` attribute of
  RFC 4145 section 4, as used for DTLS-SRTP by RFC 5763 section 5. It is
  modelled as Foundation's `replacingOccurrences` with characters compared
  one by one.
- `firestore.dfy` (module `Firestore`): the signalling store as a value.
  - Each call is a document (`Option<Doc>`) plus two candidate
    sub-collections.
  - Identifiers handed out by `addDocument` come from a counter.
  - A log records every request issued.
  - The store is shared through the object `SignalingStore`.
- `ice_codec.dfy` (module `IceCodec`): the candidate record encoder and its
  validating decoder, and which sub-collection each role writes and reads.
- `relay.dfy` (module `Relay`): outbound candidate fan-out over the
  registered handlers, and inbound processing of a snapshot's document
  changes.
- `teardown.dfy` (module `Teardown`): what `endCall` and
  `deleteCallWithCandidates` do to the store, and in which order.
- `call_manager.dfy` (module `Calls`): the class `CallManager`.
  - Its fields are those of the Swift class.
  - The media engine's connection is a value `PeerConnection` holding its
    descriptions and the remote candidates it accepted.
  - Store listeners are a list of `registrations`.
  - Each engine callback that starts new work, each snapshot listener and
    each delegate call is an `On…` event method: the offer and answer
    callbacks (lines 134, 237), the three listeners (172, 194, 281), the
    connectivity and candidate delegate calls (406, 419), and the completion
    of the teardown's last delete (351, 388), which is `OnCallDeleted`.
  - The completions nested inside those run within the method that issued
    the request, with their outcome as a parameter: setting a description
    (146, 178, 215, 240), adding a candidate (290), and the two reads and
    the `notify` of the teardown (374, 387).
  - The engine's and the store's success or failure are parameters.
- `handshake.dfy` (module `Handshake`): two managers sharing one store go
  through a complete call, and the exact state of both managers is proved
  after each stage.
- `wrappers.dfy` (module `Wrappers`): `Option`.
- `sequences.dfy` (module `Sequences`): regrouping facts about sequences used by
  the proofs.

## Model

| member | source | states |
|---|---|---|
| Sdp.ReplaceOccurrences | AudioCallApp/CallManager.swift:137-140 | a replacement of the same length as the target keeps the text's length; text shorter than the target is returned unchanged |
| Sdp.ForceActpass | AudioCallApp/CallManager.swift:137-140 | the offer rewrite keeps the offer's length, so every position of the offer is still there afterwards |
| Sdp.MarkerNeverOverlaps | AudioCallApp/CallManager.swift:138 | two occurrences of `a=setup:passive` never overlap, so every one of them is replaced |
| Sdp.MarkerBecomesActpass | AudioCallApp/CallManager.swift:137-140 | wherever the offer has `a=setup:passive`, the rewritten offer has `a=setup:actpass` at the same position |
| Sdp.OtherTextKept | AudioCallApp/CallManager.swift:137-140 | every character that lies in no occurrence of `a=setup:passive` is kept, at the same position |
| Sdp.NoPassiveAfterRewrite | AudioCallApp/CallManager.swift:137-140 | after the rewrite no `a=setup:passive` occurs anywhere in the offer, including across a replaced occurrence and the text after it |
| Sdp.UnchangedWithoutPassive | AudioCallApp/CallManager.swift:137-140 | an offer without `a=setup:passive` is returned unchanged |
| Sdp.ForceActpassIdempotent | AudioCallApp/CallManager.swift:137-140 | rewriting twice gives the same offer as rewriting once |
| Firestore.SetData | AudioCallApp/CallManager.swift:153-159 | `setData` makes the call document exactly the given fields; the sub-collections and every other call are untouched; one request is logged |
| Firestore.UpdateData | AudioCallApp/CallManager.swift:252-255 | `updateData` writes the given fields over an existing document and keeps its other fields; on a missing document nothing is created |
| Firestore.DeleteDocument | AudioCallApp/CallManager.swift:350 | deleting a call document removes it on success and leaves it on failure; its sub-collections stay in both cases |
| Firestore.AddDocument | AudioCallApp/CallManager.swift:104-111 | `addDocument` appends the record to one sub-collection under the identifier `nextDocId`, and `nextDocId` moves on; nothing else stored changes |
| Firestore.StoreRequestsKeepIdsBelowNext | AudioCallApp/CallManager.swift:104-111 | the empty store, and every store request, keep every stored candidate identifier below `nextDocId` |
| Firestore.AddedIdIsFresh | AudioCallApp/CallManager.swift:107 | under that invariant the identifier `addDocument` assigns is used by no stored document, and deleting it removes exactly the added document |
| Firestore.RecordRead | AudioCallApp/CallManager.swift:374 | `getDocuments` changes nothing stored and is logged |
| Firestore.Without | AudioCallApp/CallManager.swift:377 | removing a document keeps exactly the documents with other identifiers |
| Firestore.DeleteCandidateDoc | AudioCallApp/CallManager.swift:377 | deleting one candidate document removes exactly that identifier from that sub-collection and touches nothing else |
| Firestore.SignalingStore.constructor | AudioCallApp/CallManager.swift:36 | a new store holds no calls |
| IceCodec.OutboundCollection | AudioCallApp/CallManager.swift:102 | the caller writes `localCandidates` and the callee `remoteCandidates`; a definition, related to the read side by `InboundCollection` |
| IceCodec.InboundCollection | AudioCallApp/CallManager.swift:276 | the sub-collection a role reads is exactly the one the other role writes (line 102) and never its own |
| IceCodec.ParseCandidate | AudioCallApp/CallManager.swift:305-316 | a record decodes to a candidate iff `candidate` is a string, `sdpMLineIndex` an `Int32` and `sdpMid` a string; the decoded media id is present; that the values are copied unchanged is `ParseThenEncode` |
| IceCodec.EncodeCandidate | AudioCallApp/CallManager.swift:107-111 | a written record has exactly the three fields and decodes back to the candidate, with a missing `sdpMid` read back as `""` |
| IceCodec.ParseThenEncode | AudioCallApp/CallManager.swift:305-316 | re-encoding a decoded record gives back its three candidate fields, so decoding copies their values unchanged |
| Relay.SendCandidate | AudioCallApp/CallManager.swift:100-112 | without a current call nothing is written; otherwise the encoded candidate is appended to the role's outbound sub-collection only, under the identifier `nextDocId` (fresh by `AddedIdIsFresh`) |
| Relay.Invoke | AudioCallApp/CallManager.swift:93-95 | either kind of handler forwards the candidate through `sendIceCandidate`; a definition, whose effect `FanOutWritesOncePerHandler` states |
| Relay.FanOut | AudioCallApp/CallManager.swift:419-425 | the handlers invoked one after the other in registration order; a definition, whose effect `FanOutWritesOncePerHandler` states |
| Relay.FanOutWritesOncePerHandler | AudioCallApp/CallManager.swift:419-425 | a generated candidate is written once per registered handler, in order and under consecutive identifiers; the inbound sub-collection, the call document and other calls are unchanged |
| Relay.AnsweringSideWritesTwice | AudioCallApp/CallManager.swift:266-270 | with the two handlers the answering side holds, each candidate lands twice in `remoteCandidates` and never in `localCandidates` |
| Relay.OfferedCandidate | AudioCallApp/CallManager.swift:286-288 | a change offers a candidate iff it is an addition whose record decodes |
| Relay.Applied | AudioCallApp/CallManager.swift:286-297 | one change keeps the candidates applied earlier as they were and adds at most one candidate behind them; `AppliedAfter` adds that the result does not depend on what came before |
| Relay.AppliedCandidates | AudioCallApp/CallManager.swift:285-301 | a snapshot applies at most one candidate per change, processing the changes in order |
| Relay.AppliedAfter | AudioCallApp/CallManager.swift:285-297 | applying one change behind any earlier candidates leaves them in front, unchanged, and appends what the change alone would add |
| Relay.AppliedConcat | AudioCallApp/CallManager.swift:285 | processing two runs of changes in turn equals processing them together |
| Relay.SkippedChange | AudioCallApp/CallManager.swift:288 | a change that offers no candidate is skipped and processing continues with the next change |
| Relay.AppliedAreOffered | AudioCallApp/CallManager.swift:285-301 | every applied candidate was offered by an added change that the engine accepted, and every offered candidate the engine accepts is applied |
| Relay.AcceptedOffers | AudioCallApp/CallManager.swift:290-297 | the number of changes whose candidate the engine accepts, counted independently from the front; a reference definition for `AppliedCountsAccepted` |
| Relay.AppliedCountsAccepted | AudioCallApp/CallManager.swift:290-297 | the engine ends up with exactly one candidate per accepted offer, and no other |
| Teardown.DeleteEach | AudioCallApp/CallManager.swift:376-378 | one delete per document read, in read order; a definition, whose effect the three `DeleteEach…` lemmas state |
| Teardown.DeleteEachRemoves | AudioCallApp/CallManager.swift:376-378 | the per-document deletes remove exactly the documents read, and keep every other one |
| Teardown.DeleteEachFrame | AudioCallApp/CallManager.swift:376-378 | the deletes touch neither the call document, nor the other sub-collection, nor other calls |
| Teardown.DeleteEachLog | AudioCallApp/CallManager.swift:376-378 | the deletes are issued in the order the documents were read |
| Teardown.Sweep | AudioCallApp/CallManager.swift:372-382 | a read, then the per-document deletes when the read succeeds; a definition, whose effect the `Sweep…` lemmas state |
| Teardown.DeleteWithCandidates | AudioCallApp/CallManager.swift:364-390 | both sweeps, then the delete of the call document; a definition, whose effect `TeardownOrder` and `EndCallClearsCall` state |
| Teardown.EndCallStore | AudioCallApp/CallManager.swift:349-361 | nothing without a current call; otherwise the direct delete, then `DeleteWithCandidates`; a definition, whose effect `EndCallClearsCall`, `FailedReadLeavesCandidates` and `EndCallIdempotent` state |
| Teardown.SweepRequests | AudioCallApp/CallManager.swift:372-382 | a sweep's requests start with the read, and all of them are on the call's own candidate sub-collection |
| Teardown.SweepClears | AudioCallApp/CallManager.swift:372-382 | a sweep empties the sub-collection when the read succeeds and leaves it as it was when the read fails |
| Teardown.SweepFrame | AudioCallApp/CallManager.swift:372-382 | a sweep changes nothing outside its sub-collection |
| Teardown.SweepLog | AudioCallApp/CallManager.swift:372-382 | a sweep logs the read, then the deletes of the documents read |
| Teardown.TeardownOrder | AudioCallApp/CallManager.swift:364-390 | `deleteCallWithCandidates` issues the local sweep, then the remote sweep, then the delete of the call document; local before remote is the model's order (see "Left out") |
| Teardown.ParentDeletedLast | AudioCallApp/CallManager.swift:384-389 | the call document's delete is the last request; both reads come before it; every request before it is on the call's own sub-collections |
| Teardown.EndCallClearsCall | AudioCallApp/CallManager.swift:349-361 | when every request succeeds, `endCall` leaves no document and no candidate under the call, and no other call is touched |
| Teardown.FailedReadLeavesCandidates | AudioCallApp/CallManager.swift:374-379 | a failed read leaves that sub-collection's candidates behind, for the local and for the remote read alike |
| Teardown.EmptyCallStaysEmpty | AudioCallApp/CallManager.swift:349-390 | tearing down a call with nothing stored under it leaves nothing stored and touches no other call, whichever of its requests succeed or fail |
| Teardown.EndCallIdempotent | AudioCallApp/CallManager.swift:349-351 | once a teardown has succeeded, a second `endCall` stores the same under the call and touches no other call, whichever of its own requests succeed or fail |
| Calls.MatchesIncomingQuery | AudioCallApp/CallManager.swift:191-193 | the query of `listenForIncomingCalls`: addressed to the user and still `ringing`; a definition, which `OfferRecord` and `AnswerReachesCaller` relate to the stored call |
| Calls.HandledIncoming | AudioCallApp/CallManager.swift:205-226 | the state `handleIncomingCall` leaves; a definition, which `HandleIncomingCall` and `OnIncomingCallsSnapshot` are proved to reach |
| Calls.IncomingOffer | AudioCallApp/CallManager.swift:207-208 | a document is taken as a call iff `offer` and `caller_id` are both strings; the call holds exactly those values |
| Calls.OfferRecord | AudioCallApp/CallManager.swift:153-159 | the stored call matches the callee's ringing query (lines 192-193) and is read back with exactly the caller's offer and id; it holds no answer |
| Calls.StoredAnswer | AudioCallApp/CallManager.swift:173-175 | a snapshot yields an answer iff the document exists and its `answer` is a string |
| Calls.AnswerUpdate | AudioCallApp/CallManager.swift:252-255 | the answering side's update writes the answer and status `accepted`, nothing more |
| Calls.AnswerReachesCaller | AudioCallApp/CallManager.swift:252-255 | after the answer is written over the stored offer, the caller's listener reads that answer, the offer and caller are intact, and the call has left the callee's ringing query |
| Calls.Deactivated | AudioCallApp/CallManager.swift:347 | exactly the incoming-call listener is removed, if there is one |
| Calls.ProcessCandidateChanges | AudioCallApp/CallManager.swift:285-301 | the loop over a snapshot adds exactly the applied candidates to the connection, in order, and the count rises by exactly the number of accepted offers |
| Calls.CallManager.constructor | AudioCallApp/CallManager.swift:22-50 | a new manager is idle, unmuted, with zero counts, no connection, no call and no handlers |
| Calls.CallManager.StartCall | AudioCallApp/CallManager.swift:66-74 | `startCall` makes the manager the caller of the fresh call id and sets up a connection; the status is left as it was |
| Calls.CallManager.SetupPeerConnection | AudioCallApp/CallManager.swift:76-98 | a new connection, one more candidate handler, and a new enabled audio track |
| Calls.CallManager.CreateLocalAudioTrack | AudioCallApp/CallManager.swift:114-123 | a new audio track, enabled |
| Calls.CallManager.SendIceCandidate | AudioCallApp/CallManager.swift:100-112 | the store after `sendIceCandidate` is `SendCandidate` of the store before |
| Calls.CallManager.OnOfferCreated | AudioCallApp/CallManager.swift:134-164 | only when the offer arrives, a connection exists and setting the local description succeeds: the rewritten offer is set, the same offer is stored in the ringing call document, and the answer and inbound candidates are listened for; otherwise nothing changes and nothing is written |
| Calls.CallManager.ListenForAnswer | AudioCallApp/CallManager.swift:167-171 | the current call's document is watched; nothing without a current call |
| Calls.CallManager.OnAnswerSnapshot | AudioCallApp/CallManager.swift:172-185 | a stored answer becomes the connection's remote description when setting it succeeds; the status is not changed |
| Calls.CallManager.ListenForIncomingCalls | AudioCallApp/CallManager.swift:189-194 | the incoming-call query for the user is registered and becomes `listener` |
| Calls.CallManager.OnIncomingCallsSnapshot | AudioCallApp/CallManager.swift:194-202 | only the first document is used: it becomes the current call and is handled; the status becomes `incoming(caller)` only when offer and caller are present; an empty snapshot changes nothing |
| Calls.CallManager.HandleIncomingCall | AudioCallApp/CallManager.swift:205-226 | the manager becomes the answering side; with an offer and caller it rings, sets up a connection, and on success sets the offer and listens to `localCandidates`; without them nothing else changes |
| Calls.CallManager.OnAnswerCreated | AudioCallApp/CallManager.swift:237-262 | on success the answer is set locally, written with status `accepted`, a second handler is registered and the call is active; otherwise nothing changes |
| Calls.CallManager.ListenForLocalIceCandidates | AudioCallApp/CallManager.swift:266-271 | one more candidate handler |
| Calls.CallManager.ListenForRemoteIceCandidates | AudioCallApp/CallManager.swift:273-281 | the sub-collection the other role writes is watched; nothing without a current call |
| Calls.CallManager.OnRemoteCandidateChanges | AudioCallApp/CallManager.swift:281-302 | the connection gains exactly the applied candidates and `remoteCandidateCount` rises by their number, which is the number of accepted offers; without a connection nothing changes |
| Calls.CallManager.AnswerCall | AudioCallApp/CallManager.swift:319-322 | `answerCall` sets the status to active and changes nothing else |
| Calls.CallManager.ToggleMute | AudioCallApp/CallManager.swift:324-328 | the mute flag flips and an existing track is enabled exactly when not muted |
| Calls.CallManager.EndCall | AudioCallApp/CallManager.swift:330-362 | the connection is dropped, the incoming listener removed, the store torn down and the status set to ended; the current call id is kept; it returns what the last delete's completion will report, and nothing when there is no call and so no completion |
| Calls.CallManager.OnCallDeleted | AudioCallApp/CallManager.swift:351-358 | the completion of the teardown's last delete: without an error the status becomes idle, whatever it is by then; with an error nothing changes |
| Calls.CallManager.DeleteCurrentCall | AudioCallApp/CallManager.swift:349-361 | with a current call: the direct delete, then the teardown with candidates; reports whether the final delete succeeded |
| Calls.CallManager.DeleteCallWithCandidates | AudioCallApp/CallManager.swift:364-390 | both sweeps, then the delete of the call document, whose outcome is reported |
| Calls.CallManager.DeleteCollection | AudioCallApp/CallManager.swift:372-382 | the loop deletes every document read, in order; the store afterwards is `Sweep` of the store before |
| Calls.CallManager.OnIceConnectionChange | AudioCallApp/CallManager.swift:406-417 | connected makes the call active; disconnected, failed and closed end it as `EndCall` does and return its pending completion; any other state changes nothing and leaves no completion pending |
| Calls.CallManager.OnIceCandidateGenerated | AudioCallApp/CallManager.swift:419-430 | every handler forwards the candidate, in registration order, and `localCandidateCount` rises by exactly one |
| Handshake.Ring | AudioCallApp/CallManager.swift:66-74 | from two fresh managers: the callee listens, the caller places the call and stores the rewritten offer |
| Handshake.AnswerStage | AudioCallApp/CallManager.swift:194-263 | the callee receives the call, answers and is active; the caller reads the answer |
| Handshake.ExchangeCandidate | AudioCallApp/CallManager.swift:419-430 | a candidate generated by the caller is written once and reaches the callee's connection, counted on both sides |
| Handshake.HangUp | AudioCallApp/CallManager.swift:406-417 | the caller's connection comes up, then the caller hangs up; once the last delete's completion arrives it is idle, with nothing stored under the call |
| Handshake.LateIdle | AudioCallApp/CallManager.swift:349-358 | a hang-up whose last delete completes only after the next call has started and connected still sets that call's status to idle |
| Handshake.Connect | AudioCallApp/CallManager.swift:66-303 | from placing the call to the exchanged candidate: each side holds the other's description |
| Handshake.PlaceCall | AudioCallApp/CallManager.swift:66-390 | a whole call: the callee holds the caller's rewritten offer, its own answer and the caller's candidate and is active; the caller, idle again, has no connection; nothing is stored under the call |

## Left out

- Firestore I/O is replaced by the in-memory `StoreState`. This covers queries, listener delivery, `ListenerRegistration` objects and the server timestamp, which is the value `ServerTimestamp`. Snapshots arrive as event-method parameters. Each event method requires a registration of the right kind to exist.
- Firestore.Value: a field value is a string, an integer or the server timestamp, the kinds this app writes. Firestore's doubles, booleans, null, arrays and maps are not modelled. So `IceCodec.ParseCandidate` decides only over these kinds. For example, the `as? Int32` at line 308 would also accept an integral double stored as a number, and the model has no such value.
- The WebRTC engine is reduced to values and outcome parameters:
  - offer and answer generation are parameters (`Option<string>`);
  - setting a description and adding a candidate are success flags;
  - the connection is a value with its descriptions and its accepted remote candidates;
  - ICE servers, the factory and attaching the track to the connection are not modelled.
- `configureAudioSession` and the session deactivation in `endCall` are device side effects and are not modelled.
- Concurrency is not modelled. Each `DispatchQueue.main.async` hop happens at once, in program order. A second snapshot arriving while the engine is still working is not modelled.
- Teardown.TeardownOrder: the two `getDocuments` completions of `deleteCallWithCandidates` may arrive in either order, and their deletes may interleave. The model serialises them as the local sweep, then the remote sweep. What holds in every order, and what the `DispatchGroup` guarantees, is that both sweeps come before the final delete of the call document.
- Teardown.SweepClears, Firestore.AddDocument, Firestore.SetData, Firestore.UpdateData, Firestore.DeleteCandidateDoc: these store writes are taken to succeed. The source issues them without a completion and never looks at their outcome, so a candidate write, the offer or answer write, or a per-document delete may fail unnoticed. In particular, "a sweep empties the sub-collection when its read succeeds" (and so `Teardown.EndCallClearsCall`) holds only because the per-document deletes are taken to succeed. The outcomes that are parameters are the two reads, the final delete of the call document, whose completion the source observes, and the direct delete of the call document at line 350, which the source issues without a completion but the model still lets fail.
- Calls.CallManager.EndCall: the teardown's store requests are all applied within `EndCall`: the direct delete, both reads with their per-document deletes, and the last delete. Only that delete's completion (`OnCallDeleted`) is a separate event. So no other event, and no write by another client, falls between the teardown's requests, although in the source they travel over the network one completion at a time.
- Teardown.DeleteEachLog: a read returns the documents in the order they were added. Firestore returns an unordered query by document id, and `addDocument` ids are random, so the source deletes the candidates in id order. Which order the deletes come in does not change what is removed.
- Sdp.ReplaceOccurrences: characters are compared one by one. Foundation's `replacingOccurrences` without the `.literal` option compares by canonical equivalence, so, for example, it does not match `a=setup:passive` when the final `e` is followed by a combining mark. The model would match and replace it there.
- The engine's offer and answer requests, and the teardown's last delete, are not kept as pending state. `OnOfferCreated` receives the callee and caller ids that `createOffer` captured, and `OnCallDeleted` receives the outcome that `EndCall` returned.
- The UUID call id is a parameter of `StartCall`. Logging is left out.
- Listeners other than the incoming-call one are never removed, as in the source. Registrations are only ever deactivated, never deleted.
- `Relay.AppliedCandidates`: the engine's per-candidate completion, and the main-queue increment of `remoteCandidateCount`, are modelled by their net effect. That effect is one entry and one count per accepted candidate, in change order.
- The app shell, authentication and views (`AudioCallAppApp.swift`, `CallView.swift`, `UserListView.swift`) are not part of this model.

Where the code does not do what a reader of its comments or status names might expect, the model follows the code:

- `startCall` never sets `outgoing`, and it has no guard against an ongoing call.
- The counters are never reset.
- `answerCall` only sets `active`.
- The callee becomes `active` as soon as its answer is written.
- The caller becomes active only through ICE `connected` (line 410). Neither `startCall` nor the answer listener changes its status. `endCall` sets it to ended, and the completion of the teardown's last delete sets it to idle.
- `updateData` on a missing document stores nothing.
- The completion of a hang-up's last delete sets the status to idle even when it arrives after the next call has started; `Handshake.LateIdle` shows this.
- `endCall` deletes the call document once directly, and again at the end of the teardown. It keeps `currentCallId` and removes only the incoming-call listener.
- A new audio track is enabled even when the manager is muted.
