/**
  * The call manager: one participant's side of a one-to-one audio call,
  * signalled through the shared store.
  *
  * The calling side creates a call document holding its offer and waits for
  * an answer to appear in it; the answering side finds the call through a
  * query for ringing calls addressed to it, stores its answer, and both
  * sides exchange reachability candidates through the call's two candidate
  * sub-collections. The engine callbacks that start new work, the store
  * listeners, the engine's delegate calls and the completion of the
  * teardown's last delete are methods of their own (`On...`), called with
  * what the engine or the store delivered. The completions nested inside
  * them (setting a description, adding a candidate, the teardown's reads and
  * the wait for both) run within the method that issued the request, which
  * takes their outcome as a parameter.
  */
module Calls {
  import opened Wrappers
  import opened Firestore
  import opened IceCodec
  import opened Relay
  import opened Teardown
  import Sdp

  /** The call phase shown to the user. */
  datatype CallStatus = Idle | Outgoing | Incoming(caller: string) | Active | Ended

  /** The connectivity states the media engine reports. */
  datatype IceConnectionState = New | Checking | Connected | Completed | Failed | Disconnected | Closed | Count
  {
    /** The states on which the call is torn down. */
    predicate EndsCall()
    {
      Disconnected? || Failed? || Closed?
    }
  }

  datatype SdpType = Offer | Answer

  datatype SessionDescription = SessionDescription(kind: SdpType, sdp: string)

  /** What the model keeps of a peer connection held by the media engine. */
  datatype PeerConnection = PeerConnection(
    localDescription: Option<SessionDescription>,
    remoteDescription: Option<SessionDescription>,
    remoteCandidates: seq<IceCandidate>)

  const FreshConnection := PeerConnection(None, None, [])

  datatype AudioTrack = AudioTrack(isEnabled: bool)

  /** What a store listener watches. */
  datatype Subscription =
    | IncomingCalls(userId: string)
    | CallDocument(callId: string)
    | CandidateChanges(callId: string, collection: CandidateCollection)

  /** A store listener; `active` is false once it has been removed. */
  datatype Registration = Registration(subscription: Subscription, active: bool)

  /** A document returned by a query, with its identifier. */
  datatype QueryDocument = QueryDocument(id: string, data: Doc)

  const OfferField := "offer"
  const AnswerField := "answer"
  const StatusField := "status"
  const CallerField := "caller_id"
  const ReceiverField := "receiver_id"
  const TimestampField := "timestamp"
  const Ringing := "ringing"
  const Accepted := "accepted"

  /** The call found by the incoming-call query: its offer and who is calling. */
  datatype IncomingCall = IncomingCall(offer: string, caller: string)

  /** A call document is among the incoming calls of `userId`: addressed to them and still ringing. */
  predicate MatchesIncomingQuery(d: Doc, userId: string)
  {
    && ReceiverField in d && d[ReceiverField] == Str(userId)
    && StatusField in d && d[StatusField] == Str(Ringing)
  }

  /** The guard of `handleIncomingCall`: a call only when the offer and the caller are both strings. */
  function IncomingOffer(d: Doc): (r: Option<IncomingCall>)
    ensures r.Some? <==> OfferField in d && d[OfferField].Str? && CallerField in d && d[CallerField].Str?
    ensures r.Some? ==> Str(r.value.offer) == d[OfferField] && Str(r.value.caller) == d[CallerField]
  {
    if OfferField in d && d[OfferField].Str? && CallerField in d && d[CallerField].Str?
    then Some(IncomingCall(d[OfferField].s, d[CallerField].s))
    else None
  }

  /**
    * The call document the calling side stores: it is among the callee's
    * incoming calls, and the callee reads back exactly this offer and caller.
    */
  function OfferRecord(offer: string, caller: string, callee: string): (d: Doc)
    ensures MatchesIncomingQuery(d, callee)
    ensures IncomingOffer(d) == Some(IncomingCall(offer, caller))
    ensures AnswerField !in d
  {
    map[OfferField := Str(offer), StatusField := Str(Ringing), CallerField := Str(caller),
        ReceiverField := Str(callee), TimestampField := ServerTimestamp]
  }

  /** The guard of the answer listener: an answer only when the document has a string `answer`. */
  function StoredAnswer(data: Option<Doc>): (r: Option<string>)
    ensures r.Some? <==> data.Some? && AnswerField in data.value && data.value[AnswerField].Str?
    ensures r.Some? ==> Str(r.value) == data.value[AnswerField]
  {
    if data.Some? && AnswerField in data.value && data.value[AnswerField].Str?
    then Some(data.value[AnswerField].s)
    else None
  }

  /** The fields the answering side writes over the call document. */
  function AnswerUpdate(answer: string): (d: Doc)
    ensures StoredAnswer(Some(d)) == Some(answer)
    ensures d.Keys == {AnswerField, StatusField} && d[StatusField] == Str(Accepted)
  {
    map[AnswerField := Str(answer), StatusField := Str(Accepted)]
  }

  /**
    * Across the two participants: once the callee's answer is written over
    * the caller's call document, the caller's answer listener reads that
    * answer, the offer is still there, and the call has left the callee's
    * ringing query.
    */
  lemma AnswerReachesCaller(st: StoreState, id: string, offer: string, caller: string, callee: string, answer: string)
    ensures
      var data := CallData(UpdateData(SetData(st, id, OfferRecord(offer, caller, callee)), id, AnswerUpdate(answer)), id);
      && StoredAnswer(data) == Some(answer)
      && IncomingOffer(data.value) == Some(IncomingCall(offer, caller))
      && !MatchesIncomingQuery(data.value, callee)
  {
  }

  /** `registrations` with the one at index `which`, if any, removed. */
  function Deactivated(regs: seq<Registration>, which: Option<nat>): (r: seq<Registration>)
    requires which.Some? ==> which.value < |regs|
    ensures |r| == |regs|
    ensures forall j :: 0 <= j < |regs| ==>
      r[j].subscription == regs[j].subscription && r[j].active == (regs[j].active && which != Some(j))
  {
    match which
    case None => regs
    case Some(k) => regs[k := regs[k].(active := false)]
  }

  /**
    * The loop over a snapshot's changes: each added record that reads as a
    * candidate is handed to the engine, and each candidate the engine
    * accepts is added to the connection and counted.
    */
  method ProcessCandidateChanges(pc: PeerConnection, count: nat, changes: seq<DocumentChange>, accepted: seq<bool>)
    returns (pc': PeerConnection, count': nat)
    requires |accepted| == |changes|
    ensures pc' == pc.(remoteCandidates := pc.remoteCandidates + AppliedCandidates(changes, accepted))
    ensures count' == count + |AppliedCandidates(changes, accepted)|
    ensures count' == count + AcceptedOffers(changes, accepted)
  {
    pc', count' := pc, count;
    for i := 0 to |changes|
      invariant pc' == pc.(remoteCandidates := pc.remoteCandidates + AppliedCandidates(changes[..i], accepted[..i]))
      invariant count' == count + |AppliedCandidates(changes[..i], accepted[..i])|
    {
      AppliedStep(changes, accepted, i);
      var change := changes[i];
      if change.kind == Added {
        var parsed := ParseCandidate(change.data);
        if parsed.None? {
          continue;
        }
        if accepted[i] {
          assert pc'.remoteCandidates + [parsed.value]
              == pc.remoteCandidates + (AppliedCandidates(changes[..i], accepted[..i]) + [parsed.value]);
          pc' := pc'.(remoteCandidates := pc'.remoteCandidates + [parsed.value]);
          count' := count' + 1;
        }
      }
    }
    assert changes[..|changes|] == changes && accepted[..|accepted|] == accepted;
    AppliedCountsAccepted(changes, accepted);
  }

  /** A snapshot of every field of a call manager. */
  datatype ManagerState = ManagerState(
    callStatus: CallStatus,
    isMuted: bool,
    localCandidateCount: nat,
    remoteCandidateCount: nat,
    peerConnection: Option<PeerConnection>,
    localAudioTrack: Option<AudioTrack>,
    listener: Option<nat>,
    currentCallId: Option<string>,
    iceCandidateHandlers: seq<CandidateHandler>,
    isCaller: bool,
    registrations: seq<Registration>)

  const InitialState := ManagerState(Idle, false, 0, 0, None, None, None, None, [], false, [])

  /**
    * The state `handleIncomingCall` leaves behind: the answering side; when
    * the document carries an offer and a caller, ringing with a new
    * connection and audio track, and, once the offer is set as the remote
    * description, listening for the caller's candidates.
    */
  function HandledIncoming(s: ManagerState, data: Doc, setRemoteOk: bool): ManagerState
    requires s.currentCallId.Some?
  {
    match IncomingOffer(data)
    case None => s.(isCaller := false)
    case Some(call) =>
      s.(isCaller := false,
         callStatus := Incoming(call.caller),
         peerConnection := Some(FreshConnection.(
           remoteDescription := if setRemoteOk then Some(SessionDescription(Offer, call.offer)) else None)),
         localAudioTrack := Some(AudioTrack(true)),
         iceCandidateHandlers := s.iceCandidateHandlers + [SendFromSetup],
         registrations := s.registrations
           + if setRemoteOk then [Registration(CandidateChanges(s.currentCallId.value, LocalCandidates), true)] else [])
  }

  class CallManager {
    var callStatus: CallStatus
    var isMuted: bool
    var localCandidateCount: nat
    var remoteCandidateCount: nat
    var peerConnection: Option<PeerConnection>
    var localAudioTrack: Option<AudioTrack>
    /** Index in `registrations` of the incoming-call listener. */
    var listener: Option<nat>
    var currentCallId: Option<string>
    var iceCandidateHandlers: seq<CandidateHandler>
    var isCaller: bool
    /** Every store listener this manager has added, in order. */
    var registrations: seq<Registration>
    const db: SignalingStore

    /**
      * A live connection belongs to a call and has a handler forwarding its
      * candidates; the audio track exists exactly when handlers have been
      * registered; `listener` names an incoming-call listener.
      */
    ghost predicate Valid()
      reads this
    {
      && (peerConnection.Some? ==> currentCallId.Some? && localAudioTrack.Some?)
      && (localAudioTrack.Some? <==> |iceCandidateHandlers| > 0)
      && (listener.Some? ==> listener.value < |registrations| && registrations[listener.value].subscription.IncomingCalls?)
    }

    function State(): ManagerState
      reads this
    {
      ManagerState(callStatus, isMuted, localCandidateCount, remoteCandidateCount, peerConnection,
                   localAudioTrack, listener, currentCallId, iceCandidateHandlers, isCaller, registrations)
    }

    constructor (db: SignalingStore)
      ensures this.db == db && Valid() && State() == InitialState
    {
      this.db := db;
      callStatus := Idle;
      isMuted := false;
      localCandidateCount := 0;
      remoteCandidateCount := 0;
      peerConnection := None;
      localAudioTrack := None;
      listener := None;
      currentCallId := None;
      iceCandidateHandlers := [];
      isCaller := false;
      registrations := [];
    }

    /**
      * `startCall`: become the caller of a new call `freshCallId` and set up
      * a connection; the offer is requested from the engine and arrives as
      * `OnOfferCreated`. The status is not changed.
      */
    method StartCall(callee: string, caller: string, freshCallId: string)
      requires Valid()
      modifies this
      ensures Valid()
      ensures State() == old(State()).(
        isCaller := true,
        currentCallId := Some(freshCallId),
        peerConnection := Some(FreshConnection),
        localAudioTrack := Some(AudioTrack(true)),
        iceCandidateHandlers := old(iceCandidateHandlers) + [SendFromSetup])
    {
      isCaller := true;
      currentCallId := Some(freshCallId);
      SetupPeerConnection();
    }

    /**
      * `setupPeerConnection`: a new connection replaces any previous one, one
      * more candidate handler is registered, and a new, enabled audio track
      * replaces any previous one.
      */
    method SetupPeerConnection()
      requires Valid() && currentCallId.Some?
      modifies this
      ensures Valid()
      ensures State() == old(State()).(
        peerConnection := Some(FreshConnection),
        localAudioTrack := Some(AudioTrack(true)),
        iceCandidateHandlers := old(iceCandidateHandlers) + [SendFromSetup])
    {
      peerConnection := Some(FreshConnection);
      iceCandidateHandlers := iceCandidateHandlers + [SendFromSetup];
      CreateLocalAudioTrack();
    }

    method CreateLocalAudioTrack()
      modifies this
      ensures State() == old(State()).(localAudioTrack := Some(AudioTrack(true)))
    {
      localAudioTrack := Some(AudioTrack(true));
    }

    /** `sendIceCandidate`: write one candidate to the current call's outbound sub-collection. */
    method SendIceCandidate(c: IceCandidate)
      modifies db
      ensures db.state == SendCandidate(old(db.state), currentCallId, isCaller, c)
    {
      match currentCallId
      case None =>
      case Some(id) =>
        db.state := AddDocument(db.state, id, OutboundCollection(isCaller), EncodeCandidate(c));
    }

    /**
      * The engine delivered the offer requested by `startCall` (`offer` is
      * None when it failed), and setting it as the local description
      * succeeded or not. Only when both succeed on a live connection is the
      * rewritten offer set, stored as a ringing call for `callee`, and the
      * answer and the other side's candidates listened for.
      */
    method OnOfferCreated(callee: string, caller: string, offer: Option<string>, setLocalOk: bool)
      requires Valid()
      modifies this, db
      ensures Valid()
      ensures !(offer.Some? && old(peerConnection).Some? && setLocalOk) ==>
        State() == old(State()) && db.state == old(db.state)
      ensures offer.Some? && old(peerConnection).Some? && setLocalOk ==>
        var sdp, id := Sdp.ForceActpass(offer.value), old(currentCallId).value;
        && State() == old(State()).(
             peerConnection := Some(old(peerConnection).value.(localDescription := Some(SessionDescription(Offer, sdp)))),
             registrations := old(registrations)
               + [Registration(CallDocument(id), true), Registration(CandidateChanges(id, InboundCollection(old(isCaller))), true)])
        && db.state == SetData(old(db.state), id, OfferRecord(sdp, caller, callee))
    {
      if offer.None? {
        return;
      }
      var modifiedSdp := Sdp.ForceActpass(offer.value);
      match peerConnection
      case None =>
      case Some(pc) =>
        if !setLocalOk {
          return;
        }
        peerConnection := Some(pc.(localDescription := Some(SessionDescription(Offer, modifiedSdp))));
        db.state := SetData(db.state, currentCallId.value, OfferRecord(modifiedSdp, caller, callee));
        ListenForAnswer();
        ListenForRemoteIceCandidates();
    }

    /** `listenForAnswer`: watch the current call's document; nothing without a current call. */
    method ListenForAnswer()
      requires Valid()
      modifies this
      ensures Valid()
      ensures State() == old(State()).(registrations := old(registrations)
        + if old(currentCallId).Some? then [Registration(CallDocument(old(currentCallId).value), true)] else [])
    {
      match currentCallId
      case None =>
      case Some(id) =>
        registrations := registrations + [Registration(CallDocument(id), true)];
    }

    /**
      * A snapshot of the watched call document arrived (`data` is None when
      * the document does not exist). An answer in it becomes the remote
      * description of the live connection, if setting it succeeds; the status
      * is left to the connectivity events.
      */
    method OnAnswerSnapshot(k: nat, data: Option<Doc>, setRemoteOk: bool)
      requires Valid() && k < |registrations|
      requires registrations[k].active && registrations[k].subscription.CallDocument?
      modifies this
      ensures Valid()
      ensures
        var applied := StoredAnswer(data).Some? && old(peerConnection).Some? && setRemoteOk;
        State() == if applied
          then old(State()).(peerConnection := Some(old(peerConnection).value.(
                 remoteDescription := Some(SessionDescription(Answer, StoredAnswer(data).value)))))
          else old(State())
    {
      var answer := StoredAnswer(data);
      if answer.None? {
        return;
      }
      match peerConnection
      case None =>
      case Some(pc) =>
        if setRemoteOk {
          peerConnection := Some(pc.(remoteDescription := Some(SessionDescription(Answer, answer.value))));
        }
    }

    /** `listenForIncomingCalls`: watch the ringing calls addressed to `userId`. */
    method ListenForIncomingCalls(userId: string)
      requires Valid()
      modifies this
      ensures Valid()
      ensures State() == old(State()).(
        registrations := old(registrations) + [Registration(IncomingCalls(userId), true)],
        listener := Some(|old(registrations)|))
    {
      registrations := registrations + [Registration(IncomingCalls(userId), true)];
      listener := Some(|registrations| - 1);
    }

    /**
      * A snapshot of the incoming-call query arrived. Only its first document
      * is used: it becomes the current call and is handled as an incoming
      * call; an empty snapshot changes nothing.
      */
    method OnIncomingCallsSnapshot(k: nat, documents: seq<QueryDocument>, setRemoteOk: bool)
      requires Valid() && k < |registrations|
      requires registrations[k].active && registrations[k].subscription.IncomingCalls?
      requires forall d :: d in documents ==> MatchesIncomingQuery(d.data, registrations[k].subscription.userId)
      modifies this
      ensures Valid()
      ensures documents == [] ==> State() == old(State())
      ensures documents != [] ==>
        State() == HandledIncoming(old(State()).(currentCallId := Some(documents[0].id)), documents[0].data, setRemoteOk)
      ensures documents != [] ==> currentCallId == Some(documents[0].id) && !isCaller
      ensures documents != [] && IncomingOffer(documents[0].data).Some? ==>
        callStatus == Incoming(IncomingOffer(documents[0].data).value.caller)
      ensures documents != [] && IncomingOffer(documents[0].data).None? ==> callStatus == old(callStatus)
    {
      if documents == [] {
        return;
      }
      var document := documents[0];
      currentCallId := Some(document.id);
      HandleIncomingCall(document.data, setRemoteOk);
    }

    /**
      * `handleIncomingCall`: become the answering side; when the document
      * carries an offer and a caller, ring, set up a connection and set the
      * offer as its remote description. Once that succeeds the answer is
      * requested from the engine (it arrives as `OnAnswerCreated`) and the
      * caller's candidates are listened for.
      */
    method HandleIncomingCall(data: Doc, setRemoteOk: bool)
      requires Valid() && currentCallId.Some?
      modifies this
      ensures Valid()
      ensures State() == HandledIncoming(old(State()), data, setRemoteOk)
    {
      isCaller := false;
      var incoming := IncomingOffer(data);
      if incoming.None? {
        return;
      }
      var call := incoming.value;
      callStatus := Incoming(call.caller);
      SetupPeerConnection();
      if setRemoteOk {
        peerConnection := Some(peerConnection.value.(remoteDescription := Some(SessionDescription(Offer, call.offer))));
        ListenForRemoteIceCandidates();
      }
    }

    /**
      * The engine delivered the answer (`answer` is None when it failed), and
      * setting it as the local description succeeded or not. On success the
      * answer is written over the call document with status `accepted`, a
      * second candidate handler is registered, and the call is active.
      */
    method OnAnswerCreated(answer: Option<string>, setLocalOk: bool)
      requires Valid()
      modifies this, db
      ensures Valid()
      ensures !(answer.Some? && old(peerConnection).Some? && setLocalOk) ==>
        State() == old(State()) && db.state == old(db.state)
      ensures answer.Some? && old(peerConnection).Some? && setLocalOk ==>
        && State() == old(State()).(
             peerConnection := Some(old(peerConnection).value.(localDescription := Some(SessionDescription(Answer, answer.value)))),
             iceCandidateHandlers := old(iceCandidateHandlers) + [SendFromAnswer],
             callStatus := Active)
        && db.state == UpdateData(old(db.state), old(currentCallId).value, AnswerUpdate(answer.value))
    {
      if answer.None? {
        return;
      }
      match peerConnection
      case None =>
      case Some(pc) =>
        if !setLocalOk {
          return;
        }
        peerConnection := Some(pc.(localDescription := Some(SessionDescription(Answer, answer.value))));
        db.state := UpdateData(db.state, currentCallId.value, AnswerUpdate(answer.value));
        ListenForLocalIceCandidates();
        callStatus := Active;
    }

    /** `listenForLocalIceCandidates`: register one more candidate handler. */
    method ListenForLocalIceCandidates()
      requires Valid() && localAudioTrack.Some?
      modifies this
      ensures Valid()
      ensures State() == old(State()).(iceCandidateHandlers := old(iceCandidateHandlers) + [SendFromAnswer])
    {
      iceCandidateHandlers := iceCandidateHandlers + [SendFromAnswer];
    }

    /**
      * `listenForRemoteIceCandidates`: watch the sub-collection the other
      * role writes to; nothing without a current call.
      */
    method ListenForRemoteIceCandidates()
      requires Valid()
      modifies this
      ensures Valid()
      ensures State() == old(State()).(registrations := old(registrations)
        + if old(currentCallId).Some?
          then [Registration(CandidateChanges(old(currentCallId).value, InboundCollection(old(isCaller))), true)]
          else [])
    {
      match currentCallId
      case None =>
      case Some(id) =>
        registrations := registrations + [Registration(CandidateChanges(id, InboundCollection(isCaller)), true)];
    }

    /**
      * A snapshot of a watched candidate sub-collection arrived. Its changes
      * are processed in order; the candidates the engine accepts are added to
      * the live connection and counted. Without a connection nothing changes.
      */
    method OnRemoteCandidateChanges(k: nat, changes: seq<DocumentChange>, accepted: seq<bool>)
      requires Valid() && k < |registrations|
      requires registrations[k].active && registrations[k].subscription.CandidateChanges?
      requires |accepted| == |changes|
      modifies this
      ensures Valid()
      ensures old(peerConnection).None? ==> State() == old(State())
      ensures old(peerConnection).Some? ==>
        var applied := AppliedCandidates(changes, accepted);
        State() == old(State()).(
          peerConnection := Some(old(peerConnection).value.(
            remoteCandidates := old(peerConnection).value.remoteCandidates + applied)),
          remoteCandidateCount := old(remoteCandidateCount) + |applied|)
      ensures old(peerConnection).Some? ==>
        remoteCandidateCount == old(remoteCandidateCount) + AcceptedOffers(changes, accepted)
    {
      match peerConnection
      case None =>
      case Some(pc) =>
        var connection, count := ProcessCandidateChanges(pc, remoteCandidateCount, changes, accepted);
        peerConnection, remoteCandidateCount := Some(connection), count;
    }

    /** `answerCall`: the user answered; the call is active. */
    method AnswerCall()
      modifies this
      ensures State() == old(State()).(callStatus := Active)
    {
      callStatus := Active;
    }

    /**
      * `toggleMute`: flip the mute flag, and make the audio track, if there
      * is one, send exactly when not muted.
      */
    method ToggleMute()
      requires Valid()
      modifies this
      ensures Valid()
      ensures State() == old(State()).(
        isMuted := !old(isMuted),
        localAudioTrack := if old(localAudioTrack).Some? then Some(AudioTrack(!isMuted)) else None)
      ensures localAudioTrack.Some? ==> localAudioTrack.value.isEnabled == !isMuted
    {
      isMuted := !isMuted;
      if localAudioTrack.Some? {
        localAudioTrack := Some(AudioTrack(!isMuted));
      }
    }

    /**
      * `endCall`: the call ends, the connection is dropped and the
      * incoming-call listener removed; the call document is deleted directly
      * and then with its candidates. The current call is kept. The status
      * stays ended: the return to idle belongs to the completion of the last
      * delete, which arrives later as `OnCallDeleted`. `pending` is what that
      * completion will report, and None when there is no call and so no
      * completion.
      */
    method EndCall(outcome: TeardownOutcome) returns (pending: Option<bool>)
      requires Valid()
      modifies this, db
      ensures Valid()
      ensures State() == old(State()).(
        callStatus := Ended,
        peerConnection := None,
        registrations := Deactivated(old(registrations), old(listener)))
      ensures db.state == EndCallStore(old(db.state), old(currentCallId), outcome)
      ensures pending == if old(currentCallId).Some? then Some(outcome.parentDeleteOk) else None
    {
      callStatus := Ended;
      peerConnection := None;
      registrations := Deactivated(registrations, listener);
      var deleted := DeleteCurrentCall(outcome);
      pending := if currentCallId.Some? then Some(deleted) else None;
    }

    /**
      * The completion of the teardown's last delete: without an error the
      * status becomes idle, whatever it has become meanwhile; with an error
      * nothing changes.
      */
    method OnCallDeleted(ok: bool)
      requires Valid()
      modifies this
      ensures Valid()
      ensures State() == if ok then old(State()).(callStatus := Idle) else old(State())
    {
      if ok {
        callStatus := Idle;
      }
    }

    /**
      * The store part of `endCall`: with a current call, delete its document
      * directly and then with its candidates; reports whether the teardown's
      * final delete succeeded.
      */
    method DeleteCurrentCall(outcome: TeardownOutcome) returns (deleted: bool)
      modifies db
      ensures deleted == (currentCallId.Some? && outcome.parentDeleteOk)
      ensures db.state == EndCallStore(old(db.state), currentCallId, outcome)
    {
      deleted := false;
      match currentCallId
      case None =>
      case Some(id) =>
        db.state := DeleteDocument(db.state, id, outcome.directDeleteOk);
        deleted := DeleteCallWithCandidates(id, outcome.localReadOk, outcome.remoteReadOk, outcome.parentDeleteOk);
    }

    /**
      * `deleteCallWithCandidates`: empty both candidate sub-collections, then
      * delete the call document; reports whether that last delete succeeded.
      */
    method DeleteCallWithCandidates(callId: string, localReadOk: bool, remoteReadOk: bool, deleteOk: bool)
      returns (ok: bool)
      modifies db
      ensures ok == deleteOk
      ensures db.state == DeleteWithCandidates(old(db.state), callId, localReadOk, remoteReadOk, deleteOk)
    {
      DeleteCollection(callId, LocalCandidates, localReadOk);
      DeleteCollection(callId, RemoteCandidates, remoteReadOk);
      db.state := DeleteDocument(db.state, callId, deleteOk);
      ok := deleteOk;
    }

    /** `deleteCollection`: read a sub-collection and delete every document read. */
    method DeleteCollection(callId: string, c: CandidateCollection, readOk: bool)
      modifies db
      ensures db.state == Sweep(old(db.state), callId, c, readOk)
    {
      var documents := Candidates(db.state, callId, c);
      db.state := RecordRead(db.state, callId, c);
      if readOk {
        for i := 0 to |documents|
          invariant db.state == DeleteEach(RecordRead(old(db.state), callId, c), callId, c, documents[..i])
        {
          assert documents[..i + 1][..i] == documents[..i];
          db.state := DeleteCandidateDoc(db.state, callId, c, documents[i].id);
        }
        assert documents[..|documents|] == documents;
      }
    }

    /**
      * A connectivity change: connected makes the call active; disconnected,
      * failed and closed end it, returning what the teardown's completion
      * will report; every other state changes nothing.
      */
    method OnIceConnectionChange(newState: IceConnectionState, outcome: TeardownOutcome)
      returns (pending: Option<bool>)
      requires Valid()
      modifies this, db
      ensures Valid()
      ensures newState == Connected ==> State() == old(State()).(callStatus := Active) && db.state == old(db.state)
      ensures newState.EndsCall() ==>
        && State() == old(State()).(
             callStatus := Ended,
             peerConnection := None,
             registrations := Deactivated(old(registrations), old(listener)))
        && db.state == EndCallStore(old(db.state), old(currentCallId), outcome)
        && pending == if old(currentCallId).Some? then Some(outcome.parentDeleteOk) else None
      ensures !newState.EndsCall() ==> pending == None
      ensures newState != Connected && !newState.EndsCall() ==> State() == old(State()) && db.state == old(db.state)
    {
      pending := None;
      match newState
      case Connected =>
        callStatus := Active;
      case Disconnected =>
        pending := EndCall(outcome);
      case Failed =>
        pending := EndCall(outcome);
      case Closed =>
        pending := EndCall(outcome);
      case _ =>
    }

    /**
      * The engine generated a local candidate: every registered handler
      * forwards it to the store, in order, and it is counted once.
      */
    method OnIceCandidateGenerated(c: IceCandidate)
      requires Valid()
      modifies this, db
      ensures Valid()
      ensures db.state == FanOut(old(db.state), iceCandidateHandlers, currentCallId, isCaller, c)
      ensures State() == old(State()).(localCandidateCount := old(localCandidateCount) + 1)
    {
      for i := 0 to |iceCandidateHandlers|
        modifies db
        invariant db.state == FanOut(old(db.state), iceCandidateHandlers[..i], currentCallId, isCaller, c)
      {
        assert iceCandidateHandlers[..i + 1][..i] == iceCandidateHandlers[..i];
        var handler := iceCandidateHandlers[i];
        match handler
        case SendFromSetup => SendIceCandidate(c);
        case SendFromAnswer => SendIceCandidate(c);
      }
      assert iceCandidateHandlers[..|iceCandidateHandlers|] == iceCandidateHandlers;
      localCandidateCount := localCandidateCount + 1;
    }
  }
}
