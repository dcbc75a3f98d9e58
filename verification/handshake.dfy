/**
  * Two call managers sharing one store: a complete call from placing it to
  * hanging up, with every store request and every engine request
  * succeeding. Each stage states the exact state of both managers and of
  * the store after it.
  */
module Handshake {
  import opened Wrappers
  import opened Firestore
  import opened IceCodec
  import opened Relay
  import opened Teardown
  import opened Calls
  import Sdp

  const AllSucceed := TeardownOutcome(true, true, true, true)

  /** The callee once it listens for its calls. */
  function CalleeListening(callee: string): ManagerState
  {
    InitialState.(listener := Some(0), registrations := [Registration(IncomingCalls(callee), true)])
  }

  /** The caller once its offer `sdp` is set and stored. */
  function CallerOffered(callId: string, sdp: string): ManagerState
  {
    InitialState.(
      isCaller := true,
      currentCallId := Some(callId),
      peerConnection := Some(PeerConnection(Some(SessionDescription(Offer, sdp)), None, [])),
      localAudioTrack := Some(AudioTrack(true)),
      iceCandidateHandlers := [SendFromSetup],
      registrations := [Registration(CallDocument(callId), true), Registration(CandidateChanges(callId, RemoteCandidates), true)])
  }

  /** The callee once its answer is set and stored. */
  function CalleeAnswered(callee: string, callId: string, sdp: string, answer: string): ManagerState
  {
    CalleeListening(callee).(
      callStatus := Active,
      currentCallId := Some(callId),
      peerConnection := Some(PeerConnection(Some(SessionDescription(Answer, answer)), Some(SessionDescription(Offer, sdp)), [])),
      localAudioTrack := Some(AudioTrack(true)),
      iceCandidateHandlers := [SendFromSetup, SendFromAnswer],
      registrations := [Registration(IncomingCalls(callee), true), Registration(CandidateChanges(callId, LocalCandidates), true)])
  }

  /** The caller once it has read the answer. */
  function CallerAnswered(callId: string, sdp: string, answer: string): ManagerState
  {
    CallerOffered(callId, sdp).(
      peerConnection := Some(PeerConnection(Some(SessionDescription(Offer, sdp)), Some(SessionDescription(Answer, answer)), [])))
  }

  /** The callee listens for its calls; the caller places a call and stores its offer. */
  method Ring(db: SignalingStore, a: CallManager, b: CallManager, caller: string, callee: string, callId: string, offer: string)
    requires a != b && a.db == db && b.db == db
    requires a.State() == InitialState && b.State() == InitialState && db.state == EmptyStore
    requires a.Valid() && b.Valid()
    modifies a, b, db
    ensures a.Valid() && b.Valid()
    ensures a.State() == CallerOffered(callId, Sdp.ForceActpass(offer))
    ensures b.State() == CalleeListening(callee)
    ensures db.state == SetData(EmptyStore, callId, OfferRecord(Sdp.ForceActpass(offer), caller, callee))
  {
    b.ListenForIncomingCalls(callee);
    a.StartCall(callee, caller, callId);
    a.OnOfferCreated(callee, caller, Some(offer), true);
  }

  /**
    * The callee's query delivers the stored call; the callee rings, answers
    * and stores its answer; the caller's document listener delivers the
    * updated call document.
    */
  method AnswerStage(db: SignalingStore, a: CallManager, b: CallManager, caller: string, callee: string, callId: string, sdp: string, answer: string)
    requires a != b && a.db == db && b.db == db
    requires a.State() == CallerOffered(callId, sdp) && b.State() == CalleeListening(callee)
    requires db.state == SetData(EmptyStore, callId, OfferRecord(sdp, caller, callee))
    requires a.Valid() && b.Valid()
    modifies a, b, db
    ensures a.Valid() && b.Valid()
    ensures a.State() == CallerAnswered(callId, sdp, answer)
    ensures b.State() == CalleeAnswered(callee, callId, sdp, answer)
    ensures db.state == UpdateData(SetData(EmptyStore, callId, OfferRecord(sdp, caller, callee)), callId, AnswerUpdate(answer))
  {
    var ringing := CallData(db.state, callId).value;
    b.OnIncomingCallsSnapshot(0, [QueryDocument(callId, ringing)], true);
    b.OnAnswerCreated(Some(answer), true);
    AnswerReachesCaller(EmptyStore, callId, sdp, caller, callee, answer);
    a.OnAnswerSnapshot(0, CallData(db.state, callId), true);
  }

  /**
    * The caller's engine generates a candidate, which is written to
    * `localCandidates`; the callee's candidate listener delivers that record.
    */
  method ExchangeCandidate(db: SignalingStore, a: CallManager, b: CallManager, callee: string, callId: string,
                           sdp: string, answer: string, c: IceCandidate)
    requires a != b && a.db == db && b.db == db
    requires a.State() == CallerAnswered(callId, sdp, answer) && b.State() == CalleeAnswered(callee, callId, sdp, answer)
    requires Candidates(db.state, callId, LocalCandidates) == []
    requires a.Valid() && b.Valid()
    modifies a, b, db
    ensures a.Valid() && b.Valid()
    ensures a.State() == CallerAnswered(callId, sdp, answer).(localCandidateCount := 1)
    ensures b.State() == CalleeAnswered(callee, callId, sdp, answer).(
      peerConnection := Some(PeerConnection(Some(SessionDescription(Answer, answer)), Some(SessionDescription(Offer, sdp)),
                                            [c.(sdpMid := Some(c.sdpMid.GetOr("")))])),
      remoteCandidateCount := 1)
    ensures db.state == FanOut(old(db.state), [SendFromSetup], Some(callId), true, c)
  {
    FanOutWritesOncePerHandler(db.state, [SendFromSetup], Some(callId), true, c);
    a.OnIceCandidateGenerated(c);
    var written := Candidates(db.state, callId, LocalCandidates)[0];
    assert written.data == EncodeCandidate(c);
    var changes := [DocumentChange(Added, written.data)];
    assert AppliedCandidates(changes, [true]) == [c.(sdpMid := Some(c.sdpMid.GetOr("")))] by {
      assert changes[..0] == [] && [true][..0] == [];
    }
    b.OnRemoteCandidateChanges(1, changes, [true]);
  }

  /** The caller's connection comes up, and the caller hangs up. */
  method HangUp(db: SignalingStore, a: CallManager, callId: string, sdp: string, answer: string)
    requires a.db == db && a.Valid()
    requires a.State() == CallerAnswered(callId, sdp, answer).(localCandidateCount := 1)
    modifies a, db
    ensures a.State() == CallerAnswered(callId, sdp, answer).(localCandidateCount := 1, callStatus := Idle, peerConnection := None)
    ensures db.state == EndCallStore(old(db.state), Some(callId), AllSucceed)
    ensures Entry(db.state, callId) == EmptyEntry
  {
    EndCallClearsCall(db.state, callId, AllSucceed);
    var _ := a.OnIceConnectionChange(Connected, AllSucceed);
    var pending := a.EndCall(AllSucceed);
    a.OnCallDeleted(pending.value);
  }

  /**
    * The completion of a hang-up's last delete may arrive after the next
    * call has come up, and then it still sets the status to idle.
    */
  method LateIdle(a: CallManager, callee: string, caller: string, nextCallId: string)
    requires a.Valid() && a.currentCallId.Some?
    modifies a, a.db
    ensures a.currentCallId == Some(nextCallId) && a.isCaller && a.peerConnection.Some?
    ensures a.callStatus == Idle
  {
    var pending := a.EndCall(AllSucceed);
    a.StartCall(callee, caller, nextCallId);
    var _ := a.OnIceConnectionChange(Connected, AllSucceed);
    assert a.callStatus == Active;
    a.OnCallDeleted(pending.value);
  }

  /**
    * From two fresh managers and an empty store up to the exchanged
    * candidate: the caller holds the answer, the callee holds the caller's
    * offer as rewritten and the caller's candidate.
    */
  method Connect(db: SignalingStore, a: CallManager, b: CallManager, caller: string, callee: string, callId: string,
                 offer: string, answer: string, c: IceCandidate)
    requires a != b && a.db == db && b.db == db
    requires a.State() == InitialState && b.State() == InitialState && db.state == EmptyStore
    requires a.Valid() && b.Valid()
    modifies a, b, db
    ensures a.Valid()
    ensures a.State() == CallerAnswered(callId, Sdp.ForceActpass(offer), answer).(localCandidateCount := 1)
    ensures b.State() == CalleeAnswered(callee, callId, Sdp.ForceActpass(offer), answer).(
      peerConnection := Some(PeerConnection(Some(SessionDescription(Answer, answer)),
                                            Some(SessionDescription(Offer, Sdp.ForceActpass(offer))),
                                            [c.(sdpMid := Some(c.sdpMid.GetOr("")))])),
      remoteCandidateCount := 1)
  {
    var sdp := Sdp.ForceActpass(offer);
    Ring(db, a, b, caller, callee, callId, offer);
    AnswerStage(db, a, b, caller, callee, callId, sdp, answer);
    ExchangeCandidate(db, a, b, callee, callId, sdp, answer, c);
  }

  /**
    * `caller` calls `callee` and hangs up. The callee ends up active, holding
    * the caller's offer as rewritten, its own answer and the caller's
    * candidate; the caller is idle again and has no connection; nothing is
    * left stored under the call.
    */
  method PlaceCall(caller: string, callee: string, callId: string, offer: string, answer: string, c: IceCandidate)
    returns (callerSide: ManagerState, calleeSide: ManagerState, stored: CallEntry)
    ensures callerSide.isCaller && !calleeSide.isCaller
    ensures callerSide.currentCallId == calleeSide.currentCallId == Some(callId)
    ensures callerSide.callStatus == Idle && callerSide.peerConnection.None?
    ensures calleeSide.callStatus == Active
    ensures calleeSide.peerConnection == Some(PeerConnection(
      Some(SessionDescription(Answer, answer)),
      Some(SessionDescription(Offer, Sdp.ForceActpass(offer))),
      [c.(sdpMid := Some(c.sdpMid.GetOr("")))]))
    ensures calleeSide.remoteCandidateCount == 1 && callerSide.localCandidateCount == 1
    ensures stored == EmptyEntry
  {
    var db := new SignalingStore();
    var a := new CallManager(db);
    var b := new CallManager(db);
    Connect(db, a, b, caller, callee, callId, offer, answer, c);
    HangUp(db, a, callId, Sdp.ForceActpass(offer), answer);
    callerSide, calleeSide, stored := a.State(), b.State(), Entry(db.state, callId);
  }
}
