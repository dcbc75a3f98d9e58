/**
  * Candidate relay: how locally generated candidates reach the store, and
  * how candidate records written by the other side reach the media engine.
  *
  * Outbound, every generated candidate is handed to each registered
  * candidate handler in registration order, and every handler writes it to
  * the participant's outbound sub-collection. Inbound, the changes of one
  * listener snapshot are processed in order; an added record that reads as a
  * candidate is handed to the engine, and each candidate the engine accepts
  * is counted.
  */
module Relay {
  import opened Wrappers
  import opened Firestore
  import opened IceCodec
  import opened Sequences

  /**
    * A registered candidate handler: one is added when a peer connection is
    * set up, and the answering side adds a second one once its answer is
    * stored. Both forward the candidate to the store.
    */
  datatype CandidateHandler = SendFromSetup | SendFromAnswer

  /**
    * `sendIceCandidate`: without a current call nothing is written; otherwise
    * the candidate's record is appended to the outbound sub-collection of that
    * call, and nothing else is touched.
    */
  function SendCandidate(st: StoreState, callId: Option<string>, isCaller: bool, c: IceCandidate): (r: StoreState)
    ensures callId.None? ==> r == st
    ensures callId.Some? ==>
      var id, out := callId.value, OutboundCollection(isCaller);
      && Candidates(r, id, out) == Candidates(st, id, out) + [StoredDoc(st.nextDocId, EncodeCandidate(c))]
      && Candidates(r, id, InboundCollection(isCaller)) == Candidates(st, id, InboundCollection(isCaller))
      && CallData(r, id) == CallData(st, id) && OthersUnchanged(st, r, id)
      && r.nextDocId == st.nextDocId + 1
  {
    match callId
    case None => st
    case Some(id) => AddDocument(st, id, OutboundCollection(isCaller), EncodeCandidate(c))
  }

  /** Invoking one handler on a candidate. */
  function Invoke(h: CandidateHandler, st: StoreState, callId: Option<string>, isCaller: bool, c: IceCandidate): StoreState
  {
    match h
    case SendFromSetup => SendCandidate(st, callId, isCaller, c)
    case SendFromAnswer => SendCandidate(st, callId, isCaller, c)
  }

  /** Invoking every handler of `handlers` on a candidate, in order. */
  function FanOut(st: StoreState, handlers: seq<CandidateHandler>, callId: Option<string>, isCaller: bool, c: IceCandidate): StoreState
    decreases |handlers|
  {
    if handlers == [] then st
    else
      var n := |handlers| - 1;
      Invoke(handlers[n], FanOut(st, handlers[..n], callId, isCaller, c), callId, isCaller, c)
  }

  /** `n` stored copies of `d` under the consecutive identifiers from `first`. */
  function Copies(first: nat, d: Doc, n: nat): (r: seq<StoredDoc>)
    ensures |r| == n
    ensures forall i :: 0 <= i < n ==> r[i] == StoredDoc(first + i, d)
  {
    seq(n, i requires 0 <= i < n => StoredDoc(first + i, d))
  }

  /**
    * A generated candidate is written once per registered handler: the
    * outbound sub-collection of the current call gains exactly
    * `|handlers|` copies of its record, and nothing else changes; without a
    * current call nothing is written at all.
    */
  lemma {:induction false} FanOutWritesOncePerHandler(st: StoreState, handlers: seq<CandidateHandler>,
                                                        callId: Option<string>, isCaller: bool, c: IceCandidate)
    ensures callId.None? ==> FanOut(st, handlers, callId, isCaller, c) == st
    ensures callId.Some? ==>
      var r, id := FanOut(st, handlers, callId, isCaller, c), callId.value;
      var out, inb := OutboundCollection(isCaller), InboundCollection(isCaller);
      && Candidates(r, id, out) == Candidates(st, id, out) + Copies(st.nextDocId, EncodeCandidate(c), |handlers|)
      && Candidates(r, id, inb) == Candidates(st, id, inb)
      && CallData(r, id) == CallData(st, id) && OthersUnchanged(st, r, id)
      && r.nextDocId == st.nextDocId + |handlers|
    decreases |handlers|
  {
    if handlers != [] {
      var n := |handlers| - 1;
      var prev := FanOut(st, handlers[..n], callId, isCaller, c);
      FanOutWritesOncePerHandler(st, handlers[..n], callId, isCaller, c);
      if callId.Some? {
        var id, out := callId.value, OutboundCollection(isCaller);
        var d := EncodeCandidate(c);
        assert Copies(st.nextDocId, d, n) + [StoredDoc(prev.nextDocId, d)] == Copies(st.nextDocId, d, n + 1);
      }
    }
  }

  /**
    * On the answering side, once its answer is stored two handlers are
    * registered, so each candidate it generates lands twice in
    * `remoteCandidates`, under two different identifiers.
    */
  lemma AnsweringSideWritesTwice(st: StoreState, id: string, c: IceCandidate)
    ensures
      var r := FanOut(st, [SendFromSetup, SendFromAnswer], Some(id), false, c);
      && Candidates(r, id, RemoteCandidates) == Candidates(st, id, RemoteCandidates)
           + [StoredDoc(st.nextDocId, EncodeCandidate(c)), StoredDoc(st.nextDocId + 1, EncodeCandidate(c))]
      && Candidates(r, id, LocalCandidates) == Candidates(st, id, LocalCandidates)
  {
  }

  /** The kind of a change reported by a sub-collection listener. */
  datatype ChangeKind = Added | Modified | Removed

  /** One change of a listener snapshot, with the record's fields. */
  datatype DocumentChange = DocumentChange(kind: ChangeKind, data: Doc)

  /** The candidate a change hands to the engine: only an added record that reads as one. */
  function OfferedCandidate(ch: DocumentChange): (r: Option<IceCandidate>)
    ensures r.Some? <==> ch.kind == Added && ParseCandidate(ch.data).Some?
    ensures r.Some? ==> r == ParseCandidate(ch.data)
  {
    if ch.kind == Added then ParseCandidate(ch.data) else None
  }

  /**
    * The candidates the engine ends up holding from a snapshot's changes, in
    * order, when `accepted[i]` says whether the engine accepted the
    * candidate offered by `changes[i]`.
    */
  function AppliedCandidates(changes: seq<DocumentChange>, accepted: seq<bool>): (r: seq<IceCandidate>)
    requires |accepted| == |changes|
    ensures |r| <= |changes|
    decreases |changes|
  {
    if changes == [] then []
    else
      var n := |changes| - 1;
      Applied(AppliedCandidates(changes[..n], accepted[..n]), changes[n], accepted[n])
  }

  /** The changes are processed one at a time, in order. */
  lemma AppliedStep(changes: seq<DocumentChange>, accepted: seq<bool>, i: nat)
    requires |accepted| == |changes| && i < |changes|
    ensures AppliedCandidates(changes[..i + 1], accepted[..i + 1])
         == Applied(AppliedCandidates(changes[..i], accepted[..i]), changes[i], accepted[i])
  {
    assert changes[..i + 1][..i] == changes[..i] && accepted[..i + 1][..i] == accepted[..i];
  }

  /** What one change adds to the candidates the engine holds. */
  function Applied(earlier: seq<IceCandidate>, ch: DocumentChange, ok: bool): (r: seq<IceCandidate>)
    ensures |earlier| <= |r| <= |earlier| + 1 && r[..|earlier|] == earlier
  {
    match OfferedCandidate(ch)
    case Some(c) => if ok then earlier + [c] else earlier
    case None => earlier
  }

  /** Candidates applied after earlier ones are appended behind them. */
  lemma AppliedAfter(front: seq<IceCandidate>, earlier: seq<IceCandidate>, ch: DocumentChange, ok: bool)
    ensures Applied(front + earlier, ch, ok) == front + Applied(earlier, ch, ok)
  {
  }

  /** Processing two runs of changes one after the other is processing them together. */
  lemma {:induction false} AppliedConcat(a: seq<DocumentChange>, xa: seq<bool>, b: seq<DocumentChange>, xb: seq<bool>)
    requires |xa| == |a| && |xb| == |b|
    ensures AppliedCandidates(a + b, xa + xb) == AppliedCandidates(a, xa) + AppliedCandidates(b, xb)
    decreases |b|
  {
    if b == [] {
      assert a + b == a && xa + xb == xa;
    } else {
      var n := |b| - 1;
      var ab, xab := a + b, xa + xb;
      assert ab[..|a| + n] == a + b[..n];
      assert xab[..|a| + n] == xa + xb[..n];
      assert ab[|a| + n] == b[n] && xab[|a| + n] == xb[n];
      AppliedConcat(a, xa, b[..n], xb[..n]);
      AppliedAfter(AppliedCandidates(a, xa), AppliedCandidates(b[..n], xb[..n]), b[n], xb[n]);
    }
  }

  /**
    * A change that offers no candidate (not an addition, or a record that
    * does not read as a candidate) is skipped, and the changes after it are
    * still processed.
    */
  lemma SkippedChange(changes: seq<DocumentChange>, accepted: seq<bool>, i: nat)
    requires |accepted| == |changes| && i < |changes|
    requires OfferedCandidate(changes[i]).None?
    ensures AppliedCandidates(changes, accepted)
         == AppliedCandidates(changes[..i], accepted[..i]) + AppliedCandidates(changes[i + 1..], accepted[i + 1..])
  {
    var a, xa := changes[..i], accepted[..i];
    var b, xb := changes[i + 1..], accepted[i + 1..];
    var c, x := [changes[i]], [accepted[i]];
    assert AppliedCandidates(c, x) == [] by {
      assert c[..0] == [] && x[..0] == [];
    }
    AppliedConcat(a, xa, c, x);
    AppliedConcat(a + c, xa + x, b, xb);
    Regrouped(changes, i);
    Regrouped(accepted, i);
  }

  /**
    * Every candidate the engine holds came from an added change whose record
    * reads as that candidate and which the engine accepted; and every
    * candidate offered by a change and accepted by the engine is held.
    */
  lemma {:induction false} AppliedAreOffered(changes: seq<DocumentChange>, accepted: seq<bool>)
    requires |accepted| == |changes|
    ensures forall c :: c in AppliedCandidates(changes, accepted) ==>
      exists i :: 0 <= i < |changes| && accepted[i] && OfferedCandidate(changes[i]) == Some(c)
    ensures forall i :: 0 <= i < |changes| && accepted[i] && OfferedCandidate(changes[i]).Some? ==>
      OfferedCandidate(changes[i]).value in AppliedCandidates(changes, accepted)
    decreases |changes|
  {
    if changes != [] {
      var n := |changes| - 1;
      AppliedAreOffered(changes[..n], accepted[..n]);
      forall c | c in AppliedCandidates(changes, accepted)
        ensures exists i :: 0 <= i < |changes| && accepted[i] && OfferedCandidate(changes[i]) == Some(c)
      {
        if c in AppliedCandidates(changes[..n], accepted[..n]) {
          var i :| 0 <= i < n && accepted[..n][i] && OfferedCandidate(changes[..n][i]) == Some(c);
          assert changes[..n][i] == changes[i];
        } else {
          assert accepted[n] && OfferedCandidate(changes[n]) == Some(c);
        }
      }
      forall i | 0 <= i < |changes| && accepted[i] && OfferedCandidate(changes[i]).Some?
        ensures OfferedCandidate(changes[i]).value in AppliedCandidates(changes, accepted)
      {
        if i < n {
          assert changes[..n][i] == changes[i] && accepted[..n][i] == accepted[i];
        }
      }
    }
  }

  /**
    * The number of changes that offer a candidate the engine accepts,
    * counted from the front.
    */
  function AcceptedOffers(changes: seq<DocumentChange>, accepted: seq<bool>): nat
    requires |accepted| == |changes|
  {
    if changes == [] then 0
    else
      (if accepted[0] && OfferedCandidate(changes[0]).Some? then 1 else 0)
        + AcceptedOffers(changes[1..], accepted[1..])
  }

  /** The engine ends up with exactly one candidate per accepted offer. */
  lemma {:induction false} AppliedCountsAccepted(changes: seq<DocumentChange>, accepted: seq<bool>)
    requires |accepted| == |changes|
    ensures |AppliedCandidates(changes, accepted)| == AcceptedOffers(changes, accepted)
    decreases |changes|
  {
    if changes != [] {
      var c, x := [changes[0]], [accepted[0]];
      assert AppliedCandidates(c, x) == Applied([], changes[0], accepted[0]) by {
        assert c[..0] == [] && x[..0] == [];
      }
      assert c + changes[1..] == changes && x + accepted[1..] == accepted;
      AppliedConcat(c, x, changes[1..], accepted[1..]);
      AppliedCountsAccepted(changes[1..], accepted[1..]);
    }
  }
}
