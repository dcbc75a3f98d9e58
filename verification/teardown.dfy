/**
  * Call teardown in the store: what `endCall` and `deleteCallWithCandidates`
  * ask of the store, with the outcome of each request that can fail given
  * as a parameter.
  *
  * `deleteCallWithCandidates` reads each candidate sub-collection and
  * deletes every document the read returned; only when both reads have
  * completed does it delete the call document, and it reports the outcome
  * of that last delete. `endCall` deletes the call document once directly
  * before starting this teardown.
  */
module Teardown {
  import opened Wrappers
  import opened Firestore
  import opened Sequences

  /** Issuing one delete per document of `docs`, in order. */
  function DeleteEach(st: StoreState, id: string, c: CandidateCollection, docs: seq<StoredDoc>): StoreState
    decreases |docs|
  {
    if docs == [] then st
    else
      var n := |docs| - 1;
      DeleteCandidateDoc(DeleteEach(st, id, c, docs[..n]), id, c, docs[n].id)
  }

  /** The delete requests `DeleteEach` issues. */
  function DeleteRequests(id: string, c: CandidateCollection, docs: seq<StoredDoc>): (ops: seq<StoreOp>)
    ensures |ops| == |docs|
    ensures forall j :: 0 <= j < |docs| ==> ops[j] == DeleteCandidate(id, c, docs[j].id)
  {
    seq(|docs|, j requires 0 <= j < |docs| => DeleteCandidate(id, c, docs[j].id))
  }

  /** The identifiers of `docs`. */
  function Ids(docs: seq<StoredDoc>): set<nat>
  {
    set d | d in docs :: d.id
  }

  /**
    * `deleteCollection`: a read of the sub-collection, then one delete per
    * document read; a failed read deletes nothing.
    */
  function Sweep(st: StoreState, id: string, c: CandidateCollection, readOk: bool): StoreState
  {
    var read := RecordRead(st, id, c);
    if readOk then DeleteEach(read, id, c, Candidates(st, id, c)) else read
  }

  /** `deleteCallWithCandidates`: both sweeps, then the delete of the call document. */
  function DeleteWithCandidates(st: StoreState, id: string, localReadOk: bool, remoteReadOk: bool, deleteOk: bool): StoreState
  {
    var swept := Sweep(Sweep(st, id, LocalCandidates, localReadOk), id, RemoteCandidates, remoteReadOk);
    DeleteDocument(swept, id, deleteOk)
  }

  /** How each store request of a teardown ends. */
  datatype TeardownOutcome = TeardownOutcome(directDeleteOk: bool, localReadOk: bool, remoteReadOk: bool, parentDeleteOk: bool)
  {
    /** Every request succeeds. */
    predicate AllSucceed()
    {
      directDeleteOk && localReadOk && remoteReadOk && parentDeleteOk
    }
  }

  /** What `endCall` does to the store: nothing without a current call. */
  function EndCallStore(st: StoreState, callId: Option<string>, o: TeardownOutcome): StoreState
  {
    match callId
    case None => st
    case Some(id) =>
      DeleteWithCandidates(DeleteDocument(st, id, o.directDeleteOk), id, o.localReadOk, o.remoteReadOk, o.parentDeleteOk)
  }

  /** The deletes remove exactly the documents whose identifiers were named. */
  lemma {:induction false} DeleteEachRemoves(st: StoreState, id: string, c: CandidateCollection, docs: seq<StoredDoc>)
    ensures forall d :: d in Candidates(DeleteEach(st, id, c, docs), id, c) <==>
      d in Candidates(st, id, c) && d.id !in Ids(docs)
    decreases |docs|
  {
    if docs != [] {
      var n := |docs| - 1;
      DeleteEachRemoves(st, id, c, docs[..n]);
      assert Ids(docs) == Ids(docs[..n]) + {docs[n].id} by {
        assert docs == docs[..n] + [docs[n]];
      }
    }
  }

  /** The deletes touch nothing but the one sub-collection. */
  lemma {:induction false} DeleteEachFrame(st: StoreState, id: string, c: CandidateCollection, docs: seq<StoredDoc>)
    ensures var r := DeleteEach(st, id, c, docs);
      && (forall other :: other != c ==> Candidates(r, id, other) == Candidates(st, id, other))
      && CallData(r, id) == CallData(st, id) && OthersUnchanged(st, r, id)
    decreases |docs|
  {
    if docs != [] {
      DeleteEachFrame(st, id, c, docs[..|docs| - 1]);
    }
  }

  /** The deletes are issued one per document, in order. */
  lemma {:induction false} DeleteEachLog(st: StoreState, id: string, c: CandidateCollection, docs: seq<StoredDoc>)
    ensures DeleteEach(st, id, c, docs).log == st.log + DeleteRequests(id, c, docs)
    decreases |docs|
  {
    if docs != [] {
      var n := |docs| - 1;
      DeleteEachLog(st, id, c, docs[..n]);
      DeleteRequestsSnoc(id, c, docs);
      Snoc(st.log, DeleteRequests(id, c, docs[..n]), DeleteCandidate(id, c, docs[n].id));
    }
  }

  lemma DeleteRequestsSnoc(id: string, c: CandidateCollection, docs: seq<StoredDoc>)
    requires docs != []
    ensures DeleteRequests(id, c, docs)
         == DeleteRequests(id, c, docs[..|docs| - 1]) + [DeleteCandidate(id, c, docs[|docs| - 1].id)]
  {
  }

  /** The requests of one sweep: the read, then one delete per document read. */
  function SweepRequests(id: string, c: CandidateCollection, readOk: bool, docs: seq<StoredDoc>): (ops: seq<StoreOp>)
    ensures |ops| >= 1 && ops[0] == ReadCandidates(id, c)
    ensures forall j :: 0 <= j < |ops| ==> ops[j].OnCandidatesOf(id)
  {
    [ReadCandidates(id, c)] + (if readOk then DeleteRequests(id, c, docs) else [])
  }

  /**
    * A sweep whose read succeeds empties the sub-collection; one whose read
    * fails leaves it as it was.
    */
  lemma SweepClears(st: StoreState, id: string, c: CandidateCollection, readOk: bool)
    ensures Candidates(Sweep(st, id, c, readOk), id, c) == if readOk then [] else Candidates(st, id, c)
  {
    if readOk {
      DeleteEachRemoves(RecordRead(st, id, c), id, c, Candidates(st, id, c));
      NoMembers(Candidates(Sweep(st, id, c, readOk), id, c));
    }
  }

  /** A sweep leaves the other sub-collection, the call document and every other call untouched. */
  lemma SweepFrame(st: StoreState, id: string, c: CandidateCollection, readOk: bool)
    ensures var r := Sweep(st, id, c, readOk);
      && (forall other :: other != c ==> Candidates(r, id, other) == Candidates(st, id, other))
      && CallData(r, id) == CallData(st, id) && OthersUnchanged(st, r, id)
  {
    if readOk {
      DeleteEachFrame(RecordRead(st, id, c), id, c, Candidates(st, id, c));
    }
  }

  /** A sweep issues its read before its deletes. */
  lemma SweepLog(st: StoreState, id: string, c: CandidateCollection, readOk: bool)
    ensures Sweep(st, id, c, readOk).log == st.log + SweepRequests(id, c, readOk, Candidates(st, id, c))
  {
    if readOk {
      DeleteEachLog(RecordRead(st, id, c), id, c, Candidates(st, id, c));
    }
  }

  /**
    * The requests of `deleteCallWithCandidates`, in the order issued: read
    * and empty the local candidates, read and empty the remote candidates,
    * and only then delete the call document.
    */
  function TeardownRequests(st: StoreState, id: string, localReadOk: bool, remoteReadOk: bool): seq<StoreOp>
  {
    SweepRequests(id, LocalCandidates, localReadOk, Candidates(st, id, LocalCandidates))
      + SweepRequests(id, RemoteCandidates, remoteReadOk, Candidates(st, id, RemoteCandidates))
      + [DeleteCall(id)]
  }

  /** `deleteCallWithCandidates` issues exactly the teardown requests, in that order. */
  lemma TeardownOrder(st: StoreState, id: string, localReadOk: bool, remoteReadOk: bool, deleteOk: bool)
    ensures DeleteWithCandidates(st, id, localReadOk, remoteReadOk, deleteOk).log
         == st.log + TeardownRequests(st, id, localReadOk, remoteReadOk)
  {
    var s1 := Sweep(st, id, LocalCandidates, localReadOk);
    var s2 := Sweep(s1, id, RemoteCandidates, remoteReadOk);
    SweepLog(st, id, LocalCandidates, localReadOk);
    SweepFrame(st, id, LocalCandidates, localReadOk);
    SweepLog(s1, id, RemoteCandidates, remoteReadOk);
    Appended(st.log, s1.log, s2.log, DeleteWithCandidates(st, id, localReadOk, remoteReadOk, deleteOk).log,
             SweepRequests(id, LocalCandidates, localReadOk, Candidates(st, id, LocalCandidates)),
             SweepRequests(id, RemoteCandidates, remoteReadOk, Candidates(st, id, RemoteCandidates)),
             [DeleteCall(id)]);
  }

  /**
    * The call document is the last thing deleted: both sub-collections are
    * read before it, and every request before it is on one of the call's own
    * candidate sub-collections.
    */
  lemma ParentDeletedLast(st: StoreState, id: string, localReadOk: bool, remoteReadOk: bool)
    ensures var ops := TeardownRequests(st, id, localReadOk, remoteReadOk);
      && |ops| >= 3 && ops[|ops| - 1] == DeleteCall(id)
      && ReadCandidates(id, LocalCandidates) in ops[..|ops| - 1]
      && ReadCandidates(id, RemoteCandidates) in ops[..|ops| - 1]
      && forall j :: 0 <= j < |ops| - 1 ==> ops[j].OnCandidatesOf(id)
  {
  }

  /**
    * When every request succeeds, `endCall` leaves nothing stored under the
    * call, and no other call is touched.
    */
  lemma EndCallClearsCall(st: StoreState, id: string, o: TeardownOutcome)
    requires o.AllSucceed()
    ensures var r := EndCallStore(st, Some(id), o);
      && CallData(r, id).None?
      && Candidates(r, id, LocalCandidates) == [] && Candidates(r, id, RemoteCandidates) == []
      && OthersUnchanged(st, r, id)
  {
    var s0 := DeleteDocument(st, id, true);
    var s1 := Sweep(s0, id, LocalCandidates, true);
    var s2 := Sweep(s1, id, RemoteCandidates, true);
    SweepClears(s0, id, LocalCandidates, true);
    SweepFrame(s0, id, LocalCandidates, true);
    SweepClears(s1, id, RemoteCandidates, true);
    SweepFrame(s1, id, RemoteCandidates, true);
  }

  /**
    * A failed read leaves that sub-collection's candidates behind, even when
    * the call document itself is deleted; this holds for either read.
    */
  lemma FailedReadLeavesCandidates(st: StoreState, id: string, o: TeardownOutcome)
    ensures !o.localReadOk ==>
      Candidates(EndCallStore(st, Some(id), o), id, LocalCandidates) == Candidates(st, id, LocalCandidates)
    ensures !o.remoteReadOk ==>
      Candidates(EndCallStore(st, Some(id), o), id, RemoteCandidates) == Candidates(st, id, RemoteCandidates)
  {
    var s0 := DeleteDocument(st, id, o.directDeleteOk);
    var s1 := Sweep(s0, id, LocalCandidates, o.localReadOk);
    SweepClears(s0, id, LocalCandidates, o.localReadOk);
    SweepFrame(s0, id, LocalCandidates, o.localReadOk);
    SweepClears(s1, id, RemoteCandidates, o.remoteReadOk);
    SweepFrame(s1, id, RemoteCandidates, o.remoteReadOk);
  }

  /**
    * Ending a call with nothing stored under it stores nothing, whichever of
    * the teardown's requests succeed or fail, and touches no other call.
    */
  lemma EmptyCallStaysEmpty(st: StoreState, id: string, o: TeardownOutcome)
    requires Entry(st, id) == EmptyEntry
    ensures Entry(EndCallStore(st, Some(id), o), id) == EmptyEntry
    ensures OthersUnchanged(st, EndCallStore(st, Some(id), o), id)
  {
    var s0 := DeleteDocument(st, id, o.directDeleteOk);
    var s1 := Sweep(s0, id, LocalCandidates, o.localReadOk);
    SweepClears(s0, id, LocalCandidates, o.localReadOk);
    SweepFrame(s0, id, LocalCandidates, o.localReadOk);
    SweepClears(s1, id, RemoteCandidates, o.remoteReadOk);
    SweepFrame(s1, id, RemoteCandidates, o.remoteReadOk);
    var r := EndCallStore(st, Some(id), o);
    assert Entry(r, id) == EmptyEntry by {
      assert Entry(r, id).Candidates(LocalCandidates) == [];
      assert Entry(r, id).Candidates(RemoteCandidates) == [];
    }
  }

  /**
    * Ending a call whose teardown already succeeded stores the same as ending
    * it once, whatever the second teardown's requests report: a second
    * `endCall` deletes nothing more.
    */
  lemma EndCallIdempotent(st: StoreState, id: string, o: TeardownOutcome, o2: TeardownOutcome)
    requires o.AllSucceed()
    ensures Entry(EndCallStore(EndCallStore(st, Some(id), o), Some(id), o2), id) == Entry(EndCallStore(st, Some(id), o), id)
    ensures OthersUnchanged(EndCallStore(st, Some(id), o), EndCallStore(EndCallStore(st, Some(id), o), Some(id), o2), id)
  {
    EndCallClearsCall(st, id, o);
    EmptyCallStaysEmpty(EndCallStore(st, Some(id), o), id, o2);
  }
}
