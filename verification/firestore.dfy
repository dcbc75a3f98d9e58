/**
  * The signalling store the call manager talks to: a `calls` collection of
  * call documents, each with two candidate sub-collections,
  * `localCandidates` and `remoteCandidates`.
  *
  * The store is a value (`StoreState`) held by one shared `SignalingStore`
  * object. As in the document database it stands for, a call document and
  * its sub-collections are independent: candidates can be added under a call
  * whose document does not exist (yet or any more), and deleting a call
  * document leaves its sub-collections in place. Every request the call
  * manager issues is appended to `log`, so that the order of requests can be
  * stated.
  */
module Firestore {
  import opened Wrappers

  /** Field values: strings, integers and the server-assigned timestamp. */
  datatype Value = Str(s: string) | Int(i: int) | ServerTimestamp

  /** The fields of a document. */
  type Doc = map<string, Value>

  /** The two candidate sub-collections under a call document. */
  datatype CandidateCollection = LocalCandidates | RemoteCandidates

  /** A candidate document with the identifier the store assigned to it. */
  datatype StoredDoc = StoredDoc(id: nat, data: Doc)

  /** Everything stored under one call identifier. */
  datatype CallEntry = CallEntry(data: Option<Doc>, localCandidates: seq<StoredDoc>, remoteCandidates: seq<StoredDoc>)
  {
    function Candidates(c: CandidateCollection): seq<StoredDoc>
    {
      match c
      case LocalCandidates => localCandidates
      case RemoteCandidates => remoteCandidates
    }

    function WithCandidates(c: CandidateCollection, docs: seq<StoredDoc>): (e: CallEntry)
      ensures e.data == data && e.Candidates(c) == docs
      ensures forall other :: other != c ==> e.Candidates(other) == Candidates(other)
    {
      match c
      case LocalCandidates => this.(localCandidates := docs)
      case RemoteCandidates => this.(remoteCandidates := docs)
    }
  }

  const EmptyEntry := CallEntry(None, [], [])

  /** The requests issued to the store, in the order issued. */
  datatype StoreOp =
    | SetCall(callId: string)
    | UpdateCall(callId: string)
    | DeleteCall(callId: string)
    | AddCandidate(callId: string, collection: CandidateCollection, docId: nat)
    | ReadCandidates(callId: string, collection: CandidateCollection)
    | DeleteCandidate(callId: string, collection: CandidateCollection, docId: nat)
  {
    /** A request on one of the candidate sub-collections of `id`. */
    predicate OnCandidatesOf(id: string)
    {
      (AddCandidate? || ReadCandidates? || DeleteCandidate?) && callId == id
    }
  }

  datatype StoreState = StoreState(calls: map<string, CallEntry>, nextDocId: nat, log: seq<StoreOp>)

  const EmptyStore := StoreState(map[], 0, [])

  function Entry(st: StoreState, id: string): CallEntry
  {
    if id in st.calls then st.calls[id] else EmptyEntry
  }

  /** The fields of call document `id`, if that document exists. */
  function CallData(st: StoreState, id: string): Option<Doc>
  {
    Entry(st, id).data
  }

  /**
    * The documents of one candidate sub-collection of call `id`, in the order
    * they were added, which is also the order a read returns them here
    * (Firestore itself returns them ordered by document id).
    */
  function Candidates(st: StoreState, id: string, c: CandidateCollection): seq<StoredDoc>
  {
    Entry(st, id).Candidates(c)
  }

  /** Nothing stored under any call other than `id` differs between `st` and `st'`. */
  ghost predicate OthersUnchanged(st: StoreState, st': StoreState, id: string)
  {
    forall other :: other != id ==> Entry(st', other) == Entry(st, other)
  }

  /** The candidate sub-collections of `id` are the same in `st` and `st'`. */
  ghost predicate CandidatesUnchanged(st: StoreState, st': StoreState, id: string)
  {
    forall c :: Candidates(st', id, c) == Candidates(st, id, c)
  }

  function WithEntry(st: StoreState, id: string, e: CallEntry, op: StoreOp): (r: StoreState)
    ensures Entry(r, id) == e && OthersUnchanged(st, r, id)
    ensures r.nextDocId == st.nextDocId && r.log == st.log + [op]
  {
    st.(calls := st.calls[id := e], log := st.log + [op])
  }

  /** `setData`: the call document becomes exactly `doc`; its sub-collections stay. */
  function SetData(st: StoreState, id: string, doc: Doc): (r: StoreState)
    ensures CallData(r, id) == Some(doc)
    ensures CandidatesUnchanged(st, r, id) && OthersUnchanged(st, r, id)
    ensures r.nextDocId == st.nextDocId && r.log == st.log + [SetCall(id)]
  {
    WithEntry(st, id, Entry(st, id).(data := Some(doc)), SetCall(id))
  }

  /**
    * `updateData`: the given fields are written over an existing document and
    * every other field is kept; on a missing document the update fails and
    * nothing changes.
    */
  function UpdateData(st: StoreState, id: string, fields: Doc): (r: StoreState)
    ensures CallData(st, id).None? ==> CallData(r, id).None?
    ensures CallData(st, id).Some? ==>
      && CallData(r, id).Some?
      && CallData(r, id).value.Keys == CallData(st, id).value.Keys + fields.Keys
      && (forall k :: k in fields ==> CallData(r, id).value[k] == fields[k])
      && (forall k :: k in CallData(st, id).value && k !in fields ==>
            CallData(r, id).value[k] == CallData(st, id).value[k])
    ensures CandidatesUnchanged(st, r, id) && OthersUnchanged(st, r, id)
    ensures r.nextDocId == st.nextDocId && r.log == st.log + [UpdateCall(id)]
  {
    var e := Entry(st, id);
    match e.data
    case None => WithEntry(st, id, e, UpdateCall(id))
    case Some(current) => WithEntry(st, id, e.(data := Some(current + fields)), UpdateCall(id))
  }

  /**
    * `delete` of a call document, whose completion reports `ok`: the document
    * is gone on success and untouched on failure; the sub-collections stay in
    * either case.
    */
  function DeleteDocument(st: StoreState, id: string, ok: bool): (r: StoreState)
    ensures CallData(r, id) == if ok then None else CallData(st, id)
    ensures CandidatesUnchanged(st, r, id) && OthersUnchanged(st, r, id)
    ensures r.nextDocId == st.nextDocId && r.log == st.log + [DeleteCall(id)]
  {
    if ok then WithEntry(st, id, Entry(st, id).(data := None), DeleteCall(id))
    else WithEntry(st, id, Entry(st, id), DeleteCall(id))
  }

  /** `addDocument` to a candidate sub-collection: appended under a fresh identifier. */
  function AddDocument(st: StoreState, id: string, c: CandidateCollection, doc: Doc): (r: StoreState)
    ensures Candidates(r, id, c) == Candidates(st, id, c) + [StoredDoc(st.nextDocId, doc)]
    ensures forall other :: other != c ==> Candidates(r, id, other) == Candidates(st, id, other)
    ensures CallData(r, id) == CallData(st, id) && OthersUnchanged(st, r, id)
    ensures r.nextDocId == st.nextDocId + 1 && r.log == st.log + [AddCandidate(id, c, st.nextDocId)]
  {
    var e := Entry(st, id);
    var r := WithEntry(st, id, e.WithCandidates(c, e.Candidates(c) + [StoredDoc(st.nextDocId, doc)]),
                       AddCandidate(id, c, st.nextDocId));
    r.(nextDocId := st.nextDocId + 1)
  }

  /** `getDocuments` on a candidate sub-collection: a read, which changes nothing stored. */
  function RecordRead(st: StoreState, id: string, c: CandidateCollection): (r: StoreState)
    ensures r.calls == st.calls && r.nextDocId == st.nextDocId
    ensures r.log == st.log + [ReadCandidates(id, c)]
  {
    st.(log := st.log + [ReadCandidates(id, c)])
  }

  /** `docs` without the document whose identifier is `docId`, order kept. */
  function Without(docs: seq<StoredDoc>, docId: nat): (r: seq<StoredDoc>)
    ensures forall d :: d in r <==> d in docs && d.id != docId
    ensures |r| <= |docs|
  {
    if docs == [] then []
    else if docs[0].id == docId then Without(docs[1..], docId)
    else [docs[0]] + Without(docs[1..], docId)
  }

  /** `delete` of one candidate document through its reference. */
  function DeleteCandidateDoc(st: StoreState, id: string, c: CandidateCollection, docId: nat): (r: StoreState)
    ensures Candidates(r, id, c) == Without(Candidates(st, id, c), docId)
    ensures forall other :: other != c ==> Candidates(r, id, other) == Candidates(st, id, other)
    ensures CallData(r, id) == CallData(st, id) && OthersUnchanged(st, r, id)
    ensures r.nextDocId == st.nextDocId && r.log == st.log + [DeleteCandidate(id, c, docId)]
  {
    var e := Entry(st, id);
    WithEntry(st, id, e.WithCandidates(c, Without(e.Candidates(c), docId)), DeleteCandidate(id, c, docId))
  }

  /**
    * Every stored candidate document has an identifier below `nextDocId`, so
    * the next identifier handed out is not in use.
    */
  ghost predicate IdsBelowNext(st: StoreState)
  {
    forall id, c, d :: d in Candidates(st, id, c) ==> d.id < st.nextDocId
  }

  /** A request on call `id` keeps the identifiers below `nextDocId` when it does so under `id`. */
  lemma KeptBelowNext(st: StoreState, r: StoreState, id: string)
    requires IdsBelowNext(st) && OthersUnchanged(st, r, id) && st.nextDocId <= r.nextDocId
    requires forall c, d :: d in Candidates(r, id, c) ==> d.id < r.nextDocId
    ensures IdsBelowNext(r)
  {
    forall other, c, d | d in Candidates(r, other, c)
      ensures d.id < r.nextDocId
    {
      if other != id {
        assert Entry(r, other) == Entry(st, other);
        assert Candidates(r, other, c) == Candidates(st, other, c);
      }
    }
  }

  lemma SetDataKeepsIds(st: StoreState, id: string, doc: Doc)
    requires IdsBelowNext(st)
    ensures IdsBelowNext(SetData(st, id, doc))
  {
    KeptBelowNext(st, SetData(st, id, doc), id);
  }

  lemma UpdateDataKeepsIds(st: StoreState, id: string, doc: Doc)
    requires IdsBelowNext(st)
    ensures IdsBelowNext(UpdateData(st, id, doc))
  {
    var r := UpdateData(st, id, doc);
    assert forall c :: Candidates(r, id, c) == Candidates(st, id, c);
    KeptBelowNext(st, r, id);
  }

  lemma DeleteDocumentKeepsIds(st: StoreState, id: string, ok: bool)
    requires IdsBelowNext(st)
    ensures IdsBelowNext(DeleteDocument(st, id, ok))
  {
    KeptBelowNext(st, DeleteDocument(st, id, ok), id);
  }

  lemma RecordReadKeepsIds(st: StoreState, id: string, c: CandidateCollection)
    requires IdsBelowNext(st)
    ensures IdsBelowNext(RecordRead(st, id, c))
  {
    var r := RecordRead(st, id, c);
    forall other, c', d | d in Candidates(r, other, c')
      ensures d.id < r.nextDocId
    {
      assert Entry(r, other) == Entry(st, other);
      assert Candidates(r, other, c') == Candidates(st, other, c');
    }
  }

  lemma AddDocumentKeepsIds(st: StoreState, id: string, c: CandidateCollection, doc: Doc)
    requires IdsBelowNext(st)
    ensures IdsBelowNext(AddDocument(st, id, c, doc))
  {
    var r := AddDocument(st, id, c, doc);
    forall c', d | d in Candidates(r, id, c')
      ensures d.id < r.nextDocId
    {
      if c' == c && d !in Candidates(st, id, c) {
        assert d == StoredDoc(st.nextDocId, doc);
      }
    }
    KeptBelowNext(st, r, id);
  }

  lemma DeleteCandidateDocKeepsIds(st: StoreState, id: string, c: CandidateCollection, docId: nat)
    requires IdsBelowNext(st)
    ensures IdsBelowNext(DeleteCandidateDoc(st, id, c, docId))
  {
    KeptBelowNext(st, DeleteCandidateDoc(st, id, c, docId), id);
  }

  /** Every store request keeps the identifiers below `nextDocId`, starting from the empty store. */
  lemma StoreRequestsKeepIdsBelowNext(st: StoreState, id: string, c: CandidateCollection, doc: Doc, ok: bool, docId: nat)
    requires IdsBelowNext(st)
    ensures IdsBelowNext(EmptyStore)
    ensures IdsBelowNext(SetData(st, id, doc)) && IdsBelowNext(UpdateData(st, id, doc))
    ensures IdsBelowNext(DeleteDocument(st, id, ok)) && IdsBelowNext(RecordRead(st, id, c))
    ensures IdsBelowNext(AddDocument(st, id, c, doc)) && IdsBelowNext(DeleteCandidateDoc(st, id, c, docId))
  {
    SetDataKeepsIds(st, id, doc);
    UpdateDataKeepsIds(st, id, doc);
    DeleteDocumentKeepsIds(st, id, ok);
    RecordReadKeepsIds(st, id, c);
    AddDocumentKeepsIds(st, id, c, doc);
    DeleteCandidateDocKeepsIds(st, id, c, docId);
  }

  /** Removing an identifier that was appended last, and nowhere before, removes just that document. */
  lemma {:induction false} WithoutLast(docs: seq<StoredDoc>, d: StoredDoc)
    requires forall e :: e in docs ==> e.id != d.id
    ensures Without(docs + [d], d.id) == docs
    decreases |docs|
  {
    if docs == [] {
      assert Without([d][1..], d.id) == [];
    } else {
      assert (docs + [d])[1..] == docs[1..] + [d];
      WithoutLast(docs[1..], d);
      assert [docs[0]] + docs[1..] == docs;
    }
  }

  /**
    * The document `addDocument` appends gets an identifier no stored document
    * has, and a later delete of that identifier removes exactly that document.
    */
  lemma AddedIdIsFresh(st: StoreState, id: string, c: CandidateCollection, doc: Doc)
    requires IdsBelowNext(st)
    ensures forall other, c', d :: d in Candidates(st, other, c') ==> d.id != st.nextDocId
    ensures Candidates(DeleteCandidateDoc(AddDocument(st, id, c, doc), id, c, st.nextDocId), id, c) == Candidates(st, id, c)
  {
    WithoutLast(Candidates(st, id, c), StoredDoc(st.nextDocId, doc));
  }

  /** The shared store object every participant writes to. */
  class SignalingStore {
    var state: StoreState

    constructor ()
      ensures state == EmptyStore
    {
      state := EmptyStore;
    }
  }
}
