/**
  * ICE candidates as the call manager stores them in, and reads them back
  * from, the candidate sub-collections, and which sub-collection each role
  * writes and reads.
  */
module IceCodec {
  import opened Wrappers
  import opened Firestore

  /** Swift's `Int32`, the type of a candidate's media-line index. */
  newtype Int32 = x: int | -0x8000_0000 <= x < 0x8000_0000

  /** A reachability candidate: its SDP line, media-line index and optional media id. */
  datatype IceCandidate = IceCandidate(sdp: string, sdpMLineIndex: Int32, sdpMid: Option<string>)

  const CandidateField := "candidate"
  const MLineIndexField := "sdpMLineIndex"
  const MidField := "sdpMid"
  const CandidateFields := {CandidateField, MLineIndexField, MidField}

  /** The sub-collection a participant writes its own candidates to. */
  function OutboundCollection(isCaller: bool): CandidateCollection
  {
    if isCaller then LocalCandidates else RemoteCandidates
  }

  /**
    * The sub-collection a participant reads the other side's candidates from:
    * exactly the one the other role writes to, never its own.
    */
  function InboundCollection(isCaller: bool): (c: CandidateCollection)
    ensures c == OutboundCollection(!isCaller)
    ensures c != OutboundCollection(isCaller)
  {
    if isCaller then RemoteCandidates else LocalCandidates
  }

  /** A stored number reads as `Int32` only when it is exactly representable. */
  predicate IsInt32(v: Value)
  {
    v.Int? && -0x8000_0000 <= v.i < 0x8000_0000
  }

  /** The fields of `d` that make up a candidate record. */
  function CandidatePart(d: Doc): (p: Doc)
    ensures p.Keys == d.Keys * CandidateFields
    ensures forall k :: k in p ==> p[k] == d[k]
  {
    map k | k in d && k in CandidateFields :: d[k]
  }

  /**
    * Reading a candidate record: a candidate exactly when the three fields are
    * present with the right types (a string, an `Int32`, a string), made of
    * those fields unchanged.
    */
  function ParseCandidate(d: Doc): (r: Option<IceCandidate>)
    ensures r.Some? <==>
      && CandidateField in d && d[CandidateField].Str?
      && MLineIndexField in d && IsInt32(d[MLineIndexField])
      && MidField in d && d[MidField].Str?
    ensures r.Some? ==> r.value.sdpMid.Some?
  {
    if && CandidateField in d && d[CandidateField].Str?
       && MLineIndexField in d && IsInt32(d[MLineIndexField])
       && MidField in d && d[MidField].Str?
    then Some(IceCandidate(d[CandidateField].s, d[MLineIndexField].i as Int32, Some(d[MidField].s)))
    else None
  }

  /**
    * Writing a candidate record: the three fields, with an absent media id
    * written as the empty string. Reading the record back gives the candidate,
    * its media id made present.
    */
  function EncodeCandidate(c: IceCandidate): (d: Doc)
    ensures d.Keys == CandidateFields
    ensures ParseCandidate(d) == Some(c.(sdpMid := Some(c.sdpMid.GetOr(""))))
  {
    map[CandidateField := Str(c.sdp),
        MLineIndexField := Int(c.sdpMLineIndex as int),
        MidField := Str(c.sdpMid.GetOr(""))]
  }

  /** A record that reads as a candidate is that candidate's encoding, plus unrelated fields. */
  lemma ParseThenEncode(d: Doc)
    requires ParseCandidate(d).Some?
    ensures EncodeCandidate(ParseCandidate(d).value) == CandidatePart(d)
  {
  }
}
