/** The verifier and the API agree: a version-4 chain passes exactly when the protocol can produce it, and
    an accepted append keeps a chain of any version passing. */
module ProtocolEquivalence {
  import opened Prelude
  import opened Canonical
  import opened ProofChain
  import opened Authorization
  import opened Verifier
  import opened ProofApi
  import opened ChainFacts

  // ---- protocol to verifier ----

  lemma RequiredCanonicalIsExpected(s: Services, proofId: string, version: string, sub: Submission, e: Event)
    requires IsSupported(version)
    requires RequiredCanonical(s, proofId, version, sub) == Ok(sub.canonical)
    requires e.kind == sub.kind && e.payloadHash == s.payloadDigest(sub.payload) && e.nonce == sub.nonce
    requires e.canonical == sub.canonical
    ensures ExpectedCanonical(proofId, version, e) == Some(e.canonical)
    ensures IsV4(version) ==> SignedPriorHead(e.canonical) == sub.priorHead
    ensures IsTagged(version) && e.kind != REQUEST_CREATED ==>
            SignedNonce(version, e.kind, e.canonical) == Some(e.nonce)
  {
    hide BuildEventV4, ParseEventV4, BuildEventV3, ParseEventV3, ParseRequest;
    if IsV4(version) {
      EventV4RoundTrip(EventV4(proofId, e.kind, e.payloadHash, e.nonce, sub.priorHead.value), e.canonical);
    } else if IsTagged(version) {
      EventV3RoundTrip(EventV3(proofId, e.kind, e.payloadHash, e.nonce), e.canonical);
    }
  }

  lemma PrecheckMeaning(s: Services, proofId: string, version: string, status: Status, sub: Submission)
    requires IsSupported(version) && Precheck(s, proofId, version, status, sub).None?
    ensures RequiredCanonical(s, proofId, version, sub) == Ok(sub.canonical)
    ensures SignatureVerifies(s, sub.actor, sub.canonical, sub.sig)
    ensures IsLegacy(version) ==> !(TAG_PREFIX <= sub.canonical)
  {
    hide RequiredCanonical, SignatureVerifies, ValidSignatureText, ValidDid;
  }

  lemma LockedCheckMeaning(s: Services, proofId: string, proof: Proof, sub: Submission)
    ensures LockedCheck(s, proofId, proof, sub).None? <==>
            && !IsFinal(proof.status)
            && MayAppend(s, Priors(proof.events), sub.actor, sub.kind, sub.payload)
            && !NonceStored(proof.events, sub.nonce)
            && (IsLegacy(proof.version) ==> !PairStored(proof.events, sub.canonical, sub.sig))
            && (IsV4(proof.version) ==> sub.priorHead == ChainHead(s, proofId, proof.events))
  {
    hide AuthorizeEvent, CheckSingleResult, NonceStored, PairStored, Priors, ChainHead;
  }

  /** An accepted append, whatever status its unlocked phase saw, writes an event that passes. */
  lemma AcceptedEventExtends(s: Services, proofId: string, proof: Proof, seen: Status, sub: Submission,
      eventId: string, createdAt: string)
    requires IsSupported(proof.version) && proof.events != [] && AllPass(s, proofId, proof.version, proof.events)
    requires Precheck(s, proofId, proof.version, seen, sub).None? && LockedCheck(s, proofId, proof, sub).None?
    ensures Extends(s, proofId, proof.version, proof.events,
                    CreateEvent(s, proofId, proof.events, EventDraft(sub), eventId, createdAt))
  {
    hide AllPass, Extends, Precheck, LockedCheck, RequiredCanonical, ExpectedCanonical, SignedNonce, SignedPriorHead,
         SignatureVerifies,
         AuthorizeEvent, CheckSingleResult, NonceStored, PairStored, Priors;
    var events := proof.events;
    var e := CreateEvent(s, proofId, events, EventDraft(sub), eventId, createdAt);
    PrecheckMeaning(s, proofId, proof.version, seen, sub);
    LockedCheckMeaning(s, proofId, proof, sub);
    RequestNeverAppended(s, Priors(events), sub.actor, sub.payload);
    RequiredCanonicalIsExpected(s, proofId, proof.version, sub, e);
    SequencesCount(s, proofId, proof.version, events, |events| - 1);
    LaterEventMeaning(s, proofId, proof.version, events, e);
  }

  lemma CheckRequestMeaning(s: Services, r: SignedRequest)
    ensures CheckRequest(s, r).None? <==>
            && r.requestId != "" && r.fromDid != "" && r.text != "" && r.nonce != "" && r.sig != "" && r.canonical != ""
            && ParseRequest(V4, r.canonical).Ok?
            && ParseRequest(V4, r.canonical).value.nonce == r.nonce
            && ParseRequest(V4, r.canonical).value.text == r.text
            && SignatureVerifies(s, r.fromDid, r.canonical, r.sig)
  {
    hide ParseRequest, SignatureVerifies, ValidSignatureText, ValidDid;
    SignatureParts(s, r.fromDid, r.canonical, r.sig);
  }

  lemma SignatureParts(s: Services, did: string, canonical: string, signature: string)
    ensures SignatureVerifies(s, did, canonical, signature) ==> ValidDid(s, did) && ValidSignatureText(signature)
  {
  }

  /** The payload of a request row gives back the request's fields. */
  lemma RequestPayloadFields(r: SignedRequest)
    ensures Field(RequestPayload(r), "text") == Some(Text(r.text))
    ensures Field(RequestPayload(r), "from_did") == Some(Text(r.fromDid))
    ensures SignatureField(RequestPayload(r), "nonce") == Some(Text(r.nonce))
    ensures SignatureField(RequestPayload(r), "sig") == Some(Text(r.sig))
    ensures SignatureField(RequestPayload(r), "canonical") == Some(Text(r.canonical))
  {
    assert "text"[0] == 't' && "from_did"[0] == 'f' && "signature"[0] == 's';
    assert "request_id"[0] == 'r' && "created_at"[0] == 'c';
    assert "nonce"[0] == 'n' && "sig"[0] == 's' && "canonical"[0] == 'c';
  }

  /** A version-4 first row passes exactly when its request would be accepted. */
  lemma RequestRowPasses(s: Services, proofId: string, r: SignedRequest, e: Event)
    requires e.payload == RequestPayload(r)
    ensures Extends(s, proofId, "4", [], e) && r.requestId != "" <==>
            CheckRequest(s, r).None? && e == CreateEvent(s, proofId, [], RequestDraft(r), e.eventId, e.createdAt)
  {
    hide Extends, CheckRequest, SignatureVerifies, ParseRequest, RequestPayload, SignatureField, Field;
    FirstEventMeaning(s, proofId, "4", e);
    CheckRequestMeaning(s, r);
    RequestPayloadFields(r);
    SignatureNeedsDid(s, e.actor, e.canonical, e.signature);
    if ParseRequest(V4, e.canonical).Ok? {
      ParsedRequestNotEmpty(e.canonical);
    }
  }

  lemma SignatureNeedsDid(s: Services, did: string, canonical: string, signature: string)
    ensures SignatureVerifies(s, did, canonical, signature) ==> did != "" && signature != ""
  {
  }

  lemma ParsedRequestNotEmpty(canonical: string)
    requires ParseRequest(V4, canonical).Ok?
    ensures ParseRequest(V4, canonical).value.nonce != "" && ParseRequest(V4, canonical).value.text != ""
  {
    hide SplitTagged, CheckRoom;
  }

  // ---- verifier to protocol ----

  /** The submission that would write `e`. */
  function SubmissionOf(e: Event): Submission {
    Submission(e.kind, e.actor, e.payload, e.nonce, e.signature, e.canonical, SignedPriorHead(e.canonical))
  }

  lemma ExpectedIsRequired(s: Services, proofId: string, e: Event)
    requires e.payloadHash == s.payloadDigest(e.payload)
    requires ExpectedCanonical(proofId, "4", e) == Some(e.canonical)
    ensures RequiredCanonical(s, proofId, "4", SubmissionOf(e)) == Ok(e.canonical)
    ensures e.kind != "" && e.nonce != "" && e.canonical != "" && IsProofId(proofId)
  {
    var event := EventV4(proofId, e.kind, e.payloadHash, e.nonce, SignedPriorHead(e.canonical).value);
    EventV4RoundTrip(event, e.canonical);
    hide BuildEventV4, ParseEventV4;
    BuiltEventFields(event);
  }

  lemma BuiltEventFields(e: EventV4)
    requires BuildEventV4(e).Ok?
    ensures e.kind != "" && e.nonce != "" && BuildEventV4(e).value != "" && IsProofId(e.proofId)
  {
    hide IsHash, IsProofId, Plain, Control, Join, ParseEventV4;
    EventV4RoundTrip(e, BuildEventV4(e).value);
    MessageNotEmpty(BuildEventV4(e).value);
  }

  lemma MessageNotEmpty(canonical: string)
    requires ParseEventV4(canonical).Ok?
    ensures canonical != ""
  {
    hide ParseEventV4;
    assert ReadsAs(canonical, EventMessageV4);
    TaggedReading(canonical, EventMessageV4);
  }

  /** A passing version-4 event after a chain that is still open is accepted by the API, and is the row it
      would write. */
  lemma PassingEventIsAccepted(s: Services, proofId: string, proof: Proof, e: Event)
    requires proof.version == "4" && proof.events != [] && AllPass(s, proofId, "4", proof.events)
    requires Extends(s, proofId, "4", proof.events, e) && !IsFinal(proof.status)
    ensures Append(s, proofId, proof, SubmissionOf(e), e.eventId, e.createdAt)
            == Ok(proof.(events := proof.events + [e], status := StatusAfter(proof.status, e.kind)))
  {
    hide AllPass, Extends, LockedCheck, RequiredCanonical, ExpectedCanonical, SignedNonce, SignedPriorHead,
         SignatureVerifies,
         AuthorizeEvent, CheckSingleResult, NonceStored, PairStored, Priors, ValidSignatureText, ValidDid,
         IsFinal, StatusAfter;
    var events, sub := proof.events, SubmissionOf(e);
    LaterEventMeaning(s, proofId, "4", events, e);
    ExpectedIsRequired(s, proofId, e);
    SignatureParts(s, e.actor, e.canonical, e.signature);
    SignatureNeedsDid(s, e.actor, e.canonical, e.signature);
    LockedCheckMeaning(s, proofId, proof, sub);
    SequencesCount(s, proofId, "4", events, |events| - 1);
    assert CreateEvent(s, proofId, events, EventDraft(sub), e.eventId, e.createdAt) == e;
  }

  // ---- runs ----

  datatype Creation = Creation(request: SignedRequest, eventId: string, createdAt: string)
  datatype Appending = Appending(sub: Submission, eventId: string, createdAt: string)

  /** One create_proof followed by accepted appends; None if any step is refused. */
  function Run(s: Services, proofId: string, c: Creation, appends: seq<Appending>): Option<Proof> {
    if appends == [] then
      if CheckRequest(s, c.request).None? then Some(NewProof(s, proofId, c.request, c.eventId, c.createdAt)) else None
    else
      var last := appends[|appends| - 1];
      match Run(s, proofId, c, appends[..|appends| - 1])
      case None => None
      case Some(proof) =>
        match Append(s, proofId, proof, last.sub, last.eventId, last.createdAt)
        case Ok(after) => Some(after)
        case Err(_) => None
  }

  ghost predicate Reachable(s: Services, proofId: string, events: seq<Event>) {
    IsProofId(proofId) && exists c, appends :: RunsTo(s, proofId, c, appends, events)
  }

  predicate RunsTo(s: Services, proofId: string, c: Creation, appends: seq<Appending>, events: seq<Event>) {
    match Run(s, proofId, c, appends) case None => false case Some(proof) => proof.events == events
  }

  /** The first payload is a request as the API's schema stores it. */
  ghost predicate FromSchema(events: seq<Event>) {
    events != [] && exists r: SignedRequest :: r.requestId != "" && events[0].payload == RequestPayload(r)
  }

  /** Status and chain say the same about being closed. */
  predicate StatusFits(proof: Proof) {
    IsFinal(proof.status) <==> IsClosed(proof.events)
  }

  lemma ClosedSnoc(events: seq<Event>, e: Event)
    ensures IsClosed(events + [e]) <==> IsClosed(events) || Closing(e.kind)
    ensures PositionOk(events + [e]) <==> !IsClosed(events)
  {
    hide Closing;
    var longer := events + [e];
    assert longer[|events|] == e;
    forall i | 0 <= i < |events|
      ensures longer[i] == events[i]
    {
    }
    if IsClosed(events) {
      var i :| 0 <= i < |events| && Closing(events[i].kind);
      assert Closing(longer[i].kind);
    }
  }

  lemma StatusAfterFits(status: Status, kind: string)
    requires !IsFinal(status)
    ensures IsFinal(StatusAfter(status, kind)) <==> Closing(kind)
  {
    KindsDiffer();
  }

  /** An accepted append keeps everything: checks, position rule, status. For every version. */
  lemma AppendKeepsChainValid(s: Services, proofId: string, proof: Proof, seen: Status, sub: Submission,
      eventId: string, createdAt: string)
    requires ChainValid(s, proofId, proof.version, proof.events) && StatusFits(proof)
    requires Precheck(s, proofId, proof.version, seen, sub).None? && LockedCheck(s, proofId, proof, sub).None?
    ensures var after := WithEvent(s, proofId, proof, sub, eventId, createdAt);
            ChainValid(s, proofId, after.version, after.events) && StatusFits(after)
  {
    hide AllPass, Extends, Precheck, LockedCheck, PositionOk, IsClosed, IsFinal, Closing, StatusAfter, IsSupported;
    var e := CreateEvent(s, proofId, proof.events, EventDraft(sub), eventId, createdAt);
    AcceptedEventExtends(s, proofId, proof, seen, sub, eventId, createdAt);
    AllPassSnoc(s, proofId, proof.version, proof.events, e);
    ClosedSnoc(proof.events, e);
    LockedCheckMeaning(s, proofId, proof, sub);
    StatusAfterFits(proof.status, sub.kind);
  }

  lemma NewProofIsValid(s: Services, proofId: string, r: SignedRequest, eventId: string, createdAt: string)
    requires CheckRequest(s, r).None?
    ensures var proof := NewProof(s, proofId, r, eventId, createdAt);
            ChainValid(s, proofId, "4", proof.events) && StatusFits(proof) && FromSchema(proof.events)
  {
    hide AllPass, Extends, Closing, RequestPayload, CheckRequest, PositionOk, IsClosed;
    var e := CreateEvent(s, proofId, [], RequestDraft(r), eventId, createdAt);
    assert r.requestId != "" by { CheckRequestMeaning(s, r); }
    RequestRowPasses(s, proofId, r, e);
    assert AllPass(s, proofId, "4", []) by { NothingFails(s, proofId); }
    assert [] + [e] == [e];
    AllPassSnoc(s, proofId, "4", [], e);
    KindsDiffer();
    ClosedSnoc([], e);
    assert !IsClosed([]) by { NothingClosed(); }
  }

  lemma NothingClosed()
    ensures !IsClosed([])
  {
  }

  lemma NothingFails(s: Services, proofId: string)
    ensures AllPass(s, proofId, "4", [])
  {
  }

  lemma {:induction false} RunIsValid(s: Services, proofId: string, c: Creation, appends: seq<Appending>)
    requires Run(s, proofId, c, appends).Some?
    ensures var proof := Run(s, proofId, c, appends).value;
            && proof.version == "4" && ChainValid(s, proofId, "4", proof.events) && StatusFits(proof)
            && FromSchema(proof.events) && |proof.events| == |appends| + 1
    decreases |appends|
  {
    hide ChainValid, StatusFits, CheckRequest, Precheck, LockedCheck, CreateEvent;
    if appends == [] {
      NewProofIsValid(s, proofId, c.request, c.eventId, c.createdAt);
    } else {
      var n := |appends| - 1;
      RunIsValid(s, proofId, c, appends[..n]);
      var proof := Run(s, proofId, c, appends[..n]).value;
      var last := appends[n];
      AppendKeepsChainValid(s, proofId, proof, proof.status, last.sub, last.eventId, last.createdAt);
      assert WithEvent(s, proofId, proof, last.sub, last.eventId, last.createdAt).events[0] == proof.events[0];
    }
  }

  /** The status of a proof is a function of its chain: pending with the request alone, then active, then what
      the closing event says. */
  predicate StatusExact(proof: Proof) {
    proof.events != [] &&
    var last := proof.events[|proof.events| - 1].kind;
    proof.status == (if last == PROOF_COMPLETED then Completed else if last == PROOF_FAILED then Failed
                     else if |proof.events| == 1 then Pending else Active)
  }

  lemma {:induction false} RunStatusIsExact(s: Services, proofId: string, c: Creation, appends: seq<Appending>)
    requires Run(s, proofId, c, appends).Some?
    ensures StatusExact(Run(s, proofId, c, appends).value)
    decreases |appends|
  {
    hide CheckRequest, Precheck, LockedCheck, RequestPayload;
    KindsDiffer();
    if appends != [] {
      var n := |appends| - 1;
      RunStatusIsExact(s, proofId, c, appends[..n]);
      LockedCheckMeaning(s, proofId, Run(s, proofId, c, appends[..n]).value, appends[n].sub);
    }
  }

  lemma {:induction false} ValidIsRun(s: Services, proofId: string, events: seq<Event>)
    returns (c: Creation, appends: seq<Appending>)
    requires ChainValid(s, proofId, "4", events) && FromSchema(events)
    ensures Run(s, proofId, c, appends).Some? && Run(s, proofId, c, appends).value.events == events
    decreases |events|
  {
    hide AllPass, Extends, CheckRequest, RequestPayload, CreateEvent, PositionOk, IsClosed, Run;
    var n := |events| - 1;
    var before, e := events[..n], events[n];
    assert events == before + [e];
    AllPassSnoc(s, proofId, "4", before, e);
    ClosedSnoc(before, e);
    if n == 0 {
      var r: SignedRequest :| r.requestId != "" && events[0].payload == RequestPayload(r);
      c, appends := Creation(r, e.eventId, e.createdAt), [];
      OneRowRun(s, proofId, r, e);
      assert events == [e];
    } else {
      OpenPrefixIsValid(s, proofId, before);
      c, appends := ValidIsRun(s, proofId, before);
      appends := LongerRun(s, proofId, c, appends, e);
    }
  }

  lemma OneRowRun(s: Services, proofId: string, r: SignedRequest, e: Event)
    requires Extends(s, proofId, "4", [], e) && r.requestId != "" && e.payload == RequestPayload(r)
    ensures Run(s, proofId, Creation(r, e.eventId, e.createdAt), []) == Some(Proof("4", Pending, r.requestId, [e]))
  {
    hide Extends, CheckRequest, RequestPayload, CreateEvent;
    RequestRowPasses(s, proofId, r, e);
  }

  lemma LongerRun(s: Services, proofId: string, c: Creation, appends: seq<Appending>, e: Event)
    returns (longer: seq<Appending>)
    requires Run(s, proofId, c, appends).Some?
    requires var proof := Run(s, proofId, c, appends).value;
             && AllPass(s, proofId, "4", proof.events) && !IsClosed(proof.events)
             && Extends(s, proofId, "4", proof.events, e)
    ensures Run(s, proofId, c, longer).Some?
    ensures Run(s, proofId, c, longer).value.events == Run(s, proofId, c, appends).value.events + [e]
  {
    hide AllPass, Extends, Append, PositionOk, IsClosed, IsFinal, StatusAfter, Run, SubmissionOf, FromSchema;
    RunIsValid(s, proofId, c, appends);
    PassingEventIsAccepted(s, proofId, Run(s, proofId, c, appends).value, e);
    var last := Appending(SubmissionOf(e), e.eventId, e.createdAt);
    RunSnoc(s, proofId, c, appends, last);
    longer := appends + [last];
  }

  lemma RunSnoc(s: Services, proofId: string, c: Creation, appends: seq<Appending>, last: Appending)
    requires Run(s, proofId, c, appends).Some?
    requires Append(s, proofId, Run(s, proofId, c, appends).value, last.sub, last.eventId, last.createdAt).Ok?
    ensures Run(s, proofId, c, appends + [last])
            == Some(Append(s, proofId, Run(s, proofId, c, appends).value, last.sub, last.eventId, last.createdAt).value)
  {
    hide Append, CheckRequest, NewProof;
    var longer := appends + [last];
    assert longer[..|longer| - 1] == appends;
  }

  lemma OpenPrefixIsValid(s: Services, proofId: string, events: seq<Event>)
    requires events != [] && AllPass(s, proofId, "4", events) && !IsClosed(events)
    ensures ChainValid(s, proofId, "4", events)
  {
    hide AllPass, Closing;
  }

  /** Verifier equals protocol. A version-4 chain passes every per-event check and the position rule, with a
      request payload the API's schema could have stored, exactly when one create_proof and a sequence of
      accepted appends produce it. */
  lemma VerifierEqualsProtocol(s: Services, proofId: string, events: seq<Event>)
    ensures IsProofId(proofId) && ChainValid(s, proofId, "4", events) && FromSchema(events) <==>
            Reachable(s, proofId, events)
  {
    hide ChainValid, FromSchema, Run, IsProofId;
    if ChainValid(s, proofId, "4", events) && FromSchema(events) {
      var c, appends := ValidIsRun(s, proofId, events);
      assert RunsTo(s, proofId, c, appends, events);
    }
    if Reachable(s, proofId, events) {
      var c, appends :| RunsTo(s, proofId, c, appends, events);
      RunIsValid(s, proofId, c, appends);
    }
  }
}
