/** When the API accepts a request or an event, and what it then writes, in plain terms. */
module PlainAppend {
  import opened Prelude
  import opened Canonical
  import opened ProofChain
  import opened Authorization
  import opened Verifier
  import opened ProofApi
  import opened ProtocolEquivalence
  import opened PlainRules
  import opened PlainVerdict

  // ---- requests ----

  ghost predicate Acceptable(s: Services, r: SignedRequest) {
    && r.requestId != "" && r.fromDid != "" && r.text != "" && r.nonce != "" && r.sig != "" && r.canonical != ""
    && (exists room :: IsRequest("4", r.canonical, room, r.nonce, r.text))
    && SignedBy(s, r.fromDid, r.canonical, r.sig)
  }

  lemma RequestAcceptedExactly(s: Services, r: SignedRequest)
    ensures CheckRequest(s, r).None? <==> Acceptable(s, r)
  {
    hide CheckRequest, ParseRequest, IsRequest, SignatureVerifies, SignedBy;
    CheckRequestMeaning(s, r);
    SignatureExactly(s, r.fromDid, r.canonical, r.sig);
    forall room
      ensures ParseRequest(V4, r.canonical) == Ok(Request(room, r.nonce, r.text)) <==>
              IsRequest("4", r.canonical, room, r.nonce, r.text)
    {
      RequestExactly("4", r.canonical, room, r.nonce, r.text);
    }
  }

  /** The proof a request starts: its one row repeats the request, field by field. */
  lemma NewProofExactly(s: Services, proofId: string, r: SignedRequest, eventId: string, createdAt: string)
    ensures var payload: Payload := map[
              "request_id" := Text(r.requestId), "from_did" := Text(r.fromDid), "text" := Text(r.text),
              "created_at" := Text(r.createdAt),
              "signature" :=
                Object(map["nonce" := Text(r.nonce), "sig" := Text(r.sig), "canonical" := Text(r.canonical)])];
            NewProof(s, proofId, r, eventId, createdAt) == Proof(
              version := "4", status := Pending, requestId := r.requestId,
              events := [Event(eventId := eventId, kind := "request.created", actor := r.fromDid, payload := payload,
                               payloadHash := s.payloadDigest(payload), canonical := r.canonical, signature := r.sig,
                               nonce := r.nonce, createdAt := createdAt, sequence := 1, previousHash := None)])
  {
  }

  /** The proof an id was used for still has its request. */
  predicate HasRequest(proofs: map<string, Proof>, proofId: string) {
    proofId in proofs && proofs[proofId].events != [] && proofs[proofId].events[0].kind == "request.created"
  }

  /** The answers to a used request id: before the write, and after a race for it is lost. */
  lemma UsedIdExactly(s: Services, proofs: map<string, Proof>, byRequest: map<string, string>, r: SignedRequest)
    requires r.requestId in byRequest
    ensures var proofId := byRequest[r.requestId];
            var before, lost := Resubmitted(s, proofs, byRequest, r), Raced(s, proofs, byRequest, r);
            if !HasRequest(proofs, proofId) then before == Err(RequestIdOfAnotherActor) && lost == Err(CommitFailed)
            else
              var first := proofs[proofId].events[0];
              before == lost == if first.actor != r.fromDid then Err(RequestIdOfAnotherActor)
                                else if first.payloadHash != s.payloadDigest(RequestPayload(r))
                                then Err(RequestIdOfAnotherRequest)
                                else Ok(proofId)
  {
    hide RequestPayload;
  }

  // ---- events, before the lock ----

  /** The message a submission must carry, by the version of its proof. */
  predicate CarriesMessage(s: Services, proofId: string, version: string, sub: Submission) {
    var hash := s.payloadDigest(sub.payload);
    if version == "4" then
      sub.priorHead.Some? && IsEventV4(sub.canonical, proofId, sub.kind, hash, sub.nonce, sub.priorHead.value)
    else if version == "3" then
      sub.priorHead.None? && IsEventV3(sub.canonical, proofId, sub.kind, hash, sub.nonce)
    else
      && (version == "1" || version == "2") && sub.priorHead.None?
      && sub.canonical == proofId + "|" + sub.kind + "|" + hash && !("FLOP/" <= sub.canonical)
  }

  ghost predicate Submittable(s: Services, proofId: string, version: string, status: Status, sub: Submission) {
    && sub.kind != "" && sub.actor != "" && sub.nonce != "" && sub.sig != "" && sub.canonical != ""
    && status != Completed && status != Failed
    && CarriesMessage(s, proofId, version, sub)
    && SignedBy(s, sub.actor, sub.canonical, sub.sig)
  }

  /** The API's rule for the message: what it builds, and that an untagged message is not tagged. */
  predicate MessageAsRequired(s: Services, proofId: string, version: string, sub: Submission) {
    && RequiredCanonical(s, proofId, version, sub) == Ok(sub.canonical)
    && !(IsLegacy(version) && TAG_PREFIX <= sub.canonical)
  }

  lemma VersionsApart()
    ensures "3" != "4" && IsV4("4") && !IsV4("3") && IsTagged("3") && IsTagged("4") && !IsLegacy("3") && !IsLegacy("4")
    ensures IsSupported("3") && IsSupported("4")
  {
    assert "3"[0] == '3' && "4"[0] == '4' && "1"[0] == '1' && "2"[0] == '2';
  }

  lemma MessageV4(s: Services, proofId: string, sub: Submission)
    ensures MessageAsRequired(s, proofId, "4", sub) <==> CarriesMessage(s, proofId, "4", sub)
  {
    hide BuildEventV4, IsEventV4, BuildEventV3, IsEventV3, LegacyCanonical, IsV4, IsTagged, IsLegacy, IsSupported;
    VersionsApart();
    if sub.priorHead.Some? {
      EventV4Exactly(sub.canonical, proofId, sub.kind, s.payloadDigest(sub.payload), sub.nonce, sub.priorHead.value);
    }
  }

  lemma MessageV3(s: Services, proofId: string, sub: Submission)
    ensures MessageAsRequired(s, proofId, "3", sub) <==> CarriesMessage(s, proofId, "3", sub)
  {
    hide BuildEventV4, IsEventV4, BuildEventV3, IsEventV3, LegacyCanonical, IsV4, IsTagged, IsLegacy, IsSupported;
    VersionsApart();
    EventV3Exactly(sub.canonical, proofId, sub.kind, s.payloadDigest(sub.payload), sub.nonce);
  }

  lemma MessageLegacy(s: Services, proofId: string, version: string, sub: Submission)
    requires version != "3" && version != "4"
    ensures MessageAsRequired(s, proofId, version, sub) <==> CarriesMessage(s, proofId, version, sub)
  {
    hide BuildEventV4, IsEventV4, BuildEventV3, IsEventV3, Join;
    JoinThree(proofId, sub.kind, s.payloadDigest(sub.payload));
  }

  lemma MessageExactlyRequired(s: Services, proofId: string, version: string, sub: Submission)
    ensures MessageAsRequired(s, proofId, version, sub) <==> CarriesMessage(s, proofId, version, sub)
  {
    hide MessageAsRequired, CarriesMessage;
    MessageV4(s, proofId, sub);
    MessageV3(s, proofId, sub);
    if version != "3" && version != "4" {
      MessageLegacy(s, proofId, version, sub);
    }
  }

  /** Why there is no message to carry, when there is none. */
  lemma NoMessageExactly(s: Services, proofId: string, version: string, sub: Submission)
    ensures var required, legacy := RequiredCanonical(s, proofId, version, sub), version == "1" || version == "2";
            && (required == Err(MissingPriorHead) <==> version == "4" && sub.priorHead.None?)
            && (required == Err(UnexpectedPriorHead) <==> (legacy || version == "3") && sub.priorHead.Some?)
            && (required == Err(UnsupportedProofVersion) <==> !legacy && version != "3" && version != "4")
            && (required == Err(BadField) <==>
                && (if version == "4" then sub.priorHead.Some? else version == "3" && sub.priorHead.None?)
                && !(IsProofId(proofId) && FieldOk(sub.kind) && FieldOk(sub.nonce)
                     && (version == "4" ==> IsHash(sub.priorHead.value))))
            && (required.Err? ==>
                  required.error in {MissingPriorHead, UnexpectedPriorHead, UnsupportedProofVersion, BadField})
  {
    hide BuildEventV4, BuildEventV3, IsProofId, FieldOk, IsHash, LegacyCanonical;
    var hash := s.payloadDigest(sub.payload);
    assert IsHash(hash);
    if sub.priorHead.Some? {
      EventV4Layout(EventV4(proofId, sub.kind, hash, sub.nonce, sub.priorHead.value));
    }
    EventV3Layout(EventV3(proofId, sub.kind, hash, sub.nonce));
  }

  lemma PrecheckExactly(s: Services, proofId: string, version: string, status: Status, sub: Submission)
    ensures Precheck(s, proofId, version, status, sub).None? <==> Submittable(s, proofId, version, status, sub)
  {
    hide RequiredCanonical, CarriesMessage, SignatureVerifies, SignedBy, ValidSignatureText, ValidDid;
    MessageExactlyRequired(s, proofId, version, sub);
    SignatureExactly(s, sub.actor, sub.canonical, sub.sig);
    SignatureParts(s, sub.actor, sub.canonical, sub.sig);
  }

  // ---- events, under the lock ----

  ghost predicate Appendable(s: Services, proofId: string, proof: Proof, sub: Submission) {
    && proof.status != Completed && proof.status != Failed
    && MayWrite(s, Earlier(proof.events, |proof.events|),
                Prior(kind := sub.kind, actor := sub.actor, payload := sub.payload, sequence := |proof.events| + 1))
    && (forall i :: 0 <= i < |proof.events| ==> proof.events[i].nonce != sub.nonce)
    && (proof.version == "1" || proof.version == "2" ==>
          forall i :: 0 <= i < |proof.events| ==>
                        !(proof.events[i].canonical == sub.canonical && proof.events[i].signature == sub.sig))
    && (proof.version == "4" ==> sub.priorHead == HeadRecord(s, proofId, proof.events))
  }

  /** The digest of the nine fields of the last event, if there is one. */
  function HeadRecord(s: Services, proofId: string, events: seq<Event>): Option<string> {
    if events == [] then None
    else
      var last := events[|events| - 1];
      Some(s.linkDigest(LinkRecord(
        eventId := last.eventId, proofId := proofId, kind := last.kind, actor := last.actor,
        payloadHash := last.payloadHash, canonical := last.canonical, signature := last.signature,
        createdAt := last.createdAt, sequence := last.sequence)))
  }

  lemma LockedExactly(s: Services, proofId: string, proof: Proof, sub: Submission)
    ensures LockedCheck(s, proofId, proof, sub).None? <==> Appendable(s, proofId, proof, sub)
  {
    hide LockedCheck, MayAppend, MayWrite, ChainHead, Earlier, Priors;
    var prior := Earlier(proof.events, |proof.events|);
    var e := Prior(sub.kind, sub.actor, sub.payload, |proof.events| + 1);
    LockedCheckMeaning(s, proofId, proof, sub);
    assert prior == Priors(proof.events) by { AllEarlier(proof.events); }
    MayWriteExactly(s, prior, e);
    LinkExactly(s, proofId, proof.events);
  }

  lemma AllEarlier(events: seq<Event>)
    ensures Earlier(events, |events|) == Priors(events)
  {
  }

  // ---- the row and the status ----

  /** The row an accepted event becomes, and the status it leaves. */
  function Written(s: Services, proofId: string, proof: Proof, sub: Submission, eventId: string,
      createdAt: string): Proof {
    var n := |proof.events|;
    var row := Event(
      eventId := eventId, kind := sub.kind, actor := sub.actor, payload := sub.payload,
      payloadHash := s.payloadDigest(sub.payload), canonical := sub.canonical, signature := sub.sig,
      nonce := sub.nonce, createdAt := createdAt,
      sequence := if n == 0 then 1 else proof.events[n - 1].sequence + 1,
      previousHash := HeadRecord(s, proofId, proof.events));
    Proof(
      version := proof.version, requestId := proof.requestId, events := proof.events + [row],
      status := if sub.kind == "proof.completed" then Completed else if sub.kind == "proof.failed" then Failed
                else if proof.status == Completed then Completed else if proof.status == Failed then Failed else Active)
  }

  lemma WrittenExactly(s: Services, proofId: string, proof: Proof, sub: Submission, eventId: string, createdAt: string)
    ensures WithEvent(s, proofId, proof, sub, eventId, createdAt)
            == Written(s, proofId, proof, sub, eventId, createdAt)
  {
    hide ChainHead, EventLink;
    LinkExactly(s, proofId, proof.events);
  }

  /** append_event with nobody else writing: when it accepts, and what it writes. */
  lemma AppendExactly(s: Services, proofId: string, proof: Proof, sub: Submission, eventId: string, createdAt: string)
    ensures Append(s, proofId, proof, sub, eventId, createdAt).Ok? <==>
            Submittable(s, proofId, proof.version, proof.status, sub) && Appendable(s, proofId, proof, sub)
    ensures Append(s, proofId, proof, sub, eventId, createdAt).Ok? ==>
            Append(s, proofId, proof, sub, eventId, createdAt).value
            == Written(s, proofId, proof, sub, eventId, createdAt)
  {
    hide Precheck, LockedCheck, Submittable, Appendable, WithEvent, Written;
    PrecheckExactly(s, proofId, proof.version, proof.status, sub);
    LockedExactly(s, proofId, proof, sub);
    WrittenExactly(s, proofId, proof, sub, eventId, createdAt);
  }
}
