/** Creating proofs and appending events: the unlocked checks, the checks repeated under the write lock,
    and the rows written. */
module ProofApi {
  import opened Prelude
  import opened Canonical
  import opened ProofChain
  import opened Authorization
  import opened Verifier

  datatype Status = Pending | Active | Completed | Failed

  predicate IsFinal(status: Status) {
    status == Completed || status == Failed
  }

  datatype Proof = Proof(version: string, status: Status, requestId: string, events: seq<Event>)

  datatype Reject =
    | Malformed | ProofNotFound | AlreadyClosed | MissingPriorHead | UnexpectedPriorHead | BadField
    | UnsupportedProofVersion | CanonicalMismatch | BadRequestCanonical | BadSignatureEncoding | BadDid
    | InvalidSignature | NotAuthorized(reason: Reason) | NonceUsed | AlreadyRecorded | SecondResult(why: Reason)
    | HeadMismatch | RequestIdOfAnotherRequest | RequestIdOfAnotherActor | CommitFailed

  // ---- writing an event ----

  /** What a caller of create_event supplies. */
  datatype Draft = Draft(
    kind: string, actor: string, payload: Payload, canonical: string, signature: string, nonce: string)

  /** The row create_event adds after `chain`: next sequence number, link hash of the last row. */
  function CreateEvent(s: Services, proofId: string, chain: seq<Event>, d: Draft, eventId: string,
      createdAt: string): Event {
    var sequence := if chain == [] then 1 else chain[|chain| - 1].sequence + 1;
    Event(eventId, d.kind, d.actor, d.payload, s.payloadDigest(d.payload), d.canonical, d.signature, d.nonce,
          createdAt, sequence, ChainHead(s, proofId, chain))
  }

  // ---- creating a proof ----

  datatype SignedRequest = SignedRequest(
    requestId: string, fromDid: string, text: string, createdAt: string, nonce: string, sig: string, canonical: string)

  /** The request as it is stored: the payload of the first event. */
  function RequestPayload(r: SignedRequest): Payload {
    map[
      "request_id" := Text(r.requestId),
      "from_did" := Text(r.fromDid),
      "text" := Text(r.text),
      "created_at" := Text(r.createdAt),
      "signature" := Object(map["nonce" := Text(r.nonce), "sig" := Text(r.sig), "canonical" := Text(r.canonical)])
    ]
  }

  function RequestDraft(r: SignedRequest): Draft {
    Draft(REQUEST_CREATED, r.fromDid, RequestPayload(r), r.canonical, r.sig, r.nonce)
  }

  function CheckRequest(s: Services, r: SignedRequest): Option<Reject> {
    if "" in {r.requestId, r.fromDid, r.text, r.nonce, r.sig, r.canonical} then Some(Malformed)
    else
      match ParseRequest(V4, r.canonical)
      case Err(_) => Some(BadRequestCanonical)
      case Ok(signed) =>
        if !ValidSignatureText(r.sig) then Some(BadSignatureEncoding)
        else if !ValidDid(s, r.fromDid) then Some(BadDid)
        else if signed.nonce != r.nonce || signed.text != r.text then Some(InvalidSignature)
        else if !SignatureVerifies(s, r.fromDid, r.canonical, r.sig) then Some(InvalidSignature)
        else None
  }

  function NewProof(s: Services, proofId: string, r: SignedRequest, eventId: string, createdAt: string): Proof {
    Proof("4", Pending, r.requestId, [CreateEvent(s, proofId, [], RequestDraft(r), eventId, createdAt)])
  }

  // ---- appending an event ----

  datatype Submission = Submission(
    kind: string, actor: string, payload: Payload,
    nonce: string, sig: string, canonical: string, priorHead: Option<string>)

  /** The canonical a submission to this proof must carry, or why there is none. */
  function RequiredCanonical(s: Services, proofId: string, version: string, sub: Submission): Result<string, Reject> {
    var payloadHash := s.payloadDigest(sub.payload);
    if IsV4(version) then
      if sub.priorHead.None? then Err(MissingPriorHead)
      else
        match BuildEventV4(EventV4(proofId, sub.kind, payloadHash, sub.nonce, sub.priorHead.value))
        case Ok(c) => Ok(c)
        case Err(_) => Err(BadField)
    else if sub.priorHead.Some? && IsSupported(version) then Err(UnexpectedPriorHead)
    else if IsTagged(version) then
      match BuildEventV3(EventV3(proofId, sub.kind, payloadHash, sub.nonce))
      case Ok(c) => Ok(c)
      case Err(_) => Err(BadField)
    else if IsLegacy(version) then Ok(LegacyCanonical(proofId, sub.kind, payloadHash))
    else Err(UnsupportedProofVersion)
  }

  /** The request schema: no field is empty. */
  predicate WellFormed(sub: Submission) {
    sub.kind != "" && sub.actor != "" && sub.nonce != "" && sub.sig != "" && sub.canonical != ""
  }

  /** The first phase, outside the lock; `status` may be out of date by the time the second one runs. */
  function Precheck(s: Services, proofId: string, version: string, status: Status, sub: Submission): Option<Reject> {
    if !WellFormed(sub) then Some(Malformed)
    else if IsFinal(status) then Some(AlreadyClosed)
    else
      match RequiredCanonical(s, proofId, version, sub)
      case Err(e) => Some(e)
      case Ok(required) =>
        if sub.canonical != required || (IsLegacy(version) && TAG_PREFIX <= sub.canonical) then Some(CanonicalMismatch)
        else if !ValidSignatureText(sub.sig) then Some(BadSignatureEncoding)
        else if !ValidDid(s, sub.actor) then Some(BadDid)
        else if !SignatureVerifies(s, sub.actor, sub.canonical, sub.sig) then Some(InvalidSignature)
        else None
  }

  function Priors(events: seq<Event>): (prior: seq<Prior>)
    ensures |prior| == |events| && forall i :: 0 <= i < |prior| ==> prior[i] == AsPrior(events[i])
  {
    seq(|events|, i requires 0 <= i < |events| => AsPrior(events[i]))
  }

  predicate NonceStored(events: seq<Event>, nonce: string) {
    exists i :: 0 <= i < |events| && events[i].nonce == nonce
  }

  predicate PairStored(events: seq<Event>, canonical: string, signature: string) {
    exists i :: 0 <= i < |events| && events[i].canonical == canonical && events[i].signature == signature
  }

  /** The second phase, under the lock, against the proof as it is now. */
  function LockedCheck(s: Services, proofId: string, proof: Proof, sub: Submission): Option<Reject> {
    if IsFinal(proof.status) then Some(AlreadyClosed)
    else
      var prior := Priors(proof.events);
      var decision := AuthorizeEvent(s, prior, sub.actor, sub.kind, sub.payload);
      var secondResult := CheckSingleResult(prior, sub.kind);
      if !decision.allowed then
        Some(NotAuthorized(if decision.reason.Some? then decision.reason.value else NotDelegated))
      else if NonceStored(proof.events, sub.nonce) then Some(NonceUsed)
      else if IsLegacy(proof.version) && PairStored(proof.events, sub.canonical, sub.sig) then Some(AlreadyRecorded)
      else if secondResult.Some? then Some(SecondResult(secondResult.value))
      else if IsV4(proof.version) && sub.priorHead != ChainHead(s, proofId, proof.events) then Some(HeadMismatch)
      else None
  }

  function EventDraft(sub: Submission): Draft {
    Draft(sub.kind, sub.actor, sub.payload, sub.canonical, sub.sig, sub.nonce)
  }

  function StatusAfter(status: Status, kind: string): Status {
    if kind == PROOF_COMPLETED then Completed
    else if kind == PROOF_FAILED then Failed
    else if status == Pending then Active
    else status
  }

  function WithEvent(s: Services, proofId: string, proof: Proof, sub: Submission, eventId: string,
      createdAt: string): Proof {
    proof.(
      events := proof.events + [CreateEvent(s, proofId, proof.events, EventDraft(sub), eventId, createdAt)],
      status := StatusAfter(proof.status, sub.kind))
  }

  /** One append with nobody else writing: both phases see the same proof. */
  function Append(s: Services, proofId: string, proof: Proof, sub: Submission, eventId: string,
      createdAt: string): Result<Proof, Reject> {
    match Precheck(s, proofId, proof.version, proof.status, sub)
    case Some(e) => Err(e)
    case None =>
      match LockedCheck(s, proofId, proof, sub)
      case Some(e) => Err(e)
      case None => Ok(WithEvent(s, proofId, proof, sub, eventId, createdAt))
  }

  // ---- the database ----

  /** The proof rows and the unique index over their request ids. */
  class Database {
    var proofs: map<string, Proof>
    var byRequest: map<string, string>

    constructor ()
      ensures proofs == map[] && byRequest == map[]
    {
      proofs := map[];
      byRequest := map[];
    }

    /** `proofId`, `eventId` and `createdAt` are the fresh identifiers and the clock the call would draw. */
    method CreateProof(s: Services, r: SignedRequest, proofId: string, eventId: string, createdAt: string)
      returns (result: Result<string, Reject>)
      requires proofId !in proofs
      modifies this
      ensures CheckRequest(s, r).Some? ==>
              result == Err(CheckRequest(s, r).value) && proofs == old(proofs) && byRequest == old(byRequest)
      ensures CheckRequest(s, r).None? && r.requestId in old(byRequest) ==>
              && result == Resubmitted(s, old(proofs), old(byRequest), r)
              && proofs == old(proofs) && byRequest == old(byRequest)
      ensures CheckRequest(s, r).None? && r.requestId !in old(byRequest) ==>
              && result == Ok(proofId)
              && proofs == old(proofs)[proofId := NewProof(s, proofId, r, eventId, createdAt)]
              && byRequest == old(byRequest)[r.requestId := proofId]
    {
      hide ParseRequest, SignatureVerifies, ValidSignatureText, ValidDid, CreateEvent, RequestDraft, Resubmitted, Raced;
      if r.requestId == "" || r.fromDid == "" || r.text == "" || r.nonce == "" || r.sig == "" || r.canonical == "" {
        return Err(Malformed);
      }
      var signed := ParseRequest(V4, r.canonical);
      if signed.Err? {
        return Err(BadRequestCanonical);
      }
      if !ValidSignatureText(r.sig) {
        return Err(BadSignatureEncoding);
      }
      if !ValidDid(s, r.fromDid) {
        return Err(BadDid);
      }
      var valid := && signed.value.nonce == r.nonce && signed.value.text == r.text
                   && SignatureVerifies(s, r.fromDid, r.canonical, r.sig);
      if !valid {
        return Err(InvalidSignature);
      }
      if r.requestId in byRequest {
        return Resubmitted(s, proofs, byRequest, r);
      }
      result := CommitCreation(s, r, proofId, eventId, createdAt);
    }

    /** The write of a checked request. Another writer may have taken the request id since it was looked up; then
        the commit fails, nothing is written, and the answer is read from the proof that won. */
    method CommitCreation(s: Services, r: SignedRequest, proofId: string, eventId: string, createdAt: string)
      returns (result: Result<string, Reject>)
      requires proofId !in proofs
      modifies this
      ensures r.requestId in old(byRequest) ==>
              result == Raced(s, old(proofs), old(byRequest), r) && proofs == old(proofs) && byRequest == old(byRequest)
      ensures r.requestId !in old(byRequest) ==>
              && result == Ok(proofId)
              && proofs == old(proofs)[proofId := NewProof(s, proofId, r, eventId, createdAt)]
              && byRequest == old(byRequest)[r.requestId := proofId]
    {
      hide CreateEvent, RequestDraft, Raced;
      var proofsBefore, byRequestBefore := proofs, byRequest;
      proofs := proofs[proofId := Proof("4", Pending, r.requestId, [])];
      AddEvent(s, proofId, RequestDraft(r), eventId, createdAt);
      if r.requestId in byRequest {
        proofs, byRequest := proofsBefore, byRequestBefore;
        return Raced(s, proofs, byRequest, r);
      }
      byRequest := byRequest[r.requestId := proofId];
      var row := CreateEvent(s, proofId, [], RequestDraft(r), eventId, createdAt);
      assert proofs[proofId].events == [row];
      assert proofs == old(proofs)[proofId := NewProof(s, proofId, r, eventId, createdAt)];
      return Ok(proofId);
    }

    /** create_event: allocate the next sequence number, link to the last row, add the row. */
    method AddEvent(s: Services, proofId: string, d: Draft, eventId: string, createdAt: string)
      requires proofId in proofs
      modifies this`proofs
      ensures proofs == old(proofs)[proofId := old(proofs)[proofId].(
                events := old(proofs)[proofId].events
                  + [CreateEvent(s, proofId, old(proofs)[proofId].events, d, eventId, createdAt)])]
    {
      var proof := proofs[proofId];
      var lastSequence, previousHash := 0, None;
      if proof.events != [] {
        var last := proof.events[|proof.events| - 1];
        lastSequence := last.sequence;
        previousHash := Some(EventLink(s, proofId, last));
      }
      var row := Event(eventId, d.kind, d.actor, d.payload, s.payloadDigest(d.payload),
                       d.canonical, d.signature, d.nonce, createdAt, lastSequence + 1, previousHash);
      proofs := proofs[proofId := proof.(events := proof.events + [row])];
    }

    /** The locked half of append_event, for a submission that passed the unlocked half. */
    method AppendLocked(s: Services, proofId: string, sub: Submission, eventId: string, createdAt: string)
      returns (result: Result<Event, Reject>)
      requires proofId in proofs
      modifies this`proofs
      ensures LockedCheck(s, proofId, old(proofs)[proofId], sub).Some? ==>
              result == Err(LockedCheck(s, proofId, old(proofs)[proofId], sub).value) && proofs == old(proofs)
      ensures LockedCheck(s, proofId, old(proofs)[proofId], sub).None? ==>
              && proofs == old(proofs)[proofId := WithEvent(s, proofId, old(proofs)[proofId], sub, eventId, createdAt)]
              && result == Ok(CreateEvent(s, proofId, old(proofs)[proofId].events, EventDraft(sub), eventId, createdAt))
    {
      hide AuthorizeEvent, CheckSingleResult, NonceStored, PairStored, ChainHead, Priors, CreateEvent, EventDraft;
      var before := proofs[proofId];
      if before.status == Completed || before.status == Failed {
        return Err(AlreadyClosed);
      }
      var prior := Priors(before.events);
      var decision := AuthorizeEvent(s, prior, sub.actor, sub.kind, sub.payload);
      if !decision.allowed {
        return Err(NotAuthorized(if decision.reason.Some? then decision.reason.value else NotDelegated));
      }
      if NonceStored(before.events, sub.nonce) {
        return Err(NonceUsed);
      }
      if IsLegacy(before.version) && PairStored(before.events, sub.canonical, sub.sig) {
        return Err(AlreadyRecorded);
      }
      var secondResult := CheckSingleResult(prior, sub.kind);
      if secondResult.Some? {
        return Err(SecondResult(secondResult.value));
      }
      if IsV4(before.version) && sub.priorHead != ChainHead(s, proofId, before.events) {
        return Err(HeadMismatch);
      }
      AddEvent(s, proofId, EventDraft(sub), eventId, createdAt);
      var proof := proofs[proofId];
      if proof.status == Pending {
        proof := proof.(status := Active);
      }
      if sub.kind == PROOF_COMPLETED {
        proof := proof.(status := Completed);
      } else if sub.kind == PROOF_FAILED {
        proof := proof.(status := Failed);
      }
      proofs := proofs[proofId := proof];
      return Ok(proof.events[|proof.events| - 1]);
    }

    method AppendEvent(s: Services, proofId: string, sub: Submission, eventId: string, createdAt: string)
      returns (result: Result<Event, Reject>)
      modifies this`proofs
      ensures proofId !in old(proofs) ==>
              result == Err(if WellFormed(sub) then ProofNotFound else Malformed) && proofs == old(proofs)
      ensures proofId in old(proofs) ==>
              match Append(s, proofId, old(proofs)[proofId], sub, eventId, createdAt)
              case Err(e) => result == Err(e) && proofs == old(proofs)
              case Ok(proof) =>
                result == Ok(proof.events[|proof.events| - 1]) && proofs == old(proofs)[proofId := proof]
    {
      hide RequiredCanonical, SignatureVerifies, ValidSignatureText, ValidDid, LockedCheck, CreateEvent, EventDraft;
      if sub.kind == "" || sub.actor == "" || sub.nonce == "" || sub.sig == "" || sub.canonical == "" {
        return Err(Malformed);
      }
      if proofId !in proofs {
        return Err(ProofNotFound);
      }
      var proof := proofs[proofId];
      if proof.status == Completed || proof.status == Failed {
        return Err(AlreadyClosed);
      }
      var expected := RequiredCanonical(s, proofId, proof.version, sub);
      if expected.Err? {
        return Err(expected.error);
      }
      if sub.canonical != expected.value || (IsLegacy(proof.version) && TAG_PREFIX <= sub.canonical) {
        return Err(CanonicalMismatch);
      }
      if !ValidSignatureText(sub.sig) {
        return Err(BadSignatureEncoding);
      }
      if !ValidDid(s, sub.actor) {
        return Err(BadDid);
      }
      if !SignatureVerifies(s, sub.actor, sub.canonical, sub.sig) {
        return Err(InvalidSignature);
      }
      result := AppendLocked(s, proofId, sub, eventId, createdAt);
    }
  }

  /** A request id that is already taken: the same request gets its proof back, anything else is refused. */
  function Resubmitted(s: Services, proofs: map<string, Proof>, byRequest: map<string, string>,
      r: SignedRequest): Result<string, Reject>
    requires r.requestId in byRequest
  {
    var proofId := byRequest[r.requestId];
    if proofId !in proofs || proofs[proofId].events == [] then Err(RequestIdOfAnotherActor)
    else
      var first := proofs[proofId].events[0];
      if first.kind != REQUEST_CREATED || first.actor != r.fromDid then Err(RequestIdOfAnotherActor)
      else if first.payloadHash != s.payloadDigest(RequestPayload(r)) then Err(RequestIdOfAnotherRequest)
      else Ok(proofId)
  }

  /** The answer after a lost race for the request id. Finding no winner, or a winner without its request, is not
      answered: the commit error stands. */
  function Raced(s: Services, proofs: map<string, Proof>, byRequest: map<string, string>,
      r: SignedRequest): Result<string, Reject>
    requires r.requestId in byRequest
  {
    var proofId := byRequest[r.requestId];
    if proofId !in proofs || proofs[proofId].events == [] || proofs[proofId].events[0].kind != REQUEST_CREATED then
      Err(CommitFailed)
    else
      var first := proofs[proofId].events[0];
      if first.actor != r.fromDid then Err(RequestIdOfAnotherActor)
      else if first.payloadHash != s.payloadDigest(RequestPayload(r)) then Err(RequestIdOfAnotherRequest)
      else Ok(proofId)
  }
}
