/** Proof events, their link hashes and the services they depend on. */
module ProofChain {
  import opened Prelude
  import opened Canonical
  import SignatureText

  datatype Json =
    | Null
    | Bool(b: bool)
    | Number(literal: string)
    | Text(text: string)
    | List(items: seq<Json>)
    | Object(fields: map<string, Json>)

  /** A payload is a JSON object. */
  type Payload = map<string, Json>

  function Field(payload: Payload, key: string): Option<Json> {
    if key in payload then Some(payload[key]) else None
  }

  const REQUEST_CREATED: string := "request.created"
  const TASK_DELEGATED: string := "task.delegated"
  const RESULT_CREATED: string := "result.created"
  const PROOF_COMPLETED: string := "proof.completed"
  const PROOF_FAILED: string := "proof.failed"

  predicate Closing(kind: string) {
    kind == PROOF_COMPLETED || kind == PROOF_FAILED
  }

  lemma KindsDiffer()
    ensures !Closing(REQUEST_CREATED) && !Closing(TASK_DELEGATED) && !Closing(RESULT_CREATED)
    ensures REQUEST_CREATED != TASK_DELEGATED && REQUEST_CREATED != RESULT_CREATED && TASK_DELEGATED != RESULT_CREATED
    ensures PROOF_COMPLETED != PROOF_FAILED
  {
    assert REQUEST_CREATED[0] == 'r' && TASK_DELEGATED[0] == 't' && PROOF_COMPLETED[0] == 'p' && PROOF_FAILED[0] == 'p';
    assert RESULT_CREATED[0] == 'r' && RESULT_CREATED[2] == 's' && REQUEST_CREATED[2] == 'q';
    assert |PROOF_COMPLETED| != |PROOF_FAILED|;
  }

  datatype Event = Event(
    eventId: string,
    kind: string,
    actor: string,
    payload: Payload,
    payloadHash: string,
    canonical: string,
    signature: string,
    nonce: string,
    createdAt: string,
    sequence: int,
    previousHash: Option<string>)

  /** The nine fields a link hash covers. */
  datatype LinkRecord = LinkRecord(
    eventId: string,
    proofId: string,
    kind: string,
    actor: string,
    payloadHash: string,
    canonical: string,
    signature: string,
    createdAt: string,
    sequence: int)

  function Link(proofId: string, e: Event): LinkRecord {
    LinkRecord(e.eventId, proofId, e.kind, e.actor, e.payloadHash, e.canonical, e.signature, e.createdAt, e.sequence)
  }

  function ZeroHash(): (hash: string)
    ensures IsHash(hash)
  {
    seq(64, _ => '0')
  }

  type HexDigest = s: string | IsHash(s) witness ZeroHash()

  /** SHA-256 of the JSON dump of a payload and of a link record, which DIDs resolve to a usable key, and
      Ed25519 verification of (DID, message, signature bytes). Any such functions. */
  datatype Services = Services(
    payloadDigest: Payload -> HexDigest,
    linkDigest: LinkRecord -> HexDigest,
    resolves: string -> bool,
    ed25519: (string, string, Bytes) -> bool)

  const DID_PREFIX: string := "did:key:z"

  predicate ValidDid(s: Services, did: string) {
    DID_PREFIX <= did && s.resolves(did)
  }

  predicate ValidSignatureText(signature: string) {
    SignatureText.Decode(signature).Ok?
  }

  /** A DID that does not resolve raises in the source; both callers treat that as not valid. */
  predicate SignatureVerifies(s: Services, did: string, canonical: string, signature: string) {
    ValidDid(s, did) && ValidSignatureText(signature)
      && s.ed25519(did, canonical, SignatureText.Decode(signature).value)
  }

  function EventLink(s: Services, proofId: string, e: Event): (hash: string)
    ensures IsHash(hash)
  {
    s.linkDigest(Link(proofId, e))
  }

  /** The link hash of the last event, which the next event stores and, in version 4, signs. */
  function ChainHead(s: Services, proofId: string, events: seq<Event>): Option<string> {
    if events == [] then None else Some(EventLink(s, proofId, events[|events| - 1]))
  }

  // ---- what a verified signature is ----

  /** Some 64 bytes that Ed25519 accepts for this DID and message, written as one of their two texts, under a DID
      that resolves. */
  ghost predicate SignedBy(s: Services, did: string, message: string, signature: string) {
    "did:key:z" <= did && s.resolves(did) && exists b :: SignatureBytes(s, did, message, signature, b)
  }

  ghost predicate SignatureBytes(s: Services, did: string, message: string, signature: string, b: Bytes) {
    && |b| == 64 && s.ed25519(did, message, b)
    && (signature == SignatureText.Encode(b) || signature == SignatureText.Encode(b) + "==")
  }

  lemma SignatureExactly(s: Services, did: string, message: string, signature: string)
    ensures SignatureVerifies(s, did, message, signature) <==> SignedBy(s, did, message, signature)
    ensures ValidDid(s, did) <==> "did:key:z" <= did && s.resolves(did)
    ensures ValidSignatureText(signature) <==>
            exists b: Bytes | |b| == 64 ::
              signature == SignatureText.Encode(b) || signature == SignatureText.Encode(b) + "=="
  {
    if ValidSignatureText(signature) {
      var b := SignatureText.Decode(signature).value;
      SignatureText.ExactlyTwoTexts(b, signature);
      assert SignatureVerifies(s, did, message, signature) ==> SignatureBytes(s, did, message, signature, b);
    }
    forall b: Bytes | |b| == 64
                      && (signature == SignatureText.Encode(b) || signature == SignatureText.Encode(b) + "==")
      ensures SignatureText.Decode(signature) == Result<Bytes, SignatureText.SignatureError>.Ok(b)
    {
      SignatureText.ExactlyTwoTexts(b, signature);
    }
  }

  /** The link hash covers these nine fields, each under its own name. */
  lemma LinkExactly(s: Services, proofId: string, events: seq<Event>)
    ensures events == [] ==> ChainHead(s, proofId, events) == None
    ensures events != [] ==>
            var last := events[|events| - 1];
            ChainHead(s, proofId, events) == Some(s.linkDigest(LinkRecord(
              eventId := last.eventId, proofId := proofId, kind := last.kind, actor := last.actor,
              payloadHash := last.payloadHash, canonical := last.canonical, signature := last.signature,
              createdAt := last.createdAt, sequence := last.sequence)))
  {
  }
}
