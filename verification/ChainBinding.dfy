/** What a version-4 signature fixes: the proof, the position and everything before it. So a chain head
    stands for one chain, and re-linking signed events yields nothing but prefixes. */
module ChainBinding {
  import opened Prelude
  import opened Canonical
  import opened ProofChain
  import opened Authorization
  import opened Verifier
  import opened ProofApi
  import opened ChainFacts
  import opened ProtocolEquivalence

  // ---- what is hashed ----

  datatype Hashed = Record(record: LinkRecord) | Body(payload: Payload)

  /** The link records and payloads hashed while `events` were written or verified. */
  function Hashes(proofId: string, events: seq<Event>): set<Hashed> {
    (set i | 0 <= i < |events| :: Record(Link(proofId, events[i])))
      + (set i | 0 <= i < |events| :: Body(events[i].payload))
  }

  ghost predicate Collide(s: Services, inputs: set<Hashed>, x: Hashed, y: Hashed) {
    x in inputs && y in inputs && x != y &&
    match (x, y)
    case (Record(a), Record(b)) => s.linkDigest(a) == s.linkDigest(b)
    case (Body(a), Body(b)) => s.payloadDigest(a) == s.payloadDigest(b)
    case _ => false
  }

  ghost predicate NoCollision(s: Services, inputs: set<Hashed>) {
    forall x, y :: !Collide(s, inputs, x, y)
  }

  lemma HashedHere(proofId: string, events: seq<Event>, i: nat)
    requires i < |events|
    ensures Record(Link(proofId, events[i])) in Hashes(proofId, events)
    ensures Body(events[i].payload) in Hashes(proofId, events)
  {
  }

  lemma SameLink(s: Services, inputs: set<Hashed>, a: LinkRecord, b: LinkRecord)
    requires NoCollision(s, inputs) && Record(a) in inputs && Record(b) in inputs && s.linkDigest(a) == s.linkDigest(b)
    ensures a == b
  {
    assert !Collide(s, inputs, Record(a), Record(b));
  }

  lemma SamePayload(s: Services, inputs: set<Hashed>, a: Payload, b: Payload)
    requires NoCollision(s, inputs) && Body(a) in inputs && Body(b) in inputs
    requires s.payloadDigest(a) == s.payloadDigest(b)
    ensures a == b
  {
    assert !Collide(s, inputs, Body(a), Body(b));
  }

  // ---- one signed event ----

  /** What a version-4 event after the first signs, recovered from its canonical. */
  lemma SignedContent(s: Services, proofId: string, events: seq<Event>, k: nat)
    requires 0 < k < |events| && AllPass(s, proofId, "4", events)
    ensures ParseEventV4(events[k].canonical)
            == Ok(EventV4(proofId, events[k].kind, events[k].payloadHash, events[k].nonce,
                          EventLink(s, proofId, events[k - 1])))
    ensures events[k].payloadHash == s.payloadDigest(events[k].payload)
    ensures events[k].previousHash == Some(EventLink(s, proofId, events[k - 1]))
    ensures events[k].kind != REQUEST_CREATED
  {
    hide AllPass, SignatureVerifies, NonceStored, PairStored, MayAppend, BuildEventV4, ParseEventV4, EventLink, Priors;
    LaterEventOfChain(s, proofId, "4", events, k);
    var e := events[k];
    assert events[..k][|events[..k]| - 1] == events[k - 1];
    assert FormatOk("4", e) && ExpectedCanonical(proofId, "4", e) == Some(e.canonical);
    EventV4RoundTrip(EventV4(proofId, e.kind, e.payloadHash, e.nonce, SignedPriorHead(e.canonical).value), e.canonical);
  }

  /** The first event's canonical is a request, never an event message. */
  lemma FirstIsARequest(s: Services, proofId: string, events: seq<Event>)
    requires events != [] && AllPass(s, proofId, "4", events)
    ensures events[0].kind == REQUEST_CREATED && events[0].sequence == 1 && events[0].previousHash == None
    ensures events[0].payloadHash == s.payloadDigest(events[0].payload)
    ensures ParseRequest(V4, events[0].canonical).Ok?
    ensures ParseRequest(V4, events[0].canonical).value.nonce == events[0].nonce
    ensures ParseEventV4(events[0].canonical).Err?
  {
    hide AllPass, SignatureVerifies, BoundTo, ParseEventV4, ParseRequest, Priors;
    PassingChainStarts(s, proofId, "4", events);
    var canonical := events[0].canonical;
    if ParseEventV4(canonical).Ok? {
      assert ReadsAs(canonical, EventMessageV4) && ReadsAs(canonical, RequestV4);
      OneReadingOnly(canonical, EventMessageV4, RequestV4);
    }
  }

  /** Two events signing the same head follow the same event. */
  lemma SameHeadSameRecord(s: Services, p: string, a: seq<Event>, i: nat, q: string, b: seq<Event>, j: nat)
    requires i < |a| && j < |b| && EventLink(s, p, a[i]) == EventLink(s, q, b[j])
    requires NoCollision(s, Hashes(p, a) + Hashes(q, b))
    ensures Link(p, a[i]) == Link(q, b[j])
  {
    hide NoCollision, Hashes;
    HashedHere(p, a, i);
    HashedHere(q, b, j);
    SameLink(s, Hashes(p, a) + Hashes(q, b), Link(p, a[i]), Link(q, b[j]));
  }

  lemma SameDigestSamePayload(s: Services, p: string, a: seq<Event>, i: nat, q: string, b: seq<Event>, j: nat)
    requires i < |a| && j < |b| && s.payloadDigest(a[i].payload) == s.payloadDigest(b[j].payload)
    requires NoCollision(s, Hashes(p, a) + Hashes(q, b))
    ensures a[i].payload == b[j].payload
  {
    hide NoCollision, Hashes;
    HashedHere(p, a, i);
    HashedHere(q, b, j);
    SamePayload(s, Hashes(p, a) + Hashes(q, b), a[i].payload, b[j].payload);
  }

  /** Nonce and stored link are functions of what the link record holds. */
  lemma SameRecordSameEvent(s: Services, proofId: string, a: seq<Event>, b: seq<Event>, i: nat)
    requires AllPass(s, proofId, "4", a) && AllPass(s, proofId, "4", b)
    requires i < |a| && i < |b| && Link(proofId, a[i]) == Link(proofId, b[i])
    requires NoCollision(s, Hashes(proofId, a) + Hashes(proofId, b))
    ensures a[i] == b[i]
  {
    hide AllPass, NoCollision, Hashes, ParseEventV4, ParseRequest;
    FirstIsARequest(s, proofId, a);
    FirstIsARequest(s, proofId, b);
    if i > 0 {
      SignedContent(s, proofId, a, i);
      SignedContent(s, proofId, b, i);
    }
    SameDigestSamePayload(s, proofId, a, i, proofId, b, i);
  }

  lemma OneMore(events: seq<Event>, i: nat)
    requires i < |events|
    ensures events[..i + 1] == events[..i] + [events[i]]
  {
  }

  /** Equal events have equal pasts. */
  lemma {:induction false} SameEventSamePast(s: Services, proofId: string, a: seq<Event>, b: seq<Event>, i: nat)
    requires AllPass(s, proofId, "4", a) && AllPass(s, proofId, "4", b)
    requires i < |a| && i < |b| && Link(proofId, a[i]) == Link(proofId, b[i])
    requires NoCollision(s, Hashes(proofId, a) + Hashes(proofId, b))
    ensures a[..i + 1] == b[..i + 1]
    decreases i
  {
    hide *;
    SameRecordSameEvent(s, proofId, a, b, i);
    if i > 0 {
      SignedContent(s, proofId, a, i);
      SignedContent(s, proofId, b, i);
      SameHeadSameRecord(s, proofId, a, i - 1, proofId, b, i - 1);
      SameEventSamePast(s, proofId, a, b, i - 1);
    }
    OneMore(a, i);
    OneMore(b, i);
  }

  /** The part of an event its canonical fixes. */
  predicate SignedTheSame(a: Event, b: Event) {
    a.kind == b.kind && a.payload == b.payload && a.payloadHash == b.payloadHash && a.canonical == b.canonical
    && a.nonce == b.nonce && a.sequence == b.sequence && a.previousHash == b.previousHash
  }

  lemma SameFields(a: Event, b: Event)
    requires a.kind == b.kind && a.payload == b.payload && a.payloadHash == b.payloadHash && a.canonical == b.canonical
    requires a.nonce == b.nonce && a.sequence == b.sequence && a.previousHash == b.previousHash
    ensures SignedTheSame(a, b)
  {
  }

  lemma SameRecordSamePlace(p: string, a: Event, q: string, b: Event)
    ensures Link(p, a) == Link(q, b) ==> p == q && a.sequence == b.sequence
  {
  }

  /** One signed event pins its past. A message signed after the first event occurs in chains of one proof
      only, at one position, after one history, and with one content. */
  lemma SignedEventPinsItsPast(s: Services, p: string, a: seq<Event>, i: nat, q: string, b: seq<Event>, j: nat)
    requires AllPass(s, p, "4", a) && AllPass(s, q, "4", b)
    requires 0 < i < |a| && j < |b| && a[i].canonical == b[j].canonical
    requires NoCollision(s, Hashes(p, a) + Hashes(q, b))
    ensures p == q && i == j && a[..i] == b[..i] && SignedTheSame(a[i], b[i])
  {
    hide *;
    SignedContent(s, p, a, i);
    FirstIsARequest(s, q, b);
    SignedContent(s, q, b, j);
    SameHeadSameRecord(s, p, a, i - 1, q, b, j - 1);
    SequencesCount(s, p, "4", a, i - 1);
    SequencesCount(s, q, "4", b, j - 1);
    SameRecordSamePlace(p, a[i - 1], q, b[j - 1]);
    SameEventSamePast(s, p, a, b, i - 1);
    SequencesCount(s, p, "4", a, i);
    SequencesCount(s, q, "4", b, j);
    SameDigestSamePayload(s, p, a, i, q, b, j);
    SameFields(a[i], b[j]);
  }

  /** The same, with the collision in hand when it fails. */
  lemma SignedEventPinsItsPastOrCollision(s: Services, p: string, a: seq<Event>, i: nat, q: string, b: seq<Event>,
      j: nat)
    returns (collision: Option<(Hashed, Hashed)>)
    requires AllPass(s, p, "4", a) && AllPass(s, q, "4", b)
    requires 0 < i < |a| && j < |b| && a[i].canonical == b[j].canonical
    ensures collision.None? ==> p == q && i == j && a[..i] == b[..i] && SignedTheSame(a[i], b[i])
    ensures collision.Some? ==> Collide(s, Hashes(p, a) + Hashes(q, b), collision.value.0, collision.value.1)
  {
    hide AllPass, Hashes, Collide, SignedTheSame;
    if x, y :| Collide(s, Hashes(p, a) + Hashes(q, b), x, y) {
      return Some((x, y));
    }
    SignedEventPinsItsPast(s, p, a, i, q, b, j);
    return None;
  }

  // ---- chain heads ----

  /** A head published for one chain is the head of no other: what --expect-head relies on. */
  lemma EqualHeadsEqualChains(s: Services, p: string, a: seq<Event>, q: string, b: seq<Event>)
    requires AllPass(s, p, "4", a) && AllPass(s, q, "4", b)
    requires ChainHead(s, p, a) == ChainHead(s, q, b)
    requires NoCollision(s, Hashes(p, a) + Hashes(q, b))
    ensures a == b && (a != [] ==> p == q)
  {
    hide AllPass, NoCollision, Hashes;
    if a != [] {
      var i, j := |a| - 1, |b| - 1;
      SameHeadSameRecord(s, p, a, i, q, b, j);
      SequencesCount(s, p, "4", a, i);
      SequencesCount(s, q, "4", b, j);
      SameEventSamePast(s, p, a, b, i);
    }
  }

  lemma EqualHeadsEqualChainsOrCollision(s: Services, p: string, a: seq<Event>, q: string, b: seq<Event>)
    returns (collision: Option<(Hashed, Hashed)>)
    requires AllPass(s, p, "4", a) && AllPass(s, q, "4", b)
    requires ChainHead(s, p, a) == ChainHead(s, q, b)
    ensures collision.None? ==> a == b && (a != [] ==> p == q)
    ensures collision.Some? ==> Collide(s, Hashes(p, a) + Hashes(q, b), collision.value.0, collision.value.1)
  {
    hide AllPass, Hashes, Collide, ChainHead;
    if x, y :| Collide(s, Hashes(p, a) + Hashes(q, b), x, y) {
      return Some((x, y));
    }
    EqualHeadsEqualChains(s, p, a, q, b);
    return None;
  }

  // ---- re-linking ----

  /** `b` selects events of `a` in any order, any number of times, with sequence and link rewritten at will. */
  predicate Relinked(a: seq<Event>, b: seq<Event>, source: seq<nat>) {
    && |source| == |b|
    && forall k :: 0 <= k < |b| ==>
         source[k] < |a| && b[k] == a[source[k]].(sequence := b[k].sequence, previousHash := b[k].previousHash)
  }

  lemma RelinkedEventStays(s: Services, proofId: string, a: seq<Event>, b: seq<Event>, source: seq<nat>, k: nat)
    requires AllPass(s, proofId, "4", a) && AllPass(s, proofId, "4", b) && Relinked(a, b, source) && k < |b|
    requires NoCollision(s, Hashes(proofId, a) + Hashes(proofId, b))
    ensures source[k] == k && k < |a| && b[k] == a[k]
  {
    hide AllPass, NoCollision, Hashes, ParseRequest, ParseEventV4;
    var i := source[k];
    FirstIsARequest(s, proofId, a);
    FirstIsARequest(s, proofId, b);
    if i == 0 {
      if k > 0 {
        SignedContent(s, proofId, b, k);
      }
    } else {
      SignedContent(s, proofId, a, i);
      SignedEventPinsItsPast(s, proofId, a, i, proofId, b, k);
    }
  }

  /** The exact limit of re-linking: what passes is a prefix, and a prefix that claims to be closed is whole. */
  lemma RelinkingLimit(s: Services, proofId: string, a: seq<Event>, b: seq<Event>, source: seq<nat>)
    requires ChainValid(s, proofId, "4", a) && Relinked(a, b, source)
    requires NoCollision(s, Hashes(proofId, a) + Hashes(proofId, b))
    ensures AllPass(s, proofId, "4", b) <==> b <= a
    ensures AllPass(s, proofId, "4", b) && IsClosed(b) ==> b == a
  {
    hide AllPass, NoCollision, Hashes, Relinked, Closing;
    if AllPass(s, proofId, "4", b) {
      if b != [] {
        RelinkedEventStays(s, proofId, a, b, source, |b| - 1);
      }
      forall k | 0 <= k < |b|
        ensures b[k] == a[k]
      {
        RelinkedEventStays(s, proofId, a, b, source, k);
      }
    }
    if b <= a {
      AllPassTake(s, proofId, "4", a, |b|);
      assert a[..|b|] == b;
    }
  }

  lemma RelinkingLimitOrCollision(s: Services, proofId: string, a: seq<Event>, b: seq<Event>, source: seq<nat>)
    returns (collision: Option<(Hashed, Hashed)>)
    requires ChainValid(s, proofId, "4", a) && Relinked(a, b, source)
    ensures b <= a ==> AllPass(s, proofId, "4", b)
    ensures collision.None? ==> (AllPass(s, proofId, "4", b) <==> b <= a)
    ensures collision.None? && AllPass(s, proofId, "4", b) && IsClosed(b) ==> b == a
    ensures collision.Some? ==>
            Collide(s, Hashes(proofId, a) + Hashes(proofId, b), collision.value.0, collision.value.1)
  {
    hide AllPass, Hashes, Collide, Relinked, IsClosed, PositionOk;
    if b <= a {
      AllPassTake(s, proofId, "4", a, |b|);
      assert a[..|b|] == b;
    }
    if x, y :| Collide(s, Hashes(proofId, a) + Hashes(proofId, b), x, y) {
      return Some((x, y));
    }
    RelinkingLimit(s, proofId, a, b, source);
    return None;
  }

  // ---- resubmission ----

  /** A request id already in use gives its proof back to the identical request and to no other, whether it was
      taken before the call or while it ran. */
  lemma OnlyTheSameRequestGetsItsProof(
      s: Services, proofs: map<string, Proof>, byRequest: map<string, string>, proofId: string,
      r: SignedRequest, eventId: string, createdAt: string, again: SignedRequest)
    requires again.requestId in byRequest && byRequest[again.requestId] == proofId
    requires CreatedFrom(s, proofs, proofId, r, eventId, createdAt)
    requires NoCollision(s, RequestHashes(r, again))
    ensures Resubmitted(s, proofs, byRequest, again) == Ok(proofId) <==> again == r
    ensures Raced(s, proofs, byRequest, again) == Resubmitted(s, proofs, byRequest, again)
  {
    hide RequestPayload, NoCollision;
    if s.payloadDigest(RequestPayload(r)) == s.payloadDigest(RequestPayload(again)) {
      SamePayload(s, RequestHashes(r, again), RequestPayload(r), RequestPayload(again));
      RequestPayloadInjective(r, again);
    }
  }

  /** The proof's first row is the one create_proof writes for `r`. */
  predicate CreatedFrom(s: Services, proofs: map<string, Proof>, proofId: string, r: SignedRequest, eventId: string,
      createdAt: string) {
    && proofId in proofs && proofs[proofId].events != []
    && proofs[proofId].events[0] == CreateEvent(s, proofId, [], RequestDraft(r), eventId, createdAt)
  }

  function RequestHashes(r: SignedRequest, again: SignedRequest): set<Hashed> {
    {Body(RequestPayload(r)), Body(RequestPayload(again))}
  }

  /** The same, with the collision in hand when it fails. */
  lemma OnlyTheSameRequestGetsItsProofOrCollision(
      s: Services, proofs: map<string, Proof>, byRequest: map<string, string>, proofId: string,
      r: SignedRequest, eventId: string, createdAt: string, again: SignedRequest)
    returns (collision: Option<(Hashed, Hashed)>)
    requires again.requestId in byRequest && byRequest[again.requestId] == proofId
    requires CreatedFrom(s, proofs, proofId, r, eventId, createdAt)
    ensures collision.None? ==> (Resubmitted(s, proofs, byRequest, again) == Ok(proofId) <==> again == r)
    ensures collision.Some? ==> Collide(s, RequestHashes(r, again), collision.value.0, collision.value.1)
  {
    hide CreatedFrom, RequestHashes, Collide, Resubmitted, Raced;
    if x, y :| Collide(s, RequestHashes(r, again), x, y) {
      return Some((x, y));
    }
    OnlyTheSameRequestGetsItsProof(s, proofs, byRequest, proofId, r, eventId, createdAt, again);
    return None;
  }

  lemma RequestPayloadInjective(a: SignedRequest, b: SignedRequest)
    requires RequestPayload(a) == RequestPayload(b)
    ensures a == b
  {
    RequestPayloadFields(a);
    RequestPayloadFields(b);
    OtherPayloadFields(a);
    OtherPayloadFields(b);
  }

  lemma OtherPayloadFields(r: SignedRequest)
    ensures Field(RequestPayload(r), "request_id") == Some(Text(r.requestId))
    ensures Field(RequestPayload(r), "created_at") == Some(Text(r.createdAt))
  {
    assert "text"[0] == 't' && "from_did"[0] == 'f' && "signature"[0] == 's';
    assert "request_id"[0] == 'r' && "created_at"[0] == 'c';
  }
}
