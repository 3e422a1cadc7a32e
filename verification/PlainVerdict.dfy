/** What the offline verifier reports, flag by flag and as a whole, in plain terms. */
module PlainVerdict {
  import opened Prelude
  import opened Canonical
  import opened ProofChain
  import opened Authorization
  import opened Verifier
  import opened ProofApi
  import opened ChainFacts
  import opened PlainRules

  predicate Known(version: string) {
    version == "1" || version == "2" || version == "3" || version == "4"
  }

  // ---- the parts of one event ----

  /** `key` of the signature object inside a request's payload. */
  predicate Signature(payload: Payload, key: string, value: string) {
    && "signature" in payload && payload["signature"].Object?
    && key in payload["signature"].fields && payload["signature"].fields[key] == Text(value)
  }

  predicate Repeats(e: Event, nonce: string, text: string) {
    && Signature(e.payload, "nonce", nonce) && Signature(e.payload, "sig", e.signature)
    && "text" in e.payload && e.payload["text"] == Text(text)
    && "from_did" in e.payload && e.payload["from_did"] == Text(e.actor)
  }

  predicate BindsTagged(version: string, e: Event, room: string, nonce: string, text: string) {
    IsRequest(version, e.canonical, room, nonce, text) && Repeats(e, nonce, text)
  }

  predicate BindsLegacy(e: Event, room: string, nonce: string, text: string) {
    IsLegacyRequest(e.canonical, room, nonce, text) && Repeats(e, nonce, text)
  }

  ghost predicate Binds(version: string, e: Event) {
    if version == "3" || version == "4" then exists room, nonce, text :: BindsTagged(version, e, room, nonce, text)
    else exists room, nonce, text :: BindsLegacy(e, room, nonce, text)
  }

  /** The nonce a tagged message signs. */
  ghost predicate Signs(version: string, kind: string, c: string, nonce: string) {
    if kind == "request.created" then exists room, text :: IsRequest(version, c, room, nonce, text)
    else if version == "4" then exists proofId, k, hash, head :: IsEventV4(c, proofId, k, hash, nonce, head)
    else exists proofId, k, hash :: IsEventV3(c, proofId, k, hash, nonce)
  }

  /** The head a version-4 message signs. */
  ghost predicate SignsHead(c: string, head: string) {
    exists proofId, kind, hash, nonce :: IsEventV4(c, proofId, kind, hash, nonce, head)
  }

  /** The message an event of this proof carries. */
  ghost predicate IsMessage(proofId: string, version: string, e: Event) {
    if e.kind == "request.created" then e.canonical != "" && Signature(e.payload, "canonical", e.canonical)
    else if version == "4" then
      exists head :: IsEventV4(e.canonical, proofId, e.kind, e.payloadHash, e.nonce, head)
    else if version == "3" then IsEventV3(e.canonical, proofId, e.kind, e.payloadHash, e.nonce)
    else e.canonical == proofId + "|" + e.kind + "|" + e.payloadHash
  }

  ghost predicate HasFormat(version: string, e: Event) {
    if version == "3" || version == "4" then Signs(version, e.kind, e.canonical, e.nonce)
    else !("FLOP/" <= e.canonical)
  }

  lemma BindsExactly(version: string, e: Event)
    ensures RequestBinding(version, e) <==> Binds(version, e)
  {
    hide ParseRequest, IsRequest, Split, IsLegacyRequest, IsProofId, FormatOf;
    if IsTagged(version) {
      var parsed := ParseRequest(FormatOf(version), e.canonical);
      forall room, nonce, text
        ensures parsed == Ok(Request(room, nonce, text)) <==> IsRequest(version, e.canonical, room, nonce, text)
      {
        RequestExactly(version, e.canonical, room, nonce, text);
      }
      if RequestBinding(version, e) {
        var r := parsed.value;
        assert parsed == Ok(Request(r.room, r.nonce, r.text));
        assert BindsTagged(version, e, r.room, r.nonce, r.text);
      }
    } else {
      var parts := Split(e.canonical, 2);
      forall room, nonce, text
        ensures IsLegacyRequest(e.canonical, room, nonce, text) <==>
                parts == [room, nonce, text] && room != "" && !IsProofId(room)
      {
        LegacyRequestExactly(e.canonical, room, nonce, text);
      }
      if RequestBinding(version, e) {
        assert parts == [parts[0], parts[1], parts[2]];
        assert BindsLegacy(e, parts[0], parts[1], parts[2]);
      }
    }
  }

  lemma SignsExactly(version: string, kind: string, c: string, nonce: string)
    requires version == "3" || version == "4"
    ensures SignedNonce(version, kind, c) == Some(nonce) <==> Signs(version, kind, c, nonce)
  {
    hide ParseRequest, ParseEventV4, ParseEventV3, IsRequest, IsEventV4, IsEventV3, FormatOf;
    if kind == "request.created" {
      forall room, text
        ensures ParseRequest(FormatOf(version), c) == Ok(Request(room, nonce, text)) <==>
                IsRequest(version, c, room, nonce, text)
      {
        RequestExactly(version, c, room, nonce, text);
      }
    } else if version == "4" {
      forall proofId, k, hash, head
        ensures ParseEventV4(c) == Ok(EventV4(proofId, k, hash, nonce, head)) <==>
                IsEventV4(c, proofId, k, hash, nonce, head)
      {
        EventV4Exactly(c, proofId, k, hash, nonce, head);
      }
    } else {
      forall proofId, k, hash
        ensures ParseEventV3(c) == Ok(EventV3(proofId, k, hash, nonce)) <==> IsEventV3(c, proofId, k, hash, nonce)
      {
        EventV3Exactly(c, proofId, k, hash, nonce);
      }
    }
  }

  lemma SignsHeadExactly(c: string, head: string)
    ensures SignedPriorHead(c) == Some(head) <==> SignsHead(c, head)
  {
    hide ParseEventV4, IsEventV4;
    forall proofId, kind, hash, nonce
      ensures ParseEventV4(c) == Ok(EventV4(proofId, kind, hash, nonce, head)) <==>
              IsEventV4(c, proofId, kind, hash, nonce, head)
    {
      EventV4Exactly(c, proofId, kind, hash, nonce, head);
    }
  }

  lemma MessageExactly(proofId: string, version: string, e: Event)
    requires Known(version)
    ensures CanonicalOk(proofId, version, e) <==> IsMessage(proofId, version, e)
  {
    hide BuildEventV4, BuildEventV3, ParseEventV4, IsEventV4, IsEventV3, Join;
    if e.kind == REQUEST_CREATED {
    } else if version == "4" {
      forall head
        ensures IsEventV4(e.canonical, proofId, e.kind, e.payloadHash, e.nonce, head) ==>
                ParseEventV4(e.canonical) == Ok(EventV4(proofId, e.kind, e.payloadHash, e.nonce, head))
        ensures BuildEventV4(EventV4(proofId, e.kind, e.payloadHash, e.nonce, head)) == Ok(e.canonical) <==>
                IsEventV4(e.canonical, proofId, e.kind, e.payloadHash, e.nonce, head)
      {
        EventV4Exactly(e.canonical, proofId, e.kind, e.payloadHash, e.nonce, head);
      }
    } else if version == "3" {
      EventV3Exactly(e.canonical, proofId, e.kind, e.payloadHash, e.nonce);
    } else {
      JoinThree(proofId, e.kind, e.payloadHash);
    }
  }

  // ---- what the pass knows at event `k` ----

  ghost predicate SignedEarlier(version: string, events: seq<Event>, k: nat, nonce: string)
    requires k <= |events|
  {
    exists i :: 0 <= i < k && Signs(version, events[i].kind, events[i].canonical, nonce)
  }

  predicate PairEarlier(events: seq<Event>, k: nat, canonical: string, signature: string)
    requires k <= |events|
  {
    exists i :: 0 <= i < k && events[i].canonical == canonical && events[i].signature == signature
  }

  /** The events before `k` whose own evidence holds, flag by flag: only they grant authority. */
  function Trusted(events: seq<Event>, checks: seq<Check>, k: nat): seq<Prior>
    requires k <= |events| && k <= |checks|
  {
    if k == 0 then []
    else
      var e, c, before := events[k - 1], checks[k - 1], Trusted(events, checks, k - 1);
      if && c.signatureValid && c.canonicalValid && c.payloadHashValid && c.formatValid && c.replayValid
         && c.requestBindingValid != Some(false) && c.priorHeadValid != Some(false)
      then before + [Prior(kind := e.kind, actor := e.actor, payload := e.payload, sequence := e.sequence)]
      else before
  }

  lemma {:induction false} TrustedExactly(s: Services, proofId: string, version: string, events: seq<Event>,
      checks: seq<Check>, k: nat)
    requires k <= |events| && k <= |checks|
    requires forall i :: 0 <= i < k ==> checks[i] == CheckAt(s, proofId, version, events, i)
    ensures ContextAt(s, proofId, version, events, k).prior == Trusted(events, checks, k)
  {
    hide CheckEvent, SignedNonce;
    if k > 0 {
      TrustedExactly(s, proofId, version, events, checks, k - 1);
    }
  }

  lemma {:induction false} NoncesExactly(s: Services, proofId: string, version: string, events: seq<Event>, k: nat,
      nonce: string)
    requires k <= |events| && (version == "3" || version == "4")
    ensures nonce in ContextAt(s, proofId, version, events, k).nonces <==> SignedEarlier(version, events, k, nonce)
  {
    hide CheckEvent, SignedNonce, Signs, Grants;
    if k > 0 {
      NoncesExactly(s, proofId, version, events, k - 1, nonce);
      SignsExactly(version, events[k - 1].kind, events[k - 1].canonical, nonce);
    }
  }

  lemma {:induction false} PairsExactly(s: Services, proofId: string, version: string, events: seq<Event>, k: nat,
      canonical: string, signature: string)
    requires k <= |events| && (version == "1" || version == "2")
    ensures (canonical, signature) in ContextAt(s, proofId, version, events, k).pairs <==>
            PairEarlier(events, k, canonical, signature)
  {
    hide CheckEvent, SignedNonce, Grants;
    if k > 0 {
      PairsExactly(s, proofId, version, events, k - 1, canonical, signature);
    }
  }

  lemma {:induction false} PlaceExactly(s: Services, proofId: string, version: string, events: seq<Event>, k: nat)
    requires k <= |events|
    ensures var ctx := ContextAt(s, proofId, version, events, k);
            && ctx.expectedSequence == k + 1
            && ctx.previous == if k == 0 then None else Some(events[k - 1])
  {
    hide CheckEvent, SignedNonce, Grants, IsTagged;
    if k > 0 {
      PlaceExactly(s, proofId, version, events, k - 1);
    }
  }

  // ---- every flag ----

  /** Event `k` stores the digest of the nine fields of the event before it; the first stores nothing. */
  predicate IsLinked(s: Services, proofId: string, events: seq<Event>, k: nat)
    requires k < |events|
  {
    if k == 0 then events[k].previousHash == None
    else
      var before := events[k - 1];
      events[k].previousHash == Some(s.linkDigest(LinkRecord(
        eventId := before.eventId, proofId := proofId, kind := before.kind, actor := before.actor,
        payloadHash := before.payloadHash, canonical := before.canonical, signature := before.signature,
        createdAt := before.createdAt, sequence := before.sequence)))
  }

  ghost predicate IsFresh(version: string, events: seq<Event>, k: nat)
    requires k < |events|
  {
    if version == "3" || version == "4" then
      forall nonce :: Signs(version, events[k].kind, events[k].canonical, nonce) ==>
                        !SignedEarlier(version, events, k, nonce)
    else !PairEarlier(events, k, events[k].canonical, events[k].signature)
  }

  ghost predicate SignsItsPlace(s: Services, proofId: string, events: seq<Event>, k: nat)
    requires k < |events|
  {
    && k > 0 && IsLinked(s, proofId, events, k) && events[k].previousHash.Some?
    && SignsHead(events[k].canonical, events[k].previousHash.value)
  }

  /** What each flag of a report says about its event, in either direction, whatever the chain. */
  ghost predicate FlagsHold(s: Services, proofId: string, version: string, events: seq<Event>, k: nat, c: Check)
    requires k < |events|
  {
    var e := events[k];
    && (c.sequenceValid <==> e.sequence == k + 1)
    && (c.chainValid <==> IsLinked(s, proofId, events, k))
    && (c.payloadHashValid <==> e.payloadHash == s.payloadDigest(e.payload))
    && (c.canonicalValid <==> IsMessage(proofId, version, e))
    && (c.signatureValid <==> SignedBy(s, e.actor, e.canonical, e.signature))
    && c.requestBindingValid == (if e.kind == "request.created" then Some(Binds(version, e)) else None)
    && (c.formatValid <==> HasFormat(version, e))
    && (c.replayValid <==> IsFresh(version, events, k))
    && c.priorHeadValid == (if version == "4" && e.kind != "request.created"
                            then Some(SignsItsPlace(s, proofId, events, k)) else None)
  }

  ghost predicate DecisionHolds(s: Services, events: seq<Event>, k: nat, prior: seq<Prior>, c: Check)
    requires k < |events|
  {
    var e := Prior(kind := events[k].kind, actor := events[k].actor, payload := events[k].payload,
                   sequence := events[k].sequence);
    if k == 0 && e.kind == "request.created" then c.role == Creator && c.authorizationReason == None
    else
      && HasRole(s, prior, e.actor, c.role)
      && (forall reason :: c.authorizationReason == Some(reason) <==> RefusedFor(s, prior, e, reason))
  }

  lemma ReplayExactly(s: Services, proofId: string, version: string, events: seq<Event>, k: nat)
    requires k < |events| && Known(version)
    ensures ReplayOk(version, ContextAt(s, proofId, version, events, k), events[k]) <==> IsFresh(version, events, k)
  {
    hide ContextAt, SignedNonce, Signs, SignedEarlier, PairEarlier;
    var e := events[k];
    if version == "3" || version == "4" {
      forall nonce
        ensures SignedNonce(version, e.kind, e.canonical) == Some(nonce) <==> Signs(version, e.kind, e.canonical, nonce)
        ensures nonce in ContextAt(s, proofId, version, events, k).nonces <==> SignedEarlier(version, events, k, nonce)
      {
        SignsExactly(version, e.kind, e.canonical, nonce);
        NoncesExactly(s, proofId, version, events, k, nonce);
      }
    } else {
      PairsExactly(s, proofId, version, events, k, e.canonical, e.signature);
    }
  }

  lemma FormatExactly(version: string, e: Event)
    ensures FormatOk(version, e) <==> HasFormat(version, e)
  {
    hide SignedNonce, Signs;
    if version == "3" || version == "4" {
      SignsExactly(version, e.kind, e.canonical, e.nonce);
    }
  }

  lemma LinkedExactly(s: Services, proofId: string, version: string, events: seq<Event>, k: nat)
    requires k < |events|
    ensures events[k].previousHash == ExpectedPreviousHash(s, proofId, ContextAt(s, proofId, version, events, k))
            <==> IsLinked(s, proofId, events, k)
  {
    hide ContextAt;
    PlaceExactly(s, proofId, version, events, k);
  }

  lemma PlacedExactly(s: Services, proofId: string, version: string, events: seq<Event>, k: nat)
    requires k < |events|
    ensures (k > 0 && IsLinked(s, proofId, events, k)
             && SignedPriorHead(events[k].canonical).Some?
             && SignedPriorHead(events[k].canonical) == events[k].previousHash) <==>
            SignsItsPlace(s, proofId, events, k)
  {
    hide IsLinked, SignedPriorHead, SignsHead;
    if events[k].previousHash.Some? {
      SignsHeadExactly(events[k].canonical, events[k].previousHash.value);
    }
  }

  lemma FlagsExactly(s: Services, proofId: string, version: string, events: seq<Event>, k: nat)
    requires k < |events| && Known(version)
    ensures FlagsHold(s, proofId, version, events, k, CheckAt(s, proofId, version, events, k))
  {
    hide ContextAt, AuthorizationOf, CanonicalOk, IsMessage, SignatureVerifies, SignedBy, RequestBinding, Binds,
         ReplayOk, IsFresh, FormatOk, HasFormat, SignedPriorHead, ExpectedPreviousHash, IsLinked, SignsItsPlace;
    var e := events[k];
    PlaceExactly(s, proofId, version, events, k);
    MessageExactly(proofId, version, e);
    SignatureExactly(s, e.actor, e.canonical, e.signature);
    BindsExactly(version, e);
    ReplayExactly(s, proofId, version, events, k);
    FormatExactly(version, e);
    LinkedExactly(s, proofId, version, events, k);
    PlacedExactly(s, proofId, version, events, k);
  }

  /** Role and reason, judged by the events before `k` whose own evidence holds. */
  lemma DecisionExactly(s: Services, proofId: string, version: string, events: seq<Event>, checks: seq<Check>, k: nat)
    requires k < |events| && k <= |checks|
    requires forall i :: 0 <= i < k ==> checks[i] == CheckAt(s, proofId, version, events, i)
    ensures DecisionHolds(s, events, k, Trusted(events, checks, k), CheckAt(s, proofId, version, events, k))
  {
    hide ContextAt, SignedNonce, CanonicalOk, SignatureVerifies, RequestBinding, ReplayOk, FormatOk, SignedPriorHead,
         AuthorizeEvent, CheckSingleResult, HasRole, RefusedFor, Trusted;
    var prior, e := Trusted(events, checks, k), AsPrior(events[k]);
    TrustedExactly(s, proofId, version, events, checks, k);
    PlaceExactly(s, proofId, version, events, k);
    RoleExactly(s, prior, e, AuthorizeEvent(s, prior, e.actor, e.kind, e.payload).role);
    forall reason
      ensures var decision := AuthorizeEvent(s, prior, e.actor, e.kind, e.payload);
              (if decision.allowed then CheckSingleResult(prior, e.kind) else decision.reason) == Some(reason) <==>
              RefusedFor(s, prior, e, reason)
    {
      RefusalExactly(s, prior, e, reason);
    }
  }

  // ---- the whole chain ----

  function Earlier(events: seq<Event>, k: nat): seq<Prior>
    requires k <= |events|
  {
    seq(k, i requires 0 <= i < k =>
      Prior(kind := events[i].kind, actor := events[i].actor, payload := events[i].payload,
            sequence := events[i].sequence))
  }

  /** Everything a passing chain asks of its event `k`. */
  ghost predicate Belongs(s: Services, proofId: string, version: string, events: seq<Event>, k: nat)
    requires k < |events|
  {
    var e := events[k];
    && e.sequence == k + 1 && IsLinked(s, proofId, events, k) && e.payloadHash == s.payloadDigest(e.payload)
    && IsMessage(proofId, version, e) && HasFormat(version, e)
    && SignedBy(s, e.actor, e.canonical, e.signature)
    && IsFresh(version, events, k)
    && (if k == 0 then e.kind == "request.created" && Binds(version, e)
        else
          && MayWrite(s, Earlier(events, k),
                      Prior(kind := e.kind, actor := e.actor, payload := e.payload, sequence := e.sequence))
          && (version == "4" ==> SignsItsPlace(s, proofId, events, k)))
  }

  /** Every event belongs, and a closing event is the last one. */
  ghost predicate PlainlyValid(s: Services, proofId: string, version: string, events: seq<Event>) {
    && Known(version) && events != []
    && (forall k :: 0 <= k < |events| ==> Belongs(s, proofId, version, events, k))
    && forall k :: 0 <= k < |events| && (events[k].kind == "proof.completed" || events[k].kind == "proof.failed") ==>
                     k == |events| - 1
  }

  lemma PriorAtPassing(s: Services, proofId: string, version: string, events: seq<Event>, k: nat)
    requires k < |events| && AllPass(s, proofId, version, events[..k])
    ensures ContextAt(s, proofId, version, events, k).prior == Earlier(events, k)
  {
    hide AllPass, ContextAt;
    ContextTake(s, proofId, version, events, k, k);
    PassingContext(s, proofId, version, events[..k]);
    assert Priors(events[..k]) == Earlier(events, k);
  }

  /** The authorization flag of an event whose predecessors all pass. */
  lemma AuthorityAtPassing(s: Services, proofId: string, version: string, events: seq<Event>, k: nat)
    requires k < |events| && AllPass(s, proofId, version, events[..k])
    ensures CheckAt(s, proofId, version, events, k).authorizationReason == None <==>
            (k == 0 && events[k].kind == "request.created") || MayWrite(s, Earlier(events, k), AsPrior(events[k]))
  {
    hide AllPass, ContextAt, CanonicalOk, SignatureVerifies, RequestBinding, ReplayOk, FormatOk, SignedPriorHead,
         AuthorizeEvent, CheckSingleResult, MayWrite, Earlier;
    var e := events[k];
    PriorAtPassing(s, proofId, version, events, k);
    PlaceExactly(s, proofId, version, events, k);
    MayWriteExactly(s, Earlier(events, k), AsPrior(e));
    ReasonMeansRefused(s, Earlier(events, k), e.actor, e.kind, e.payload);
  }

  lemma NeitherEmptyNorRequest(s: Services, prior: seq<Prior>, e: Prior)
    requires MayWrite(s, prior, e)
    ensures prior != [] && e.kind != "request.created"
  {
  }

  /** One step: after events that pass, an event passes exactly when it belongs. */
  lemma PassesExactly(s: Services, proofId: string, version: string, events: seq<Event>, k: nat)
    requires k < |events| && Known(version) && AllPass(s, proofId, version, events[..k])
    ensures Passes(CheckAt(s, proofId, version, events, k)) <==> Belongs(s, proofId, version, events, k)
  {
    hide AllPass, CheckAt, IsLinked, IsMessage, HasFormat, SignedBy, IsFresh, Binds, SignsItsPlace, MayWrite, Earlier;
    FlagsExactly(s, proofId, version, events, k);
    AuthorityAtPassing(s, proofId, version, events, k);
    assert |Earlier(events, k)| == k by { EarlierLength(events, k); }
    if MayWrite(s, Earlier(events, k), AsPrior(events[k])) {
      NeitherEmptyNorRequest(s, Earlier(events, k), AsPrior(events[k]));
    }
  }

  lemma EarlierLength(events: seq<Event>, k: nat)
    requires k <= |events|
    ensures |Earlier(events, k)| == k
  {
  }

  lemma {:induction false} PrefixPasses(s: Services, proofId: string, version: string, events: seq<Event>, n: nat)
    requires n <= |events| && Known(version)
    requires forall k :: 0 <= k < n ==> Belongs(s, proofId, version, events, k)
    ensures AllPass(s, proofId, version, events[..n])
  {
    hide CheckEvent, Belongs, Passes, ContextAt;
    if n > 0 {
      PrefixPasses(s, proofId, version, events, n - 1);
      forall k | 0 <= k < n
        ensures Passes(CheckAt(s, proofId, version, events[..n], k))
      {
        ContextTake(s, proofId, version, events, n, k);
        if k < n - 1 {
          ContextTake(s, proofId, version, events, n - 1, k);
          assert Passes(CheckAt(s, proofId, version, events[..n - 1], k));
        } else {
          PassesExactly(s, proofId, version, events, k);
        }
      }
    }
  }

  lemma AllPassExactly(s: Services, proofId: string, version: string, events: seq<Event>)
    requires Known(version)
    ensures AllPass(s, proofId, version, events) <==>
            forall k :: 0 <= k < |events| ==> Belongs(s, proofId, version, events, k)
  {
    hide CheckAt, Belongs, Passes;
    assert events[..|events|] == events;
    if AllPass(s, proofId, version, events) {
      forall k | 0 <= k < |events|
        ensures Belongs(s, proofId, version, events, k)
      {
        AllPassTake(s, proofId, version, events, k);
        PassesExactly(s, proofId, version, events, k);
      }
    }
    if forall k :: 0 <= k < |events| ==> Belongs(s, proofId, version, events, k) {
      PrefixPasses(s, proofId, version, events, |events|);
    }
  }

  /** The verdict, for any export of any version. */
  lemma ValidExactly(s: Services, proofId: string, version: string, events: seq<Event>)
    ensures ChainValid(s, proofId, version, events) <==> PlainlyValid(s, proofId, version, events)
    ensures IsClosed(events) <==> exists k ::
              0 <= k < |events| && (events[k].kind == "proof.completed" || events[k].kind == "proof.failed")
  {
    hide AllPass, Belongs;
    if Known(version) {
      AllPassExactly(s, proofId, version, events);
    }
  }

  /** One more event, after a chain that passes. */
  lemma ExtendsExactly(s: Services, proofId: string, version: string, events: seq<Event>, e: Event)
    requires Known(version) && AllPass(s, proofId, version, events)
    ensures Extends(s, proofId, version, events, e) <==> Belongs(s, proofId, version, events + [e], |events|)
  {
    hide AllPass, Extends, Belongs, CheckAt, Passes;
    var longer := events + [e];
    assert longer[..|events|] == events;
    PassesExactly(s, proofId, version, longer, |events|);
    AllPassSnoc(s, proofId, version, events, e);
    AllPassLast(s, proofId, version, events, e);
  }

  lemma AllPassLast(s: Services, proofId: string, version: string, events: seq<Event>, e: Event)
    requires AllPass(s, proofId, version, events)
    ensures AllPass(s, proofId, version, events + [e]) <==>
            Passes(CheckAt(s, proofId, version, events + [e], |events|))
  {
    hide CheckEvent, Passes, ContextAt, Extends;
    var longer := events + [e];
    assert longer[..|events|] == events;
    AllPassSnoc(s, proofId, version, events, e);
    PassingContext(s, proofId, version, events);
    ContextTake(s, proofId, version, longer, |events|, |events|);
    assert Extends(s, proofId, version, events, e) <==> Passes(CheckAt(s, proofId, version, longer, |events|)) by {
      LastIsExtension(s, proofId, version, longer, |events|);
    }
  }

  lemma LastIsExtension(s: Services, proofId: string, version: string, events: seq<Event>, k: nat)
    requires k < |events| && ContextAt(s, proofId, version, events, k) == CleanContext(version, events[..k])
    ensures Extends(s, proofId, version, events[..k], events[k]) <==> Passes(CheckAt(s, proofId, version, events, k))
  {
    hide CheckEvent, ContextAt, CleanContext, Passes;
  }
}
