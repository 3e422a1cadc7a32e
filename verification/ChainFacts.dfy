/** What a chain that passes every check looks like, event by event, without the verifier's pass. */
module ChainFacts {
  import opened Prelude
  import opened Canonical
  import opened ProofChain
  import opened Authorization
  import opened Verifier
  import opened ProofApi

  function Nonces(events: seq<Event>): set<string> {
    set i | 0 <= i < |events| :: events[i].nonce
  }

  function Pairs(events: seq<Event>): set<(string, string)> {
    set i | 0 <= i < |events| :: (events[i].canonical, events[i].signature)
  }

  /** What the pass carries after events that all passed. */
  function CleanContext(version: string, events: seq<Event>): Context {
    Context(
      |events| + 1,
      if events == [] then None else Some(events[|events| - 1]),
      Priors(events),
      if IsTagged(version) then Nonces(events) else {},
      if IsTagged(version) then {} else Pairs(events))
  }

  /** `e` passes after `events`. */
  predicate Extends(s: Services, proofId: string, version: string, events: seq<Event>, e: Event) {
    Passes(CheckEvent(s, proofId, version, CleanContext(version, events), e))
  }

  lemma {:induction false} ContextTake(s: Services, proofId: string, version: string, events: seq<Event>, m: nat,
      k: nat)
    requires k <= m <= |events|
    ensures ContextAt(s, proofId, version, events[..m], k) == ContextAt(s, proofId, version, events, k)
  {
    hide Advance;
    if k > 0 {
      ContextTake(s, proofId, version, events, m, k - 1);
    }
  }

  lemma AllPassTake(s: Services, proofId: string, version: string, events: seq<Event>, m: nat)
    requires m <= |events| && AllPass(s, proofId, version, events)
    ensures AllPass(s, proofId, version, events[..m])
  {
    hide CheckEvent, Passes, ContextAt;
    forall k | 0 <= k < m
      ensures Passes(CheckAt(s, proofId, version, events[..m], k))
    {
      ContextTake(s, proofId, version, events, m, k);
      assert Passes(CheckAt(s, proofId, version, events, k));
    }
  }

  /** One passing event turns a clean context into the next clean context. */
  lemma CleanStep(s: Services, proofId: string, version: string, events: seq<Event>, e: Event)
    requires Extends(s, proofId, version, events, e)
    ensures Advance(s, proofId, version, CleanContext(version, events), e) == CleanContext(version, events + [e])
  {
    hide CanonicalOk, SignatureVerifies, RequestBinding, AuthorizationOf, SignedNonce, ReplayOk, Nonces, Pairs,
         IsTagged;
    var longer := events + [e];
    assert Priors(longer) == Priors(events) + [AsPrior(e)];
    assert Nonces(longer) == Nonces(events) + {e.nonce} by {
      SetSnocNonce(events, e);
    }
    assert Pairs(longer) == Pairs(events) + {(e.canonical, e.signature)} by {
      SetSnocPair(events, e);
    }
  }

  lemma SetSnocNonce(events: seq<Event>, e: Event)
    ensures Nonces(events + [e]) == Nonces(events) + {e.nonce}
  {
    var longer := events + [e];
    forall n | n in Nonces(events) + {e.nonce}
      ensures n in Nonces(longer)
    {
      if n in Nonces(events) {
        var i :| 0 <= i < |events| && events[i].nonce == n;
        assert longer[i].nonce == n;
      } else {
        assert longer[|events|].nonce == n;
      }
    }
  }

  lemma SetSnocPair(events: seq<Event>, e: Event)
    ensures Pairs(events + [e]) == Pairs(events) + {(e.canonical, e.signature)}
  {
    var longer := events + [e];
    forall p | p in Pairs(events) + {(e.canonical, e.signature)}
      ensures p in Pairs(longer)
    {
      if p in Pairs(events) {
        var i :| 0 <= i < |events| && (events[i].canonical, events[i].signature) == p;
        assert (longer[i].canonical, longer[i].signature) == p;
      } else {
        assert (longer[|events|].canonical, longer[|events|].signature) == p;
      }
    }
  }

  lemma {:induction false} PassingContext(s: Services, proofId: string, version: string, events: seq<Event>)
    requires AllPass(s, proofId, version, events)
    ensures ContextAt(s, proofId, version, events, |events|) == CleanContext(version, events)
    decreases |events|
  {
    hide CheckEvent, Passes, Advance, AllPass;
    if events == [] {
      assert Priors(events) == [];
    } else {
      var n := |events| - 1;
      var before, e := events[..n], events[n];
      assert events == before + [e];
      AllPassTake(s, proofId, version, events, n);
      PassingContext(s, proofId, version, before);
      ContextTake(s, proofId, version, events, n, n);
      LastPasses(s, proofId, version, events);
      CleanStep(s, proofId, version, before, e);
    }
  }

  lemma LastPasses(s: Services, proofId: string, version: string, events: seq<Event>)
    requires events != [] && AllPass(s, proofId, version, events)
    ensures var n := |events| - 1;
            Passes(CheckEvent(s, proofId, version, ContextAt(s, proofId, version, events, n), events[n]))
  {
    hide CheckEvent, Passes, ContextAt;
    assert Passes(CheckAt(s, proofId, version, events, |events| - 1));
  }

  /** A chain passes exactly when its prefix passes and its last event extends that prefix. */
  lemma AllPassSnoc(s: Services, proofId: string, version: string, events: seq<Event>, e: Event)
    ensures AllPass(s, proofId, version, events + [e]) <==>
            AllPass(s, proofId, version, events) && Extends(s, proofId, version, events, e)
  {
    hide CheckEvent, Passes, ContextAt, CleanContext;
    var longer, n := events + [e], |events|;
    assert longer[..n] == events;
    if AllPass(s, proofId, version, longer) {
      AllPassTake(s, proofId, version, longer, n);
    }
    if AllPass(s, proofId, version, events) {
      PassingContext(s, proofId, version, events);
      forall k | 0 <= k <= n
        ensures ContextAt(s, proofId, version, longer, k) == ContextAt(s, proofId, version, events, k)
      {
        ContextTake(s, proofId, version, longer, n, k);
      }
      if AllPass(s, proofId, version, longer) {
        assert Passes(CheckAt(s, proofId, version, longer, n));
      }
      if Extends(s, proofId, version, events, e) {
        forall k | 0 <= k < |longer|
          ensures Passes(CheckAt(s, proofId, version, longer, k))
        {
          if k < n {
            assert Passes(CheckAt(s, proofId, version, events, k));
          }
        }
      }
    }
  }

  /** In a passing chain, event `k` extends the events before it. */
  lemma EventExtends(s: Services, proofId: string, version: string, events: seq<Event>, k: nat)
    requires k < |events| && AllPass(s, proofId, version, events)
    ensures AllPass(s, proofId, version, events[..k])
    ensures Extends(s, proofId, version, events[..k], events[k])
  {
    hide AllPass, Extends;
    assert events[..k + 1] == events[..k] + [events[k]];
    AllPassTake(s, proofId, version, events, k + 1);
    AllPassSnoc(s, proofId, version, events[..k], events[k]);
  }

  // ---- the first event ----

  predicate ExtendsEmpty(s: Services, version: string, e: Event) {
    && e.kind == REQUEST_CREATED
    && e.sequence == 1 && e.previousHash == None
    && e.payloadHash == s.payloadDigest(e.payload)
    && e.canonical != "" && SignatureField(e.payload, "canonical") == Some(Text(e.canonical))
    && SignatureVerifies(s, e.actor, e.canonical, e.signature)
    && RequestBinding(version, e)
    && FormatOk(version, e)
  }

  lemma FirstEventMeaning(s: Services, proofId: string, version: string, e: Event)
    ensures Extends(s, proofId, version, [], e) <==> ExtendsEmpty(s, version, e)
  {
    hide SignatureVerifies, RequestBinding, SignedNonce, ExpectedCanonical;
    assert Priors([]) == [];
    assert Nonces([]) == {} && Pairs([]) == {};
  }

  // ---- every later event ----

  predicate ExtendsLater(s: Services, proofId: string, version: string, events: seq<Event>, e: Event) {
    && e.kind != REQUEST_CREATED
    && e.sequence == |events| + 1
    && e.previousHash == ChainHead(s, proofId, events)
    && e.payloadHash == s.payloadDigest(e.payload)
    && ExpectedCanonical(proofId, version, e) == Some(e.canonical)
    && SignatureVerifies(s, e.actor, e.canonical, e.signature)
    && FormatOk(version, e)
    && (if IsTagged(version) then !NonceStored(events, e.nonce) else !PairStored(events, e.canonical, e.signature))
    && (IsV4(version) ==> SignedPriorHead(e.canonical) == e.previousHash)
    && MayAppend(s, Priors(events), e.actor, e.kind, e.payload)
  }

  lemma StoredMeansMember(events: seq<Event>, nonce: string, canonical: string, signature: string)
    ensures NonceStored(events, nonce) <==> nonce in Nonces(events)
    ensures PairStored(events, canonical, signature) <==> (canonical, signature) in Pairs(events)
  {
  }

  lemma RequestNeverAppended(s: Services, prior: seq<Prior>, actor: string, payload: Payload)
    ensures !AuthorizeEvent(s, prior, actor, REQUEST_CREATED, payload).allowed
    ensures AuthorizeEvent(s, prior, actor, REQUEST_CREATED, payload).reason != None
  {
  }

  lemma ReasonMeansRefused(s: Services, prior: seq<Prior>, actor: string, kind: string, payload: Payload)
    ensures AuthorizeEvent(s, prior, actor, kind, payload).allowed <==>
            AuthorizeEvent(s, prior, actor, kind, payload).reason == None
  {
    hide DelegatesFieldError, DelegatesOf;
  }

  lemma LaterEventMeaning(s: Services, proofId: string, version: string, events: seq<Event>, e: Event)
    requires events != [] && IsSupported(version)
    ensures Extends(s, proofId, version, events, e) <==> ExtendsLater(s, proofId, version, events, e)
  {
    hide SignatureVerifies, RequestBinding, SignedNonce, ExpectedCanonical, AuthorizeEvent, CheckSingleResult, Nonces,
         Pairs,
         NonceStored, PairStored, SignedPriorHead, IsSupported, Closing;
    StoredMeansMember(events, e.nonce, e.canonical, e.signature);
    RequestNeverAppended(s, Priors(events), e.actor, e.payload);
    ReasonMeansRefused(s, Priors(events), e.actor, e.kind, e.payload);
  }

  // ---- the whole chain ----

  /** Every passing chain starts with its only request.created, which names the creator. */
  lemma PassingChainStarts(s: Services, proofId: string, version: string, events: seq<Event>)
    requires events != [] && AllPass(s, proofId, version, events)
    ensures ExtendsEmpty(s, version, events[0])
    ensures CreatorOf(Priors(events)) == Some(events[0].actor)
  {
    hide AllPass, Extends, SignatureVerifies, RequestBinding, FormatOk;
    EventExtends(s, proofId, version, events, 0);
    assert events[..0] == [];
    FirstEventMeaning(s, proofId, version, events[0]);
    SignerNotEmpty(s, events[0]);
  }

  lemma SignerNotEmpty(s: Services, e: Event)
    requires SignatureVerifies(s, e.actor, e.canonical, e.signature)
    ensures e.actor != "" && e.signature != ""
  {
    assert DID_PREFIX <= e.actor;
  }

  lemma LaterEventOfChain(s: Services, proofId: string, version: string, events: seq<Event>, k: nat)
    requires 0 < k < |events| && AllPass(s, proofId, version, events) && IsSupported(version)
    ensures ExtendsLater(s, proofId, version, events[..k], events[k])
  {
    hide AllPass, Extends, ExtendsLater, IsSupported;
    EventExtends(s, proofId, version, events, k);
    LaterEventMeaning(s, proofId, version, events[..k], events[k]);
  }

  lemma SequencesCount(s: Services, proofId: string, version: string, events: seq<Event>, k: nat)
    requires k < |events| && AllPass(s, proofId, version, events)
    ensures events[k].sequence == k + 1
    ensures events[k].previousHash == ChainHead(s, proofId, events[..k])
    ensures events[k].payloadHash == s.payloadDigest(events[k].payload)
  {
    hide AllPass, CanonicalOk, SignatureVerifies, RequestBinding, FormatOk, ReplayOk, AuthorizationOf;
    EventExtends(s, proofId, version, events, k);
  }

  /** Replay: no nonce is signed twice in a tagged chain, no (canonical, signature) pair occurs twice in an
      untagged one. */
  lemma NoReplay(s: Services, proofId: string, version: string, events: seq<Event>, i: nat, j: nat)
    requires i < j < |events| && AllPass(s, proofId, version, events) && IsSupported(version)
    ensures if IsTagged(version) then events[i].nonce != events[j].nonce
            else (events[i].canonical, events[i].signature) != (events[j].canonical, events[j].signature)
  {
    hide AllPass, SignatureVerifies, ExpectedCanonical, FormatOk, MayAppend, SignedPriorHead, IsSupported;
    LaterEventOfChain(s, proofId, version, events, j);
    assert events[..j][i] == events[i];
  }

  /** Versions 1 and 2 have no tags, so an event's canonical also splits like a request's; the room rule keeps
      it from being one. */
  lemma LegacyEventIsNotARequest(proofId: string, kind: string, payloadHash: string, e: Event)
    requires IsProofId(proofId) && e.canonical == LegacyCanonical(proofId, kind, payloadHash)
    ensures !LegacyBinding(e)
  {
    hide BoundTo, IsProofId;
    HexIsPlain(proofId);
    JoinThree(proofId, kind, payloadHash);
    var canonical := e.canonical;
    assert canonical[..|proofId|] == proofId && canonical[|proofId|] == '|';
    FirstSeparatorIs(canonical, |proofId|);
  }
}
