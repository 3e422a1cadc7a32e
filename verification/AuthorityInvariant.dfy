/** Who acts in a chain that passes, or that the API produced: the creator and those the creator named first. */
module AuthorityInvariant {
  import opened Prelude
  import opened ProofChain
  import opened Authorization
  import opened Verifier
  import opened ProofApi
  import opened ChainFacts
  import opened ProtocolEquivalence

  // ---- what being a delegate means ----

  /** Event `j` is a well-formed delegation by the creator that names `did`. */
  predicate Names(s: Services, prior: seq<Prior>, j: nat, did: string)
    requires 0 < j < |prior|
  {
    && prior[j].kind == TASK_DELEGATED && prior[j].actor == prior[0].actor
    && DelegatesFieldError(s, prior[j].payload).None? && did in Named(prior[j].payload)
  }

  predicate NamedBefore(s: Services, prior: seq<Prior>, n: nat, did: string)
    requires n <= |prior|
  {
    exists j :: 0 < j < n && Names(s, prior, j, did)
  }

  lemma {:induction false} GrantedMeansNamed(s: Services, prior: seq<Prior>, n: nat, did: string)
    requires CreatorOf(prior).Some? && n <= |prior|
    ensures did in GrantedUpTo(s, prior[0].actor, prior, n) <==> NamedBefore(s, prior, n, did)
  {
    hide DelegatesFieldError, Named;
    if n > 1 {
      GrantedMeansNamed(s, prior, n - 1, did);
      if did in Granted(s, prior[0].actor, prior[n - 1]) {
        assert Names(s, prior, n - 1, did);
      }
    }
  }

  /** The accumulated delegate set, said without accumulating. */
  lemma DelegatesAreNamed(s: Services, prior: seq<Prior>, did: string)
    requires CreatorOf(prior).Some?
    ensures did in DelegatesOf(s, prior) <==> did != prior[0].actor && NamedBefore(s, prior, |prior|, did)
  {
    hide GrantedUpTo, NamedBefore;
    GrantedMeansNamed(s, prior, |prior|, did);
  }

  // ---- the invariant ----

  function DelegatesAt(s: Services, events: seq<Event>, n: nat): set<string>
    requires n <= |events|
  {
    DelegatesOf(s, Priors(events[..n]))
  }

  /** An event after the first is by the creator, or by someone the creator named before and of a kind
      delegates may write. */
  predicate ActsWithAuthority(s: Services, events: seq<Event>, k: nat)
    requires 0 < k < |events|
  {
    || events[k].actor == events[0].actor
    || (NamedBefore(s, Priors(events), k, events[k].actor) && !CreatorOnlyType(events[k].kind))
  }

  ghost predicate AuthorityHolds(s: Services, events: seq<Event>) {
    && (forall k :: 0 <= k < |events| ==> (events[k].kind == REQUEST_CREATED <==> k == 0))
    && (forall k :: 0 < k < |events| ==> ActsWithAuthority(s, events, k))
    && (forall i, j :: 0 <= i < j < |events| ==>
          !(events[i].kind == RESULT_CREATED && events[j].kind == RESULT_CREATED))
    && (forall m, n :: 0 <= m <= n <= |events| ==> DelegatesAt(s, events, m) <= DelegatesAt(s, events, n))
    && (forall n :: 0 < n <= |events| ==> DelegatesBounded(s, events, n))
  }

  predicate DelegatesBounded(s: Services, events: seq<Event>, n: nat)
    requires 0 < n <= |events|
  {
    |DelegatesAt(s, events, n)| <= MAX_DELEGATES && events[0].actor !in DelegatesAt(s, events, n)
  }

  // ---- proof ----

  lemma NamedBeforeTake(s: Services, events: seq<Event>, k: nat, did: string)
    requires k <= |events|
    ensures NamedBefore(s, Priors(events[..k]), k, did) <==> NamedBefore(s, Priors(events), k, did)
  {
    hide DelegatesFieldError, Named;
    forall j: nat | 0 < j < k
      ensures Names(s, Priors(events[..k]), j, did) <==> Names(s, Priors(events), j, did)
    {
    }
  }

  lemma AllowedMeaning(s: Services, prior: seq<Prior>, actor: string, kind: string, payload: Payload)
    requires CreatorOf(prior).Some? && AuthorizeEvent(s, prior, actor, kind, payload).allowed
    ensures kind != REQUEST_CREATED
    ensures actor == prior[0].actor || (actor in DelegatesOf(s, prior) && !CreatorOnlyType(kind))
  {
    hide DelegatesFieldError, DelegatesOf;
  }

  lemma LaterEventAuthority(s: Services, proofId: string, version: string, events: seq<Event>, k: nat)
    requires 0 < k < |events| && AllPass(s, proofId, version, events) && IsSupported(version)
    ensures events[k].kind != REQUEST_CREATED && ActsWithAuthority(s, events, k)
    ensures forall i :: 0 <= i < k ==> !(events[i].kind == RESULT_CREATED && events[k].kind == RESULT_CREATED)
    ensures CreatorOf(Priors(events[..k])) == Some(events[0].actor)
    ensures AuthorizeEvent(s, Priors(events[..k]), events[k].actor, events[k].kind, events[k].payload).allowed
  {
    hide AllPass, AuthorizeEvent, SignatureVerifies, ExpectedCanonical, FormatOk, NonceStored, PairStored,
         NamedBefore, IsSupported, DelegatesOf,
         CreatorOf;
    var prior, e := Priors(events[..k]), events[k];
    LaterEventOfChain(s, proofId, version, events, k);
    assert CreatorOf(prior) == Some(events[0].actor) by {
      AllPassTake(s, proofId, version, events, k);
      PassingChainStarts(s, proofId, version, events[..k]);
    }
    CreatorIsFirst(prior);
    AllowedMeaning(s, prior, e.actor, e.kind, e.payload);
    DelegatesAreNamed(s, prior, e.actor);
    NamedBeforeTake(s, events, k, e.actor);
    forall i | 0 <= i < k
      ensures !(events[i].kind == RESULT_CREATED && events[k].kind == RESULT_CREATED)
    {
      assert prior[i].kind == events[i].kind;
    }
  }

  lemma CreatorIsFirst(prior: seq<Prior>)
    ensures CreatorOf(prior).Some? ==> CreatorOf(prior).value == prior[0].actor
  {
  }

  lemma {:induction false} DelegatesGrow(s: Services, proofId: string, version: string, events: seq<Event>, m: nat,
      n: nat)
    requires m <= n <= |events| && AllPass(s, proofId, version, events) && IsSupported(version)
    ensures DelegatesAt(s, events, m) <= DelegatesAt(s, events, n)
    ensures n > 0 ==> DelegatesBounded(s, events, n)
    decreases n
  {
    hide AllPass, IsSupported, AuthorizeEvent, DelegatesOf, ActsWithAuthority, CreatorOf;
    if n == 0 {
    } else if n == 1 {
      DelegatesGrow(s, proofId, version, events, 0, 0);
      NobodyYet(s, events);
    } else {
      DelegatesGrow(s, proofId, version, events, if m < n then m else n - 1, n - 1);
      LaterEventAuthority(s, proofId, version, events, n - 1);
      DelegatesStayBounded(s, Priors(events[..n - 1]), AsPrior(events[n - 1]));
      assert Priors(events[..n]) == Priors(events[..n - 1]) + [AsPrior(events[n - 1])];
    }
  }

  lemma NobodyYet(s: Services, events: seq<Event>)
    requires events != []
    ensures DelegatesAt(s, events, 0) == {} && DelegatesAt(s, events, 1) == {}
  {
  }

  /** The authority invariant, for every chain of any version that passes. */
  lemma AuthorityOfPassingChain(s: Services, proofId: string, version: string, events: seq<Event>)
    requires events != [] && IsSupported(version) && AllPass(s, proofId, version, events)
    ensures AuthorityHolds(s, events)
  {
    hide AllPass, IsSupported, ActsWithAuthority, DelegatesBounded, DelegatesAt, AuthorizeEvent, CreatorOf;
    assert events[0].kind == REQUEST_CREATED by {
      PassingChainStarts(s, proofId, version, events);
    }
    forall k | 0 < k < |events|
      ensures events[k].kind != REQUEST_CREATED && ActsWithAuthority(s, events, k)
    {
      LaterEventAuthority(s, proofId, version, events, k);
    }
    forall i, j | 0 <= i < j < |events|
      ensures !(events[i].kind == RESULT_CREATED && events[j].kind == RESULT_CREATED)
    {
      LaterEventAuthority(s, proofId, version, events, j);
    }
    forall m, n | 0 <= m <= n <= |events|
      ensures DelegatesAt(s, events, m) <= DelegatesAt(s, events, n)
    {
      DelegatesGrow(s, proofId, version, events, m, n);
    }
    forall n | 0 < n <= |events|
      ensures DelegatesBounded(s, events, n)
    {
      DelegatesGrow(s, proofId, version, events, n, n);
    }
  }

  /** And for every chain the API can produce. */
  lemma AuthorityOfReachableChain(s: Services, proofId: string, events: seq<Event>)
    requires Reachable(s, proofId, events)
    ensures AuthorityHolds(s, events)
  {
    hide Reachable, AuthorityHolds, AllPass;
    VerifierEqualsProtocol(s, proofId, events);
    AuthorityOfPassingChain(s, proofId, "4", events);
  }
}
