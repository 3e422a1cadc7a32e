/** The rules of a proof chain in plain terms: literals, fields and quantifiers, without the functions the code
    is modelled with. Each predicate here is matched with the corresponding check, in both directions. */
module PlainRules {
  import opened Prelude
  import opened Canonical
  import opened ProofChain
  import opened Authorization
  import opened Verifier
  import opened AuthorityInvariant

  // ---- authority ----

  ghost predicate StartsWithRequest(prior: seq<Prior>) {
    prior != [] && prior[0].kind == "request.created" && prior[0].sequence == 1 && prior[0].actor != ""
  }

  /** No list, or a list of at most 32 different DIDs that resolve. */
  ghost predicate DelegationOk(s: Services, payload: Payload) {
    "delegates" in payload ==>
      && payload["delegates"].List?
      && var items := payload["delegates"].items;
         && |items| <= 32
         && (forall i :: 0 <= i < |items| ==>
               items[i].Text? && "did:key:z" <= items[i].text && s.resolves(items[i].text))
         && forall i, j :: 0 <= i < j < |items| ==> items[i] != items[j]
  }

  ghost predicate NamedBy(s: Services, creator: string, event: Prior, did: string) {
    && event.kind == "task.delegated" && event.actor == creator && DelegationOk(s, event.payload)
    && "delegates" in event.payload && Text(did) in event.payload["delegates"].items
  }

  /** Some event after the first, by the creator, delegates to `did`. */
  ghost predicate NamedIn(s: Services, prior: seq<Prior>, did: string) {
    exists j :: 0 < j < |prior| && NamedBy(s, prior[0].actor, prior[j], did)
  }

  /** The delegates of a chain, as a set. */
  ghost predicate DelegatesAre(s: Services, prior: seq<Prior>, names: set<string>)
    requires prior != []
  {
    forall did :: did in names <==> did != prior[0].actor && NamedIn(s, prior, did)
  }

  ghost predicate MayWrite(s: Services, prior: seq<Prior>, e: Prior) {
    && StartsWithRequest(prior) && e.kind != "request.created"
    && (|| e.actor == prior[0].actor
        || (&& NamedIn(s, prior, e.actor)
            && e.kind != "task.delegated" && e.kind != "proof.completed" && e.kind != "proof.failed"))
    && (e.kind == "task.delegated" ==>
          && DelegationOk(s, e.payload)
          && ("delegates" in e.payload ==> exists names :: DelegatesAre(s, prior + [e], names) && |names| <= 32))
    && (e.kind == "result.created" ==> forall i :: 0 <= i < |prior| ==> prior[i].kind != "result.created")
  }

  lemma CreatorExactly(prior: seq<Prior>)
    ensures CreatorOf(prior).Some? <==> StartsWithRequest(prior)
    ensures CreatorOf(prior).Some? ==> CreatorOf(prior).value == prior[0].actor
  {
  }

  lemma DelegationExactly(s: Services, payload: Payload)
    ensures DelegatesFieldError(s, payload).None? <==> DelegationOk(s, payload)
    ensures DelegatesFieldError(s, payload) == Some(InvalidDelegateDid) <==>
            && "delegates" in payload && payload["delegates"].List? && |payload["delegates"].items| <= 32
            && exists i :: 0 <= i < |payload["delegates"].items|
                 && var item := payload["delegates"].items[i];
                    !(item.Text? && "did:key:z" <= item.text && s.resolves(item.text))
    ensures DelegatesFieldError(s, payload).Some? ==>
            DelegatesFieldError(s, payload).value in {InvalidDelegates, InvalidDelegateDid}
  {
  }

  lemma NamedExactly(s: Services, prior: seq<Prior>, j: nat, did: string)
    requires 0 < j < |prior|
    ensures Names(s, prior, j, did) <==> NamedBy(s, prior[0].actor, prior[j], did)
  {
    hide DelegatesFieldError, DelegationOk;
    DelegationExactly(s, prior[j].payload);
    var payload := prior[j].payload;
    if DelegationOk(s, payload) && "delegates" in payload {
      ListOfOk(s, payload);
    }
  }

  lemma ListOfOk(s: Services, payload: Payload)
    requires DelegationOk(s, payload) && "delegates" in payload
    ensures payload["delegates"].List?
    ensures forall did :: did in Named(payload) <==> Text(did) in payload["delegates"].items
  {
    var items := payload["delegates"].items;
    forall did | Text(did) in items
      ensures did in Named(payload)
    {
      var i :| 0 <= i < |items| && items[i] == Text(did);
      assert items[i].Text? && items[i].text == did;
    }
  }

  lemma DelegateExactly(s: Services, prior: seq<Prior>, did: string)
    requires StartsWithRequest(prior)
    ensures did in DelegatesOf(s, prior) <==> did != prior[0].actor && NamedIn(s, prior, did)
  {
    hide DelegatesOf, Names, NamedBy;
    CreatorExactly(prior);
    DelegatesAreNamed(s, prior, did);
    forall j: nat | 0 < j < |prior|
      ensures Names(s, prior, j, did) <==> NamedBy(s, prior[0].actor, prior[j], did)
    {
      NamedExactly(s, prior, j, did);
    }
  }

  lemma DelegatesExactly(s: Services, prior: seq<Prior>)
    requires StartsWithRequest(prior)
    ensures DelegatesAre(s, prior, DelegatesOf(s, prior))
    ensures forall names :: DelegatesAre(s, prior, names) ==> names == DelegatesOf(s, prior)
  {
    hide DelegatesOf, NamedIn;
    forall did
      ensures did in DelegatesOf(s, prior) <==> did != prior[0].actor && NamedIn(s, prior, did)
    {
      DelegateExactly(s, prior, did);
    }
  }

  /** Authorization and the single-result rule together. */
  lemma MayWriteExactly(s: Services, prior: seq<Prior>, e: Prior)
    ensures MayAppend(s, prior, e.actor, e.kind, e.payload) <==> MayWrite(s, prior, e)
  {
    hide DelegatesOf, DelegatesFieldError, DelegationOk, NamedIn, DelegatesAre, AuthorizeEvent;
    AuthorizedExactly(s, prior, e);
    CreatorExactly(prior);
    DelegationExactly(s, e.payload);
    if StartsWithRequest(prior) {
      DelegateExactly(s, prior, e.actor);
      DelegatesExactly(s, prior + [e]);
    }
  }

  // ---- the decision: role and reason ----

  ghost predicate UnresolvedDelegate(s: Services, payload: Payload) {
    && "delegates" in payload && payload["delegates"].List? && |payload["delegates"].items| <= 32
    && exists i :: 0 <= i < |payload["delegates"].items| && UnresolvedItem(s, payload["delegates"].items[i])
  }

  predicate UnresolvedItem(s: Services, item: Json) {
    !(item.Text? && "did:key:z" <= item.text && s.resolves(item.text))
  }

  ghost predicate TooManyDelegates(s: Services, prior: seq<Prior>, e: Prior)
    requires prior != []
  {
    "delegates" in e.payload && exists names :: DelegatesAre(s, prior + [e], names) && |names| > 32
  }

  ghost predicate HasRole(s: Services, prior: seq<Prior>, actor: string, role: Role) {
    match role
    case Creator => StartsWithRequest(prior) && actor == prior[0].actor
    case Delegate => StartsWithRequest(prior) && actor != prior[0].actor && NamedIn(s, prior, actor)
    case Unauthorized => StartsWithRequest(prior) ==> actor != prior[0].actor && !NamedIn(s, prior, actor)
  }

  /** Why authorization and the single-result rule refuse an event: the first reason that applies. */
  ghost predicate RefusedFor(s: Services, prior: seq<Prior>, e: Prior, reason: Reason) {
    match reason
    case NoCreator => !StartsWithRequest(prior)
    case RequestCreatedNotAllowed => StartsWithRequest(prior) && e.kind == "request.created"
    case NotDelegated =>
      && StartsWithRequest(prior) && e.kind != "request.created"
      && e.actor != prior[0].actor && !NamedIn(s, prior, e.actor)
    case CreatorOnly =>
      && StartsWithRequest(prior) && e.actor != prior[0].actor && NamedIn(s, prior, e.actor)
      && (e.kind == "task.delegated" || e.kind == "proof.completed" || e.kind == "proof.failed")
    case InvalidDelegateDid =>
      && StartsWithRequest(prior) && e.actor == prior[0].actor && e.kind == "task.delegated"
      && UnresolvedDelegate(s, e.payload)
    case InvalidDelegates =>
      && StartsWithRequest(prior) && e.actor == prior[0].actor && e.kind == "task.delegated"
      && !UnresolvedDelegate(s, e.payload)
      && (!DelegationOk(s, e.payload) || TooManyDelegates(s, prior, e))
    case ResultAlreadyCreated =>
      && StartsWithRequest(prior) && e.kind == "result.created"
      && (e.actor == prior[0].actor || NamedIn(s, prior, e.actor))
      && exists i :: 0 <= i < |prior| && prior[i].kind == "result.created"
  }

  lemma RoleExactly(s: Services, prior: seq<Prior>, e: Prior, role: Role)
    ensures AuthorizeEvent(s, prior, e.actor, e.kind, e.payload).role == role <==> HasRole(s, prior, e.actor, role)
  {
    hide DelegatesOf, DelegatesFieldError, NamedIn;
    CreatorExactly(prior);
    if StartsWithRequest(prior) {
      DelegateExactly(s, prior, e.actor);
    }
  }

  lemma UnresolvedExactly(s: Services, payload: Payload)
    ensures DelegatesFieldError(s, payload) == Some(InvalidDelegateDid) <==> UnresolvedDelegate(s, payload)
    ensures DelegatesFieldError(s, payload) == Some(InvalidDelegates) <==>
            !UnresolvedDelegate(s, payload) && !DelegationOk(s, payload)
  {
    hide DelegatesFieldError, DelegationOk;
    DelegationExactly(s, payload);
  }

  lemma TooManyExactly(s: Services, prior: seq<Prior>, e: Prior)
    requires StartsWithRequest(prior) && e.actor == prior[0].actor && e.kind == "task.delegated"
    requires DelegatesFieldError(s, e.payload).None?
    ensures AuthorizeEvent(s, prior, e.actor, e.kind, e.payload).allowed <==> !TooManyDelegates(s, prior, e)
  {
    hide DelegatesOf, DelegatesFieldError, NamedIn, DelegatesAre, AuthorizeEvent;
    AuthorizedExactly(s, prior, e);
    CreatorExactly(prior);
    DelegatesExactly(s, prior + [e]);
  }

  lemma RefusalExactly(s: Services, prior: seq<Prior>, e: Prior, reason: Reason)
    ensures var decision := AuthorizeEvent(s, prior, e.actor, e.kind, e.payload);
            (if decision.allowed then CheckSingleResult(prior, e.kind) else decision.reason) == Some(reason) <==>
            RefusedFor(s, prior, e, reason)
  {
    hide DelegatesOf, DelegatesFieldError, DelegationOk, NamedIn, UnresolvedDelegate, TooManyDelegates;
    CreatorExactly(prior);
    UnresolvedExactly(s, e.payload);
    DelegationExactly(s, e.payload);
    if StartsWithRequest(prior) {
      DelegateExactly(s, prior, e.actor);
      if e.actor == prior[0].actor && e.kind == "task.delegated" && DelegatesFieldError(s, e.payload).None? {
        TooManyExactly(s, prior, e);
      }
    }
  }

  // ---- messages ----

  /** The fields of an event message of version 4, each where it belongs. */
  predicate IsEventV4(c: string, proofId: string, kind: string, payloadHash: string, nonce: string, head: string) {
    && IsProofId(proofId) && FieldOk(kind) && IsHash(payloadHash) && FieldOk(nonce) && IsHash(head)
    && c == "FLOP/EVENT/v4|" + proofId + "|" + kind + "|" + payloadHash + "|" + nonce + "|" + head
  }

  predicate IsEventV3(c: string, proofId: string, kind: string, payloadHash: string, nonce: string) {
    && IsProofId(proofId) && FieldOk(kind) && IsHash(payloadHash) && FieldOk(nonce)
    && c == "FLOP/EVENT/v3|" + proofId + "|" + kind + "|" + payloadHash + "|" + nonce
  }

  predicate IsRequest(version: string, c: string, room: string, nonce: string, text: string) {
    && FieldOk(room) && !IsProofId(room) && FieldOk(nonce) && text != ""
    && c == (if version == "4" then "FLOP/REQUEST/v4|" else "FLOP/REQUEST/v3|") + room + "|" + nonce + "|" + text
  }

  /** Versions 1 and 2 have no tag and few rules: room|nonce|text, where the text is everything that is left. */
  predicate IsLegacyRequest(c: string, room: string, nonce: string, text: string) {
    room != "" && '|' !in room && !IsProofId(room) && '|' !in nonce && c == room + "|" + nonce + "|" + text
  }

  lemma EventV4Exactly(c: string, proofId: string, kind: string, payloadHash: string, nonce: string, head: string)
    ensures ParseEventV4(c) == Ok(EventV4(proofId, kind, payloadHash, nonce, head)) <==>
            IsEventV4(c, proofId, kind, payloadHash, nonce, head)
    ensures BuildEventV4(EventV4(proofId, kind, payloadHash, nonce, head)) == Ok(c) <==>
            IsEventV4(c, proofId, kind, payloadHash, nonce, head)
  {
    hide ParseEventV4, BuildEventV4, IsProofId, IsHash, FieldOk;
    EventV4RoundTrip(EventV4(proofId, kind, payloadHash, nonce, head), c);
    EventV4Layout(EventV4(proofId, kind, payloadHash, nonce, head));
  }

  lemma EventV3Exactly(c: string, proofId: string, kind: string, payloadHash: string, nonce: string)
    ensures ParseEventV3(c) == Ok(EventV3(proofId, kind, payloadHash, nonce)) <==>
            IsEventV3(c, proofId, kind, payloadHash, nonce)
    ensures BuildEventV3(EventV3(proofId, kind, payloadHash, nonce)) == Ok(c) <==>
            IsEventV3(c, proofId, kind, payloadHash, nonce)
  {
    hide ParseEventV3, BuildEventV3, IsProofId, IsHash, FieldOk;
    EventV3RoundTrip(EventV3(proofId, kind, payloadHash, nonce), c);
    EventV3Layout(EventV3(proofId, kind, payloadHash, nonce));
  }

  lemma RequestExactly(version: string, c: string, room: string, nonce: string, text: string)
    requires version == "3" || version == "4"
    ensures ParseRequest(FormatOf(version), c) == Ok(Request(room, nonce, text)) <==>
            IsRequest(version, c, room, nonce, text)
  {
    hide ParseRequest, BuildRequest, IsProofId, FieldOk;
    RequestRoundTrip(FormatOf(version), Request(room, nonce, text), c);
    RequestLayout(FormatOf(version), Request(room, nonce, text));
  }

  lemma LegacyRequestExactly(c: string, room: string, nonce: string, text: string)
    ensures IsLegacyRequest(c, room, nonce, text) <==>
            Split(c, 2) == [room, nonce, text] && room != "" && !IsProofId(room)
  {
    hide Split, Join, IsProofId;
    var parts := [room, nonce, text];
    JoinThree(room, nonce, text);
    if Split(c, 2) == parts {
      JoinSplit(c, 2);
      SplitPartsPlain(c, 2, 0);
      SplitPartsPlain(c, 2, 1);
    }
    if IsLegacyRequest(c, room, nonce, text) {
      SplitJoin(parts);
    }
  }
}
