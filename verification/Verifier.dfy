/** The offline verifier: one pass over an exported chain. */
module Verifier {
  import opened Prelude
  import opened Canonical
  import opened ProofChain
  import opened Authorization

  predicate IsV4(version: string) {
    version == "4"
  }

  predicate IsTagged(version: string) {
    version == "3" || version == "4"
  }

  predicate IsLegacy(version: string) {
    version == "1" || version == "2"
  }

  predicate IsSupported(version: string) {
    IsTagged(version) || IsLegacy(version)
  }

  function FormatOf(version: string): Format {
    if IsV4(version) then V4 else V3
  }

  // ---- the request's binding to its own payload ----

  function SignatureField(payload: Payload, key: string): Option<Json> {
    match Field(payload, "signature")
    case Some(Object(fields)) => Field(fields, key)
    case _ => None
  }

  /** The stored request repeats the nonce, text, signature and signer the event carries. */
  predicate BoundTo(e: Event, nonce: string, text: string) {
    && SignatureField(e.payload, "nonce") == Some(Text(nonce))
    && Field(e.payload, "text") == Some(Text(text))
    && SignatureField(e.payload, "sig") == Some(Text(e.signature))
    && Field(e.payload, "from_did") == Some(Text(e.actor))
  }

  /** Versions 1 and 2: the untagged canonical is room|nonce|text, and the room is not a proof id. */
  predicate LegacyBinding(e: Event) {
    var parts := Split(e.canonical, 2);
    |parts| == 3 && parts[0] != "" && !IsProofId(parts[0]) && BoundTo(e, parts[1], parts[2])
  }

  predicate TaggedBinding(f: Format, e: Event) {
    match ParseRequest(f, e.canonical)
    case Err(_) => false
    case Ok(request) => BoundTo(e, request.nonce, request.text)
  }

  predicate RequestBinding(version: string, e: Event) {
    if IsTagged(version) then TaggedBinding(FormatOf(version), e) else LegacyBinding(e)
  }

  // ---- what a canonical signs ----

  function SignedNonce(version: string, kind: string, canonical: string): Option<string> {
    if kind == REQUEST_CREATED then
      match ParseRequest(FormatOf(version), canonical) case Ok(r) => Some(r.nonce) case Err(_) => None
    else if IsV4(version) then
      match ParseEventV4(canonical) case Ok(e) => Some(e.nonce) case Err(_) => None
    else
      match ParseEventV3(canonical) case Ok(e) => Some(e.nonce) case Err(_) => None
  }

  function SignedPriorHead(canonical: string): Option<string> {
    match ParseEventV4(canonical) case Ok(e) => Some(e.priorHead) case Err(_) => None
  }

  /** The canonical an event of this proof must have, rebuilt from its exported fields. */
  function LegacyCanonical(proofId: string, kind: string, payloadHash: string): string {
    Join([proofId, kind, payloadHash])
  }

  function ExpectedCanonical(proofId: string, version: string, e: Event): Option<string> {
    if IsV4(version) then
      match SignedPriorHead(e.canonical)
      case None => None
      case Some(head) =>
        match BuildEventV4(EventV4(proofId, e.kind, e.payloadHash, e.nonce, head))
        case Ok(c) => Some(c)
        case Err(_) => None
    else if IsTagged(version) then
      match BuildEventV3(EventV3(proofId, e.kind, e.payloadHash, e.nonce)) case Ok(c) => Some(c) case Err(_) => None
    else Some(LegacyCanonical(proofId, e.kind, e.payloadHash))
  }

  predicate CanonicalOk(proofId: string, version: string, e: Event) {
    if e.kind == REQUEST_CREATED then
      e.canonical != "" && SignatureField(e.payload, "canonical") == Some(Text(e.canonical))
    else
      ExpectedCanonical(proofId, version, e) == Some(e.canonical)
  }

  predicate FormatOk(version: string, e: Event) {
    if IsTagged(version) then SignedNonce(version, e.kind, e.canonical) == Some(e.nonce)
    else !(TAG_PREFIX <= e.canonical)
  }

  // ---- one event ----

  /** What the pass carries from the events before. */
  datatype Context = Context(
    expectedSequence: int,
    previous: Option<Event>,
    prior: seq<Prior>,
    nonces: set<string>,
    pairs: set<(string, string)>)

  const START := Context(1, None, [], {}, {})

  datatype Check = Check(
    sequenceValid: bool,
    chainValid: bool,
    payloadHashValid: bool,
    canonicalValid: bool,
    signatureValid: bool,
    requestBindingValid: Option<bool>,
    formatValid: bool,
    replayValid: bool,
    priorHeadValid: Option<bool>,
    role: Role,
    authorizationReason: Option<Reason>)

  function ExpectedPreviousHash(s: Services, proofId: string, ctx: Context): Option<string> {
    match ctx.previous
    case None => None
    case Some(previous) => Some(EventLink(s, proofId, previous))
  }

  predicate ReplayOk(version: string, ctx: Context, e: Event) {
    if IsTagged(version) then
      match SignedNonce(version, e.kind, e.canonical)
      case None => true
      case Some(nonce) => nonce !in ctx.nonces
    else (e.canonical, e.signature) !in ctx.pairs
  }

  function AuthorizationOf(s: Services, ctx: Context, e: Event): (Role, Option<Reason>) {
    if ctx.previous == None && e.kind == REQUEST_CREATED then (Creator, None)
    else
      var decision := AuthorizeEvent(s, ctx.prior, e.actor, e.kind, e.payload);
      (decision.role, if decision.allowed then CheckSingleResult(ctx.prior, e.kind) else decision.reason)
  }

  function CheckEvent(s: Services, proofId: string, version: string, ctx: Context, e: Event): Check {
    var chainOk := e.previousHash == ExpectedPreviousHash(s, proofId, ctx);
    var (role, reason) := AuthorizationOf(s, ctx, e);
    Check(
      e.sequence == ctx.expectedSequence,
      chainOk,
      e.payloadHash == s.payloadDigest(e.payload),
      CanonicalOk(proofId, version, e),
      SignatureVerifies(s, e.actor, e.canonical, e.signature),
      if e.kind == REQUEST_CREATED then Some(RequestBinding(version, e)) else None,
      FormatOk(version, e),
      ReplayOk(version, ctx, e),
      if IsV4(version) && e.kind != REQUEST_CREATED then
        Some(ctx.previous.Some? && chainOk
             && SignedPriorHead(e.canonical).Some? && SignedPriorHead(e.canonical) == e.previousHash)
      else None,
      role,
      reason)
  }

  /** An event whose own evidence holds may grant authority to later ones. */
  predicate Grants(c: Check) {
    && c.signatureValid && c.canonicalValid && c.payloadHashValid
    && c.requestBindingValid != Some(false)
    && c.formatValid && c.replayValid
    && c.priorHeadValid != Some(false)
  }

  predicate Passes(c: Check) {
    c.sequenceValid && c.chainValid && Grants(c) && c.authorizationReason == None
  }

  function AsPrior(e: Event): Prior {
    Prior(e.kind, e.actor, e.payload, e.sequence)
  }

  function Advance(s: Services, proofId: string, version: string, ctx: Context, e: Event): Context {
    Context(
      ctx.expectedSequence + 1,
      Some(e),
      if Grants(CheckEvent(s, proofId, version, ctx, e)) then ctx.prior + [AsPrior(e)] else ctx.prior,
      if IsTagged(version) && SignedNonce(version, e.kind, e.canonical).Some?
      then ctx.nonces + {SignedNonce(version, e.kind, e.canonical).value} else ctx.nonces,
      if IsTagged(version) then ctx.pairs else ctx.pairs + {(e.canonical, e.signature)})
  }

  // ---- the whole chain ----

  function ContextAt(s: Services, proofId: string, version: string, events: seq<Event>, k: nat): Context
    requires k <= |events|
  {
    if k == 0 then START
    else Advance(s, proofId, version, ContextAt(s, proofId, version, events, k - 1), events[k - 1])
  }

  function CheckAt(s: Services, proofId: string, version: string, events: seq<Event>, k: nat): Check
    requires k < |events|
  {
    CheckEvent(s, proofId, version, ContextAt(s, proofId, version, events, k), events[k])
  }

  predicate AllPass(s: Services, proofId: string, version: string, events: seq<Event>) {
    forall k :: 0 <= k < |events| ==> Passes(CheckAt(s, proofId, version, events, k))
  }

  /** At most one closing event, and it is the last. */
  predicate PositionOk(events: seq<Event>) {
    forall i :: 0 <= i < |events| && Closing(events[i].kind) ==> i == |events| - 1
  }

  /** Every per-event check and the position rule: what the verdict rests on, content hashes aside. */
  predicate ChainValid(s: Services, proofId: string, version: string, events: seq<Event>) {
    IsSupported(version) && events != [] && AllPass(s, proofId, version, events) && PositionOk(events)
  }

  predicate IsClosed(events: seq<Event>) {
    exists i :: 0 <= i < |events| && Closing(events[i].kind)
  }

  datatype Report =
    | UnsupportedVersion
    | NoEvents
    | Report(
        checks: seq<Check>, valid: bool, positionOk: bool, closed: bool, chainHead: Option<string>, eventCount: nat)

  /** The message is in this version's format, and was not seen before. */
  method CheckFormat(version: string, ctx: Context, event: Event) returns (formatOk: bool, replayOk: bool)
    ensures formatOk == FormatOk(version, event) && replayOk == ReplayOk(version, ctx, event)
  {
    hide SignedNonce, IsTagged;
    if IsTagged(version) {
      var signedNonce := SignedNonce(version, event.kind, event.canonical);
      formatOk := signedNonce.Some? && event.nonce == signedNonce.value;
      replayOk := signedNonce.None? || signedNonce.value !in ctx.nonces;
    } else {
      formatOk := !(TAG_PREFIX <= event.canonical);
      replayOk := (event.canonical, event.signature) !in ctx.pairs;
    }
  }

  /** The API's two authorization rules, replayed; the first request is the creator's own event. */
  method ReplayAuthorization(s: Services, ctx: Context, event: Event) returns (role: Role, reason: Option<Reason>)
    ensures (role, reason) == AuthorizationOf(s, ctx, event)
  {
    hide AuthorizeEvent, CheckSingleResult;
    if ctx.previous.None? && event.kind == REQUEST_CREATED {
      return Creator, None;
    }
    var decision := AuthorizeEvent(s, ctx.prior, event.actor, event.kind, event.payload);
    role, reason := decision.role, decision.reason;
    if decision.allowed {
      reason := CheckSingleResult(ctx.prior, event.kind);
    }
  }

  /** One round of the pass: the flags of one event, from the state so far. */
  method CheckOne(s: Services, proofId: string, version: string, ctx: Context, event: Event) returns (check: Check)
    ensures check == CheckEvent(s, proofId, version, ctx, event)
  {
    hide SignedPriorHead, IsV4, CanonicalOk, RequestBinding, SignatureVerifies, AuthorizationOf, FormatOk, ReplayOk;
    var sequenceOk := event.sequence == ctx.expectedSequence;
    var chainOk := if ctx.previous.None? then event.previousHash.None?
                   else event.previousHash == Some(EventLink(s, proofId, ctx.previous.value));
    var payloadHashOk := s.payloadDigest(event.payload) == event.payloadHash;
    var canonicalOk := CanonicalOk(proofId, version, event);
    var requestBindingOk := None;
    if event.kind == REQUEST_CREATED {
      requestBindingOk := Some(RequestBinding(version, event));
    }
    var formatOk, replayOk := CheckFormat(version, ctx, event);
    var signatureOk := SignatureVerifies(s, event.actor, event.canonical, event.signature);
    var priorHeadOk := None;
    if IsV4(version) && event.kind != REQUEST_CREATED {
      var signedHead := SignedPriorHead(event.canonical);
      priorHeadOk := Some(ctx.previous.Some? && chainOk && signedHead.Some? && signedHead == event.previousHash);
    }
    var role, reason := ReplayAuthorization(s, ctx, event);
    check := Check(sequenceOk, chainOk, payloadHashOk, canonicalOk, signatureOk, requestBindingOk, formatOk, replayOk,
                   priorHeadOk, role, reason);
  }

  /** The pass over the events, with the state it updates in separate variables. */
  method CheckEvents(s: Services, proofId: string, events: seq<Event>, version: string) returns (checks: seq<Check>)
    ensures |checks| == |events|
    ensures forall k :: 0 <= k < |events| ==> checks[k] == CheckAt(s, proofId, version, events, k)
  {
    hide CheckEvent, SignedNonce, IsTagged;
    checks := [];
    var expectedSequence, previous, prior := 1, None, [];
    var seenNonces: set<string>, seenPairs: set<(string, string)> := {}, {};
    for i := 0 to |events|
      invariant |checks| == i
      invariant Context(expectedSequence, previous, prior, seenNonces, seenPairs)
              == ContextAt(s, proofId, version, events, i)
      invariant forall k :: 0 <= k < i ==> checks[k] == CheckAt(s, proofId, version, events, k)
    {
      var event := events[i];
      var check := CheckOne(s, proofId, version,
                            Context(expectedSequence, previous, prior, seenNonces, seenPairs), event);
      checks := checks + [check];
      if IsTagged(version) {
        var signedNonce := SignedNonce(version, event.kind, event.canonical);
        if signedNonce.Some? {
          seenNonces := seenNonces + {signedNonce.value};
        }
      } else {
        seenPairs := seenPairs + {(event.canonical, event.signature)};
      }
      if check.signatureValid && check.canonicalValid && check.payloadHashValid
         && check.requestBindingValid != Some(false) && check.formatValid && check.replayValid
         && check.priorHeadValid != Some(false) {
        prior := prior + [AsPrior(event)];
      }
      expectedSequence := expectedSequence + 1;
      previous := Some(event);
    }
  }

  method ClosingPositions(events: seq<Event>) returns (closing: seq<nat>)
    ensures forall j :: 0 <= j < |closing| ==> closing[j] < |events| && Closing(events[closing[j]].kind)
    ensures forall j, k :: 0 <= j < k < |closing| ==> closing[j] < closing[k]
    ensures forall k :: 0 <= k < |events| && Closing(events[k].kind) ==> k in closing
  {
    hide Closing;
    closing := [];
    for i := 0 to |events|
      invariant forall j :: 0 <= j < |closing| ==> closing[j] < i && Closing(events[closing[j]].kind)
      invariant forall j, k :: 0 <= j < k < |closing| ==> closing[j] < closing[k]
      invariant forall k :: 0 <= k < i && Closing(events[k].kind) ==> k in closing
    {
      if Closing(events[i].kind) {
        closing := closing + [i];
      }
    }
  }

  method VerifyProofEvents(s: Services, proofId: string, events: seq<Event>, version: string) returns (r: Report)
    ensures r.UnsupportedVersion? <==> !IsSupported(version)
    ensures r.NoEvents? <==> IsSupported(version) && events == []
    ensures r.Report? ==>
            && |r.checks| == |events|
            && (forall k :: 0 <= k < |events| ==> r.checks[k] == CheckAt(s, proofId, version, events, k))
            && r.positionOk == PositionOk(events)
            && r.valid == ChainValid(s, proofId, version, events)
            && r.closed == IsClosed(events)
            && r.chainHead == ChainHead(s, proofId, events) && r.eventCount == |events|
  {
    hide CheckAt, Closing, PositionOk, IsClosed, IsSupported, ChainHead;
    if !IsSupported(version) {
      return UnsupportedVersion;
    }
    if events == [] {
      return NoEvents;
    }
    var checks := CheckEvents(s, proofId, events, version);
    var allEventsValid := forall k :: 0 <= k < |checks| ==>
      && checks[k].sequenceValid && checks[k].chainValid && checks[k].payloadHashValid && checks[k].canonicalValid
      && checks[k].signatureValid && checks[k].requestBindingValid != Some(false) && checks[k].formatValid
      && checks[k].replayValid && checks[k].priorHeadValid != Some(false) && checks[k].authorizationReason.None?;
    var closing := ClosingPositions(events);
    var positionOk := |closing| <= 1 && forall j :: 0 <= j < |closing| ==> closing[j] == |events| - 1;
    PositionRule(events, closing);
    var valid := allEventsValid && positionOk;
    return Report(checks, valid, positionOk, closing != [], ChainHead(s, proofId, events), |events|);
  }

  lemma PositionRule(events: seq<Event>, closing: seq<nat>)
    requires forall j :: 0 <= j < |closing| ==> closing[j] < |events| && Closing(events[closing[j]].kind)
    requires forall j, k :: 0 <= j < k < |closing| ==> closing[j] < closing[k]
    requires forall k :: 0 <= k < |events| && Closing(events[k].kind) ==> k in closing
    ensures (|closing| <= 1 && forall j :: 0 <= j < |closing| ==> closing[j] == |events| - 1) <==> PositionOk(events)
    ensures closing != [] <==> IsClosed(events)
  {
    if closing != [] {
      assert Closing(events[closing[0]].kind);
    }
    if |closing| > 1 {
      assert closing[0] < closing[1];
    }
  }
}
