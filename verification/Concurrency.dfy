/** Any number of writers, interleaved at will: the unlocked checks of one may run between any two steps of
    the others, and only the locked part is serialized. */
module Concurrency {
  import opened Prelude
  import opened Canonical
  import opened ProofChain
  import opened Authorization
  import opened Verifier
  import opened ProofApi
  import opened ChainFacts
  import opened ProtocolEquivalence
  import opened ChainBinding
  import opened AuthorityInvariant

  // ---- the state machine ----

  /** Where a writer is. `seen` is the status its unlocked checks read; `snapshot` the proof it read under the lock. */
  datatype Phase =
    | Idle
    | AppendReady(proofId: string, version: string, seen: Status, sub: Submission)
    | AppendHolding(proofId: string, seen: Status, sub: Submission, snapshot: Proof)
    | CreateReady(request: SignedRequest)
    | CreateHolding(request: SignedRequest)

  datatype State = State(
    proofs: map<string, Proof>,
    byRequest: map<string, string>,
    lock: Option<nat>,
    phases: map<nat, Phase>)

  datatype Step =
    | BeginAppend(proofId: string, sub: Submission)
    | BeginCreate(request: SignedRequest)
    | TakeLock
    | CommitAppend(eventId: string, createdAt: string)
    | CommitCreate(newProofId: string, eventId: string, createdAt: string)
    | Leave

  datatype Move = Move(writer: nat, step: Step)

  function PhaseOf(st: State, w: nat): Phase {
    if w in st.phases then st.phases[w] else Idle
  }

  function Enter(st: State, w: nat, phase: Phase): State {
    st.(phases := st.phases[w := phase])
  }

  function Begin(s: Services, st: State, w: nat, step: Step): Option<State> {
    match step
    case BeginAppend(proofId, sub) =>
      if proofId in st.proofs
        && Precheck(s, proofId, st.proofs[proofId].version, st.proofs[proofId].status, sub).None? then
        Some(Enter(st, w, AppendReady(proofId, st.proofs[proofId].version, st.proofs[proofId].status, sub)))
      else None
    case BeginCreate(request) =>
      if CheckRequest(s, request).None? && request.requestId !in st.byRequest then
        Some(Enter(st, w, CreateReady(request)))
      else None
    case _ => None
  }

  /** The lock is free, and whoever takes it reads the proof afresh. */
  function Acquire(st: State, w: nat): Option<State> {
    if st.lock.Some? then None
    else
      match PhaseOf(st, w)
      case AppendReady(proofId, _, seen, sub) =>
        if proofId in st.proofs then
          Some(Enter(st.(lock := Some(w)), w, AppendHolding(proofId, seen, sub, st.proofs[proofId])))
        else None
      case CreateReady(request) => Some(Enter(st.(lock := Some(w)), w, CreateHolding(request)))
      case _ => None
  }

  /** The append is decided and written from the snapshot, not from whatever the store holds by then. */
  function DoAppend(s: Services, st: State, w: nat, eventId: string, createdAt: string): Option<State> {
    match PhaseOf(st, w)
    case AppendHolding(proofId, _, sub, snapshot) =>
      if LockedCheck(s, proofId, snapshot, sub).None? then
        Some(State(
          st.proofs[proofId := WithEvent(s, proofId, snapshot, sub, eventId, createdAt)],
          st.byRequest, None, st.phases[w := Idle]))
      else None
    case _ => None
  }

  /** Request ids are unique in the database; proof ids are drawn fresh. */
  function DoCreate(s: Services, st: State, w: nat, proofId: string, eventId: string,
      createdAt: string): Option<State> {
    match PhaseOf(st, w)
    case CreateHolding(request) =>
      if request.requestId !in st.byRequest && proofId !in st.proofs && IsProofId(proofId) then
        Some(State(
          st.proofs[proofId := NewProof(s, proofId, request, eventId, createdAt)],
          st.byRequest[request.requestId := proofId], None, st.phases[w := Idle]))
      else None
    case _ => None
  }

  /** Refused, timed out, crashed or done: roll back and let go of the lock. */
  function Withdraw(st: State, w: nat): State {
    Enter(if st.lock == Some(w) then st.(lock := None) else st, w, Idle)
  }

  function Apply(s: Services, st: State, m: Move): Option<State> {
    match m.step
    case BeginAppend(_, _) => if PhaseOf(st, m.writer).Idle? then Begin(s, st, m.writer, m.step) else None
    case BeginCreate(_) => if PhaseOf(st, m.writer).Idle? then Begin(s, st, m.writer, m.step) else None
    case TakeLock => Acquire(st, m.writer)
    case CommitAppend(eventId, createdAt) => DoAppend(s, st, m.writer, eventId, createdAt)
    case CommitCreate(proofId, eventId, createdAt) => DoCreate(s, st, m.writer, proofId, eventId, createdAt)
    case Leave => Some(Withdraw(st, m.writer))
  }

  function Exec(s: Services, st: State, moves: seq<Move>): Option<State>
    decreases |moves|
  {
    if moves == [] then Some(st)
    else
      match Apply(s, st, moves[0])
      case None => None
      case Some(next) => Exec(s, next, moves[1..])
  }

  // ---- when a step is possible ----

  lemma EnabledExactly(s: Services, st: State, m: Move)
    ensures Apply(s, st, m).Some? <==>
            var phase := if m.writer in st.phases then st.phases[m.writer] else Idle;
            match m.step
            case BeginAppend(proofId, sub) =>
              && phase == Idle && proofId in st.proofs
              && Precheck(s, proofId, st.proofs[proofId].version, st.proofs[proofId].status, sub).None?
            case BeginCreate(request) =>
              phase == Idle && CheckRequest(s, request).None? && request.requestId !in st.byRequest
            case TakeLock =>
              st.lock == None && (phase.CreateReady? || (phase.AppendReady? && phase.proofId in st.proofs))
            case CommitAppend(_, _) =>
              phase.AppendHolding? && LockedCheck(s, phase.proofId, phase.snapshot, phase.sub).None?
            case CommitCreate(newProofId, _, _) =>
              && phase.CreateHolding? && phase.request.requestId !in st.byRequest
              && newProofId !in st.proofs && IsProofId(newProofId)
            case Leave => true
  {
    hide Precheck, CheckRequest, LockedCheck, IsProofId;
  }

  /** A writer that meets nobody: its three steps go through exactly when the append is accepted, and do just that. */
  lemma SoloAppend(s: Services, st: State, w: nat, proofId: string, sub: Submission, eventId: string, createdAt: string)
    requires st.lock == None && PhaseOf(st, w) == Idle
    ensures var moves :=
              [Move(w, BeginAppend(proofId, sub)), Move(w, TakeLock), Move(w, CommitAppend(eventId, createdAt))];
            && (Exec(s, st, moves).Some? <==>
                proofId in st.proofs && Append(s, proofId, st.proofs[proofId], sub, eventId, createdAt).Ok?)
            && (Exec(s, st, moves).Some? ==>
                  Exec(s, st, moves).value == State(
                    st.proofs[proofId := Append(s, proofId, st.proofs[proofId], sub, eventId, createdAt).value],
                    st.byRequest, None, st.phases[w := Idle]))
  {
    hide Precheck, LockedCheck, WithEvent, Exec;
    var begin, take, commit :=
      Move(w, BeginAppend(proofId, sub)), Move(w, TakeLock), Move(w, CommitAppend(eventId, createdAt));
    ThreeSteps(s, st, begin, take, commit);
  }

  lemma SoloCreate(s: Services, st: State, w: nat, r: SignedRequest, proofId: string, eventId: string,
      createdAt: string)
    requires st.lock == None && PhaseOf(st, w) == Idle
    ensures var moves :=
              [Move(w, BeginCreate(r)), Move(w, TakeLock), Move(w, CommitCreate(proofId, eventId, createdAt))];
            && (Exec(s, st, moves).Some? <==>
                && CheckRequest(s, r).None? && r.requestId !in st.byRequest
                && proofId !in st.proofs && IsProofId(proofId))
            && (Exec(s, st, moves).Some? ==>
                  Exec(s, st, moves).value == State(
                    st.proofs[proofId := NewProof(s, proofId, r, eventId, createdAt)],
                    st.byRequest[r.requestId := proofId], None, st.phases[w := Idle]))
  {
    hide CheckRequest, NewProof, Exec, IsProofId;
    var begin, take, commit :=
      Move(w, BeginCreate(r)), Move(w, TakeLock), Move(w, CommitCreate(proofId, eventId, createdAt));
    ThreeSteps(s, st, begin, take, commit);
  }

  /** Three moves, one after the other. */
  lemma ThreeSteps(s: Services, st: State, a: Move, b: Move, c: Move)
    ensures Exec(s, st, [a, b, c])
            == match Apply(s, st, a)
               case None => None
               case Some(x) =>
                 match Apply(s, x, b)
                 case None => None
                 case Some(y) => Apply(s, y, c)
  {
    hide Apply;
    assert [a, b, c][1..] == [b, c] && [b, c][1..] == [c] && [c][1..] == [];
    match Apply(s, st, a)
    case None =>
    case Some(x) =>
      match Apply(s, x, b)
      case None =>
      case Some(y) => assert Exec(s, y, [c]) == Apply(s, y, c);
  }

  /** Whoever holds the lock can let go of it, leaving the store as it is. */
  lemma LockCanBeFreed(s: Services, st: State, w: nat)
    requires st.lock == Some(w)
    ensures Apply(s, st, Move(w, Leave)) == Some(State(st.proofs, st.byRequest, None, st.phases[w := Idle]))
  {
  }

  // ---- the invariant ----

  ghost predicate ProofSound(s: Services, proofId: string, proof: Proof) {
    IsSupported(proof.version) ==>
      && ChainValid(s, proofId, proof.version, proof.events) && StatusFits(proof)
      && (IsV4(proof.version) ==> IsProofId(proofId) && FromSchema(proof.events))
  }

  ghost predicate StoreSound(s: Services, proofs: map<string, Proof>) {
    forall proofId :: proofId in proofs ==> ProofSound(s, proofId, proofs[proofId])
  }

  /** The index and the proofs agree, so a request id belongs to one proof. */
  predicate RequestsUnique(proofs: map<string, Proof>, byRequest: map<string, string>) {
    && (forall proofId :: proofId in proofs ==>
          proofs[proofId].requestId in byRequest && byRequest[proofs[proofId].requestId] == proofId)
    && (forall r :: r in byRequest ==> byRequest[r] in proofs && proofs[byRequest[r]].requestId == r)
  }

  ghost predicate PhaseSound(s: Services, st: State, w: nat) {
    match PhaseOf(st, w)
    case Idle => true
    case AppendReady(proofId, version, seen, sub) =>
      proofId in st.proofs && st.proofs[proofId].version == version && Precheck(s, proofId, version, seen, sub).None?
    case AppendHolding(proofId, seen, sub, snapshot) =>
      && st.lock == Some(w) && proofId in st.proofs && st.proofs[proofId] == snapshot
      && Precheck(s, proofId, snapshot.version, seen, sub).None?
    case CreateReady(request) => CheckRequest(s, request).None?
    case CreateHolding(request) => st.lock == Some(w) && CheckRequest(s, request).None?
  }

  ghost predicate Invariant(s: Services, st: State) {
    && StoreSound(s, st.proofs)
    && RequestsUnique(st.proofs, st.byRequest)
    && forall w :: PhaseSound(s, st, w)
  }

  /** Any store whose proofs verify, with nobody writing, is a good place to start; so is an empty one. */
  lemma InitialInvariant(s: Services, proofs: map<string, Proof>, byRequest: map<string, string>)
    requires StoreSound(s, proofs) && RequestsUnique(proofs, byRequest)
    ensures Invariant(s, State(proofs, byRequest, None, map[]))
  {
    hide StoreSound, RequestsUnique;
  }

  // ---- each kind of step keeps it ----

  lemma BeginKeeps(s: Services, st: State, w: nat, step: Step)
    requires Invariant(s, st) && PhaseOf(st, w).Idle? && Begin(s, st, w, step).Some?
    ensures Invariant(s, Begin(s, st, w, step).value)
  {
    hide StoreSound, RequestsUnique, Precheck, CheckRequest;
    OthersUntouched(s, st, Begin(s, st, w, step).value, w);
  }

  /** A writer whose phase a step leaves alone stays sound if the store and lock it relies on did. */
  lemma OthersUntouched(s: Services, st: State, after: State, w: nat)
    requires forall v :: PhaseSound(s, st, v)
    requires after.proofs == st.proofs && (after.lock == st.lock || st.lock == None || st.lock == Some(w))
    requires forall v :: v != w ==> PhaseOf(after, v) == PhaseOf(st, v)
    ensures forall v :: v != w ==> PhaseSound(s, after, v)
  {
    hide Precheck, CheckRequest, PhaseOf;
    forall v | v != w
      ensures PhaseSound(s, after, v)
    {
      assert PhaseSound(s, st, v);
    }
  }

  lemma AcquireKeeps(s: Services, st: State, w: nat)
    requires Invariant(s, st) && Acquire(st, w).Some?
    ensures Invariant(s, Acquire(st, w).value)
  {
    hide StoreSound, RequestsUnique, Precheck, CheckRequest;
    assert PhaseSound(s, st, w);
    OthersUntouched(s, st, Acquire(st, w).value, w);
  }

  lemma WithdrawKeeps(s: Services, st: State, w: nat)
    requires Invariant(s, st)
    ensures Invariant(s, Withdraw(st, w))
  {
    hide StoreSound, RequestsUnique, Precheck, CheckRequest;
    OthersUntouched(s, st, Withdraw(st, w), w);
  }

  lemma AppendKeepsProof(s: Services, proofId: string, proof: Proof, seen: Status, sub: Submission, eventId: string,
      createdAt: string)
    requires ProofSound(s, proofId, proof)
    requires Precheck(s, proofId, proof.version, seen, sub).None? && LockedCheck(s, proofId, proof, sub).None?
    ensures ProofSound(s, proofId, WithEvent(s, proofId, proof, sub, eventId, createdAt))
  {
    hide ChainValid, StatusFits, Precheck, LockedCheck, CreateEvent, StatusAfter, IsSupported, IsProofId;
    if IsSupported(proof.version) {
      AppendKeepsChainValid(s, proofId, proof, seen, sub, eventId, createdAt);
      if IsV4(proof.version) {
        assert WithEvent(s, proofId, proof, sub, eventId, createdAt).events[0] == proof.events[0];
      }
    }
  }

  /** A committed change to one proof: nobody else can have been holding the lock. */
  lemma CommitLeavesOthers(s: Services, st: State, after: State, w: nat)
    requires (forall v :: PhaseSound(s, st, v)) && st.lock == Some(w) && after.lock == None
    requires forall p :: p in st.proofs ==> p in after.proofs && after.proofs[p].version == st.proofs[p].version
    requires after.phases == st.phases[w := Idle]
    ensures forall v :: PhaseSound(s, after, v)
  {
    hide Precheck, CheckRequest;
    forall v
      ensures PhaseSound(s, after, v)
    {
      assert PhaseSound(s, st, v);
    }
  }

  lemma DoAppendKeeps(s: Services, st: State, w: nat, eventId: string, createdAt: string)
    requires Invariant(s, st) && DoAppend(s, st, w, eventId, createdAt).Some?
    ensures Invariant(s, DoAppend(s, st, w, eventId, createdAt).value)
  {
    hide ProofSound, Precheck, LockedCheck, CreateEvent, StatusAfter, CheckRequest;
    var after := DoAppend(s, st, w, eventId, createdAt).value;
    var phase := PhaseOf(st, w);
    assert PhaseSound(s, st, w);
    AppendKeepsProof(s, phase.proofId, phase.snapshot, phase.seen, phase.sub, eventId, createdAt);
    CommitLeavesOthers(s, st, after, w);
  }

  lemma DoCreateKeeps(s: Services, st: State, w: nat, proofId: string, eventId: string, createdAt: string)
    requires Invariant(s, st) && DoCreate(s, st, w, proofId, eventId, createdAt).Some?
    ensures Invariant(s, DoCreate(s, st, w, proofId, eventId, createdAt).value)
  {
    hide ProofSound, Precheck, NewProof, CheckRequest, IsProofId, RequestsUnique;
    var after := DoCreate(s, st, w, proofId, eventId, createdAt).value;
    assert PhaseSound(s, st, w);
    var request := PhaseOf(st, w).request;
    NewProofIsSound(s, proofId, request, eventId, createdAt);
    OneMoreRequest(st.proofs, st.byRequest, proofId, NewProof(s, proofId, request, eventId, createdAt));
    CommitLeavesOthers(s, st, after, w);
  }

  lemma NewProofIsSound(s: Services, proofId: string, request: SignedRequest, eventId: string, createdAt: string)
    requires CheckRequest(s, request).None? && IsProofId(proofId)
    ensures ProofSound(s, proofId, NewProof(s, proofId, request, eventId, createdAt))
    ensures NewProof(s, proofId, request, eventId, createdAt).requestId == request.requestId
  {
    hide ChainValid, StatusFits, FromSchema, CreateEvent, CheckRequest, IsProofId;
    NewProofIsValid(s, proofId, request, eventId, createdAt);
  }

  lemma OneMoreRequest(proofs: map<string, Proof>, byRequest: map<string, string>, proofId: string, proof: Proof)
    requires RequestsUnique(proofs, byRequest) && proofId !in proofs && proof.requestId !in byRequest
    ensures RequestsUnique(proofs[proofId := proof], byRequest[proof.requestId := proofId])
  {
  }

  lemma ApplyKeeps(s: Services, st: State, m: Move)
    requires Invariant(s, st) && Apply(s, st, m).Some?
    ensures Invariant(s, Apply(s, st, m).value)
  {
    hide Invariant, Begin, Acquire, DoAppend, DoCreate, Withdraw, PhaseOf;
    match m.step
    case BeginAppend(_, _) => BeginKeeps(s, st, m.writer, m.step);
    case BeginCreate(_) => BeginKeeps(s, st, m.writer, m.step);
    case TakeLock => AcquireKeeps(s, st, m.writer);
    case CommitAppend(eventId, createdAt) => DoAppendKeeps(s, st, m.writer, eventId, createdAt);
    case CommitCreate(proofId, eventId, createdAt) => DoCreateKeeps(s, st, m.writer, proofId, eventId, createdAt);
    case Leave => WithdrawKeeps(s, st, m.writer);
  }

  /** Every interleaving keeps the invariant. */
  lemma {:induction false} EveryRunKeepsInvariant(s: Services, st: State, moves: seq<Move>)
    requires Invariant(s, st) && Exec(s, st, moves).Some?
    ensures Invariant(s, Exec(s, st, moves).value)
    decreases |moves|
  {
    hide Invariant, Apply;
    if moves != [] {
      ApplyKeeps(s, st, moves[0]);
      EveryRunKeepsInvariant(s, Apply(s, st, moves[0]).value, moves[1..]);
    }
  }

  // ---- what the invariant says about the stored events ----

  /** Sequence numbers are 1..n, each link is the hash of the row before, and authority is respected. */
  lemma StoredChainsAreWhole(s: Services, st: State, proofId: string)
    requires Invariant(s, st) && proofId in st.proofs && IsSupported(st.proofs[proofId].version)
    ensures var events := st.proofs[proofId].events;
            && (forall k :: 0 <= k < |events| ==>
                  events[k].sequence == k + 1 && events[k].previousHash == ChainHead(s, proofId, events[..k]))
            && AuthorityHolds(s, events)
            && (forall k :: 0 <= k < |events| && Closing(events[k].kind) ==> k == |events| - 1)
            && (IsFinal(st.proofs[proofId].status) <==> IsClosed(events))
  {
    hide PhaseSound, RequestsUnique, AllPass, AuthorityHolds, IsFinal, IsClosed, Closing, ChainHead, IsSupported;
    var proof := st.proofs[proofId];
    assert ProofSound(s, proofId, proof);
    forall k | 0 <= k < |proof.events|
      ensures proof.events[k].sequence == k + 1
      ensures proof.events[k].previousHash == ChainHead(s, proofId, proof.events[..k])
    {
      SequencesCount(s, proofId, proof.version, proof.events, k);
    }
    AuthorityOfPassingChain(s, proofId, proof.version, proof.events);
  }

  /** Interleaving adds nothing: every stored version-4 chain is one a single writer could have produced. */
  lemma InterleavingsAreSequential(s: Services, st: State, proofId: string)
    requires Invariant(s, st) && proofId in st.proofs && st.proofs[proofId].version == "4"
    ensures Reachable(s, proofId, st.proofs[proofId].events)
  {
    hide PhaseSound, RequestsUnique, ChainValid, FromSchema, Reachable, StatusFits, IsProofId;
    assert ProofSound(s, proofId, st.proofs[proofId]);
    VerifierEqualsProtocol(s, proofId, st.proofs[proofId].events);
  }

  /** A head is built on once, in the whole store. */
  lemma OneEventPerHead(s: Services, st: State, p: string, i: nat, q: string, j: nat)
    requires Invariant(s, st) && p in st.proofs && q in st.proofs && st.proofs[p].version == "4"
    requires st.proofs[q].version == "4"
    requires 0 < i < |st.proofs[p].events| && 0 < j < |st.proofs[q].events|
    requires SignedPriorHead(st.proofs[p].events[i].canonical) == SignedPriorHead(st.proofs[q].events[j].canonical)
    requires NoCollision(s, Hashes(p, st.proofs[p].events) + Hashes(q, st.proofs[q].events))
    ensures p == q && i == j
  {
    hide PhaseSound, RequestsUnique, AllPass, NoCollision, Hashes, StatusFits, FromSchema, IsProofId, PositionOk,
         ParseEventV4, EventLink;
    assert ProofSound(s, p, st.proofs[p]) && ProofSound(s, q, st.proofs[q]);
    var a, b := st.proofs[p].events, st.proofs[q].events;
    SignedContent(s, p, a, i);
    SignedContent(s, q, b, j);
    SameHeadSameRecord(s, p, a, i - 1, q, b, j - 1);
    SequencesCount(s, p, "4", a, i - 1);
    SequencesCount(s, q, "4", b, j - 1);
  }

  /** The same, with the collision in hand when it fails. */
  lemma OneEventPerHeadOrCollision(s: Services, st: State, p: string, i: nat, q: string, j: nat)
    returns (collision: Option<(Hashed, Hashed)>)
    requires Invariant(s, st) && p in st.proofs && q in st.proofs
    requires st.proofs[p].version == "4" && st.proofs[q].version == "4"
    requires 0 < i < |st.proofs[p].events| && 0 < j < |st.proofs[q].events|
    requires SignedPriorHead(st.proofs[p].events[i].canonical) == SignedPriorHead(st.proofs[q].events[j].canonical)
    ensures collision.None? ==> p == q && i == j
    ensures var inputs := Hashes(p, st.proofs[p].events) + Hashes(q, st.proofs[q].events);
            collision.Some? ==> Collide(s, inputs, collision.value.0, collision.value.1)
  {
    hide Invariant, Hashes, Collide, SignedPriorHead;
    if x, y :| Collide(s, Hashes(p, st.proofs[p].events) + Hashes(q, st.proofs[q].events), x, y) {
      return Some((x, y));
    }
    OneEventPerHead(s, st, p, i, q, j);
    return None;
  }

  /** The whole story from a sound store: any interleaving ends with every version-4 chain sequentially
      producible, every supported chain valid with its status in step, and request ids still unique. */
  lemma EveryInterleavingIsSafe(s: Services, proofs: map<string, Proof>, byRequest: map<string, string>,
      moves: seq<Move>)
    requires StoreSound(s, proofs) && RequestsUnique(proofs, byRequest)
    requires Exec(s, State(proofs, byRequest, None, map[]), moves).Some?
    ensures var after := Exec(s, State(proofs, byRequest, None, map[]), moves).value;
            && (forall p :: p in after.proofs && after.proofs[p].version == "4" ==>
                  Reachable(s, p, after.proofs[p].events))
            && (forall p :: p in after.proofs && IsSupported(after.proofs[p].version) ==>
                  ChainValid(s, p, after.proofs[p].version, after.proofs[p].events) && StatusFits(after.proofs[p]))
            && RequestsUnique(after.proofs, after.byRequest)
            && OnlyGrows(proofs, after.proofs)
  {
    hide PhaseSound, RequestsUnique, ChainValid, FromSchema, Reachable, StatusFits, IsProofId, IsSupported, OnlyGrows,
         Exec;
    var start := State(proofs, byRequest, None, map[]);
    InitialInvariant(s, proofs, byRequest);
    EveryRunKeepsInvariant(s, start, moves);
    EveryRunOnlyGrows(s, start, moves);
    var after := Exec(s, start, moves).value;
    forall p | p in after.proofs && after.proofs[p].version == "4"
      ensures Reachable(s, p, after.proofs[p].events)
    {
      InterleavingsAreSequential(s, after, p);
    }
    forall p | p in after.proofs && IsSupported(after.proofs[p].version)
      ensures ChainValid(s, p, after.proofs[p].version, after.proofs[p].events) && StatusFits(after.proofs[p])
    {
      assert ProofSound(s, p, after.proofs[p]);
    }
  }

  // ---- what a run may change ----

  /** Chains only grow at the end, and closed ones not at all. */
  predicate GrownFrom(before: Proof, after: Proof) {
    && after.version == before.version && after.requestId == before.requestId && before.events <= after.events
    && (IsFinal(before.status) ==> after == before)
  }

  ghost predicate OnlyGrows(before: map<string, Proof>, after: map<string, Proof>) {
    forall proofId :: proofId in before ==> proofId in after && GrownFrom(before[proofId], after[proofId])
  }

  lemma ApplyOnlyGrows(s: Services, st: State, m: Move)
    requires Invariant(s, st) && Apply(s, st, m).Some?
    ensures OnlyGrows(st.proofs, Apply(s, st, m).value.proofs)
  {
    hide StoreSound, RequestsUnique, Precheck, CheckRequest, CreateEvent, StatusAfter, MayAppend, Priors,
         AuthorizeEvent;
    assert PhaseSound(s, st, m.writer);
    if m.step.CommitAppend? {
      var phase := PhaseOf(st, m.writer);
      LockedCheckMeaning(s, phase.proofId, phase.snapshot, phase.sub);
    }
  }

  lemma {:induction false} EveryRunOnlyGrows(s: Services, st: State, moves: seq<Move>)
    requires Invariant(s, st) && Exec(s, st, moves).Some?
    ensures OnlyGrows(st.proofs, Exec(s, st, moves).value.proofs)
    decreases |moves|
  {
    hide Invariant, Apply;
    if moves != [] {
      ApplyKeeps(s, st, moves[0]);
      ApplyOnlyGrows(s, st, moves[0]);
      EveryRunOnlyGrows(s, Apply(s, st, moves[0]).value, moves[1..]);
    }
  }
}
