/** Settling a compute channel: checking submitted turns against a committed root and adding up their
    work, and the theorem that accepted work never exceeds committed work. */
module Settlement {
  import opened Prelude
  import opened TurnLeaf
  import opened Merkle

  /** sr25519 verification: (public key, signature, message). */
  type Sr25519 = (Bytes, Bytes, Bytes) -> bool

  datatype TurnProof = TurnProof(merkleIndex: int, turn: VerifiedTurn, path: Path)

  /** What one settlement call fixes for all of its turns. */
  datatype Terms = Terms(
    h: HashFunction,
    sr25519: Sr25519,
    channelId: Bytes,
    root: Bytes,
    enclaveKey: Bytes,
    expectedPolicy: Option<Bytes>)

  predicate PathWellFormed(path: Path) {
    forall i :: 0 <= i < |path| ==> |path[i].0| == 32
  }

  function VerifyTurnProof(terms: Terms, proof: TurnProof): Result<Bytes, ChannelError> {
    var turn, policy := proof.turn, terms.expectedPolicy;
    if |terms.channelId| != HASH_SIZE then Err(InvalidChannelID)
    else if proof.merkleIndex < 0 then Err(InvalidMerkleIndex)
    else if |terms.root| != HASH_SIZE then Err(InvalidRoot)
    else if |terms.enclaveKey| != HASH_SIZE then Err(InvalidEnclavePublicKey)
    else if |turn.enclaveSig| != SIGNATURE_SIZE then Err(InvalidEnclaveSignature)
    else if policy.Some? && |policy.value| != HASH_SIZE then Err(InvalidDecodePolicyHash)
    else if turn.leafVersion !in {0, 1, 2, 3} then Err(UnsupportedLeafVersion)
    else if turn.leafVersion in {0, 1} && turn.decodePolicyHash != ZERO32 then Err(LeafFieldsInconsistent)
    else if turn.leafVersion in {0, 1} && policy.Some? then Err(UnsupportedLeafVersion)
    else if turn.leafVersion in {2, 3} && turn.decodePolicyHash == ZERO32 then Err(LeafFieldsInconsistent)
    else if turn.leafVersion in {2, 3} && policy.Some? && turn.decodePolicyHash != policy.value then
      Err(DecodePolicyMismatch)
    else if turn.leafVersion == 3 && turn.hIds == ZERO32 then Err(LeafFieldsInconsistent)
    else
      match ComputeLeaf(terms.h, terms.channelId, turn)
      case Err(e) => Err(e)
      case Ok(leaf) =>
        if !terms.sr25519(terms.enclaveKey, turn.enclaveSig, leaf) then Err(InvalidEnclaveSignature)
        else if |proof.path| > MAX_PATH then Err(MerklePathTooLong)
        else if !PathWellFormed(proof.path) then Err(InvalidMerkleProof)
        else if proof.merkleIndex > U32_MAX then Err(InvalidMerkleProof)
        else if !Accepts(terms.h, leaf, proof.merkleIndex, proof.path, terms.root) then Err(LeafNotInRoot)
        else Ok(leaf)
  }

  /** verify_turn_proof, check by check. */
  method VerifyTurn(terms: Terms, proof: TurnProof) returns (r: Result<Bytes, ChannelError>)
    ensures r == VerifyTurnProof(terms, proof)
  {
    hide ComputeLeaf, Accepts;
    var turn, policy := proof.turn, terms.expectedPolicy;
    if |terms.channelId| != 32 { return Err(InvalidChannelID); }
    if proof.merkleIndex < 0 { return Err(InvalidMerkleIndex); }
    if |terms.root| != 32 { return Err(InvalidRoot); }
    if |terms.enclaveKey| != 32 { return Err(InvalidEnclavePublicKey); }
    if |turn.enclaveSig| != 64 { return Err(InvalidEnclaveSignature); }
    if policy.Some? {
      if |policy.value| != 32 { return Err(InvalidDecodePolicyHash); }
    }
    if !(0 <= turn.leafVersion <= 3) { return Err(UnsupportedLeafVersion); }
    if turn.leafVersion <= 1 {
      if turn.decodePolicyHash != ZERO32 { return Err(LeafFieldsInconsistent); }
      if policy.Some? { return Err(UnsupportedLeafVersion); }
    } else {
      if turn.decodePolicyHash == ZERO32 { return Err(LeafFieldsInconsistent); }
      if policy.Some? {
        if turn.decodePolicyHash != policy.value { return Err(DecodePolicyMismatch); }
      }
    }
    if turn.leafVersion == 3 && turn.hIds == ZERO32 { return Err(LeafFieldsInconsistent); }
    var leaf := ComputeLeaf(terms.h, terms.channelId, turn);
    if leaf.Err? { return Err(leaf.error); }
    if !terms.sr25519(terms.enclaveKey, turn.enclaveSig, leaf.value) { return Err(InvalidEnclaveSignature); }
    if |proof.path| > 64 { return Err(MerklePathTooLong); }
    for i := 0 to |proof.path|
      invariant forall j :: 0 <= j < i ==> |proof.path[j].0| == 32
    {
      if |proof.path[i].0| != 32 { return Err(InvalidMerkleProof); }
    }
    if proof.merkleIndex > U32_MAX { return Err(InvalidMerkleProof); }
    if !Accepts(terms.h, leaf.value, proof.merkleIndex, proof.path, terms.root) { return Err(LeafNotInRoot); }
    return Ok(leaf.value);
  }

  // ---- one turn, in plain terms ----

  /** The hashed fields one after the other: a version hashes those of the versions before it and its own. */
  function Fields(channelId: Bytes, turn: VerifiedTurn): Bytes
    requires turn.turnIndex >= 0 && turn.gN >= 0
    requires turn.minerRecvMs >= 0 && turn.minerDoneMs >= 0 && turn.latencyMs >= 0
  {
    var timing :=
      LittleEndian(turn.minerRecvMs, 8) + LittleEndian(turn.minerDoneMs, 8) + LittleEndian(turn.latencyMs, 8);
    channelId + LittleEndian(turn.turnIndex, 4) + turn.hIn + turn.hOut + LittleEndian(turn.gN, 16)
    + match turn.leafVersion
      case 0 => []
      case 1 => timing
      case 2 => turn.decodePolicyHash + timing
      case _ => turn.decodePolicyHash + turn.hIds + turn.toplocHash + timing
  }

  predicate AllZero(b: Bytes) {
    forall i :: 0 <= i < |b| ==> b[i] == 0
  }

  /** Lengths, ranges, and which fields a version sets: policy from version 2 on, ids and toploc in version 3 alone,
      times in all but version 0. An expected policy excludes versions 0 and 1. */
  predicate TurnFits(terms: Terms, turn: VerifiedTurn) {
    && |terms.channelId| == |terms.root| == |terms.enclaveKey| == 32 && |turn.enclaveSig| == 64
    && |turn.hIn| == |turn.hOut| == |turn.decodePolicyHash| == |turn.hIds| == |turn.toplocHash| == 32
    && 0 <= turn.leafVersion <= 3
    && 0 <= turn.turnIndex < 0x1_0000_0000
    && 0 <= turn.gN < 0x1_0000_0000_0000_0000_0000_0000_0000_0000
    && 0 <= turn.minerRecvMs < 0x1_0000_0000_0000_0000
    && 0 <= turn.minerDoneMs < 0x1_0000_0000_0000_0000
    && 0 <= turn.latencyMs < 0x1_0000_0000_0000_0000
    && (turn.leafVersion >= 2 <==> !AllZero(turn.decodePolicyHash))
    && (turn.leafVersion == 3 <==> !AllZero(turn.hIds))
    && (turn.leafVersion == 3 <==> !AllZero(turn.toplocHash))
    && (turn.leafVersion == 0 ==> turn.minerRecvMs == 0 && turn.minerDoneMs == 0 && turn.latencyMs == 0)
    && (terms.expectedPolicy.Some? ==> turn.leafVersion >= 2 && turn.decodePolicyHash == terms.expectedPolicy.value)
  }

  /** The enclave signed the hash of the turn's fields, and the path leads from that hash to the root. */
  predicate TurnVerifies(terms: Terms, proof: TurnProof) {
    && TurnFits(terms, proof.turn)
    && var leaf := terms.h(Fields(terms.channelId, proof.turn));
       && terms.sr25519(terms.enclaveKey, proof.turn.enclaveSig, leaf)
       && |proof.path| <= 64 && (forall i :: 0 <= i < |proof.path| ==> |proof.path[i].0| == 32)
       && Accepts(terms.h, leaf, proof.merkleIndex, proof.path, terms.root)
  }

  lemma ZeroExactly(b: Bytes)
    requires |b| == 32
    ensures b == ZERO32 <==> AllZero(b)
  {
    assert AllZero(ZERO32);
    if AllZero(b) {
      assert forall i :: 0 <= i < 32 ==> b[i] == ZERO32[i];
    }
  }

  lemma FieldsExactly(channelId: Bytes, turn: VerifiedTurn)
    requires LeafPreimage(channelId, turn).Ok?
    ensures LeafPreimage(channelId, turn).value == Fields(channelId, turn)
  {
  }

  /** The leaf: when it exists, and what is hashed. */
  lemma FitsExactly(terms: Terms, turn: VerifiedTurn)
    ensures TurnFits(terms, turn) <==>
            && |terms.channelId| == |terms.root| == |terms.enclaveKey| == 32 && |turn.enclaveSig| == 64
            && LeafPreimage(terms.channelId, turn).Ok?
            && (turn.leafVersion >= 2 ==> turn.decodePolicyHash != ZERO32)
            && (terms.expectedPolicy.Some? ==>
                  turn.leafVersion >= 2 && turn.decodePolicyHash == terms.expectedPolicy.value)
  {
    hide AllZero;
    if |turn.decodePolicyHash| == |turn.hIds| == |turn.toplocHash| == 32 {
      ZeroExactly(turn.decodePolicyHash);
      ZeroExactly(turn.hIds);
      ZeroExactly(turn.toplocHash);
    }
  }

  /** When one turn verifies, and what its leaf is. */
  lemma TurnVerifiesExactly(terms: Terms, proof: TurnProof)
    ensures VerifyTurnProof(terms, proof).Ok? <==> TurnVerifies(terms, proof)
    ensures VerifyTurnProof(terms, proof).Ok? ==>
            VerifyTurnProof(terms, proof).value == terms.h(Fields(terms.channelId, proof.turn))
  {
    hide LeafPreimage, TurnFits, Fields;
    FitsExactly(terms, proof.turn);
    if LeafPreimage(terms.channelId, proof.turn).Ok? {
      FieldsExactly(terms.channelId, proof.turn);
    }
  }

  // ---- adding up the work ----

  /** The first thing wrong with the next turn, given what was seen before it. */
  function TurnError(terms: Terms, proof: TurnProof, merkleSeen: set<int>, turnsSeen: set<int>,
      total: nat): Option<ChannelError> {
    if !(0 <= proof.merkleIndex < MAX_TURNS) then Some(OutOfRangeMerkleIndex)
    else if proof.merkleIndex in merkleSeen then Some(DuplicateMerkleIndex)
    else if !(0 <= proof.turn.turnIndex <= U32_MAX) then Some(OutOfRangeTurnIndex)
    else if proof.turn.turnIndex in turnsSeen then Some(DuplicateVerifiedTurn)
    else if !(0 <= proof.turn.gN <= U128_MAX) then Some(InvalidGn)
    else
      match VerifyTurnProof(terms, proof)
      case Err(e) => Some(e)
      case Ok(_) => if total > U128_MAX - proof.turn.gN then Some(AggregateGnOverflow) else None
  }

  function WorkFrom(terms: Terms, proofs: seq<TurnProof>, merkleSeen: set<int>, turnsSeen: set<int>,
      total: nat): Result<nat, ChannelError>
    decreases |proofs|
  {
    if proofs == [] then Ok(total)
    else
      match TurnError(terms, proofs[0], merkleSeen, turnsSeen, total)
      case Some(e) => Err(e)
      case None =>
        WorkFrom(terms, proofs[1..], merkleSeen + {proofs[0].merkleIndex}, turnsSeen + {proofs[0].turn.turnIndex},
                 total + proofs[0].turn.gN)
  }

  function VerifiedWork(terms: Terms, proofs: seq<TurnProof>, aggregate: int): Result<nat, ChannelError> {
    if |terms.channelId| != HASH_SIZE then Err(InvalidChannelID)
    else if |terms.root| != HASH_SIZE then Err(InvalidRoot)
    else if !(0 <= aggregate <= U128_MAX) then Err(InvalidAggregateGn)
    else if |proofs| > MAX_TURNS then Err(TooManySettlementTurns)
    else
      match WorkFrom(terms, proofs, {}, {}, 0)
      case Err(e) => Err(e)
      case Ok(total) => if total != aggregate then Err(AggregateGnMismatch) else Ok(total)
  }

  method VerifiedWorkFromTurns(terms: Terms, turnProofs: seq<TurnProof>, aggregateGn: int)
    returns (r: Result<nat, ChannelError>)
    ensures r == VerifiedWork(terms, turnProofs, aggregateGn)
  {
    hide VerifyTurnProof;

    if |terms.channelId| != HASH_SIZE { return Err(InvalidChannelID); }
    if |terms.root| != HASH_SIZE { return Err(InvalidRoot); }
    if !(0 <= aggregateGn <= U128_MAX) { return Err(InvalidAggregateGn); }
    if |turnProofs| > MAX_TURNS { return Err(TooManySettlementTurns); }
    var seenTurnIndices: set<int>, seenMerkleIndices: set<int>, totalGn := {}, {}, 0;
    var i := 0;
    while i < |turnProofs|
      invariant 0 <= i <= |turnProofs| && totalGn >= 0
      invariant WorkFrom(terms, turnProofs, {}, {}, 0)
             == WorkFrom(terms, turnProofs[i..], seenMerkleIndices, seenTurnIndices, totalGn)
    {
      var item := turnProofs[i];
      assert turnProofs[i..][0] == item && turnProofs[i..][1..] == turnProofs[i + 1..];
      if !(0 <= item.merkleIndex < MAX_TURNS) { return Err(OutOfRangeMerkleIndex); }
      if item.merkleIndex in seenMerkleIndices { return Err(DuplicateMerkleIndex); }
      if !(0 <= item.turn.turnIndex <= U32_MAX) { return Err(OutOfRangeTurnIndex); }
      if item.turn.turnIndex in seenTurnIndices { return Err(DuplicateVerifiedTurn); }
      if !(0 <= item.turn.gN <= U128_MAX) { return Err(InvalidGn); }
      var checked := VerifyTurn(terms, item);
      if checked.Err? { return Err(checked.error); }
      if totalGn > U128_MAX - item.turn.gN { return Err(AggregateGnOverflow); }
      seenMerkleIndices := seenMerkleIndices + {item.merkleIndex};
      seenTurnIndices := seenTurnIndices + {item.turn.turnIndex};
      totalGn := totalGn + item.turn.gN;
      i := i + 1;
    }
    if totalGn != aggregateGn { return Err(AggregateGnMismatch); }
    return Ok(totalGn);
  }

  // ---- what acceptance means, without the loop ----

  ghost predicate TurnAcceptable(terms: Terms, proof: TurnProof) {
    proof.merkleIndex < 1024 && TurnVerifies(terms, proof)
  }

  /** Work is added over turns whose g_n is an unsigned integer; anything else counts for nothing. */
  function Gn(turn: VerifiedTurn): nat {
    if turn.gN >= 0 then turn.gN else 0
  }

  function ProofWork(proofs: seq<TurnProof>): nat {
    if proofs == [] then 0 else Gn(proofs[0].turn) + ProofWork(proofs[1..])
  }

  ghost predicate IndicesDistinct(proofs: seq<TurnProof>) {
    forall i, j :: 0 <= i < j < |proofs| ==>
      proofs[i].merkleIndex != proofs[j].merkleIndex && proofs[i].turn.turnIndex != proofs[j].turn.turnIndex
  }

  ghost predicate IndicesNew(proofs: seq<TurnProof>, merkleSeen: set<int>, turnsSeen: set<int>) {
    forall i :: 0 <= i < |proofs| ==> proofs[i].merkleIndex !in merkleSeen && proofs[i].turn.turnIndex !in turnsSeen
  }

  ghost predicate AllAcceptable(terms: Terms, proofs: seq<TurnProof>) {
    forall i :: 0 <= i < |proofs| ==> TurnAcceptable(terms, proofs[i])
  }

  lemma AcceptedTurnRanges(terms: Terms, proof: TurnProof)
    requires VerifyTurnProof(terms, proof).Ok?
    ensures LeafPreimage(terms.channelId, proof.turn).Ok? && IntegersOk(proof.turn)
    ensures 0 <= proof.merkleIndex <= U32_MAX
    ensures |terms.root| == 32
    ensures var leaf := terms.h(LeafPreimage(terms.channelId, proof.turn).value);
            Climb(terms.h, leaf, proof.merkleIndex, proof.path) == Some(terms.root)
  {
  }

  lemma {:induction false} WorkFromMeaning(terms: Terms, proofs: seq<TurnProof>, merkleSeen: set<int>,
      turnsSeen: set<int>, total: nat)
    requires total <= U128_MAX
    ensures WorkFrom(terms, proofs, merkleSeen, turnsSeen, total).Ok? <==>
            && AllAcceptable(terms, proofs) && IndicesDistinct(proofs) && IndicesNew(proofs, merkleSeen, turnsSeen)
            && total + ProofWork(proofs) <= U128_MAX
    ensures WorkFrom(terms, proofs, merkleSeen, turnsSeen, total).Ok? ==>
            WorkFrom(terms, proofs, merkleSeen, turnsSeen, total).value == total + ProofWork(proofs)
    decreases |proofs|
  {
    hide VerifyTurnProof, TurnVerifies;

    if proofs == [] {
    } else {
      var first, rest := proofs[0], proofs[1..];
      TurnVerifiesExactly(terms, first);
      if VerifyTurnProof(terms, first).Ok? {
        AcceptedTurnRanges(terms, first);
      }
      assert AllAcceptable(terms, proofs) <==> TurnAcceptable(terms, first) && AllAcceptable(terms, rest) by {
        assert forall i :: 0 < i < |proofs| ==> proofs[i] == rest[i - 1];
      }
      var m, t := merkleSeen + {first.merkleIndex}, turnsSeen + {first.turn.turnIndex};
      SeenStep(proofs, merkleSeen, turnsSeen);
      if TurnError(terms, first, merkleSeen, turnsSeen, total) == None {
        WorkFromMeaning(terms, rest, m, t, total + first.turn.gN);
      }
    }
  }

  lemma SeenStep(proofs: seq<TurnProof>, merkleSeen: set<int>, turnsSeen: set<int>)
    requires proofs != []
    ensures IndicesDistinct(proofs) && IndicesNew(proofs, merkleSeen, turnsSeen) <==>
            && proofs[0].merkleIndex !in merkleSeen && proofs[0].turn.turnIndex !in turnsSeen
            && IndicesDistinct(proofs[1..])
            && IndicesNew(proofs[1..], merkleSeen + {proofs[0].merkleIndex}, turnsSeen + {proofs[0].turn.turnIndex})
  {
    var rest := proofs[1..];
    assert forall i :: 0 < i < |proofs| ==> proofs[i] == rest[i - 1];
    assert forall i :: 0 <= i < |rest| ==> rest[i] == proofs[i + 1];
  }

  /** A collection is accepted exactly when it is small enough, every turn verifies on its own at a
      Merkle index below 1024, no Merkle index and no turn index repeats, and the work of the turns adds
      up to the claimed u128 total. */
  lemma AcceptanceIsExact(terms: Terms, proofs: seq<TurnProof>, aggregate: int)
    ensures VerifiedWork(terms, proofs, aggregate).Ok? <==>
            && |terms.channelId| == 32 && |terms.root| == 32 && |proofs| <= MAX_TURNS
            && AllAcceptable(terms, proofs) && IndicesDistinct(proofs)
            && ProofWork(proofs) == aggregate <= U128_MAX
    ensures VerifiedWork(terms, proofs, aggregate).Ok? ==> VerifiedWork(terms, proofs, aggregate).value == aggregate
  {
    hide VerifyTurnProof, WorkFrom, IndicesDistinct, AllAcceptable;

    WorkFromMeaning(terms, proofs, {}, {}, 0);
  }

  // ---- the committed side ----

  ghost predicate Committed(channelId: Bytes, turns: seq<VerifiedTurn>) {
    turns != [] && forall i :: 0 <= i < |turns| ==> LeafPreimage(channelId, turns[i]).Ok?
  }

  ghost function Preimages(channelId: Bytes, turns: seq<VerifiedTurn>): (p: seq<Bytes>)
    requires Committed(channelId, turns)
    ensures |p| == |turns|
    ensures forall i :: 0 <= i < |p| ==> p[i] == LeafPreimage(channelId, turns[i]).value
  {
    seq(|turns|, i requires 0 <= i < |turns| => LeafPreimage(channelId, turns[i]).value)
  }

  /** The Merkle root over the leaf hashes of the committed turns. */
  ghost function CommittedRoot(h: HashFunction, channelId: Bytes, turns: seq<VerifiedTurn>): Bytes
    requires Committed(channelId, turns)
  {
    Root(h, HashAll(h, Preimages(channelId, turns)))
  }

  function TurnWork(turns: seq<VerifiedTurn>): nat {
    if turns == [] then 0 else Gn(turns[0]) + TurnWork(turns[1..])
  }

  /** Every string hashed while committing the turns and while checking the submitted proofs. */
  ghost function SettlementPreimages(terms: Terms, channelId: Bytes, turns: seq<VerifiedTurn>,
      proofs: seq<TurnProof>): set<Bytes>
    requires Committed(channelId, turns)
    decreases |proofs|
  {
    if proofs == [] then {}
    else ProofPreimages(terms, channelId, turns, proofs[0]) + SettlementPreimages(terms, channelId, turns, proofs[1..])
  }

  ghost function ProofPreimages(terms: Terms, channelId: Bytes, turns: seq<VerifiedTurn>, proof: TurnProof): set<Bytes>
    requires Committed(channelId, turns)
  {
    match LeafPreimage(terms.channelId, proof.turn)
    case Err(_) => {}
    case Ok(preimage) => MembershipPreimages(terms.h, Preimages(channelId, turns), preimage, proof.path)
  }

  /** Membership, for every claimed path length: an accepted turn is one of the committed turns, in the
      committed channel, and is turn number `merkleIndex` when there is one. */
  lemma AcceptedTurnIsCommitted(terms: Terms, channelId: Bytes, turns: seq<VerifiedTurn>, proof: TurnProof,
      all: set<Bytes>)
    requires Committed(channelId, turns) && terms.root == CommittedRoot(terms.h, channelId, turns)
    requires VerifyTurnProof(terms, proof).Ok?
    requires CollisionFree(terms.h, all) && ProofPreimages(terms, channelId, turns, proof) <= all
    ensures terms.channelId == channelId
    ensures proof.merkleIndex >= 0
    ensures Unsigned(proof.turn) == Unsigned(turns[LeafPosition(proof.merkleIndex, |turns|)])
    ensures proof.merkleIndex < |turns| ==> Unsigned(proof.turn) == Unsigned(turns[proof.merkleIndex])
    ensures |proof.path| == Depth(|turns|)
  {
    hide VerifyTurnProof;
    AcceptedTurnRanges(terms, proof);
    var preimages := Preimages(channelId, turns);
    var preimage := LeafPreimage(terms.channelId, proof.turn).value;
    PreimageLength(terms.channelId, proof.turn);
    forall i | 0 <= i < |preimages|
      ensures |preimages[i]| != 64
    {
      PreimageLength(channelId, turns[i]);
    }
    AcceptedLeafIsCommitted(terms.h, preimages, preimage, proof.merkleIndex, proof.path, all);
    var position := LeafPosition(proof.merkleIndex, |turns|);
    PreimageInjective(terms.channelId, proof.turn, channelId, turns[position]);
    if proof.merkleIndex < |turns| {
      LeafPositionInRange(proof.merkleIndex, |turns|);
    }
  }

  /** The other way round: every committed turn whose signature verifies, and that meets the terms, is accepted with
      the path read off the tree. */
  lemma HonestTurnIsAccepted(terms: Terms, turns: seq<VerifiedTurn>, i: nat)
    requires Committed(terms.channelId, turns) && terms.root == CommittedRoot(terms.h, terms.channelId, turns)
    requires i < |turns| && i <= U32_MAX && Depth(|turns|) <= 64
    ensures var leaves := HashAll(terms.h, Preimages(terms.channelId, turns));
            var proof := TurnProof(i, turns[i], PathFor(terms.h, leaves, i));
            TurnVerifies(terms, proof) <==>
            && TurnFits(terms, turns[i])
            && terms.sr25519(terms.enclaveKey, turns[i].enclaveSig, terms.h(Fields(terms.channelId, turns[i])))
  {
    hide TurnFits, LeafPreimage, Fields, Root, Accepts;
    var leaves := HashAll(terms.h, Preimages(terms.channelId, turns));
    FieldsExactly(terms.channelId, turns[i]);
    MerkleCompleteness(terms.h, leaves, i);
    AcceptedPathShape(terms.h, leaves[i], i, PathFor(terms.h, leaves, i), terms.root);
  }

  lemma AcceptedPathShape(h: HashFunction, leaf: Bytes, index: int, path: Path, root: Bytes)
    requires Accepts(h, leaf, index, path, root)
    ensures |path| <= 64 && forall i :: 0 <= i < |path| ==> |path[i].0| == 32
  {
    ClimbedPathShape(h, leaf, index, path);
  }

  lemma {:induction false} ClimbedPathShape(h: HashFunction, current: Bytes, index: nat, path: Path)
    requires Climb(h, current, index, path).Some?
    ensures forall i :: 0 <= i < |path| ==> |path[i].0| == 32
    decreases |path|
  {
    if path != [] {
      ClimbedPathShape(h, h(Merkle.Join(current, path[0].0, path[0].1)), index / 2, path[1..]);
      assert forall i :: 0 < i < |path| ==> path[i] == path[1..][i - 1];
    }
  }

  /** The Merkle index is read only as far as the path is long: a verified turn verifies, with the same path, at
      exactly the indices with the same remainder modulo 2 to that length. */
  lemma VerifiedAtOtherIndices(terms: Terms, proof: TurnProof, index: int)
    requires VerifyTurnProof(terms, proof).Ok?
    ensures VerifyTurnProof(terms, proof.(merkleIndex := index)).Ok?
            <==> 0 <= index <= U32_MAX && index % Pow2(|proof.path|) == proof.merkleIndex % Pow2(|proof.path|)
  {
    hide Accepts, LeafPreimage, ComputeLeaf, PathWellFormed, Pow2;
    var leaf := VerifyTurnProof(terms, proof).value;
    SamePathOtherIndices(terms.h, leaf, proof.merkleIndex, index, proof.path, terms.root);
    AcceptedIndexInRange(terms.h, leaf, index, proof.path, terms.root);
  }

  lemma AcceptedIndexInRange(h: HashFunction, leaf: Bytes, index: int, path: Path, root: Bytes)
    ensures Accepts(h, leaf, index, path, root) ==> 0 <= index <= U32_MAX
  {
  }

  /** `positions` picks a different committed turn for every proof, with the same fields. */
  ghost predicate Selects(turns: seq<VerifiedTurn>, proofs: seq<TurnProof>, positions: seq<nat>) {
    && |positions| == |proofs|
    && (forall i :: 0 <= i < |positions| ==>
          positions[i] < |turns| && Unsigned(proofs[i].turn) == Unsigned(turns[positions[i]]))
    && (forall i, j :: 0 <= i < j < |positions| ==> positions[i] != positions[j])
  }

  /** The committed positions the Merkle indices of the proofs lead to. */
  ghost function Positions(proofs: seq<TurnProof>, count: nat): (positions: seq<nat>)
    requires count > 0
    ensures |positions| == |proofs|
    ensures forall i :: 0 <= i < |proofs| && proofs[i].merkleIndex >= 0 ==>
            positions[i] == LeafPosition(proofs[i].merkleIndex, count)
  {
    seq(|proofs|, i requires 0 <= i < |proofs| =>
      if proofs[i].merkleIndex >= 0 then LeafPosition(proofs[i].merkleIndex, count) else 0)
  }

  lemma {:induction false} EachProofIsCovered(terms: Terms, channelId: Bytes, turns: seq<VerifiedTurn>,
      proofs: seq<TurnProof>, i: nat)
    requires Committed(channelId, turns) && i < |proofs|
    ensures ProofPreimages(terms, channelId, turns, proofs[i]) <= SettlementPreimages(terms, channelId, turns, proofs)
    decreases |proofs|
  {
    hide ProofPreimages;
    if i == 0 {
    } else {
      EachProofIsCovered(terms, channelId, turns, proofs[1..], i - 1);
    }
  }

  lemma PositionsAreCommitted(terms: Terms, channelId: Bytes, turns: seq<VerifiedTurn>, proofs: seq<TurnProof>,
      i: nat, all: set<Bytes>)
    requires Committed(channelId, turns) && terms.root == CommittedRoot(terms.h, channelId, turns)
    requires i < |proofs| && VerifyTurnProof(terms, proofs[i]).Ok?
    requires CollisionFree(terms.h, all) && SettlementPreimages(terms, channelId, turns, proofs) <= all
    ensures terms.channelId == channelId && proofs[i].merkleIndex >= 0
    ensures var p := Positions(proofs, |turns|)[i];
            && p < |turns| && Unsigned(proofs[i].turn) == Unsigned(turns[p])
            && (proofs[i].merkleIndex < |turns| ==> p == proofs[i].merkleIndex)
  {
    hide VerifyTurnProof, SettlementPreimages, CommittedRoot;
    EachProofIsCovered(terms, channelId, turns, proofs, i);
    AcceptedTurnIsCommitted(terms, channelId, turns, proofs[i], all);
    if proofs[i].merkleIndex < |turns| {
      LeafPositionInRange(proofs[i].merkleIndex, |turns|);
    }
  }

  /** Two proofs of the same committed turn would carry the same turn index. */
  lemma TurnIndicesPreventDoubleCounting(turns: seq<VerifiedTurn>, proofs: seq<TurnProof>, positions: seq<nat>)
    requires |positions| == |proofs| && IndicesDistinct(proofs)
    requires forall i :: 0 <= i < |positions| ==>
            positions[i] < |turns| && Unsigned(proofs[i].turn) == Unsigned(turns[positions[i]])
    ensures Selects(turns, proofs, positions)
  {
    forall i, j | 0 <= i < j < |positions|
      ensures positions[i] != positions[j]
    {
      assert Unsigned(proofs[i].turn).turnIndex == proofs[i].turn.turnIndex;
      assert Unsigned(proofs[j].turn).turnIndex == proofs[j].turn.turnIndex;
    }
  }

  // ---- selecting each turn at most once cannot add work ----

  /** The work of the committed turns whose positions are in `chosen`. */
  ghost function ChosenWork(turns: seq<VerifiedTurn>, chosen: set<nat>, upTo: nat): nat
    requires upTo <= |turns|
  {
    if upTo == 0 then 0
    else ChosenWork(turns, chosen, upTo - 1) + if upTo - 1 in chosen then Gn(turns[upTo - 1]) else 0
  }

  lemma {:induction false} ChooseOneMore(turns: seq<VerifiedTurn>, chosen: set<nat>, position: nat, upTo: nat)
    requires upTo <= |turns| && position !in chosen
    ensures ChosenWork(turns, chosen + {position}, upTo)
            == ChosenWork(turns, chosen, upTo) + if position < upTo then Gn(turns[position]) else 0
  {
    if upTo > 0 {
      ChooseOneMore(turns, chosen, position, upTo - 1);
    }
  }

  lemma {:induction false} ChosenIsAtMostAll(turns: seq<VerifiedTurn>, chosen: set<nat>, upTo: nat)
    requires upTo <= |turns|
    ensures ChosenWork(turns, chosen, upTo) <= TurnWork(turns[..upTo])
  {
    if upTo > 0 {
      ChosenIsAtMostAll(turns, chosen, upTo - 1);
      TurnWorkSnoc(turns[..upTo - 1], turns[upTo - 1]);
      assert turns[..upTo] == turns[..upTo - 1] + [turns[upTo - 1]];
    } else {
      assert turns[..0] == [];
    }
  }

  lemma {:induction false} TurnWorkSnoc(turns: seq<VerifiedTurn>, last: VerifiedTurn)
    ensures TurnWork(turns + [last]) == TurnWork(turns) + Gn(last)
  {
    if turns == [] {
      assert [last][1..] == [];
    } else {
      TurnWorkSnoc(turns[1..], last);
      assert (turns + [last])[1..] == turns[1..] + [last];
    }
  }

  ghost function PositionSet(positions: seq<nat>): (chosen: set<nat>)
    ensures forall p :: p in chosen ==> p in positions
  {
    if positions == [] then {} else PositionSet(positions[1..]) + {positions[0]}
  }

  lemma SelectsTail(turns: seq<VerifiedTurn>, proofs: seq<TurnProof>, positions: seq<nat>)
    requires Selects(turns, proofs, positions) && proofs != []
    ensures Selects(turns, proofs[1..], positions[1..])
    ensures positions[0] < |turns| && positions[0] !in positions[1..]
    ensures Gn(proofs[0].turn) == Gn(turns[positions[0]])
  {
    var rest, tail := proofs[1..], positions[1..];
    assert forall i :: 0 <= i < |tail| ==> tail[i] == positions[i + 1] && rest[i] == proofs[i + 1];
    assert Unsigned(proofs[0].turn).gN == proofs[0].turn.gN;
    assert Unsigned(turns[positions[0]]).gN == turns[positions[0]].gN;
  }

  lemma {:induction false} SelectedWork(turns: seq<VerifiedTurn>, proofs: seq<TurnProof>, positions: seq<nat>)
    requires Selects(turns, proofs, positions)
    ensures ProofWork(proofs) == ChosenWork(turns, PositionSet(positions), |turns|)
    decreases |proofs|
  {
    hide Selects, Gn;
    if proofs == [] {
      assert positions == [] by { LengthsAgree(turns, proofs, positions); }
      NothingChosen(turns, |turns|);
    } else {
      LengthsAgree(turns, proofs, positions);
      SelectsTail(turns, proofs, positions);
      SelectedWork(turns, proofs[1..], positions[1..]);
      ChooseOneMore(turns, PositionSet(positions[1..]), positions[0], |turns|);
    }
  }

  lemma LengthsAgree(turns: seq<VerifiedTurn>, proofs: seq<TurnProof>, positions: seq<nat>)
    requires Selects(turns, proofs, positions)
    ensures |positions| == |proofs|
  {
  }

  lemma {:induction false} NothingChosen(turns: seq<VerifiedTurn>, upTo: nat)
    requires upTo <= |turns|
    ensures ChosenWork(turns, {}, upTo) == 0
  {
    if upTo > 0 {
      NothingChosen(turns, upTo - 1);
    }
  }

  ghost predicate Conserved(turns: seq<VerifiedTurn>, proofs: seq<TurnProof>, positions: seq<nat>, total: nat) {
    && Selects(turns, proofs, positions)
    && (forall i :: 0 <= i < |proofs| && 0 <= proofs[i].merkleIndex < |turns| ==> positions[i] == proofs[i].merkleIndex)
    && total == ProofWork(proofs) <= TurnWork(turns)
  }

  /** Conservation. If the root commits to `turns`, a collection that settles is a selection of
      committed turns, each used at most once with its committed fields, in the committed channel, and
      the settled total is at most the committed work; or committing and checking hashed two different
      strings to the same digest, and here they are. */
  lemma AcceptedWorkNeverExceedsCommittedWork(
      terms: Terms, channelId: Bytes, turns: seq<VerifiedTurn>, proofs: seq<TurnProof>, aggregate: int)
    returns (positions: seq<nat>, a: Bytes, b: Bytes)
    requires Committed(channelId, turns) && terms.root == CommittedRoot(terms.h, channelId, turns)
    requires VerifiedWork(terms, proofs, aggregate).Ok?
    ensures || (Conserved(turns, proofs, positions, VerifiedWork(terms, proofs, aggregate).value)
                && (proofs != [] ==> terms.channelId == channelId))
            || CollisionAmong(terms.h, SettlementPreimages(terms, channelId, turns, proofs), a, b)
  {
    hide VerifyTurnProof, SettlementPreimages, CommittedRoot, Unsigned, VerifiedWork;
    positions, a, b := [], [], [];
    var all := SettlementPreimages(terms, channelId, turns, proofs);
    AcceptanceIsExact(terms, proofs, aggregate);
    if CollisionFree(terms.h, all) {
      positions := Positions(proofs, |turns|);
      forall i | 0 <= i < |proofs|
        ensures positions[i] < |turns| && Unsigned(proofs[i].turn) == Unsigned(turns[positions[i]])
        ensures proofs[i].merkleIndex < |turns| ==> positions[i] == proofs[i].merkleIndex
        ensures terms.channelId == channelId
      {
        assert TurnAcceptable(terms, proofs[i]);
        TurnVerifiesExactly(terms, proofs[i]);
        PositionsAreCommitted(terms, channelId, turns, proofs, i, all);
      }
      TurnIndicesPreventDoubleCounting(turns, proofs, positions);
      SelectedWork(turns, proofs, positions);
      ChosenIsAtMostAll(turns, PositionSet(positions), |turns|);
      assert turns[..|turns|] == turns;
    } else {
      a, b := PickCollision(terms.h, all);
    }
  }

  /** All committed turns, each with the path read off the tree. */
  ghost function HonestProofs(terms: Terms, turns: seq<VerifiedTurn>): (proofs: seq<TurnProof>)
    requires Committed(terms.channelId, turns)
    ensures |proofs| == |turns|
    ensures forall i :: 0 <= i < |proofs| ==> proofs[i].merkleIndex == i && proofs[i].turn == turns[i]
  {
    var leaves := HashAll(terms.h, Preimages(terms.channelId, turns));
    seq(|turns|, i requires 0 <= i < |turns| => TurnProof(i, turns[i], PathFor(terms.h, leaves, i)))
  }

  lemma {:induction false} HonestWork(proofs: seq<TurnProof>, turns: seq<VerifiedTurn>)
    requires |proofs| == |turns| && forall i :: 0 <= i < |proofs| ==> proofs[i].turn == turns[i]
    ensures ProofWork(proofs) == TurnWork(turns)
    decreases |proofs|
  {
    if proofs != [] {
      assert forall i :: 0 <= i < |proofs| - 1 ==> proofs[1..][i] == proofs[i + 1] && turns[1..][i] == turns[i + 1];
      HonestWork(proofs[1..], turns[1..]);
    }
  }

  predicate HonestTurn(terms: Terms, turn: VerifiedTurn) {
    && TurnFits(terms, turn)
    && terms.sr25519(terms.enclaveKey, turn.enclaveSig, terms.h(Fields(terms.channelId, turn)))
  }

  /** Everything that was committed can be settled at once, for its whole work, exactly when there are at most 1024
      turns, each meets the terms under a valid signature, no turn index repeats, and the work is a u128. */
  lemma HonestSettlement(terms: Terms, turns: seq<VerifiedTurn>)
    requires Committed(terms.channelId, turns) && terms.root == CommittedRoot(terms.h, terms.channelId, turns)
    ensures VerifiedWork(terms, HonestProofs(terms, turns), TurnWork(turns)) == Ok(TurnWork(turns)) <==>
            && |turns| <= 1024 && TurnWork(turns) <= U128_MAX
            && (forall i :: 0 <= i < |turns| ==> HonestTurn(terms, turns[i]))
            && forall i, j :: 0 <= i < j < |turns| ==> turns[i].turnIndex != turns[j].turnIndex
  {
    hide VerifiedWork, AllAcceptable, IndicesDistinct, HonestTurn, Committed, CommittedRoot, HonestProofs, ProofWork,
         TurnWork;
    var proofs := HonestProofs(terms, turns);
    HonestWork(proofs, turns);
    AcceptanceIsExact(terms, proofs, TurnWork(turns));
    CommittedLengths(terms, turns);
    HonestIndices(proofs, turns);
    if |turns| <= 1024 {
      HonestProofsAcceptable(terms, turns);
    }
  }

  lemma HonestProofsAcceptable(terms: Terms, turns: seq<VerifiedTurn>)
    requires Committed(terms.channelId, turns) && terms.root == CommittedRoot(terms.h, terms.channelId, turns)
    requires |turns| <= 1024
    ensures AllAcceptable(terms, HonestProofs(terms, turns)) <==>
            forall i :: 0 <= i < |turns| ==> HonestTurn(terms, turns[i])
  {
    hide TurnAcceptable, HonestTurn, Committed, CommittedRoot, HonestProofs;
    var proofs := HonestProofs(terms, turns);
    forall i | 0 <= i < |turns|
      ensures TurnAcceptable(terms, proofs[i]) <==> HonestTurn(terms, turns[i])
    {
      HonestProofAcceptable(terms, turns, i);
    }
  }

  lemma HonestProofAcceptable(terms: Terms, turns: seq<VerifiedTurn>, i: nat)
    requires Committed(terms.channelId, turns) && terms.root == CommittedRoot(terms.h, terms.channelId, turns)
    requires i < |turns| <= 1024
    ensures TurnAcceptable(terms, HonestProofs(terms, turns)[i]) <==> HonestTurn(terms, turns[i])
  {
    hide TurnVerifies, TurnFits, Fields, Committed, CommittedRoot, PathFor, Depth;
    DepthOfTurns(|turns|);
    HonestTurnIsAccepted(terms, turns, i);
  }

  lemma HonestIndices(proofs: seq<TurnProof>, turns: seq<VerifiedTurn>)
    requires |proofs| == |turns|
    requires forall i :: 0 <= i < |proofs| ==> proofs[i].merkleIndex == i && proofs[i].turn == turns[i]
    ensures IndicesDistinct(proofs) <==>
            forall i, j :: 0 <= i < j < |turns| ==> turns[i].turnIndex != turns[j].turnIndex
  {
    if IndicesDistinct(proofs) {
      forall i, j | 0 <= i < j < |turns|
        ensures turns[i].turnIndex != turns[j].turnIndex
      {
        assert proofs[i].turn.turnIndex != proofs[j].turn.turnIndex;
      }
    }
  }

  lemma CommittedLengths(terms: Terms, turns: seq<VerifiedTurn>)
    requires Committed(terms.channelId, turns) && terms.root == CommittedRoot(terms.h, terms.channelId, turns)
    ensures |terms.channelId| == 32 && |terms.root| == 32
  {
    assert LeafPreimage(terms.channelId, turns[0]).Ok?;
  }

  lemma DepthOfTurns(n: nat)
    requires 0 < n <= 1024
    ensures Depth(n) <= 64
  {
    hide Depth;
    assert Pow2(10) == 1024;
    DepthBound(n, 10);
  }

  // ---- the agent's receipt ----

  datatype Receipt = Receipt(aggregateGn: int, payable: int, agentKey: Bytes, signature: Bytes)

  const RECEIPT_PREFIX: string := "FLOP/COMPUTE_CHANNEL/RECEIPT"

  function Ascii(s: string): (b: Bytes)
    ensures |b| == |s|
  {
    seq(|s|, i requires 0 <= i < |s| => (s[i] as int % 256) as byte)
  }

  function ReceiptPayload(channelId: Bytes, root: Bytes, receipt: Receipt): Bytes
    requires receipt.aggregateGn >= 0 && receipt.payable >= 0
  {
    Ascii(RECEIPT_PREFIX) + [1] + channelId + root
    + LittleEndian(receipt.aggregateGn, 16) + LittleEndian(receipt.payable, 16)
  }

  function VerifyReceipt(terms: Terms, receipt: Receipt, proofs: seq<TurnProof>): Result<nat, ChannelError> {
    if |terms.channelId| != HASH_SIZE then Err(InvalidChannelID)
    else if |terms.root| != HASH_SIZE then Err(InvalidRoot)
    else if !(0 <= receipt.aggregateGn <= U128_MAX) then Err(InvalidAggregateGn)
    else if !(0 <= receipt.payable <= U128_MAX) then Err(InvalidPayable)
    else if |receipt.agentKey| != HASH_SIZE then Err(InvalidAgentPublicKey)
    else if |receipt.signature| != SIGNATURE_SIZE then Err(InvalidReceiptSignature)
    else if !terms.sr25519(receipt.agentKey, receipt.signature, ReceiptPayload(terms.channelId, terms.root, receipt))
      then Err(BadReceiptSignature)
    else VerifiedWork(terms, proofs, receipt.aggregateGn)
  }

  /** The tag, as ASCII codes. */
  predicate Tags(p: Bytes) {
    |p| >= 28 && forall i :: 0 <= i < 28 ==> p[i] as int == "FLOP/COMPUTE_CHANNEL/RECEIPT"[i] as int
  }

  lemma ReceiptTag()
    ensures |Ascii(RECEIPT_PREFIX)| == 28 && Tags(Ascii(RECEIPT_PREFIX))
  {
    assert forall i :: 0 <= i < 28 ==> RECEIPT_PREFIX[i] as int < 128;
  }

  /** The 125 signed bytes, place by place: a tag, the number 1, the channel, the root and the two amounts, each
      amount in 16 bytes with the lowest first. */
  lemma ReceiptLayout(channelId: Bytes, root: Bytes, receipt: Receipt)
    requires |channelId| == |root| == 32
    requires 0 <= receipt.aggregateGn <= U128_MAX && 0 <= receipt.payable <= U128_MAX
    ensures var p := ReceiptPayload(channelId, root, receipt);
            && |p| == 125
            && Tags(p) && p[28] == 1 && p[29..61] == channelId && p[61..93] == root
            && FromLittleEndian(p[93..109]) == receipt.aggregateGn && FromLittleEndian(p[109..125]) == receipt.payable
  {
    hide Ascii, LittleEndian, FromLittleEndian;
    var p := ReceiptPayload(channelId, root, receipt);
    assert p[93..109] == LittleEndian(receipt.aggregateGn, 16) && p[109..125] == LittleEndian(receipt.payable, 16);
    WidthsFit();
    DecodeEncode(receipt.aggregateGn, 16);
    DecodeEncode(receipt.payable, 16);
    ReceiptTag();
    assert p[..28] == Ascii(RECEIPT_PREFIX);
  }

  /** When a receipt is accepted: ranges and lengths, the agent's signature over the payload, and turns that settle
      at exactly the amount of work it states. */
  lemma ReceiptExactly(terms: Terms, receipt: Receipt, proofs: seq<TurnProof>)
    ensures VerifyReceipt(terms, receipt, proofs).Ok? <==>
            && |terms.channelId| == |terms.root| == |receipt.agentKey| == 32 && |receipt.signature| == 64
            && 0 <= receipt.aggregateGn <= U128_MAX && 0 <= receipt.payable <= U128_MAX
            && terms.sr25519(receipt.agentKey, receipt.signature, ReceiptPayload(terms.channelId, terms.root, receipt))
            && |proofs| <= 1024 && AllAcceptable(terms, proofs) && IndicesDistinct(proofs)
            && ProofWork(proofs) == receipt.aggregateGn
    ensures VerifyReceipt(terms, receipt, proofs).Ok? ==>
            VerifyReceipt(terms, receipt, proofs).value == receipt.aggregateGn
  {
    hide VerifiedWork, AllAcceptable, IndicesDistinct, ProofWork, ReceiptPayload;
    AcceptanceIsExact(terms, proofs, receipt.aggregateGn);
  }

  /** verify_receipt, check by check. */
  method CheckReceipt(terms: Terms, receipt: Receipt, proofs: seq<TurnProof>) returns (r: Result<nat, ChannelError>)
    ensures r == VerifyReceipt(terms, receipt, proofs)
  {
    hide VerifiedWork, ReceiptPayload;
    if |terms.channelId| != 32 { return Err(InvalidChannelID); }
    if |terms.root| != 32 { return Err(InvalidRoot); }
    if !(0 <= receipt.aggregateGn <= U128_MAX) { return Err(InvalidAggregateGn); }
    if !(0 <= receipt.payable <= U128_MAX) { return Err(InvalidPayable); }
    if |receipt.agentKey| != 32 { return Err(InvalidAgentPublicKey); }
    if |receipt.signature| != 64 { return Err(InvalidReceiptSignature); }
    var payload := ReceiptPayload(terms.channelId, terms.root, receipt);
    if !terms.sr25519(receipt.agentKey, receipt.signature, payload) { return Err(BadReceiptSignature); }
    r := VerifiedWorkFromTurns(terms, proofs, receipt.aggregateGn);
  }

  /** The agent signs one channel, one root and one pair of amounts: the payload determines them all. */
  lemma ReceiptPayloadInjective(c: Bytes, root: Bytes, receipt: Receipt, d: Bytes, root2: Bytes, receipt2: Receipt)
    requires |c| == |root| == |d| == |root2| == 32
    requires 0 <= receipt.aggregateGn <= U128_MAX && 0 <= receipt.payable <= U128_MAX
    requires 0 <= receipt2.aggregateGn <= U128_MAX && 0 <= receipt2.payable <= U128_MAX
    requires ReceiptPayload(c, root, receipt) == ReceiptPayload(d, root2, receipt2)
    ensures c == d && root == root2 && receipt.aggregateGn == receipt2.aggregateGn
    ensures receipt.payable == receipt2.payable
  {
    var p := Ascii(RECEIPT_PREFIX) + [1];
    var g, y := LittleEndian(receipt.aggregateGn, 16), LittleEndian(receipt.payable, 16);
    var g2, y2 := LittleEndian(receipt2.aggregateGn, 16), LittleEndian(receipt2.payable, 16);
    ConcatSplit(p + c + root + g, y, p + d + root2 + g2, y2);
    ConcatSplit(p + c + root, g, p + d + root2, g2);
    ConcatSplit(p + c, root, p + d, root2);
    ConcatSplit(p, c, p, d);
    WidthsFit();
    LittleEndianInjective(receipt.aggregateGn, receipt2.aggregateGn, 16);
    LittleEndianInjective(receipt.payable, receipt2.payable, 16);
  }

  /** In an accepted receipt the work the agent signed for is conserved: it is the work of a selection of the turns
      committed under the root it signed, in the committed channel. */
  lemma AcceptedReceiptIsConserved(
      terms: Terms, channelId: Bytes, turns: seq<VerifiedTurn>, proofs: seq<TurnProof>, receipt: Receipt)
    returns (positions: seq<nat>, a: Bytes, b: Bytes)
    requires Committed(channelId, turns) && terms.root == CommittedRoot(terms.h, channelId, turns)
    requires VerifyReceipt(terms, receipt, proofs).Ok?
    ensures receipt.aggregateGn >= 0 && receipt.payable >= 0
    ensures terms.sr25519(receipt.agentKey, receipt.signature, ReceiptPayload(terms.channelId, terms.root, receipt))
    ensures || (&& Conserved(turns, proofs, positions, receipt.aggregateGn)
                && (proofs != [] ==> terms.channelId == channelId))
            || CollisionAmong(terms.h, SettlementPreimages(terms, channelId, turns, proofs), a, b)
  {
    hide VerifyTurnProof, WorkFrom, ReceiptPayload;

    AcceptanceIsExact(terms, proofs, receipt.aggregateGn);
    positions, a, b := AcceptedWorkNeverExceedsCommittedWork(terms, channelId, turns, proofs, receipt.aggregateGn);
  }

  /** The payable amount is not bound to the work. In an accepted receipt it can be replaced by any other amount:
      the verdict stays the same exactly when the amount is a u128 and the agent's signature over it is supplied. */
  lemma PayableIsNotBoundToWork(terms: Terms, receipt: Receipt, proofs: seq<TurnProof>, payable: int, signature: Bytes)
    requires VerifyReceipt(terms, receipt, proofs).Ok?
    ensures var other := receipt.(payable := payable, signature := signature);
            VerifyReceipt(terms, other, proofs) == VerifyReceipt(terms, receipt, proofs)
            <==> 0 <= payable <= U128_MAX && |signature| == SIGNATURE_SIZE
                 && terms.sr25519(receipt.agentKey, signature, ReceiptPayload(terms.channelId, terms.root, other))
  {
    hide VerifiedWork, ReceiptPayload;
  }

  /** An instance: no turns, no work, and the largest amount there is payable. */
  lemma NoWorkFullPay(h: HashFunction)
    ensures var terms := Terms(h, (_, _, _) => true, ZERO32, ZERO32, ZERO32, None);
            VerifyReceipt(terms, Receipt(0, U128_MAX, ZERO32, ZERO32 + ZERO32), []) == Ok(0)
  {
    hide ReceiptPayload, VerifyTurnProof;
    var terms := Terms(h, (_, _, _) => true, ZERO32, ZERO32, ZERO32, None);
    assert WorkFrom(terms, [], {}, {}, 0) == Ok(0);
  }
}
