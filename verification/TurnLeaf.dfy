/** VerifiedTurn records and the preimages of their leaf hashes, versions 0 to 3. */
module TurnLeaf {
  import opened Prelude

  const MAX_TURNS := 1024

  datatype ChannelError =
    | TruncatedTranscript | UnknownFCCVersion | TooManyTurns | FlagOutOfRange | TrailingBytes
    | UnsupportedLeafVersion | LeafFieldsInconsistent | WrongHashLength | IntegerOutOfRange
    | InvalidChannelID | InvalidMerkleIndex | InvalidRoot | InvalidEnclavePublicKey | InvalidEnclaveSignature
    | InvalidDecodePolicyHash | DecodePolicyMismatch | MerklePathTooLong | InvalidMerkleProof | LeafNotInRoot
    | InvalidAggregateGn | TooManySettlementTurns | OutOfRangeMerkleIndex | DuplicateMerkleIndex
    | OutOfRangeTurnIndex | DuplicateVerifiedTurn | InvalidGn | AggregateGnOverflow | AggregateGnMismatch
    | InvalidPayable | InvalidAgentPublicKey | InvalidReceiptSignature | BadReceiptSignature

  datatype Ack = Ack(sendMs: int, receiveMs: int, signature: Bytes)

  datatype VerifiedTurn = VerifiedTurn(
    leafVersion: int,
    turnIndex: int,
    hIn: Bytes,
    hOut: Bytes,
    gN: int,
    decodePolicyHash: Bytes,
    hIds: Bytes,
    toplocHash: Bytes,
    minerRecvMs: int,
    minerDoneMs: int,
    latencyMs: int,
    enclaveSig: Bytes,
    agentAck: Option<Ack>)

  /** The turn without the two fields no leaf hash covers: its signature and the agent's ack. */
  function Unsigned(turn: VerifiedTurn): VerifiedTurn {
    turn.(enclaveSig := [], agentAck := None)
  }

  predicate HashLengthsOk(channelId: Bytes, turn: VerifiedTurn) {
    && |channelId| == 32 && |turn.hIn| == 32 && |turn.hOut| == 32
    && |turn.decodePolicyHash| == 32 && |turn.hIds| == 32 && |turn.toplocHash| == 32
  }

  predicate IntegersOk(turn: VerifiedTurn) {
    && 0 <= turn.turnIndex <= U32_MAX
    && 0 <= turn.gN <= U128_MAX
    && 0 <= turn.minerRecvMs <= U64_MAX
    && 0 <= turn.minerDoneMs <= U64_MAX
    && 0 <= turn.latencyMs <= U64_MAX
  }

  /** A version must leave the fields of newer versions zero, and version 3 must set its own. */
  predicate FieldsFitVersion(turn: VerifiedTurn) {
    && (turn.leafVersion <= 1 ==> turn.decodePolicyHash == ZERO32)
    && (turn.leafVersion <= 2 ==> turn.hIds == ZERO32 && turn.toplocHash == ZERO32)
    && (turn.leafVersion == 0 ==> turn.minerRecvMs == 0 && turn.minerDoneMs == 0 && turn.latencyMs == 0)
    && (turn.leafVersion == 3 ==>
          turn.decodePolicyHash != ZERO32 && turn.hIds != ZERO32 && turn.toplocHash != ZERO32)
  }

  /** What every version hashes: 116 bytes. */
  function Head(channelId: Bytes, turn: VerifiedTurn): Bytes
    requires IntegersOk(turn)
  {
    channelId + (LittleEndian(turn.turnIndex, 4) + (turn.hIn + (turn.hOut + LittleEndian(turn.gN, 16))))
  }

  function Timing(turn: VerifiedTurn): (b: Bytes)
    requires IntegersOk(turn)
    ensures |b| == 24
  {
    LittleEndian(turn.minerRecvMs, 8) + (LittleEndian(turn.minerDoneMs, 8) + LittleEndian(turn.latencyMs, 8))
  }

  /** What a version adds to the head: nothing, timing, policy and timing, or everything. */
  function Tail(turn: VerifiedTurn): Bytes
    requires IntegersOk(turn)
  {
    (if turn.leafVersion >= 2 then turn.decodePolicyHash else [])
    + ((if turn.leafVersion == 3 then turn.hIds + turn.toplocHash else [])
       + (if turn.leafVersion >= 1 then Timing(turn) else []))
  }

  function LeafPreimage(channelId: Bytes, turn: VerifiedTurn): (r: Result<Bytes, ChannelError>)
    ensures r.Ok? <==>
            && turn.leafVersion in {0, 1, 2, 3}
            && HashLengthsOk(channelId, turn) && IntegersOk(turn) && FieldsFitVersion(turn)
  {
    if turn.leafVersion !in {0, 1, 2, 3} then Err(UnsupportedLeafVersion)
    else if !HashLengthsOk(channelId, turn) then Err(WrongHashLength)
    else if !IntegersOk(turn) then Err(IntegerOutOfRange)
    else if !FieldsFitVersion(turn) then Err(LeafFieldsInconsistent)
    else Ok(Head(channelId, turn) + Tail(turn))
  }

  function ComputeLeaf(h: HashFunction, channelId: Bytes, turn: VerifiedTurn): (r: Result<Bytes, ChannelError>)
    ensures r.Ok? ==> |r.value| == 32
  {
    match LeafPreimage(channelId, turn)
    case Err(e) => Err(e)
    case Ok(preimage) => Ok(h(preimage))
  }

  /** Preimage lengths tell the versions apart, and none is the 64 bytes of a Merkle node. */
  lemma PreimageLength(channelId: Bytes, turn: VerifiedTurn)
    requires LeafPreimage(channelId, turn).Ok?
    ensures |Head(channelId, turn)| == 116
    ensures |LeafPreimage(channelId, turn).value|
            == match turn.leafVersion case 0 => 116 case 1 => 140 case 2 => 172 case _ => 236
  {
  }

  /** The preimage byte by byte: where each field is, and which fields each version has. */
  lemma PreimageLayout(channelId: Bytes, turn: VerifiedTurn)
    requires LeafPreimage(channelId, turn).Ok?
    ensures var p, timing := LeafPreimage(channelId, turn).value,
              LittleEndian(turn.minerRecvMs, 8) + LittleEndian(turn.minerDoneMs, 8) + LittleEndian(turn.latencyMs, 8);
            && p[..32] == channelId && p[32..36] == LittleEndian(turn.turnIndex, 4)
            && p[36..68] == turn.hIn && p[68..100] == turn.hOut && p[100..116] == LittleEndian(turn.gN, 16)
            && p[116..] == match turn.leafVersion
                           case 0 => []
                           case 1 => timing
                           case 2 => turn.decodePolicyHash + timing
                           case _ => turn.decodePolicyHash + turn.hIds + turn.toplocHash + timing
  {
    hide LittleEndian, Head, Tail;
    PreimageLength(channelId, turn);
    var head, tail, p := Head(channelId, turn), Tail(turn), LeafPreimage(channelId, turn).value;
    assert p == head + tail && p[116..] == tail;
    assert p[..32] == head[..32] && p[32..36] == head[32..36] && p[36..68] == head[36..68];
    assert p[68..100] == head[68..100] && p[100..116] == head[100..116];
    HeadLayout(channelId, turn);
    TailLayout(turn);
  }

  lemma HeadLayout(channelId: Bytes, turn: VerifiedTurn)
    requires HashLengthsOk(channelId, turn) && IntegersOk(turn)
    ensures var head := Head(channelId, turn);
            && |head| == 116 && head[..32] == channelId && head[32..36] == LittleEndian(turn.turnIndex, 4)
            && head[36..68] == turn.hIn && head[68..100] == turn.hOut && head[100..116] == LittleEndian(turn.gN, 16)
  {
    hide LittleEndian;
  }

  lemma TailLayout(turn: VerifiedTurn)
    requires turn.leafVersion in {0, 1, 2, 3} && IntegersOk(turn)
    ensures var timing := LittleEndian(turn.minerRecvMs, 8) + LittleEndian(turn.minerDoneMs, 8)
            + LittleEndian(turn.latencyMs, 8);
            Tail(turn) == match turn.leafVersion
                          case 0 => []
                          case 1 => timing
                          case 2 => turn.decodePolicyHash + timing
                          case _ => turn.decodePolicyHash + turn.hIds + turn.toplocHash + timing
  {
    hide LittleEndian;
  }

  lemma HeadInjective(c: Bytes, t: VerifiedTurn, d: Bytes, u: VerifiedTurn)
    requires HashLengthsOk(c, t) && IntegersOk(t) && HashLengthsOk(d, u) && IntegersOk(u)
    requires Head(c, t) == Head(d, u)
    ensures c == d && t.turnIndex == u.turnIndex && t.hIn == u.hIn && t.hOut == u.hOut && t.gN == u.gN
  {
    WidthsFit();
    ConcatSplit(c, LittleEndian(t.turnIndex, 4) + (t.hIn + (t.hOut + LittleEndian(t.gN, 16))),
                d, LittleEndian(u.turnIndex, 4) + (u.hIn + (u.hOut + LittleEndian(u.gN, 16))));
    ConcatSplit(LittleEndian(t.turnIndex, 4), t.hIn + (t.hOut + LittleEndian(t.gN, 16)),
                LittleEndian(u.turnIndex, 4), u.hIn + (u.hOut + LittleEndian(u.gN, 16)));
    ConcatSplit(t.hIn, t.hOut + LittleEndian(t.gN, 16), u.hIn, u.hOut + LittleEndian(u.gN, 16));
    ConcatSplit(t.hOut, LittleEndian(t.gN, 16), u.hOut, LittleEndian(u.gN, 16));
    LittleEndianInjective(t.turnIndex, u.turnIndex, 4);
    LittleEndianInjective(t.gN, u.gN, 16);
  }

  lemma TimingInjective(t: VerifiedTurn, u: VerifiedTurn)
    requires IntegersOk(t) && IntegersOk(u)
    requires Timing(t) == Timing(u)
    ensures t.minerRecvMs == u.minerRecvMs && t.minerDoneMs == u.minerDoneMs && t.latencyMs == u.latencyMs
  {
    WidthsFit();
    ConcatSplit(LittleEndian(t.minerRecvMs, 8), LittleEndian(t.minerDoneMs, 8) + LittleEndian(t.latencyMs, 8),
                LittleEndian(u.minerRecvMs, 8), LittleEndian(u.minerDoneMs, 8) + LittleEndian(u.latencyMs, 8));
    ConcatSplit(LittleEndian(t.minerDoneMs, 8), LittleEndian(t.latencyMs, 8),
                LittleEndian(u.minerDoneMs, 8), LittleEndian(u.latencyMs, 8));
    LittleEndianInjective(t.minerRecvMs, u.minerRecvMs, 8);
    LittleEndianInjective(t.minerDoneMs, u.minerDoneMs, 8);
    LittleEndianInjective(t.latencyMs, u.latencyMs, 8);
  }

  lemma TailInjective(t: VerifiedTurn, u: VerifiedTurn)
    requires t.leafVersion == u.leafVersion && t.leafVersion in {0, 1, 2, 3}
    requires IntegersOk(t) && IntegersOk(u) && FieldsFitVersion(t) && FieldsFitVersion(u)
    requires |t.decodePolicyHash| == |u.decodePolicyHash| && |t.hIds| == |u.hIds| && |t.toplocHash| == |u.toplocHash|
    requires Tail(t) == Tail(u)
    ensures t.decodePolicyHash == u.decodePolicyHash && t.hIds == u.hIds && t.toplocHash == u.toplocHash
    ensures t.minerRecvMs == u.minerRecvMs && t.minerDoneMs == u.minerDoneMs && t.latencyMs == u.latencyMs
  {
    hide Timing;
    if t.leafVersion >= 1 {
      if t.leafVersion == 1 {
        assert Tail(t) == Timing(t) && Tail(u) == Timing(u);
      } else if t.leafVersion == 2 {
        assert Tail(t) == t.decodePolicyHash + Timing(t) && Tail(u) == u.decodePolicyHash + Timing(u);
        ConcatSplit(t.decodePolicyHash, Timing(t), u.decodePolicyHash, Timing(u));
      } else {
        ConcatSplit(t.decodePolicyHash, (t.hIds + t.toplocHash) + Timing(t),
                    u.decodePolicyHash, (u.hIds + u.toplocHash) + Timing(u));
        ConcatSplit(t.hIds + t.toplocHash, Timing(t), u.hIds + u.toplocHash, Timing(u));
        ConcatSplit(t.hIds, t.toplocHash, u.hIds, u.toplocHash);
      }
      TimingInjective(t, u);
    }
  }

  /** One preimage belongs to one channel and one turn, whatever versions are involved. */
  lemma PreimageInjective(c: Bytes, t: VerifiedTurn, d: Bytes, u: VerifiedTurn)
    requires LeafPreimage(c, t).Ok? && LeafPreimage(c, t) == LeafPreimage(d, u)
    ensures c == d && Unsigned(t) == Unsigned(u)
  {
    PreimageLength(c, t);
    PreimageLength(d, u);
    ConcatSplit(Head(c, t), Tail(t), Head(d, u), Tail(u));
    HeadInjective(c, t, d, u);
    TailInjective(t, u);
  }
}
