/** The FCC4 transcript format: the decoder, a reference encoder, and the proof that the two are exact
    inverses, so every transcript has one encoding. */
module Fcc4 {
  import opened Prelude
  import opened TurnLeaf

  const MAGIC: Bytes := [0x46, 0x43, 0x43, 0x34]

  datatype Transcript = Transcript(channelId: Bytes, turns: seq<VerifiedTurn>)

  /** A successful read: what was read, and the offset after it. */
  type Read<T> = Result<(T, nat), ChannelError>

  // The parts of an encoded turn, in order: head, policy, body, ack.
  datatype Head = Head(version: int, index: int, hIn: Bytes, hOut: Bytes, gN: int)
  datatype Policy = Policy(flag: int, hash: Bytes)
  datatype Body = Body(hIds: Bytes, toploc: Bytes, recv: int, done: int, latency: int, sig: Bytes)

  // ---- the decoder ----

  function ReadExact(data: Bytes, offset: nat, size: nat): (r: Read<Bytes>)
    ensures r.Ok? ==> |r.value.0| == size && r.value.1 == offset + size <= |data|
  {
    if offset + size > |data| then Err(TruncatedTranscript) else Ok((data[offset..offset + size], offset + size))
  }

  function ReadUint(data: Bytes, offset: nat, size: nat): (r: Read<nat>)
    ensures r.Ok? ==> r.value.0 < Pow256(size) && r.value.1 == offset + size <= |data|
  {
    var (raw, end) :- ReadExact(data, offset, size);
    Ok((FromLittleEndian(raw), end))
  }

  function ReadHead(data: Bytes, o: nat): Read<Head> {
    var (version, o) :- ReadUint(data, o, 1);
    var (index, o) :- ReadUint(data, o, 4);
    var (hIn, o) :- ReadExact(data, o, 32);
    var (hOut, o) :- ReadExact(data, o, 32);
    var (gN, o) :- ReadUint(data, o, 16);
    Ok((Head(version, index, hIn, hOut, gN), o))
  }

  function ReadPolicy(data: Bytes, o: nat): Read<Policy> {
    var (flag, o) :- ReadUint(data, o, 1);
    if flag !in {0, 1} then Err(FlagOutOfRange)
    else if flag == 0 then Ok((Policy(0, ZERO32), o))
    else
      var (hash, o) :- ReadExact(data, o, 32);
      Ok((Policy(1, hash), o))
  }

  function ReadBody(data: Bytes, o: nat): Read<Body> {
    var (hIds, o) :- ReadExact(data, o, 32);
    var (toploc, o) :- ReadExact(data, o, 32);
    var (recv, o) :- ReadUint(data, o, 8);
    var (done, o) :- ReadUint(data, o, 8);
    var (latency, o) :- ReadUint(data, o, 8);
    var (sig, o) :- ReadExact(data, o, SIGNATURE_SIZE);
    Ok((Body(hIds, toploc, recv, done, latency, sig), o))
  }

  function ReadAck(data: Bytes, o: nat): Read<Option<Ack>> {
    var (flag, o) :- ReadUint(data, o, 1);
    if flag !in {0, 1} then Err(FlagOutOfRange)
    else if flag == 0 then Ok((None, o))
    else
      var (sendMs, o) :- ReadUint(data, o, 8);
      var (receiveMs, o) :- ReadUint(data, o, 8);
      var (sig, o) :- ReadExact(data, o, SIGNATURE_SIZE);
      Ok((Some(Ack(sendMs, receiveMs, sig)), o))
  }

  function LeafFieldsError(version: int, policy: Policy, hIds: Bytes, toploc: Bytes): Option<ChannelError> {
    if version !in {0, 1, 2, 3} then Some(UnsupportedLeafVersion)
    else if policy.flag !in {0, 1} then Some(FlagOutOfRange)
    else if version in {0, 1} then
      if policy.flag != 0 || policy.hash != ZERO32 then Some(LeafFieldsInconsistent)
      else if hIds != ZERO32 || toploc != ZERO32 then Some(LeafFieldsInconsistent)
      else None
    else if version == 2 then
      if policy.flag != 1 || policy.hash == ZERO32 then Some(LeafFieldsInconsistent)
      else if hIds != ZERO32 || toploc != ZERO32 then Some(LeafFieldsInconsistent)
      else None
    else
      if policy.flag != 1 || policy.hash == ZERO32 then Some(LeafFieldsInconsistent)
      else if hIds == ZERO32 || toploc == ZERO32 then Some(LeafFieldsInconsistent)
      else None
  }

  function Assemble(head: Head, policy: Policy, body: Body, ack: Option<Ack>): VerifiedTurn {
    VerifiedTurn(head.version, head.index, head.hIn, head.hOut, head.gN, policy.hash,
                 body.hIds, body.toploc, body.recv, body.done, body.latency, body.sig, ack)
  }

  function ReadTurn(data: Bytes, o: nat): Read<VerifiedTurn> {
    var (head, o) :- ReadHead(data, o);
    var (policy, o) :- ReadPolicy(data, o);
    var (body, o) :- ReadBody(data, o);
    var problem := LeafFieldsError(head.version, policy, body.hIds, body.toploc);
    if problem.Some? then Err(problem.value)
    else
      var (ack, o) :- ReadAck(data, o);
      Ok((Assemble(head, policy, body, ack), o))
  }

  function ReadTurns(data: Bytes, o: nat, count: nat, done: seq<VerifiedTurn>): Read<seq<VerifiedTurn>>
    decreases count
  {
    if count == 0 then Ok((done, o))
    else
      var (turn, o) :- ReadTurn(data, o);
      ReadTurns(data, o, count - 1, done + [turn])
  }

  function Decode(data: Bytes): Result<Transcript, ChannelError> {
    var (magic, o) :- ReadExact(data, 0, 4);
    if magic != MAGIC then Err(UnknownFCCVersion)
    else
      var (channelId, o) :- ReadExact(data, o, 32);
      var (count, o) :- ReadUint(data, o, 4);
      if count > MAX_TURNS then Err(TooManyTurns)
      else
        var (turns, o) :- ReadTurns(data, o, count, []);
        if o != |data| then Err(TrailingBytes) else Ok(Transcript(channelId, turns))
  }

  method DecodeFcc4Transcript(data: Bytes) returns (r: Result<Transcript, ChannelError>)
    ensures r == Decode(data)
  {
    hide ReadTurn;
    var magic :- ReadExact(data, 0, 4);
    if magic.0 != MAGIC {
      return Err(UnknownFCCVersion);
    }
    var channelId :- ReadExact(data, magic.1, 32);
    var turnCount :- ReadUint(data, channelId.1, 4);
    if turnCount.0 > MAX_TURNS {
      return Err(TooManyTurns);
    }
    var offset := turnCount.1;
    var turns: seq<VerifiedTurn> := [];
    for i := 0 to turnCount.0
      invariant ReadTurns(data, turnCount.1, turnCount.0, []) == ReadTurns(data, offset, turnCount.0 - i, turns)
    {
      var turn :- ReadTurn(data, offset);
      turns := turns + [turn.0];
      offset := turn.1;
    }
    if offset != |data| {
      return Err(TrailingBytes);
    }
    return Ok(Transcript(channelId.0, turns));
  }

  // ---- the reference encoder ----

  function EncodeHead(x: Head): Bytes
    requires HeadOk(x)
  {
    LittleEndian(x.version, 1) + (LittleEndian(x.index, 4) + (x.hIn + (x.hOut + LittleEndian(x.gN, 16))))
  }

  predicate HeadOk(x: Head) {
    && 0 <= x.version <= U8_MAX && 0 <= x.index <= U32_MAX && 0 <= x.gN <= U128_MAX
    && |x.hIn| == 32 && |x.hOut| == 32
  }

  function EncodePolicy(x: Policy): Bytes
    requires PolicyOk(x)
  {
    if x.flag == 1 then [1] + x.hash else [0]
  }

  predicate PolicyOk(x: Policy) {
    (x.flag == 0 && x.hash == ZERO32) || (x.flag == 1 && |x.hash| == 32)
  }

  function EncodeBody(x: Body): Bytes
    requires BodyOk(x)
  {
    x.hIds + (x.toploc + (LittleEndian(x.recv, 8) + (LittleEndian(x.done, 8) + (LittleEndian(x.latency, 8) + x.sig))))
  }

  predicate BodyOk(x: Body) {
    && |x.hIds| == 32 && |x.toploc| == 32 && |x.sig| == 64
    && 0 <= x.recv <= U64_MAX && 0 <= x.done <= U64_MAX && 0 <= x.latency <= U64_MAX
  }

  function EncodeAck(x: Option<Ack>): Bytes
    requires AckOk(x)
  {
    match x
    case None => [0]
    case Some(a) => [1] + (LittleEndian(a.sendMs, 8) + (LittleEndian(a.receiveMs, 8) + a.signature))
  }

  predicate AckOk(x: Option<Ack>) {
    x.Some? ==> 0 <= x.value.sendMs <= U64_MAX && 0 <= x.value.receiveMs <= U64_MAX && |x.value.signature| == 64
  }

  function HeadOf(turn: VerifiedTurn): Head {
    Head(turn.leafVersion, turn.turnIndex, turn.hIn, turn.hOut, turn.gN)
  }

  /** The policy flag is not stored in a turn: its leaf version says whether there is a policy. */
  function PolicyOf(turn: VerifiedTurn): Policy {
    Policy(if turn.leafVersion >= 2 then 1 else 0, turn.decodePolicyHash)
  }

  function BodyOf(turn: VerifiedTurn): Body {
    Body(turn.hIds, turn.toplocHash, turn.minerRecvMs, turn.minerDoneMs, turn.latencyMs, turn.enclaveSig)
  }

  predicate TurnWellFormed(turn: VerifiedTurn) {
    && HeadOk(HeadOf(turn)) && PolicyOk(PolicyOf(turn)) && BodyOk(BodyOf(turn)) && AckOk(turn.agentAck)
    && LeafFieldsError(turn.leafVersion, PolicyOf(turn), turn.hIds, turn.toplocHash) == None
  }

  function EncodeTurn(turn: VerifiedTurn): Bytes
    requires TurnWellFormed(turn)
  {
    EncodeHead(HeadOf(turn)) + (EncodePolicy(PolicyOf(turn)) + (EncodeBody(BodyOf(turn)) + EncodeAck(turn.agentAck)))
  }

  predicate TurnsWellFormed(turns: seq<VerifiedTurn>) {
    forall i :: 0 <= i < |turns| ==> TurnWellFormed(turns[i])
  }

  function EncodeTurns(turns: seq<VerifiedTurn>): Bytes
    requires TurnsWellFormed(turns)
  {
    if turns == [] then [] else EncodeTurn(turns[0]) + EncodeTurns(turns[1..])
  }

  predicate WellFormed(t: Transcript) {
    |t.channelId| == 32 && |t.turns| <= MAX_TURNS && TurnsWellFormed(t.turns)
  }

  function Encode(t: Transcript): Bytes
    requires WellFormed(t)
  {
    MAGIC + (t.channelId + (LittleEndian(|t.turns|, 4) + EncodeTurns(t.turns)))
  }

  // ---- the format spelled out ----

  /** Nonzero: some byte is. */
  predicate Set(b: Bytes) {
    exists i :: 0 <= i < |b| && b[i] != 0
  }

  lemma SetExactly(b: Bytes)
    requires |b| == 32
    ensures b != ZERO32 <==> Set(b)
  {
    assert forall i :: 0 <= i < 32 ==> ZERO32[i] == 0;
    if !Set(b) {
      assert forall i :: 0 <= i < 32 ==> b[i] == ZERO32[i];
    }
  }

  /** Which fields a leaf version sets, and which complaint the others get. */
  lemma LeafFieldsExactly(version: int, policy: Policy, hIds: Bytes, toploc: Bytes)
    requires |policy.hash| == |hIds| == |toploc| == 32
    ensures var problem := LeafFieldsError(version, policy, hIds, toploc);
            && (problem == Some(UnsupportedLeafVersion) <==> !(0 <= version <= 3))
            && (problem == Some(FlagOutOfRange) <==> 0 <= version <= 3 && policy.flag != 0 && policy.flag != 1)
            && (problem == Some(LeafFieldsInconsistent) <==>
                && 0 <= version <= 3 && (policy.flag == 0 || policy.flag == 1)
                && !(&& (version >= 2 <==> policy.flag == 1) && (version >= 2 <==> Set(policy.hash))
                     && (version == 3 <==> Set(hIds)) && (version == 3 <==> Set(toploc))))
            && (problem.Some? ==> problem.value in {UnsupportedLeafVersion, FlagOutOfRange, LeafFieldsInconsistent})
  {
    hide Set;
    SetExactly(policy.hash);
    SetExactly(hIds);
    SetExactly(toploc);
  }

  /** The turns a transcript can hold: fields of the right widths, and for each version the fields it sets. */
  lemma TurnWellFormedExactly(turn: VerifiedTurn)
    ensures TurnWellFormed(turn) <==>
            && |turn.hIn| == |turn.hOut| == |turn.decodePolicyHash| == |turn.hIds| == |turn.toplocHash| == 32
            && |turn.enclaveSig| == 64 && 0 <= turn.leafVersion <= 3
            && 0 <= turn.turnIndex < 0x1_0000_0000
            && 0 <= turn.gN < 0x1_0000_0000_0000_0000_0000_0000_0000_0000
            && 0 <= turn.minerRecvMs < 0x1_0000_0000_0000_0000
            && 0 <= turn.minerDoneMs < 0x1_0000_0000_0000_0000
            && 0 <= turn.latencyMs < 0x1_0000_0000_0000_0000
            && (turn.leafVersion >= 2 <==> Set(turn.decodePolicyHash))
            && (turn.leafVersion == 3 <==> Set(turn.hIds)) && (turn.leafVersion == 3 <==> Set(turn.toplocHash))
            && (turn.agentAck.Some? ==>
                  && 0 <= turn.agentAck.value.sendMs < 0x1_0000_0000_0000_0000
                  && 0 <= turn.agentAck.value.receiveMs < 0x1_0000_0000_0000_0000
                  && |turn.agentAck.value.signature| == 64)
  {
    hide Set, LeafFieldsError;
    if |turn.decodePolicyHash| == |turn.hIds| == |turn.toplocHash| == 32 {
      LeafFieldsExactly(turn.leafVersion, PolicyOf(turn), turn.hIds, turn.toplocHash);
      SetExactly(turn.decodePolicyHash);
    }
  }

  /** The bytes of a turn, in order. A flag byte says whether a policy, and whether an ack, follows. */
  lemma TurnLayout(turn: VerifiedTurn)
    requires TurnWellFormed(turn)
    ensures EncodeTurn(turn) ==
            ([turn.leafVersion as byte]
             + (LittleEndian(turn.turnIndex, 4) + (turn.hIn + (turn.hOut + LittleEndian(turn.gN, 16)))))
            + ((if turn.leafVersion >= 2 then [1] + turn.decodePolicyHash else [0])
               + ((turn.hIds
                   + (turn.toplocHash
                      + (LittleEndian(turn.minerRecvMs, 8)
                         + (LittleEndian(turn.minerDoneMs, 8)
                            + (LittleEndian(turn.latencyMs, 8) + turn.enclaveSig)))))
                  + match turn.agentAck
                    case None => [0]
                    case Some(ack) =>
                      [1] + (LittleEndian(ack.sendMs, 8) + (LittleEndian(ack.receiveMs, 8) + ack.signature))))
  {
    hide LeafFieldsError, LittleEndian;
    assert LittleEndian(turn.leafVersion, 1) == [turn.leafVersion as byte] by {
      OneByte(turn.leafVersion);
    }
  }

  /** "FCC4", the channel, the number of turns, and turn after turn. */
  lemma TranscriptLayout(t: Transcript)
    requires WellFormed(t)
    ensures Encode(t) == [0x46, 0x43, 0x43, 0x34] + t.channelId + LittleEndian(|t.turns|, 4) + EncodeTurns(t.turns)
    ensures |t.channelId| == 32 && |t.turns| <= 1024
  {
    hide EncodeTurns, TurnsWellFormed, LittleEndian;
  }

  // ---- reading a part succeeds with x exactly when the bytes there are the encoding of x ----

  /** `chunk` lies in `data` at `offset`, and ends at `end`. */
  predicate Lies(data: Bytes, offset: nat, chunk: Bytes, end: nat) {
    end == offset + |chunk| <= |data| && data[offset..end] == chunk
  }

  lemma LiesConcat(data: Bytes, offset: nat, a: Bytes, b: Bytes, end: nat)
    ensures Lies(data, offset, a + b, end) <==> Lies(data, offset, a, offset + |a|) && Lies(data, offset + |a|, b, end)
  {
    var mid := offset + |a|;
    if end == offset + |a + b| <= |data| {
      assert data[offset..end] == data[offset..mid] + data[mid..end];
      if data[offset..end] == a + b {
        ConcatSplit(data[offset..mid], data[mid..end], a, b);
      }
    }
  }

  lemma LiesEnds(data: Bytes, offset: nat, chunk: Bytes, end: nat)
    requires Lies(data, offset, chunk, end)
    ensures end == offset + |chunk| <= |data|
  {
  }

  lemma EmptyLies(data: Bytes, offset: nat, end: nat)
    requires offset <= |data|
    ensures Lies(data, offset, [], end) <==> end == offset
  {
  }

  lemma BytesRead(data: Bytes, o: nat, size: nat, x: Bytes, end: nat)
    ensures ReadExact(data, o, size) == Ok((x, end)) <==> |x| == size && Lies(data, o, x, end)
  {
  }

  lemma UintRead(data: Bytes, o: nat, size: nat, n: nat, end: nat)
    ensures ReadUint(data, o, size) == Ok((n, end)) <==> n < Pow256(size) && Lies(data, o, LittleEndian(n, size), end)
  {
    hide FromLittleEndian, LittleEndian, Pow256;
    if o + size <= |data| {
      EncodeDecode(data[o..o + size]);
    }
    if n < Pow256(size) {
      DecodeEncode(n, size);
    }
  }

  /** A flag byte, whatever its value. */
  lemma FlagRead(data: Bytes, o: nat, flag: byte, end: nat)
    ensures ReadUint(data, o, 1) == Ok((flag as nat, end)) <==> Lies(data, o, [flag], end)
  {
    UintRead(data, o, 1, flag as nat, end);
    WidthsFit();
    assert LittleEndian(flag as nat, 1) == [flag];
  }

  lemma HeadRead(data: Bytes, o: nat, x: Head, end: nat)
    ensures ReadHead(data, o) == Ok((x, end)) <==> HeadOk(x) && Lies(data, o, EncodeHead(x), end)
  {
    hide ReadExact, ReadUint, Lies, LittleEndian, FromLittleEndian, Pow256;
    WidthsFit();
    if HeadOk(x) {
      var version, index, gN := LittleEndian(x.version, 1), LittleEndian(x.index, 4), LittleEndian(x.gN, 16);
      UintRead(data, o, 1, x.version, o + 1);
      UintRead(data, o + 1, 4, x.index, o + 5);
      BytesRead(data, o + 5, 32, x.hIn, o + 37);
      BytesRead(data, o + 37, 32, x.hOut, o + 69);
      UintRead(data, o + 69, 16, x.gN, end);
      LiesConcat(data, o, version, index + (x.hIn + (x.hOut + gN)), end);
      LiesConcat(data, o + 1, index, x.hIn + (x.hOut + gN), end);
      LiesConcat(data, o + 5, x.hIn, x.hOut + gN, end);
      LiesConcat(data, o + 37, x.hOut, gN, end);
    }
  }

  lemma PolicyRead(data: Bytes, o: nat, x: Policy, end: nat)
    ensures ReadPolicy(data, o) == Ok((x, end)) <==> PolicyOk(x) && Lies(data, o, EncodePolicy(x), end)
  {
    hide ReadExact, ReadUint, Lies, LittleEndian, FromLittleEndian, Pow256;
    if PolicyOk(x) {
      FlagRead(data, o, x.flag as byte, o + 1);
      FlagRead(data, o, 0, end);
      if x.flag == 1 {
        BytesRead(data, o + 1, 32, x.hash, end);
        LiesConcat(data, o, [1], x.hash, end);
      }
    }
  }

  lemma BodyRead(data: Bytes, o: nat, x: Body, end: nat)
    ensures ReadBody(data, o) == Ok((x, end)) <==> BodyOk(x) && Lies(data, o, EncodeBody(x), end)
  {
    hide ReadExact, ReadUint, Lies, LittleEndian, FromLittleEndian, Pow256;
    WidthsFit();
    if BodyOk(x) {
      var recv, done, latency := LittleEndian(x.recv, 8), LittleEndian(x.done, 8), LittleEndian(x.latency, 8);
      BytesRead(data, o, 32, x.hIds, o + 32);
      BytesRead(data, o + 32, 32, x.toploc, o + 64);
      UintRead(data, o + 64, 8, x.recv, o + 72);
      UintRead(data, o + 72, 8, x.done, o + 80);
      UintRead(data, o + 80, 8, x.latency, o + 88);
      BytesRead(data, o + 88, 64, x.sig, end);
      LiesConcat(data, o, x.hIds, x.toploc + (recv + (done + (latency + x.sig))), end);
      LiesConcat(data, o + 32, x.toploc, recv + (done + (latency + x.sig)), end);
      LiesConcat(data, o + 64, recv, done + (latency + x.sig), end);
      LiesConcat(data, o + 72, done, latency + x.sig, end);
      LiesConcat(data, o + 80, latency, x.sig, end);
    }
  }

  lemma AckRead(data: Bytes, o: nat, x: Option<Ack>, end: nat)
    ensures ReadAck(data, o) == Ok((x, end)) <==> AckOk(x) && Lies(data, o, EncodeAck(x), end)
  {
    hide ReadExact, ReadUint, Lies, LittleEndian, FromLittleEndian, Pow256;
    WidthsFit();
    FlagRead(data, o, 0, end);
    if x.Some? && AckOk(x) {
      var send, receive := LittleEndian(x.value.sendMs, 8), LittleEndian(x.value.receiveMs, 8);
      FlagRead(data, o, 1, o + 1);
      UintRead(data, o + 1, 8, x.value.sendMs, o + 9);
      UintRead(data, o + 9, 8, x.value.receiveMs, o + 17);
      BytesRead(data, o + 17, 64, x.value.signature, end);
      LiesConcat(data, o, [1], send + (receive + x.value.signature), end);
      LiesConcat(data, o + 1, send, receive + x.value.signature, end);
      LiesConcat(data, o + 9, receive, x.value.signature, end);
    }
  }

  lemma TurnParts(head: Head, policy: Policy, body: Body, ack: Option<Ack>)
    requires LeafFieldsError(head.version, policy, body.hIds, body.toploc) == None
    ensures var turn := Assemble(head, policy, body, ack);
            HeadOf(turn) == head && PolicyOf(turn) == policy && BodyOf(turn) == body && turn.agentAck == ack
  {
  }

  lemma TurnRead(data: Bytes, o: nat, turn: VerifiedTurn, end: nat)
    ensures ReadTurn(data, o) == Ok((turn, end)) <==> TurnWellFormed(turn) && Lies(data, o, EncodeTurn(turn), end)
  {
    hide ReadHead, ReadPolicy, ReadBody, ReadAck, Lies, HeadOk, PolicyOk, BodyOk, AckOk;
    if ReadTurn(data, o).Ok? && ReadTurn(data, o) == Ok((turn, end)) {
      var head := ReadHead(data, o).value;
      var policy := ReadPolicy(data, head.1).value;
      var body := ReadBody(data, policy.1).value;
      var ack := ReadAck(data, body.1).value;
      TurnParts(head.0, policy.0, body.0, ack.0);
      HeadRead(data, o, head.0, head.1);
      PolicyRead(data, head.1, policy.0, policy.1);
      BodyRead(data, policy.1, body.0, body.1);
      AckRead(data, body.1, ack.0, end);
      LiesEnds(data, o, EncodeHead(head.0), head.1);
      LiesEnds(data, head.1, EncodePolicy(policy.0), policy.1);
      LiesEnds(data, policy.1, EncodeBody(body.0), body.1);
      TurnLies(data, o, turn, head.1, policy.1, body.1, end);
    }
    if TurnWellFormed(turn) && Lies(data, o, EncodeTurn(turn), end) {
      var a := o + |EncodeHead(HeadOf(turn))|;
      var b := a + |EncodePolicy(PolicyOf(turn))|;
      var c := b + |EncodeBody(BodyOf(turn))|;
      TurnLies(data, o, turn, a, b, c, end);
      HeadRead(data, o, HeadOf(turn), a);
      PolicyRead(data, a, PolicyOf(turn), b);
      BodyRead(data, b, BodyOf(turn), c);
      AckRead(data, c, turn.agentAck, end);
    }
  }

  /** An encoded turn lies at an offset when its four parts lie there one after the other. */
  lemma TurnLies(data: Bytes, o: nat, turn: VerifiedTurn, a: nat, b: nat, c: nat, end: nat)
    requires TurnWellFormed(turn)
    requires a == o + |EncodeHead(HeadOf(turn))| && b == a + |EncodePolicy(PolicyOf(turn))|
    requires c == b + |EncodeBody(BodyOf(turn))|
    ensures Lies(data, o, EncodeTurn(turn), end) <==>
            && Lies(data, o, EncodeHead(HeadOf(turn)), a) && Lies(data, a, EncodePolicy(PolicyOf(turn)), b)
            && Lies(data, b, EncodeBody(BodyOf(turn)), c) && Lies(data, c, EncodeAck(turn.agentAck), end)
  {
    hide Lies, EncodeHead, EncodePolicy, EncodeBody, EncodeAck;
    var head, policy, body, ack := EncodeHead(HeadOf(turn)), EncodePolicy(PolicyOf(turn)), EncodeBody(BodyOf(turn)),
      EncodeAck(turn.agentAck);
    LiesConcat(data, o, head, policy + (body + ack), end);
    LiesConcat(data, a, policy, body + ack, end);
    LiesConcat(data, b, body, ack, end);
  }

  lemma {:induction false} TurnsRead(data: Bytes, o: nat, done: seq<VerifiedTurn>, turns: seq<VerifiedTurn>, end: nat)
    requires o <= |data|
    ensures ReadTurns(data, o, |turns|, done) == Ok((done + turns, end)) <==>
            TurnsWellFormed(turns) && Lies(data, o, EncodeTurns(turns), end)
    decreases |turns|
  {
    hide ReadTurn, TurnWellFormed, EncodeTurn, Lies;
    if turns == [] {
      assert done + turns == done;
      EmptyLies(data, o, end);
    } else {
      var first, rest := turns[0], turns[1..];
      assert done + turns == (done + [first]) + rest;
      assert TurnsWellFormed(turns) <==> TurnWellFormed(first) && TurnsWellFormed(rest) by {
        assert forall i :: 0 < i < |turns| ==> turns[i] == rest[i - 1];
        assert forall i :: 0 <= i < |rest| ==> rest[i] == turns[i + 1];
      }
      if ReadTurns(data, o, |turns|, done) == Ok((done + turns, end)) {
        var read := ReadTurn(data, o).value;
        ReadTurnsKeeps(data, read.1, |rest|, done + [read.0]);
        assert (done + turns)[|done|] == read.0;
        TurnRead(data, o, first, read.1);
        LiesEnds(data, o, EncodeTurn(first), read.1);
        TurnsRead(data, read.1, done + [first], rest, end);
        LiesConcat(data, o, EncodeTurn(first), EncodeTurns(rest), end);
      }
      if TurnsWellFormed(turns) && Lies(data, o, EncodeTurns(turns), end) {
        var mid := o + |EncodeTurn(first)|;
        LiesConcat(data, o, EncodeTurn(first), EncodeTurns(rest), end);
        TurnRead(data, o, first, mid);
        LiesEnds(data, o, EncodeTurn(first), mid);
        TurnsRead(data, mid, done + [first], rest, end);
      }
    }
  }

  lemma {:induction false} ReadTurnsKeeps(data: Bytes, o: nat, count: nat, done: seq<VerifiedTurn>)
    ensures var r := ReadTurns(data, o, count, done); r.Ok? ==> |r.value.0| == |done| + count && done <= r.value.0
    decreases count
  {
    hide ReadTurn;
    if count > 0 && ReadTurn(data, o).Ok? {
      var read := ReadTurn(data, o).value;
      ReadTurnsKeeps(data, read.1, count - 1, done + [read.0]);
    }
  }

  /** The decoder and the encoder are exact inverses: a byte string decodes to `t` exactly when `t` is
      well formed and the string is its encoding. */
  lemma DecodeIsExact(data: Bytes, t: Transcript)
    ensures Decode(data) == Ok(t) <==> WellFormed(t) && data == Encode(t)
  {
    hide ReadTurns, ReadExact, ReadUint, Lies, TurnsWellFormed, EncodeTurns, LittleEndian, Pow256;
    WidthsFit();
    var end := |data|;
    if Decode(data).Ok? {
      var turns := Decode(data).value.turns;
      ReadTurnsKeeps(data, 40, ReadUint(data, 36, 4).value.0, []);
    }
    BytesRead(data, 0, 4, MAGIC, 4);
    BytesRead(data, 4, 32, t.channelId, 36);
    UintRead(data, 36, 4, |t.turns|, 40);
    if |data| >= 40 {
      TurnsRead(data, 40, [], t.turns, end);
    }
    assert [] + t.turns == t.turns;
    if TurnsWellFormed(t.turns) {
      var count, rest := LittleEndian(|t.turns|, 4), EncodeTurns(t.turns);
      LiesConcat(data, 0, MAGIC, t.channelId + (count + rest), end);
      LiesConcat(data, 4, t.channelId, count + rest, end);
      LiesConcat(data, 36, count, rest, end);
      WholeLies(data, MAGIC + (t.channelId + (count + rest)));
    }
  }

  lemma WholeLies(data: Bytes, chunk: Bytes)
    ensures Lies(data, 0, chunk, |data|) <==> data == chunk
  {
    assert data[0..|data|] == data;
  }

  /** Round trip. */
  lemma DecodeEncodeTranscript(t: Transcript)
    requires WellFormed(t)
    ensures Decode(Encode(t)) == Ok(t)
  {
    DecodeIsExact(Encode(t), t);
  }

  /** Every accepted string is the encoding of what it decodes to, so no two strings decode alike. */
  lemma AcceptedStringIsCanonical(data: Bytes, other: Bytes)
    requires Decode(data).Ok?
    ensures WellFormed(Decode(data).value) && Encode(Decode(data).value) == data
    ensures Decode(other) == Decode(data) ==> other == data
  {
    DecodeIsExact(data, Decode(data).value);
    DecodeIsExact(other, Decode(data).value);
  }
}
