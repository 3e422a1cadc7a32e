/** Accepting attested results: four entry points, one record of what has been credited. */
module Acceptance {
  import opened Prelude
  import opened Quorum

  // ---- report data ----

  const HEX_DIGITS: string := "0123456789abcdef"

  function Hex(b: Bytes): (s: string)
    ensures |s| == 2 * |b|
  {
    if b == [] then "" else [HEX_DIGITS[b[0] as nat / 16], HEX_DIGITS[b[0] as nat % 16]] + Hex(b[1..])
  }

  lemma HexDigitsDiffer(i: nat, j: nat)
    requires i < 16 && j < 16 && HEX_DIGITS[i] == HEX_DIGITS[j]
    ensures i == j
  {
  }

  lemma {:induction false} HexInjective(a: Bytes, b: Bytes)
    requires Hex(a) == Hex(b)
    ensures a == b
  {
    if a != [] {
      var x, y := a[0] as nat, b[0] as nat;
      assert Hex(a)[0] == HEX_DIGITS[x / 16] && Hex(a)[1] == HEX_DIGITS[x % 16] && Hex(a)[2..] == Hex(a[1..]);
      assert Hex(b)[0] == HEX_DIGITS[y / 16] && Hex(b)[1] == HEX_DIGITS[y % 16] && Hex(b)[2..] == Hex(b[1..]);
      HexDigitsDiffer(x / 16, y / 16);
      HexDigitsDiffer(x % 16, y % 16);
      HexInjective(a[1..], b[1..]);
      assert a == [a[0]] + a[1..] && b == [b[0]] + b[1..];
    }
  }

  /** The two lower-case digits of a byte: 0 to 9 are characters 48 to 57, a to f are 97 to 102. */
  predicate DigitsOf(s: string, i: nat, b: byte)
    requires 2 * i + 1 < |s|
  {
    && s[2 * i] as int == b as int / 16 + (if b as int / 16 < 10 then 48 else 87)
    && s[2 * i + 1] as int == b as int % 16 + (if b as int % 16 < 10 then 48 else 87)
  }

  lemma DigitCode(d: nat)
    requires d < 16
    ensures HEX_DIGITS[d] as int == d + if d < 10 then 48 else 87
  {
  }

  lemma FirstDigits(b: Bytes)
    requires b != []
    ensures DigitsOf(Hex(b), 0, b[0]) && Hex(b)[2..] == Hex(b[1..])
  {
    hide Hex;
    assert Hex(b) == [HEX_DIGITS[b[0] as nat / 16], HEX_DIGITS[b[0] as nat % 16]] + Hex(b[1..]) by {
      HexOfMore(b);
    }
    DigitCode(b[0] as nat / 16);
    DigitCode(b[0] as nat % 16);
  }

  lemma HexOfMore(b: Bytes)
    requires b != []
    ensures Hex(b) == [HEX_DIGITS[b[0] as nat / 16], HEX_DIGITS[b[0] as nat % 16]] + Hex(b[1..])
  {
  }

  lemma LaterDigits(s: string, i: nat, b: byte)
    requires i > 0 && 2 * i + 1 < |s| && DigitsOf(s[2..], i - 1, b)
    ensures DigitsOf(s, i, b)
  {
    assert s[2 * i] == s[2..][2 * (i - 1)] && s[2 * i + 1] == s[2..][2 * (i - 1) + 1];
  }

  lemma {:induction false} HexExactly(b: Bytes, i: nat)
    requires i < |b|
    ensures DigitsOf(Hex(b), i, b[i])
  {
    hide Hex, DigitsOf;
    FirstDigits(b);
    if i > 0 {
      HexExactly(b[1..], i - 1);
      LaterDigits(Hex(b), i, b[i]);
    }
  }

  /** The hash of the seven reported fields, padded to 64 bytes. */
  function ReportData(h: HashFunction, c: Claims): string {
    Hex(h(Flat(ReportFields(c))) + ZERO32)
  }

  /** Character by character: the digits of the digest of the 145 bytes that state the fields, then 64 zeros. */
  lemma ReportDataLayout(h: HashFunction, c: Claims)
    requires WellFormedClaims(c)
    ensures var r, q := ReportData(h, c), Flat(ReportFields(c));
            && |q| == 145 && StatesFields(q, c)
            && |r| == 128 && (forall i :: 0 <= i < 32 ==> DigitsOf(r, i, h(q)[i]))
            && forall i :: 64 <= i < 128 ==> r[i] == '0'
  {
    hide Hex, Flat, StatesFields, DigitsOf, ReportFields;
    FieldsLayout(c, []);
    assert ReportFields(c) + [] == ReportFields(c);
    var q := Flat(ReportFields(c));
    AtLeast(q, c);
    FlatOfNothing();
    var b := h(q) + ZERO32;
    forall i | 0 <= i < 32
      ensures DigitsOf(Hex(b), i, h(q)[i])
    {
      HexExactly(b, i);
    }
    forall i | 64 <= i < 128
      ensures Hex(b)[i] == '0'
    {
      HexExactly(b, i / 2);
      assert b[i / 2] == 0;
      ZeroDigits(Hex(b), i / 2);
    }
  }

  lemma ZeroDigits(s: string, i: nat)
    requires 2 * i + 1 < |s| && DigitsOf(s, i, 0)
    ensures s[2 * i] == '0' && s[2 * i + 1] == '0'
  {
  }

  /** Equal report data commits to equal fields, or the two preimages collide. */
  lemma ReportDataBinds(h: HashFunction, a: Claims, b: Claims)
    requires WellFormedClaims(a) && WellFormedClaims(b) && ReportData(h, a) == ReportData(h, b)
    ensures || ReportFields(a) == ReportFields(b)
            || var x, y := Flat(ReportFields(a)), Flat(ReportFields(b)); CollisionAmong(h, {x, y}, x, y)
  {
    hide LittleEndian, Flat, Hex;
    var x, y := h(Flat(ReportFields(a))), h(Flat(ReportFields(b)));
    HexInjective(x + ZERO32, y + ZERO32);
    ConcatSplit(x, ZERO32, y, ZERO32);
    if Flat(ReportFields(a)) == Flat(ReportFields(b)) {
      FlatInjective(ReportFields(a), ReportFields(b));
    }
  }

  // ---- the result an attestation is about ----

  datatype Value = Text(text: string) | Whole(i: int) | Fractional(r: real) | Truth(b: bool) | Other

  /** A free-form result: a dictionary, or something else. */
  datatype ResultData = Dictionary(fields: map<string, Value>) | NotADictionary

  /** Everything outside: sr25519, SHA-256 and hexadecimal parsing as Python does it. Any such functions. */
  datatype Crypto = Crypto(verify: SchnorrVerifier, sha256: HashFunction, fromHex: string -> Option<Bytes>)

  predicate HashMatches(cr: Crypto, fields: map<string, Value>, key: string, expected: Bytes) {
    key in fields && fields[key].Text? && cr.fromHex(fields[key].text) == Some(expected)
  }

  /** A boolean is not a number here; a fractional number equal to the integer is. */
  predicate NumberMatches(fields: map<string, Value>, key: string, expected: nat) {
    key in fields && (fields[key] == Whole(expected) || fields[key] == Fractional(expected as real))
  }

  predicate MatchesResult(cr: Crypto, c: Claims, result: ResultData) {
    && result.Dictionary?
    && HashMatches(cr, result.fields, "task_hash", c.taskHash)
    && HashMatches(cr, result.fields, "model_hash", c.modelHash)
    && HashMatches(cr, result.fields, "output_hash", c.outputHash)
    && HashMatches(cr, result.fields, "decode_policy_hash", c.decodePolicyHash)
    && NumberMatches(result.fields, "gn_weight", c.gnWeight)
    && NumberMatches(result.fields, "latency_ms", c.latencyMs)
    && NumberMatches(result.fields, "tee_type", c.teeType)
  }

  /** validator_attestation_matches_result: the hash fields, then the numbers, one by one. */
  method CompareResult(cr: Crypto, c: Claims, result: ResultData) returns (matches: bool)
    ensures matches == MatchesResult(cr, c, result)
  {
    if result.NotADictionary? {
      return false;
    }
    var hashFields := [("task_hash", c.taskHash), ("model_hash", c.modelHash), ("output_hash", c.outputHash),
                       ("decode_policy_hash", c.decodePolicyHash)];
    for i := 0 to 4
      invariant forall j :: 0 <= j < i ==> HashMatches(cr, result.fields, hashFields[j].0, hashFields[j].1)
    {
      var (field, expected) := hashFields[i];
      var ok := false;
      if field in result.fields && result.fields[field].Text? {
        ok := cr.fromHex(result.fields[field].text) == Some(expected);
      }
      if !ok {
        assert !HashMatches(cr, result.fields, hashFields[i].0, hashFields[i].1);
        return false;
      }
    }
    var numericFields := [("gn_weight", c.gnWeight), ("latency_ms", c.latencyMs), ("tee_type", c.teeType)];
    for i := 0 to 3
      invariant forall j :: 0 <= j < i ==> NumberMatches(result.fields, numericFields[j].0, numericFields[j].1)
    {
      var (field, expected) := numericFields[i];
      var ok := false;
      if field in result.fields {
        match result.fields[field]
        case Whole(n) => ok := n == expected;
        case Fractional(r) => ok := r == expected as real;
        case _ =>
      }
      if !ok {
        assert !NumberMatches(result.fields, numericFields[i].0, numericFields[i].1);
        return false;
      }
    }
    assert forall i :: 0 <= i < 4 ==> HashMatches(cr, result.fields, hashFields[i].0, hashFields[i].1);
    assert hashFields[0].1 == c.taskHash && hashFields[1].1 == c.modelHash && hashFields[2].1 == c.outputHash;
    assert hashFields[3].1 == c.decodePolicyHash;
    assert numericFields[0].1 == c.gnWeight && numericFields[1].1 == c.latencyMs && numericFields[2].1 == c.teeType;
    return true;
  }

  const THROUGHPUT_TRIPWIRE := 2_000_000

  predicate Plausible(result: ResultData)
    requires result.Dictionary? && "gn_weight" in result.fields && "latency_ms" in result.fields
  {
    var gn, latency := result.fields["gn_weight"], result.fields["latency_ms"];
    gn.Whole? && gn.i >= 0 && latency.Whole? && latency.i > 0 && gn.i * 1000 <= THROUGHPUT_TRIPWIRE * latency.i
  }

  // ---- calls and their verdicts ----

  datatype Call =
    | OfQuorum(atts: seq<Attestation>)
    | OfOne(att: Attestation, report: string)
    | OfBundle(atts: seq<Attestation>, report: string)
    | OfResult(atts: seq<Attestation>, result: ResultData, report: string)

  /** A call together with the registry and threshold it is made under. */
  datatype Request = Request(call: Call, active: set<Bytes>, threshold: Threshold)

  function Attestations(c: Call): seq<Attestation> {
    if c.OfOne? then [c.att] else c.atts
  }

  predicate WellFormedRequest(r: Request) {
    r.threshold.denominator > 0 && forall k :: 0 <= k < |Attestations(r.call)| ==> WellFormed(Attestations(r.call)[k])
  }

  /** The evidence a call must bring, apart from never having been credited. */
  function Evidence(cr: Crypto, r: Request): Result<bool, QuorumError>
    requires r.threshold.denominator > 0
  {
    var quorum := QuorumVerdict(cr.verify, r.active, r.threshold, Attestations(r.call));
    match r.call
    case OfQuorum(_) => quorum
    case OfOne(att, report) =>
      if att.claims.quoteVerified && att.claims.eventLogVerified && report == ReportData(cr.sha256, att.claims) then
        quorum
      else Ok(false)
    case OfBundle(atts, report) =>
      if quorum != Ok(true) then quorum else Ok(report == ReportData(cr.sha256, atts[0].claims))
    case OfResult(atts, result, report) =>
      if atts == [] then Ok(false)
      else if exists k :: 0 <= k < |atts| && !MatchesResult(cr, atts[k].claims, result) then Ok(false)
      else if report != ReportData(cr.sha256, atts[0].claims) then Ok(false)
      else if quorum != Ok(true) then quorum
      else
        assert MatchesResult(cr, atts[0].claims, result);
        Ok(Plausible(result))
  }

  /** The verdict given what has been credited before. Only the result acceptor looks at that last. */
  function Verdict(cr: Crypto, r: Request, processed: set<Bytes>): Result<bool, QuorumError>
    requires r.threshold.denominator > 0
  {
    var atts := Attestations(r.call);
    if atts == [] then Ok(false)
    else if r.call.OfResult? then
      if Evidence(cr, r) != Ok(true) then Evidence(cr, r) else Ok(atts[0].claims.taskHash !in processed)
    else if atts[0].claims.taskHash in processed then Ok(false)
    else Evidence(cr, r)
  }

  /** Acceptance without the order of the checks. */
  predicate Acceptable(cr: Crypto, r: Request, processed: set<Bytes>)
    requires r.threshold.denominator > 0
  {
    var atts := Attestations(r.call);
    && QuorumVerdict(cr.verify, r.active, r.threshold, atts) == Ok(true)
    && atts != [] && atts[0].claims.taskHash !in processed
    && (!r.call.OfQuorum? ==> forall k :: 0 <= k < |atts| ==> r.call.report == ReportData(cr.sha256, atts[k].claims))
    && (r.call.OfResult? ==> forall k :: 0 <= k < |atts| ==> MatchesResult(cr, atts[k].claims, r.call.result))
    && (r.call.OfResult? ==> forall k :: 0 <= k < |atts| ==> PlausibleClaims(atts[k].claims, r.call.result))
  }

  /** The tripwire in terms of what was signed; a fractional gn_weight or latency never passes it. */
  predicate PlausibleClaims(c: Claims, result: ResultData) {
    && result.Dictionary?
    && "gn_weight" in result.fields && result.fields["gn_weight"] == Whole(c.gnWeight)
    && "latency_ms" in result.fields && result.fields["latency_ms"] == Whole(c.latencyMs)
    && c.latencyMs > 0 && c.gnWeight * 1000 <= 2_000_000 * c.latencyMs
  }

  lemma PlausibleIsSigned(cr: Crypto, c: Claims, result: ResultData)
    requires MatchesResult(cr, c, result)
    ensures Plausible(result) <==> PlausibleClaims(c, result)
  {
    hide HashMatches;
  }

  lemma OneClaim(cr: Crypto, r: Request)
    requires r.threshold.denominator > 0
    requires QuorumVerdict(cr.verify, r.active, r.threshold, Attestations(r.call)) == Ok(true)
    ensures var atts := Attestations(r.call);
            && atts != [] && atts[0].claims.quoteVerified && atts[0].claims.eventLogVerified
            && forall k :: 0 <= k < |atts| ==> atts[k].claims == atts[0].claims
  {
    hide RequiredQuorum, Distinct, Ids;
    var atts := Attestations(r.call);
    assert Supports(cr.verify, atts[0].claims, atts[0]);
    forall k | 0 <= k < |atts|
      ensures atts[k].claims == atts[0].claims
    {
      assert Supports(cr.verify, atts[0].claims, atts[k]);
    }
  }

  /** A call is accepted exactly when its evidence is complete, for every attestation and not only the first,
      and its task was never credited before. */
  lemma AcceptedExactly(cr: Crypto, r: Request, processed: set<Bytes>)
    requires r.threshold.denominator > 0
    ensures Verdict(cr, r, processed) == Ok(true) <==> Acceptable(cr, r, processed)
  {
    hide QuorumVerdict, ReportData, MatchesResult, Plausible, PlausibleClaims;
    var atts := Attestations(r.call);
    if QuorumVerdict(cr.verify, r.active, r.threshold, atts) == Ok(true) {
      OneClaim(cr, r);
      if r.call.OfResult? && MatchesResult(cr, atts[0].claims, r.call.result) {
        PlausibleIsSigned(cr, atts[0].claims, r.call.result);
      }
    }
  }

  // ---- the record of credited tasks ----

  class ProcessedTasks {
    var processed: set<Bytes>

    constructor ()
      ensures processed == {}
    {
      processed := {};
    }

    /** None stands for the ValueError on a hash that is not 32 bytes. */
    method IsProcessed(taskHash: Bytes) returns (r: Option<bool>)
      ensures r == if |taskHash| != 32 then None else Some(taskHash in processed)
    {
      if |taskHash| != 32 {
        return None;
      }
      return Some(taskHash in processed);
    }

    method MarkProcessed(taskHash: Bytes) returns (r: Option<bool>)
      modifies this
      ensures |taskHash| != 32 ==> r == None && processed == old(processed)
      ensures |taskHash| == 32 ==> r == Some(taskHash !in old(processed)) && processed == old(processed) + {taskHash}
    {
      if |taskHash| != 32 {
        return None;
      }
      if taskHash in processed {
        assert processed + {taskHash} == processed;
        return Some(false);
      }
      processed := processed + {taskHash};
      return Some(true);
    }

    method AcceptQuorum(cr: Crypto, r: Request) returns (verdict: Result<bool, QuorumError>)
      requires WellFormedRequest(r) && r.call.OfQuorum?
      modifies this
      ensures verdict == Verdict(cr, r, old(processed))
      ensures processed == After(r, verdict, old(processed))
    {
      hide QuorumVerdict;
      var atts := r.call.atts;
      if atts == [] {
        return Ok(false);
      }
      var taskHash := atts[0].claims.taskHash;
      var seen := IsProcessed(taskHash);
      if seen == Some(true) {
        return Ok(false);
      }
      var quorum := VerifyQuorum(cr.verify, r.active, r.threshold, atts);
      if quorum != Ok(true) {
        return quorum;
      }
      var marked := MarkProcessed(taskHash);
      return Ok(marked == Some(true));
    }

    method AcceptOne(cr: Crypto, r: Request) returns (verdict: Result<bool, QuorumError>)
      requires WellFormedRequest(r) && r.call.OfOne?
      modifies this
      ensures verdict == Verdict(cr, r, old(processed))
      ensures processed == After(r, verdict, old(processed))
    {
      hide QuorumVerdict, ReportData;
      var att := r.call.att;
      assert WellFormed(Attestations(r.call)[0]);
      var seen := IsProcessed(att.claims.taskHash);
      if seen == Some(true) {
        return Ok(false);
      }
      if !att.claims.quoteVerified {
        return Ok(false);
      }
      if !att.claims.eventLogVerified {
        return Ok(false);
      }
      if r.call.report != ReportData(cr.sha256, att.claims) {
        return Ok(false);
      }
      var quorum := VerifyQuorum(cr.verify, r.active, r.threshold, [att]);
      if quorum != Ok(true) {
        return quorum;
      }
      var marked := MarkProcessed(att.claims.taskHash);
      return Ok(marked == Some(true));
    }

    method AcceptBundle(cr: Crypto, r: Request) returns (verdict: Result<bool, QuorumError>)
      requires WellFormedRequest(r) && r.call.OfBundle?
      modifies this
      ensures verdict == Verdict(cr, r, old(processed))
      ensures processed == After(r, verdict, old(processed))
    {
      hide QuorumVerdict, ReportData;
      var atts := r.call.atts;
      if atts == [] {
        return Ok(false);
      }
      var taskHash := atts[0].claims.taskHash;
      var seen := IsProcessed(taskHash);
      if seen == Some(true) {
        return Ok(false);
      }
      var quorum := VerifyQuorum(cr.verify, r.active, r.threshold, atts);
      if quorum != Ok(true) {
        return quorum;
      }
      if r.call.report != ReportData(cr.sha256, atts[0].claims) {
        return Ok(false);
      }
      var marked := MarkProcessed(taskHash);
      return Ok(marked == Some(true));
    }

    /** The result acceptor: everything is verified before the record is looked at. */
    method AcceptForResult(cr: Crypto, r: Request) returns (verdict: Result<bool, QuorumError>)
      requires WellFormedRequest(r) && r.call.OfResult?
      modifies this
      ensures verdict == Verdict(cr, r, old(processed))
      ensures processed == After(r, verdict, old(processed))
    {
      hide QuorumVerdict, ReportData, HashMatches;
      var atts, result := r.call.atts, r.call.result;
      if atts == [] {
        return Ok(false);
      }
      for i := 0 to |atts|
        invariant processed == old(processed)
        invariant forall k :: 0 <= k < i ==> MatchesResult(cr, atts[k].claims, result)
      {
        var matches := CompareResult(cr, atts[i].claims, result);
        if !matches {
          return Ok(false);
        }
      }
      if r.call.report != ReportData(cr.sha256, atts[0].claims) {
        return Ok(false);
      }
      var quorum := VerifyQuorum(cr.verify, r.active, r.threshold, atts);
      if quorum != Ok(true) {
        return quorum;
      }
      assert MatchesResult(cr, atts[0].claims, result);
      if !Plausible(result) {
        return Ok(false);
      }
      var taskHash := atts[0].claims.taskHash;
      var seen := IsProcessed(taskHash);
      if seen == Some(true) {
        return Ok(false);
      }
      var marked := MarkProcessed(taskHash);
      return Ok(marked == Some(true));
    }
  }

  // ---- runs ----

  function TaskHash(r: Request): Bytes
    requires Attestations(r.call) != []
  {
    Attestations(r.call)[0].claims.taskHash
  }

  /** The record after a call: one hash more if it was accepted, else the same. */
  function After(r: Request, verdict: Result<bool, QuorumError>, processed: set<Bytes>): set<Bytes> {
    if verdict == Ok(true) && Attestations(r.call) != [] then processed + {TaskHash(r)} else processed
  }

  predicate AllWellFormed(requests: seq<Request>) {
    forall k :: 0 <= k < |requests| ==> WellFormedRequest(requests[k])
  }

  /** The record after the first `n` calls, in any mix of the four entry points. */
  function RecordAt(cr: Crypto, start: set<Bytes>, requests: seq<Request>, n: nat): set<Bytes>
    requires n <= |requests| && AllWellFormed(requests)
  {
    if n == 0 then start
    else
      var before := RecordAt(cr, start, requests, n - 1);
      After(requests[n - 1], Verdict(cr, requests[n - 1], before), before)
  }

  predicate AcceptedAt(cr: Crypto, start: set<Bytes>, requests: seq<Request>, k: nat)
    requires k < |requests| && AllWellFormed(requests)
  {
    Verdict(cr, requests[k], RecordAt(cr, start, requests, k)) == Ok(true)
  }

  lemma AcceptedIsNew(cr: Crypto, r: Request, processed: set<Bytes>)
    requires r.threshold.denominator > 0 && Verdict(cr, r, processed) == Ok(true)
    ensures Attestations(r.call) != [] && TaskHash(r) !in processed
  {
    hide QuorumVerdict, MatchesResult, ReportData;
  }

  lemma {:induction false} RecordGrows(cr: Crypto, start: set<Bytes>, requests: seq<Request>, m: nat, n: nat)
    requires m <= n <= |requests| && AllWellFormed(requests)
    ensures RecordAt(cr, start, requests, m) <= RecordAt(cr, start, requests, n)
  {
    hide Verdict;
    if m < n {
      RecordGrows(cr, start, requests, m, n - 1);
    }
  }

  predicate AcceptedBefore(cr: Crypto, start: set<Bytes>, requests: seq<Request>, n: nat, hash: Bytes)
    requires n <= |requests| && AllWellFormed(requests)
  {
    exists k :: 0 <= k < n && AcceptedAt(cr, start, requests, k) && Attestations(requests[k].call) != []
      && TaskHash(requests[k]) == hash
  }

  /** The record is what it started with plus exactly the accepted hashes. */
  lemma {:induction false} RecordIsAccepted(cr: Crypto, start: set<Bytes>, requests: seq<Request>, n: nat, hash: Bytes)
    requires n <= |requests| && AllWellFormed(requests)
    ensures hash in RecordAt(cr, start, requests, n) <==> hash in start || AcceptedBefore(cr, start, requests, n, hash)
  {
    hide Verdict;
    if n > 0 {
      RecordIsAccepted(cr, start, requests, n - 1, hash);
      if hash in RecordAt(cr, start, requests, n) && hash !in RecordAt(cr, start, requests, n - 1) {
        assert AcceptedAt(cr, start, requests, n - 1);
      }
    }
  }

  /** Exactly once: over every run, no task hash is accepted twice, and none that was there at the start. */
  lemma ExactlyOnce(cr: Crypto, start: set<Bytes>, requests: seq<Request>)
    requires AllWellFormed(requests)
    ensures forall k :: 0 <= k < |requests| && AcceptedAt(cr, start, requests, k) ==>
              Attestations(requests[k].call) != [] && TaskHash(requests[k]) !in start
    ensures forall j, k ::
              0 <= j < k < |requests| && AcceptedAt(cr, start, requests, j) && AcceptedAt(cr, start, requests, k) ==>
              TaskHash(requests[j]) != TaskHash(requests[k])
  {
    hide Verdict, AcceptedAt, RecordAt;
    forall k | 0 <= k < |requests| && AcceptedAt(cr, start, requests, k)
      ensures Attestations(requests[k].call) != [] && TaskHash(requests[k]) !in start
    {
      AcceptedHashIsNew(cr, start, requests, k, 0);
    }
    forall j, k | 0 <= j < k < |requests| && AcceptedAt(cr, start, requests, j) && AcceptedAt(cr, start, requests, k)
      ensures TaskHash(requests[j]) != TaskHash(requests[k])
    {
      AcceptedHashIsNew(cr, start, requests, j, j);
      AcceptedHashIsNew(cr, start, requests, k, j + 1);
      AcceptedHashIsRecorded(cr, start, requests, j);
    }
  }

  lemma AcceptedHashIsNew(cr: Crypto, start: set<Bytes>, requests: seq<Request>, k: nat, m: nat)
    requires m <= k < |requests| && AllWellFormed(requests) && AcceptedAt(cr, start, requests, k)
    ensures Attestations(requests[k].call) != [] && TaskHash(requests[k]) !in RecordAt(cr, start, requests, m)
    ensures m == 0 ==> TaskHash(requests[k]) !in start
  {
    hide Verdict;
    AcceptedIsNew(cr, requests[k], RecordAt(cr, start, requests, k));
    RecordGrows(cr, start, requests, m, k);
  }

  lemma AcceptedHashIsRecorded(cr: Crypto, start: set<Bytes>, requests: seq<Request>, k: nat)
    requires k < |requests| && AllWellFormed(requests) && AcceptedAt(cr, start, requests, k)
    requires Attestations(requests[k].call) != []
    ensures TaskHash(requests[k]) in RecordAt(cr, start, requests, k + 1)
  {
    hide Verdict;
  }
}
