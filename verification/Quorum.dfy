/** Validator attestations: how many are required, when a bundle is accepted, and what two accepted bundles share. */
module Quorum {
  import opened Prelude

  // ---- attestations ----

  /** The ten fields a validator signs. */
  datatype Claims = Claims(
    taskHash: Bytes,
    gnWeight: nat,
    latencyMs: nat,
    modelHash: Bytes,
    outputHash: Bytes,
    decodePolicyHash: Bytes,
    teeType: nat,
    quoteVerified: bool,
    eventLogVerified: bool,
    hardwareIdHash: Bytes)

  datatype Attestation = Attestation(claims: Claims, validatorId: Bytes, signature: Bytes)

  /** What constructing an attestation enforces. */
  predicate WellFormed(a: Attestation) {
    WellFormedClaims(a.claims) && |a.validatorId| == 32 && |a.signature| == SIGNATURE_SIZE
  }

  predicate WellFormedClaims(c: Claims) {
    && |c.taskHash| == |c.modelHash| == |c.outputHash| == |c.decodePolicyHash| == |c.hardwareIdHash| == 32
    && c.gnWeight <= U64_MAX && c.latencyMs <= U64_MAX && c.teeType <= U8_MAX
  }

  // ---- what is signed and what is committed ----

  function Flat(parts: seq<Bytes>): Bytes {
    if parts == [] then [] else parts[0] + Flat(parts[1..])
  }

  function Flag(b: bool): Bytes {
    [if b then 1 else 0]
  }

  function ReportFields(c: Claims): seq<Bytes> {
    [c.taskHash, LittleEndian(c.gnWeight, 8), LittleEndian(c.latencyMs, 8),
     c.modelHash, c.outputHash, c.decodePolicyHash, LittleEndian(c.teeType, 1)]
  }

  function SignablePayload(c: Claims): Bytes {
    Flat(ReportFields(c) + [Flag(c.quoteVerified), Flag(c.eventLogVerified), c.hardwareIdHash])
  }

  lemma {:induction false} FlatInjective(a: seq<Bytes>, b: seq<Bytes>)
    requires |a| == |b| && Flat(a) == Flat(b)
    requires forall i :: 0 <= i < |a| ==> |a[i]| == |b[i]|
    ensures a == b
  {
    if a != [] {
      ConcatSplit(a[0], Flat(a[1..]), b[0], Flat(b[1..]));
      FlatInjective(a[1..], b[1..]);
      assert a == [a[0]] + a[1..] && b == [b[0]] + b[1..];
    }
  }

  // ---- the layout ----

  /** A field at the front of what is left, and the rest behind it. */
  lemma Peel(p: Bytes, o: nat, parts: seq<Bytes>)
    requires o <= |p| && parts != [] && p[o..] == Flat(parts)
    ensures var end := o + |parts[0]|; end <= |p| && p[o..end] == parts[0] && p[end..] == Flat(parts[1..])
  {
    assert p[o..][..|parts[0]|] == parts[0] && p[o..][|parts[0]|..] == Flat(parts[1..]);
  }

  /** Where the seven reported fields are: hashes as they are, numbers with the lowest byte first. */
  predicate StatesFields(p: Bytes, c: Claims) {
    && |p| >= 145
    && p[0..32] == c.taskHash
    && FromLittleEndian(p[32..40]) == c.gnWeight && FromLittleEndian(p[40..48]) == c.latencyMs
    && p[48..80] == c.modelHash && p[80..112] == c.outputHash && p[112..144] == c.decodePolicyHash
    && p[144] as nat == c.teeType
  }

  lemma SevenPieces(parts: seq<Bytes>)
    requires |parts| >= 7
    requires |parts[0]| == |parts[3]| == |parts[4]| == |parts[5]| == 32 && |parts[1]| == |parts[2]| == 8
    requires |parts[6]| == 1
    ensures var p := Flat(parts);
            && |p| >= 145 && p[0..32] == parts[0] && p[32..40] == parts[1] && p[40..48] == parts[2]
            && p[48..80] == parts[3] && p[80..112] == parts[4] && p[112..144] == parts[5] && p[144..145] == parts[6]
            && p[145..] == Flat(parts[7..])
  {
    hide Flat;
    var p := Flat(parts);
    Peel(p, 0, parts);
    Peel(p, 32, parts[1..]);
    Peel(p, 40, parts[2..]);
    Peel(p, 48, parts[3..]);
    Peel(p, 80, parts[4..]);
    Peel(p, 112, parts[5..]);
    Peel(p, 144, parts[6..]);
  }

  lemma FieldsLayout(c: Claims, more: seq<Bytes>)
    requires WellFormedClaims(c)
    ensures var p := Flat(ReportFields(c) + more); StatesFields(p, c) && p[145..] == Flat(more)
  {
    hide Flat, LittleEndian, FromLittleEndian;
    WidthsFit();
    var parts := ReportFields(c) + more;
    SevenPieces(parts);
    assert parts[7..] == more;
    DecodeEncode(c.gnWeight, 8);
    DecodeEncode(c.latencyMs, 8);
    OneByte(c.teeType);
    assert Flat(parts)[144..145][0] == Flat(parts)[144];
  }

  /** The 179 signed bytes: the reported fields, two flags and the hardware id. */
  lemma PayloadLayout(c: Claims)
    requires WellFormedClaims(c)
    ensures var p := SignablePayload(c);
            && |p| == 179 && StatesFields(p, c)
            && p[145] == (if c.quoteVerified then 1 else 0) && p[146] == (if c.eventLogVerified then 1 else 0)
            && p[147..179] == c.hardwareIdHash
  {
    hide Flat, StatesFields, ReportFields;
    var more := [Flag(c.quoteVerified), Flag(c.eventLogVerified), c.hardwareIdHash];
    var p := SignablePayload(c);
    FieldsLayout(c, more);
    assert |p| >= 145 by { AtLeast(p, c); }
    Peel(p, 145, more);
    Peel(p, 146, more[1..]);
    Peel(p, 147, more[2..]);
    assert more[2..][1..] == [];
    assert Flat([]) == [] by { FlatOfNothing(); }
    assert p[145..146][0] == p[145] && p[146..147][0] == p[146];
  }

  lemma AtLeast(p: Bytes, c: Claims)
    requires StatesFields(p, c)
    ensures |p| >= 145
  {
  }

  lemma FlatOfNothing()
    ensures Flat([]) == []
  {
  }

  /** The report data fields as numbers again. */
  lemma ReportFieldsInjective(a: Claims, b: Claims)
    requires WellFormedClaims(a) && WellFormedClaims(b) && ReportFields(a) == ReportFields(b)
    ensures a.taskHash == b.taskHash && a.gnWeight == b.gnWeight && a.latencyMs == b.latencyMs
    ensures a.modelHash == b.modelHash
    ensures a.outputHash == b.outputHash && a.decodePolicyHash == b.decodePolicyHash && a.teeType == b.teeType
  {
    hide LittleEndian, Pow256;
    WidthsFit();
    var x, y := ReportFields(a), ReportFields(b);
    assert x[0] == y[0] && x[1] == y[1] && x[2] == y[2] && x[3] == y[3] && x[4] == y[4] && x[5] == y[5] && x[6] == y[6];
    LittleEndianInjective(a.gnWeight, b.gnWeight, 8);
    LittleEndianInjective(a.latencyMs, b.latencyMs, 8);
    LittleEndianInjective(a.teeType, b.teeType, 1);
  }

  /** Fixed widths: one payload states one set of claims. */
  lemma SignablePayloadInjective(a: Claims, b: Claims)
    requires WellFormedClaims(a) && WellFormedClaims(b) && SignablePayload(a) == SignablePayload(b)
    ensures a == b
  {
    hide LittleEndian, Flat;
    var x := ReportFields(a) + [Flag(a.quoteVerified), Flag(a.eventLogVerified), a.hardwareIdHash];
    var y := ReportFields(b) + [Flag(b.quoteVerified), Flag(b.eventLogVerified), b.hardwareIdHash];
    FlatInjective(x, y);
    assert ReportFields(a) == x[..7] == y[..7] == ReportFields(b);
    ReportFieldsInjective(a, b);
    assert x[7] == y[7] && x[8] == y[8] && x[9] == y[9];
    assert x[7][0] == y[7][0] && x[8][0] == y[8][0];
  }

  // ---- how many ----

  datatype QuorumError = BadThreshold

  /** A threshold as an exact fraction; the denominator is positive. */
  datatype Threshold = Threshold(numerator: int, denominator: int)

  /** The least positive number of validators that is at least n times the threshold. */
  function RequiredQuorum(n: nat, t: Threshold): (r: Result<nat, QuorumError>)
    requires t.denominator > 0
    ensures r.Err? <==> !(0 < t.numerator <= t.denominator)
    ensures r.Ok? ==> 1 <= r.value && n * t.numerator <= r.value * t.denominator
    ensures r.Ok? ==> forall m :: 1 <= m && n * t.numerator <= m * t.denominator ==> r.value <= m
    ensures r.Ok? ==> r.value <= (if n < 1 then 1 else n)
  {
    if !(0 < t.numerator <= t.denominator) then Err(BadThreshold)
    else
      var required := (n * t.numerator + t.denominator - 1) / t.denominator;
      CeilingIsLeast(n * t.numerator, t.denominator);
      Shrinks(n, t.numerator, t.denominator);
      Ok(if required < 1 then 1 else required)
  }

  lemma CeilingIsLeast(a: nat, d: nat)
    requires d > 0
    ensures a <= (a + d - 1) / d * d
    ensures forall m :: 1 <= m && a <= m * d ==> (a + d - 1) / d <= m
  {
    var q := (a + d - 1) / d;
    assert a + d - 1 == q * d + (a + d - 1) % d;
    forall m | 1 <= m && a <= m * d
      ensures q <= m
    {
      if q > m {
        Multiply(m + 1, q, d);
      }
    }
  }

  lemma Multiply(a: int, b: int, c: int)
    requires a <= b && c >= 0
    ensures a * c <= b * c
  {
  }

  lemma Shrinks(n: nat, a: nat, d: nat)
    requires a <= d
    ensures n * a <= n * d
  {
  }

  /** Above one half, two quorums overlap. */
  lemma MajorityOverlaps(n: nat, t: Threshold, u: Threshold)
    requires n > 0 && t.denominator < 2 * t.numerator && u.denominator < 2 * u.numerator
    requires 0 < t.numerator <= t.denominator && 0 < u.numerator <= u.denominator
    ensures RequiredQuorum(n, t).value + RequiredQuorum(n, u).value > n
  {
    MoreThanHalf(n, t);
    MoreThanHalf(n, u);
  }

  lemma MoreThanHalf(n: nat, t: Threshold)
    requires n > 0 && t.denominator < 2 * t.numerator && 0 < t.numerator <= t.denominator
    ensures 2 * RequiredQuorum(n, t).value > n
  {
    hide RequiredQuorum;
    HalfBound(n, RequiredQuorum(n, t).value, t.numerator, t.denominator);
  }

  lemma HalfBound(n: nat, q: nat, a: nat, d: nat)
    requires n > 0 && n * a <= q * d && d < 2 * a
    ensures n < 2 * q
  {
    assert n * d < n * (2 * a);
    assert n * (2 * a) == 2 * (n * a) && (2 * q) * d == 2 * (q * d);
    CancelLess(n, 2 * q, d);
  }

  lemma CancelLess(a: nat, b: nat, d: nat)
    requires a * d < b * d
    ensures a < b
  {
    if b <= a {
      Multiply(b, a, d);
    }
  }

  // ---- when a bundle is accepted ----

  /** sr25519 verification of (public key, payload, signature); any such function. */
  type SchnorrVerifier = (Bytes, Bytes, Bytes) -> bool

  function Ids(atts: seq<Attestation>): set<Bytes> {
    set k | 0 <= k < |atts| :: atts[k].validatorId
  }

  predicate Distinct(atts: seq<Attestation>) {
    forall j, k :: 0 <= j < k < |atts| ==> atts[j].validatorId != atts[k].validatorId
  }

  predicate Supports(verify: SchnorrVerifier, reference: Claims, a: Attestation) {
    && a.claims.quoteVerified && a.claims.eventLogVerified && a.claims == reference
    && verify(a.validatorId, SignablePayload(a.claims), a.signature)
  }

  /** A quorum of different active validators, all signing the same claims. */
  predicate QuorumHolds(verify: SchnorrVerifier, active: set<Bytes>, required: nat, atts: seq<Attestation>) {
    && atts != [] && required <= |atts| && Distinct(atts) && Ids(atts) <= active
    && forall k :: 0 <= k < |atts| ==> Supports(verify, atts[0].claims, atts[k])
  }

  function QuorumVerdict(verify: SchnorrVerifier, active: set<Bytes>, t: Threshold,
      atts: seq<Attestation>): Result<bool, QuorumError>
    requires t.denominator > 0
  {
    if atts == [] then Ok(false)
    else
      match RequiredQuorum(|active|, t)
      case Err(e) => Err(e)
      case Ok(required) => Ok(QuorumHolds(verify, active, required, atts))
  }

  /** len(ids) == len(set(ids)) says they are pairwise different. */
  lemma {:induction false} CountingFindsDuplicates(atts: seq<Attestation>)
    ensures |Ids(atts)| <= |atts|
    ensures |Ids(atts)| == |atts| <==> Distinct(atts)
    decreases |atts|
  {
    hide Ids, Distinct;
    NoIds();
    if atts != [] {
      var n := |atts| - 1;
      var before, last := atts[..n], atts[n];
      assert atts == before + [last];
      CountingFindsDuplicates(before);
      IdsSnoc(before, last);
      DistinctSnoc(before, last);
      CardinalitySnoc(Ids(before), last.validatorId);
    }
  }

  lemma NoIds()
    ensures Ids([]) == {} && Distinct([])
  {
  }

  lemma CardinalitySnoc(ids: set<Bytes>, id: Bytes)
    ensures |ids + {id}| == |ids| + if id in ids then 0 else 1
  {
    if id in ids {
      assert ids + {id} == ids;
    }
  }

  lemma DistinctSnoc(atts: seq<Attestation>, a: Attestation)
    ensures Distinct(atts + [a]) <==> Distinct(atts) && a.validatorId !in Ids(atts)
  {
    var longer := atts + [a];
    assert forall k :: 0 <= k < |atts| ==> longer[k] == atts[k];
    assert longer[|atts|] == a;
    if a.validatorId in Ids(atts) {
      var k :| 0 <= k < |atts| && atts[k].validatorId == a.validatorId;
      assert longer[k].validatorId == longer[|atts|].validatorId;
    } else {
      assert forall k :: 0 <= k < |atts| ==> atts[k].validatorId in Ids(atts);
    }
  }

  lemma IdsSnoc(atts: seq<Attestation>, a: Attestation)
    ensures Ids(atts + [a]) == Ids(atts) + {a.validatorId}
  {
    var longer := atts + [a];
    forall id | id in Ids(atts) + {a.validatorId}
      ensures id in Ids(longer)
    {
      if id in Ids(atts) {
        var k :| 0 <= k < |atts| && atts[k].validatorId == id;
        assert longer[k].validatorId == id;
      } else {
        assert longer[|atts|].validatorId == id;
      }
    }
  }

  /** The check as it runs, with its early exits. */
  method VerifyQuorum(verify: SchnorrVerifier, active: set<Bytes>, t: Threshold, atts: seq<Attestation>)
    returns (r: Result<bool, QuorumError>)
    requires t.denominator > 0
    ensures r == QuorumVerdict(verify, active, t, atts)
  {
    hide RequiredQuorum, Distinct, Supports;
    if atts == [] {
      return Ok(false);
    }
    var required := RequiredQuorum(|active|, t);
    if required.Err? {
      return Err(required.error);
    }
    if |atts| < required.value {
      return Ok(false);
    }
    CountingFindsDuplicates(atts);
    var ids := Ids(atts);
    if |ids| != |atts| {
      return Ok(false);
    }
    if !(ids <= active) {
      return Ok(false);
    }
    var reference := atts[0];
    for i := 0 to |atts|
      invariant forall k :: 0 <= k < i ==> Supports(verify, reference.claims, atts[k])
    {
      var a := atts[i];
      var supported := SupportsInSteps(verify, reference.claims, a);
      if !supported {
        return Ok(false);
      }
    }
    return Ok(true);
  }

  method SupportsInSteps(verify: SchnorrVerifier, reference: Claims, a: Attestation) returns (ok: bool)
    ensures ok == Supports(verify, reference, a)
  {
    if !a.claims.quoteVerified {
      return false;
    }
    if !a.claims.eventLogVerified {
      return false;
    }
    if a.claims != reference {
      return false;
    }
    return verify(a.validatorId, SignablePayload(a.claims), a.signature);
  }

  // ---- two bundles against one registry ----

  lemma Overlap(active: set<Bytes>, a: set<Bytes>, b: set<Bytes>)
    requires a <= active && b <= active
    ensures |a * b| >= |a| + |b| - |active|
  {
    assert |a + b| == |a| + |b| - |a * b|;
    SubsetSmaller(a + b, active);
  }

  lemma SubsetSmaller(a: set<Bytes>, b: set<Bytes>)
    requires a <= b
    ensures |a| <= |b|
  {
    assert b == a + (b - a);
  }

  /** Two accepted bundles share at least the two quorums less the number of validators. */
  lemma QuorumIntersection(
      verify: SchnorrVerifier, active: set<Bytes>, t: Threshold, a: seq<Attestation>, u: Threshold, b: seq<Attestation>)
    requires t.denominator > 0 && u.denominator > 0
    requires QuorumVerdict(verify, active, t, a) == Ok(true) && QuorumVerdict(verify, active, u, b) == Ok(true)
    ensures |Ids(a) * Ids(b)| >= RequiredQuorum(|active|, t).value + RequiredQuorum(|active|, u).value - |active|
  {
    hide RequiredQuorum, Ids, Distinct, Supports;
    CountingFindsDuplicates(a);
    CountingFindsDuplicates(b);
    Overlap(active, Ids(a), Ids(b));
  }

  /** Above one half, two accepted bundles share a validator that signed both payloads; if the bundles claim
      different things, it signed two different byte strings. */
  lemma SharedValidator(
      verify: SchnorrVerifier, active: set<Bytes>, t: Threshold, a: seq<Attestation>, u: Threshold, b: seq<Attestation>)
    returns (j: nat, k: nat)
    requires 0 < t.denominator < 2 * t.numerator && 0 < u.denominator < 2 * u.numerator
    requires QuorumVerdict(verify, active, t, a) == Ok(true) && QuorumVerdict(verify, active, u, b) == Ok(true)
    requires WellFormed(a[0]) && WellFormed(b[0])
    ensures j < |a| && k < |b| && a[j].validatorId == b[k].validatorId && a[j].validatorId in active
    ensures verify(a[j].validatorId, SignablePayload(a[0].claims), a[j].signature)
    ensures verify(a[j].validatorId, SignablePayload(b[0].claims), b[k].signature)
    ensures a[0].claims != b[0].claims ==> SignablePayload(a[0].claims) != SignablePayload(b[0].claims)
  {
    hide RequiredQuorum, Distinct, SignablePayload, WellFormedClaims;
    QuorumIntersection(verify, active, t, a, u, b);
    assert a[0].validatorId in Ids(a);
    SomethingActive(active, a[0].validatorId);
    MajorityOverlaps(|active|, t, u);
    var shared := Ids(a) * Ids(b);
    assert shared != {};
    var id :| id in shared;
    j :| 0 <= j < |a| && a[j].validatorId == id;
    k :| 0 <= k < |b| && b[k].validatorId == id;
    if SignablePayload(a[0].claims) == SignablePayload(b[0].claims) {
      SignablePayloadInjective(a[0].claims, b[0].claims);
    }
  }

  lemma SomethingActive(active: set<Bytes>, id: Bytes)
    requires id in active
    ensures |active| > 0
  {
  }
}
