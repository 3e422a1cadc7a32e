/** The signed messages of proof versions 3 and 4: `|`-joined fields behind a tag. */
module Canonical {
  import opened Prelude

  datatype FieldError =
    | EmptyField | SeparatorInField | ControlCharacter | RoomIsProofId | NotAProofId | NotAHash
    | WrongTag | WrongFieldCount

  type Checked = Result<string, FieldError>

  const SEPARATOR: char := '|'
  const TAG_PREFIX: string := "FLOP/"

  datatype Format = V3 | V4

  function RequestTag(f: Format): string {
    match f case V3 => "FLOP/REQUEST/v3" case V4 => "FLOP/REQUEST/v4"
  }

  function EventTag(f: Format): string {
    match f case V3 => "FLOP/EVENT/v3" case V4 => "FLOP/EVENT/v4"
  }

  // ---- splitting and joining ----

  predicate Plain(s: string) {
    SEPARATOR !in s
  }

  /** Where the first separator is, or the length. */
  function FirstSeparator(s: string): (i: nat)
    ensures i <= |s| && Plain(s[..i]) && (i < |s| ==> s[i] == SEPARATOR)
  {
    if s == [] || s[0] == SEPARATOR then 0
    else
      var i := 1 + FirstSeparator(s[1..]);
      assert s[..i] == [s[0]] + s[1..][..i - 1];
      i
  }

  /** Python's `s.split("|", limit)`. */
  function Split(s: string, limit: nat): (parts: seq<string>)
    ensures 1 <= |parts| <= limit + 1
    decreases limit
  {
    var i := FirstSeparator(s);
    if limit == 0 || i == |s| then [s] else [s[..i]] + Split(s[i + 1..], limit - 1)
  }

  /** Python's `"|".join(parts)`. */
  function Join(parts: seq<string>): string
    requires parts != []
  {
    if |parts| == 1 then parts[0] else parts[0] + [SEPARATOR] + Join(parts[1..])
  }

  lemma {:induction false} JoinSplit(s: string, limit: nat)
    ensures Join(Split(s, limit)) == s
    decreases limit
  {
    hide FirstSeparator;
    var i := FirstSeparator(s);
    if limit == 0 || i == |s| {
    } else {
      var rest := s[i + 1..];
      JoinSplit(rest, limit - 1);
      assert Split(s, limit)[1..] == Split(rest, limit - 1);
      assert Join(Split(s, limit)) == s[..i] + [SEPARATOR] + rest;
    }
  }

  lemma {:induction false} SplitPartsPlain(s: string, limit: nat, k: nat)
    requires k + 1 < |Split(s, limit)|
    ensures Plain(Split(s, limit)[k])
    decreases limit
  {
    var i := FirstSeparator(s);
    if k > 0 {
      SplitPartsPlain(s[i + 1..], limit - 1, k - 1);
    }
  }

  lemma {:induction false} FirstSeparatorIs(s: string, i: nat)
    requires i <= |s| && Plain(s[..i]) && (i < |s| ==> s[i] == SEPARATOR)
    ensures FirstSeparator(s) == i
  {
    if i > 0 {
      assert s[..i] == [s[0]] + s[1..][..i - 1];
      FirstSeparatorIs(s[1..], i - 1);
    }
  }

  /** Fields that are plain, except perhaps the last, come back from the joined string. */
  lemma {:induction false} SplitJoin(parts: seq<string>)
    requires parts != []
    requires forall k :: 0 <= k < |parts| - 1 ==> Plain(parts[k])
    ensures Split(Join(parts), |parts| - 1) == parts
    decreases |parts|
  {
    hide FirstSeparator, Plain;
    if |parts| > 1 {
      var s, head, rest := Join(parts), parts[0], parts[1..];
      assert s == head + [SEPARATOR] + Join(rest);
      assert s[..|head|] == head && s[|head|] == SEPARATOR && s[|head| + 1..] == Join(rest);
      assert forall k :: 0 <= k < |rest| - 1 ==> rest[k] == parts[k + 1];
      FirstSeparatorIs(s, |head|);
      SplitJoin(rest);
      assert parts == [head] + rest;
    }
  }

  // ---- field rules ----

  predicate Control(c: char) {
    c as int < 0x20 || c as int == 0x7f
  }

  function CheckField(value: string, freeText: bool): Checked {
    if value == "" then Err(EmptyField)
    else if !freeText && !Plain(value) then Err(SeparatorInField)
    else if !freeText && (exists i :: 0 <= i < |value| && Control(value[i])) then Err(ControlCharacter)
    else Ok(value)
  }

  predicate LowerHex(c: char) {
    '0' <= c <= '9' || 'a' <= c <= 'f'
  }

  predicate IsHash(s: string) {
    |s| == 64 && forall i :: 0 <= i < 64 ==> LowerHex(s[i])
  }

  const PROOF_ID_PREFIX: string := "proof_"

  predicate IsProofId(s: string) {
    && |s| == 38 && s[..6] == PROOF_ID_PREFIX
    && forall i :: 6 <= i < 38 ==> LowerHex(s[i])
  }

  function CheckRoom(room: string): Checked {
    var room :- CheckField(room, false);
    if IsProofId(room) then Err(RoomIsProofId) else Ok(room)
  }

  function CheckProofId(proofId: string): Checked {
    var proofId :- CheckField(proofId, false);
    if !IsProofId(proofId) then Err(NotAProofId) else Ok(proofId)
  }

  function CheckHash(hash: string): Checked {
    var hash :- CheckField(hash, false);
    if !IsHash(hash) then Err(NotAHash) else Ok(hash)
  }

  // ---- the four formats ----

  datatype Request = Request(room: string, nonce: string, text: string)
  datatype EventV3 = EventV3(proofId: string, kind: string, payloadHash: string, nonce: string)
  datatype EventV4 = EventV4(proofId: string, kind: string, payloadHash: string, nonce: string, priorHead: string)

  function SplitTagged(canonical: string, tag: string, fieldCount: nat): (r: Result<seq<string>, FieldError>)
    ensures r.Ok? ==> |r.value| == fieldCount
  {
    var parts := Split(canonical, fieldCount);
    if parts[0] != tag then Err(WrongTag)
    else if |parts| != fieldCount + 1 then Err(WrongFieldCount)
    else Ok(parts[1..])
  }

  function BuildRequest(f: Format, r: Request): Checked {
    var room :- CheckRoom(r.room);
    var nonce :- CheckField(r.nonce, false);
    var text :- CheckField(r.text, true);
    Ok(Join([RequestTag(f), room, nonce, text]))
  }

  function ParseRequest(f: Format, canonical: string): Result<Request, FieldError> {
    var parts :- SplitTagged(canonical, RequestTag(f), 3);
    var room :- CheckRoom(parts[0]);
    var nonce :- CheckField(parts[1], false);
    var text :- CheckField(parts[2], true);
    Ok(Request(room, nonce, text))
  }

  function BuildEventV3(e: EventV3): Checked {
    var proofId :- CheckProofId(e.proofId);
    var kind :- CheckField(e.kind, false);
    var payloadHash :- CheckHash(e.payloadHash);
    var nonce :- CheckField(e.nonce, false);
    Ok(Join([EventTag(V3), proofId, kind, payloadHash, nonce]))
  }

  function ParseEventV3(canonical: string): Result<EventV3, FieldError> {
    var parts :- SplitTagged(canonical, EventTag(V3), 4);
    var proofId :- CheckProofId(parts[0]);
    var kind :- CheckField(parts[1], false);
    var payloadHash :- CheckHash(parts[2]);
    var nonce :- CheckField(parts[3], false);
    Ok(EventV3(proofId, kind, payloadHash, nonce))
  }

  function BuildEventV4(e: EventV4): Checked {
    var proofId :- CheckProofId(e.proofId);
    var kind :- CheckField(e.kind, false);
    var payloadHash :- CheckHash(e.payloadHash);
    var nonce :- CheckField(e.nonce, false);
    var priorHead :- CheckHash(e.priorHead);
    Ok(Join([EventTag(V4), proofId, kind, payloadHash, nonce, priorHead]))
  }

  function ParseEventV4(canonical: string): Result<EventV4, FieldError> {
    var parts :- SplitTagged(canonical, EventTag(V4), 5);
    var proofId :- CheckProofId(parts[0]);
    var kind :- CheckField(parts[1], false);
    var payloadHash :- CheckHash(parts[2]);
    var nonce :- CheckField(parts[3], false);
    var priorHead :- CheckHash(parts[4]);
    Ok(EventV4(proofId, kind, payloadHash, nonce, priorHead))
  }

  // ---- parse and build are exact inverses ----

  lemma TagsPlain(f: Format)
    ensures Plain(RequestTag(f)) && Plain(EventTag(f))
    ensures TAG_PREFIX <= RequestTag(f) && TAG_PREFIX <= EventTag(f)
  {
  }

  /** A canonical splits into a tag and fields exactly when it is their join. */
  lemma SplitTaggedIsExact(canonical: string, tag: string, fields: seq<string>)
    requires Plain(tag) && fields != [] && forall k :: 0 <= k < |fields| - 1 ==> Plain(fields[k])
    ensures SplitTagged(canonical, tag, |fields|) == Ok(fields) <==> canonical == Join([tag] + fields)
  {
    var parts := [tag] + fields;
    if canonical == Join(parts) {
      SplitJoin(parts);
      assert parts[1..] == fields;
    }
    var split := Split(canonical, |fields|);
    if split[0] == tag && |split| == |fields| + 1 && split[1..] == fields {
      assert split == parts;
      JoinSplit(canonical, |fields|);
    }
  }

  lemma RequestRoundTrip(f: Format, r: Request, canonical: string)
    ensures ParseRequest(f, canonical) == Ok(r) <==> BuildRequest(f, r) == Ok(canonical)
  {
    hide Split, Join, IsProofId, Plain, RequestTag;
    TagsPlain(f);
    var fields := [r.room, r.nonce, r.text];
    assert [RequestTag(f)] + fields == [RequestTag(f), r.room, r.nonce, r.text];
    if CheckField(r.room, false).Ok? && CheckField(r.nonce, false).Ok? {
      SplitTaggedIsExact(canonical, RequestTag(f), fields);
    }
    if ParseRequest(f, canonical) == Ok(r) {
      var parts := SplitTagged(canonical, RequestTag(f), 3).value;
      assert parts == [parts[0], parts[1], parts[2]];
      assert parts == fields;
    }
  }

  lemma EventV3RoundTrip(e: EventV3, canonical: string)
    ensures ParseEventV3(canonical) == Ok(e) <==> BuildEventV3(e) == Ok(canonical)
  {
    hide Split, Join, IsProofId, IsHash, Plain, EventTag;
    TagsPlain(V3);
    var fields := [e.proofId, e.kind, e.payloadHash, e.nonce];
    assert [EventTag(V3)] + fields == [EventTag(V3), e.proofId, e.kind, e.payloadHash, e.nonce];
    if CheckField(e.proofId, false).Ok? && CheckField(e.kind, false).Ok? && CheckField(e.payloadHash, false).Ok? {
      SplitTaggedIsExact(canonical, EventTag(V3), fields);
    }
    if ParseEventV3(canonical) == Ok(e) {
      var parts := SplitTagged(canonical, EventTag(V3), 4).value;
      assert parts == [parts[0], parts[1], parts[2], parts[3]];
      assert parts == fields;
    }
  }

  lemma EventV4RoundTrip(e: EventV4, canonical: string)
    ensures ParseEventV4(canonical) == Ok(e) <==> BuildEventV4(e) == Ok(canonical)
  {
    hide Split, Join, IsProofId, IsHash, Plain, EventTag;
    TagsPlain(V4);
    var fields := [e.proofId, e.kind, e.payloadHash, e.nonce, e.priorHead];
    assert [EventTag(V4)] + fields == [EventTag(V4), e.proofId, e.kind, e.payloadHash, e.nonce, e.priorHead];
    if CheckField(e.proofId, false).Ok? && CheckField(e.kind, false).Ok? && CheckField(e.payloadHash, false).Ok?
       && CheckField(e.nonce, false).Ok? {
      SplitTaggedIsExact(canonical, EventTag(V4), fields);
    }
    if ParseEventV4(canonical) == Ok(e) {
      var parts := SplitTagged(canonical, EventTag(V4), 5).value;
      assert parts == [parts[0], parts[1], parts[2], parts[3], parts[4]];
      assert parts == fields;
    }
  }

  // ---- no message has two readings ----

  datatype Reading = RequestV3 | RequestV4 | EventMessageV3 | EventMessageV4 | Untagged

  /** How versions read a message: four tagged formats, and the untagged messages of versions 1 and 2. */
  predicate ReadsAs(canonical: string, reading: Reading) {
    match reading
    case RequestV3 => ParseRequest(V3, canonical).Ok?
    case RequestV4 => ParseRequest(V4, canonical).Ok?
    case EventMessageV3 => ParseEventV3(canonical).Ok?
    case EventMessageV4 => ParseEventV4(canonical).Ok?
    case Untagged => !(TAG_PREFIX <= canonical)
  }

  function TagOf(reading: Reading): string
    requires !reading.Untagged?
  {
    match reading
    case RequestV3 => RequestTag(V3)
    case RequestV4 => RequestTag(V4)
    case EventMessageV3 => EventTag(V3)
    case EventMessageV4 => EventTag(V4)
  }

  lemma TaggedReading(canonical: string, reading: Reading)
    requires !reading.Untagged? && ReadsAs(canonical, reading)
    ensures canonical[..FirstSeparator(canonical)] == TagOf(reading)
    ensures TAG_PREFIX <= canonical
  {
    hide Split, SplitTagged, CheckRoom, CheckField, CheckProofId, CheckHash, FirstSeparator;
    TagsPlain(V3);
    TagsPlain(V4);
    TaggedHead(canonical, TagOf(reading),
      match reading case RequestV3 => 3 case RequestV4 => 3 case EventMessageV3 => 4 case _ => 5);
    var i := FirstSeparator(canonical);
    assert canonical == canonical[..i] + canonical[i..];
  }

  lemma TaggedHead(s: string, tag: string, fieldCount: nat)
    requires fieldCount > 0 && SplitTagged(s, tag, fieldCount).Ok?
    ensures s[..FirstSeparator(s)] == tag
  {
    hide FirstSeparator;
    assert s[..|s|] == s;
  }

  /** A message has at most one reading among the five. */
  lemma OneReadingOnly(canonical: string, first: Reading, second: Reading)
    requires ReadsAs(canonical, first) && ReadsAs(canonical, second)
    ensures first == second
  {
    hide ReadsAs, FirstSeparator;
    if !first.Untagged? {
      TaggedReading(canonical, first);
    }
    if !second.Untagged? {
      TaggedReading(canonical, second);
    }
    if first.Untagged? || second.Untagged? {
      UntaggedReading(canonical);
    } else {
      TagsDiffer(first, second);
    }
  }

  lemma UntaggedReading(canonical: string)
    ensures ReadsAs(canonical, Untagged) <==> !(TAG_PREFIX <= canonical)
  {
  }

  lemma TagsDiffer(first: Reading, second: Reading)
    requires !first.Untagged? && !second.Untagged? && TagOf(first) == TagOf(second)
    ensures first == second
  {
    var last := |TagOf(first)| - 1;
    assert TagOf(first)[last] == TagOf(second)[last] && TagOf(first)[5] == TagOf(second)[5];
  }

  // ---- the formats spelled out ----

  /** A field that is not free text: nonempty, no separator (124), no control character (below 32, and 127). */
  predicate FieldOk(s: string) {
    s != "" && forall i :: 0 <= i < |s| ==> 32 <= s[i] as int && s[i] as int != 124 && s[i] as int != 127
  }

  /** Lower-case hexadecimal digits: 0 to 9 are 48 to 57, a to f are 97 to 102. */
  predicate HexText(s: string) {
    forall i :: 0 <= i < |s| ==> 48 <= s[i] as int <= 57 || 97 <= s[i] as int <= 102
  }

  lemma HashExactly(s: string)
    ensures IsHash(s) <==> |s| == 64 && HexText(s)
  {
  }

  lemma ProofIdExactly(s: string)
    ensures IsProofId(s) <==> exists digits :: |digits| == 32 && HexText(digits) && s == "proof_" + digits
  {
    if IsProofId(s) {
      var digits := s[6..];
      assert s == "proof_" + digits && |digits| == 32 && HexText(digits);
    }
    forall digits | |digits| == 32 && HexText(digits) && s == "proof_" + digits
      ensures IsProofId(s)
    {
      assert s[..6] == "proof_" && s[6..] == digits;
      assert forall i :: 6 <= i < 38 ==> s[i] == digits[i - 6];
    }
  }

  lemma HexIsPlain(s: string)
    ensures IsHash(s) ==> FieldOk(s)
    ensures IsProofId(s) ==> FieldOk(s)
  {
    if IsProofId(s) {
      assert FieldOk(PROOF_ID_PREFIX);
      assert s == PROOF_ID_PREFIX + s[|PROOF_ID_PREFIX|..];
    }
  }

  lemma CheckFieldExactly(s: string)
    ensures CheckField(s, false) == Ok(s) <==> FieldOk(s)
    ensures CheckField(s, false).Ok? <==> FieldOk(s)
  {
  }

  /** Which fields make a version-4 event message, and what the message is. */
  lemma EventV4Layout(e: EventV4)
    ensures BuildEventV4(e).Ok? <==>
            IsProofId(e.proofId) && FieldOk(e.kind) && IsHash(e.payloadHash) && FieldOk(e.nonce) && IsHash(e.priorHead)
    ensures BuildEventV4(e).Ok? ==>
            BuildEventV4(e).value
            == "FLOP/EVENT/v4|" + e.proofId + "|" + e.kind + "|" + e.payloadHash + "|" + e.nonce + "|" + e.priorHead
  {
    hide IsHash, IsProofId, FieldOk, CheckField;
    CheckFieldExactly(e.proofId);
    CheckFieldExactly(e.kind);
    CheckFieldExactly(e.payloadHash);
    CheckFieldExactly(e.nonce);
    CheckFieldExactly(e.priorHead);
    HexIsPlain(e.proofId);
    HexIsPlain(e.payloadHash);
    HexIsPlain(e.priorHead);
    JoinSix(EventTag(V4), e.proofId, e.kind, e.payloadHash, e.nonce, e.priorHead);
    assert EventTag(V4) + "|" == "FLOP/EVENT/v4|";
  }

  lemma EventV3Layout(e: EventV3)
    ensures BuildEventV3(e).Ok? <==>
            IsProofId(e.proofId) && FieldOk(e.kind) && IsHash(e.payloadHash) && FieldOk(e.nonce)
    ensures BuildEventV3(e).Ok? ==>
            BuildEventV3(e).value == "FLOP/EVENT/v3|" + e.proofId + "|" + e.kind + "|" + e.payloadHash + "|" + e.nonce
  {
    hide IsHash, IsProofId, FieldOk, CheckField;
    CheckFieldExactly(e.proofId);
    CheckFieldExactly(e.kind);
    CheckFieldExactly(e.payloadHash);
    CheckFieldExactly(e.nonce);
    HexIsPlain(e.proofId);
    HexIsPlain(e.payloadHash);
    JoinFive(EventTag(V3), e.proofId, e.kind, e.payloadHash, e.nonce);
    assert EventTag(V3) + "|" == "FLOP/EVENT/v3|";
  }

  /** Which fields make a request message: the text is free, the room is not a proof id. */
  lemma RequestLayout(f: Format, r: Request)
    ensures BuildRequest(f, r).Ok? <==> FieldOk(r.room) && !IsProofId(r.room) && FieldOk(r.nonce) && r.text != ""
    ensures BuildRequest(f, r).Ok? ==>
            BuildRequest(f, r).value
            == (if f == V4 then "FLOP/REQUEST/v4|" else "FLOP/REQUEST/v3|") + r.room + "|" + r.nonce + "|" + r.text
  {
    hide IsProofId, FieldOk;
    CheckFieldExactly(r.room);
    CheckFieldExactly(r.nonce);
    JoinFour(RequestTag(f), r.room, r.nonce, r.text);
    assert RequestTag(f) + "|" == if f == V4 then "FLOP/REQUEST/v4|" else "FLOP/REQUEST/v3|";
  }

  lemma JoinTwo(a: string, b: string)
    ensures Join([a, b]) == a + "|" + b
  {
    assert [a, b][1..] == [b];
  }

  lemma JoinThree(a: string, b: string, c: string)
    ensures Join([a, b, c]) == a + "|" + b + "|" + c
  {
    hide Join;
    JoinTwo(b, c);
    JoinFirst(a, [b, c]);
    assert [a] + [b, c] == [a, b, c];
  }

  lemma JoinFirst(a: string, rest: seq<string>)
    requires rest != []
    ensures Join([a] + rest) == a + "|" + Join(rest)
  {
    assert ([a] + rest)[1..] == rest;
  }

  lemma JoinFour(a: string, b: string, c: string, d: string)
    ensures Join([a, b, c, d]) == a + "|" + b + "|" + c + "|" + d
  {
    hide Join;
    JoinThree(b, c, d);
    JoinFirst(a, [b, c, d]);
    assert [a] + [b, c, d] == [a, b, c, d];
  }

  lemma JoinFive(a: string, b: string, c: string, d: string, e: string)
    ensures Join([a, b, c, d, e]) == a + "|" + b + "|" + c + "|" + d + "|" + e
  {
    hide Join;
    JoinFour(b, c, d, e);
    JoinFirst(a, [b, c, d, e]);
    assert [a] + [b, c, d, e] == [a, b, c, d, e];
  }

  lemma JoinSix(a: string, b: string, c: string, d: string, e: string, f: string)
    ensures Join([a, b, c, d, e, f]) == a + "|" + b + "|" + c + "|" + d + "|" + e + "|" + f
  {
    hide Join;
    JoinFive(b, c, d, e, f);
    JoinFirst(a, [b, c, d, e, f]);
    assert [a] + [b, c, d, e, f] == [a, b, c, d, e, f];
  }
}
