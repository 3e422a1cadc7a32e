/** Ed25519 signatures as text: base64url (section 5 of RFC 4648) with canonical trailing bits
    (section 3.5 of RFC 4648), unpadded or padded with "==". */
module SignatureText {
  import opened Prelude

  datatype SignatureError = NotBase64Url | NotCanonical

  // ---- the base64url alphabet ----

  predicate InAlphabet(c: char) {
    'A' <= c <= 'Z' || 'a' <= c <= 'z' || '0' <= c <= '9' || c == '-' || c == '_'
  }

  function SixBits(c: char): (v: nat)
    requires InAlphabet(c)
    ensures v < 64
  {
    if 'A' <= c <= 'Z' then c as int - 'A' as int
    else if 'a' <= c <= 'z' then c as int - 'a' as int + 26
    else if '0' <= c <= '9' then c as int - '0' as int + 52
    else if c == '-' then 62 else 63
  }

  function Letter(v: nat): (c: char)
    requires v < 64
    ensures InAlphabet(c) && SixBits(c) == v
  {
    if v < 26 then ('A' as int + v) as char
    else if v < 52 then ('a' as int + (v - 26)) as char
    else if v < 62 then ('0' as int + (v - 52)) as char
    else if v == 62 then '-' else '_'
  }

  lemma LetterOfSixBits(c: char)
    requires InAlphabet(c)
    ensures Letter(SixBits(c)) == c
  {
  }

  predicate AllInAlphabet(s: string) {
    forall i :: 0 <= i < |s| ==> InAlphabet(s[i])
  }

  // ---- regrouping 8-bit bytes and 6-bit letters ----

  /** Three bytes are four letters. */
  function Quad(b: Bytes): (s: string)
    requires |b| == 3
    ensures |s| == 4 && AllInAlphabet(s)
  {
    Letters(b[0] as nat, b[1] as nat, b[2] as nat)
  }

  function Letters(b0: nat, b1: nat, b2: nat): (s: string)
    requires b0 < 256 && b1 < 256 && b2 < 256
    ensures |s| == 4 && AllInAlphabet(s)
  {
    [Letter(b0 / 4), Letter(b0 % 4 * 16 + b1 / 16), Letter(b1 % 16 * 4 + b2 / 64), Letter(b2 % 64)]
  }

  function Unquad(s: string): (b: Bytes)
    requires |s| == 4 && AllInAlphabet(s)
    ensures |b| == 3
  {
    Octets(SixBits(s[0]), SixBits(s[1]), SixBits(s[2]), SixBits(s[3]))
  }

  function Octets(v0: nat, v1: nat, v2: nat, v3: nat): (b: Bytes)
    requires v0 < 64 && v1 < 64 && v2 < 64 && v3 < 64
    ensures |b| == 3
  {
    [(v0 * 4 + v1 / 16) as byte, (v1 % 16 * 16 + v2 / 4) as byte, (v2 % 4 * 64 + v3) as byte]
  }

  /** One or two bytes at the end are two or three letters; none are none. */
  function Tail(b: Bytes): (s: string)
    requires |b| < 3
    ensures |s| == (if |b| == 0 then 0 else |b| + 1) && AllInAlphabet(s)
  {
    if |b| == 0 then []
    else
      var b0 := b[0] as nat;
      if |b| == 1 then [Letter(b0 / 4), Letter(b0 % 4 * 16)]
      else
        var b1 := b[1] as nat;
        [Letter(b0 / 4), Letter(b0 % 4 * 16 + b1 / 16), Letter(b1 % 16 * 4)]
  }

  /** Bits that do not fill a byte are dropped. */
  function Untail(s: string): (b: Bytes)
    requires |s| < 4 && AllInAlphabet(s)
    ensures |b| == (if |s| == 0 then 0 else |s| - 1)
  {
    if |s| < 2 then []
    else
      var v0, v1 := SixBits(s[0]), SixBits(s[1]);
      if |s| == 2 then [(v0 * 4 + v1 / 16) as byte]
      else
        var v2 := SixBits(s[2]);
        [(v0 * 4 + v1 / 16) as byte, (v1 % 16 * 16 + v2 / 4) as byte]
  }

  function Encode(b: Bytes): (s: string)
    ensures AllInAlphabet(s)
    ensures |b| == 64 ==> |s| == 86
    decreases |b|
  {
    EncodedLength(b);
    EncodeAny(b)
  }

  function EncodeAny(b: Bytes): (s: string)
    ensures AllInAlphabet(s)
    decreases |b|
  {
    if |b| < 3 then Tail(b) else Quad(b[..3]) + EncodeAny(b[3..])
  }

  lemma {:induction false} EncodedLength(b: Bytes)
    ensures |EncodeAny(b)| == |b| / 3 * 4 + if |b| % 3 == 0 then 0 else |b| % 3 + 1
    decreases |b|
  {
    hide Quad, Tail;
    if |b| >= 3 {
      EncodedLength(b[3..]);
      assert |b| / 3 == 1 + |b[3..]| / 3 && |b| % 3 == |b[3..]| % 3;
    }
  }

  function LaxDecode(s: string): (b: Bytes)
    requires AllInAlphabet(s)
    decreases |s|
  {
    if |s| < 4 then Untail(s) else Unquad(s[..4]) + LaxDecode(s[4..])
  }

  // ---- the strict decoder ----

  function Decode(s: string): (r: Result<Bytes, SignatureError>)
    ensures r.Ok? ==> |r.value| == 64
  {
    if !(|s| == 86 || (|s| == 88 && s[86..] == "==")) || !AllInAlphabet(s[..86]) then Err(NotBase64Url)
    else
      var raw := LaxDecode(s[..86]);
      if |raw| != 64 || Encode(raw) != s[..86] then Err(NotCanonical) else Ok(raw)
  }

  // ---- proofs ----

  lemma UnquadQuad(b: Bytes)
    requires |b| == 3
    ensures Unquad(Quad(b)) == b
  {
    hide SixBits, Letter, Letters, Octets;
    OctetsRegroup(b[0] as nat, b[1] as nat, b[2] as nat);
    assert b == [b[0], b[1], b[2]];
  }

  lemma OctetsRegroup(b0: nat, b1: nat, b2: nat)
    requires b0 < 256 && b1 < 256 && b2 < 256
    ensures var s := Letters(b0, b1, b2);
            Octets(SixBits(s[0]), SixBits(s[1]), SixBits(s[2]), SixBits(s[3])) == [b0 as byte, b1 as byte, b2 as byte]
  {
    hide SixBits, Letter, Letters, Octets;
    LettersHold(b0, b1, b2);
    OctetsHold(b0, b1, b2);
  }

  lemma LettersHold(b0: nat, b1: nat, b2: nat)
    requires b0 < 256 && b1 < 256 && b2 < 256
    ensures var s := Letters(b0, b1, b2);
            && SixBits(s[0]) == b0 / 4 && SixBits(s[1]) == b0 % 4 * 16 + b1 / 16
            && SixBits(s[2]) == b1 % 16 * 4 + b2 / 64 && SixBits(s[3]) == b2 % 64
  {
    hide SixBits, Letter;
  }

  lemma OctetsHold(b0: nat, b1: nat, b2: nat)
    requires b0 < 256 && b1 < 256 && b2 < 256
    ensures Octets(b0 / 4, b0 % 4 * 16 + b1 / 16, b1 % 16 * 4 + b2 / 64, b2 % 64)
            == [b0 as byte, b1 as byte, b2 as byte]
  {
    EightBitsRegroup(b0, b1, b2);
  }

  lemma EightBitsRegroup(b0: nat, b1: nat, b2: nat)
    requires b0 < 256 && b1 < 256 && b2 < 256
    ensures var v0, v1, v2, v3 := b0 / 4, b0 % 4 * 16 + b1 / 16, b1 % 16 * 4 + b2 / 64, b2 % 64;
            v0 * 4 + v1 / 16 == b0 && v1 % 16 * 16 + v2 / 4 == b1 && v2 % 4 * 64 + v3 == b2
  {
  }

  lemma QuadUnquad(s: string)
    requires |s| == 4 && AllInAlphabet(s)
    ensures Quad(Unquad(s)) == s
  {
    hide SixBits, Letter, Letters, Octets;
    LettersRegroup(SixBits(s[0]), SixBits(s[1]), SixBits(s[2]), SixBits(s[3]));
    LetterOfSixBits(s[0]);
    LetterOfSixBits(s[1]);
    LetterOfSixBits(s[2]);
    LetterOfSixBits(s[3]);
    assert s == [s[0], s[1], s[2], s[3]];
  }

  lemma LettersRegroup(v0: nat, v1: nat, v2: nat, v3: nat)
    requires v0 < 64 && v1 < 64 && v2 < 64 && v3 < 64
    ensures var b0, b1, b2 := v0 * 4 + v1 / 16, v1 % 16 * 16 + v2 / 4, v2 % 4 * 64 + v3;
            && b0 < 256 && b1 < 256 && b2 < 256
            && Octets(v0, v1, v2, v3) == [b0 as byte, b1 as byte, b2 as byte]
            && Letters(b0, b1, b2) == [Letter(v0), Letter(v1), Letter(v2), Letter(v3)]
  {
    hide Letter;
    SixBitsRegroup(v0, v1, v2, v3);
  }

  lemma SixBitsRegroup(v0: nat, v1: nat, v2: nat, v3: nat)
    requires v0 < 64 && v1 < 64 && v2 < 64 && v3 < 64
    ensures var b0, b1, b2 := v0 * 4 + v1 / 16, v1 % 16 * 16 + v2 / 4, v2 % 4 * 64 + v3;
            && b0 < 256 && b1 < 256 && b2 < 256
            && b0 / 4 == v0 && b0 % 4 * 16 + b1 / 16 == v1 && b1 % 16 * 4 + b2 / 64 == v2 && b2 % 64 == v3
  {
  }

  lemma UntailTail(b: Bytes)
    requires |b| < 3
    ensures Untail(Tail(b)) == b
  {
    hide SixBits, Letter;
    if |b| == 1 {
      assert b == [b[0]];
    } else if |b| == 2 {
      assert b == [b[0], b[1]];
    }
  }

  lemma TailUntail(s: string)
    requires |s| == 2 && AllInAlphabet(s)
    ensures Tail(Untail(s)) == s <==> SixBits(s[1]) % 16 == 0
  {
    hide SixBits, Letter;
    var v0, v1 := SixBits(s[0]), SixBits(s[1]);
    var b := Untail(s);
    var b0 := b[0] as nat;
    assert b0 == v0 * 4 + v1 / 16;
    assert b0 / 4 == v0 && b0 % 4 * 16 == v1 / 16 * 16;
    LetterOfSixBits(s[0]);
    LetterOfSixBits(s[1]);
    assert Tail(b) == [s[0], Letter(v1 / 16 * 16)];
    assert s == [s[0], s[1]];
  }

  lemma {:induction false} LaxDecodeEncode(b: Bytes)
    ensures LaxDecode(EncodeAny(b)) == b
    decreases |b|
  {
    hide Quad, Unquad, Tail, Untail, AllInAlphabet;
    if |b| < 3 {
      UntailTail(b);
    } else {
      LaxDecodeEncode(b[3..]);
      UnquadQuad(b[..3]);
      var s := EncodeAny(b);
      assert s[..4] == Quad(b[..3]) && s[4..] == EncodeAny(b[3..]);
      assert b == b[..3] + b[3..];
    }
  }

  /** A text whose last letter holds two bits of a byte and four spare bits re-encodes to itself exactly
      when the spare bits are zero. */
  lemma {:induction false} EncodeLaxDecode(s: string)
    requires AllInAlphabet(s) && |s| % 4 == 2
    ensures |LaxDecode(s)| == |s| / 4 * 3 + 1
    ensures EncodeAny(LaxDecode(s)) == s <==> SixBits(s[|s| - 1]) % 16 == 0
    decreases |s|
  {
    hide Quad, Unquad, Tail, Untail, SixBits;
    if |s| == 2 {
      TailUntail(s);
    } else {
      var head, rest, b := s[..4], s[4..], LaxDecode(s);
      EncodeLaxDecode(rest);
      QuadUnquad(head);
      assert b[..3] == Unquad(head) && b[3..] == LaxDecode(rest);
      assert EncodeAny(b) == head + EncodeAny(LaxDecode(rest));
      assert s == head + rest;
      assert EncodeAny(b)[4..] == EncodeAny(LaxDecode(rest));
    }
  }

  /** Exactly two texts stand for each 64-byte value, and both decode to it. */
  lemma ExactlyTwoTexts(b: Bytes, s: string)
    requires |b| == 64
    ensures Decode(s) == Ok(b) <==> s == Encode(b) || s == Encode(b) + "=="
  {
    hide EncodeAny, LaxDecode;
    LaxDecodeEncode(b);
    var unpadded := Encode(b);
    assert |unpadded| == 86;
    if |s| >= 86 {
      assert s == s[..86] + s[86..];
    }
    assert (unpadded + "==")[..86] == unpadded && (unpadded + "==")[86..] == "==";
    assert unpadded[..86] == unpadded;
  }

  /** Which texts are signatures at all: 86 letters, optionally padded, with four zero trailing bits. */
  lemma AcceptedTexts(s: string)
    ensures Decode(s).Ok? <==>
            && (|s| == 86 || (|s| == 88 && s[86..] == "=="))
            && AllInAlphabet(s[..86]) && SixBits(s[85]) % 16 == 0
  {
    hide EncodeAny, LaxDecode;
    if (|s| == 86 || (|s| == 88 && s[86..] == "==")) && AllInAlphabet(s[..86]) {
      EncodeLaxDecode(s[..86]);
      assert s[..86][85] == s[85];
    }
  }

  // ---- the encoding without the functions above ----

  /** Table 2 of RFC 4648, by ASCII codes: A to Z, a to z, 0 to 9, minus, underscore. */
  lemma LetterExactly(v: nat)
    requires v < 64
    ensures Letter(v) as int == if v < 26 then 65 + v else if v < 52 then 71 + v else if v < 62 then v - 4
                                else if v == 62 then 45 else 95
  {
  }

  /** Groups of three bytes are encoded one after the other. */
  lemma {:induction false} EncodeAppend(a: Bytes, b: Bytes)
    requires |a| % 3 == 0
    ensures EncodeAny(a + b) == EncodeAny(a) + EncodeAny(b)
    decreases |a|
  {
    hide Quad, EncodeAny;
    if a == [] {
      assert a + b == b;
      NothingEncoded();
    } else {
      EncodeAppend(a[3..], b);
      assert (a + b)[..3] == a[..3] && (a + b)[3..] == a[3..] + b;
      EncodeFirst(a);
      EncodeFirst(a + b);
      Associate(Quad(a[..3]), EncodeAny(a[3..]), EncodeAny(b));
    }
  }

  lemma NothingEncoded()
    ensures EncodeAny([]) == []
  {
  }

  lemma EncodeFirst(b: Bytes)
    requires |b| >= 3
    ensures EncodeAny(b) == Quad(b[..3]) + EncodeAny(b[3..])
  {
    hide Quad;
  }

  lemma Associate(a: string, b: string, c: string)
    ensures a + (b + c) == a + b + c
  {
  }

  /** Three bytes and their four letters are the digits, to base 256 and to base 64, of one number. */
  lemma GroupExactly(b: Bytes)
    requires |b| == 3
    ensures var s := EncodeAny(b);
            && |s| == 4
            && b[0] as nat * 0x10000 + b[1] as nat * 0x100 + b[2] as nat
               == SixBits(s[0]) * 0x40000 + SixBits(s[1]) * 0x1000 + SixBits(s[2]) * 0x40 + SixBits(s[3])
  {
    hide Letter, SixBits;
    var b0, b1, b2 := b[0] as nat, b[1] as nat, b[2] as nat;
    assert b[..3] == b && EncodeAny(b[3..]) == [];
    assert EncodeAny(b) == Quad(b);
    LettersHold(b0, b1, b2);
    BaseChange(b0, b1, b2);
  }

  lemma BaseChange(b0: nat, b1: nat, b2: nat)
    requires b0 < 256 && b1 < 256 && b2 < 256
    ensures b0 * 0x10000 + b1 * 0x100 + b2
            == b0 / 4 * 0x40000 + (b0 % 4 * 16 + b1 / 16) * 0x1000 + (b1 % 16 * 4 + b2 / 64) * 0x40 + b2 % 64
  {
  }

  /** A single last byte fills two letters, with four zero bits at the end. */
  lemma LastByteExactly(b: Bytes)
    requires |b| == 1
    ensures |EncodeAny(b)| == 2 && b[0] as nat * 16 == SixBits(EncodeAny(b)[0]) * 64 + SixBits(EncodeAny(b)[1])
  {
    hide Letter, SixBits;
  }
}
