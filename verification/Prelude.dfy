/** Small shared vocabulary: results, bytes, and the sequence facts the proofs lean on. */
module Prelude {

  datatype Option<+T> = None | Some(value: T)

  datatype Result<+T, +E> = Ok(value: T) | Err(error: E) {
    predicate IsFailure() { Err? }
    function PropagateFailure<U>(): Result<U, E> requires Err? { Err(error) }
    function Extract(): T requires Ok? { value }
  }

  newtype byte = i: int | 0 <= i < 256

  type Bytes = seq<byte>

  const HASH_SIZE := 32
  const SIGNATURE_SIZE := 64

  type Digest = b: Bytes | |b| == 32
    witness [0, 0, 0, 0, 0, 0, 0, 0, 0, 0, 0, 0, 0, 0, 0, 0, 0, 0, 0, 0, 0, 0, 0, 0, 0, 0, 0, 0, 0, 0, 0, 0]

  /** A hash function is any total function from byte strings to 32 bytes. */
  type HashFunction = Bytes -> Digest

  const ZERO32: Digest :=
    [0, 0, 0, 0, 0, 0, 0, 0, 0, 0, 0, 0, 0, 0, 0, 0, 0, 0, 0, 0, 0, 0, 0, 0, 0, 0, 0, 0, 0, 0, 0, 0]

  /** No two different members of `preimages` have the same digest. */
  ghost predicate CollisionFree(h: HashFunction, preimages: set<Bytes>) {
    forall a, b :: !CollisionAmong(h, preimages, a, b)
  }

  /** Two concrete byte strings, both among `preimages`, that collide. Membership is what makes this
      say something: with no bound on where the strings come from, some pair always collides. */
  ghost predicate CollisionAmong(h: HashFunction, preimages: set<Bytes>, a: Bytes, b: Bytes) {
    a in preimages && b in preimages && a != b && h(a) == h(b)
  }

  lemma CollisionFreeSubset(h: HashFunction, small: set<Bytes>, large: set<Bytes>)
    requires CollisionFree(h, large) && small <= large
    ensures CollisionFree(h, small)
  {
    forall a, b
      ensures !CollisionAmong(h, small, a, b)
    {
      assert !CollisionAmong(h, large, a, b);
    }
  }

  /** The way a collision-free set is used: equal digests have equal preimages. */
  lemma SamePreimage(h: HashFunction, preimages: set<Bytes>, a: Bytes, b: Bytes)
    requires CollisionFree(h, preimages) && a in preimages && b in preimages && h(a) == h(b)
    ensures a == b
  {
    assert !CollisionAmong(h, preimages, a, b);
  }

  lemma PickCollision(h: HashFunction, preimages: set<Bytes>) returns (a: Bytes, b: Bytes)
    requires !CollisionFree(h, preimages)
    ensures CollisionAmong(h, preimages, a, b)
  {
    a, b :| CollisionAmong(h, preimages, a, b);
  }

  lemma ConcatSplit<T>(a: seq<T>, b: seq<T>, c: seq<T>, d: seq<T>)
    requires a + b == c + d
    requires |a| == |c|
    ensures a == c && b == d
  {
    assert a == (a + b)[..|a|] == (c + d)[..|c|] == c;
    assert b == (a + b)[|a|..] == (c + d)[|c|..] == d;
  }

  // ---- fixed-width little-endian integers ----

  const U8_MAX := 0xFF
  const U32_MAX := 0xFFFF_FFFF
  const U64_MAX := 0xFFFF_FFFF_FFFF_FFFF
  const U128_MAX := 0xFFFF_FFFF_FFFF_FFFF_FFFF_FFFF_FFFF_FFFF

  function Pow256(size: nat): (p: nat)
    ensures p > 0
  {
    if size == 0 then 1 else 256 * Pow256(size - 1)
  }

  function LittleEndian(n: nat, size: nat): (b: Bytes)
    ensures |b| == size
  {
    if size == 0 then [] else [(n % 256) as byte] + LittleEndian(n / 256, size - 1)
  }

  function FromLittleEndian(b: Bytes): (n: nat)
    ensures n < Pow256(|b|)
  {
    if b == [] then 0 else b[0] as nat + 256 * FromLittleEndian(b[1..])
  }

  lemma {:induction false} DecodeEncode(n: nat, size: nat)
    requires n < Pow256(size)
    ensures FromLittleEndian(LittleEndian(n, size)) == n
  {
    if size > 0 {
      DecodeEncode(n / 256, size - 1);
      assert LittleEndian(n, size)[1..] == LittleEndian(n / 256, size - 1);
    }
  }

  lemma {:induction false} EncodeDecode(b: Bytes)
    ensures LittleEndian(FromLittleEndian(b), |b|) == b
  {
    if b != [] {
      var rest := FromLittleEndian(b[1..]);
      EncodeDecode(b[1..]);
      assert (b[0] as nat + 256 * rest) % 256 == b[0] as nat && (b[0] as nat + 256 * rest) / 256 == rest;
      assert b == [b[0]] + b[1..];
    }
  }

  /** The order of the bytes: a byte added at the end counts for the highest power. */
  lemma {:induction false} LastByteIsHighest(b: Bytes, x: byte)
    ensures FromLittleEndian(b + [x]) == FromLittleEndian(b) + x as nat * Pow256(|b|)
  {
    if b == [] {
      assert [x][1..] == [];
    } else {
      LastByteIsHighest(b[1..], x);
      assert (b + [x])[1..] == b[1..] + [x];
      assert 256 * (x as nat * Pow256(|b| - 1)) == x as nat * (256 * Pow256(|b| - 1));
    }
  }

  lemma OneByte(n: nat)
    requires n < 256
    ensures LittleEndian(n, 1) == [n as byte]
  {
    assert LittleEndian(n / 256, 0) == [];
  }

  lemma LittleEndianInjective(a: nat, b: nat, size: nat)
    requires a < Pow256(size) && b < Pow256(size)
    requires LittleEndian(a, size) == LittleEndian(b, size)
    ensures a == b
  {
    DecodeEncode(a, size);
    DecodeEncode(b, size);
  }

  lemma WidthsFit()
    ensures Pow256(1) == U8_MAX + 1
    ensures Pow256(4) == U32_MAX + 1
    ensures Pow256(8) == U64_MAX + 1
    ensures Pow256(16) == U128_MAX + 1
  {
    assert Pow256(2) == 0x1_0000;
    assert Pow256(3) == 0x100_0000;
    assert Pow256(4) == 0x1_0000_0000;
    assert Pow256(6) == 0x1_0000_0000_0000;
    assert Pow256(8) == 0x1_0000_0000_0000_0000;
    assert Pow256(10) == 0x1_0000_0000_0000_0000_0000;
    assert Pow256(12) == 0x1_0000_0000_0000_0000_0000_0000;
    assert Pow256(14) == 0x1_0000_0000_0000_0000_0000_0000_0000;
  }
}
