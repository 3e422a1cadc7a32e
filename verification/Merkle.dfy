/** The compute-channel Merkle tree: root by repeated pairing with the last node of an odd level
    duplicated, and path checking with the side of each sibling read off the bits of the index. */
module Merkle {
  import opened Prelude

  const MAX_PATH := 64

  datatype Error = LeafLength

  // ---- the tree as a function of its leaves ----

  predicate AllDigests(leaves: seq<Bytes>) {
    forall i :: 0 <= i < |leaves| ==> |leaves[i]| == 32
  }

  /** A level is a nonempty list of digests. */
  type Level = s: seq<Bytes> | s != [] && AllDigests(s) witness [ZERO32]

  /** Node `i` of a level once an odd level has its last node repeated. */
  function At(level: Level, i: nat): (node: Bytes)
    ensures |node| == 32
  {
    if i < |level| then level[i] else level[|level| - 1]
  }

  /** The 64-byte preimage of a node. */
  function TwoHashes(left: Bytes, right: Bytes): Bytes {
    left + right
  }

  function Pair(level: Level, i: nat): (pair: Bytes)
    ensures |pair| == 64
  {
    TwoHashes(At(level, 2 * i), At(level, 2 * i + 1))
  }

  function Node(h: HashFunction, pair: Bytes): (d: Bytes)
    ensures |d| == 32 && d == h(pair)
  {
    h(pair)
  }

  function NextLevel(h: HashFunction, level: Level): (next: Level)
    ensures |next| == (|level| + 1) / 2
    ensures forall i :: 0 <= i < |next| ==> next[i] == h(Pair(level, i))
  {
    seq((|level| + 1) / 2, i requires 0 <= i < (|level| + 1) / 2 => Node(h, Pair(level, i)))
  }

  function Root(h: HashFunction, level: Level): Digest
    decreases |level|
  {
    if |level| == 1 then level[0] else Root(h, NextLevel(h, level))
  }

  /** The number of levels above the leaves. */
  function Depth(count: nat): nat
    requires count > 0
  {
    if count == 1 then 0 else 1 + Depth((count + 1) / 2)
  }

  function RootOf(h: HashFunction, leaves: seq<Bytes>): Result<Digest, Error> {
    if !AllDigests(leaves) then Err(LeafLength)
    else if leaves == [] then Ok(ZERO32)
    else Ok(Root(h, leaves))
  }

  method ComputeMerkleRoot(h: HashFunction, leaves: seq<Bytes>) returns (root: Result<Digest, Error>)
    ensures root == RootOf(h, leaves)
  {
    if exists i :: 0 <= i < |leaves| && |leaves[i]| != 32 {
      return Err(LeafLength);
    }
    if leaves == [] {
      return Ok(ZERO32);
    }
    var level: seq<Bytes> := leaves;
    while |level| > 1
      invariant level != [] && AllDigests(level)
      invariant Root(h, level) == Root(h, leaves)
    {
      ghost var before := level;
      if |level| % 2 == 1 {
        level := level + [level[|level| - 1]];
      }
      assert forall i :: 0 <= i < |level| ==> level[i] == At(before, i);
      level := seq(|level| / 2, i requires 0 <= i < |level| / 2 => h(TwoHashes(level[2 * i], level[2 * i + 1])));
      assert level == NextLevel(h, before);
    }
    return Ok(level[0]);
  }

  // ---- paths ----

  type Path = seq<(Bytes, bool)>

  function Pow2(k: nat): (p: nat)
    ensures p > 0
  {
    if k == 0 then 1 else 2 * Pow2(k - 1)
  }

  function Join(current: Bytes, sibling: Bytes, siblingIsLeft: bool): (pair: Bytes)
    ensures |pair| == |current| + |sibling|
  {
    if siblingIsLeft then TwoHashes(sibling, current) else TwoHashes(current, sibling)
  }

  /** Where `path` leads from `current`, or None if an item is malformed or on the wrong side. */
  function Climb(h: HashFunction, current: Bytes, index: nat, path: Path): Option<Bytes>
    decreases |path|
  {
    if path == [] then Some(current)
    else if |path[0].0| != 32 || path[0].1 != (index % 2 == 1) then None
    else Climb(h, h(Join(current, path[0].0, path[0].1)), index / 2, path[1..])
  }

  predicate Accepts(h: HashFunction, leaf: Bytes, index: int, path: Path, root: Bytes) {
    && |leaf| == 32 && |root| == 32
    && 0 <= index <= U32_MAX
    && |path| <= MAX_PATH
    && Climb(h, leaf, index, path) == Some(root)
  }

  function ShiftRight(n: nat, k: nat): nat {
    if k == 0 then n else ShiftRight(n, k - 1) / 2
  }

  method VerifyMerklePath(h: HashFunction, leaf: Bytes, turnIndex: int, path: Path, root: Bytes)
    returns (ok: bool)
    ensures ok == Accepts(h, leaf, turnIndex, path, root)
  {
    if |leaf| != 32 || |root| != 32 {
      return false;
    }
    if !(0 <= turnIndex <= U32_MAX) {
      return false;
    }
    if |path| > MAX_PATH {
      return false;
    }
    var current: Bytes := leaf;
    var level := 0;
    while level < |path|
      invariant 0 <= level <= |path| && |current| == 32
      invariant Climb(h, leaf, turnIndex, path) == Climb(h, current, ShiftRight(turnIndex, level), path[level..])
    {
      var (sibling, siblingIsLeft) := path[level];
      assert path[level..][0] == path[level];
      if |sibling| != 32 {
        return false;
      }
      var expectedSiblingIsLeft := (ShiftRight(turnIndex, level)) % 2 == 1;
      if siblingIsLeft != expectedSiblingIsLeft {
        return false;
      }
      assert path[level..][1..] == path[level + 1..];
      if siblingIsLeft {
        current := h(TwoHashes(sibling, current));
      } else {
        current := h(TwoHashes(current, sibling));
      }
      level := level + 1;
    }
    return current == root;
  }

  // ---- what gets hashed ----

  ghost function PairsOf(level: Level): set<Bytes>
  {
    set i | 0 <= i < (|level| + 1) / 2 :: Pair(level, i)
  }

  ghost function TreePreimages(h: HashFunction, level: Level): set<Bytes>
    decreases |level|
  {
    if |level| == 1 then {} else PairsOf(level) + TreePreimages(h, NextLevel(h, level))
  }

  ghost function ClimbPreimages(h: HashFunction, current: Bytes, path: Path): set<Bytes>
    decreases |path|
  {
    if path == [] || |path[0].0| != 32 then {}
    else
      var pair := Join(current, path[0].0, path[0].1);
      {pair} + ClimbPreimages(h, h(pair), path[1..])
  }

  // ---- completeness ----

  /** The leaf a full-length path with this index ends at: positions that exist only as duplicates
      fall back to the node they duplicate, level by level. */
  function LeafPosition(index: nat, count: nat): (p: nat)
    requires count > 0
    ensures p < count
    decreases count
  {
    if count == 1 then 0
    else
      var p := 2 * LeafPosition(index / 2, (count + 1) / 2) + index % 2;
      if p < count then p else count - 1
  }

  lemma LeafPositionStep(level: Level, index: nat, c: nat, odd: bool)
    requires |level| > 1 && c == LeafPosition(index / 2, (|level| + 1) / 2) && odd == (index % 2 == 1)
    ensures level[LeafPosition(index, |level|)] == At(level, 2 * c + if odd then 1 else 0)
  {
  }

  lemma {:induction false} LeafPositionInRange(index: nat, count: nat)
    requires index < count
    ensures LeafPosition(index, count) == index
    decreases count
  {
    if count > 1 {
      LeafPositionInRange(index / 2, (count + 1) / 2);
    }
  }

  /** The sibling path an index leads along, read off the padded levels. For a leaf's own index the sibling is
      the node next to it; any other index leads to LeafPosition(index, |level|). */
  function PathFor(h: HashFunction, level: Level, index: nat): (path: Path)
    ensures |path| == Depth(|level|)
    decreases |level|
  {
    if |level| == 1 then []
    else
      var c := LeafPosition(index / 2, (|level| + 1) / 2);
      [(Sibling(level, c, index % 2 == 1), index % 2 == 1)] + PathFor(h, NextLevel(h, level), index / 2)
  }

  /** The other half of pair `c`, seen from its right or left half. */
  function Sibling(level: Level, c: nat, right: bool): (node: Bytes)
    ensures |node| == 32
  {
    At(level, if right then 2 * c else 2 * c + 1)
  }

  lemma PathForUnfold(h: HashFunction, level: Level, index: nat)
    requires |level| > 1
    ensures var c, path := LeafPosition(index / 2, (|level| + 1) / 2), PathFor(h, level, index);
            && path != [] && path[0] == (Sibling(level, c, index % 2 == 1), index % 2 == 1)
            && path[1..] == PathFor(h, NextLevel(h, level), index / 2)
  {
    hide Sibling, NextLevel, LeafPosition, Depth;
  }

  /** In range, the sibling is the other half of the leaf's own pair. */
  lemma PathForNeighbour(h: HashFunction, level: Level, index: nat)
    requires index < |level| && |level| > 1
    ensures PathFor(h, level, index) != []
    ensures PathFor(h, level, index)[0].0 == At(level, if index % 2 == 1 then index - 1 else index + 1)
  {
    hide PathFor, At, LeafPosition, Depth;
    PathForUnfold(h, level, index);
    var c := index / 2;
    assert index == 2 * c + index % 2;
    LeafPositionInRange(c, (|level| + 1) / 2);
  }

  lemma {:induction false} PathForClimbs(h: HashFunction, level: Level, index: nat)
    ensures Climb(h, level[LeafPosition(index, |level|)], index, PathFor(h, level, index)) == Some(Root(h, level))
    ensures index < |level| ==> LeafPosition(index, |level|) == index
    ensures ClimbPreimages(h, level[LeafPosition(index, |level|)], PathFor(h, level, index)) <= TreePreimages(h, level)
    decreases |level|
  {
    if index < |level| {
      LeafPositionInRange(index, |level|);
    }
    if |level| > 1 {
      var c := LeafPosition(index / 2, (|level| + 1) / 2);
      PathForClimbs(h, NextLevel(h, level), index / 2);
      PathForStep(h, level, index, c);
      assert Pair(level, c) in PairsOf(level);
    }
  }

  /** The first step of the path hashes the pair above the leaf. */
  lemma PathForStep(h: HashFunction, level: Level, index: nat, c: nat)
    requires |level| > 1 && c == LeafPosition(index / 2, (|level| + 1) / 2)
    ensures var leaf, path, next := level[LeafPosition(index, |level|)], PathFor(h, level, index), NextLevel(h, level);
            && path != [] && path[1..] == PathFor(h, next, index / 2) && |path[0].0| == 32
            && Join(leaf, path[0].0, path[0].1) == Pair(level, c)
            && Climb(h, leaf, index, path) == Climb(h, next[c], index / 2, path[1..])
            && ClimbPreimages(h, leaf, path) == {Pair(level, c)} + ClimbPreimages(h, next[c], path[1..])
  {
    hide PathFor, At, NextLevel, LeafPosition, Depth, Root;
    PathForUnfold(h, level, index);
    LeafPositionStep(level, index, c, index % 2 == 1);
  }

  lemma {:induction false} DepthBound(count: nat, k: nat)
    requires 0 < count <= Pow2(k)
    ensures Depth(count) <= k
  {
    if count > 1 {
      DepthBound((count + 1) / 2, k - 1);
    }
  }

  /** Every leaf of a list that a 64-step path can reach has an accepted path. */
  lemma MerkleCompleteness(h: HashFunction, leaves: Level, index: nat)
    requires index < |leaves| && index <= U32_MAX
    requires Depth(|leaves|) <= MAX_PATH
    ensures RootOf(h, leaves).Ok?
    ensures Accepts(h, leaves[index], index, PathFor(h, leaves, index), RootOf(h, leaves).value)
  {
    PathForClimbs(h, leaves, index);
    LeafPositionInRange(index, |leaves|);
  }

  // ---- binding ----

  lemma {:induction false} SameLengthBindingCore(h: HashFunction, a: Level, b: Level)
    requires |a| == |b|
    requires Root(h, a) == Root(h, b)
    requires CollisionFree(h, TreePreimages(h, a) + TreePreimages(h, b))
    ensures a == b
    decreases |a|
  {
    if |a| == 1 {
    } else {
      var x, y := NextLevel(h, a), NextLevel(h, b);
      var all := TreePreimages(h, a) + TreePreimages(h, b);
      CollisionFreeSubset(h, TreePreimages(h, x) + TreePreimages(h, y), all);
      SameLengthBindingCore(h, x, y);
      forall i | 0 <= i < |a|
        ensures a[i] == b[i]
      {
        var c := i / 2;
        assert i == 2 * c || i == 2 * c + 1;
        assert x[c] == h(Pair(a, c)) && y[c] == h(Pair(b, c));
        assert Pair(a, c) in PairsOf(a) && Pair(b, c) in PairsOf(b);
        SamePreimage(h, all, Pair(a, c), Pair(b, c));
        ConcatSplit(At(a, 2 * c), At(a, 2 * c + 1), At(b, 2 * c), At(b, 2 * c + 1));
      }
    }
  }

  /** Two lists of the same length with the same root are equal, or building the two trees hashed
      two different strings to the same digest. */
  lemma SameLengthBinding(h: HashFunction, a: Level, b: Level) returns (x: Bytes, y: Bytes)
    requires |a| == |b|
    requires Root(h, a) == Root(h, b)
    ensures a == b || CollisionAmong(h, TreePreimages(h, a) + TreePreimages(h, b), x, y)
  {
    x, y := [], [];
    if CollisionFree(h, TreePreimages(h, a) + TreePreimages(h, b)) {
      SameLengthBindingCore(h, a, b);
    } else {
      x, y := PickCollision(h, TreePreimages(h, a) + TreePreimages(h, b));
    }
  }

  lemma SamePairs(h: HashFunction, leaves: Level, longer: Level, k: nat)
    requires |leaves| == 2 * k + 1 && longer == leaves + [leaves[2 * k]]
    ensures NextLevel(h, longer) == NextLevel(h, leaves)
  {
    var x, y := NextLevel(h, longer), NextLevel(h, leaves);
    assert |x| == |y| == k + 1;
    forall i | 0 <= i <= k
      ensures x[i] == y[i]
    {
      assert At(longer, 2 * i) == At(leaves, 2 * i);
      assert At(longer, 2 * i + 1) == At(leaves, 2 * i + 1);
    }
  }

  /** Equal length is needed: duplicating the last leaf of an odd list does not change the root. */
  lemma OddListSharesItsRoot(h: HashFunction, leaves: Level)
    requires |leaves| > 1 && |leaves| % 2 == 1
    ensures Root(h, leaves + [leaves[|leaves| - 1]]) == Root(h, leaves)
  {
    var longer := leaves + [leaves[|leaves| - 1]];
    SamePairs(h, leaves, longer, |leaves| / 2);
  }

  // ---- soundness: what an accepted path says about the committed list ----

  /** If the parent of `current` is the node above pair `c`, then `current` is the half of that pair
      its side says. */
  lemma ChildFromParent(h: HashFunction, level: Level, current: Bytes, sibling: Bytes, siblingIsLeft: bool, c: nat,
                        all: set<Bytes>)
    requires |current| == 32 && |sibling| == 32 && c < (|level| + 1) / 2
    requires h(Join(current, sibling, siblingIsLeft)) == h(Pair(level, c))
    requires CollisionFree(h, all) && Join(current, sibling, siblingIsLeft) in all && Pair(level, c) in all
    ensures current == At(level, 2 * c + if siblingIsLeft then 1 else 0)
  {
    SamePreimage(h, all, Join(current, sibling, siblingIsLeft), Pair(level, c));
    if siblingIsLeft {
      ConcatSplit(sibling, current, At(level, 2 * c), At(level, 2 * c + 1));
    } else {
      ConcatSplit(current, sibling, At(level, 2 * c), At(level, 2 * c + 1));
    }
  }

  lemma {:induction false} FullPathMember(h: HashFunction, level: Level, current: Bytes, index: nat, path: Path,
                                          all: set<Bytes>)
    requires |path| == Depth(|level|)
    requires |current| == 32 && Climb(h, current, index, path) == Some(Root(h, level))
    requires CollisionFree(h, all) && TreePreimages(h, level) <= all && ClimbPreimages(h, current, path) <= all
    ensures current == level[LeafPosition(index, |level|)]
    decreases |level|
  {
    if |level| == 1 {
      assert path == [];
    } else {
      var next := NextLevel(h, level);
      var (sibling, siblingIsLeft) := path[0];
      var pair := Join(current, sibling, siblingIsLeft);
      assert Climb(h, current, index, path) == Climb(h, h(pair), index / 2, path[1..]);
      FullPathMember(h, next, h(pair), index / 2, path[1..], all);
      var c := LeafPosition(index / 2, |next|);
      assert Pair(level, c) in PairsOf(level);
      ChildFromParent(h, level, current, sibling, siblingIsLeft, c, all);
      LeafPositionStep(level, index, c, siblingIsLeft);
    }
  }

  /** The digests at `level` and everywhere above it. */
  ghost function Nodes(h: HashFunction, level: Level): set<Bytes>
    decreases |level|
  {
    (set i | 0 <= i < |level| :: level[i]) + if |level| == 1 then {} else Nodes(h, NextLevel(h, level))
  }

  lemma {:induction false} RootIsANode(h: HashFunction, level: Level)
    ensures Root(h, level) in Nodes(h, level)
    decreases |level|
  {
    if |level| > 1 {
      RootIsANode(h, NextLevel(h, level));
    } else {
      assert level[0] in Nodes(h, level);
    }
  }

  /** An interior node is the hash of a 64-byte pair of nodes below it. */
  lemma {:induction false} InteriorNodePreimage(h: HashFunction, level: Level, node: Bytes)
    returns (left: Bytes, right: Bytes)
    requires |level| > 1 && node in Nodes(h, NextLevel(h, level))
    ensures |left| == 32 && |right| == 32
    ensures TwoHashes(left, right) in TreePreimages(h, level) && h(TwoHashes(left, right)) == node
    ensures left in Nodes(h, level) && right in Nodes(h, level)
    decreases |level|
  {
    var next := NextLevel(h, level);
    if i :| 0 <= i < |next| && next[i] == node {
      left, right := At(level, 2 * i), At(level, 2 * i + 1);
      assert Pair(level, i) in PairsOf(level);
      assert forall k :: 0 <= k < |level| ==> level[k] in Nodes(h, level);
    } else {
      left, right := InteriorNodePreimage(h, next, node);
    }
  }

  lemma {:induction false} ShortPathReachesInterior(h: HashFunction, level: Level, current: Bytes, index: nat,
      path: Path,
                                          all: set<Bytes>)
    requires |path| < Depth(|level|)
    requires |current| == 32 && Climb(h, current, index, path) == Some(Root(h, level))
    requires CollisionFree(h, all) && TreePreimages(h, level) <= all && ClimbPreimages(h, current, path) <= all
    ensures current in Nodes(h, NextLevel(h, level))
    decreases |level|
  {
    var next := NextLevel(h, level);
    if path == [] {
      RootIsANode(h, next);
    } else {
      var (sibling, siblingIsLeft) := path[0];
      var pair := Join(current, sibling, siblingIsLeft);
      assert Climb(h, current, index, path) == Climb(h, h(pair), index / 2, path[1..]);
      ShortPathReachesInterior(h, next, h(pair), index / 2, path[1..], all);
      var left, right := InteriorNodePreimage(h, next, h(pair));
      SamePreimage(h, all, pair, TwoHashes(left, right));
      if siblingIsLeft {
        ConcatSplit(sibling, current, left, right);
      } else {
        ConcatSplit(current, sibling, left, right);
      }
    }
  }

  lemma {:induction false} LongPathHashesALeaf(h: HashFunction, level: Level, current: Bytes, index: nat, path: Path,
                                          all: set<Bytes>)
    returns (pair: Bytes)
    requires |path| > Depth(|level|)
    requires |current| == 32 && Climb(h, current, index, path) == Some(Root(h, level))
    requires CollisionFree(h, all) && TreePreimages(h, level) <= all && ClimbPreimages(h, current, path) <= all
    ensures |pair| == 64 && pair in ClimbPreimages(h, current, path) && h(pair) in level
    decreases |path|
  {
    pair := Join(current, path[0].0, path[0].1);
    if |path| == Depth(|level|) + 1 {
      FullPathMember(h, level, h(pair), index / 2, path[1..], all);
    } else {
      pair := LongPathHashesALeaf(h, level, h(pair), index / 2, path[1..], all);
    }
  }

  /** No leaf preimage could be a node's. */
  ghost predicate NeverNodes(preimages: seq<Bytes>) {
    forall i :: 0 <= i < |preimages| ==> |preimages[i]| != 64
  }

  /** Leaves hash strings that are never 64 bytes long, so no path length other than the depth of the
      tree can be accepted, and an accepted leaf is the committed one at its position. */
  lemma AcceptedLeafIsCommitted(h: HashFunction, preimages: seq<Bytes>, leafPreimage: Bytes, index: nat, path: Path,
                                all: set<Bytes>)
    requires preimages != [] && NeverNodes(preimages) && |leafPreimage| != 64
    requires CollisionFree(h, all) && MembershipPreimages(h, preimages, leafPreimage, path) <= all
    requires Climb(h, h(leafPreimage), index, path) == Some(Root(h, HashAll(h, preimages)))
    ensures |path| == Depth(|preimages|)
    ensures leafPreimage == preimages[LeafPosition(index, |preimages|)]
    ensures index < |preimages| ==> leafPreimage == preimages[index]
  {
    var leaves := HashAll(h, preimages);
    var leaf := h(leafPreimage);
    var hashed := MembershipPreimages(h, preimages, leafPreimage, path);
    assert leafPreimage in hashed;
    assert forall i :: 0 <= i < |preimages| ==> preimages[i] in hashed;
    assert TreePreimages(h, leaves) <= hashed && ClimbPreimages(h, leaf, path) <= hashed;
    if |path| < Depth(|leaves|) {
      ShortPathReachesInterior(h, leaves, leaf, index, path, all);
      var left, right := InteriorNodePreimage(h, leaves, leaf);
      SamePreimage(h, all, TwoHashes(left, right), leafPreimage);
      assert false;
    } else if |path| > Depth(|leaves|) {
      var pair := LongPathHashesALeaf(h, leaves, leaf, index, path, all);
      var i :| 0 <= i < |leaves| && leaves[i] == h(pair);
      SamePreimage(h, all, preimages[i], pair);
      assert false;
    } else {
      FullPathMember(h, leaves, leaf, index, path, all);
      SamePreimage(h, all, leafPreimage, preimages[LeafPosition(index, |preimages|)]);
      if index < |preimages| {
        LeafPositionInRange(index, |preimages|);
      }
    }
  }

  function HashAll(h: HashFunction, preimages: seq<Bytes>): (d: seq<Bytes>)
    ensures |d| == |preimages| && AllDigests(d) && forall i :: 0 <= i < |d| ==> d[i] == h(preimages[i])
  {
    seq(|preimages|, i requires 0 <= i < |preimages| => h(preimages[i]))
  }

  /** Every string hashed when building the committed tree and when checking one path. */
  ghost function MembershipPreimages(h: HashFunction, preimages: seq<Bytes>, leafPreimage: Bytes,
      path: Path): set<Bytes>
    requires preimages != []
  {
    (set i | 0 <= i < |preimages| :: preimages[i])
    + TreePreimages(h, HashAll(h, preimages))
    + {leafPreimage}
    + ClimbPreimages(h, h(leafPreimage), path)
  }

  lemma OddDepth(n: nat, k: nat)
    requires n == 2 * k + 1 && k > 0
    ensures Depth(n) == Depth(n + 1)
  {
    assert (n + 1) / 2 == k + 1;
    assert (n + 2) / 2 == k + 1;
  }

  // ---- an index is not an identity ----

  /** The lowest `bits` bits agree. */
  predicate SameLowBits(i: nat, j: nat, bits: nat)
    decreases bits
  {
    bits == 0 || (i % 2 == j % 2 && SameLowBits(i / 2, j / 2, bits - 1))
  }

  lemma {:induction false} LowBitsAreRemainders(i: nat, j: nat, bits: nat)
    ensures SameLowBits(i, j, bits) <==> i % Pow2(bits) == j % Pow2(bits)
  {
    if bits > 0 {
      LowBitsAreRemainders(i / 2, j / 2, bits - 1);
      HalvedRemainder(i, Pow2(bits - 1));
      HalvedRemainder(j, Pow2(bits - 1));
    }
  }

  lemma HalvedRemainder(i: nat, m: nat)
    requires m > 0
    ensures i % (2 * m) == 2 * (i / 2 % m) + i % 2
  {
    var half, q := i / 2, i / 2 / m;
    assert half == q * m + half % m;
    assert i == q * (2 * m) + (2 * (half % m) + i % 2) by {
      assert q * (2 * m) == 2 * (q * m);
    }
    RemainderIs(i, 2 * m, q, 2 * (half % m) + i % 2);
  }

  lemma RemainderIs(i: nat, m: nat, q: nat, r: nat)
    requires i == q * m + r && r < m
    ensures i % m == r
  {
    var d := i / m;
    assert i == d * m + i % m;
    MultiplesApart(d, q, m);
    MultiplesApart(q, d, m);
  }

  lemma MultiplesApart(a: nat, b: nat, m: nat)
    ensures a < b ==> a * m + m <= b * m
  {
    if a < b {
      var d := b - a - 1;
      assert (a + 1 + d) * m == a * m + m + d * m;
    }
  }

  lemma {:induction false} ClimbReadsLowBits(h: HashFunction, current: Bytes, i: nat, j: nat, path: Path)
    requires Climb(h, current, i, path).Some?
    ensures Climb(h, current, j, path) == Climb(h, current, i, path) <==> SameLowBits(i, j, |path|)
    decreases |path|
  {
    if path != [] && i % 2 == j % 2 {
      ClimbReadsLowBits(h, h(Join(current, path[0].0, path[0].1)), i / 2, j / 2, path[1..]);
    }
  }

  /** A path accepted at one index is accepted, for the same leaf, at exactly the indices with the same remainder
      modulo 2 to the length of the path. */
  lemma SamePathOtherIndices(h: HashFunction, leaf: Bytes, i: int, j: int, path: Path, root: Bytes)
    requires Accepts(h, leaf, i, path, root)
    ensures Accepts(h, leaf, j, path, root) <==> 0 <= j <= U32_MAX && i % Pow2(|path|) == j % Pow2(|path|)
  {
    if 0 <= j <= U32_MAX {
      ClimbReadsLowBits(h, leaf, i, j, path);
      LowBitsAreRemainders(i, j, |path|);
    }
  }

  /** Everything hashed while the tree was committed. */
  ghost function CommittedPreimages(h: HashFunction, preimages: seq<Bytes>): set<Bytes>
    requires preimages != []
  {
    (set i | 0 <= i < |preimages| :: preimages[i]) + TreePreimages(h, HashAll(h, preimages))
  }

  /** A leaf accepted at an index, along some path that shows no collision with the committed tree. */
  ghost predicate Admits(h: HashFunction, preimages: seq<Bytes>, leafPreimage: Bytes, index: nat)
    requires preimages != []
  {
    exists path :: AdmittedBy(h, preimages, leafPreimage, index, path)
  }

  ghost predicate AdmittedBy(h: HashFunction, preimages: seq<Bytes>, leafPreimage: Bytes, index: nat, path: Path)
    requires preimages != []
  {
    && Accepts(h, h(leafPreimage), index, path, Root(h, HashAll(h, preimages)))
    && CollisionFree(h, MembershipPreimages(h, preimages, leafPreimage, path))
  }

  /** What an index admits, exactly: the leaf at LeafPosition(index, n) and nothing else. */
  lemma AdmittedExactly(h: HashFunction, preimages: seq<Bytes>, leafPreimage: Bytes, index: nat)
    requires preimages != [] && NeverNodes(preimages) && |leafPreimage| != 64
    requires index <= U32_MAX && Depth(|preimages|) <= MAX_PATH
    requires CollisionFree(h, CommittedPreimages(h, preimages))
    ensures Admits(h, preimages, leafPreimage, index) <==> leafPreimage == preimages[LeafPosition(index, |preimages|)]
  {
    hide Root, HashAll, TreePreimages, CollisionFree, Climb, LeafPosition, PathFor, Depth, ClimbPreimages;
    var position := LeafPosition(index, |preimages|);
    if Admits(h, preimages, leafPreimage, index) {
      var path :| AdmittedBy(h, preimages, leafPreimage, index, path);
      AcceptedLeafIsCommitted(h, preimages, leafPreimage, index, path, MembershipPreimages(h, preimages, leafPreimage,
        path));
    }
    if leafPreimage == preimages[position] {
      var path := PathFor(h, HashAll(h, preimages), index);
      PathForClimbs(h, HashAll(h, preimages), index);
      assert MembershipPreimages(h, preimages, leafPreimage, path) == CommittedPreimages(h, preimages);
      assert AdmittedBy(h, preimages, leafPreimage, index, path);
    }
  }

  /** Two indices admit a common leaf exactly when they lead to the same position. */
  lemma CommonLeafExactly(h: HashFunction, preimages: seq<Bytes>, i: nat, j: nat)
    requires preimages != [] && NeverNodes(preimages) && i <= U32_MAX && j <= U32_MAX
    requires Depth(|preimages|) <= MAX_PATH && CollisionFree(h, CommittedPreimages(h, preimages))
    requires forall a, b :: 0 <= a < b < |preimages| ==> preimages[a] != preimages[b]
    ensures (exists x :: |x| != 64 && Admits(h, preimages, x, i) && Admits(h, preimages, x, j))
            <==> LeafPosition(i, |preimages|) == LeafPosition(j, |preimages|)
  {
    hide Admits, CollisionFree, CommittedPreimages;
    var n := |preimages|;
    forall x | |x| != 64
      ensures Admits(h, preimages, x, i) <==> x == preimages[LeafPosition(i, n)]
      ensures Admits(h, preimages, x, j) <==> x == preimages[LeafPosition(j, n)]
    {
      AdmittedExactly(h, preimages, x, i);
      AdmittedExactly(h, preimages, x, j);
    }
    var x := preimages[LeafPosition(i, n)];
    assert |x| != 64 && Admits(h, preimages, x, i);
  }

  /** Indices that agree modulo 2 to the depth lead to the same position. */
  lemma {:induction false} PositionReadsLowBits(i: nat, j: nat, count: nat)
    requires count > 0 && SameLowBits(i, j, Depth(count))
    ensures LeafPosition(i, count) == LeafPosition(j, count)
    decreases count
  {
    if count > 1 {
      PositionReadsLowBits(i / 2, j / 2, (count + 1) / 2);
    }
  }

  /** Two leaves: the first is accepted, along one path, at the indices 0 and 2. */
  lemma TwoLeavesFirstAtTwo(h: HashFunction, a: Digest, b: Digest)
    ensures Accepts(h, a, 0, [(b, false)], Root(h, [a, b]))
    ensures Accepts(h, a, 2, [(b, false)], Root(h, [a, b]))
  {
    var leaves: Level, path: Path := [a, b], [(b, false)];
    assert Pair(leaves, 0) == TwoHashes(a, b);
    assert NextLevel(h, leaves) == [h(TwoHashes(a, b))];
    assert Root(h, leaves) == h(TwoHashes(a, b));
    assert path[1..] == [];
    assert Climb(h, a, 0, path) == Some(h(TwoHashes(a, b)));
    assert Pow2(1) == 2;
    SamePathOtherIndices(h, a, 0, 2, path, Root(h, leaves));
  }

  /** The last leaf of an odd list is accepted at two neighbouring indices, along different paths. */
  lemma LastOddLeafHasTwoIndices(h: HashFunction, leaves: Level, longer: Level, n: nat)
    requires n == |leaves| && 1 < n <= U32_MAX && n % 2 == 1
    requires longer == leaves + [leaves[n - 1]]
    requires Depth(n) <= MAX_PATH
    ensures Accepts(h, leaves[n - 1], n - 1, PathFor(h, leaves, n - 1), Root(h, leaves))
    ensures Accepts(h, leaves[n - 1], n, PathFor(h, longer, n), Root(h, leaves))
  {
    PathForClimbs(h, leaves, n - 1);
    LeafPositionInRange(n - 1, n);
    LongerListPath(h, leaves, longer, n);
  }

  lemma LongerListPath(h: HashFunction, leaves: Level, longer: Level, n: nat)
    requires n == |leaves| && 1 < n <= U32_MAX && n % 2 == 1
    requires longer == leaves + [leaves[n - 1]]
    requires Depth(n) <= MAX_PATH
    ensures Accepts(h, longer[n], n, PathFor(h, longer, n), Root(h, leaves))
  {
    PathForClimbs(h, longer, n);
    LeafPositionInRange(n, n + 1);
    OddListSharesItsRoot(h, leaves);
    OddDepth(n, n / 2);
  }

  // ---- which committed lists share a root ----

  /** The two lists, padded to full trees of one depth, have the same leaves. */
  ghost predicate SamePadded(a: seq<Bytes>, b: seq<Bytes>)
    requires a != [] && b != []
  {
    && Depth(|a|) == Depth(|b|)
    && forall i: nat :: i < Pow2(Depth(|a|)) ==> a[LeafPosition(i, |a|)] == b[LeafPosition(i, |b|)]
  }

  lemma {:induction false} SamePaddedSameRoot(h: HashFunction, a: Level, b: Level)
    requires SamePadded(a, b)
    ensures Root(h, a) == Root(h, b)
    decreases |a|
  {
    assert Pow2(0) == 1;
    if |a| == 1 {
      assert a[LeafPosition(0, 1)] == b[LeafPosition(0, |b|)];
    } else {
      var x, y := NextLevel(h, a), NextLevel(h, b);
      forall j: nat | j < Pow2(Depth(|x|))
        ensures x[LeafPosition(j, |x|)] == y[LeafPosition(j, |y|)]
      {
        var c, d := LeafPosition(j, |x|), LeafPosition(j, |y|);
        PairAtPosition(a, j, c);
        PairAtPosition(b, j, d);
        assert 2 * j + 1 < Pow2(Depth(|a|));
        assert a[LeafPosition(2 * j, |a|)] == b[LeafPosition(2 * j, |b|)];
        assert a[LeafPosition(2 * j + 1, |a|)] == b[LeafPosition(2 * j + 1, |b|)];
      }
      SamePaddedSameRoot(h, x, y);
    }
  }

  /** The pair above position `j` is made of the leaves at 2j and 2j + 1. */
  lemma PairAtPosition(level: Level, j: nat, c: nat)
    requires |level| > 1 && c == LeafPosition(j, (|level| + 1) / 2)
    ensures Pair(level, c) == TwoHashes(level[LeafPosition(2 * j, |level|)], level[LeafPosition(2 * j + 1, |level|)])
  {
    hide At, LeafPosition;
    assert 2 * j / 2 == j && (2 * j + 1) / 2 == j;
    LeafPositionStep(level, 2 * j, c, false);
    LeafPositionStep(level, 2 * j + 1, c, true);
  }

  /** Two committed lists of any lengths have the same root exactly when they are the same list once padded, or
      committing them collided. */
  lemma SameRootExactly(h: HashFunction, a: seq<Bytes>, b: seq<Bytes>)
    requires a != [] && b != [] && NeverNodes(a) && NeverNodes(b)
    requires CollisionFree(h, CommittedPreimages(h, a) + CommittedPreimages(h, b))
    ensures Root(h, HashAll(h, a)) == Root(h, HashAll(h, b)) <==> SamePadded(a, b)
  {
    hide Root, CollisionFree, TreePreimages, NeverNodes;
    var x, y := HashAll(h, a), HashAll(h, b);
    if Root(h, x) == Root(h, y) {
      forall i: nat
        ensures Depth(|a|) == Depth(|b|) && a[LeafPosition(i, |a|)] == b[LeafPosition(i, |b|)]
      {
        LeafOfOneInTheOther(h, a, b, i);
      }
      assert Depth(|a|) == Depth(|b|) by { LeafOfOneInTheOther(h, a, b, 0); }
    }
    if SamePadded(a, b) {
      assert SamePadded(x, y);
      SamePaddedSameRoot(h, x, y);
    }
  }

  lemma LeafOfOneInTheOther(h: HashFunction, a: seq<Bytes>, b: seq<Bytes>, i: nat)
    requires a != [] && b != [] && NeverNodes(a) && NeverNodes(b)
    requires CollisionFree(h, CommittedPreimages(h, a) + CommittedPreimages(h, b))
    requires Root(h, HashAll(h, a)) == Root(h, HashAll(h, b))
    ensures Depth(|a|) == Depth(|b|) && a[LeafPosition(i, |a|)] == b[LeafPosition(i, |b|)]
  {
    hide Root, CollisionFree, TreePreimages;
    var x, leaf := HashAll(h, a), a[LeafPosition(i, |a|)];
    var path := PathFor(h, x, i);
    PathForClimbs(h, x, i);
    var all := CommittedPreimages(h, a) + CommittedPreimages(h, b);
    assert MembershipPreimages(h, b, leaf, path) <= all;
    AcceptedLeafIsCommitted(h, b, leaf, i, path, all);
  }

  /** The same, with the collision in hand when it fails. */
  lemma SameRootExactlyOrCollision(h: HashFunction, a: seq<Bytes>, b: seq<Bytes>) returns (x: Bytes, y: Bytes)
    requires a != [] && b != [] && NeverNodes(a) && NeverNodes(b)
    ensures || (Root(h, HashAll(h, a)) == Root(h, HashAll(h, b)) <==> SamePadded(a, b))
            || CollisionAmong(h, CommittedPreimages(h, a) + CommittedPreimages(h, b), x, y)
  {
    hide Root, SamePadded, CommittedPreimages;
    x, y := [], [];
    if CollisionFree(h, CommittedPreimages(h, a) + CommittedPreimages(h, b)) {
      SameRootExactly(h, a, b);
    } else {
      x, y := PickCollision(h, CommittedPreimages(h, a) + CommittedPreimages(h, b));
    }
  }

  // ---- the same without the functions above: which bytes are hashed ----

  /** One level up: each node is the hash of the left bytes followed by the right bytes, and a node without a right
      neighbour is paired with itself. */
  ghost predicate PairedUp(h: HashFunction, below: seq<Bytes>, above: seq<Bytes>) {
    && |above| == (|below| + 1) / 2
    && forall i :: 0 <= i < |above| ==>
         above[i] == h(below[2 * i] + if 2 * i + 1 < |below| then below[2 * i + 1] else below[2 * i])
  }

  /** The levels of a tree, from its leaves to a single node. */
  ghost predicate Tower(h: HashFunction, leaves: seq<Bytes>, levels: seq<seq<Bytes>>) {
    && levels != [] && levels[0] == leaves && |levels[|levels| - 1]| == 1
    && forall k :: 0 <= k < |levels| - 1 ==> |levels[k]| > 1 && PairedUp(h, levels[k], levels[k + 1])
  }

  lemma NextLevelPairsUp(h: HashFunction, level: Level)
    ensures PairedUp(h, level, NextLevel(h, level))
    ensures forall above :: PairedUp(h, level, above) ==> above == NextLevel(h, level)
  {
    forall above | PairedUp(h, level, above)
      ensures above == NextLevel(h, level)
    {
      forall i | 0 <= i < |above|
        ensures above[i] == NextLevel(h, level)[i]
      {
        assert Pair(level, i) == level[2 * i] + if 2 * i + 1 < |level| then level[2 * i + 1] else level[2 * i];
      }
    }
  }

  lemma {:induction false} TowerExists(h: HashFunction, level: Level) returns (levels: seq<seq<Bytes>>)
    ensures Tower(h, level, levels) && levels[|levels| - 1] == [Root(h, level)]
    decreases |level|
  {
    if |level| == 1 {
      levels := [level];
    } else {
      var rest := TowerExists(h, NextLevel(h, level));
      NextLevelPairsUp(h, level);
      levels := [level] + rest;
      forall k | 0 <= k < |levels| - 1
        ensures |levels[k]| > 1 && PairedUp(h, levels[k], levels[k + 1])
      {
        if k > 0 {
          assert levels[k] == rest[k - 1] && levels[k + 1] == rest[k];
        }
      }
    }
  }

  lemma {:induction false} TowerEndsInRoot(h: HashFunction, level: Level, levels: seq<seq<Bytes>>)
    requires Tower(h, level, levels)
    ensures levels[|levels| - 1] == [Root(h, level)]
    decreases |level|
  {
    if |levels| > 1 {
      assert |levels[0]| > 1 && PairedUp(h, levels[0], levels[1]);
      NextLevelPairsUp(h, level);
      var rest := levels[1..];
      assert levels[1] == NextLevel(h, level);
      forall k | 0 <= k < |rest| - 1
        ensures |rest[k]| > 1 && PairedUp(h, rest[k], rest[k + 1])
      {
        assert rest[k] == levels[k + 1] && rest[k + 1] == levels[k + 2];
      }
      TowerEndsInRoot(h, NextLevel(h, level), rest);
    }
  }

  /** What the root is: nothing but 32-byte leaves, 32 zero bytes for none, else the one node at the top. */
  lemma RootExactly(h: HashFunction, leaves: seq<Bytes>, root: Bytes)
    ensures RootOf(h, leaves).Ok? <==> forall i :: 0 <= i < |leaves| ==> |leaves[i]| == 32
    ensures leaves == [] ==> RootOf(h, leaves) == Ok(seq(32, _ => 0))
    ensures leaves != [] && RootOf(h, leaves).Ok? ==>
            (RootOf(h, leaves).value == root <==>
             exists levels :: Tower(h, leaves, levels) && levels[|levels| - 1] == [root])
  {
    hide Root, Tower, Depth;
    assert ZERO32 == seq(32, _ => 0);
    if leaves != [] && RootOf(h, leaves).Ok? {
      var levels := TowerExists(h, leaves);
      forall other | Tower(h, leaves, other)
        ensures other != [] && other[|other| - 1] == [Root(h, leaves)]
      {
        TowerNotEmpty(h, leaves, other);
        TowerEndsInRoot(h, leaves, other);
      }
    }
  }

  lemma TowerNotEmpty(h: HashFunction, leaves: seq<Bytes>, levels: seq<seq<Bytes>>)
    requires Tower(h, leaves, levels)
    ensures levels != []
  {
  }

  /** Two leaves. */
  lemma RootOfTwo(h: HashFunction, a: Bytes, b: Bytes)
    requires |a| == 32 && |b| == 32
    ensures RootOf(h, [a, b]) == Ok(h(a + b))
  {
    var leaves: Level := [a, b];
    NextLevelPairsUp(h, leaves);
    var above: Level := [h(a + b)];
    assert NextLevel(h, leaves) == above;
    assert Root(h, above) == h(a + b);
  }

  /** One step of a path: a left sibling goes before the current node, a right one after it. */
  ghost predicate Step(h: HashFunction, left: bool, step: (Bytes, bool), below: Bytes, above: Bytes) {
    |step.0| == 32 && step.1 == left && above == h(if step.1 then step.0 + below else below + step.0)
  }

  /** The nodes along a path, from the leaf up; the side of step k is bit k of the index. */
  ghost predicate Ascent(h: HashFunction, leaf: Bytes, index: nat, path: Path, nodes: seq<Bytes>) {
    && |nodes| == |path| + 1 && nodes[0] == leaf
    && forall k :: 0 <= k < |path| ==> Step(h, index / Pow2(k) % 2 == 1, path[k], nodes[k], nodes[k + 1])
  }

  lemma HalveTwice(index: nat, k: nat)
    ensures index / 2 / Pow2(k) == index / Pow2(k + 1)
  {
    var m, half := Pow2(k), index / 2;
    var q, r := half / m, half % m;
    assert half == q * m + r;
    assert index == q * (2 * m) + (2 * r + index % 2) by {
      assert q * (2 * m) == 2 * (q * m);
    }
    RemainderIs(index, 2 * m, q, 2 * r + index % 2);
    QuotientIs(index, 2 * m, q, 2 * r + index % 2);
  }

  lemma QuotientIs(i: nat, m: nat, q: nat, r: nat)
    requires i == q * m + r && r < m
    ensures i / m == q
  {
    var d := i / m;
    assert i == d * m + i % m;
    MultiplesApart(d, q, m);
    MultiplesApart(q, d, m);
  }

  lemma FirstStep(h: HashFunction, leaf: Bytes, index: nat, path: Path, above: Bytes)
    requires path != [] && Climb(h, leaf, index, path).Some? && above == h(Join(leaf, path[0].0, path[0].1))
    ensures Step(h, index / Pow2(0) % 2 == 1, path[0], leaf, above)
  {
    assert Pow2(0) == 1;
  }

  lemma {:induction false} ClimbIsAscent(h: HashFunction, leaf: Bytes, index: nat, path: Path)
    returns (nodes: seq<Bytes>)
    requires Climb(h, leaf, index, path).Some?
    ensures Ascent(h, leaf, index, path, nodes) && nodes[|path|] == Climb(h, leaf, index, path).value
    decreases |path|
  {
    if path == [] {
      nodes := [leaf];
    } else {
      var rest := ClimbIsAscent(h, h(Join(leaf, path[0].0, path[0].1)), index / 2, path[1..]);
      nodes := [leaf] + rest;
      FirstStep(h, leaf, index, path, rest[0]);
      hide Step, Climb;
      forall k | 0 <= k < |path|
        ensures Step(h, index / Pow2(k) % 2 == 1, path[k], nodes[k], nodes[k + 1])
      {
        if k > 0 {
          HalveTwice(index, k - 1);
          assert Step(h, index / 2 / Pow2(k - 1) % 2 == 1, path[1..][k - 1], rest[k - 1], rest[k]);
        }
      }
    }
  }

  lemma {:induction false} AscentIsClimb(h: HashFunction, leaf: Bytes, index: nat, path: Path, nodes: seq<Bytes>)
    requires Ascent(h, leaf, index, path, nodes)
    ensures Climb(h, leaf, index, path) == Some(nodes[|path|])
    decreases |path|
  {
    if path != [] {
      var rest, tail := nodes[1..], path[1..];
      assert Pow2(0) == 1;
      forall k | 0 <= k < |tail|
        ensures Step(h, index / 2 / Pow2(k) % 2 == 1, tail[k], rest[k], rest[k + 1])
      {
        HalveTwice(index, k);
        assert Step(h, index / Pow2(k + 1) % 2 == 1, path[k + 1], nodes[k + 1], nodes[k + 2]);
      }
      assert Step(h, index / Pow2(0) % 2 == 1, path[0], nodes[0], nodes[1]);
      assert rest[0] == h(Join(leaf, path[0].0, path[0].1));
      AscentIsClimb(h, rest[0], index / 2, tail, rest);
    }
  }

  /** Which paths are accepted. */
  lemma AcceptsExactly(h: HashFunction, leaf: Bytes, index: int, path: Path, root: Bytes)
    ensures Accepts(h, leaf, index, path, root) <==>
            && |leaf| == 32 && |root| == 32 && 0 <= index <= 0xFFFF_FFFF && |path| <= 64
            && exists nodes :: Ascent(h, leaf, index, path, nodes) && nodes[|path|] == root
  {
    hide Climb, Ascent;
    if 0 <= index {
      if Climb(h, leaf, index, path).Some? {
        var nodes := ClimbIsAscent(h, leaf, index, path);
        assert Ascent(h, leaf, index, path, nodes);
      }
      forall nodes | Ascent(h, leaf, index, path, nodes)
        ensures |nodes| == |path| + 1 && Climb(h, leaf, index, path) == Some(nodes[|path|])
      {
        AscentLength(h, leaf, index, path, nodes);
        AscentIsClimb(h, leaf, index, path, nodes);
      }
    }
  }

  lemma AscentLength(h: HashFunction, leaf: Bytes, index: nat, path: Path, nodes: seq<Bytes>)
    requires Ascent(h, leaf, index, path, nodes)
    ensures |nodes| == |path| + 1
  {
  }
}
