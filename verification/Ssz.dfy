/** SSZ merkleization over SHA-256: the layer-by-layer loop against the tree it stands for. */
module Ssz {
  import opened SymbolicBytes
  import opened Wrappers

  const MAX_DEPTH: nat := 64

  // Powers of two and tree depths

  function Pow2(n: nat): (p: nat)
    ensures p > 0
  {
    if n == 0 then 1 else 2 * Pow2(n - 1)
  }

  /** The number of binary digits of `n`; zero has none. */
  function BitLength(n: nat): nat {
    if n == 0 then 0 else 1 + BitLength(n / 2)
  }

  function ChunkCountDepth(count: nat): int {
    if count <= 1 then 0 else BitLength(Pow2(BitLength(count - 1))) - 1
  }

  lemma {:induction false} BitLengthBounds(n: nat)
    ensures n < Pow2(BitLength(n))
    ensures n > 0 ==> BitLength(n) > 0 && Pow2(BitLength(n) - 1) <= n
  {
    if n > 0 {
      BitLengthBounds(n / 2);
    }
  }

  lemma {:induction false} BitLengthOfPow2(n: nat)
    ensures BitLength(Pow2(n)) == n + 1
  {
    if n > 0 {
      BitLengthOfPow2(n - 1);
      assert Pow2(n) / 2 == Pow2(n - 1);
    }
  }

  lemma {:induction false} Pow2Monotone(a: nat, b: nat)
    requires a <= b
    ensures Pow2(a) <= Pow2(b)
  {
    if a < b {
      Pow2Monotone(a, b - 1);
    }
  }

  /** The depth is the least one whose tree has room for `count` leaves. */
  lemma DepthIsLeast(count: nat)
    ensures var d := ChunkCountDepth(count);
            d >= 0 && count <= Pow2(d) && (d > 0 ==> Pow2(d - 1) < count)
  {
    if count > 1 {
      BitLengthBounds(count - 1);
      BitLengthOfPow2(BitLength(count - 1));
    }
  }

  lemma DepthWithinTable(count: nat)
    requires count <= Pow2(MAX_DEPTH)
    ensures 0 <= ChunkCountDepth(count) <= MAX_DEPTH
  {
    DepthIsLeast(count);
    var d := ChunkCountDepth(count);
    if d > MAX_DEPTH {
      Pow2Monotone(MAX_DEPTH, d - 1);
    }
  }

  // Trees

  /** The root of the full binary tree over 2^depth leaves. */
  function FullRoot(leaves: seq<Bytes>, depth: nat): Bytes
    requires |leaves| == Pow2(depth)
    decreases depth
  {
    if depth == 0 then leaves[0]
    else
      var half := Pow2(depth - 1);
      Sha256(FullRoot(leaves[..half], depth - 1) + FullRoot(leaves[half..], depth - 1))
  }

  function Pad(chunks: seq<Bytes>, filler: Bytes, size: nat): (r: seq<Bytes>)
    requires |chunks| <= size
    ensures |r| == size
    ensures forall i :: 0 <= i < size ==> r[i] == if i < |chunks| then chunks[i] else filler
  {
    chunks + seq(size - |chunks|, _ => filler)
  }

  /** The reference: zero-pad the chunks to the leaves of a tree of this depth, and take its root. */
  function TreeRoot(chunks: seq<Bytes>, depth: nat): Bytes
    requires |chunks| <= Pow2(depth)
  {
    FullRoot(Pad(chunks, ZERO_CHUNK, Pow2(depth)), depth)
  }

  function ZeroHash(level: nat): (h: Bytes)
    ensures |h| == CHUNK_SIZE
  {
    if level == 0 then ZERO_CHUNK else Sha256(ZeroHash(level - 1) + ZeroHash(level - 1))
  }

  method ZeroHashes() returns (hashes: seq<Bytes>)
    ensures |hashes| == MAX_DEPTH + 1
    ensures forall i :: 0 <= i <= MAX_DEPTH ==> hashes[i] == ZeroHash(i)
  {
    hashes := [ZERO_CHUNK];
    for i := 0 to MAX_DEPTH
      invariant |hashes| == i + 1
      invariant forall j :: 0 <= j <= i ==> hashes[j] == ZeroHash(j)
    {
      hashes := hashes + [Sha256(hashes[i] + hashes[i])];
    }
  }

  lemma {:induction false} ZeroSubtree(depth: nat)
    ensures TreeRoot([], depth) == ZeroHash(depth)
  {
    if depth > 0 {
      var all, half := Pad([], ZERO_CHUNK, Pow2(depth)), Pow2(depth - 1);
      ZeroSubtree(depth - 1);
      assert all[..half] == Pad([], ZERO_CHUNK, half);
      assert all[half..] == Pad([], ZERO_CHUNK, half);
    }
  }

  // Hashing one layer

  /** The hashes of the `n` pairs of neighbours in a layer. */
  function PairUp(layer: seq<Bytes>, n: nat): (r: seq<Bytes>)
    requires |layer| == 2 * n
    ensures |r| == n
    ensures forall i :: 0 <= i < n ==> r[i] == Sha256(layer[2 * i] + layer[2 * i + 1])
  {
    seq(n, i requires 0 <= i < n => Sha256(layer[2 * i] + layer[2 * i + 1]))
  }

  lemma PairUpHalves(leaves: seq<Bytes>, n: nat)
    requires |leaves| == 4 * n
    ensures PairUp(leaves, 2 * n)[..n] == PairUp(leaves[..2 * n], n)
    ensures PairUp(leaves, 2 * n)[n..] == PairUp(leaves[2 * n..], n)
  {
    forall i | 0 <= i < n
      ensures PairUp(leaves, 2 * n)[n..][i] == PairUp(leaves[2 * n..], n)[i]
    {
      assert PairUp(leaves, 2 * n)[n + i] == Sha256(leaves[2 * n + 2 * i] + leaves[2 * n + 2 * i + 1]);
    }
  }

  /** Two trees have one root when their halves do. */
  lemma JoinRoots(leaves: seq<Bytes>, pairs: seq<Bytes>, depth: nat)
    requires depth > 1 && |leaves| == Pow2(depth) && |pairs| == Pow2(depth - 1)
    requires FullRoot(leaves[..Pow2(depth - 1)], depth - 1) == FullRoot(pairs[..Pow2(depth - 2)], depth - 2)
    requires FullRoot(leaves[Pow2(depth - 1)..], depth - 1) == FullRoot(pairs[Pow2(depth - 2)..], depth - 2)
    ensures FullRoot(leaves, depth) == FullRoot(pairs, depth - 1)
  {
  }

  lemma PairRoot(leaves: seq<Bytes>, pair: Bytes)
    requires |leaves| == 2 && pair == Sha256(leaves[0] + leaves[1])
    ensures FullRoot(leaves, 1) == FullRoot([pair], 0)
  {
    var half := Pow2(0);
    assert leaves[..half][0] == leaves[0] && leaves[half..][0] == leaves[1];
  }

  /** Hashing neighbours pairwise takes one level off a tree without changing its root. */
  lemma {:induction false} PairUpKeepsRoot(leaves: seq<Bytes>, depth: nat)
    requires depth > 0 && |leaves| == Pow2(depth)
    ensures FullRoot(leaves, depth) == FullRoot(PairUp(leaves, Pow2(depth - 1)), depth - 1)
    decreases depth
  {
    if depth == 1 {
      var pairs := PairUp(leaves, 1);
      PairRoot(leaves, pairs[0]);
      assert pairs == [pairs[0]];
    } else {
      var half, quarter := Pow2(depth - 1), Pow2(depth - 2);
      PairUpKeepsRoot(leaves[..half], depth - 1);
      PairUpKeepsRoot(leaves[half..], depth - 1);
      PairUpHalves(leaves, quarter);
      JoinRoots(leaves, PairUp(leaves, half), depth);
    }
  }

  /** A layer completed to an even number of nodes. */
  function Even(layer: seq<Bytes>, filler: Bytes): (r: seq<Bytes>)
    ensures |r| == 2 * ((|layer| + 1) / 2)
  {
    if |layer| % 2 == 1 then layer + [filler] else layer
  }

  function NextLayer(layer: seq<Bytes>, filler: Bytes): (r: seq<Bytes>)
    ensures |r| == (|layer| + 1) / 2
  {
    PairUp(Even(layer, filler), (|layer| + 1) / 2)
  }

  /** Completing an odd layer with its level's zero hash is padding with zero subtrees. */
  lemma NextLayerPadded(layer: seq<Bytes>, filler: Bytes, half: nat)
    requires |layer| <= 2 * half
    ensures PairUp(Pad(layer, filler, 2 * half), half) == Pad(NextLayer(layer, filler), Sha256(filler + filler), half)
  {
  }

  /** `layer` holds the first nodes of its level, `rest` levels below `root`; zero subtrees fill the rest. */
  ghost predicate IsLayer(layer: seq<Bytes>, level: nat, rest: nat, root: Bytes) {
    1 <= |layer| <= Pow2(rest) && FullRoot(Pad(layer, ZeroHash(level), Pow2(rest)), rest) == root
  }

  lemma LayerStep(layer: seq<Bytes>, level: nat, rest: nat, root: Bytes)
    requires rest > 0 && IsLayer(layer, level, rest, root)
    ensures IsLayer(NextLayer(layer, ZeroHash(level)), level + 1, rest - 1, root)
  {
    NextLayerPadded(layer, ZeroHash(level), Pow2(rest - 1));
    PairUpKeepsRoot(Pad(layer, ZeroHash(level), Pow2(rest)), rest);
  }

  lemma FirstLayer(chunks: seq<Bytes>, depth: nat)
    requires 1 <= |chunks| <= Pow2(depth)
    ensures IsLayer(chunks, 0, depth, TreeRoot(chunks, depth))
  {
  }

  lemma LastLayer(layer: seq<Bytes>, level: nat, root: Bytes)
    requires IsLayer(layer, level, 0, root)
    ensures |layer| == 1 && layer[0] == root
  {
  }

  // Merkleize

  /** The reasons for which hashing raises `ValueError`. */
  datatype ValueError =
    | TooManyChunks | OutOfRange | TooLong | Misaligned | Incomplete | BadAddress | UnsupportedVersion

  function SizedFor(count: nat, limit: nat): nat {
    if limit == 0 then count else limit
  }

  /** What merkleizing means; a limit of zero sizes the tree to the chunks present. */
  function MerkleRoot(chunks: seq<Bytes>, limit: nat): Result<Bytes, ValueError> {
    DepthIsLeast(SizedFor(|chunks|, limit));
    if limit != 0 && |chunks| > limit then Failure(TooManyChunks)
    else Success(TreeRoot(chunks, ChunkCountDepth(SizedFor(|chunks|, limit))))
  }

  /** One level of the loop: an odd layer is completed with its level's zero hash, then hashed. */
  method HashLayer(layer: seq<Bytes>, zeroHash: Bytes) returns (next: seq<Bytes>)
    ensures next == NextLayer(layer, zeroHash)
  {
    next := layer;
    if |next| % 2 != 0 {
      next := next + [zeroHash];
    }
    next := PairUp(next, |next| / 2);
  }

  method ClimbLayer(layer: seq<Bytes>, zeroHash: Bytes, ghost level: nat, ghost rest: nat, ghost root: Bytes)
    returns (next: seq<Bytes>)
    requires rest > 0 && IsLayer(layer, level, rest, root) && zeroHash == ZeroHash(level)
    ensures IsLayer(next, level + 1, rest - 1, root)
  {
    LayerStep(layer, level, rest, root);
    next := HashLayer(layer, zeroHash);
  }

  method HashLayers(chunks: seq<Bytes>, depth: nat, zeroHashes: seq<Bytes>, ghost expected: Bytes) returns (root: Bytes)
    requires IsLayer(chunks, 0, depth, expected) && depth < |zeroHashes|
    requires forall i :: 0 <= i < |zeroHashes| ==> zeroHashes[i] == ZeroHash(i)
    ensures root == expected
  {
    var layer := chunks;
    for level := 0 to depth
      invariant IsLayer(layer, level, depth - level, expected)
    {
      layer := ClimbLayer(layer, zeroHashes[level], level, depth - level, expected);
    }
    LastLayer(layer, depth, expected);
    root := layer[0];
  }

  /** The layer loop computes the root of the zero-padded tree, for every count and limit the table
      of zero hashes covers, and ends with a single node. */
  method Merkleize(chunks: seq<Bytes>, limit: nat) returns (root: Result<Bytes, ValueError>)
    requires limit <= Pow2(MAX_DEPTH) && (limit == 0 ==> |chunks| <= Pow2(MAX_DEPTH))
    ensures root == MerkleRoot(chunks, limit)
  {
    var size := limit;
    if limit == 0 {
      size := |chunks|;
    } else if |chunks| > limit {
      return Failure(TooManyChunks);
    }
    if size == 0 {
      return Success(ZERO_CHUNK);
    }
    if size == 1 {
      return Success(if |chunks| == 1 then chunks[0] else ZERO_CHUNK);
    }
    DepthIsLeast(size);
    DepthWithinTable(size);
    var depth := ChunkCountDepth(size);
    var zeroHashes := ZeroHashes();
    if chunks == [] {
      ZeroSubtree(depth);
      return Success(zeroHashes[depth]);
    }
    FirstLayer(chunks, depth);
    var r := HashLayers(chunks, depth, zeroHashes, TreeRoot(chunks, depth));
    return Success(r);
  }

  // Roots determine leaves

  ghost predicate AreChunks(leaves: seq<Bytes>) {
    forall i :: 0 <= i < |leaves| ==> |leaves[i]| == CHUNK_SIZE
  }

  lemma {:induction false} FullRootIsChunk(leaves: seq<Bytes>, depth: nat)
    requires |leaves| == Pow2(depth) && AreChunks(leaves)
    ensures |FullRoot(leaves, depth)| == CHUNK_SIZE
    decreases depth
  {
  }

  /** Equal digests of equal halves. */
  lemma DigestHalves(a: Bytes, b: Bytes, c: Bytes, d: Bytes)
    requires |a| == |c| && Sha256(a + b) == Sha256(c + d)
    ensures a == c && b == d
  {
    Sha256Injective(a + b, c + d);
    assert a == (a + b)[..|a|] && c == (c + d)[..|c|];
    assert b == (a + b)[|a|..] && d == (c + d)[|c|..];
  }

  lemma {:induction false} FullRootInjective(a: seq<Bytes>, b: seq<Bytes>, depth: nat)
    requires |a| == |b| == Pow2(depth) && AreChunks(a) && AreChunks(b)
    requires FullRoot(a, depth) == FullRoot(b, depth)
    ensures a == b
    decreases depth
  {
    if depth == 0 {
      assert a == [a[0]] && b == [b[0]];
    } else {
      var half := Pow2(depth - 1);
      FullRootIsChunk(a[..half], depth - 1);
      FullRootIsChunk(b[..half], depth - 1);
      DigestHalves(FullRoot(a[..half], depth - 1), FullRoot(a[half..], depth - 1),
                   FullRoot(b[..half], depth - 1), FullRoot(b[half..], depth - 1));
      FullRootInjective(a[..half], b[..half], depth - 1);
      FullRootInjective(a[half..], b[half..], depth - 1);
      assert a == a[..half] + a[half..] && b == b[..half] + b[half..];
    }
  }

  lemma TreeRootInjective(a: seq<Bytes>, b: seq<Bytes>, depth: nat)
    requires |a| <= Pow2(depth) && |b| <= Pow2(depth) && AreChunks(a) && AreChunks(b)
    requires TreeRoot(a, depth) == TreeRoot(b, depth)
    ensures Pad(a, ZERO_CHUNK, Pow2(depth)) == Pad(b, ZERO_CHUNK, Pow2(depth))
  {
    FullRootInjective(Pad(a, ZERO_CHUNK, Pow2(depth)), Pad(b, ZERO_CHUNK, Pow2(depth)), depth);
  }

  /** When a shallow tree and a deeper one share a root, the first leaf of the shallow one is a digest. */
  lemma {:induction false} ShallowLeafIsDigest(a: seq<Bytes>, d: nat, b: seq<Bytes>, e: nat)
    requires |a| == Pow2(d) && |b| == Pow2(e) && d < e && AreChunks(a) && AreChunks(b)
    requires FullRoot(a, d) == FullRoot(b, e)
    ensures a[0][0].Digest?
    decreases d
  {
    if d > 0 {
      var i, j := Pow2(d - 1), Pow2(e - 1);
      FullRootIsChunk(a[..i], d - 1);
      FullRootIsChunk(b[..j], e - 1);
      DigestHalves(FullRoot(a[..i], d - 1), FullRoot(a[i..], d - 1), FullRoot(b[..j], e - 1), FullRoot(b[j..], e - 1));
      ShallowLeafIsDigest(a[..i], d - 1, b[..j], e - 1);
    }
  }

  // Hashing an encoding

  /** The number of chunks that many bytes fill. */
  function ChunkCount(bytes: nat): (c: nat)
    ensures bytes <= CHUNK_SIZE * c < bytes + CHUNK_SIZE
  {
    (bytes + CHUNK_SIZE - 1) / CHUNK_SIZE
  }

  function PaddedLength(n: nat): (p: nat)
    ensures n <= p < n + CHUNK_SIZE
  {
    CHUNK_SIZE * ChunkCount(n)
  }

  function ZeroPad(data: Bytes, size: nat): (r: Bytes)
    requires |data| <= size
    ensures |r| == size
  {
    data + Zeros(size - |data|)
  }

  /** The bytes in 32-byte chunks, the last one padded with zeros. */
  function Chunkify(data: Bytes): (chunks: seq<Bytes>)
    ensures |chunks| == ChunkCount(|data|)
    ensures AreChunks(chunks)
  {
    var n := ChunkCount(|data|);
    var padded := ZeroPad(data, CHUNK_SIZE * n);
    seq(n, i requires 0 <= i < n => padded[CHUNK_SIZE * i..CHUNK_SIZE * (i + 1)])
  }

  function HashProto(encoding: Bytes): Bytes {
    if |encoding| <= CHUNK_SIZE then
      if encoding == [] then ZERO_CHUNK else Chunkify(encoding)[0]
    else MerkleRoot(Chunkify(encoding), 0).value
  }

  function TreeDepth(encoding: Bytes): (d: nat)
    ensures |Chunkify(encoding)| <= Pow2(d)
  {
    DepthIsLeast(|Chunkify(encoding)|);
    ChunkCountDepth(|Chunkify(encoding)|)
  }

  lemma HashProtoIsTreeRoot(encoding: Bytes)
    ensures HashProto(encoding) == TreeRoot(Chunkify(encoding), TreeDepth(encoding))
  {
  }

  function Leaves(encoding: Bytes): (r: seq<Bytes>)
    ensures |r| == Pow2(TreeDepth(encoding)) && AreChunks(r)
  {
    Pad(Chunkify(encoding), ZERO_CHUNK, Pow2(TreeDepth(encoding)))
  }

  /** The encoding zero-padded to all the leaves of its tree. */
  function Filled(encoding: Bytes): Bytes {
    ZeroPad(encoding, CHUNK_SIZE * Pow2(TreeDepth(encoding)))
  }

  lemma LeafByte(encoding: Bytes, i: nat, j: nat)
    requires i < Pow2(TreeDepth(encoding)) && j < CHUNK_SIZE
    ensures Leaves(encoding)[i][j] == Filled(encoding)[CHUNK_SIZE * i + j]
  {
    if i < |Chunkify(encoding)| {
      var padded := ZeroPad(encoding, PaddedLength(|encoding|));
      assert Chunkify(encoding)[i] == padded[CHUNK_SIZE * i..CHUNK_SIZE * (i + 1)];
      assert Chunkify(encoding)[i][j] == padded[CHUNK_SIZE * i + j];
    }
  }

  lemma SameLeaves(a: Bytes, b: Bytes)
    requires TreeDepth(a) == TreeDepth(b) && Leaves(a) == Leaves(b)
    ensures Filled(a) == Filled(b)
  {
    forall k | 0 <= k < |Filled(a)|
      ensures Filled(a)[k] == Filled(b)[k]
    {
      LeafByte(a, k / CHUNK_SIZE, k % CHUNK_SIZE);
      LeafByte(b, k / CHUNK_SIZE, k % CHUNK_SIZE);
    }
  }

  lemma SameLeaf(x: Bytes, y: Bytes, a: Bytes, b: Bytes, i: nat)
    requires TreeDepth(a) == TreeDepth(b) && Filled(a) == Filled(b)
    requires i < Pow2(TreeDepth(a)) && x == Leaves(a)[i] && y == Leaves(b)[i]
    ensures x == y
  {
    forall j | 0 <= j < CHUNK_SIZE
      ensures x[j] == y[j]
    {
      LeafByte(a, i, j);
      LeafByte(b, i, j);
    }
  }

  lemma SameBytes(a: Bytes, b: Bytes)
    requires TreeDepth(a) == TreeDepth(b) && Filled(a) == Filled(b)
    ensures Leaves(a) == Leaves(b)
  {
    forall i | 0 <= i < |Leaves(a)|
      ensures Leaves(a)[i] == Leaves(b)[i]
    {
      SameLeaf(Leaves(a)[i], Leaves(b)[i], a, b, i);
    }
  }

  /** An encoding whose first byte is the program's own rather than a digest's. */
  predicate StartsLiteral(encoding: Bytes) {
    encoding == [] || encoding[0].Lit?
  }

  lemma FirstLeafLiteral(encoding: Bytes)
    requires StartsLiteral(encoding)
    ensures Leaves(encoding)[0][0].Lit?
  {
    LeafByte(encoding, 0, 0);
  }

  /** The hash mixes in no length, so two encodings hash alike exactly when their trees have the same
      depth and the encodings agree once zero-padded to that tree's leaves. */
  lemma HashProtoEqualIff(a: Bytes, b: Bytes)
    requires StartsLiteral(a) && StartsLiteral(b)
    ensures HashProto(a) == HashProto(b) <==> TreeDepth(a) == TreeDepth(b) && Filled(a) == Filled(b)
  {
    HashProtoIsTreeRoot(a);
    HashProtoIsTreeRoot(b);
    FirstLeafLiteral(a);
    FirstLeafLiteral(b);
    if TreeDepth(a) == TreeDepth(b) {
      if HashProto(a) == HashProto(b) {
        TreeRootInjective(Chunkify(a), Chunkify(b), TreeDepth(a));
        SameLeaves(a, b);
      } else if Filled(a) == Filled(b) {
        SameBytes(a, b);
      }
    } else if HashProto(a) == HashProto(b) {
      if TreeDepth(a) < TreeDepth(b) {
        ShallowLeafIsDigest(Leaves(a), TreeDepth(a), Leaves(b), TreeDepth(b));
      } else {
        ShallowLeafIsDigest(Leaves(b), TreeDepth(b), Leaves(a), TreeDepth(a));
      }
    }
  }

  /** So encodings that hash alike differ by trailing zeros at most. */
  lemma HashProtoUpToZeros(a: Bytes, b: Bytes)
    requires StartsLiteral(a) && StartsLiteral(b) && HashProto(a) == HashProto(b) && |a| <= |b|
    ensures b == a + Zeros(|b| - |a|)
  {
    HashProtoEqualIff(a, b);
    forall k | 0 <= k < |b|
      ensures b[k] == (a + Zeros(|b| - |a|))[k]
    {
      assert Filled(b)[k] == b[k];
      assert Filled(a)[k] == if k < |a| then a[k] else Lit(0);
    }
  }

  // Encodings of any kind

  /** The roots of the subtrees of height `up`, from left to right. */
  function Climb(leaves: seq<Bytes>, rest: nat, up: nat): (r: seq<Bytes>)
    requires |leaves| == Pow2(rest + up)
    ensures |r| == Pow2(rest)
    decreases up
  {
    if up == 0 then leaves else Climb(PairUp(leaves, Pow2(rest + up - 1)), rest, up - 1)
  }

  lemma {:induction false} ClimbIsChunks(leaves: seq<Bytes>, rest: nat, up: nat)
    requires |leaves| == Pow2(rest + up) && AreChunks(leaves)
    ensures AreChunks(Climb(leaves, rest, up))
    decreases up
  {
    if up > 0 {
      ClimbIsChunks(PairUp(leaves, Pow2(rest + up - 1)), rest, up - 1);
    }
  }

  /** A tree of this depth with this root. */
  ghost predicate HasRoot(leaves: seq<Bytes>, depth: nat, root: Bytes) {
    |leaves| == Pow2(depth) && FullRoot(leaves, depth) == root
  }

  lemma PairUpHasRoot(leaves: seq<Bytes>, depth: nat, root: Bytes)
    requires HasRoot(leaves, depth + 1, root)
    ensures HasRoot(PairUp(leaves, Pow2(depth)), depth, root)
  {
    PairUpKeepsRoot(leaves, depth + 1);
  }

  lemma ClimbsOnce(leaves: seq<Bytes>, pairs: seq<Bytes>, rest: nat, up: nat)
    requires up > 0 && |leaves| == Pow2(rest + up) && pairs == PairUp(leaves, Pow2(rest + up - 1))
    ensures Climb(leaves, rest, up) == Climb(pairs, rest, up - 1)
  {
  }

  lemma {:induction false} ClimbKeepsRoot(leaves: seq<Bytes>, rest: nat, up: nat, root: Bytes)
    requires HasRoot(leaves, rest + up, root)
    ensures HasRoot(Climb(leaves, rest, up), rest, root)
    decreases up
  {
    if up > 0 {
      var pairs := PairUp(leaves, Pow2(rest + up - 1));
      PairUpHasRoot(leaves, rest + up - 1, root);
      ClimbKeepsRoot(pairs, rest, up - 1, root);
      ClimbsOnce(leaves, pairs, rest, up);
    }
  }

  /** The leaves of the shallower tree are the roots of the deeper one's subtrees. */
  predicate IsTopOf(a: Bytes, b: Bytes)
    requires TreeDepth(a) <= TreeDepth(b)
  {
    Leaves(a) == Climb(Leaves(b), TreeDepth(a), TreeDepth(b) - TreeDepth(a))
  }

  predicate SameTree(a: Bytes, b: Bytes) {
    if TreeDepth(a) <= TreeDepth(b) then IsTopOf(a, b) else IsTopOf(b, a)
  }

  lemma TopOfTree(top: seq<Bytes>, leaves: seq<Bytes>, rest: nat, up: nat)
    requires |top| == Pow2(rest) && |leaves| == Pow2(rest + up) && AreChunks(top) && AreChunks(leaves)
    ensures FullRoot(top, rest) == FullRoot(leaves, rest + up) <==> top == Climb(leaves, rest, up)
  {
    ClimbKeepsRoot(leaves, rest, up, FullRoot(leaves, rest + up));
    ClimbIsChunks(leaves, rest, up);
    if FullRoot(top, rest) == FullRoot(leaves, rest + up) {
      FullRootInjective(top, Climb(leaves, rest, up), rest);
    }
  }

  lemma TopHasRoot(a: Bytes, b: Bytes)
    requires TreeDepth(a) <= TreeDepth(b)
    ensures HashProto(a) == HashProto(b) <==> IsTopOf(a, b)
  {
    HashProtoIsTreeRoot(a);
    HashProtoIsTreeRoot(b);
    TopOfTree(Leaves(a), Leaves(b), TreeDepth(a), TreeDepth(b) - TreeDepth(a));
  }

  /** Any two encodings hash alike exactly when one's tree is the top of the other's. */
  lemma HashProtoSame(a: Bytes, b: Bytes)
    ensures HashProto(a) == HashProto(b) <==> SameTree(a, b)
  {
    if TreeDepth(a) <= TreeDepth(b) {
      TopHasRoot(a, b);
    } else {
      TopHasRoot(b, a);
    }
  }

  /** Encodings of one length have one tree only when they are equal. */
  lemma SameTreeOfLength(a: Bytes, b: Bytes)
    requires |a| == |b|
    ensures SameTree(a, b) <==> a == b
  {
    if SameTree(a, b) {
      SameLeaves(a, b);
      assert a == Filled(a)[..|a|] && b == Filled(b)[..|b|];
    }
  }

  /** A zero byte more changes nothing unless it starts a new chunk. */
  lemma TrailingZeroSameTree(data: Bytes)
    requires |data| % CHUNK_SIZE != 0
    ensures SameTree(data, data + [Lit(0)])
  {
    var more := data + [Lit(0)];
    var n := ChunkCount(|data|);
    assert ChunkCount(|more|) == n;
    assert ZeroPad(data, CHUNK_SIZE * n) == ZeroPad(more, CHUNK_SIZE * n);
    assert Chunkify(data) == Chunkify(more);
  }
}
