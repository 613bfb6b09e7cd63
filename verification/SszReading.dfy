/** Reading values back out of their roots: digests are halves, integers are read byte by byte, and
    every leaf is where the specification puts it. */
module SszReading {
  import opened SymbolicBytes
  import opened Wrappers
  import opened Ssz
  import opened SszValues

  // Integers

  /** The number that literal bytes spell, least significant first. */
  function ReadLE(bs: Bytes): Option<nat> {
    if bs == [] then Some(0)
    else if bs[0].Digest? then None
    else
      match ReadLE(bs[1..])
      case None => None
      case Some(rest) => Some(bs[0].value + 256 * rest)
  }

  function LittleEndian(n: nat, width: nat): (r: Bytes)
    ensures |r| == width
  {
    seq(width, i requires 0 <= i < width => Lit(Digit(n, i)))
  }

  lemma {:induction false} ReadsBack(n: nat, width: nat)
    requires n < Pow256(width)
    ensures ReadLE(LittleEndian(n, width)) == Some(n)
    decreases width
  {
    var bs := LittleEndian(n, width);
    if width > 0 {
      assert bs[1..] == LittleEndian(n / 256, width - 1);
      assert bs[0] == Lit(n % 256);
      ReadsBack(n / 256, width - 1);
    }
  }

  /** The eight bytes of an integer read as it. */
  lemma {:induction false} Uint64BytesRead(n: int)
    requires InUint64(n)
    ensures ReadLE(Uint64Bytes(n)) == Some(n)
  {
    assert Pow256(4) == 0x1_0000_0000;
    assert Pow256(8) == 256 * (256 * (256 * (256 * Pow256(4))));
    ReadsBack(n, UINT64_SIZE);
    assert Uint64Bytes(n) == LittleEndian(n, UINT64_SIZE);
  }

  /** A chunk that holds the integer in its first eight bytes, and zeros after them. */
  predicate IsUint64Chunk(chunk: Bytes, n: int) {
    && |chunk| == CHUNK_SIZE
    && ReadLE(chunk[..UINT64_SIZE]) == Some(n)
    && forall i :: UINT64_SIZE <= i < CHUNK_SIZE ==> chunk[i] == Lit(0)
  }

  lemma {:induction false} PaddedUint64Reads(n: int)
    requires InUint64(n)
    ensures IsUint64Chunk(ZeroPad(Uint64Bytes(n), CHUNK_SIZE), n)
  {
    var chunk := ZeroPad(Uint64Bytes(n), CHUNK_SIZE);
    assert chunk[..UINT64_SIZE] == Uint64Bytes(n);
    Uint64BytesRead(n);
  }

  lemma {:induction false} Uint64Reads(n: int)
    requires InUint64(n)
    ensures IsUint64Chunk(HashTreeRoot(Uint64(n)), n)
  {
    PaddedUint64Reads(n);
  }

  lemma {:induction false} BoolReads(flag: bool)
    ensures HashTreeRoot(Bool(flag)) == [Lit(if flag then 1 else 0)] + Zeros(CHUNK_SIZE - 1)
  {
  }

  lemma SliceOfPrefix(a: Bytes, b: Bytes, i: nat, j: nat)
    requires i <= j <= |a|
    ensures (a + b)[i..j] == a[i..j]
  {
  }

  /** Part `i` of equally long parts joined. */
  lemma {:induction false} FlatSlice(parts: seq<Bytes>, i: nat)
    requires AllSized(parts, UINT64_SIZE) && i < |parts|
    ensures |Flat(parts)| == UINT64_SIZE * |parts|
    ensures Flat(parts)[UINT64_SIZE * i..UINT64_SIZE * i + UINT64_SIZE] == parts[i]
    decreases |parts|
  {
    var init, last := parts[..|parts| - 1], parts[|parts| - 1];
    FlatLength(parts, UINT64_SIZE);
    FlatLength(init, UINT64_SIZE);
    if i < |init| {
      FlatSlice(init, i);
      SliceOfPrefix(Flat(init), last, UINT64_SIZE * i, UINT64_SIZE * i + UINT64_SIZE);
    } else {
      assert Flat(parts)[|Flat(init)|..] == last;
    }
  }

  /** In a list of integers each takes eight bytes, in order. */
  lemma {:induction false} ConcatReads(ns: seq<int>, i: nat)
    requires i < |ns| && forall n <- ns :: InUint64(n)
    ensures |Uint64Concat(ns)| == UINT64_SIZE * |ns|
    ensures ReadLE(Uint64Concat(ns)[UINT64_SIZE * i..UINT64_SIZE * i + UINT64_SIZE]) == Some(ns[i])
  {
    FlatSlice(Words(ns), i);
    Uint64BytesRead(ns[i]);
  }

  // Opening digests

  /** The two chunks a digest was computed from. */
  function Opened(root: Bytes): (r: Option<(Bytes, Bytes)>)
    ensures r.Some? ==> |r.value.0| == |r.value.1| == CHUNK_SIZE
  {
    if |root| == CHUNK_SIZE && root[0].Digest? && |root[0].preimage| == 2 * CHUNK_SIZE
       && root == Sha256(root[0].preimage)
    then Some((root[0].preimage[..CHUNK_SIZE], root[0].preimage[CHUNK_SIZE..]))
    else None
  }

  lemma OpensDigest(a: Bytes, b: Bytes)
    requires |a| == |b| == CHUNK_SIZE
    ensures Opened(Sha256(a + b)) == Some((a, b))
  {
    assert Sha256(a + b)[0] == Digest(a + b, 0);
    assert (a + b)[..CHUNK_SIZE] == a && (a + b)[CHUNK_SIZE..] == b;
  }

  /** Leaf `k` of the tree of this depth under a root, found by opening digests on the way down. */
  function OpenLeaf(root: Bytes, depth: nat, k: nat): Option<Bytes>
    decreases depth
  {
    if depth == 0 then Some(root)
    else
      match Opened(root)
      case None => None
      case Some((left, right)) =>
        var half := Pow2(depth - 1);
        if k < half then OpenLeaf(left, depth - 1, k) else OpenLeaf(right, depth - 1, k - half)
  }

  lemma {:induction false} OpensLeaf(leaves: seq<Bytes>, depth: nat, k: nat)
    requires |leaves| == Pow2(depth) && AreChunks(leaves) && k < Pow2(depth)
    ensures OpenLeaf(FullRoot(leaves, depth), depth, k) == Some(leaves[k])
    decreases depth
  {
    if depth > 0 {
      var half := Pow2(depth - 1);
      FullRootIsChunk(leaves[..half], depth - 1);
      FullRootIsChunk(leaves[half..], depth - 1);
      OpensDigest(FullRoot(leaves[..half], depth - 1), FullRoot(leaves[half..], depth - 1));
      if k < half {
        OpensLeaf(leaves[..half], depth - 1, k);
      } else {
        OpensLeaf(leaves[half..], depth - 1, k - half);
      }
    }
  }

  /** The leaves of a tree with room for `capacity` chunks are the chunks, then zeros. */
  lemma {:induction false} OpensChunk(chunks: seq<Bytes>, capacity: nat, k: nat)
    requires |chunks| <= capacity && AreChunks(chunks) && k < Pow2(ListDepth(capacity))
    ensures OpenLeaf(ChunkTree(chunks, capacity), ListDepth(capacity), k)
            == Some(if k < |chunks| then chunks[k] else ZERO_CHUNK)
  {
    OpensLeaf(Pad(chunks, ZERO_CHUNK, Pow2(ListDepth(capacity))), ListDepth(capacity), k);
  }

  /** The tree and the count behind a list's root. */
  lemma {:induction false} MixInOpens(root: Bytes, count: nat)
    requires |root| == CHUNK_SIZE && count < UINT64_MODULUS
    ensures var halves := Opened(MixIn(root, count));
            halves.Some? && halves.value.0 == root && IsUint64Chunk(halves.value.1, count)
  {
    OpensDigest(root, ZeroPad(Uint64Bytes(count), CHUNK_SIZE));
    PaddedUint64Reads(count);
  }

  // Composite values

  /** What is found at place `k` of a container. */
  function FieldAt(root: Bytes, fields: nat, k: nat): Option<Bytes> {
    OpenLeaf(root, ListDepth(fields), k)
  }

  lemma {:induction false} ContainerOpens(fields: seq<Value>, k: nat)
    requires Fits(Container(fields)) && k < |fields|
    ensures FieldAt(HashTreeRoot(Container(fields)), |fields|, k) == Some(HashTreeRoot(fields[k]))
  {
    ContainerRoot(fields);
    OpensChunk(Roots(fields), |fields|, k);
  }

  /** What is found at place `k` of a list with room for `capacity` chunks. */
  function ItemAt(root: Bytes, capacity: nat, k: nat): Option<Bytes> {
    var halves := Opened(root);
    if halves.None? then None else OpenLeaf(halves.value.0, ListDepth(capacity), k)
  }

  function CountOf(root: Bytes): Option<nat> {
    var halves := Opened(root);
    if halves.None? then None else ReadLE(halves.value.1[..UINT64_SIZE])
  }

  lemma {:induction false} ListOpens(items: seq<Value>, max: nat, k: nat)
    requires Fits(List(items, max)) && k < Pow2(ListDepth(max))
    ensures var root := HashTreeRoot(List(items, max));
            && CountOf(root) == Some(|items|)
            && ItemAt(root, max, k) == Some(if k < |items| then HashTreeRoot(items[k]) else ZERO_CHUNK)
  {
    ListRoot(items, max);
    MixInOpens(ChunkTree(Roots(items), max), |items|);
    OpensChunk(Roots(items), max, k);
  }

  /** Byte `k` of data packed into chunks. */
  function ByteAt(leaf: Option<Bytes>, k: nat): Option<SymByte> {
    if leaf.Some? && k % CHUNK_SIZE < |leaf.value| then Some(leaf.value[k % CHUNK_SIZE]) else None
  }

  lemma {:induction false} ChunkOfByte(data: Bytes, capacity: nat, k: nat)
    requires k < |data| <= capacity
    ensures ChunkCount(|data|) <= ChunkCount(capacity)
    ensures k / CHUNK_SIZE < Pow2(ListDepth(ChunkCount(capacity)))
    ensures ByteAt(OpenLeaf(ChunkTree(Chunkify(data), ChunkCount(capacity)), ListDepth(ChunkCount(capacity)),
                            k / CHUNK_SIZE), k) == Some(data[k])
  {
    ChunkByte(data, k);
    OpensChunk(Chunkify(data), ChunkCount(capacity), k / CHUNK_SIZE);
  }

  lemma {:induction false} VectorOpens(data: Bytes, k: nat)
    requires k < |data|
    ensures ByteAt(FieldAt(HashTreeRoot(ByteVector(data)), ChunkCount(|data|), k / CHUNK_SIZE), k) == Some(data[k])
  {
    ChunkOfByte(data, |data|, k);
  }

  lemma {:induction false} ByteListOpens(data: Bytes, max: nat, k: nat)
    requires Fits(ByteList(data, max)) && k < |data|
    ensures var root := HashTreeRoot(ByteList(data, max));
            && CountOf(root) == Some(|data|)
            && ByteAt(ItemAt(root, ChunkCount(max), k / CHUNK_SIZE), k) == Some(data[k])
  {
    MixInOpens(ChunkTree(Chunkify(data), ChunkCount(max)), |data|);
    ChunkOfByte(data, max, k);
  }

  lemma WordByte(data: Bytes, i: nat, j: nat)
    requires 8 * i + 8 <= |data| && j < 8
    ensures i / 4 < |Chunkify(data)| && Chunkify(data)[i / 4][8 * (i % 4) + j] == data[8 * i + j]
  {
    assert 8 * i + j == CHUNK_SIZE * (i / 4) + (8 * (i % 4) + j);
    assert (8 * i + j) / CHUNK_SIZE == i / 4 && (8 * i + j) % CHUNK_SIZE == 8 * (i % 4) + j;
    ChunkByte(data, 8 * i + j);
  }

  lemma WordInChunk(data: Bytes, i: nat)
    requires 8 * i + 8 <= |data|
    ensures i / 4 < |Chunkify(data)|
    ensures Chunkify(data)[i / 4][8 * (i % 4)..8 * (i % 4) + 8] == data[8 * i..8 * i + 8]
  {
    WordByte(data, i, 0);
    var a, b := Chunkify(data)[i / 4][8 * (i % 4)..8 * (i % 4) + 8], data[8 * i..8 * i + 8];
    forall j | 0 <= j < 8
      ensures a[j] == b[j]
    {
      WordByte(data, i, j);
    }
  }

  /** Integer `i` of a packed list: four to a chunk. */
  lemma {:induction false} Uint64ListOpens(ns: seq<int>, max: nat, i: nat)
    requires Fits(Uint64List(ns, max)) && i < |ns|
    ensures var root := HashTreeRoot(Uint64List(ns, max));
            var leaf := ItemAt(root, ChunkCount(max * UINT64_SIZE), i / 4);
            && CountOf(root) == Some(|ns|)
            && leaf.Some? && |leaf.value| == CHUNK_SIZE
            && ReadLE(leaf.value[8 * (i % 4)..8 * (i % 4) + 8]) == Some(ns[i])
  {
    var data, capacity := Uint64Concat(ns), ChunkCount(max * UINT64_SIZE);
    MixInOpens(ChunkTree(Chunkify(data), capacity), |ns|);
    ConcatReads(ns, i);
    OpensChunk(Chunkify(data), capacity, i / 4);
    WordInChunk(data, i);
  }
}
