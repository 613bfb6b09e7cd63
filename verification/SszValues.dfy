/** SSZ values and their hash tree roots, as the recursive specification defines them, and the proof
    that a root determines its value among values of one shape. */
module SszValues {
  import opened SymbolicBytes
  import opened Ssz

  const UINT64_SIZE: nat := 8

  /** A value to hash. `Invalid` stands for a field the program refuses before hashing it. */
  datatype Value =
    | Uint64(number: int)
    | Bool(flag: bool)
    | ByteVector(data: Bytes)
    | ByteList(data: Bytes, max: nat)
    | Uint64List(numbers: seq<int>, max: nat)
    | Container(fields: seq<Value>)
    | List(items: seq<Value>, max: nat)
    | Invalid

  // Integers

  /** Base-256 digit `i`, counting from the least significant. */
  function Digit(n: nat, i: nat): byte
    decreases i
  {
    if i == 0 then n % 256 else Digit(n / 256, i - 1)
  }

  function Pow256(n: nat): (p: nat)
    ensures p > 0
  {
    if n == 0 then 1 else 256 * Pow256(n - 1)
  }

  lemma {:induction false} DigitsDetermine(a: nat, b: nat, width: nat)
    requires a < Pow256(width) && b < Pow256(width)
    requires forall i :: 0 <= i < width ==> Digit(a, i) == Digit(b, i)
    ensures a == b
    decreases width
  {
    if width > 0 {
      assert Digit(a, 0) == Digit(b, 0);
      forall i | 0 <= i < width - 1
        ensures Digit(a / 256, i) == Digit(b / 256, i)
      {
        assert Digit(a, i + 1) == Digit(b, i + 1);
      }
      DigitsDetermine(a / 256, b / 256, width - 1);
    }
  }

  predicate InUint64(n: int) {
    0 <= n < UINT64_MODULUS
  }

  /** Little-endian. */
  function Uint64Bytes(n: int): (r: Bytes)
    requires InUint64(n)
    ensures |r| == UINT64_SIZE
  {
    seq(UINT64_SIZE, i requires 0 <= i < UINT64_SIZE => Lit(Digit(n, i)))
  }

  lemma {:induction false} Uint64BytesInjective(a: int, b: int)
    requires InUint64(a) && InUint64(b) && Uint64Bytes(a) == Uint64Bytes(b)
    ensures a == b
  {
    assert Pow256(4) == 0x1_0000_0000;
    assert Pow256(8) == 256 * (256 * (256 * (256 * Pow256(4))));
    forall i | 0 <= i < UINT64_SIZE
      ensures Digit(a, i) == Digit(b, i)
    {
      assert Uint64Bytes(a)[i] == Lit(Digit(a, i)) && Uint64Bytes(b)[i] == Lit(Digit(b, i));
    }
    DigitsDetermine(a, b, UINT64_SIZE);
  }

  ghost predicate AllSized(parts: seq<Bytes>, n: nat) {
    forall i :: 0 <= i < |parts| ==> |parts[i]| == n
  }

  function Flat(parts: seq<Bytes>): Bytes
    decreases |parts|
  {
    if parts == [] then [] else Flat(parts[..|parts| - 1]) + parts[|parts| - 1]
  }

  lemma {:induction false} FlatLength(parts: seq<Bytes>, n: nat)
    requires AllSized(parts, n)
    ensures |Flat(parts)| == n * |parts|
    decreases |parts|
  {
    if parts != [] {
      FlatLength(parts[..|parts| - 1], n);
    }
  }

  lemma {:induction false} FlatOneMore(parts: seq<Bytes>, part: Bytes)
    ensures Flat(parts + [part]) == Flat(parts) + part
  {
    assert (parts + [part])[..|parts|] == parts;
  }

  lemma {:induction false} SameSplit(a: Bytes, x: Bytes, b: Bytes, y: Bytes)
    requires |a| == |b| && a + x == b + y
    ensures a == b && x == y
  {
    assert a == (a + x)[..|a|] && b == (b + y)[..|b|];
    assert x == (a + x)[|a|..] && y == (b + y)[|b|..];
  }

  lemma {:induction false} FlatInjective(a: seq<Bytes>, b: seq<Bytes>, n: nat)
    requires |a| == |b| && AllSized(a, n) && AllSized(b, n) && Flat(a) == Flat(b)
    ensures a == b
    decreases |a|
  {
    if a != [] {
      var last := |a| - 1;
      FlatLength(a[..last], n);
      FlatLength(b[..last], n);
      SameSplit(Flat(a[..last]), a[last], Flat(b[..last]), b[last]);
      FlatInjective(a[..last], b[..last], n);
      assert a == a[..last] + [a[last]] && b == b[..last] + [b[last]];
    }
  }

  function Words(ns: seq<int>): (r: seq<Bytes>)
    requires forall n <- ns :: InUint64(n)
    ensures |r| == |ns| && AllSized(r, UINT64_SIZE)
    ensures forall i :: 0 <= i < |ns| ==> r[i] == Uint64Bytes(ns[i])
  {
    seq(|ns|, i requires 0 <= i < |ns| => Uint64Bytes(ns[i]))
  }

  function Uint64Concat(ns: seq<int>): (r: Bytes)
    requires forall n <- ns :: InUint64(n)
    ensures |r| == UINT64_SIZE * |ns|
  {
    FlatLength(Words(ns), UINT64_SIZE);
    Flat(Words(ns))
  }

  lemma {:induction false} Uint64ConcatInjective(a: seq<int>, b: seq<int>)
    requires |a| == |b| && (forall n <- a :: InUint64(n)) && (forall n <- b :: InUint64(n))
    requires Uint64Concat(a) == Uint64Concat(b)
    ensures a == b
  {
    FlatInjective(Words(a), Words(b), UINT64_SIZE);
    forall i | 0 <= i < |a|
      ensures a[i] == b[i]
    {
      assert Words(a)[i] == Words(b)[i];
      Uint64BytesInjective(a[i], b[i]);
    }
  }

  // Roots

  function ListDepth(chunks: nat): (d: nat)
    ensures chunks <= Pow2(d)
  {
    DepthIsLeast(chunks);
    ChunkCountDepth(chunks)
  }

  function MixIn(root: Bytes, count: nat): Bytes
    requires count < UINT64_MODULUS
  {
    Sha256(root + ZeroPad(Uint64Bytes(count), CHUNK_SIZE))
  }

  predicate Fits(v: Value) {
    match v
    case Uint64(n) => InUint64(n)
    case Bool(_) => true
    case ByteVector(_) => true
    case ByteList(data, max) => |data| <= max < UINT64_MODULUS
    case Uint64List(ns, max) => |ns| <= max < UINT64_MODULUS && forall n <- ns :: InUint64(n)
    case Container(fields) => forall f <- fields :: Fits(f)
    case List(items, max) => |items| <= max < UINT64_MODULUS && forall i <- items :: Fits(i)
    case Invalid => false
  }

  /** The root of the chunks in the least tree with room for `capacity` of them. */
  function ChunkTree(chunks: seq<Bytes>, capacity: nat): (root: Bytes)
    requires |chunks| <= capacity && AreChunks(chunks)
    ensures |root| == CHUNK_SIZE
  {
    FullRootIsChunk(Pad(chunks, ZERO_CHUNK, Pow2(ListDepth(capacity))), ListDepth(capacity));
    TreeRoot(chunks, ListDepth(capacity))
  }

  /** A vector is packed into chunks; a list is packed into a tree sized for its capacity, with its
      length mixed in; a container is the tree of its fields' roots. */
  function HashTreeRoot(v: Value): (root: Bytes)
    requires Fits(v)
    ensures |root| == CHUNK_SIZE
  {
    match v
    case Uint64(n) => ZeroPad(Uint64Bytes(n), CHUNK_SIZE)
    case Bool(flag) => ZeroPad([Lit(if flag then 1 else 0)], CHUNK_SIZE)
    case ByteVector(data) => ChunkTree(Chunkify(data), ChunkCount(|data|))
    case ByteList(data, max) => MixIn(ChunkTree(Chunkify(data), ChunkCount(max)), |data|)
    case Uint64List(ns, max) => MixIn(ChunkTree(Chunkify(Uint64Concat(ns)), ChunkCount(max * UINT64_SIZE)), |ns|)
    case Container(fields) =>
      ChunkTree(seq(|fields|, i requires 0 <= i < |fields| => HashTreeRoot(fields[i])), |fields|)
    case List(items, max) =>
      MixIn(ChunkTree(seq(|items|, i requires 0 <= i < |items| => HashTreeRoot(items[i])), max), |items|)
  }

  function Roots(vs: seq<Value>): (r: seq<Bytes>)
    requires forall v <- vs :: Fits(v)
    ensures |r| == |vs| && AreChunks(r)
    ensures forall i :: 0 <= i < |vs| ==> r[i] == HashTreeRoot(vs[i])
  {
    seq(|vs|, i requires 0 <= i < |vs| => HashTreeRoot(vs[i]))
  }

  lemma {:induction false} ContainerRoot(fields: seq<Value>)
    requires Fits(Container(fields))
    ensures HashTreeRoot(Container(fields)) == ChunkTree(Roots(fields), |fields|)
  {
    assert seq(|fields|, i requires 0 <= i < |fields| => HashTreeRoot(Container(fields).fields[i])) == Roots(fields);
  }

  lemma {:induction false} ListRoot(items: seq<Value>, max: nat)
    requires Fits(List(items, max))
    ensures HashTreeRoot(List(items, max)) == MixIn(ChunkTree(Roots(items), max), |items|)
  {
    assert seq(|items|, i requires 0 <= i < |items| => HashTreeRoot(List(items, max).items[i])) == Roots(items);
  }

  // Binding

  /** Two values of one SSZ type: the same fields, in the same order, with the same capacities. */
  predicate SameShape(a: Value, b: Value) {
    match (a, b)
    case (Uint64(_), Uint64(_)) => true
    case (Bool(_), Bool(_)) => true
    case (ByteVector(x), ByteVector(y)) => |x| == |y|
    case (ByteList(_, m), ByteList(_, n)) => m == n
    case (Uint64List(_, m), Uint64List(_, n)) => m == n
    case (Container(fs), Container(gs)) => |fs| == |gs| && forall i :: 0 <= i < |fs| ==> SameShape(fs[i], gs[i])
    case (List(xs, m), List(ys, n)) =>
      m == n && forall i :: 0 <= i < |xs| && i < |ys| ==> SameShape(xs[i], ys[i])
    case _ => false
  }

  lemma {:induction false} PaddedUint64Injective(m: int, n: int)
    requires InUint64(m) && InUint64(n)
    requires ZeroPad(Uint64Bytes(m), CHUNK_SIZE) == ZeroPad(Uint64Bytes(n), CHUNK_SIZE)
    ensures m == n
  {
    assert Uint64Bytes(m) == ZeroPad(Uint64Bytes(m), CHUNK_SIZE)[..UINT64_SIZE];
    assert Uint64Bytes(n) == ZeroPad(Uint64Bytes(n), CHUNK_SIZE)[..UINT64_SIZE];
    Uint64BytesInjective(m, n);
  }

  lemma {:induction false} MixInInjective(r: Bytes, m: nat, s: Bytes, n: nat)
    requires m < UINT64_MODULUS && n < UINT64_MODULUS && |r| == |s| && MixIn(r, m) == MixIn(s, n)
    ensures r == s && m == n
  {
    DigestHalves(r, ZeroPad(Uint64Bytes(m), CHUNK_SIZE), s, ZeroPad(Uint64Bytes(n), CHUNK_SIZE));
    PaddedUint64Injective(m, n);
  }

  lemma {:induction false} ChunkTreeInjective(a: seq<Bytes>, b: seq<Bytes>, capacity: nat)
    requires |a| == |b| <= capacity && AreChunks(a) && AreChunks(b)
    requires ChunkTree(a, capacity) == ChunkTree(b, capacity)
    ensures a == b
  {
    var d := ListDepth(capacity);
    TreeRootInjective(a, b, d);
    assert a == Pad(a, ZERO_CHUNK, Pow2(d))[..|a|] && b == Pad(b, ZERO_CHUNK, Pow2(d))[..|a|];
  }

  lemma {:induction false} ChunkByte(data: Bytes, k: nat)
    requires k < |data|
    ensures k / CHUNK_SIZE < |Chunkify(data)| && Chunkify(data)[k / CHUNK_SIZE][k % CHUNK_SIZE] == data[k]
  {
    var padded := ZeroPad(data, PaddedLength(|data|));
    var i := k / CHUNK_SIZE;
    assert Chunkify(data)[i] == padded[CHUNK_SIZE * i..CHUNK_SIZE * (i + 1)];
  }

  lemma {:induction false} ChunkifyInjective(a: Bytes, b: Bytes)
    requires |a| == |b| && Chunkify(a) == Chunkify(b)
    ensures a == b
  {
    forall k | 0 <= k < |a|
      ensures a[k] == b[k]
    {
      ChunkByte(a, k);
      ChunkByte(b, k);
    }
  }

  lemma {:induction false} ByteListBinds(a: Bytes, b: Bytes, max: nat)
    requires |a| <= max < UINT64_MODULUS && |b| <= max
    requires HashTreeRoot(ByteList(a, max)) == HashTreeRoot(ByteList(b, max))
    ensures a == b
  {
    var x, y := ChunkTree(Chunkify(a), ChunkCount(max)), ChunkTree(Chunkify(b), ChunkCount(max));
    MixInInjective(x, |a|, y, |b|);
    ChunkTreeInjective(Chunkify(a), Chunkify(b), ChunkCount(max));
    ChunkifyInjective(a, b);
  }

  lemma {:induction false} Uint64ListBinds(a: seq<int>, b: seq<int>, max: nat)
    requires Fits(Uint64List(a, max)) && Fits(Uint64List(b, max))
    requires HashTreeRoot(Uint64List(a, max)) == HashTreeRoot(Uint64List(b, max))
    ensures a == b
  {
    var p, q := Uint64Concat(a), Uint64Concat(b);
    var capacity := ChunkCount(max * UINT64_SIZE);
    MixInInjective(ChunkTree(Chunkify(p), capacity), |a|, ChunkTree(Chunkify(q), capacity), |b|);
    ChunkTreeInjective(Chunkify(p), Chunkify(q), capacity);
    ChunkifyInjective(p, q);
    Uint64ConcatInjective(a, b);
  }

  /** Among values of one shape, the root determines the value. */
  lemma {:induction false} RootBinds(a: Value, b: Value)
    requires SameShape(a, b) && Fits(a) && Fits(b) && HashTreeRoot(a) == HashTreeRoot(b)
    ensures a == b
    decreases a
  {
    match (a, b)
    case (Uint64(m), Uint64(n)) =>
      PaddedUint64Injective(m, n);
    case (Bool(_), Bool(_)) =>
      assert HashTreeRoot(a)[0] == HashTreeRoot(b)[0];
    case (ByteVector(x), ByteVector(y)) =>
      ChunkTreeInjective(Chunkify(x), Chunkify(y), ChunkCount(|x|));
      ChunkifyInjective(x, y);
    case (ByteList(x, m), ByteList(y, _)) =>
      ByteListBinds(x, y, m);
    case (Uint64List(x, m), Uint64List(y, _)) =>
      Uint64ListBinds(x, y, m);
    case (Container(fs), Container(gs)) =>
      ContainerRoot(fs);
      ContainerRoot(gs);
      ChunkTreeInjective(Roots(fs), Roots(gs), |fs|);
      forall i | 0 <= i < |fs|
        ensures fs[i] == gs[i]
      {
        assert Roots(fs)[i] == Roots(gs)[i];
        RootBinds(fs[i], gs[i]);
      }
    case (List(xs, m), List(ys, _)) =>
      ListRoot(xs, m);
      ListRoot(ys, m);
      MixInInjective(ChunkTree(Roots(xs), m), |xs|, ChunkTree(Roots(ys), m), |ys|);
      ChunkTreeInjective(Roots(xs), Roots(ys), m);
      forall i | 0 <= i < |xs|
        ensures xs[i] == ys[i]
      {
        assert Roots(xs)[i] == Roots(ys)[i];
        RootBinds(xs[i], ys[i]);
      }
  }

  /** A byte vector's root is what hashing an encoding of its bytes gives. */
  lemma ByteVectorRoot(data: Bytes)
    ensures HashTreeRoot(ByteVector(data)) == HashProto(data)
  {
    HashProtoIsTreeRoot(data);
  }
}
