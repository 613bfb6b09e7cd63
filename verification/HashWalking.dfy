/** The incremental hasher: one buffer of chunks that nested containers and lists are collapsed in. */
module HashWalking {
  import opened SymbolicBytes
  import opened Wrappers
  import opened Ssz
  import opened SszValues

  type WalkResult = Result<(), ValueError>

  function Padded(data: Bytes): (r: Bytes)
    ensures |r| == PaddedLength(|data|)
  {
    ZeroPad(data, PaddedLength(|data|))
  }

  function ChunksFrom(data: Bytes): Result<seq<Bytes>, ValueError> {
    if |data| % CHUNK_SIZE != 0 then Failure(Misaligned) else Success(Chunkify(data))
  }

  function CalculateLimit(maxCapacity: nat, numItems: nat, itemSize: nat): (limit: nat)
    ensures limit > 0
  {
    var limit := ChunkCount(maxCapacity * itemSize);
    if limit != 0 then limit else if numItems != 0 then numItems else 1
  }

  lemma {:induction false} Pow2Sum(a: nat, b: nat)
    ensures Pow2(a + b) == Pow2(a) * Pow2(b)
  {
    if a > 0 {
      Pow2Sum(a - 1, b);
    }
  }

  lemma TableSize()
    ensures Pow2(MAX_DEPTH) == UINT64_MODULUS
  {
    assert Pow2(8) == 0x100;
    Pow2Sum(8, 8);
    Pow2Sum(16, 16);
    Pow2Sum(32, 32);
  }

  lemma LimitFromCapacity(maxCapacity: nat, count: nat)
    requires maxCapacity < UINT64_MODULUS && (maxCapacity == 0 ==> count <= Pow2(MAX_DEPTH))
    ensures CalculateLimit(maxCapacity, count, UINT64_SIZE) <= Pow2(MAX_DEPTH)
    ensures maxCapacity > 0 ==> CalculateLimit(maxCapacity, count, UINT64_SIZE) == ChunkCount(maxCapacity * UINT64_SIZE)
  {
    TableSize();
  }

  function Uint64ListRoot(values: seq<int>, limit: nat): Bytes
    requires (forall n <- values :: InUint64(n)) && |values| < UINT64_MODULUS
    requires ChunkCount(|values| * UINT64_SIZE) <= limit
  {
    MixIn(ChunkTree(Chunkify(Uint64Concat(values)), limit), |values|)
  }

  lemma ConcatOneMore(values: seq<int>, i: nat)
    requires i < |values| && (forall n <- values[..i] :: InUint64(n)) && InUint64(values[i])
    ensures forall n <- values[..i + 1] :: InUint64(n)
    ensures Uint64Concat(values[..i + 1]) == Uint64Concat(values[..i]) + Uint64Bytes(values[i])
  {
    assert values[..i + 1] == values[..i] + [values[i]];
    assert Words(values[..i + 1]) == Words(values[..i]) + [Uint64Bytes(values[i])];
    FlatOneMore(Words(values[..i]), Uint64Bytes(values[i]));
  }

  lemma AlignedChunks(padded: Bytes, data: Bytes)
    requires padded == Padded(data)
    ensures Chunkify(padded) == Chunkify(data)
  {
    assert PaddedLength(|padded|) == |padded|;
    assert ZeroPad(padded, |padded|) == padded;
  }

  lemma PaddedChunks(data: Bytes)
    ensures ChunksFrom(Padded(data)) == Success(Chunkify(data))
  {
    AlignedChunks(Padded(data), data);
  }

  /** Filling up an aligned buffer to which `data` was appended pads the data. */
  lemma RegionFilled(before: Bytes, data: Bytes)
    requires |before| % CHUNK_SIZE == 0
    ensures Padded(before + data) == before + Padded(data)
    ensures Padded(before + data)[|before|..] == Padded(data)
    ensures ChunksFrom(Padded(before + data)[|before|..]) == Success(Chunkify(data))
  {
    PaddedChunks(data);
    assert Padded(before + data) == before + Padded(data);
  }

  /** The check on the number of integers in a list, which is made in chunks. */
  predicate AcceptsCount(count: nat, max: nat) {
    ChunkCount(count * UINT64_SIZE) <= CalculateLimit(max, count, UINT64_SIZE)
  }

  /** A complaint about a value, as opposed to a walk that was left unbalanced. */
  predicate FromContent(e: ValueError) {
    e.TooManyChunks? || e.OutOfRange? || e.TooLong? || e.BadAddress?
  }

  predicate InChunks(data: Bytes) {
    |data| % CHUNK_SIZE == 0
  }

  ghost predicate StaysAligned(before: Bytes, after: Bytes) {
    InChunks(before) ==> InChunks(after)
  }

  /** What appending a value does: it raises exactly when the value does not fit its type, and
      otherwise adds one chunk, the value's root. */
  ghost predicate Put(before: Bytes, after: Bytes, r: WalkResult, v: Value) {
    && (r.Success? <==> Fits(v))
    && (r.Failure? ==> FromContent(r.error))
    && (r.Success? ==> after == before + HashTreeRoot(v) && StaysAligned(before, after))
  }

  lemma OneMoreChunk(before: Bytes)
    ensures forall root: Bytes :: |root| == CHUNK_SIZE ==> StaysAligned(before, before + root)
  {
  }

  lemma PaddedOnce(data: Bytes)
    ensures |data| % CHUNK_SIZE == 0 ==> Padded(data) == data
    ensures Padded(Padded(data)) == Padded(data)
  {
  }

  lemma ShortVector(data: Bytes)
    requires |data| <= CHUNK_SIZE
    ensures Padded(data) == if data == [] then [] else HashTreeRoot(ByteVector(data))
  {
    if data != [] {
      var padded := Padded(data);
      assert PaddedLength(|data|) == CHUNK_SIZE;
      assert padded[CHUNK_SIZE * 0..CHUNK_SIZE * 1] == padded;
      assert Chunkify(data)[0] == padded;
      assert ChunkCountDepth(1) == 0;
    }
  }

  /** Data appended in whole chunks is found again as its chunks. */
  lemma AppendedData(before: Bytes, data: Bytes)
    ensures (before + Padded(data))[..|before|] == before
    ensures ChunksFrom((before + Padded(data))[|before|..]) == Success(Chunkify(data))
  {
    PaddedChunks(data);
    assert (before + Padded(data))[|before|..] == Padded(data);
  }

  class HashWalker {
    var buffer: Bytes

    constructor ()
      ensures buffer == []
    {
      buffer := [];
    }

    function Index(): nat
      reads this
    {
      |buffer|
    }

    ghost predicate Aligned()
      reads this
    {
      InChunks(buffer)
    }

    method AppendBytes32(data: Bytes)
      modifies this
      ensures buffer == old(buffer) + Padded(data)
    {
      buffer := buffer + data;
      var remainder := |data| % CHUNK_SIZE;
      if remainder != 0 {
        buffer := buffer + Zeros(CHUNK_SIZE - remainder);
      }
    }

    method FillUpTo32()
      modifies this
      ensures buffer == Padded(old(buffer))
    {
      var remainder := |buffer| % CHUNK_SIZE;
      if remainder != 0 {
        buffer := buffer + Zeros(CHUNK_SIZE - remainder);
      }
    }

    /** Replaces everything appended since `start` with its root. */
    method Merkleize(start: nat) returns (r: WalkResult)
      requires start <= |buffer| <= start + Pow2(MAX_DEPTH)
      modifies this
      ensures match ChunksFrom(old(buffer)[start..])
              case Failure(e) => r == Failure(e) && buffer == old(buffer)
              case Success(chunks) =>
                r.Success? && buffer == old(buffer)[..start] + ChunkTree(chunks, |chunks|)
    {
      var chunks :- ChunksFrom(buffer[start..]);
      var root := Ssz.Merkleize(chunks, 0);
      buffer := buffer[..start];
      buffer := buffer + root.value;
      r := Success(());
    }

    /** Replaces everything appended since `start` with its root, a count mixed in. */
    method MerkleizeWithMixin(start: nat, num: nat, limit: nat) returns (r: WalkResult)
      requires start <= |buffer| && limit <= Pow2(MAX_DEPTH)
      requires limit == 0 ==> |Padded(buffer)| <= start + Pow2(MAX_DEPTH)
      modifies this
      ensures match ChunksFrom(Padded(old(buffer))[start..])
              case Failure(e) => r == Failure(e)
              case Success(chunks) =>
                if limit != 0 && |chunks| > limit then r == Failure(TooManyChunks)
                else if num >= UINT64_MODULUS then r == Failure(OutOfRange)
                else
                  && r.Success?
                  && buffer == old(buffer)[..start] + MixIn(ChunkTree(chunks, SizedFor(|chunks|, limit)), num)
    {
      FillUpTo32();
      var chunks :- ChunksFrom(buffer[start..]);
      var root :- Ssz.Merkleize(chunks, limit);
      if num >= UINT64_MODULUS {
        return Failure(OutOfRange);
      }
      var mixin := ZeroPad(Uint64Bytes(num), CHUNK_SIZE);
      assert buffer[..start] == old(buffer)[..start];
      buffer := buffer[..start];
      buffer := buffer + Sha256(root + mixin);
      r := Success(());
    }

    /** The root, once the walk has collapsed to a single chunk. */
    method HashRoot() returns (r: Result<Bytes, ValueError>)
      ensures r == if |buffer| == CHUNK_SIZE then Success(buffer) else Failure(Incomplete)
    {
      if |buffer| != CHUNK_SIZE {
        return Failure(Incomplete);
      }
      r := Success(buffer);
    }

    /** Appends at most one chunk; an empty string appends nothing. */
    method PutBytes(data: Bytes) returns (r: WalkResult)
      requires |data| <= Pow2(MAX_DEPTH) - CHUNK_SIZE
      modifies this
      ensures r.Success?
      ensures buffer == old(buffer) + if data == [] then [] else HashTreeRoot(ByteVector(data))
      ensures StaysAligned(old(buffer), buffer)
    {
      OneMoreChunk(buffer);
      if |data| <= CHUNK_SIZE {
        AppendBytes32(data);
        ShortVector(data);
        return Success(());
      }
      var start := Index();
      AppendedData(buffer, data);
      AppendBytes32(data);
      r := Merkleize(start);
    }

    method PutUint64(value: int) returns (r: WalkResult)
      modifies this
      ensures Put(old(buffer), buffer, r, Uint64(value))
    {
      if !InUint64(value) {
        return Failure(OutOfRange);
      }
      AppendBytes32(Uint64Bytes(value));
      r := Success(());
    }

    method PutBool(value: bool)
      modifies this
      ensures buffer == old(buffer) + HashTreeRoot(Bool(value)) && StaysAligned(old(buffer), buffer)
    {
      OneMoreChunk(buffer);
      AppendBytes32([Lit(if value then 1 else 0)]);
    }

    /** `MerkleizeWithMixin`, told what was appended since `start`. */
    method CloseList(start: nat, num: nat, limit: nat, ghost before: Bytes, ghost data: Bytes) returns (r: WalkResult)
      requires start == |before| && |before| % CHUNK_SIZE == 0
      requires limit <= Pow2(MAX_DEPTH) && (limit == 0 ==> data == [])
      requires before <= buffer && Padded(buffer) == Padded(before + data)
      modifies this
      ensures r.Success? <==> ChunkCount(|data|) <= limit && num < UINT64_MODULUS
      ensures r.Success? ==> buffer == before + MixIn(ChunkTree(Chunkify(data), limit), num) && Aligned()
      ensures r.Failure? ==> FromContent(r.error)
    {
      OneMoreChunk(before);
      RegionFilled(before, data);
      assert Padded(buffer)[start..] == Padded(data) && buffer[..start] == before;
      r := MerkleizeWithMixin(start, num, limit);
    }

    /** Appends the integers back to back, and counts them. */
    method AppendUint64s(values: seq<int>) returns (r: Result<nat, ValueError>)
      modifies this
      ensures r.Success? <==> forall n <- values :: InUint64(n)
      ensures r.Success? ==> r.value == |values| && buffer == old(buffer) + Uint64Concat(values)
      ensures r.Failure? ==> r.error == OutOfRange
    {
      var count := 0;
      ghost var before := buffer;
      while count < |values|
        invariant count <= |values| && forall n <- values[..count] :: InUint64(n)
        invariant buffer == before + Uint64Concat(values[..count])
      {
        if !InUint64(values[count]) {
          return Failure(OutOfRange);
        }
        ConcatOneMore(values, count);
        buffer := buffer + Uint64Bytes(values[count]);
        count := count + 1;
      }
      assert values[..count] == values;
      r := Success(count);
    }

    /** Appends a list of integers as one chunk. The capacity is counted in whole chunks, so the
        limit on the number of items is exact only when the items fill their last chunk. */
    method PutUint64Array(values: seq<int>, maxCapacity: nat) returns (r: WalkResult)
      requires Aligned() && maxCapacity < UINT64_MODULUS
      requires maxCapacity == 0 ==> |values| <= Pow2(MAX_DEPTH)
      modifies this
      ensures r.Success? <==> (forall n <- values :: InUint64(n)) && |values| < UINT64_MODULUS
                              && AcceptsCount(|values|, maxCapacity)
      ensures r.Success? ==>
                && buffer == old(buffer) + Uint64ListRoot(values, CalculateLimit(maxCapacity, |values|, UINT64_SIZE))
                && Aligned()
      ensures r.Failure? ==> FromContent(r.error)
    {
      var start := Index();
      ghost var before := buffer;
      var count :- AppendUint64s(values);
      FillUpTo32();
      LimitFromCapacity(maxCapacity, count);
      PaddedOnce(before + Uint64Concat(values));
      r := CloseList(start, count, CalculateLimit(maxCapacity, count, UINT64_SIZE), before, Uint64Concat(values));
    }
  }

  lemma CapacityInChunks(count: nat, max: nat)
    requires max % 4 == 0
    ensures ChunkCount(count * UINT64_SIZE) <= ChunkCount(max * UINT64_SIZE) <==> count <= max
  {
    var q := max / 4;
    assert max * UINT64_SIZE == CHUNK_SIZE * q;
  }

  /** The check limits the items to `max` exactly when that many fill their last chunk, and are not
      none: one more slips through otherwise. */
  lemma WholeChunkCapacity(max: nat)
    ensures (forall count: nat :: AcceptsCount(count, max) <==> count <= max) <==> max > 0 && max % 4 == 0
  {
    if max > 0 && max % 4 == 0 {
      forall count: nat
        ensures AcceptsCount(count, max) <==> count <= max
      {
        CapacityInChunks(count, max);
      }
    } else {
      assert AcceptsCount(max + 1, max);
    }
  }

  lemma ListRootOf(values: seq<int>, max: nat, limit: nat)
    requires (forall n <- values :: InUint64(n)) && |values| <= max < UINT64_MODULUS
    requires limit == ChunkCount(max * UINT64_SIZE) >= ChunkCount(|values| * UINT64_SIZE)
    ensures Uint64ListRoot(values, limit) == HashTreeRoot(Uint64List(values, max))
  {
  }

  /** With such a capacity a list of integers is put like any other value. */
  lemma ExactCapacityPut(values: seq<int>, max: nat, limit: nat, before: Bytes, after: Bytes, r: WalkResult)
    requires 0 < max < UINT64_MODULUS && max % 4 == 0 && limit == CalculateLimit(max, |values|, UINT64_SIZE)
    requires r.Success? <==> (forall n <- values :: InUint64(n)) && |values| < UINT64_MODULUS
                             && AcceptsCount(|values|, max)
    requires r.Success? ==> after == before + Uint64ListRoot(values, limit) && InChunks(after)
    requires r.Failure? ==> FromContent(r.error)
    ensures Put(before, after, r, Uint64List(values, max))
  {
    LimitFromCapacity(max, |values|);
    CapacityInChunks(|values|, max);
    if r.Success? {
      ListRootOf(values, max, limit);
    }
  }

  method PutByteList(walker: HashWalker, data: Bytes, max: nat) returns (r: WalkResult)
    requires walker.Aligned() && max < UINT64_MODULUS
    modifies walker
    ensures Put(old(walker.buffer), walker.buffer, r, ByteList(data, max))
  {
    if |data| > max {
      return Failure(TooLong);
    }
    var start := walker.Index();
    ghost var before := walker.buffer;
    walker.AppendBytes32(data);
    RegionFilled(before, data);
    PaddedOnce(before + Padded(data));
    TableSize();
    r := walker.CloseList(start, |data|, (max + CHUNK_SIZE - 1) / CHUNK_SIZE, before, data);
  }

  /** A value of a fixed size: a short one is padded on the left, a long one refused. */
  function Fixed(data: Bytes, size: nat): Value {
    if |data| > size then Invalid else ByteVector(Zeros(size - |data|) + data)
  }

  method PutBytesN(walker: HashWalker, data: Bytes, size: nat) returns (r: WalkResult)
    requires 0 < size < UINT64_MODULUS - CHUNK_SIZE
    modifies walker
    ensures Put(old(walker.buffer), walker.buffer, r, Fixed(data, size))
  {
    if |data| > size {
      return Failure(TooLong);
    }
    TableSize();
    r := walker.PutBytes(Zeros(size - |data|) + data);
  }

  // Several values in a row

  ghost predicate AllFit(vs: seq<Value>) {
    forall i :: 0 <= i < |vs| ==> Fits(vs[i])
  }

  function FlatRoots(vs: seq<Value>): (r: Bytes)
    requires AllFit(vs)
    ensures |r| == CHUNK_SIZE * |vs|
  {
    FlatLength(Roots(vs), CHUNK_SIZE);
    Flat(Roots(vs))
  }

  ghost predicate PutAll(before: Bytes, after: Bytes, r: WalkResult, vs: seq<Value>) {
    && (r.Success? <==> AllFit(vs))
    && (r.Failure? ==> FromContent(r.error))
    && (r.Success? ==> after == before + FlatRoots(vs) && StaysAligned(before, after))
  }

  lemma RootsOneMore(vs: seq<Value>, v: Value)
    requires AllFit(vs) && Fits(v)
    ensures AllFit(vs + [v]) && FlatRoots(vs + [v]) == FlatRoots(vs) + HashTreeRoot(v)
  {
    assert Roots(vs + [v]) == Roots(vs) + [HashTreeRoot(v)];
    FlatOneMore(Roots(vs), HashTreeRoot(v));
  }

  lemma {:induction false} FlatConcat(xs: seq<Bytes>, ys: seq<Bytes>)
    ensures Flat(xs + ys) == Flat(xs) + Flat(ys)
    decreases |ys|
  {
    if ys == [] {
      assert xs + ys == xs;
    } else {
      var init, last := ys[..|ys| - 1], ys[|ys| - 1];
      assert xs + ys == (xs + init) + [last];
      FlatConcat(xs, init);
      FlatOneMore(xs + init, last);
    }
  }

  lemma FlatRootsConcat(xs: seq<Value>, ys: seq<Value>)
    requires AllFit(xs) && AllFit(ys)
    ensures AllFit(xs + ys) && FlatRoots(xs + ys) == FlatRoots(xs) + FlatRoots(ys)
  {
    assert Roots(xs + ys) == Roots(xs) + Roots(ys);
    FlatConcat(Roots(xs), Roots(ys));
  }

  lemma AllFitConcat(xs: seq<Value>, ys: seq<Value>)
    ensures AllFit(xs + ys) <==> AllFit(xs) && AllFit(ys)
  {
    if AllFit(xs + ys) {
      assert forall i :: 0 <= i < |xs| ==> xs[i] == (xs + ys)[i];
      assert forall i :: 0 <= i < |ys| ==> ys[i] == (xs + ys)[|xs| + i];
    }
  }

  lemma OneValue(before: Bytes, a: Value)
    ensures AllFit([a]) <==> Fits(a)
    ensures Fits(a) ==> before + FlatRoots([a]) == before + HashTreeRoot(a)
  {
    if Fits(a) {
      RootsOneMore([], a);
      assert [] + [a] == [a];
      assert FlatRoots([]) + HashTreeRoot(a) == HashTreeRoot(a);
    } else {
      assert !Fits([a][0]);
    }
  }

  lemma NextValue(before: Bytes, vs: seq<Value>, v: Value)
    ensures AllFit(vs + [v]) <==> AllFit(vs) && Fits(v)
    ensures AllFit(vs + [v]) ==> before + FlatRoots(vs + [v]) == before + FlatRoots(vs) + HashTreeRoot(v)
  {
    OneValue([], v);
    AllFitConcat(vs, [v]);
    if AllFit(vs + [v]) {
      RootsOneMore(vs, v);
      assert before + (FlatRoots(vs) + HashTreeRoot(v)) == before + FlatRoots(vs) + HashTreeRoot(v);
    }
  }

  lemma TwoValues(before: Bytes, a: Value, b: Value)
    ensures AllFit([a, b]) <==> Fits(a) && Fits(b)
    ensures AllFit([a, b]) ==> before + FlatRoots([a, b]) == before + HashTreeRoot(a) + HashTreeRoot(b)
  {
    OneValue(before, a);
    assert [a] + [b] == [a, b];
    NextValue(before, [a], b);
  }

  lemma ThreeValues(before: Bytes, a: Value, b: Value, c: Value)
    ensures AllFit([a, b, c]) <==> Fits(a) && Fits(b) && Fits(c)
    ensures AllFit([a, b, c]) ==>
              before + FlatRoots([a, b, c]) == before + HashTreeRoot(a) + HashTreeRoot(b) + HashTreeRoot(c)
  {
    TwoValues(before, a, b);
    assert [a, b] + [c] == [a, b, c];
    NextValue(before, [a, b], c);
  }

  lemma FourValues(before: Bytes, a: Value, b: Value, c: Value, d: Value)
    ensures AllFit([a, b, c, d]) <==> Fits(a) && Fits(b) && Fits(c) && Fits(d)
    ensures AllFit([a, b, c, d]) ==>
              before + FlatRoots([a, b, c, d])
              == before + HashTreeRoot(a) + HashTreeRoot(b) + HashTreeRoot(c) + HashTreeRoot(d)
  {
    ThreeValues(before, a, b, c);
    assert [a, b, c] + [d] == [a, b, c, d];
    NextValue(before, [a, b, c], d);
  }

  /** Two runs of appends, one after the other. */
  lemma PutBoth(a: Bytes, b: Bytes, c: Bytes, r: WalkResult, s: WalkResult, xs: seq<Value>, ys: seq<Value>)
    requires PutAll(a, b, r, xs) && r.Success? && PutAll(b, c, s, ys)
    ensures PutAll(a, c, s, xs + ys)
  {
    AllFitConcat(xs, ys);
    if s.Success? {
      FlatRootsConcat(xs, ys);
      assert a + FlatRoots(xs) + FlatRoots(ys) == a + (FlatRoots(xs) + FlatRoots(ys));
    }
  }

  lemma FlatAt(parts: seq<Bytes>, i: nat)
    requires AreChunks(parts) && i < |parts|
    ensures CHUNK_SIZE * (i + 1) <= |Flat(parts)| && Flat(parts)[CHUNK_SIZE * i..CHUNK_SIZE * (i + 1)] == parts[i]
    decreases |parts|
  {
    var init, last := parts[..|parts| - 1], parts[|parts| - 1];
    FlatLength(init, CHUNK_SIZE);
    if i < |init| {
      FlatAt(init, i);
      assert Flat(parts)[..|Flat(init)|] == Flat(init);
    }
  }

  lemma ChunksOfFlat(parts: seq<Bytes>)
    requires AreChunks(parts)
    ensures |Flat(parts)| == CHUNK_SIZE * |parts| && Chunkify(Flat(parts)) == parts
  {
    var flat := Flat(parts);
    FlatLength(parts, CHUNK_SIZE);
    var padded := ZeroPad(flat, CHUNK_SIZE * |parts|);
    assert padded == flat;
    forall i | 0 <= i < |parts|
      ensures Chunkify(flat)[i] == parts[i]
    {
      FlatAt(parts, i);
      assert Chunkify(flat)[i] == padded[CHUNK_SIZE * i..CHUNK_SIZE * (i + 1)];
    }
  }

  /** The chunks of concatenated roots are the roots. */
  lemma ChunksOfRoots(before: Bytes, vs: seq<Value>)
    requires AllFit(vs)
    ensures ChunksFrom((before + FlatRoots(vs))[|before|..]) == Success(Roots(vs))
  {
    ChunksOfFlat(Roots(vs));
    assert (before + FlatRoots(vs))[|before|..] == FlatRoots(vs);
  }

  lemma ContainerFits(fields: seq<Value>)
    ensures Fits(Container(fields)) <==> AllFit(fields)
  {
    assert AllFit(fields) ==> forall f <- fields :: Fits(f);
    assert Fits(Container(fields)) ==> forall i :: 0 <= i < |fields| ==> fields[i] in fields;
  }

  lemma ListFits(items: seq<Value>, max: nat)
    requires max < UINT64_MODULUS
    ensures Fits(List(items, max)) <==> AllFit(items) && |items| <= max
  {
    assert AllFit(items) ==> forall f <- items :: Fits(f);
    assert Fits(List(items, max)) ==> forall i :: 0 <= i < |items| ==> items[i] in items;
  }

  /** Collapsing the roots of a container's fields leaves the container's root. */
  lemma {:induction false} ContainerCloses(before: Bytes, fields: seq<Value>)
    requires AllFit(fields) && |fields| <= MAX_DEPTH
    ensures |FlatRoots(fields)| <= Pow2(MAX_DEPTH) && Fits(Container(fields))
    ensures ChunksFrom((before + FlatRoots(fields))[|before|..]) == Success(Roots(fields))
    ensures (before + FlatRoots(fields))[..|before|] == before
    ensures ChunkTree(Roots(fields), |fields|) == HashTreeRoot(Container(fields))
  {
    TableSize();
    ChunksOfRoots(before, fields);
    ContainerFits(fields);
    ContainerRoot(fields);
  }

  method CloseContainer(walker: HashWalker, start: nat, ghost before: Bytes, ghost fields: seq<Value>)
    returns (r: WalkResult)
    requires AllFit(fields) && |fields| <= MAX_DEPTH && walker.buffer == before + FlatRoots(fields)
    requires start == |before|
    modifies walker
    ensures r.Success? && Put(before, walker.buffer, r, Container(fields))
  {
    OneMoreChunk(before);
    ContainerCloses(before, fields);
    r := walker.Merkleize(start);
  }

  /** Collapsing the roots of a list's items and mixing in their number leaves the list's root, unless
      there are too many. */
  lemma ItemsClose(before: Bytes, items: seq<Value>, limit: nat)
    requires AllFit(items) && |before| % CHUNK_SIZE == 0 && limit < UINT64_MODULUS
    ensures ChunksFrom(Padded(before + FlatRoots(items))[|before|..]) == Success(Roots(items))
    ensures (before + FlatRoots(items))[..|before|] == before
    ensures Fits(List(items, limit)) <==> |items| <= limit
    ensures |items| <= limit ==> MixIn(ChunkTree(Roots(items), limit), |items|) == HashTreeRoot(List(items, limit))
  {
    ChunksOfRoots(before, items);
    PaddedOnce(before + FlatRoots(items));
    ListFits(items, limit);
    if |items| <= limit {
      ListRoot(items, limit);
    }
  }

  /** The buffer after the first `n` items of a list. */
  ghost predicate Walked(before: Bytes, buffer: Bytes, items: seq<Value>, n: nat) {
    && n <= |items|
    && InChunks(before) && InChunks(buffer)
    && AllFit(items[..n]) && buffer == before + FlatRoots(items[..n])
  }

  lemma WalkStarts(before: Bytes, items: seq<Value>)
    requires InChunks(before)
    ensures Walked(before, before, items, 0)
  {
    assert before + FlatRoots([]) == before;
  }

  lemma WalkSteps(before: Bytes, middle: Bytes, after: Bytes, r: WalkResult, items: seq<Value>, n: nat)
    requires n < |items| && Walked(before, middle, items, n) && Put(middle, after, r, items[n])
    ensures r.Success? ==> Walked(before, after, items, n + 1)
    ensures r.Failure? ==> !AllFit(items)
  {
    if r.Success? {
      assert items[..n] + [items[n]] == items[..n + 1];
      NextValue(before, items[..n], items[n]);
    }
  }

  method CloseItems(walker: HashWalker, start: nat, limit: nat, ghost before: Bytes, num: nat, ghost items: seq<Value>)
    returns (r: WalkResult)
    requires Walked(before, walker.buffer, items, |items|)
    requires start == |before| && num == |items| && 0 < limit < UINT64_MODULUS
    modifies walker
    ensures Put(before, walker.buffer, r, List(items, limit))
  {
    assert items[..|items|] == items;
    TableSize();
    OneMoreChunk(before);
    ItemsClose(before, items, limit);
    r := walker.MerkleizeWithMixin(start, num, limit);
  }
}
