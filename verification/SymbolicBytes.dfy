/** Bytes, and SHA-256 as a symbolic (Dolev-Yao) operation on them.

    A byte is either a literal or one of the 32 bytes of a digest. A digest byte remembers the
    preimage it was computed from, so two digests are equal exactly when their preimages are, and
    no digest byte is a literal. */
module SymbolicBytes {
  type byte = b: int | 0 <= b < 256

  datatype SymByte = Lit(value: byte) | Digest(preimage: seq<SymByte>, index: nat)

  type Bytes = seq<SymByte>

  const CHUNK_SIZE: nat := 32

  const UINT64_MODULUS: int := 0x1_0000_0000_0000_0000

  function Sha256(preimage: Bytes): (digest: Bytes)
    ensures |digest| == CHUNK_SIZE
  {
    seq(CHUNK_SIZE, i requires 0 <= i < CHUNK_SIZE => Digest(preimage, i))
  }

  lemma {:induction false} Sha256Injective(a: Bytes, b: Bytes)
    requires Sha256(a) == Sha256(b)
    ensures a == b
  {
    assert Sha256(a)[0] == Digest(a, 0);
    assert Sha256(b)[0] == Digest(b, 0);
  }

  function Zeros(n: nat): (z: Bytes)
    ensures |z| == n && forall i :: 0 <= i < n ==> z[i] == Lit(0)
  {
    seq(n, i => Lit(0))
  }

  const ZERO_CHUNK: Bytes := Zeros(CHUNK_SIZE)

  /** Literal bytes, as the program's own data enters a hash. */
  function Lits(bs: seq<byte>): (r: Bytes)
    ensures |r| == |bs| && forall i :: 0 <= i < |bs| ==> r[i] == Lit(bs[i])
  {
    seq(|bs|, i requires 0 <= i < |bs| => Lit(bs[i]))
  }

  lemma {:induction false} LitsInjective(a: seq<byte>, b: seq<byte>)
    requires Lits(a) == Lits(b)
    ensures a == b
  {
    assert |a| == |b|;
    forall i | 0 <= i < |a|
      ensures a[i] == b[i]
    {
      assert Lits(a)[i] == Lit(a[i]) && Lits(b)[i] == Lit(b[i]);
    }
  }
}
