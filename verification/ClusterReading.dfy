/** Where each field of a cluster file sits under its hash, and which texts are addresses. */
module ClusterReading {
  import opened SymbolicBytes
  import opened Wrappers
  import opened Ssz
  import opened SszValues
  import opened SszReading
  import opened HashWalking
  import opened ClusterDefinition
  import opened ClusterSchema

  /** Field `k` of `n` under this root is the value. */
  ghost predicate FieldIs(root: Bytes, n: nat, k: nat, v: Value) {
    Fits(v) && FieldAt(root, n, k) == Some(HashTreeRoot(v))
  }

  ghost predicate NumberIs(root: Bytes, n: nat, k: nat, number: int) {
    FieldAt(root, n, k).Some? && IsUint64Chunk(FieldAt(root, n, k).value, number)
  }

  lemma {:induction false} FieldOpens(fields: seq<Value>, k: nat, v: Value)
    requires Fits(Container(fields)) && k < |fields| && fields[k] == v
    ensures FieldIs(HashTreeRoot(Container(fields)), |fields|, k, v)
    ensures v.Uint64? ==> NumberIs(HashTreeRoot(Container(fields)), |fields|, k, v.number)
  {
    ContainerFits(fields);
    ContainerOpens(fields, k);
    if v.Uint64? {
      Uint64Reads(v.number);
    }
  }

  /** A short value of fixed size is padded with zeros on the left. */
  lemma {:induction false} FixedReads(data: Bytes, size: nat, k: nat)
    requires |data| <= size && k < size
    ensures Fits(Fixed(data, size))
    ensures ByteAt(FieldAt(HashTreeRoot(Fixed(data, size)), ChunkCount(size), k / CHUNK_SIZE), k)
            == Some(if k < size - |data| then Lit(0) else data[k - (size - |data|)])
  {
    VectorOpens(Zeros(size - |data|) + data, k);
  }

  ghost predicate IdentityOpens(root: Bytes, n: nat, d: Definition) {
    && FieldIs(root, n, 0, ByteList(d.uuid, MAX_UUID_BYTES))
    && FieldIs(root, n, 1, ByteList(d.name, MAX_NAME_BYTES))
    && FieldIs(root, n, 2, ByteList(d.version, MAX_VERSION_BYTES))
    && FieldIs(root, n, 3, ByteList(d.timestamp, MAX_TIMESTAMP_BYTES))
  }

  ghost predicate ParametersOpen(root: Bytes, n: nat, d: Definition) {
    && NumberIs(root, n, 4, d.numValidators)
    && NumberIs(root, n, 5, d.threshold)
    && FieldIs(root, n, 6, ByteList(d.dkgAlgorithm, MAX_DKG_ALGORITHM_BYTES))
    && FieldIs(root, n, 7, Fixed(d.forkVersion, FORK_VERSION_LENGTH))
  }

  ghost predicate MembersOpen(root: Bytes, n: nat, d: Definition, configOnly: bool) {
    && FieldIs(root, n, 8, List(OperatorItems(d.operators, configOnly), MAX_OPERATORS))
    && FieldIs(root, n, 9, Container(CreatorFields(d.creator, configOnly)))
    && FieldIs(root, n, 10, List(AddressesItems(d.validatorAddresses), MAX_VALIDATORS))
  }

  ghost predicate OptionsOpen(root: Bytes, n: nat, d: Definition) {
    && FieldIs(root, n, 11, Uint64List(d.depositAmounts, MAX_DEPOSIT_AMOUNTS))
    && FieldIs(root, n, 12, ByteList(d.consensusProtocol, MAX_NAME_BYTES))
    && NumberIs(root, n, 13, d.targetGasLimit)
    && FieldIs(root, n, 14, Bool(d.compounding))
  }

  lemma FieldsOfDefinition(d: Definition, configOnly: bool, fs: seq<Value>)
    requires fs == DefinitionFields(d, configOnly)
    ensures |fs| == if configOnly then 15 else 16
    ensures fs[..4] == IdentityFields(d) && fs[4..8] == ParameterFields(d)
    ensures fs[8..11] == MemberFields(d, configOnly) && fs[11..15] == OptionFields(d)
    ensures fs[15..] == StoredHashFields(d, configOnly)
  {
  }

  lemma IdentityReads(d: Definition, fs: seq<Value>)
    requires Fits(Container(fs)) && |fs| >= 15 && fs[..4] == IdentityFields(d)
    ensures IdentityOpens(HashTreeRoot(Container(fs)), |fs|, d)
  {
    FieldOpens(fs, 0, IdentityFields(d)[0]);
    FieldOpens(fs, 1, IdentityFields(d)[1]);
    FieldOpens(fs, 2, IdentityFields(d)[2]);
    FieldOpens(fs, 3, IdentityFields(d)[3]);
  }

  lemma ParametersRead(d: Definition, fs: seq<Value>)
    requires Fits(Container(fs)) && |fs| >= 15 && fs[4..8] == ParameterFields(d)
    ensures ParametersOpen(HashTreeRoot(Container(fs)), |fs|, d)
  {
    FieldOpens(fs, 4, ParameterFields(d)[0]);
    FieldOpens(fs, 5, ParameterFields(d)[1]);
    FieldOpens(fs, 6, ParameterFields(d)[2]);
    FieldOpens(fs, 7, ParameterFields(d)[3]);
  }

  lemma MembersRead(d: Definition, configOnly: bool, fs: seq<Value>)
    requires Fits(Container(fs)) && |fs| >= 15 && fs[8..11] == MemberFields(d, configOnly)
    ensures MembersOpen(HashTreeRoot(Container(fs)), |fs|, d, configOnly)
  {
    FieldOpens(fs, 8, MemberFields(d, configOnly)[0]);
    FieldOpens(fs, 9, MemberFields(d, configOnly)[1]);
    FieldOpens(fs, 10, MemberFields(d, configOnly)[2]);
  }

  lemma OptionsRead(d: Definition, fs: seq<Value>)
    requires Fits(Container(fs)) && |fs| >= 15 && fs[11..15] == OptionFields(d)
    ensures OptionsOpen(HashTreeRoot(Container(fs)), |fs|, d)
  {
    FieldOpens(fs, 11, OptionFields(d)[0]);
    FieldOpens(fs, 12, OptionFields(d)[1]);
    FieldOpens(fs, 13, OptionFields(d)[2]);
    FieldOpens(fs, 14, OptionFields(d)[3]);
  }

  /** A definition opens to fifteen fields, and to the config hash after them when that is covered. */
  lemma {:induction false} DefinitionReads(d: Definition, configOnly: bool)
    requires Fits(DefinitionValue(d, configOnly))
    ensures var root, n := HashTreeRoot(DefinitionValue(d, configOnly)), if configOnly then 15 else 16;
            && IdentityOpens(root, n, d) && ParametersOpen(root, n, d)
            && MembersOpen(root, n, d, configOnly) && OptionsOpen(root, n, d)
            && (!configOnly ==> FieldIs(root, n, 15, Fixed(d.configHash, HASH_LENGTH)))
  {
    var fs := DefinitionFields(d, configOnly);
    FieldsOfDefinition(d, configOnly, fs);
    IdentityReads(d, fs);
    ParametersRead(d, fs);
    MembersRead(d, configOnly, fs);
    OptionsRead(d, fs);
    if !configOnly {
      FieldOpens(fs, 15, fs[15..][0]);
    }
  }

  /** An operator opens to its address, and to its ENR and signatures when those are covered. */
  lemma {:induction false} OperatorReads(o: Operator, root: Bytes)
    requires Fits(Container(OperatorFields(o, false))) && root == HashTreeRoot(Container(OperatorFields(o, false)))
    ensures FieldIs(root, 4, 0, AddressValue(o.address)) && FieldIs(root, 4, 1, ByteList(o.enr, MAX_ENR_BYTES))
    ensures FieldIs(root, 4, 2, Fixed(o.configSignature, K1_SIGNATURE_LENGTH))
    ensures FieldIs(root, 4, 3, Fixed(o.enrSignature, K1_SIGNATURE_LENGTH))
    ensures Fits(Container(OperatorFields(o, true)))
            && FieldIs(HashTreeRoot(Container(OperatorFields(o, true))), 1, 0, AddressValue(o.address))
  {
    var fs := OperatorFields(o, false);
    FieldOpens(fs, 0, fs[0]);
    FieldOpens(fs, 1, fs[1]);
    FieldOpens(fs, 2, fs[2]);
    FieldOpens(fs, 3, fs[3]);
    ContainerFits(OperatorFields(o, true));
    FieldOpens(OperatorFields(o, true), 0, fs[0]);
  }

  /** The creator's address comes before the signature, and a validator's fee recipient before its
      withdrawal address. */
  lemma {:induction false} AddressesRead(c: Creator, a: ValidatorAddresses)
    requires Fits(Container(CreatorFields(c, false))) && Fits(Container(AddressesFields(a)))
    ensures var root := HashTreeRoot(Container(CreatorFields(c, false)));
            && FieldIs(root, 2, 0, AddressValue(c.address))
            && FieldIs(root, 2, 1, Fixed(c.configSignature, K1_SIGNATURE_LENGTH))
    ensures var root := HashTreeRoot(Container(AddressesFields(a)));
            FieldIs(root, 2, 0, AddressValue(a.feeRecipient)) && FieldIs(root, 2, 1, AddressValue(a.withdrawal))
  {
    FieldOpens(CreatorFields(c, false), 0, CreatorFields(c, false)[0]);
    FieldOpens(CreatorFields(c, false), 1, CreatorFields(c, false)[1]);
    FieldOpens(AddressesFields(a), 0, AddressesFields(a)[0]);
    FieldOpens(AddressesFields(a), 1, AddressesFields(a)[1]);
  }

  lemma {:induction false} DepositReads(d: DepositData, root: Bytes)
    requires Fits(Container(DepositFields(d))) && root == HashTreeRoot(Container(DepositFields(d)))
    ensures FieldIs(root, 4, 0, Fixed(d.pubkey, PUBKEY_LENGTH))
    ensures FieldIs(root, 4, 1, Fixed(d.withdrawalCredentials, WITHDRAWAL_CREDENTIALS_LENGTH))
    ensures NumberIs(root, 4, 2, d.amount) && FieldIs(root, 4, 3, Fixed(d.signature, BLS_SIGNATURE_LENGTH))
  {
    var fs := DepositFields(d);
    FieldOpens(fs, 0, fs[0]);
    FieldOpens(fs, 1, fs[1]);
    FieldOpens(fs, 2, fs[2]);
    FieldOpens(fs, 3, fs[3]);
  }

  /** Without a fee recipient every other field of a registration moves up by one place. */
  lemma {:induction false} RegistrationReads(r: Registration, root: Bytes, n: nat)
    requires Fits(Container(RegistrationFields(r))) && root == HashTreeRoot(Container(RegistrationFields(r)))
    requires n == if r.feeRecipient == [] then 3 else 4
    ensures n == 4 ==> FieldIs(root, n, 0, ByteVector(r.feeRecipient))
    ensures NumberIs(root, n, n - 3, r.gasLimit) && NumberIs(root, n, n - 2, r.timestamp)
    ensures FieldIs(root, n, n - 1, Fixed(r.pubkey, PUBKEY_LENGTH))
  {
    var fs := RegistrationFields(r);
    FieldOpens(fs, n - 3, fs[n - 3]);
    FieldOpens(fs, n - 2, fs[n - 2]);
    FieldOpens(fs, n - 1, fs[n - 1]);
    FieldOpens(fs, 0, fs[0]);
  }

  /** A validator opens to its key, its key shares, its deposits and its signed registration. */
  lemma {:induction false} ValidatorReads(v: DistValidator, root: Bytes)
    requires Fits(Container(ValidatorFields(v))) && root == HashTreeRoot(Container(ValidatorFields(v)))
    ensures FieldIs(root, 4, 0, Fixed(v.pubkey, PUBKEY_LENGTH))
    ensures FieldIs(root, 4, 1, List(ShareItems(v.pubshares), MAX_OPERATORS))
    ensures FieldIs(root, 4, 2, List(DepositItems(v.partialDepositData), MAX_DEPOSIT_AMOUNTS))
    ensures FieldIs(root, 4, 3, Container(BuilderFields(v.builderRegistration)))
  {
    var fs := ValidatorFields(v);
    FieldOpens(fs, 0, fs[0]);
    FieldOpens(fs, 1, fs[1]);
    FieldOpens(fs, 2, fs[2]);
    FieldOpens(fs, 3, fs[3]);
  }

  lemma {:induction false} BuilderReads(b: BuilderRegistration, root: Bytes)
    requires Fits(Container(BuilderFields(b))) && root == HashTreeRoot(Container(BuilderFields(b)))
    ensures FieldIs(root, 2, 0, Container(RegistrationFields(b.message)))
    ensures FieldIs(root, 2, 1, Fixed(b.signature, BLS_SIGNATURE_LENGTH))
  {
    FieldOpens(BuilderFields(b), 0, BuilderFields(b)[0]);
    FieldOpens(BuilderFields(b), 1, BuilderFields(b)[1]);
  }

  /** A lock opens to its definition and its validators. */
  lemma {:induction false} LockReads(l: Lock, root: Bytes)
    requires Fits(LockValue(l)) && root == HashTreeRoot(LockValue(l))
    ensures FieldIs(root, 2, 0, DefinitionValue(l.definition, false))
    ensures FieldIs(root, 2, 1, List(ValidatorItems(l.validators), MAX_VALIDATORS))
  {
    FieldOpens(LockFields(l), 0, LockFields(l)[0]);
    FieldOpens(LockFields(l), 1, LockFields(l)[1]);
  }

  // Addresses

  const HEX_DIGITS: string := "0123456789abcdef"

  /** The bytes in lower-case hexadecimal. */
  function Hex(bs: seq<byte>): string {
    if bs == [] then "" else [HEX_DIGITS[bs[0] / 16], HEX_DIGITS[bs[0] % 16]] + Hex(bs[1..])
  }

  function Lowered(text: string): (r: string)
    ensures |r| == |text|
  {
    seq(|text|, i requires 0 <= i < |text| =>
      if 'A' <= text[i] <= 'F' then (text[i] as int - 'A' as int + 'a' as int) as char else text[i])
  }

  lemma DigitReads(c: char, d: byte)
    requires d < 16
    ensures HexDigit(c) == Some(d) <==> Lowered([c])[0] == HEX_DIGITS[d]
  {
  }

  lemma Nibbles(high: byte, low: byte, b: byte)
    requires high < 16 && low < 16
    ensures 16 * high + low == b <==> high == b / 16 && low == b % 16
  {
  }

  /** Two digits read as a byte exactly when they are its digits. */
  lemma PairDigits(high: char, low: char, b: byte, h: byte, l: byte)
    requires h == b / 16 && l == b % 16
    ensures HexDigit(high).Some? && HexDigit(low).Some? && 16 * HexDigit(high).value + HexDigit(low).value == b
            <==> Lowered([high])[0] == HEX_DIGITS[h] && Lowered([low])[0] == HEX_DIGITS[l]
  {
    DigitReads(high, h);
    DigitReads(low, l);
    if HexDigit(high).Some? && HexDigit(low).Some? {
      Nibbles(HexDigit(high).value, HexDigit(low).value, b);
    }
  }

  lemma SamePair(a: char, b: char, s: string, c: char, d: char, t: string)
    ensures [a, b] + s == [c, d] + t <==> a == c && b == d && s == t
  {
    if [a, b] + s == [c, d] + t {
      assert ([a, b] + s)[0] == a && ([a, b] + s)[1] == b && ([a, b] + s)[2..] == s;
      assert ([c, d] + t)[2..] == t;
    }
  }

  lemma LoweredSplit(text: string)
    requires |text| >= 2
    ensures Lowered(text) == [Lowered([text[0]])[0], Lowered([text[1]])[0]] + Lowered(text[2..])
  {
  }

  lemma ConsIs(b: byte, rest: seq<byte>, bs: seq<byte>)
    requires bs != []
    ensures [b] + rest == bs <==> b == bs[0] && rest == bs[1..]
  {
    if [b] + rest == bs {
      assert ([b] + rest)[1..] == rest;
    }
    assert [bs[0]] + bs[1..] == bs;
  }

  /** What two digits and the reading of the text after them make. */
  function Joined(high: Option<byte>, low: Option<byte>, rest: Result<seq<byte>, ValueError>)
    : Result<seq<byte>, ValueError>
    requires high.Some? && low.Some? ==> high.value < 16 && low.value < 16
  {
    if high.None? || low.None? then Failure(BadAddress)
    else if rest.Failure? then rest
    else Success([16 * high.value + low.value] + rest.value)
  }

  lemma FromHexSplit(text: string)
    requires |text| >= 2
    ensures FromHex(text) == Joined(HexDigit(text[0]), HexDigit(text[1]), FromHex(text[2..]))
  {
  }

  lemma JoinedIs(high: Option<byte>, low: Option<byte>, rest: Result<seq<byte>, ValueError>, bs: seq<byte>)
    requires bs != [] && (high.Some? && low.Some? ==> high.value < 16 && low.value < 16)
    ensures Joined(high, low, rest) == Success(bs)
            <==> high.Some? && low.Some? && 16 * high.value + low.value == bs[0] && rest == Success(bs[1..])
  {
    if high.Some? && low.Some? && rest.Success? {
      ConsIs(16 * high.value + low.value, rest.value, bs);
    }
  }

  /** Text decodes to the bytes it spells in hexadecimal, in either case, and to nothing else. */
  lemma {:induction false} HexReads(text: string, bs: seq<byte>)
    ensures FromHex(text) == Success(bs) <==> Lowered(text) == Hex(bs)
    decreases |text|
  {
    if |text| >= 2 && bs != [] {
      HexReads(text[2..], bs[1..]);
      FromHexSplit(text);
      JoinedIs(HexDigit(text[0]), HexDigit(text[1]), FromHex(text[2..]), bs);
      PairDigits(text[0], text[1], bs[0], bs[0] / 16, bs[0] % 16);
      LoweredSplit(text);
      SamePair(Lowered([text[0]])[0], Lowered([text[1]])[0], Lowered(text[2..]),
               HEX_DIGITS[bs[0] / 16], HEX_DIGITS[bs[0] % 16], Hex(bs[1..]));
    }
  }

  lemma PrefixReads(address: string, digits: string)
    requires |digits| >= 2 ==> digits[1] != 'x'
    ensures "0x" <= address ==>
              Lowered(address) != digits && (Lowered(address) == "0x" + digits <==> Lowered(address[2..]) == digits)
    ensures !("0x" <= address) ==> Lowered(address) != "0x" + digits
  {
    if |address| >= 2 {
      LoweredSplit(address);
      SamePair(Lowered([address[0]])[0], Lowered([address[1]])[0], Lowered(address[2..]), '0', 'x', digits);
      assert address == [address[0], address[1]] + address[2..];
    }
  }

  lemma NoPrefixInHex(bs: seq<byte>)
    ensures |Hex(bs)| >= 2 ==> Hex(bs)[1] != 'x'
  {
  }

  /** An address is twenty bytes in hexadecimal, with or without its prefix, or empty. */
  lemma {:induction false} AddressReads(address: string, bs: seq<byte>)
    ensures DecodeAddress(address) == Success(bs)
            <==> if address == "" then bs == []
                 else |bs| == ADDRESS_LENGTH
                      && (Lowered(address) == Hex(bs) || Lowered(address) == "0x" + Hex(bs))
  {
    HexReads(RemovePrefix(address), bs);
    NoPrefixInHex(bs);
    PrefixReads(address, Hex(bs));
  }
}
