/** What each hash of a cluster file covers, as SSZ values. */
module ClusterSchema {
  import opened SymbolicBytes
  import opened SszValues
  import opened HashWalking
  import opened ClusterDefinition

  function AddressValue(address: string): Value {
    match DecodeAddress(address)
    case Success(raw) => Fixed(Lits(raw), ADDRESS_LENGTH)
    case Failure(_) => Invalid
  }

  function OperatorFields(o: Operator, configOnly: bool): seq<Value> {
    if configOnly then [AddressValue(o.address)]
    else [AddressValue(o.address), ByteList(o.enr, MAX_ENR_BYTES),
          Fixed(o.configSignature, K1_SIGNATURE_LENGTH), Fixed(o.enrSignature, K1_SIGNATURE_LENGTH)]
  }

  function OperatorItems(os: seq<Operator>, configOnly: bool): (r: seq<Value>)
    ensures |r| == |os| && forall i :: 0 <= i < |os| ==> r[i] == Container(OperatorFields(os[i], configOnly))
  {
    seq(|os|, i requires 0 <= i < |os| => Container(OperatorFields(os[i], configOnly)))
  }

  function CreatorFields(c: Creator, configOnly: bool): seq<Value> {
    if configOnly then [AddressValue(c.address)]
    else [AddressValue(c.address), Fixed(c.configSignature, K1_SIGNATURE_LENGTH)]
  }

  function AddressesFields(a: ValidatorAddresses): seq<Value> {
    [AddressValue(a.feeRecipient), AddressValue(a.withdrawal)]
  }

  function AddressesItems(vs: seq<ValidatorAddresses>): (r: seq<Value>)
    ensures |r| == |vs| && forall i :: 0 <= i < |vs| ==> r[i] == Container(AddressesFields(vs[i]))
  {
    seq(|vs|, i requires 0 <= i < |vs| => Container(AddressesFields(vs[i])))
  }

  function IdentityFields(d: Definition): seq<Value> {
    [ByteList(d.uuid, MAX_UUID_BYTES), ByteList(d.name, MAX_NAME_BYTES),
     ByteList(d.version, MAX_VERSION_BYTES), ByteList(d.timestamp, MAX_TIMESTAMP_BYTES)]
  }

  function ParameterFields(d: Definition): seq<Value> {
    [Uint64(d.numValidators), Uint64(d.threshold),
     ByteList(d.dkgAlgorithm, MAX_DKG_ALGORITHM_BYTES), Fixed(d.forkVersion, FORK_VERSION_LENGTH)]
  }

  function MemberFields(d: Definition, configOnly: bool): seq<Value> {
    [List(OperatorItems(d.operators, configOnly), MAX_OPERATORS),
     Container(CreatorFields(d.creator, configOnly)),
     List(AddressesItems(d.validatorAddresses), MAX_VALIDATORS)]
  }

  function OptionFields(d: Definition): seq<Value> {
    [Uint64List(d.depositAmounts, MAX_DEPOSIT_AMOUNTS), ByteList(d.consensusProtocol, MAX_NAME_BYTES),
     Uint64(d.targetGasLimit), Bool(d.compounding)]
  }

  function StoredHashFields(d: Definition, configOnly: bool): seq<Value> {
    if configOnly then [] else [Fixed(d.configHash, HASH_LENGTH)]
  }

  function DefinitionFields(d: Definition, configOnly: bool): seq<Value> {
    IdentityFields(d) + ParameterFields(d) + MemberFields(d, configOnly) + OptionFields(d)
    + StoredHashFields(d, configOnly)
  }

  function DefinitionValue(d: Definition, configOnly: bool): Value {
    Container(DefinitionFields(d, configOnly))
  }

  function DepositFields(d: DepositData): seq<Value> {
    [Fixed(d.pubkey, PUBKEY_LENGTH), Fixed(d.withdrawalCredentials, WITHDRAWAL_CREDENTIALS_LENGTH),
     Uint64(d.amount), Fixed(d.signature, BLS_SIGNATURE_LENGTH)]
  }

  /** The walk closes each deposit twice. */
  function DepositItems(ds: seq<DepositData>): (r: seq<Value>)
    ensures |r| == |ds| && forall i :: 0 <= i < |ds| ==> r[i] == Container([Container(DepositFields(ds[i]))])
  {
    seq(|ds|, i requires 0 <= i < |ds| => Container([Container(DepositFields(ds[i]))]))
  }

  /** An empty fee recipient is no field at all. */
  function FeeRecipientFields(data: Bytes): seq<Value> {
    if data == [] then [] else [ByteVector(data)]
  }

  function RegistrationFields(r: Registration): seq<Value> {
    FeeRecipientFields(r.feeRecipient)
    + [Uint64(r.gasLimit), Uint64(r.timestamp), Fixed(r.pubkey, PUBKEY_LENGTH)]
  }

  function BuilderFields(b: BuilderRegistration): seq<Value> {
    [Container(RegistrationFields(b.message)), Fixed(b.signature, BLS_SIGNATURE_LENGTH)]
  }

  function ShareItems(shares: seq<Bytes>): (r: seq<Value>)
    ensures |r| == |shares| && forall i :: 0 <= i < |shares| ==> r[i] == Fixed(shares[i], PUBKEY_LENGTH)
  {
    seq(|shares|, i requires 0 <= i < |shares| => Fixed(shares[i], PUBKEY_LENGTH))
  }

  function ValidatorFields(v: DistValidator): seq<Value> {
    [Fixed(v.pubkey, PUBKEY_LENGTH), List(ShareItems(v.pubshares), MAX_OPERATORS),
     List(DepositItems(v.partialDepositData), MAX_DEPOSIT_AMOUNTS),
     Container(BuilderFields(v.builderRegistration))]
  }

  function ValidatorItems(vs: seq<DistValidator>): (r: seq<Value>)
    ensures |r| == |vs| && forall i :: 0 <= i < |vs| ==> r[i] == Container(ValidatorFields(vs[i]))
  {
    seq(|vs|, i requires 0 <= i < |vs| => Container(ValidatorFields(vs[i])))
  }

  function LockFields(l: Lock): seq<Value> {
    [DefinitionValue(l.definition, false), List(ValidatorItems(l.validators), MAX_VALIDATORS)]
  }

  function LockValue(l: Lock): Value {
    Container(LockFields(l))
  }
}
