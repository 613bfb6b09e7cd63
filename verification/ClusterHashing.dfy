/** The walks over definitions and locks, against the SSZ values they hash. */
module ClusterHashing {
  import opened SymbolicBytes
  import opened Wrappers
  import opened Ssz
  import opened SszValues
  import opened HashWalking
  import opened ClusterDefinition
  import opened ClusterSchema

  method PutAddress(walker: HashWalker, address: string) returns (r: WalkResult)
    modifies walker
    ensures Put(old(walker.buffer), walker.buffer, r, AddressValue(address))
  {
    var raw :- DecodeAddress(address);
    r := PutBytesN(walker, Lits(raw), ADDRESS_LENGTH);
  }

  method HashDepositData(walker: HashWalker, deposit: DepositData) returns (r: WalkResult)
    requires walker.Aligned()
    modifies walker
    ensures Put(old(walker.buffer), walker.buffer, r, Container(DepositFields(deposit)))
  {
    ghost var before, fields := walker.buffer, DepositFields(deposit);
    FourValues(before, fields[0], fields[1], fields[2], fields[3]);
    ContainerFits(fields);
    var start := walker.Index();
    var _ :- PutBytesN(walker, deposit.pubkey, PUBKEY_LENGTH);
    var _ :- PutBytesN(walker, deposit.withdrawalCredentials, WITHDRAWAL_CREDENTIALS_LENGTH);
    var _ :- walker.PutUint64(deposit.amount);
    var _ :- PutBytesN(walker, deposit.signature, BLS_SIGNATURE_LENGTH);
    r := CloseContainer(walker, start, before, fields);
  }

  /** The fee recipient is appended as a field of its own, or not at all. */
  lemma FeeRecipientPut(before: Bytes, data: Bytes)
    ensures AllFit(FeeRecipientFields(data))
    ensures before + FlatRoots(FeeRecipientFields(data))
            == before + if data == [] then [] else HashTreeRoot(ByteVector(data))
  {
    if data != [] {
      OneValue(before, ByteVector(data));
    }
  }

  method HashRegistration(walker: HashWalker, registration: Registration) returns (r: WalkResult)
    requires walker.Aligned()
    modifies walker
    ensures Put(old(walker.buffer), walker.buffer, r, Container(RegistrationFields(registration)))
  {
    ghost var before := walker.buffer;
    ghost var optional := FeeRecipientFields(registration.feeRecipient);
    ghost var fields := RegistrationFields(registration)[|optional|..];
    var start := walker.Index();
    TableSize();
    var _ := walker.PutBytes(registration.feeRecipient);
    FeeRecipientPut(before, registration.feeRecipient);
    ghost var middle := walker.buffer;
    ThreeValues(middle, fields[0], fields[1], fields[2]);
    AllFitConcat(optional, fields);
    ContainerFits(optional + fields);
    var _ :- walker.PutUint64(registration.gasLimit);
    var _ :- walker.PutUint64(registration.timestamp);
    var _ :- PutBytesN(walker, registration.pubkey, PUBKEY_LENGTH);
    PutBoth(before, middle, walker.buffer, Success(()), Success(()), optional, fields);
    r := CloseContainer(walker, start, before, optional + fields);
  }

  method HashBuilderRegistration(walker: HashWalker, registration: BuilderRegistration) returns (r: WalkResult)
    requires walker.Aligned()
    modifies walker
    ensures Put(old(walker.buffer), walker.buffer, r, Container(BuilderFields(registration)))
  {
    ghost var before, fields := walker.buffer, BuilderFields(registration);
    TwoValues(before, fields[0], fields[1]);
    ContainerFits(fields);
    var start := walker.Index();
    var _ :- HashRegistration(walker, registration.message);
    var _ :- PutBytesN(walker, registration.signature, BLS_SIGNATURE_LENGTH);
    r := CloseContainer(walker, start, before, fields);
  }

  method PutShares(walker: HashWalker, pubshares: seq<Bytes>) returns (r: WalkResult)
    requires walker.Aligned()
    modifies walker
    ensures Put(old(walker.buffer), walker.buffer, r, List(ShareItems(pubshares), MAX_OPERATORS))
  {
    ghost var before, items := walker.buffer, ShareItems(pubshares);
    ListFits(items, MAX_OPERATORS);
    WalkStarts(before, items);
    var start := walker.Index();
    for i := 0 to |pubshares|
      invariant Walked(before, walker.buffer, items, i)
    {
      ghost var middle := walker.buffer;
      var put := PutBytesN(walker, pubshares[i], PUBKEY_LENGTH);
      WalkSteps(before, middle, walker.buffer, put, items, i);
      var _ :- put;
    }
    r := CloseItems(walker, start, MAX_OPERATORS, before, |pubshares|, items);
  }

  /** The deposit is already one chunk, which closing it once more leaves untouched. */
  method PutDeposit(walker: HashWalker, deposit: DepositData) returns (r: WalkResult)
    requires walker.Aligned()
    modifies walker
    ensures Put(old(walker.buffer), walker.buffer, r, Container([Container(DepositFields(deposit))]))
  {
    ghost var before, fields := walker.buffer, [Container(DepositFields(deposit))];
    OneValue(before, fields[0]);
    ContainerFits(fields);
    var start := walker.Index();
    var _ :- HashDepositData(walker, deposit);
    r := CloseContainer(walker, start, before, fields);
  }

  method PutDeposits(walker: HashWalker, deposits: seq<DepositData>) returns (r: WalkResult)
    requires walker.Aligned()
    modifies walker
    ensures Put(old(walker.buffer), walker.buffer, r, List(DepositItems(deposits), MAX_DEPOSIT_AMOUNTS))
  {
    ghost var before, items := walker.buffer, DepositItems(deposits);
    ListFits(items, MAX_DEPOSIT_AMOUNTS);
    WalkStarts(before, items);
    var start := walker.Index();
    for i := 0 to |deposits|
      invariant Walked(before, walker.buffer, items, i)
    {
      ghost var middle := walker.buffer;
      var put := PutDeposit(walker, deposits[i]);
      WalkSteps(before, middle, walker.buffer, put, items, i);
      var _ :- put;
    }
    r := CloseItems(walker, start, MAX_DEPOSIT_AMOUNTS, before, |deposits|, items);
  }

  method HashValidator(walker: HashWalker, validator: DistValidator) returns (r: WalkResult)
    requires walker.Aligned()
    modifies walker
    ensures Put(old(walker.buffer), walker.buffer, r, Container(ValidatorFields(validator)))
  {
    ghost var before, fields := walker.buffer, ValidatorFields(validator);
    FourValues(before, fields[0], fields[1], fields[2], fields[3]);
    ContainerFits(fields);
    var start := walker.Index();
    var _ :- PutBytesN(walker, validator.pubkey, PUBKEY_LENGTH);
    var _ :- PutShares(walker, validator.pubshares);
    var _ :- PutDeposits(walker, validator.partialDepositData);
    var _ :- HashBuilderRegistration(walker, validator.builderRegistration);
    r := CloseContainer(walker, start, before, fields);
  }

  // The definition

  method PutOperator(walker: HashWalker, operator: Operator, configOnly: bool) returns (r: WalkResult)
    requires walker.Aligned()
    modifies walker
    ensures Put(old(walker.buffer), walker.buffer, r, Container(OperatorFields(operator, configOnly)))
  {
    ghost var before, fields := walker.buffer, OperatorFields(operator, configOnly);
    ContainerFits(fields);
    OneValue(before, fields[0]);
    var start := walker.Index();
    if configOnly {
      var _ :- PutAddress(walker, operator.address);
    } else {
      FourValues(before, fields[0], fields[1], fields[2], fields[3]);
      var _ :- PutAddress(walker, operator.address);
      var _ :- PutByteList(walker, operator.enr, MAX_ENR_BYTES);
      var _ :- PutBytesN(walker, operator.configSignature, K1_SIGNATURE_LENGTH);
      var _ :- PutBytesN(walker, operator.enrSignature, K1_SIGNATURE_LENGTH);
    }
    r := CloseContainer(walker, start, before, fields);
  }

  method PutOperators(walker: HashWalker, operators: seq<Operator>, configOnly: bool) returns (r: WalkResult)
    requires walker.Aligned()
    modifies walker
    ensures Put(old(walker.buffer), walker.buffer, r, List(OperatorItems(operators, configOnly), MAX_OPERATORS))
  {
    ghost var before, items := walker.buffer, OperatorItems(operators, configOnly);
    ListFits(items, MAX_OPERATORS);
    WalkStarts(before, items);
    var start := walker.Index();
    for i := 0 to |operators|
      invariant Walked(before, walker.buffer, items, i)
    {
      ghost var middle := walker.buffer;
      var put := PutOperator(walker, operators[i], configOnly);
      WalkSteps(before, middle, walker.buffer, put, items, i);
      var _ :- put;
    }
    r := CloseItems(walker, start, MAX_OPERATORS, before, |operators|, items);
  }

  method PutCreator(walker: HashWalker, creator: Creator, configOnly: bool) returns (r: WalkResult)
    requires walker.Aligned()
    modifies walker
    ensures Put(old(walker.buffer), walker.buffer, r, Container(CreatorFields(creator, configOnly)))
  {
    ghost var before, fields := walker.buffer, CreatorFields(creator, configOnly);
    ContainerFits(fields);
    OneValue(before, fields[0]);
    if !configOnly {
      TwoValues(before, fields[0], fields[1]);
    }
    var start := walker.Index();
    var _ :- PutAddress(walker, creator.address);
    if !configOnly {
      var _ :- PutBytesN(walker, creator.configSignature, K1_SIGNATURE_LENGTH);
    }
    r := CloseContainer(walker, start, before, fields);
  }

  method PutAddressPair(walker: HashWalker, addresses: ValidatorAddresses) returns (r: WalkResult)
    requires walker.Aligned()
    modifies walker
    ensures Put(old(walker.buffer), walker.buffer, r, Container(AddressesFields(addresses)))
  {
    ghost var before, fields := walker.buffer, AddressesFields(addresses);
    ContainerFits(fields);
    TwoValues(before, fields[0], fields[1]);
    var start := walker.Index();
    var _ :- PutAddress(walker, addresses.feeRecipient);
    var _ :- PutAddress(walker, addresses.withdrawal);
    r := CloseContainer(walker, start, before, fields);
  }

  method PutAddresses(walker: HashWalker, addresses: seq<ValidatorAddresses>) returns (r: WalkResult)
    requires walker.Aligned()
    modifies walker
    ensures Put(old(walker.buffer), walker.buffer, r, List(AddressesItems(addresses), MAX_VALIDATORS))
  {
    ghost var before, items := walker.buffer, AddressesItems(addresses);
    ListFits(items, MAX_VALIDATORS);
    WalkStarts(before, items);
    var start := walker.Index();
    for i := 0 to |addresses|
      invariant Walked(before, walker.buffer, items, i)
    {
      ghost var middle := walker.buffer;
      var put := PutAddressPair(walker, addresses[i]);
      WalkSteps(before, middle, walker.buffer, put, items, i);
      var _ :- put;
    }
    r := CloseItems(walker, start, MAX_VALIDATORS, before, |addresses|, items);
  }

  method PutIdentity(walker: HashWalker, d: Definition) returns (r: WalkResult)
    requires walker.Aligned()
    modifies walker
    ensures PutAll(old(walker.buffer), walker.buffer, r, IdentityFields(d))
  {
    ghost var fields := IdentityFields(d);
    FourValues(walker.buffer, fields[0], fields[1], fields[2], fields[3]);
    var _ :- PutByteList(walker, d.uuid, MAX_UUID_BYTES);
    var _ :- PutByteList(walker, d.name, MAX_NAME_BYTES);
    var _ :- PutByteList(walker, d.version, MAX_VERSION_BYTES);
    r := PutByteList(walker, d.timestamp, MAX_TIMESTAMP_BYTES);
  }

  method PutParameters(walker: HashWalker, d: Definition) returns (r: WalkResult)
    requires walker.Aligned()
    modifies walker
    ensures PutAll(old(walker.buffer), walker.buffer, r, ParameterFields(d))
  {
    ghost var fields := ParameterFields(d);
    FourValues(walker.buffer, fields[0], fields[1], fields[2], fields[3]);
    var _ :- walker.PutUint64(d.numValidators);
    var _ :- walker.PutUint64(d.threshold);
    var _ :- PutByteList(walker, d.dkgAlgorithm, MAX_DKG_ALGORITHM_BYTES);
    r := PutBytesN(walker, d.forkVersion, FORK_VERSION_LENGTH);
  }

  method PutMembers(walker: HashWalker, d: Definition, configOnly: bool) returns (r: WalkResult)
    requires walker.Aligned()
    modifies walker
    ensures PutAll(old(walker.buffer), walker.buffer, r, MemberFields(d, configOnly))
  {
    ghost var fields := MemberFields(d, configOnly);
    ThreeValues(walker.buffer, fields[0], fields[1], fields[2]);
    var _ :- PutOperators(walker, d.operators, configOnly);
    var _ :- PutCreator(walker, d.creator, configOnly);
    r := PutAddresses(walker, d.validatorAddresses);
  }

  method PutOptions(walker: HashWalker, d: Definition) returns (r: WalkResult)
    requires walker.Aligned()
    modifies walker
    ensures PutAll(old(walker.buffer), walker.buffer, r, OptionFields(d))
  {
    ghost var before, fields := walker.buffer, OptionFields(d);
    FourValues(before, fields[0], fields[1], fields[2], fields[3]);
    var amounts := walker.PutUint64Array(d.depositAmounts, MAX_DEPOSIT_AMOUNTS);
    ghost var limit := CalculateLimit(MAX_DEPOSIT_AMOUNTS, |d.depositAmounts|, UINT64_SIZE);
    ExactCapacityPut(d.depositAmounts, MAX_DEPOSIT_AMOUNTS, limit, before, walker.buffer, amounts);
    var _ :- amounts;
    var _ :- PutByteList(walker, d.consensusProtocol, MAX_NAME_BYTES);
    var _ :- walker.PutUint64(d.targetGasLimit);
    walker.PutBool(d.compounding);
    r := Success(());
  }

  method PutStoredHash(walker: HashWalker, d: Definition, configOnly: bool) returns (r: WalkResult)
    requires walker.Aligned()
    modifies walker
    ensures PutAll(old(walker.buffer), walker.buffer, r, StoredHashFields(d, configOnly))
  {
    if configOnly {
      return Success(());
    }
    OneValue(walker.buffer, Fixed(d.configHash, HASH_LENGTH));
    r := PutBytesN(walker, d.configHash, HASH_LENGTH);
  }

  lemma DefinitionFits(d: Definition, configOnly: bool)
    ensures AllFit(DefinitionFields(d, configOnly))
            <==> AllFit(IdentityFields(d)) && AllFit(ParameterFields(d)) && AllFit(MemberFields(d, configOnly))
                 && AllFit(OptionFields(d)) && AllFit(StoredHashFields(d, configOnly))
  {
    var i, p, m, o := IdentityFields(d), ParameterFields(d), MemberFields(d, configOnly), OptionFields(d);
    AllFitConcat(i, p);
    AllFitConcat(i + p, m);
    AllFitConcat(i + p + m, o);
    AllFitConcat(i + p + m + o, StoredHashFields(d, configOnly));
  }

  /** The walk over a definition's fields, in their order. */
  method PutDefinitionFields(walker: HashWalker, d: Definition, configOnly: bool) returns (r: WalkResult)
    requires walker.Aligned()
    modifies walker
    ensures PutAll(old(walker.buffer), walker.buffer, r, DefinitionFields(d, configOnly))
  {
    DefinitionFits(d, configOnly);
    ghost var ok: WalkResult, before := Success(()), walker.buffer;
    ghost var i, p, m, o := IdentityFields(d), ParameterFields(d), MemberFields(d, configOnly), OptionFields(d);
    var _ :- PutIdentity(walker, d);
    ghost var b1 := walker.buffer;
    var _ :- PutParameters(walker, d);
    PutBoth(before, b1, walker.buffer, ok, ok, i, p);
    ghost var b2 := walker.buffer;
    var _ :- PutMembers(walker, d, configOnly);
    PutBoth(before, b2, walker.buffer, ok, ok, i + p, m);
    ghost var b3 := walker.buffer;
    var _ :- PutOptions(walker, d);
    PutBoth(before, b3, walker.buffer, ok, ok, i + p + m, o);
    ghost var b4 := walker.buffer;
    r := PutStoredHash(walker, d, configOnly);
    PutBoth(before, b4, walker.buffer, ok, r, i + p + m + o, StoredHashFields(d, configOnly));
  }

  method HashDefinition(walker: HashWalker, d: Definition, configOnly: bool) returns (r: WalkResult)
    requires walker.Aligned()
    modifies walker
    ensures Put(old(walker.buffer), walker.buffer, r, DefinitionValue(d, configOnly))
  {
    ghost var before := walker.buffer;
    ContainerFits(DefinitionFields(d, configOnly));
    var start := walker.Index();
    var _ :- PutDefinitionFields(walker, d, configOnly);
    r := CloseContainer(walker, start, before, DefinitionFields(d, configOnly));
  }

  method PutValidators(walker: HashWalker, validators: seq<DistValidator>) returns (r: WalkResult)
    requires walker.Aligned()
    modifies walker
    ensures Put(old(walker.buffer), walker.buffer, r, List(ValidatorItems(validators), MAX_VALIDATORS))
  {
    ghost var before, items := walker.buffer, ValidatorItems(validators);
    ListFits(items, MAX_VALIDATORS);
    WalkStarts(before, items);
    var start := walker.Index();
    for i := 0 to |validators|
      invariant Walked(before, walker.buffer, items, i)
    {
      ghost var middle := walker.buffer;
      var put := HashValidator(walker, validators[i]);
      WalkSteps(before, middle, walker.buffer, put, items, i);
      var _ :- put;
    }
    r := CloseItems(walker, start, MAX_VALIDATORS, before, |validators|, items);
  }

  method HashLock(walker: HashWalker, lock: Lock) returns (r: WalkResult)
    requires walker.Aligned()
    modifies walker
    ensures Put(old(walker.buffer), walker.buffer, r, LockValue(lock))
  {
    ghost var before, fields := walker.buffer, LockFields(lock);
    TwoValues(before, fields[0], fields[1]);
    ContainerFits(fields);
    var start := walker.Index();
    var _ :- HashDefinition(walker, lock.definition, false);
    var _ :- PutValidators(walker, lock.validators);
    r := CloseContainer(walker, start, before, fields);
  }

  // Entry points

  /** A hash exists exactly when the version is the supported one and every field fits its type; it
      is then the value's root. No walk ends incomplete or unaligned. */
  ghost predicate HashesTo(r: Result<Bytes, ValueError>, version: Bytes, v: Value) {
    if version != VERSION_V1X10 then r == Failure(UnsupportedVersion)
    else
      && (r.Success? <==> Fits(v))
      && (r.Failure? ==> FromContent(r.error))
      && (r.Success? ==> r.value == HashTreeRoot(v))
  }

  method RequireSupportedVersion(version: Bytes) returns (r: WalkResult)
    ensures r == if version == VERSION_V1X10 then Success(()) else Failure(UnsupportedVersion)
  {
    if version !in [VERSION_V1X10] {
      return Failure(UnsupportedVersion);
    }
    r := Success(());
  }

  method ConfigHash(definition: Definition) returns (r: Result<Bytes, ValueError>)
    ensures HashesTo(r, definition.version, DefinitionValue(definition, true))
  {
    var _ :- RequireSupportedVersion(definition.version);
    var walker := new HashWalker();
    var _ :- HashDefinition(walker, definition, true);
    assert [] + HashTreeRoot(DefinitionValue(definition, true)) == HashTreeRoot(DefinitionValue(definition, true));
    r := walker.HashRoot();
  }

  method DefinitionHash(definition: Definition) returns (r: Result<Bytes, ValueError>)
    ensures HashesTo(r, definition.version, DefinitionValue(definition, false))
  {
    var _ :- RequireSupportedVersion(definition.version);
    var walker := new HashWalker();
    var _ :- HashDefinition(walker, definition, false);
    assert [] + HashTreeRoot(DefinitionValue(definition, false)) == HashTreeRoot(DefinitionValue(definition, false));
    r := walker.HashRoot();
  }

  method LockHash(lock: Lock) returns (r: Result<Bytes, ValueError>)
    ensures HashesTo(r, lock.definition.version, LockValue(lock))
  {
    var _ :- RequireSupportedVersion(lock.definition.version);
    var walker := new HashWalker();
    var _ :- HashLock(walker, lock);
    assert [] + HashTreeRoot(LockValue(lock)) == HashTreeRoot(LockValue(lock));
    r := walker.HashRoot();
  }
}
