/** What a cluster hash binds: equal hashes exactly for equal covered content. */
module ClusterBinding {
  import opened SymbolicBytes
  import opened Wrappers
  import opened Ssz
  import opened SszValues
  import opened HashWalking
  import opened ClusterDefinition
  import opened ClusterSchema
  import opened ClusterHashing

  // Equal content

  /** Equal once left-padded to their fixed size. */
  predicate SameFixed(a: Bytes, b: Bytes, size: nat) {
    Fixed(a, size) == Fixed(b, size)
  }

  /** The 20 bytes an address stands for; an absent one stands for zeros. */
  function AddressBytes(address: string): Result<seq<byte>, ValueError> {
    var raw :- DecodeAddress(address);
    Success(if raw == [] then seq(ADDRESS_LENGTH, _ => 0) else raw)
  }

  predicate SameAddress(a: string, b: string) {
    AddressBytes(a) == AddressBytes(b)
  }

  predicate SameOperator(a: Operator, b: Operator, configOnly: bool) {
    && SameAddress(a.address, b.address)
    && (!configOnly ==>
          && a.enr == b.enr
          && SameFixed(a.configSignature, b.configSignature, K1_SIGNATURE_LENGTH)
          && SameFixed(a.enrSignature, b.enrSignature, K1_SIGNATURE_LENGTH))
  }

  predicate SameCreator(a: Creator, b: Creator, configOnly: bool) {
    && SameAddress(a.address, b.address)
    && (!configOnly ==> SameFixed(a.configSignature, b.configSignature, K1_SIGNATURE_LENGTH))
  }

  predicate SameAddresses(a: ValidatorAddresses, b: ValidatorAddresses) {
    SameAddress(a.feeRecipient, b.feeRecipient) && SameAddress(a.withdrawal, b.withdrawal)
  }

  predicate SameOperators(a: seq<Operator>, b: seq<Operator>, configOnly: bool) {
    |a| == |b| && forall i :: 0 <= i < |a| ==> SameOperator(a[i], b[i], configOnly)
  }

  predicate SameAddressLists(a: seq<ValidatorAddresses>, b: seq<ValidatorAddresses>) {
    |a| == |b| && forall i :: 0 <= i < |a| ==> SameAddresses(a[i], b[i])
  }

  predicate SameMembers(a: Definition, b: Definition, configOnly: bool) {
    && SameOperators(a.operators, b.operators, configOnly)
    && SameCreator(a.creator, b.creator, configOnly)
    && SameAddressLists(a.validatorAddresses, b.validatorAddresses)
  }

  predicate SameIdentity(a: Definition, b: Definition) {
    a.uuid == b.uuid && a.name == b.name && a.version == b.version && a.timestamp == b.timestamp
  }

  predicate SameParameters(a: Definition, b: Definition) {
    && a.numValidators == b.numValidators && a.threshold == b.threshold && a.dkgAlgorithm == b.dkgAlgorithm
    && SameFixed(a.forkVersion, b.forkVersion, FORK_VERSION_LENGTH)
  }

  predicate SameOptions(a: Definition, b: Definition) {
    && a.depositAmounts == b.depositAmounts && a.consensusProtocol == b.consensusProtocol
    && a.targetGasLimit == b.targetGasLimit && a.compounding == b.compounding
  }

  predicate SameStoredHash(a: Definition, b: Definition, configOnly: bool) {
    !configOnly ==> SameFixed(a.configHash, b.configHash, HASH_LENGTH)
  }

  /** The definitions agree on everything their hash covers: the stored definition hash is never
      covered, and the config hash covers no ENR, signature or stored hash either. */
  predicate SameDefinition(a: Definition, b: Definition, configOnly: bool) {
    && SameIdentity(a, b) && SameParameters(a, b) && SameMembers(a, b, configOnly) && SameOptions(a, b)
    && SameStoredHash(a, b, configOnly)
  }

  predicate SameDeposit(a: DepositData, b: DepositData) {
    && SameFixed(a.pubkey, b.pubkey, PUBKEY_LENGTH)
    && SameFixed(a.withdrawalCredentials, b.withdrawalCredentials, WITHDRAWAL_CREDENTIALS_LENGTH)
    && a.amount == b.amount
    && SameFixed(a.signature, b.signature, BLS_SIGNATURE_LENGTH)
  }

  /** The one field whose length the walk does not fix. An empty one is no field at all, and others are
      told apart as far as their trees are. */
  predicate SameRecipient(a: Bytes, b: Bytes) {
    (a == [] <==> b == []) && (a != [] ==> SameTree(a, b))
  }

  predicate SameRegistration(a: Registration, b: Registration) {
    && SameRecipient(a.feeRecipient, b.feeRecipient) && a.gasLimit == b.gasLimit && a.timestamp == b.timestamp
    && SameFixed(a.pubkey, b.pubkey, PUBKEY_LENGTH)
  }

  predicate SameBuilder(a: BuilderRegistration, b: BuilderRegistration) {
    SameRegistration(a.message, b.message) && SameFixed(a.signature, b.signature, BLS_SIGNATURE_LENGTH)
  }

  predicate SameShares(a: seq<Bytes>, b: seq<Bytes>) {
    |a| == |b| && forall i :: 0 <= i < |a| ==> SameFixed(a[i], b[i], PUBKEY_LENGTH)
  }

  predicate SameDeposits(a: seq<DepositData>, b: seq<DepositData>) {
    |a| == |b| && forall i :: 0 <= i < |a| ==> SameDeposit(a[i], b[i])
  }

  predicate SameValidator(a: DistValidator, b: DistValidator) {
    && SameFixed(a.pubkey, b.pubkey, PUBKEY_LENGTH)
    && SameShares(a.pubshares, b.pubshares)
    && SameDeposits(a.partialDepositData, b.partialDepositData)
    && SameBuilder(a.builderRegistration, b.builderRegistration)
  }

  predicate SameValidators(a: seq<DistValidator>, b: seq<DistValidator>) {
    |a| == |b| && forall i :: 0 <= i < |a| ==> SameValidator(a[i], b[i])
  }

  /** The locks agree on their definitions and validators, which is what their hash covers. */
  predicate SameLock(a: Lock, b: Lock) {
    SameDefinition(a.definition, b.definition, false) && SameValidators(a.validators, b.validators)
  }

  // Equal content is equal values

  lemma AddressValues(a: string, b: string)
    requires Fits(AddressValue(a)) && Fits(AddressValue(b))
    ensures AddressValue(a) == AddressValue(b) <==> SameAddress(a, b)
    ensures SameShape(AddressValue(a), AddressValue(b))
  {
    var x, y := DecodeAddress(a).value, DecodeAddress(b).value;
    var p, q := AddressBytes(a).value, AddressBytes(b).value;
    assert AddressValue(a) == ByteVector(Lits(p)) by {
      assert Zeros(ADDRESS_LENGTH - |x|) + Lits(x) == Lits(p);
    }
    assert AddressValue(b) == ByteVector(Lits(q)) by {
      assert Zeros(ADDRESS_LENGTH - |y|) + Lits(y) == Lits(q);
    }
    if AddressValue(a) == AddressValue(b) {
      LitsInjective(p, q);
    }
  }

  lemma FixedValues(a: Bytes, b: Bytes, size: nat)
    requires Fits(Fixed(a, size)) && Fits(Fixed(b, size))
    ensures SameShape(Fixed(a, size), Fixed(b, size))
  {
  }

  /** Two values agree: one shape, and equal exactly when `same` says so. */
  ghost predicate Agree(v: Value, w: Value, same: bool) {
    SameShape(v, w) && (v == w <==> same)
  }

  ghost predicate FieldsAgree(vs: seq<Value>, ws: seq<Value>, same: bool) {
    && |vs| == |ws|
    && (forall i :: 0 <= i < |vs| ==> SameShape(vs[i], ws[i]))
    && (vs == ws <==> same)
  }

  lemma ContainersAgree(vs: seq<Value>, ws: seq<Value>, same: bool)
    requires FieldsAgree(vs, ws, same)
    ensures Agree(Container(vs), Container(ws), same)
  {
  }

  lemma ConcatsAgree(vs: seq<Value>, ws: seq<Value>, p: bool, xs: seq<Value>, ys: seq<Value>, q: bool)
    requires FieldsAgree(vs, ws, p) && FieldsAgree(xs, ys, q)
    ensures FieldsAgree(vs + xs, ws + ys, p && q)
  {
    if vs + xs == ws + ys {
      assert vs == (vs + xs)[..|vs|] && ws == (ws + ys)[..|vs|];
      assert xs == (vs + xs)[|vs|..] && ys == (ws + ys)[|vs|..];
    }
  }

  lemma OneAgrees(a: Value, b: Value, p: bool)
    requires Agree(a, b, p)
    ensures FieldsAgree([a], [b], p)
  {
    if [a] == [b] {
      assert [a][0] == [b][0];
    }
  }

  lemma TwoAgree(a: Value, b: Value, p: bool, c: Value, d: Value, q: bool)
    requires Agree(a, b, p) && Agree(c, d, q)
    ensures FieldsAgree([a, c], [b, d], p && q)
  {
    OneAgrees(a, b, p);
    OneAgrees(c, d, q);
    ConcatsAgree([a], [b], p, [c], [d], q);
    assert [a] + [c] == [a, c] && [b] + [d] == [b, d];
  }

  lemma ThreeAgree(a: Value, b: Value, p: bool, c: Value, d: Value, q: bool, e: Value, f: Value, r: bool)
    requires Agree(a, b, p) && Agree(c, d, q) && Agree(e, f, r)
    ensures FieldsAgree([a, c, e], [b, d, f], p && q && r)
  {
    TwoAgree(a, b, p, c, d, q);
    OneAgrees(e, f, r);
    ConcatsAgree([a, c], [b, d], p && q, [e], [f], r);
    assert [a, c] + [e] == [a, c, e] && [b, d] + [f] == [b, d, f];
  }

  lemma FourAgree(a: Value, b: Value, p: bool, c: Value, d: Value, q: bool,
                  e: Value, f: Value, r: bool, g: Value, h: Value, s: bool)
    requires Agree(a, b, p) && Agree(c, d, q) && Agree(e, f, r) && Agree(g, h, s)
    ensures FieldsAgree([a, c, e, g], [b, d, f, h], p && q && r && s)
  {
    TwoAgree(a, b, p, c, d, q);
    TwoAgree(e, f, r, g, h, s);
    ConcatsAgree([a, c], [b, d], p && q, [e, g], [f, h], r && s);
    assert [a, c] + [e, g] == [a, c, e, g] && [b, d] + [f, h] == [b, d, f, h];
  }

  lemma ListsAgree(xs: seq<Value>, ys: seq<Value>, max: nat, same: bool)
    requires forall i :: 0 <= i < |xs| && i < |ys| ==> SameShape(xs[i], ys[i])
    requires xs == ys <==> same
    ensures Agree(List(xs, max), List(ys, max), same)
  {
  }

  lemma OperatorsAgree(a: Operator, b: Operator, configOnly: bool)
    requires Fits(Container(OperatorFields(a, configOnly))) && Fits(Container(OperatorFields(b, configOnly)))
    ensures Agree(Container(OperatorFields(a, configOnly)), Container(OperatorFields(b, configOnly)),
                  SameOperator(a, b, configOnly))
  {
    var vs, ws := OperatorFields(a, configOnly), OperatorFields(b, configOnly);
    ContainerFits(vs);
    ContainerFits(ws);
    assert Fits(vs[0]) && Fits(ws[0]);
    AddressValues(a.address, b.address);
    var p := SameAddress(a.address, b.address);
    if configOnly {
      OneAgrees(vs[0], ws[0], p);
    } else {
      assert Fits(vs[2]) && Fits(ws[2]) && Fits(vs[3]) && Fits(ws[3]);
      var q := SameFixed(a.configSignature, b.configSignature, K1_SIGNATURE_LENGTH);
      var r := SameFixed(a.enrSignature, b.enrSignature, K1_SIGNATURE_LENGTH);
      FixedValues(a.configSignature, b.configSignature, K1_SIGNATURE_LENGTH);
      FixedValues(a.enrSignature, b.enrSignature, K1_SIGNATURE_LENGTH);
      FourAgree(vs[0], ws[0], p, vs[1], ws[1], a.enr == b.enr, vs[2], ws[2], q, vs[3], ws[3], r);
    }
    ContainersAgree(vs, ws, SameOperator(a, b, configOnly));
  }

  lemma CreatorsAgree(a: Creator, b: Creator, configOnly: bool)
    requires Fits(Container(CreatorFields(a, configOnly))) && Fits(Container(CreatorFields(b, configOnly)))
    ensures Agree(Container(CreatorFields(a, configOnly)), Container(CreatorFields(b, configOnly)),
                  SameCreator(a, b, configOnly))
  {
    var vs, ws := CreatorFields(a, configOnly), CreatorFields(b, configOnly);
    ContainerFits(vs);
    ContainerFits(ws);
    assert Fits(vs[0]) && Fits(ws[0]);
    AddressValues(a.address, b.address);
    var p := SameAddress(a.address, b.address);
    if configOnly {
      OneAgrees(vs[0], ws[0], p);
    } else {
      assert Fits(vs[1]) && Fits(ws[1]);
      FixedValues(a.configSignature, b.configSignature, K1_SIGNATURE_LENGTH);
      TwoAgree(vs[0], ws[0], p, vs[1], ws[1], SameFixed(a.configSignature, b.configSignature, K1_SIGNATURE_LENGTH));
    }
    ContainersAgree(vs, ws, SameCreator(a, b, configOnly));
  }

  lemma AddressPairsAgree(a: ValidatorAddresses, b: ValidatorAddresses)
    requires Fits(Container(AddressesFields(a))) && Fits(Container(AddressesFields(b)))
    ensures Agree(Container(AddressesFields(a)), Container(AddressesFields(b)), SameAddresses(a, b))
  {
    var vs, ws := AddressesFields(a), AddressesFields(b);
    ContainerFits(vs);
    ContainerFits(ws);
    assert Fits(vs[0]) && Fits(ws[0]) && Fits(vs[1]) && Fits(ws[1]);
    AddressValues(a.feeRecipient, b.feeRecipient);
    AddressValues(a.withdrawal, b.withdrawal);
    TwoAgree(vs[0], ws[0], SameAddress(a.feeRecipient, b.feeRecipient),
             vs[1], ws[1], SameAddress(a.withdrawal, b.withdrawal));
    ContainersAgree(vs, ws, SameAddresses(a, b));
  }

  lemma OperatorListsAgree(a: seq<Operator>, b: seq<Operator>, configOnly: bool)
    requires Fits(List(OperatorItems(a, configOnly), MAX_OPERATORS))
    requires Fits(List(OperatorItems(b, configOnly), MAX_OPERATORS))
    ensures Agree(List(OperatorItems(a, configOnly), MAX_OPERATORS), List(OperatorItems(b, configOnly), MAX_OPERATORS),
                  SameOperators(a, b, configOnly))
  {
    var xs, ys := OperatorItems(a, configOnly), OperatorItems(b, configOnly);
    ListFits(xs, MAX_OPERATORS);
    ListFits(ys, MAX_OPERATORS);
    forall i | 0 <= i < |a| && i < |b|
      ensures Agree(xs[i], ys[i], SameOperator(a[i], b[i], configOnly))
    {
      OperatorsAgree(a[i], b[i], configOnly);
    }
    ListsAgree(xs, ys, MAX_OPERATORS, SameOperators(a, b, configOnly));
  }

  lemma AddressListsAgree(a: seq<ValidatorAddresses>, b: seq<ValidatorAddresses>)
    requires Fits(List(AddressesItems(a), MAX_VALIDATORS)) && Fits(List(AddressesItems(b), MAX_VALIDATORS))
    ensures Agree(List(AddressesItems(a), MAX_VALIDATORS), List(AddressesItems(b), MAX_VALIDATORS),
                  SameAddressLists(a, b))
  {
    var xs, ys := AddressesItems(a), AddressesItems(b);
    ListFits(xs, MAX_VALIDATORS);
    ListFits(ys, MAX_VALIDATORS);
    forall i | 0 <= i < |a| && i < |b|
      ensures Agree(xs[i], ys[i], SameAddresses(a[i], b[i]))
    {
      AddressPairsAgree(a[i], b[i]);
    }
    ListsAgree(xs, ys, MAX_VALIDATORS, SameAddressLists(a, b));
  }

  lemma IdentityAgrees(a: Definition, b: Definition)
    ensures FieldsAgree(IdentityFields(a), IdentityFields(b), SameIdentity(a, b))
  {
    var vs, ws := IdentityFields(a), IdentityFields(b);
    if vs == ws {
      assert vs[0] == ws[0] && vs[1] == ws[1] && vs[2] == ws[2] && vs[3] == ws[3];
    }
  }

  lemma ParametersAgree(a: Definition, b: Definition)
    requires AllFit(ParameterFields(a)) && AllFit(ParameterFields(b))
    ensures FieldsAgree(ParameterFields(a), ParameterFields(b), SameParameters(a, b))
  {
    var vs, ws := ParameterFields(a), ParameterFields(b);
    assert Fits(vs[3]) && Fits(ws[3]);
    if vs == ws {
      assert vs[0] == ws[0] && vs[1] == ws[1] && vs[2] == ws[2] && vs[3] == ws[3];
    }
  }

  lemma {:induction false} MembersAgree(a: Definition, b: Definition, configOnly: bool)
    requires AllFit(MemberFields(a, configOnly)) && AllFit(MemberFields(b, configOnly))
    ensures FieldsAgree(MemberFields(a, configOnly), MemberFields(b, configOnly), SameMembers(a, b, configOnly))
  {
    var vs, ws := MemberFields(a, configOnly), MemberFields(b, configOnly);
    assert Fits(vs[0]) && Fits(ws[0]) && Fits(vs[1]) && Fits(ws[1]) && Fits(vs[2]) && Fits(ws[2]);
    OperatorListsAgree(a.operators, b.operators, configOnly);
    CreatorsAgree(a.creator, b.creator, configOnly);
    AddressListsAgree(a.validatorAddresses, b.validatorAddresses);
    ThreeAgree(vs[0], ws[0], SameOperators(a.operators, b.operators, configOnly),
               vs[1], ws[1], SameCreator(a.creator, b.creator, configOnly),
               vs[2], ws[2], SameAddressLists(a.validatorAddresses, b.validatorAddresses));
  }

  lemma OptionsAgree(a: Definition, b: Definition)
    ensures FieldsAgree(OptionFields(a), OptionFields(b), SameOptions(a, b))
  {
    var vs, ws := OptionFields(a), OptionFields(b);
    if vs == ws {
      assert vs[0] == ws[0] && vs[1] == ws[1] && vs[2] == ws[2] && vs[3] == ws[3];
    }
  }

  lemma StoredHashesAgree(a: Definition, b: Definition, configOnly: bool)
    requires AllFit(StoredHashFields(a, configOnly)) && AllFit(StoredHashFields(b, configOnly))
    ensures FieldsAgree(StoredHashFields(a, configOnly), StoredHashFields(b, configOnly),
                        SameStoredHash(a, b, configOnly))
  {
    if !configOnly {
      var vs, ws := StoredHashFields(a, configOnly), StoredHashFields(b, configOnly);
      assert Fits(vs[0]) && Fits(ws[0]);
    }
  }

  lemma DefinitionsAgree(a: Definition, b: Definition, configOnly: bool)
    requires Fits(DefinitionValue(a, configOnly)) && Fits(DefinitionValue(b, configOnly))
    ensures Agree(DefinitionValue(a, configOnly), DefinitionValue(b, configOnly), SameDefinition(a, b, configOnly))
  {
    ContainerFits(DefinitionFields(a, configOnly));
    ContainerFits(DefinitionFields(b, configOnly));
    DefinitionFits(a, configOnly);
    DefinitionFits(b, configOnly);
    IdentityAgrees(a, b);
    ParametersAgree(a, b);
    MembersAgree(a, b, configOnly);
    OptionsAgree(a, b);
    StoredHashesAgree(a, b, configOnly);
    var i, p, m, o := IdentityFields(a), ParameterFields(a), MemberFields(a, configOnly), OptionFields(a);
    var j, q, n, u := IdentityFields(b), ParameterFields(b), MemberFields(b, configOnly), OptionFields(b);
    var si, sp, sm, so := SameIdentity(a, b), SameParameters(a, b), SameMembers(a, b, configOnly), SameOptions(a, b);
    ConcatsAgree(i, j, si, p, q, sp);
    ConcatsAgree(i + p, j + q, si && sp, m, n, sm);
    ConcatsAgree(i + p + m, j + q + n, si && sp && sm, o, u, so);
    ConcatsAgree(i + p + m + o, j + q + n + u, si && sp && sm && so,
                 StoredHashFields(a, configOnly), StoredHashFields(b, configOnly), SameStoredHash(a, b, configOnly));
    ContainersAgree(DefinitionFields(a, configOnly), DefinitionFields(b, configOnly), SameDefinition(a, b, configOnly));
  }

  lemma DepositsAgree(a: DepositData, b: DepositData)
    requires Fits(Container(DepositFields(a))) && Fits(Container(DepositFields(b)))
    ensures Agree(Container(DepositFields(a)), Container(DepositFields(b)), SameDeposit(a, b))
  {
    var vs, ws := DepositFields(a), DepositFields(b);
    ContainerFits(vs);
    ContainerFits(ws);
    assert Fits(vs[0]) && Fits(ws[0]) && Fits(vs[1]) && Fits(ws[1]) && Fits(vs[3]) && Fits(ws[3]);
    FixedValues(a.pubkey, b.pubkey, PUBKEY_LENGTH);
    FixedValues(a.withdrawalCredentials, b.withdrawalCredentials, WITHDRAWAL_CREDENTIALS_LENGTH);
    FixedValues(a.signature, b.signature, BLS_SIGNATURE_LENGTH);
    FourAgree(vs[0], ws[0], SameFixed(a.pubkey, b.pubkey, PUBKEY_LENGTH),
              vs[1], ws[1], SameFixed(a.withdrawalCredentials, b.withdrawalCredentials, WITHDRAWAL_CREDENTIALS_LENGTH),
              vs[2], ws[2], a.amount == b.amount,
              vs[3], ws[3], SameFixed(a.signature, b.signature, BLS_SIGNATURE_LENGTH));
    ContainersAgree(vs, ws, SameDeposit(a, b));
  }

  lemma DepositItemsAgree(v: Value, w: Value, a: DepositData, b: DepositData)
    requires v == Container([Container(DepositFields(a))]) && w == Container([Container(DepositFields(b))])
    requires Fits(v) && Fits(w)
    ensures Agree(v, w, SameDeposit(a, b))
  {
    ContainerFits(v.fields);
    ContainerFits(w.fields);
    assert Fits(v.fields[0]) && Fits(w.fields[0]);
    DepositsAgree(a, b);
    OneAgrees(v.fields[0], w.fields[0], SameDeposit(a, b));
    ContainersAgree(v.fields, w.fields, SameDeposit(a, b));
  }

  lemma DepositListsAgree(a: seq<DepositData>, b: seq<DepositData>)
    requires Fits(List(DepositItems(a), MAX_DEPOSIT_AMOUNTS)) && Fits(List(DepositItems(b), MAX_DEPOSIT_AMOUNTS))
    ensures Agree(List(DepositItems(a), MAX_DEPOSIT_AMOUNTS), List(DepositItems(b), MAX_DEPOSIT_AMOUNTS),
                  SameDeposits(a, b))
  {
    var xs, ys := DepositItems(a), DepositItems(b);
    ListFits(xs, MAX_DEPOSIT_AMOUNTS);
    ListFits(ys, MAX_DEPOSIT_AMOUNTS);
    forall i | 0 <= i < |a| && i < |b|
      ensures Agree(xs[i], ys[i], SameDeposit(a[i], b[i]))
    {
      DepositItemsAgree(xs[i], ys[i], a[i], b[i]);
    }
    ListsAgree(xs, ys, MAX_DEPOSIT_AMOUNTS, SameDeposits(a, b));
  }

  lemma ShareListsAgree(a: seq<Bytes>, b: seq<Bytes>)
    requires Fits(List(ShareItems(a), MAX_OPERATORS)) && Fits(List(ShareItems(b), MAX_OPERATORS))
    ensures Agree(List(ShareItems(a), MAX_OPERATORS), List(ShareItems(b), MAX_OPERATORS), SameShares(a, b))
  {
    var xs, ys := ShareItems(a), ShareItems(b);
    ListFits(xs, MAX_OPERATORS);
    ListFits(ys, MAX_OPERATORS);
    forall i | 0 <= i < |a| && i < |b|
      ensures Agree(xs[i], ys[i], SameFixed(a[i], b[i], PUBKEY_LENGTH))
    {
      FixedValues(a[i], b[i], PUBKEY_LENGTH);
    }
    ListsAgree(xs, ys, MAX_OPERATORS, SameShares(a, b));
  }

  // Equal content is equal roots

  /** Two values have one root exactly when `same` says so. */
  ghost predicate RootsAgree(v: Value, w: Value, same: bool) {
    Fits(v) && Fits(w) && (HashTreeRoot(v) == HashTreeRoot(w) <==> same)
  }

  ghost predicate FieldRootsAgree(vs: seq<Value>, ws: seq<Value>, same: bool) {
    |vs| == |ws| && AllFit(vs) && AllFit(ws) && (Roots(vs) == Roots(ws) <==> same)
  }

  lemma AgreeingRoots(v: Value, w: Value, same: bool)
    requires Agree(v, w, same) && Fits(v) && Fits(w)
    ensures RootsAgree(v, w, same)
  {
    if HashTreeRoot(v) == HashTreeRoot(w) {
      RootBinds(v, w);
    }
  }

  lemma ContainerRootsAgree(vs: seq<Value>, ws: seq<Value>, same: bool)
    requires FieldRootsAgree(vs, ws, same)
    ensures RootsAgree(Container(vs), Container(ws), same)
  {
    ContainerFits(vs);
    ContainerFits(ws);
    ContainerRoot(vs);
    ContainerRoot(ws);
    if HashTreeRoot(Container(vs)) == HashTreeRoot(Container(ws)) {
      ChunkTreeInjective(Roots(vs), Roots(ws), |vs|);
    }
  }

  lemma ListRootsAgree(xs: seq<Value>, ys: seq<Value>, max: nat, same: bool)
    requires Fits(List(xs, max)) && Fits(List(ys, max))
    requires AllFit(xs) && AllFit(ys) && (Roots(xs) == Roots(ys) <==> same)
    ensures RootsAgree(List(xs, max), List(ys, max), same)
  {
    ListRoot(xs, max);
    ListRoot(ys, max);
    if HashTreeRoot(List(xs, max)) == HashTreeRoot(List(ys, max)) {
      MixInInjective(ChunkTree(Roots(xs), max), |xs|, ChunkTree(Roots(ys), max), |ys|);
      ChunkTreeInjective(Roots(xs), Roots(ys), max);
    }
  }

  lemma OneRootAgrees(a: Value, b: Value, p: bool)
    requires RootsAgree(a, b, p)
    ensures FieldRootsAgree([a], [b], p)
  {
    assert Roots([a]) == [HashTreeRoot(a)] && Roots([b]) == [HashTreeRoot(b)];
    assert Roots([a]) == Roots([b]) ==> Roots([a])[0] == Roots([b])[0];
  }

  lemma SameConcat(a: seq<Bytes>, x: seq<Bytes>, b: seq<Bytes>, y: seq<Bytes>)
    requires |a| == |b|
    ensures a + x == b + y <==> a == b && x == y
  {
    if a + x == b + y {
      assert a == (a + x)[..|a|] && b == (b + y)[..|b|];
      assert x == (a + x)[|a|..] && y == (b + y)[|b|..];
    }
  }

  lemma RootsConcat(vs: seq<Value>, xs: seq<Value>)
    requires AllFit(vs) && AllFit(xs)
    ensures AllFit(vs + xs) && Roots(vs + xs) == Roots(vs) + Roots(xs)
  {
    AllFitConcat(vs, xs);
  }

  lemma ConcatRootsAgree(vs: seq<Value>, ws: seq<Value>, p: bool, xs: seq<Value>, ys: seq<Value>, q: bool)
    requires FieldRootsAgree(vs, ws, p) && FieldRootsAgree(xs, ys, q)
    ensures FieldRootsAgree(vs + xs, ws + ys, p && q)
  {
    RootsConcat(vs, xs);
    RootsConcat(ws, ys);
    SameConcat(Roots(vs), Roots(xs), Roots(ws), Roots(ys));
  }

  lemma TwoRootsAgree(a: Value, b: Value, p: bool, c: Value, d: Value, q: bool)
    requires RootsAgree(a, b, p) && RootsAgree(c, d, q)
    ensures FieldRootsAgree([a, c], [b, d], p && q)
  {
    OneRootAgrees(a, b, p);
    OneRootAgrees(c, d, q);
    ConcatRootsAgree([a], [b], p, [c], [d], q);
    assert [a] + [c] == [a, c] && [b] + [d] == [b, d];
  }

  lemma ThreeRootsAgree(a: Value, b: Value, p: bool, c: Value, d: Value, q: bool, e: Value, f: Value, r: bool)
    requires RootsAgree(a, b, p) && RootsAgree(c, d, q) && RootsAgree(e, f, r)
    ensures FieldRootsAgree([a, c, e], [b, d, f], p && q && r)
  {
    TwoRootsAgree(a, b, p, c, d, q);
    OneRootAgrees(e, f, r);
    ConcatRootsAgree([a, c], [b, d], p && q, [e], [f], r);
    assert [a, c] + [e] == [a, c, e] && [b, d] + [f] == [b, d, f];
  }

  lemma FourRootsAgree(a: Value, b: Value, p: bool, c: Value, d: Value, q: bool,
                       e: Value, f: Value, r: bool, g: Value, h: Value, s: bool)
    requires RootsAgree(a, b, p) && RootsAgree(c, d, q) && RootsAgree(e, f, r) && RootsAgree(g, h, s)
    ensures FieldRootsAgree([a, c, e, g], [b, d, f, h], p && q && r && s)
  {
    TwoRootsAgree(a, b, p, c, d, q);
    TwoRootsAgree(e, f, r, g, h, s);
    ConcatRootsAgree([a, c], [b, d], p && q, [e, g], [f, h], r && s);
    assert [a, c] + [e, g] == [a, c, e, g] && [b, d] + [f, h] == [b, d, f, h];
  }

  // Registrations

  lemma RecipientsAgree(x: Bytes, y: Bytes)
    ensures RootsAgree(ByteVector(x), ByteVector(y), SameTree(x, y))
  {
    ByteVectorRoot(x);
    ByteVectorRoot(y);
    HashProtoSame(x, y);
  }

  /** The fields of a registration but for the fee recipient. */
  function RegistrationTail(r: Registration): seq<Value> {
    [Uint64(r.gasLimit), Uint64(r.timestamp), Fixed(r.pubkey, PUBKEY_LENGTH)]
  }

  predicate SameTail(a: Registration, b: Registration) {
    a.gasLimit == b.gasLimit && a.timestamp == b.timestamp && SameFixed(a.pubkey, b.pubkey, PUBKEY_LENGTH)
  }

  lemma TailsAgree(a: Registration, b: Registration)
    requires AllFit(RegistrationTail(a)) && AllFit(RegistrationTail(b))
    ensures FieldRootsAgree(RegistrationTail(a), RegistrationTail(b), SameTail(a, b))
  {
    var vs, ws := RegistrationTail(a), RegistrationTail(b);
    assert Fits(vs[0]) && Fits(ws[0]) && Fits(vs[1]) && Fits(ws[1]) && Fits(vs[2]) && Fits(ws[2]);
    FixedValues(a.pubkey, b.pubkey, PUBKEY_LENGTH);
    AgreeingRoots(vs[0], ws[0], a.gasLimit == b.gasLimit);
    AgreeingRoots(vs[1], ws[1], a.timestamp == b.timestamp);
    AgreeingRoots(vs[2], ws[2], SameFixed(a.pubkey, b.pubkey, PUBKEY_LENGTH));
    ThreeRootsAgree(vs[0], ws[0], a.gasLimit == b.gasLimit, vs[1], ws[1], a.timestamp == b.timestamp,
                    vs[2], ws[2], SameFixed(a.pubkey, b.pubkey, PUBKEY_LENGTH));
  }

  /** A 48-byte vector's root is a digest. */
  lemma PubkeyRootIsDigest(pubkey: Bytes)
    requires Fits(Fixed(pubkey, PUBKEY_LENGTH))
    ensures HashTreeRoot(Fixed(pubkey, PUBKEY_LENGTH)) != ZERO_CHUNK
  {
    var data := Zeros(PUBKEY_LENGTH - |pubkey|) + pubkey;
    ByteVectorRoot(data);
    var leaves := Leaves(data);
    HashProtoIsTreeRoot(data);
    assert ChunkCount(PUBKEY_LENGTH) == 2;
    assert TreeDepth(data) == 1;
    assert HashProto(data) == Sha256(FullRoot(leaves[..1], 0) + FullRoot(leaves[1..], 0));
    assert HashProto(data)[0].Digest? && ZERO_CHUNK[0].Lit?;
  }

  lemma RegistrationFit(r: Registration)
    ensures Fits(Container(RegistrationFields(r))) <==> AllFit(RegistrationTail(r))
  {
    ContainerFits(RegistrationFields(r));
    AllFitConcat(FeeRecipientFields(r.feeRecipient), RegistrationTail(r));
  }

  lemma PubkeyLeaf(r: Registration)
    requires r.feeRecipient != [] && AllFit(RegistrationFields(r))
    ensures Roots(RegistrationFields(r))[3] != ZERO_CHUNK
  {
    var vs := RegistrationFields(r);
    assert vs[3] == Fixed(r.pubkey, PUBKEY_LENGTH) && Fits(vs[3]);
    PubkeyRootIsDigest(r.pubkey);
  }

  lemma DepthOfFour()
    ensures ListDepth(3) == 2 && ListDepth(4) == 2 && Pow2(2) == 4
  {
  }

  lemma FourthLeaf(xs: seq<Bytes>, ys: seq<Bytes>)
    requires |xs| == 3 && |ys| == 4 && Pad(xs, ZERO_CHUNK, 4) == Pad(ys, ZERO_CHUNK, 4)
    ensures ys[3] == ZERO_CHUNK
  {
    assert Pad(ys, ZERO_CHUNK, 4)[3] == ys[3];
  }

  lemma ThreeLeaves(xs: seq<Bytes>, ys: seq<Bytes>)
    requires |xs| == 3 && |ys| == 4 && AreChunks(xs) && AreChunks(ys)
    requires ChunkTree(xs, 3) == ChunkTree(ys, 4)
    ensures ys[3] == ZERO_CHUNK
  {
    DepthOfFour();
    TreeRootInjective(xs, ys, 2);
    FourthLeaf(xs, ys);
  }

  /** A registration without a recipient has three fields in the tree of four, whose last leaf is then
      zero, while with one the last leaf is the public key's root. */
  lemma AbsentRecipientDiffers(a: Registration, b: Registration)
    requires a.feeRecipient == [] && b.feeRecipient != []
    requires Fits(Container(RegistrationFields(a))) && Fits(Container(RegistrationFields(b)))
    ensures HashTreeRoot(Container(RegistrationFields(a))) != HashTreeRoot(Container(RegistrationFields(b)))
  {
    var vs, ws := RegistrationFields(a), RegistrationFields(b);
    ContainerFits(vs);
    ContainerFits(ws);
    ContainerRoot(vs);
    ContainerRoot(ws);
    PubkeyLeaf(b);
    if HashTreeRoot(Container(vs)) == HashTreeRoot(Container(ws)) {
      ThreeLeaves(Roots(vs), Roots(ws));
    }
  }

  lemma RegistrationsAgree(a: Registration, b: Registration)
    requires Fits(Container(RegistrationFields(a))) && Fits(Container(RegistrationFields(b)))
    ensures RootsAgree(Container(RegistrationFields(a)), Container(RegistrationFields(b)), SameRegistration(a, b))
  {
    if a.feeRecipient == [] && b.feeRecipient != [] {
      AbsentRecipientDiffers(a, b);
    } else if a.feeRecipient != [] && b.feeRecipient == [] {
      AbsentRecipientDiffers(b, a);
    } else {
      var x, y := FeeRecipientFields(a.feeRecipient), FeeRecipientFields(b.feeRecipient);
      RegistrationFit(a);
      RegistrationFit(b);
      TailsAgree(a, b);
      if a.feeRecipient != [] {
        RecipientsAgree(a.feeRecipient, b.feeRecipient);
        OneRootAgrees(x[0], y[0], SameTree(a.feeRecipient, b.feeRecipient));
      }
      ConcatRootsAgree(x, y, SameRecipient(a.feeRecipient, b.feeRecipient),
                       RegistrationTail(a), RegistrationTail(b), SameTail(a, b));
      ContainerRootsAgree(RegistrationFields(a), RegistrationFields(b), SameRegistration(a, b));
    }
  }

  // Locks

  lemma BuildersAgree(a: BuilderRegistration, b: BuilderRegistration)
    requires Fits(Container(BuilderFields(a))) && Fits(Container(BuilderFields(b)))
    ensures RootsAgree(Container(BuilderFields(a)), Container(BuilderFields(b)), SameBuilder(a, b))
  {
    var vs, ws := BuilderFields(a), BuilderFields(b);
    ContainerFits(vs);
    ContainerFits(ws);
    assert Fits(vs[0]) && Fits(ws[0]) && Fits(vs[1]) && Fits(ws[1]);
    var q := SameFixed(a.signature, b.signature, BLS_SIGNATURE_LENGTH);
    RegistrationsAgree(a.message, b.message);
    FixedValues(a.signature, b.signature, BLS_SIGNATURE_LENGTH);
    AgreeingRoots(vs[1], ws[1], q);
    TwoRootsAgree(vs[0], ws[0], SameRegistration(a.message, b.message), vs[1], ws[1], q);
    ContainerRootsAgree(vs, ws, SameBuilder(a, b));
  }

  lemma ValidatorsAgree(a: DistValidator, b: DistValidator)
    requires Fits(Container(ValidatorFields(a))) && Fits(Container(ValidatorFields(b)))
    ensures RootsAgree(Container(ValidatorFields(a)), Container(ValidatorFields(b)), SameValidator(a, b))
  {
    var vs, ws := ValidatorFields(a), ValidatorFields(b);
    ContainerFits(vs);
    ContainerFits(ws);
    assert Fits(vs[0]) && Fits(ws[0]) && Fits(vs[1]) && Fits(ws[1]);
    assert Fits(vs[2]) && Fits(ws[2]) && Fits(vs[3]) && Fits(ws[3]);
    var p := SameFixed(a.pubkey, b.pubkey, PUBKEY_LENGTH);
    var q, r := SameShares(a.pubshares, b.pubshares), SameDeposits(a.partialDepositData, b.partialDepositData);
    FixedValues(a.pubkey, b.pubkey, PUBKEY_LENGTH);
    ShareListsAgree(a.pubshares, b.pubshares);
    DepositListsAgree(a.partialDepositData, b.partialDepositData);
    AgreeingRoots(vs[0], ws[0], p);
    AgreeingRoots(vs[1], ws[1], q);
    AgreeingRoots(vs[2], ws[2], r);
    BuildersAgree(a.builderRegistration, b.builderRegistration);
    FourRootsAgree(vs[0], ws[0], p, vs[1], ws[1], q, vs[2], ws[2], r,
                   vs[3], ws[3], SameBuilder(a.builderRegistration, b.builderRegistration));
    ContainerRootsAgree(vs, ws, SameValidator(a, b));
  }

  lemma SameItems(xs: seq<Bytes>, ys: seq<Bytes>, a: seq<DistValidator>, b: seq<DistValidator>)
    requires |xs| == |a| && |ys| == |b|
    requires forall i :: 0 <= i < |a| && i < |b| ==> (xs[i] == ys[i] <==> SameValidator(a[i], b[i]))
    ensures xs == ys <==> SameValidators(a, b)
  {
  }

  lemma ValidatorListsAgree(a: seq<DistValidator>, b: seq<DistValidator>)
    requires Fits(List(ValidatorItems(a), MAX_VALIDATORS)) && Fits(List(ValidatorItems(b), MAX_VALIDATORS))
    ensures RootsAgree(List(ValidatorItems(a), MAX_VALIDATORS), List(ValidatorItems(b), MAX_VALIDATORS),
                       SameValidators(a, b))
  {
    var xs, ys := ValidatorItems(a), ValidatorItems(b);
    ListFits(xs, MAX_VALIDATORS);
    ListFits(ys, MAX_VALIDATORS);
    forall i | 0 <= i < |a| && i < |b|
      ensures Roots(xs)[i] == Roots(ys)[i] <==> SameValidator(a[i], b[i])
    {
      ValidatorsAgree(a[i], b[i]);
    }
    SameItems(Roots(xs), Roots(ys), a, b);
    ListRootsAgree(xs, ys, MAX_VALIDATORS, SameValidators(a, b));
  }

  lemma LocksAgree(a: Lock, b: Lock)
    requires Fits(LockValue(a)) && Fits(LockValue(b))
    ensures RootsAgree(LockValue(a), LockValue(b), SameLock(a, b))
  {
    var vs, ws := LockFields(a), LockFields(b);
    ContainerFits(vs);
    ContainerFits(ws);
    assert Fits(vs[0]) && Fits(ws[0]) && Fits(vs[1]) && Fits(ws[1]);
    DefinitionsAgree(a.definition, b.definition, false);
    AgreeingRoots(vs[0], ws[0], SameDefinition(a.definition, b.definition, false));
    ValidatorListsAgree(a.validators, b.validators);
    TwoRootsAgree(vs[0], ws[0], SameDefinition(a.definition, b.definition, false),
                  vs[1], ws[1], SameValidators(a.validators, b.validators));
    ContainerRootsAgree(vs, ws, SameLock(a, b));
  }

  // Binding

  /** Definitions that can be hashed have one hash exactly when they agree on all it covers. */
  lemma {:induction false} DefinitionHashBinds(a: Definition, b: Definition, configOnly: bool)
    requires Fits(DefinitionValue(a, configOnly)) && Fits(DefinitionValue(b, configOnly))
    ensures HashTreeRoot(DefinitionValue(a, configOnly)) == HashTreeRoot(DefinitionValue(b, configOnly))
            <==> SameDefinition(a, b, configOnly)
  {
    DefinitionsAgree(a, b, configOnly);
    AgreeingRoots(DefinitionValue(a, configOnly), DefinitionValue(b, configOnly), SameDefinition(a, b, configOnly));
  }

  /** Locks that can be hashed have one hash exactly when they agree on all it covers, the fee
      recipients as far as `SameRecipient` tells them apart. */
  lemma {:induction false} LockHashBinds(a: Lock, b: Lock)
    requires Fits(LockValue(a)) && Fits(LockValue(b))
    ensures HashTreeRoot(LockValue(a)) == HashTreeRoot(LockValue(b)) <==> SameLock(a, b)
  {
    LocksAgree(a, b);
  }

  function Recipient(v: DistValidator): Blob {
    v.builderRegistration.message.feeRecipient
  }

  /** Fee recipients of one length are told apart, so addresses always are. */
  lemma {:induction false} RecipientsOfLength(a: Bytes, b: Bytes)
    requires |a| == |b|
    ensures SameRecipient(a, b) <==> a == b
  {
    SameTreeOfLength(a, b);
  }

  /** Of fee recipients that are the program's own bytes, those are told apart that differ in the depth
      of their tree or once zero-padded to its leaves. */
  lemma {:induction false} LiteralRecipients(a: Bytes, b: Bytes)
    requires StartsLiteral(a) && StartsLiteral(b)
    ensures SameRecipient(a, b)
            <==> (a == [] <==> b == []) && TreeDepth(a) == TreeDepth(b) && Filled(a) == Filled(b)
  {
    HashProtoSame(a, b);
    HashProtoEqualIff(a, b);
  }

  // Verified files

  /** A definition whose stored hashes are those of its content. */
  ghost predicate StoredHashesHold(d: Definition) {
    && d.version == VERSION_V1X10
    && Fits(DefinitionValue(d, true)) && d.configHash == HashTreeRoot(DefinitionValue(d, true))
    && Fits(DefinitionValue(d, false)) && d.definitionHash == HashTreeRoot(DefinitionValue(d, false))
  }

  ghost predicate LockHashHolds(l: Lock) {
    StoredHashesHold(l.definition) && Fits(LockValue(l)) && l.lockHash == HashTreeRoot(LockValue(l))
  }

  /** Checks the stored hashes in the original's order; a raised error is a `false` here. */
  method VerifyDefinitionHashes(d: Definition) returns (ok: bool)
    ensures ok <==> StoredHashesHold(d)
  {
    var config := ConfigHash(d);
    if config.Failure? || d.configHash != config.value {
      return false;
    }
    var definition := DefinitionHash(d);
    ok := definition.Success? && d.definitionHash == definition.value;
  }

  method VerifyLockHash(l: Lock) returns (ok: bool)
    ensures ok <==> LockHashHolds(l)
  {
    ok := VerifyDefinitionHashes(l.definition);
    if ok {
      var expected := LockHash(l);
      ok := expected.Success? && l.lockHash == expected.value;
    }
  }

  /** Two verified locks state one hash exactly when they agree on all it covers; they then agree on
      the stored definition hash too, which it does not cover. */
  lemma {:induction false} VerifiedLocksAgree(a: Lock, b: Lock)
    requires LockHashHolds(a) && LockHashHolds(b)
    ensures a.lockHash == b.lockHash <==> SameLock(a, b)
    ensures a.lockHash == b.lockHash ==> a.definition.configHash == b.definition.configHash
    ensures a.lockHash == b.lockHash ==> a.definition.definitionHash == b.definition.definitionHash
  {
    LockHashBinds(a, b);
    if SameLock(a, b) {
      DefinitionHashBinds(a.definition, b.definition, false);
      assert SameDefinition(a.definition, b.definition, true);
      DefinitionHashBinds(a.definition, b.definition, true);
    }
  }

  /** When every fee recipient has the length of its counterpart, one hash means one recipient. */
  lemma {:induction false} VerifiedRecipientsAgree(a: Lock, b: Lock, k: nat)
    requires LockHashHolds(a) && LockHashHolds(b) && a.lockHash == b.lockHash
    requires k < |a.validators| && k < |b.validators|
    requires |Recipient(a.validators[k])| == |Recipient(b.validators[k])|
    ensures Recipient(a.validators[k]) == Recipient(b.validators[k])
  {
    VerifiedLocksAgree(a, b);
    assert SameValidator(a.validators[k], b.validators[k]);
    RecipientsOfLength(Recipient(a.validators[k]), Recipient(b.validators[k]));
  }

  // Locks that one hash does not tell apart

  function WithRecipient(v: DistValidator, data: Blob): DistValidator {
    v.(builderRegistration := v.builderRegistration.(message := v.builderRegistration.message.(feeRecipient := data)))
  }

  function WithRecipientAt(l: Lock, k: nat, data: Blob): Lock
    requires k < |l.validators|
  {
    l.(validators := l.validators[k := WithRecipient(l.validators[k], data)])
  }

  lemma RecipientKeepsFit(v: DistValidator, data: Blob)
    requires Fits(Container(ValidatorFields(v)))
    ensures Fits(Container(ValidatorFields(WithRecipient(v, data))))
  {
    var w := WithRecipient(v, data);
    var b, c := v.builderRegistration, w.builderRegistration;
    ContainerFits(ValidatorFields(v));
    ContainerFits(ValidatorFields(w));
    ContainerFits(BuilderFields(b));
    ContainerFits(BuilderFields(c));
    assert Fits(ValidatorFields(v)[3]) && Fits(BuilderFields(b)[0]);
    RegistrationFit(b.message);
    RegistrationFit(c.message);
    assert forall i :: 0 <= i < 3 ==> ValidatorFields(w)[i] == ValidatorFields(v)[i];
    assert Fits(ValidatorFields(v)[0]) && Fits(ValidatorFields(v)[1]) && Fits(ValidatorFields(v)[2]);
    assert BuilderFields(c)[1] == BuilderFields(b)[1] && Fits(BuilderFields(b)[1]);
  }

  lemma OneItemChanged(xs: seq<Value>, ys: seq<Value>, k: nat)
    requires |xs| == |ys| && k < |xs| && AllFit(xs) && Fits(ys[k])
    requires forall i :: 0 <= i < |xs| && i != k ==> ys[i] == xs[i]
    ensures AllFit(ys)
  {
    forall i | 0 <= i < |ys|
      ensures Fits(ys[i])
    {
      assert xs[i] in xs;
    }
  }

  lemma RecipientKeepsListFit(vs: seq<DistValidator>, k: nat, data: Blob)
    requires k < |vs| && Fits(List(ValidatorItems(vs), MAX_VALIDATORS))
    ensures Fits(List(ValidatorItems(vs[k := WithRecipient(vs[k], data)]), MAX_VALIDATORS))
  {
    var xs, ys := ValidatorItems(vs), ValidatorItems(vs[k := WithRecipient(vs[k], data)]);
    ListFits(xs, MAX_VALIDATORS);
    ListFits(ys, MAX_VALIDATORS);
    assert xs[k] in xs;
    RecipientKeepsFit(vs[k], data);
    OneItemChanged(xs, ys, k);
  }

  lemma RecipientKeepsLockFit(l: Lock, k: nat, data: Blob)
    requires k < |l.validators| && Fits(LockValue(l))
    ensures Fits(LockValue(WithRecipientAt(l, k, data)))
  {
    ContainerFits(LockFields(l));
    ContainerFits(LockFields(WithRecipientAt(l, k, data)));
    assert Fits(LockFields(l)[0]) && Fits(LockFields(l)[1]);
    RecipientKeepsListFit(l.validators, k, data);
  }

  lemma SwapChangesValidator(v: DistValidator, data: Blob)
    ensures SameValidator(v, WithRecipient(v, data)) <==> SameRecipient(Recipient(v), data)
  {
  }

  lemma SwapChangesRecipient(l: Lock, m: Lock, k: nat, data: Blob)
    requires k < |l.validators| && m == WithRecipientAt(l, k, data)
    ensures SameLock(l, m) <==> SameRecipient(Recipient(l.validators[k]), data)
  {
    assert m.validators[k] == WithRecipient(l.validators[k], data);
    SwapChangesValidator(l.validators[k], data);
    forall i | 0 <= i < |l.validators| && i != k
      ensures SameValidator(l.validators[i], m.validators[i])
    {
      assert m.validators[i] == l.validators[i];
      SwapChangesValidator(l.validators[i], Recipient(l.validators[i]));
      SameTreeOfLength(Recipient(l.validators[i]), Recipient(l.validators[i]));
    }
  }

  /** A verified lock stays verified, with the hash it states, under exactly the replacements of a fee
      recipient that `SameRecipient` does not see. */
  lemma {:induction false} RecipientSwapKeepsHash(l: Lock, k: nat, data: Blob)
    requires LockHashHolds(l) && k < |l.validators|
    ensures LockHashHolds(WithRecipientAt(l, k, data)) <==> SameRecipient(Recipient(l.validators[k]), data)
  {
    var m := WithRecipientAt(l, k, data);
    RecipientKeepsLockFit(l, k, data);
    LockHashBinds(l, m);
    SwapChangesRecipient(l, m, k, data);
  }

  lemma SwapDiffers(l: Lock, k: nat, data: Blob)
    requires k < |l.validators| && data != Recipient(l.validators[k])
    ensures WithRecipientAt(l, k, data) != l && WithRecipientAt(l, k, data).lockHash == l.lockHash
  {
    assert Recipient(WithRecipientAt(l, k, data).validators[k]) == data;
  }

  lemma LongerRecipientSame(x: Bytes)
    requires |x| % CHUNK_SIZE != 0
    ensures SameRecipient(x, x + [Lit(0)])
  {
    TrailingZeroSameTree(x);
  }

  /** So any verified lock has a twin with the same hash: append a zero byte to a fee recipient that
      does not end with a chunk, as an address does not. */
  lemma {:induction false} LongerRecipientCollides(l: Lock, k: nat, x: Bytes, data: Blob)
    requires k < |l.validators| && x == Recipient(l.validators[k]) && data == x + [Lit(0)]
    requires LockHashHolds(l) && |x| % CHUNK_SIZE != 0
    ensures LockHashHolds(WithRecipientAt(l, k, data)) && WithRecipientAt(l, k, data) != l
    ensures WithRecipientAt(l, k, data).lockHash == l.lockHash
  {
    LongerRecipientSame(x);
    assert |data| != |x|;
    SwapDiffers(l, k, data);
    RecipientSwapKeepsHash(l, k, data);
  }

  // Such locks exist

  /** A definition whose hashes can be computed. */
  ghost predicate Hashable(d: Definition) {
    d.version == VERSION_V1X10 && Fits(DefinitionValue(d, true)) && Fits(DefinitionValue(d, false))
  }

  lemma SealFits(d: Definition, hashed: Definition)
    requires Fits(DefinitionValue(d, false)) && hashed == d.(configHash := hashed.configHash)
    requires |hashed.configHash| == HASH_LENGTH
    ensures Fits(DefinitionValue(hashed, false))
  {
    var before := IdentityFields(d) + ParameterFields(d) + MemberFields(d, false) + OptionFields(d);
    ContainerFits(DefinitionFields(d, false));
    ContainerFits(DefinitionFields(hashed, false));
    AllFitConcat(before, StoredHashFields(d, false));
    AllFitConcat(before, StoredHashFields(hashed, false));
  }

  function WithConfigHash(d: Definition): (hashed: Definition)
    requires Hashable(d)
    ensures Fits(DefinitionValue(hashed, false))
  {
    var hashed := d.(configHash := HashTreeRoot(DefinitionValue(d, true)));
    SealFits(d, hashed);
    hashed
  }

  /** The definition with its stored hashes computed. */
  function Sealed(d: Definition): Definition
    requires Hashable(d)
  {
    WithConfigHash(d).(definitionHash := HashTreeRoot(DefinitionValue(WithConfigHash(d), false)))
  }

  lemma StoredHashUncovered(d: Definition, hash: Bytes)
    ensures DefinitionValue(d.(definitionHash := hash), false) == DefinitionValue(d, false)
  {
  }

  lemma SealedHolds(d: Definition)
    requires Hashable(d)
    ensures StoredHashesHold(Sealed(d))
  {
    StoredHashUncovered(WithConfigHash(d), Sealed(d).definitionHash);
    assert DefinitionValue(Sealed(d), true) == DefinitionValue(d, true);
  }

  lemma OneValidatorFits(l: Lock, v: DistValidator)
    requires l.validators == [v]
    requires Fits(DefinitionValue(l.definition, false)) && Fits(Container(ValidatorFields(v)))
    ensures Fits(LockValue(l))
  {
    var items := ValidatorItems(l.validators);
    assert items == [Container(ValidatorFields(v))];
    ListFits(items, MAX_VALIDATORS);
    ContainerFits(LockFields(l));
  }

  lemma OneValidatorLock(d: Definition, v: DistValidator) returns (l: Lock)
    requires StoredHashesHold(d) && Fits(Container(ValidatorFields(v)))
    ensures LockHashHolds(l) && l.validators == [v]
  {
    var unsealed := Lock(d, [v], [], [], []);
    OneValidatorFits(unsealed, v);
    l := unsealed.(lockHash := HashTreeRoot(LockValue(unsealed)));
    assert LockValue(l) == LockValue(unsealed);
  }

  /** A cluster without operators and with everything optional absent. */
  function BareDefinition(): Definition {
    Definition([], [], VERSION_V1X10, [], 0, 0, [], [], [], Creator("", []), [], [], [], 0, false, [], [])
  }

  function BareValidator(recipient: Blob): DistValidator {
    DistValidator([], [], [], BuilderRegistration(Registration(recipient, 0, 0, []), []))
  }

  lemma BareMembersFit(d: Definition, configOnly: bool)
    requires d == BareDefinition()
    ensures AllFit(MemberFields(d, configOnly))
  {
    assert DecodeAddress("") == Success([]);
  }

  lemma BareFieldsFit(d: Definition, configOnly: bool)
    requires d == BareDefinition()
    ensures AllFit(IdentityFields(d)) && AllFit(ParameterFields(d)) && AllFit(OptionFields(d))
    ensures AllFit(StoredHashFields(d, configOnly))
  {
  }

  lemma BareDefinitionFits(configOnly: bool)
    ensures Fits(DefinitionValue(BareDefinition(), configOnly))
  {
    var d := BareDefinition();
    BareFieldsFit(d, configOnly);
    BareMembersFit(d, configOnly);
    DefinitionFits(d, configOnly);
    ContainerFits(DefinitionFields(d, configOnly));
  }

  lemma BareValidatorFits(recipient: Blob)
    ensures Fits(Container(ValidatorFields(BareValidator(recipient))))
  {
    var v := BareValidator(recipient);
    var r := v.builderRegistration.message;
    RegistrationFit(r);
    assert RegistrationTail(r)[2] == ByteVector(Zeros(PUBKEY_LENGTH) + []);
    ContainerFits(BuilderFields(v.builderRegistration));
    ContainerFits(ValidatorFields(v));
  }

  lemma BareLock(recipient: Blob) returns (l: Lock)
    ensures LockHashHolds(l) && l.validators == [BareValidator(recipient)]
  {
    BareDefinitionFits(true);
    BareDefinitionFits(false);
    SealedHolds(BareDefinition());
    BareValidatorFits(recipient);
    l := OneValidatorLock(Sealed(BareDefinition()), BareValidator(recipient));
  }

  /** Two different locks that both verify and state one hash: a recipient of 19 bytes, and the same
      19 bytes with a zero after them. */
  lemma {:induction false} CollidingLocks(x: Bytes, y: Bytes) returns (a: Lock, b: Lock)
    requires x == Lits(seq(19, _ => 1)) && y == x + [Lit(0)]
    ensures LockHashHolds(a) && LockHashHolds(b) && a.lockHash == b.lockHash
    ensures |a.validators| == |b.validators| == 1
    ensures Recipient(a.validators[0]) == x && Recipient(b.validators[0]) == y
  {
    a := BareLock(x);
    b := WithRecipientAt(a, 0, y);
    LongerRecipientCollides(a, 0, x, y);
  }
}
