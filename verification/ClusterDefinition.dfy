/** Cluster definitions and locks at version v1.10.0. Text fields hold their UTF-8 bytes. */
module ClusterDefinition {
  import opened SymbolicBytes
  import opened Wrappers
  import opened Ssz

  const MAX_UUID_BYTES: nat := 64
  const MAX_NAME_BYTES: nat := 256
  const MAX_VERSION_BYTES: nat := 16
  const MAX_TIMESTAMP_BYTES: nat := 32
  const MAX_DKG_ALGORITHM_BYTES: nat := 32
  const MAX_ENR_BYTES: nat := 1024
  const MAX_OPERATORS: nat := 256
  const MAX_VALIDATORS: nat := 65536
  const MAX_DEPOSIT_AMOUNTS: nat := 256
  const ADDRESS_LENGTH: nat := 20
  const FORK_VERSION_LENGTH: nat := 4
  const K1_SIGNATURE_LENGTH: nat := 65
  const HASH_LENGTH: nat := 32
  const PUBKEY_LENGTH: nat := 48
  const BLS_SIGNATURE_LENGTH: nat := 96
  const WITHDRAWAL_CREDENTIALS_LENGTH: nat := 32

  /** The text "v1.10.0". */
  const VERSION_V1X10: Bytes := Lits([0x76, 0x31, 0x2E, 0x31, 0x30, 0x2E, 0x30])

  /** A byte string that fits in memory. */
  type Blob = b: Bytes | |b| < 0x8000_0000_0000_0000

  datatype Operator = Operator(address: string, enr: Bytes, configSignature: Bytes, enrSignature: Bytes)

  datatype Creator = Creator(address: string, configSignature: Bytes)

  datatype ValidatorAddresses = ValidatorAddresses(feeRecipient: string, withdrawal: string)

  datatype Definition = Definition(
    uuid: Bytes, name: Bytes, version: Bytes, timestamp: Bytes,
    numValidators: int, threshold: int, dkgAlgorithm: Bytes, forkVersion: Bytes,
    operators: seq<Operator>, creator: Creator, validatorAddresses: seq<ValidatorAddresses>,
    depositAmounts: seq<int>, consensusProtocol: Bytes, targetGasLimit: int, compounding: bool,
    configHash: Bytes, definitionHash: Bytes)

  datatype DepositData = DepositData(pubkey: Bytes, withdrawalCredentials: Bytes, amount: int, signature: Bytes)

  datatype Registration = Registration(feeRecipient: Blob, gasLimit: int, timestamp: int, pubkey: Bytes)

  datatype BuilderRegistration = BuilderRegistration(message: Registration, signature: Bytes)

  datatype DistValidator = DistValidator(
    pubkey: Bytes, pubshares: seq<Bytes>, partialDepositData: seq<DepositData>,
    builderRegistration: BuilderRegistration)

  datatype Lock = Lock(
    definition: Definition, validators: seq<DistValidator>,
    lockHash: Bytes, signatureAggregate: Bytes, nodeSignatures: seq<Bytes>)

  // Addresses

  function HexDigit(c: char): (d: Option<byte>)
    ensures d.Some? ==> d.value < 16
  {
    if '0' <= c <= '9' then Some(c as int - '0' as int)
    else if 'a' <= c <= 'f' then Some(c as int - 'a' as int + 10)
    else if 'A' <= c <= 'F' then Some(c as int - 'A' as int + 10)
    else None
  }

  /** Pairs of hex digits; whitespace is not a digit, so it is refused like anything else. */
  function FromHex(text: string): (r: Result<seq<byte>, ValueError>)
    ensures r.Failure? ==> r.error == BadAddress
  {
    if text == "" then Success([])
    else if |text| == 1 then Failure(BadAddress)
    else
      match (HexDigit(text[0]), HexDigit(text[1]))
      case (Some(high), Some(low)) =>
        var rest :- FromHex(text[2..]);
        Success([16 * high + low] + rest)
      case _ => Failure(BadAddress)
  }

  function RemovePrefix(text: string): string {
    if "0x" <= text then text[2..] else text
  }

  /** The empty string is an absent address, and decodes to no bytes. */
  function DecodeAddress(address: string): (r: Result<seq<byte>, ValueError>)
    ensures r.Failure? ==> r.error == BadAddress
    ensures r.Success? ==> |r.value| == if address == "" then 0 else ADDRESS_LENGTH
  {
    if address == "" then Success([])
    else
      var raw :- FromHex(RemovePrefix(address));
      if |raw| != ADDRESS_LENGTH then Failure(BadAddress) else Success(raw)
  }
}
