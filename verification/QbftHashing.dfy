/** The bytes a QBFT signature covers, and why they cover the whole message. */
module QbftHashing {
  import opened Duties
  import opened SymbolicBytes
  import opened Wrappers
  import opened QbftMessages
  import opened Proto
  import opened Ssz

  function TypeNumber(t: MsgType): (n: nat)
    ensures 1 <= n <= 5
  {
    match t
    case PrePrepare => 1
    case Prepare => 2
    case Commit => 3
    case RoundChange => 4
    case Decided => 5
  }

  function EncodeDuty(duty: Duty): Bytes {
    VarintField(1, duty.slot) + VarintField(2, duty.dutyType)
  }

  /** The value hash as sent: an absent one is the zero hash. */
  function SentHash(h: Option<Hash>): Bytes {
    if h.Some? && h.value.bytes != [] then h.value.bytes else ZERO_CHUNK
  }

  function EncodeQbftMsg(m: Msg, includeSignature: bool): Bytes {
    VarintField(1, TypeNumber(m.msgType))
    + (LengthDelimited(2, EncodeDuty(m.duty))
       + (VarintField(3, m.peerIdx)
          + (VarintField(4, m.round)
             + (VarintField(6, m.preparedRound)
                + ((if includeSignature && m.signature.Some? then BytesField(8, m.signature.value) else [])
                   + (LengthDelimited(11, SentHash(m.valueHash))
                      + LengthDelimited(12, m.preparedValueHash.bytes)))))))
  }

  function QbftSigningRoot(m: Msg): Bytes {
    HashProto(EncodeQbftMsg(m, false))
  }

  // Reading a message back

  datatype Fields = Fields(
    typeNumber: nat, duty: Duty, peerIdx: nat, round: nat, preparedRound: nat,
    valueHash: Bytes, preparedValueHash: Bytes)

  function FieldsOf(m: Msg): Fields {
    Fields(TypeNumber(m.msgType), m.duty, m.peerIdx, m.round, m.preparedRound, SentHash(m.valueHash),
           m.preparedValueHash.bytes)
  }

  function DecodeDuty(bs: Bytes): Option<Duty> {
    match ReadVarintField(bs, 1)
    case None => None
    case Some((slot, afterSlot)) =>
      match ReadVarintField(afterSlot, 2)
      case None => None
      case Some((dutyType, rest)) => if rest == [] then Some(Duty(slot, dutyType)) else None
  }

  lemma DutyRoundTrip(duty: Duty)
    ensures DecodeDuty(EncodeDuty(duty)) == Some(duty)
  {
    var tail := VarintField(2, duty.dutyType);
    assert tail + [] == tail;
    ReadVarintFieldBack(2, duty.dutyType, []);
    ReadVarintFieldBack(1, duty.slot, tail);
  }

  function DecodeHashes(bs: Bytes): Option<(Bytes, Bytes, Bytes)> {
    match ReadDelimited(bs, 11)
    case None => None
    case Some((vh, b11)) =>
      match ReadDelimited(b11, 12)
      case None => None
      case Some((pvh, rest)) => Some((vh, pvh, rest))
  }

  function DecodeRounds(typeNumber: nat, duty: Duty, bs: Bytes): Option<(Fields, Bytes)> {
    match ReadVarintField(bs, 3)
    case None => None
    case Some((peerIdx, b3)) =>
      match ReadVarintField(b3, 4)
      case None => None
      case Some((round, b4)) =>
        match ReadVarintField(b4, 6)
        case None => None
        case Some((preparedRound, b6)) =>
          match DecodeHashes(b6)
          case None => None
          case Some((vh, pvh, rest)) => Some((Fields(typeNumber, duty, peerIdx, round, preparedRound, vh, pvh), rest))
  }

  /** Reads an unsigned message off the front, with what follows it. */
  function DecodeQbft(bs: Bytes): Option<(Fields, Bytes)> {
    match ReadVarintField(bs, 1)
    case None => None
    case Some((typeNumber, b1)) =>
      match ReadDelimited(b1, 2)
      case None => None
      case Some((dutyBytes, b2)) =>
        match DecodeDuty(dutyBytes)
        case None => None
        case Some(duty) => DecodeRounds(typeNumber, duty, b2)
  }

  function Hashes(m: Msg): Bytes {
    LengthDelimited(11, SentHash(m.valueHash)) + LengthDelimited(12, m.preparedValueHash.bytes)
  }

  function Rounds(m: Msg): Bytes {
    VarintField(3, m.peerIdx) + (VarintField(4, m.round) + (VarintField(6, m.preparedRound) + Hashes(m)))
  }

  lemma HashesRoundTrip(m: Msg, rest: Bytes)
    ensures DecodeHashes(Hashes(m) + rest) == Some((SentHash(m.valueHash), m.preparedValueHash.bytes, rest))
    ensures NextTag(Hashes(m) + rest) == Some(90)
  {
    var second := LengthDelimited(12, m.preparedValueHash.bytes) + rest;
    assert Hashes(m) + rest == LengthDelimited(11, SentHash(m.valueHash)) + second;
    ReadDelimitedBack(11, SentHash(m.valueHash), second);
    ReadDelimitedBack(12, m.preparedValueHash.bytes, rest);
  }

  /** The three integer fields are read back, whichever of them are zero and so not sent. */
  lemma ReadIntegersBack(peerIdx: nat, round: nat, preparedRound: nat, rest: Bytes)
    requires NextTag(rest) == Some(90)
    ensures var b6 := VarintField(6, preparedRound) + rest;
            var b4 := VarintField(4, round) + b6;
            && ReadVarintField(VarintField(3, peerIdx) + b4, 3) == Some((peerIdx, b4))
            && ReadVarintField(b4, 4) == Some((round, b6))
            && ReadVarintField(b6, 6) == Some((preparedRound, rest))
  {
    var b6 := VarintField(6, preparedRound) + rest;
    ReadVarintFieldBack(6, preparedRound, rest);
    ReadVarintFieldBack(4, round, b6);
    ReadVarintFieldBack(3, peerIdx, VarintField(4, round) + b6);
  }

  lemma RoundsShape(m: Msg, rest: Bytes)
    ensures Rounds(m) + rest
            == VarintField(3, m.peerIdx)
               + (VarintField(4, m.round) + (VarintField(6, m.preparedRound) + (Hashes(m) + rest)))
  {
    var a, b, d, h := VarintField(3, m.peerIdx), VarintField(4, m.round), VarintField(6, m.preparedRound), Hashes(m);
    assert a + (b + (d + h)) + rest == a + (b + (d + (h + rest)));
  }

  lemma RoundsRoundTrip(m: Msg, rest: Bytes)
    ensures DecodeRounds(TypeNumber(m.msgType), m.duty, Rounds(m) + rest) == Some((FieldsOf(m), rest))
  {
    HashesRoundTrip(m, rest);
    ReadIntegersBack(m.peerIdx, m.round, m.preparedRound, Hashes(m) + rest);
    RoundsShape(m, rest);
  }

  lemma EncodingShape(m: Msg)
    ensures EncodeQbftMsg(m, false)
            == VarintField(1, TypeNumber(m.msgType)) + (LengthDelimited(2, EncodeDuty(m.duty)) + Rounds(m))
    ensures StartsLiteral(EncodeQbftMsg(m, false))
  {
    assert [] + Hashes(m) == Hashes(m);
  }

  /** Decoding inverts encoding, and finds exactly where the message ends. */
  lemma {:induction false} QbftRoundTrip(m: Msg, rest: Bytes)
    ensures DecodeQbft(EncodeQbftMsg(m, false) + rest) == Some((FieldsOf(m), rest))
  {
    var tail := Rounds(m) + rest;
    var body := LengthDelimited(2, EncodeDuty(m.duty)) + tail;
    EncodingShape(m);
    assert EncodeQbftMsg(m, false) + rest == VarintField(1, TypeNumber(m.msgType)) + body;
    ReadVarintFieldBack(1, TypeNumber(m.msgType), body);
    ReadDelimitedBack(2, EncodeDuty(m.duty), tail);
    DutyRoundTrip(m.duty);
    RoundsRoundTrip(m, rest);
  }

  /** What a signature covers: everything but the signature, an absent value hash being the zero hash. */
  function Covered(m: Msg): Msg {
    m.(signature := None, valueHash := Some(Hash(SentHash(m.valueHash))))
  }

  lemma FieldsDetermineMessage(a: Msg, b: Msg)
    requires FieldsOf(a) == FieldsOf(b)
    ensures Covered(a) == Covered(b)
  {
    assert TypeNumber(a.msgType) == TypeNumber(b.msgType);
    assert a.preparedValueHash == Hash(FieldsOf(a).preparedValueHash);
    assert b.preparedValueHash == Hash(FieldsOf(b).preparedValueHash);
  }

  /** A padded encoding still decodes to its fields. */
  lemma SameBytesSameFields(a: Msg, b: Msg, zeros: Bytes)
    requires EncodeQbftMsg(b, false) == EncodeQbftMsg(a, false) + zeros
    ensures FieldsOf(a) == FieldsOf(b)
  {
    QbftRoundTrip(a, zeros);
    QbftRoundTrip(b, []);
    assert EncodeQbftMsg(b, false) + [] == EncodeQbftMsg(b, false);
  }

  lemma SameRootSameFields(a: Msg, b: Msg)
    requires QbftSigningRoot(a) == QbftSigningRoot(b) && |EncodeQbftMsg(a, false)| <= |EncodeQbftMsg(b, false)|
    ensures FieldsOf(a) == FieldsOf(b)
  {
    var ea, eb := EncodeQbftMsg(a, false), EncodeQbftMsg(b, false);
    EncodingShape(a);
    EncodingShape(b);
    HashProtoUpToZeros(ea, eb);
    SameBytesSameFields(a, b, Zeros(|eb| - |ea|));
  }

  /** The signing root binds every field but the signature, although the hash mixes in no length. */
  lemma SigningRootBinds(a: Msg, b: Msg)
    ensures QbftSigningRoot(a) == QbftSigningRoot(b) <==> Covered(a) == Covered(b)
  {
    if QbftSigningRoot(a) == QbftSigningRoot(b) {
      if |EncodeQbftMsg(a, false)| <= |EncodeQbftMsg(b, false)| {
        SameRootSameFields(a, b);
      } else {
        SameRootSameFields(b, a);
      }
      FieldsDetermineMessage(a, b);
    }
    if Covered(a) == Covered(b) {
      assert a.preparedValueHash == b.preparedValueHash;
      assert SentHash(a.valueHash) == Covered(a).valueHash.value.bytes == SentHash(b.valueHash);
    }
  }

  /** The type a wire number stands for. */
  function TypeOf(number: nat): Option<MsgType> {
    if number == 1 then Some(PrePrepare)
    else if number == 2 then Some(Prepare)
    else if number == 3 then Some(Commit)
    else if number == 4 then Some(RoundChange)
    else if number == 5 then Some(Decided)
    else None
  }

  /** So the type is read back with the other fields. */
  lemma TypeReadsBack(m: Msg)
    ensures TypeOf(FieldsOf(m).typeNumber) == Some(m.msgType)
  {
  }
}
