/** Priority messages, and the hash their topics and priorities are known by. Strings hold their UTF-8
    bytes, whose lexicographic order is the order of the strings. */
module PriorityMessages {
  import opened Duties
  import opened SymbolicBytes
  import opened Proto
  import opened Ssz

  /** The text "type.googleapis.com/google.protobuf.Value". */
  const VALUE_TYPE_URL: Bytes := Lits([
    0x74, 0x79, 0x70, 0x65, 0x2E, 0x67, 0x6F, 0x6F, 0x67, 0x6C, 0x65, 0x61, 0x70, 0x69, 0x73, 0x2E,
    0x63, 0x6F, 0x6D, 0x2F, 0x67, 0x6F, 0x6F, 0x67, 0x6C, 0x65, 0x2E, 0x70, 0x72, 0x6F, 0x74, 0x6F,
    0x62, 0x75, 0x66, 0x2E, 0x56, 0x61, 0x6C, 0x75, 0x65])

  type Text = seq<byte>

  datatype TopicProposal = TopicProposal(topic: Text, priorities: seq<Text>)

  datatype PriorityMsg = PriorityMsg(duty: Duty, topics: seq<TopicProposal>, peerId: Text, signature: Bytes)

  function PriorityHash(value: Text): Bytes {
    HashProto(EncodeAnyString(VALUE_TYPE_URL, Lits(value)))
  }

  lemma {:induction false} EncodingStartsLiteral(value: Bytes)
    ensures StartsLiteral(EncodeAnyString(VALUE_TYPE_URL, value))
  {
    var payload := EncodeAnyString(VALUE_TYPE_URL, value);
    assert payload[0] == Digits(8 * 1 + 2)[0];
  }

  lemma {:induction false} ShorterPriorityHash(a: Text, b: Text)
    requires PriorityHash(a) == PriorityHash(b)
    requires |EncodeAnyString(VALUE_TYPE_URL, Lits(a))| <= |EncodeAnyString(VALUE_TYPE_URL, Lits(b))|
    ensures a == b
  {
    var x, y := EncodeAnyString(VALUE_TYPE_URL, Lits(a)), EncodeAnyString(VALUE_TYPE_URL, Lits(b));
    EncodingStartsLiteral(Lits(a));
    EncodingStartsLiteral(Lits(b));
    HashProtoUpToZeros(x, y);
    AnyStringPrefixFree(VALUE_TYPE_URL, Lits(a), Lits(b), Zeros(|y| - |x|));
    LitsInjective(a, b);
  }

  /** Topics and priorities are identified by their hashes: no two strings share one. */
  lemma {:induction false} PriorityHashInjective(a: Text, b: Text)
    ensures PriorityHash(a) == PriorityHash(b) <==> a == b
  {
    if PriorityHash(a) == PriorityHash(b) {
      if |EncodeAnyString(VALUE_TYPE_URL, Lits(a))| <= |EncodeAnyString(VALUE_TYPE_URL, Lits(b))| {
        ShorterPriorityHash(a, b);
      } else {
        ShorterPriorityHash(b, a);
      }
    }
  }

  /** A hash that identifies strings; `PriorityHash` is one. */
  ghost predicate Identifies(hash: Text -> Bytes) {
    forall a, b :: hash(a) == hash(b) <==> a == b
  }

  lemma {:induction false} PriorityHashIdentifies()
    ensures Identifies(PriorityHash)
  {
    forall a, b
      ensures PriorityHash(a) == PriorityHash(b) <==> a == b
    {
      PriorityHashInjective(a, b);
    }
  }
}
