/** The deterministic protobuf encoding, with a decoder to prove it unambiguous.

    The decoder has no counterpart in the original, whose receivers are specified on decoded
    messages; it exists to show that an encoding can be read back in only one way. */
module Proto {
  import opened SymbolicBytes
  import opened Wrappers

  // Varints

  /** Negative integers are sent as their 64-bit two's complement. */
  function Unsigned(value: int): (n: nat)
    requires value >= -UINT64_MODULUS
  {
    if value < 0 then value + UINT64_MODULUS else value
  }

  /** Base-128 digits, least significant first, all but the last with the high bit set. */
  function Digits(n: nat): (r: Bytes)
    ensures |r| > 0 && r[0].Lit?
  {
    if n < 128 then [Lit(n)] else [Lit(n % 128 + 128)] + Digits(n / 128)
  }

  method Varint(value: int) returns (out: Bytes)
    requires value >= -UINT64_MODULUS
    ensures out == Digits(Unsigned(value))
  {
    var rest := value;
    if rest < 0 {
      rest := rest + UINT64_MODULUS;
    }
    out := [];
    while true
      invariant rest >= 0
      invariant out + Digits(rest) == Digits(Unsigned(value))
      decreases rest
    {
      var digit := rest % 128;
      ghost var whole := rest;
      rest := rest / 128;
      if rest == 0 {
        assert whole == digit;
        return out + [Lit(digit)];
      }
      assert Digits(whole) == [Lit(digit + 128)] + Digits(rest);
      assert out + Digits(whole) == out + [Lit(digit + 128)] + Digits(rest);
      out := out + [Lit(digit + 128)];
    }
  }

  /** Reads a varint off the front. */
  function ReadVarint(bs: Bytes): Option<(nat, Bytes)> {
    if bs == [] || !bs[0].Lit? then None
    else if bs[0].value < 128 then Some((bs[0].value, bs[1..]))
    else
      match ReadVarint(bs[1..])
      case None => None
      case Some((n, rest)) => Some((bs[0].value - 128 + 128 * n, rest))
  }

  lemma {:induction false} ReadDigits(n: nat, rest: Bytes)
    ensures ReadVarint(Digits(n) + rest) == Some((n, rest))
    decreases n
  {
    var bs := Digits(n) + rest;
    if n < 128 {
      assert bs[1..] == rest;
    } else {
      assert bs[1..] == Digits(n / 128) + rest;
      ReadDigits(n / 128, rest);
    }
  }

  /** Two integers share an encoding only when 64-bit two's complement identifies them. */
  lemma {:induction false} VarintInjective(a: int, b: int)
    requires a >= -UINT64_MODULUS && b >= -UINT64_MODULUS
    ensures Digits(Unsigned(a)) == Digits(Unsigned(b))
            <==> a == b || (a < 0 && b == a + UINT64_MODULUS) || (b < 0 && a == b + UINT64_MODULUS)
  {
    ReadDigits(Unsigned(a), []);
    ReadDigits(Unsigned(b), []);
  }

  // Fields

  function Tag(field: nat, wireType: nat): Bytes {
    Digits(8 * field + wireType)
  }

  /** A singular integer field; zero is not sent. */
  function VarintField(field: nat, value: nat): Bytes {
    if value == 0 then [] else Tag(field, 0) + Digits(value)
  }

  /** A field with explicit presence; an empty payload is sent as such. */
  function LengthDelimited(field: nat, payload: Bytes): (r: Bytes)
    ensures |r| > |payload|
  {
    Tag(field, 2) + Digits(|payload|) + payload
  }

  /** A singular bytes field; the empty string is not sent. */
  function BytesField(field: nat, value: Bytes): Bytes {
    if value == [] then [] else LengthDelimited(field, value)
  }

  /** The tag a reader finds next, if it finds one. */
  function NextTag(bs: Bytes): Option<nat> {
    match ReadVarint(bs)
    case None => None
    case Some((t, _)) => Some(t)
  }

  /** Reads integer field `field`, taking it as zero when another tag or the end comes first. */
  function ReadVarintField(bs: Bytes, field: nat): Option<(nat, Bytes)> {
    if NextTag(bs) == Some(8 * field) then ReadVarint(ReadVarint(bs).value.1) else Some((0, bs))
  }

  function ReadDelimited(bs: Bytes, field: nat): Option<(Bytes, Bytes)> {
    if NextTag(bs) != Some(8 * field + 2) then None
    else
      match ReadVarint(ReadVarint(bs).value.1)
      case None => None
      case Some((n, rest)) => if n > |rest| then None else Some((rest[..n], rest[n..]))
  }

  lemma {:induction false} ReadVarintFieldBack(field: nat, value: nat, rest: Bytes)
    requires value == 0 ==> NextTag(rest) != Some(8 * field)
    ensures ReadVarintField(VarintField(field, value) + rest, field) == Some((value, rest))
    ensures NextTag(VarintField(field, value) + rest) == if value == 0 then NextTag(rest) else Some(8 * field)
  {
    if value == 0 {
      assert [] + rest == rest;
    } else {
      assert VarintField(field, value) + rest == Digits(8 * field) + (Digits(value) + rest);
      ReadDigits(8 * field, Digits(value) + rest);
      ReadDigits(value, rest);
    }
  }

  lemma {:induction false} ReadDelimitedBack(field: nat, payload: Bytes, rest: Bytes)
    ensures ReadDelimited(LengthDelimited(field, payload) + rest, field) == Some((payload, rest))
    ensures NextTag(LengthDelimited(field, payload) + rest) == Some(8 * field + 2)
  {
    var tail := Digits(|payload|) + (payload + rest);
    assert LengthDelimited(field, payload) + rest == Digits(8 * field + 2) + tail;
    ReadDigits(8 * field + 2, tail);
    ReadDigits(|payload|, payload + rest);
    assert (payload + rest)[..|payload|] == payload && (payload + rest)[|payload|..] == rest;
  }

  // Strings wrapped for the priority protocol

  /** `google.protobuf.Any` around an encoded message. */
  function EncodeAny(typeUrl: Bytes, value: Bytes): Bytes {
    BytesField(1, typeUrl) + BytesField(2, value)
  }

  /** A `google.protobuf.Value` holding a string; a oneof member is sent even when empty. */
  function EncodeStringValue(value: Bytes): (r: Bytes)
    ensures r != []
  {
    LengthDelimited(3, value)
  }

  function EncodeAnyString(typeUrl: Bytes, value: Bytes): Bytes {
    EncodeAny(typeUrl, EncodeStringValue(value))
  }

  /** A delimited field followed by anything can be read in one way only. */
  lemma {:induction false} DelimitedPrefixFree(field: nat, a: Bytes, x: Bytes, b: Bytes, y: Bytes)
    requires LengthDelimited(field, a) + x == LengthDelimited(field, b) + y
    ensures a == b && x == y
  {
    ReadDelimitedBack(field, a, x);
    ReadDelimitedBack(field, b, y);
  }

  lemma {:induction false} AnyStringFields(typeUrl: Bytes, value: Bytes, rest: Bytes)
    requires typeUrl != []
    ensures EncodeAnyString(typeUrl, value) + rest
            == LengthDelimited(1, typeUrl) + (LengthDelimited(2, EncodeStringValue(value)) + rest)
  {
    var first, second := LengthDelimited(1, typeUrl), LengthDelimited(2, EncodeStringValue(value));
    assert first + second + rest == first + (second + rest);
  }

  lemma {:induction false} InnerFields(typeUrl: Bytes, va: Bytes, vb: Bytes, rest: Bytes)
    requires LengthDelimited(1, typeUrl) + (LengthDelimited(2, vb) + [])
          == LengthDelimited(1, typeUrl) + (LengthDelimited(2, va) + rest)
    ensures va == vb && rest == []
  {
    DelimitedPrefixFree(1, typeUrl, LengthDelimited(2, vb) + [], typeUrl, LengthDelimited(2, va) + rest);
    DelimitedPrefixFree(2, vb, [], va, rest);
  }

  /** A wrapped string reads back as its type and, in the value's string field, the string. */
  lemma {:induction false} AnyStringReads(typeUrl: Bytes, value: Bytes)
    requires typeUrl != []
    ensures ReadDelimited(EncodeAnyString(typeUrl, value), 1)
            == Some((typeUrl, LengthDelimited(2, EncodeStringValue(value))))
    ensures ReadDelimited(LengthDelimited(2, EncodeStringValue(value)), 2) == Some((EncodeStringValue(value), []))
    ensures ReadDelimited(EncodeStringValue(value), 3) == Some((value, []))
  {
    var second := LengthDelimited(2, EncodeStringValue(value));
    AnyStringFields(typeUrl, value, []);
    assert EncodeAnyString(typeUrl, value) + [] == EncodeAnyString(typeUrl, value) && second + [] == second;
    ReadDelimitedBack(1, typeUrl, second);
    ReadDelimitedBack(2, EncodeStringValue(value), []);
    ReadDelimitedBack(3, value, []);
    assert LengthDelimited(3, value) + [] == LengthDelimited(3, value);
  }

  /** No wrapped string is another followed by more bytes. */
  lemma {:induction false} AnyStringPrefixFree(typeUrl: Bytes, a: Bytes, b: Bytes, rest: Bytes)
    requires typeUrl != [] && EncodeAnyString(typeUrl, b) == EncodeAnyString(typeUrl, a) + rest
    ensures a == b && rest == []
  {
    AnyStringFields(typeUrl, a, rest);
    AnyStringFields(typeUrl, b, []);
    assert EncodeAnyString(typeUrl, b) + [] == EncodeAnyString(typeUrl, b);
    InnerFields(typeUrl, EncodeStringValue(a), EncodeStringValue(b), rest);
    assert EncodeStringValue(a) + [] == EncodeStringValue(b) + [];
    DelimitedPrefixFree(3, a, [], b, []);
  }
}
