/** The consensus value of a duty: a map from validator keys to unsigned data, encoded in key order. */
module UnsignedDataSet {
  import opened SymbolicBytes
  import opened Wrappers
  import opened Dicts
  import opened Proto
  import opened Ssz
  import opened Sorting

  /** Keys are the UTF-8 bytes of the original's strings, whose order is that of their code points. */
  type Key = seq<byte>

  type Entries = Dict<Key, Bytes>

  function Keys(entries: Entries): (ks: seq<Key>)
    ensures |ks| == |entries| && forall i :: 0 <= i < |entries| ==> ks[i] == entries[i].0
  {
    seq(|entries|, i requires 0 <= i < |entries| => entries[i].0)
  }

  function EncodeEntry(key: Key, value: Bytes): Bytes {
    LengthDelimited(1, LengthDelimited(1, Lits(key)) + LengthDelimited(2, value))
  }

  function Record(key: Key, entries: Entries): Bytes {
    EncodeEntry(key, Get(entries, key, []))
  }

  function EncodeInOrder(keys: seq<Key>, entries: Entries): Bytes {
    if keys == [] then [] else Record(keys[0], entries) + EncodeInOrder(keys[1..], entries)
  }

  function EncodeUnsignedDataSet(entries: Entries): Bytes {
    EncodeInOrder(Sort(Keys(entries), LexLeq), entries)
  }

  function Join(records: seq<Bytes>): Bytes {
    if records == [] then [] else Join(records[..|records| - 1]) + records[|records| - 1]
  }

  lemma {:induction false} JoinOneMore(records: seq<Bytes>, record: Bytes, rest: Bytes)
    ensures Join(records + [record]) + rest == Join(records) + (record + rest)
  {
    assert (records + [record])[..|records|] == records;
  }

  method Encode(entries: Entries) returns (out: Bytes)
    ensures out == EncodeUnsignedDataSet(entries)
  {
    var sorted := Sort(Keys(entries), LexLeq);
    var records: seq<Bytes> := [];
    out := [];
    for i := 0 to |sorted|
      invariant |records| == i
      invariant Join(records) + EncodeInOrder(sorted[i..], entries) == EncodeInOrder(sorted, entries)
    {
      var entry := LengthDelimited(1, Lits(sorted[i])) + LengthDelimited(2, Get(entries, sorted[i], []));
      assert sorted[i..][1..] == sorted[i + 1..];
      JoinOneMore(records, LengthDelimited(1, entry), EncodeInOrder(sorted[i + 1..], entries));
      records := records + [LengthDelimited(1, entry)];
    }
    assert Join(records) + [] == Join(records);
    out := Join(records);
  }

  // Independence of insertion order

  /** The dictionary as a mathematical map. */
  function ToMap(entries: Entries): (m: map<Key, Bytes>)
    ensures forall k :: k in m <==> Has(entries, k)
    ensures forall k :: k in m ==> m[k] == Get(entries, k, [])
  {
    map k | k in Keys(entries) :: Get(entries, k, [])
  }

  ghost predicate NoDuplicates<T>(s: seq<T>) {
    forall i, j :: 0 <= i < j < |s| ==> s[i] != s[j]
  }

  lemma {:induction false} MultisetOfDistinct<T>(s: seq<T>, x: T)
    requires NoDuplicates(s)
    ensures multiset(s)[x] == if x in s then 1 else 0
    decreases |s|
  {
    if s != [] {
      assert s == [s[0]] + s[1..];
      MultisetOfDistinct(s[1..], x);
    }
  }

  lemma {:induction false} EncodeSameValues(keys: seq<Key>, a: Entries, b: Entries)
    requires forall k :: k in keys ==> Get(a, k, []) == Get(b, k, [])
    ensures EncodeInOrder(keys, a) == EncodeInOrder(keys, b)
    decreases |keys|
  {
    if keys != [] {
      assert keys == [keys[0]] + keys[1..];
      EncodeSameValues(keys[1..], a, b);
    }
  }

  lemma {:induction false} KeysHas(entries: Entries, k: Key)
    ensures k in Keys(entries) <==> Has(entries, k)
  {
    if Has(entries, k) {
      var i :| 0 <= i < |entries| && entries[i].0 == k;
      assert Keys(entries)[i] == k;
    }
  }

  lemma {:induction false} KeysOfSameMap(a: Entries, b: Entries)
    requires Unique(a) && Unique(b) && ToMap(a) == ToMap(b)
    ensures multiset(Keys(a)) == multiset(Keys(b))
  {
    forall k
      ensures multiset(Keys(a))[k] == multiset(Keys(b))[k]
    {
      MultisetOfDistinct(Keys(a), k);
      MultisetOfDistinct(Keys(b), k);
      KeysHas(a, k);
      KeysHas(b, k);
      assert k in ToMap(a) <==> k in ToMap(b);
    }
  }

  /** Dictionaries with the same entries encode alike, in whatever order these were inserted. */
  lemma {:induction false} EncodingIgnoresOrder(a: Entries, b: Entries)
    requires Unique(a) && Unique(b) && ToMap(a) == ToMap(b)
    ensures EncodeUnsignedDataSet(a) == EncodeUnsignedDataSet(b)
  {
    LexPreorder();
    KeysOfSameMap(a, b);
    SortIgnoresOrder(Keys(a), Keys(b), LexLeq);
    var keys := Sort(Keys(a), LexLeq);
    SortCorrect(Keys(a), LexLeq);
    forall k | k in keys
      ensures Get(a, k, []) == Get(b, k, [])
    {
      KeysHas(a, k);
      assert ToMap(a)[k] == ToMap(b)[k];
    }
    EncodeSameValues(keys, a, b);
  }

  // Reading the encoding back

  /** The literal bytes of a string, if that is all it holds. */
  function Unlit(bs: Bytes): Option<seq<byte>> {
    if bs == [] then Some([])
    else if !bs[0].Lit? then None
    else
      match Unlit(bs[1..])
      case None => None
      case Some(rest) => Some([bs[0].value] + rest)
  }

  lemma {:induction false} UnlitLits(s: seq<byte>)
    ensures Unlit(Lits(s)) == Some(s)
    decreases |s|
  {
    if s != [] {
      assert Lits(s)[1..] == Lits(s[1..]);
      UnlitLits(s[1..]);
      assert s == [s[0]] + s[1..];
    }
  }

  function DecodeEntry(bs: Bytes): Option<(Key, Bytes)> {
    match ReadDelimited(bs, 1)
    case None => None
    case Some((key, afterKey)) =>
      match ReadDelimited(afterKey, 2)
      case None => None
      case Some((value, rest)) =>
        match Unlit(key)
        case None => None
        case Some(k) => if rest == [] then Some((k, value)) else None
  }

  /** Reads records until the bytes run out; no record starts with a zero byte. */
  function DecodeDataSet(bs: Bytes): Option<Entries>
    decreases |bs|
  {
    if bs == [] then Some([])
    else
      match ReadDelimited(bs, 1)
      case None => None
      case Some((entry, rest)) =>
        if |rest| >= |bs| then None
        else
          match DecodeEntry(entry)
          case None => None
          case Some(kv) =>
            match DecodeDataSet(rest)
            case None => None
            case Some(more) => Some([kv] + more)
  }

  lemma {:induction false} EntryRoundTrip(key: Key, value: Bytes)
    ensures DecodeEntry(LengthDelimited(1, Lits(key)) + LengthDelimited(2, value)) == Some((key, value))
  {
    var tail := LengthDelimited(2, value);
    ReadDelimitedBack(1, Lits(key), tail);
    ReadDelimitedBack(2, value, []);
    assert tail + [] == tail;
    UnlitLits(key);
  }

  function EntriesInOrder(keys: seq<Key>, entries: Entries): Entries {
    seq(|keys|, i requires 0 <= i < |keys| => (keys[i], Get(entries, keys[i], [])))
  }

  lemma {:induction false} RecordRoundTrip(key: Key, value: Bytes, rest: Bytes)
    ensures var bs := EncodeEntry(key, value) + rest;
            && bs != []
            && ReadDelimited(bs, 1) == Some((LengthDelimited(1, Lits(key)) + LengthDelimited(2, value), rest))
            && |rest| < |bs|
  {
    ReadDelimitedBack(1, LengthDelimited(1, Lits(key)) + LengthDelimited(2, value), rest);
  }

  /** Reading one record leaves the rest to be read. */
  lemma {:induction false} DecodeOneMore(key: Key, value: Bytes, rest: Bytes)
    ensures DecodeDataSet(EncodeEntry(key, value) + rest)
         == match DecodeDataSet(rest) case None => None case Some(more) => Some([(key, value)] + more)
  {
    RecordRoundTrip(key, value, rest);
    EntryRoundTrip(key, value);
  }

  lemma EntriesSplit(keys: seq<Key>, entries: Entries)
    requires keys != []
    ensures EntriesInOrder(keys, entries)
            == [(keys[0], Get(entries, keys[0], []))] + EntriesInOrder(keys[1..], entries)
  {
  }

  lemma {:induction false} InOrderRoundTrip(keys: seq<Key>, entries: Entries)
    ensures DecodeDataSet(EncodeInOrder(keys, entries)) == Some(EntriesInOrder(keys, entries))
    decreases |keys|
  {
    if keys == [] {
      assert EntriesInOrder(keys, entries) == [];
    } else {
      DecodeOneMore(keys[0], Get(entries, keys[0], []), EncodeInOrder(keys[1..], entries));
      InOrderRoundTrip(keys[1..], entries);
      EntriesSplit(keys, entries);
    }
  }

  /** Nothing follows the last record: a zero byte is no tag. */
  lemma {:induction false} NoTrailingZeros(keys: seq<Key>, entries: Entries, n: nat)
    requires n > 0
    ensures DecodeDataSet(EncodeInOrder(keys, entries) + Zeros(n)) == None
    decreases |keys|
  {
    if keys == [] {
      assert [] + Zeros(n) == Zeros(n);
    } else {
      var rest := EncodeInOrder(keys[1..], entries) + Zeros(n);
      assert EncodeInOrder(keys, entries) + Zeros(n) == Record(keys[0], entries) + rest;
      DecodeOneMore(keys[0], Get(entries, keys[0], []), rest);
      NoTrailingZeros(keys[1..], entries, n);
    }
  }

  lemma {:induction false} RecordsStartLiteral(keys: seq<Key>, entries: Entries)
    ensures StartsLiteral(EncodeInOrder(keys, entries))
  {
  }

  // Unambiguity

  lemma {:induction false} SortedEntriesDetermineMap(a: Entries, b: Entries)
    requires Unique(a) && Unique(b)
    requires EntriesInOrder(Sort(Keys(a), LexLeq), a) == EntriesInOrder(Sort(Keys(b), LexLeq), b)
    ensures ToMap(a) == ToMap(b)
  {
    LexPreorder();
    SortCorrect(Keys(a), LexLeq);
    SortCorrect(Keys(b), LexLeq);
    var ka, kb := Sort(Keys(a), LexLeq), Sort(Keys(b), LexLeq);
    assert |ka| == |kb|;
    forall i | 0 <= i < |ka|
      ensures ka[i] == kb[i] && Get(a, ka[i], []) == Get(b, ka[i], [])
    {
      assert EntriesInOrder(ka, a)[i] == EntriesInOrder(kb, b)[i];
    }
    assert ka == kb;
    forall k
      ensures k in ToMap(a) <==> k in ToMap(b)
      ensures k in ToMap(a) ==> ToMap(a)[k] == ToMap(b)[k]
    {
      KeysHas(a, k);
      KeysHas(b, k);
      assert k in ka <==> k in Keys(a);
      if k in ka {
        var i :| 0 <= i < |ka| && ka[i] == k;
      }
    }
  }

  /** The encoding determines the map, empty keys and values included. */
  lemma {:induction false} EncodingInjective(a: Entries, b: Entries)
    requires Unique(a) && Unique(b)
    ensures EncodeUnsignedDataSet(a) == EncodeUnsignedDataSet(b) <==> ToMap(a) == ToMap(b)
  {
    if EncodeUnsignedDataSet(a) == EncodeUnsignedDataSet(b) {
      InOrderRoundTrip(Sort(Keys(a), LexLeq), a);
      InOrderRoundTrip(Sort(Keys(b), LexLeq), b);
      SortedEntriesDetermineMap(a, b);
    }
    if ToMap(a) == ToMap(b) {
      EncodingIgnoresOrder(a, b);
    }
  }

  lemma DistinctWhenSorted(a: Entries, keys: seq<Key>)
    requires Unique(a) && multiset(keys) == multiset(Keys(a))
    ensures forall i, j :: 0 <= i < j < |keys| ==> keys[i] != keys[j]
  {
    forall i, j | 0 <= i < j < |keys|
      ensures keys[i] != keys[j]
    {
      MultisetOfDistinct(Keys(a), keys[i]);
      assert keys == keys[..j] + keys[j..];
      assert keys[i] in multiset(keys[..j]) by {
        assert keys[..j][i] == keys[i];
      }
      assert keys[j] in multiset(keys[j..]) by {
        assert keys[j..][0] == keys[j];
      }
    }
  }

  lemma SameLookup(a: Entries, keys: seq<Key>, k: Key)
    requires forall x :: x in keys <==> x in Keys(a)
    requires forall i, j :: 0 <= i < j < |keys| ==> keys[i] != keys[j]
    ensures Has(EntriesInOrder(keys, a), k) <==> Has(a, k)
    ensures Get(EntriesInOrder(keys, a), k, []) == Get(a, k, [])
  {
    var es := EntriesInOrder(keys, a);
    KeysHas(a, k);
    if k in keys {
      var i :| 0 <= i < |keys| && keys[i] == k;
      assert es[i].0 == k;
      GetAt(es, i, []);
    } else {
      assert !Has(es, k);
      GetMissing(es, k, []);
      GetMissing(a, k, []);
    }
  }

  lemma ReadsSorted(a: Entries, keys: seq<Key>)
    requires Unique(a) && keys == Sort(Keys(a), LexLeq)
    ensures Unique(EntriesInOrder(keys, a)) && ToMap(EntriesInOrder(keys, a)) == ToMap(a)
    ensures forall i, j :: 0 <= i < j < |keys| ==> ComesBefore(keys[i], keys[j])
  {
    var es := EntriesInOrder(keys, a);
    LexPreorder();
    SortCorrect(Keys(a), LexLeq);
    DistinctWhenSorted(a, keys);
    forall i, j | 0 <= i < j < |keys|
      ensures ComesBefore(keys[i], keys[j])
    {
      LexMeans(keys[i], keys[j]);
    }
    forall k
      ensures Has(es, k) <==> Has(a, k)
      ensures Get(es, k, []) == Get(a, k, [])
    {
      SameLookup(a, keys, k);
    }
  }

  /** The encoding reads back as the map's entries in ascending order of their keys: of two entries the
      earlier one's key is a proper prefix of the other's, or has the smaller byte where they first
      differ. */
  lemma {:induction false} EncodingAscends(a: Entries)
    requires Unique(a)
    ensures DecodeDataSet(EncodeUnsignedDataSet(a)).Some?
    ensures var es := DecodeDataSet(EncodeUnsignedDataSet(a)).value;
            && Unique(es) && ToMap(es) == ToMap(a)
            && forall i, j :: 0 <= i < j < |es| ==> ComesBefore(es[i].0, es[j].0)
  {
    var keys := Sort(Keys(a), LexLeq);
    InOrderRoundTrip(keys, a);
    ReadsSorted(a, keys);
  }

  lemma {:induction false} NeverPadded(ka: seq<Key>, a: Entries, kb: seq<Key>, b: Entries, n: nat)
    requires EncodeInOrder(kb, b) == EncodeInOrder(ka, a) + Zeros(n)
    ensures n == 0
  {
    InOrderRoundTrip(kb, b);
    if n > 0 {
      NoTrailingZeros(ka, a, n);
    }
  }

  lemma {:induction false} SameHashSameEncoding(a: Entries, b: Entries)
    requires |EncodeUnsignedDataSet(a)| <= |EncodeUnsignedDataSet(b)|
    requires HashProto(EncodeUnsignedDataSet(a)) == HashProto(EncodeUnsignedDataSet(b))
    ensures EncodeUnsignedDataSet(a) == EncodeUnsignedDataSet(b)
  {
    var ka, kb := Sort(Keys(a), LexLeq), Sort(Keys(b), LexLeq);
    var ea, eb := EncodeInOrder(ka, a), EncodeInOrder(kb, b);
    RecordsStartLiteral(ka, a);
    RecordsStartLiteral(kb, b);
    HashProtoUpToZeros(ea, eb);
    NeverPadded(ka, a, kb, b, |eb| - |ea|);
    assert ea + Zeros(0) == ea;
  }

  /** So does its hash, the value hash every node votes on, although no length is mixed in. */
  lemma {:induction false} ValueHashInjective(a: Entries, b: Entries)
    requires Unique(a) && Unique(b)
    ensures HashProto(EncodeUnsignedDataSet(a)) == HashProto(EncodeUnsignedDataSet(b)) <==> ToMap(a) == ToMap(b)
  {
    if HashProto(EncodeUnsignedDataSet(a)) == HashProto(EncodeUnsignedDataSet(b)) {
      if |EncodeUnsignedDataSet(a)| <= |EncodeUnsignedDataSet(b)| {
        SameHashSameEncoding(a, b);
      } else {
        SameHashSameEncoding(b, a);
      }
    }
    EncodingInjective(a, b);
  }
}
