/** What selecting, buffering and flattening messages do to their contents. */
module QbftLemmas {
  import opened Dicts
  import opened QbftMessages
  import opened QbftRules

  lemma {:induction false} SelectSound(q: Query, ms: seq<Msg>)
    ensures forall m :: m in Select(q, ms) <==> m in ms && Hit(q, m)
  {
    if ms != [] {
      SelectSound(q, ms[..|ms| - 1]);
      assert ms == ms[..|ms| - 1] + [ms[|ms| - 1]];
    }
  }

  lemma {:induction false} SelectConcat(q: Query, a: seq<Msg>, b: seq<Msg>)
    ensures Select(q, a + b) == Select(q, a) + Select(q, b)
  {
    if b == [] {
      assert a + b == a;
    } else {
      var init := b[..|b| - 1];
      assert (a + b)[..|a + b| - 1] == a + init;
      SelectConcat(q, a, init);
    }
  }

  lemma {:induction false} SelectAll(q: Query, ms: seq<Msg>)
    requires forall m :: m in ms ==> Hit(q, m)
    ensures Select(q, ms) == ms
  {
    if ms != [] {
      var init, last := ms[..|ms| - 1], ms[|ms| - 1];
      assert ms == init + [last];
      SelectAll(q, init);
    }
  }

  lemma {:induction false} SelectNone(q: Query, ms: seq<Msg>)
    requires forall m :: m in ms ==> !Hit(q, m)
    ensures Select(q, ms) == []
  {
    if ms != [] {
      var init, last := ms[..|ms| - 1], ms[|ms| - 1];
      assert ms == init + [last];
      SelectNone(q, init);
    }
  }

  lemma {:induction false} FlattenMsgsAppend(cms: seq<ConsensusMsg>, cm: ConsensusMsg)
    ensures FlattenMsgs(cms + [cm]) == FlattenMsgs(cms) + ([cm.msg] + cm.justification)
  {
    assert (cms + [cm])[..|cms + [cm]| - 1] == cms;
  }

  lemma {:induction false} FlattenConcat(a: Buffer, b: Buffer)
    ensures Flatten(a + b) == Flatten(a) + Flatten(b)
  {
    if b == [] {
      assert a + b == a;
    } else {
      var init, last := b[..|b| - 1], b[|b| - 1];
      var ab := a + b;
      assert ab[..|ab| - 1] == a + init;
      assert ab[|ab| - 1] == last;
      FlattenConcat(a, init);
      assert Flatten(ab) == Flatten(a + init) + FlattenMsgs(last.1);
      assert Flatten(b) == Flatten(init) + FlattenMsgs(last.1);
    }
  }

  lemma FlattenOne(entry: (nat, seq<ConsensusMsg>))
    ensures Flatten([entry]) == FlattenMsgs(entry.1)
  {
    assert [entry][..0] == [];
    assert Flatten([]) == [];
  }

  lemma {:induction false} PutInserts(buffer: Buffer, cm: ConsensusMsg) returns (before: seq<Msg>, after: seq<Msg>)
    ensures Flatten(buffer) == before + after
    ensures var p := cm.msg.peerIdx;
            Flatten(Put(buffer, p, Get(buffer, p, []) + [cm])) == before + ([cm.msg] + cm.justification) + after
  {
    var p := cm.msg.peerIdx;
    var own := [cm.msg] + cm.justification;
    if buffer == [] {
      before, after := [], [];
      FlattenMsgsAppend([], cm);
      FlattenOne((p, [cm]));
      assert [] + [cm] == [cm];
    } else if buffer[0].0 == p {
      var tail := buffer[1..];
      before, after := FlattenMsgs(buffer[0].1), Flatten(tail);
      assert buffer == [buffer[0]] + tail;
      FlattenConcat([buffer[0]], tail);
      FlattenOne(buffer[0]);
      FlattenConcat([(p, buffer[0].1 + [cm])], tail);
      FlattenOne((p, buffer[0].1 + [cm]));
      FlattenMsgsAppend(buffer[0].1, cm);
    } else {
      var tail := buffer[1..];
      var b, a := PutInserts(tail, cm);
      before, after := FlattenMsgs(buffer[0].1) + b, a;
      assert buffer == [buffer[0]] + tail;
      FlattenConcat([buffer[0]], tail);
      FlattenOne(buffer[0]);
      FlattenConcat([buffer[0]], Put(tail, p, Get(tail, p, []) + [cm]));
      assert FlattenMsgs(buffer[0].1) + (b + own + a) == before + own + after;
    }
  }

  /** Buffering inserts the message and its justification somewhere, and disturbs nothing else. */
  lemma {:induction false} BufferInserts(buffer: Buffer, cm: ConsensusMsg) returns (before: seq<Msg>, after: seq<Msg>)
    ensures Flatten(buffer) == before + after
    ensures Flatten(BufferMessage(buffer, cm)) == before + ([cm.msg] + cm.justification) + after
  {
    before, after := PutInserts(buffer, cm);
  }

  lemma BufferContents(buffer: Buffer, cm: ConsensusMsg)
    ensures forall m :: m in Flatten(BufferMessage(buffer, cm)) <==>
                        m in Flatten(buffer) || m == cm.msg || m in cm.justification
  {
    var before, after := BufferInserts(buffer, cm);
  }

  ghost predicate DistinctPeers(ms: seq<Msg>) {
    forall i, j :: 0 <= i < j < |ms| ==> ms[i].peerIdx != ms[j].peerIdx
  }

  function Peers(ms: seq<Msg>): (ps: set<nat>)
    ensures forall m :: m in ms ==> m.peerIdx in ps
    ensures forall p :: p in ps ==> exists m :: m in ms && m.peerIdx == p
  {
    set m | m in ms :: m.peerIdx
  }

  /** As many sources as messages, when no source repeats. */
  lemma {:induction false} DistinctPeersCount(ms: seq<Msg>)
    requires DistinctPeers(ms)
    ensures |Peers(ms)| == |ms|
  {
    if ms != [] {
      var init, last := ms[..|ms| - 1], ms[|ms| - 1];
      DistinctPeersCount(init);
      assert ms == init + [last];
      assert Peers(ms) == Peers(init) + {last.peerIdx};
      assert last.peerIdx !in Peers(init);
    }
  }

  /** What a query finds after buffering is what it found before with the new hits inserted. */
  lemma SelectAfterInsert(q: Query, buffer: Buffer, cm: ConsensusMsg) returns (x: seq<Msg>, y: seq<Msg>)
    ensures Select(q, Flatten(buffer)) == x + y
    ensures Select(q, Flatten(BufferMessage(buffer, cm))) == x + Select(q, [cm.msg] + cm.justification) + y
  {
    var before, after := BufferInserts(buffer, cm);
    var own := [cm.msg] + cm.justification;
    x, y := Select(q, before), Select(q, after);
    SelectConcat(q, before, after);
    SelectConcat(q, before + own, after);
    SelectConcat(q, before, own);
  }

  lemma SelectOwn(q: Query, cm: ConsensusMsg)
    requires forall j :: j in cm.justification ==> !Hit(q, j)
    ensures Select(q, [cm.msg] + cm.justification) == if Hit(q, cm.msg) then [cm.msg] else []
  {
    SelectConcat(q, [cm.msg], cm.justification);
    SelectNone(q, cm.justification);
    if Hit(q, cm.msg) {
      SelectAll(q, [cm.msg]);
    } else {
      SelectNone(q, [cm.msg]);
    }
  }

  lemma SelectInserted(q: Query, buffer: Buffer, cm: ConsensusMsg) returns (x: seq<Msg>, y: seq<Msg>)
    requires forall j :: j in cm.justification ==> !Hit(q, j)
    ensures Select(q, Flatten(buffer)) == x + y
    ensures Select(q, Flatten(BufferMessage(buffer, cm))) == x + (if Hit(q, cm.msg) then [cm.msg] else []) + y
  {
    x, y := SelectAfterInsert(q, buffer, cm);
    SelectOwn(q, cm);
  }

  lemma InsertDistinct(x: seq<Msg>, m: Msg, y: seq<Msg>)
    requires DistinctPeers(x + y)
    requires forall o :: o in x + y ==> o.peerIdx != m.peerIdx
    ensures DistinctPeers(x + [m] + y)
  {
    var z := x + [m] + y;
    forall i, j | 0 <= i < j < |z|
      ensures z[i].peerIdx != z[j].peerIdx
    {
      if i == |x| {
        assert z[j] == (x + y)[j - 1];
      } else if j == |x| {
        assert z[i] == (x + y)[i];
      } else {
        var i' := if i < |x| then i else i - 1;
        var j' := if j < |x| then j else j - 1;
        assert z[i] == (x + y)[i'] && z[j] == (x + y)[j'];
      }
    }
  }

  /** Sources stay distinct when the new message is the first hit from its source. */
  lemma DistinctAfterInsert(q: Query, buffer: Buffer, cm: ConsensusMsg)
    requires DistinctPeers(Select(q, Flatten(buffer)))
    requires forall j :: j in cm.justification ==> !Hit(q, j)
    requires Hit(q, cm.msg) ==> forall m :: m in Flatten(buffer) && Hit(q, m) ==> m.peerIdx != cm.msg.peerIdx
    ensures DistinctPeers(Select(q, Flatten(BufferMessage(buffer, cm))))
  {
    var x, y := SelectInserted(q, buffer, cm);
    SelectSound(q, Flatten(buffer));
    if Hit(q, cm.msg) {
      InsertDistinct(x, cm.msg, y);
    } else {
      assert x + [] + y == x + y;
    }
  }
}
