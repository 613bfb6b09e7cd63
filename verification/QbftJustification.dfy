/** What justifies a PRE-PREPARE: the message a leader builds is the message every peer accepts. */
module QbftJustification {
  import opened Wrappers
  import opened Dicts
  import opened QbftMessages
  import opened QbftRules
  import opened QbftLemmas

  // Grouping PREPAREs

  ghost predicate GroupEntry(key: PreparedKey, e: (nat, Msg), ms: seq<Msg>) {
    && e.1 in ms
    && e.1.peerIdx == e.0
    && Hit(Votes(Prepare, key.0, Some(key.1)), e.1)
  }

  ghost predicate GroupOf(g: (PreparedKey, Dict<nat, Msg>), ms: seq<Msg>) {
    Unique(g.1) && forall i :: 0 <= i < |g.1| ==> GroupEntry(g.0, g.1[i], ms)
  }

  lemma PutInGroup(key: PreparedKey, group: Dict<nat, Msg>, m: Msg, ms: seq<Msg>)
    requires GroupOf((key, group), ms) && m in ms && Hit(Votes(Prepare, key.0, Some(key.1)), m)
    ensures GroupOf((key, Put(group, m.peerIdx, m)), ms)
  {
    PutAt(group, m.peerIdx, m);
    assert GroupEntry(key, (m.peerIdx, m), ms);
    if Has(group, m.peerIdx) {
      var j :| 0 <= j < |group| && group[j].0 == m.peerIdx;
      assert Put(group, m.peerIdx, m) == group[j := (m.peerIdx, m)];
    }
  }

  lemma GroupGrows(g: (PreparedKey, Dict<nat, Msg>), init: seq<Msg>, ms: seq<Msg>)
    requires GroupOf(g, init) && forall m :: m in init ==> m in ms
    ensures GroupOf(g, ms)
  {
    forall i | 0 <= i < |g.1|
      ensures GroupEntry(g.0, g.1[i], ms)
    {
      assert GroupEntry(g.0, g.1[i], init);
    }
  }

  lemma GroupReplaced(sets: PrepareSets, key: PreparedKey, group: Dict<nat, Msg>, ms: seq<Msg>)
    requires Unique(sets) && forall i :: 0 <= i < |sets| ==> GroupOf(sets[i], ms)
    requires GroupOf((key, group), ms)
    ensures var r := Put(sets, key, group);
            Unique(r) && forall i :: 0 <= i < |r| ==> GroupOf(r[i], ms)
  {
    PutAt(sets, key, group);
    if Has(sets, key) {
      var j :| 0 <= j < |sets| && sets[j].0 == key;
      assert Put(sets, key, group) == sets[j := (key, group)];
    }
  }

  /** Each group holds one PREPARE per source, all for the group's round and hash. */
  lemma {:induction false} GroupsSound(ms: seq<Msg>)
    ensures var sets := GroupPrepares(ms);
            Unique(sets) && forall i :: 0 <= i < |sets| ==> GroupOf(sets[i], ms)
  {
    if ms != [] {
      var init, m := ms[..|ms| - 1], ms[|ms| - 1];
      assert ms == init + [m];
      GroupsSound(init);
      var sets := GroupPrepares(init);
      forall i | 0 <= i < |sets|
        ensures GroupOf(sets[i], ms)
      {
        GroupGrows(sets[i], init, ms);
      }
      if Hit(HashedPrepares, m) {
        var key := (m.round, m.valueHash.value);
        var group := Get(sets, key, []);
        if Has(sets, key) {
          var j :| 0 <= j < |sets| && sets[j].0 == key;
          GetAt(sets, j, []);
          assert GroupOf((key, group), ms);
        } else {
          GetMissing(sets, key, []);
        }
        PutInGroup(key, group, m, ms);
        GroupReplaced(sets, key, Put(group, m.peerIdx, m), ms);
      }
    }
  }

  // Collecting ROUND-CHANGEs

  /** Candidates come from distinct sources, each prepared no later than the key. */
  ghost predicate CandidatesOf(cands: seq<Msg>, qrc: seq<Msg>, key: PreparedKey) {
    DistinctPeers(cands) && forall m :: m in cands ==> m in qrc && m.preparedRound <= key.0
  }

  ghost predicate NamesKey(m: Msg, key: PreparedKey) {
    m.preparedRound == key.0 && m.preparedValueHash == key.1
  }

  lemma {:induction false} CandidatesSound(qrc: seq<Msg>, key: PreparedKey)
    ensures var c := CollectCandidates(qrc, key);
            && CandidatesOf(c.msgs, qrc, key)
            && c.sources == Peers(c.msgs)
            && (c.hasHighest ==> exists m :: m in c.msgs && NamesKey(m, key))
  {
    if qrc != [] {
      var init, m := qrc[..|qrc| - 1], qrc[|qrc| - 1];
      assert qrc == init + [m];
      CandidatesSound(init, key);
      var c, d := CollectCandidates(init, key), CollectCandidates(qrc, key);
      if c != d {
        assert d.msgs == c.msgs + [m];
        assert Peers(d.msgs) == Peers(c.msgs) + {m.peerIdx};
        if d.hasHighest && !c.hasHighest {
          assert NamesKey(m, key) && m in d.msgs;
        } else if c.hasHighest {
          var o :| o in c.msgs && NamesKey(o, key);
          assert o in d.msgs;
        }
      }
    }
  }

  // The justification itself

  /** A quorum of ROUND-CHANGEs with nothing prepared. */
  ghost predicate UnpreparedQuorum(js: seq<Msg>, all: seq<Msg>, round: nat, quorum: nat) {
    |js| >= quorum && js == Select(UnpreparedRoundChanges(round), all)
  }

  /** A quorum of ROUND-CHANGEs, one of them naming `key` and none prepared later, followed by a
      quorum of PREPAREs for `key`; sources are distinct within each part. */
  ghost predicate PreparedQuorum(
    js: seq<Msg>, all: seq<Msg>, round: nat, quorum: nat, key: PreparedKey, cands: seq<Msg>, prepares: seq<Msg>)
  {
    && js == cands + prepares
    && |cands| >= quorum && |prepares| >= quorum
    && CandidatesOf(cands, Select(RoundChanges(round), all), key)
    && (exists m :: m in cands && NamesKey(m, key))
    && DistinctPeers(prepares)
    && forall m :: m in prepares ==> m in all && Hit(Votes(Prepare, key.0, Some(key.1)), m)
  }

  lemma {:induction false} FirstSupportFound(sets: PrepareSets, qrc: seq<Msg>, quorum: nat) returns (i: nat)
    requires FirstSupport(sets, qrc, quorum).Some?
    ensures i < |sets| && GroupSupport(sets[i], qrc, quorum) == FirstSupport(sets, qrc, quorum)
  {
    var init := sets[..|sets| - 1];
    if FirstSupport(init, qrc, quorum).Some? {
      i := FirstSupportFound(init, qrc, quorum);
    } else {
      i := |sets| - 1;
    }
  }

  lemma GroupValues(g: (PreparedKey, Dict<nat, Msg>), ms: seq<Msg>)
    requires GroupOf(g, ms)
    ensures DistinctPeers(Values(g.1))
    ensures forall m :: m in Values(g.1) ==> m in ms && Hit(Votes(Prepare, g.0.0, Some(g.0.1)), m)
  {
    forall i | 0 <= i < |g.1|
      ensures GroupEntry(g.0, g.1[i], ms)
    {
    }
    assert forall i :: 0 <= i < |g.1| ==> Values(g.1)[i].peerIdx == g.1[i].0 by {
      forall i | 0 <= i < |g.1|
        ensures Values(g.1)[i].peerIdx == g.1[i].0
      {
        assert GroupEntry(g.0, g.1[i], ms);
      }
    }
    forall m | m in Values(g.1)
      ensures m in ms && Hit(Votes(Prepare, g.0.0, Some(g.0.1)), m)
    {
      var i :| 0 <= i < |g.1| && m == Values(g.1)[i];
      assert GroupEntry(g.0, g.1[i], ms);
    }
  }

  /** Whatever the buffer holds, a justification found in it has one of the two shapes. */
  lemma JustificationShape(all: seq<Msg>, round: nat, quorum: nat)
      returns (key: PreparedKey, cands: seq<Msg>, prepares: seq<Msg>)
    requires JustifyQuorum(all, round, quorum).Some?
    ensures var js := JustifyQuorum(all, round, quorum).value;
            UnpreparedQuorum(js, all, round, quorum) || PreparedQuorum(js, all, round, quorum, key, cands, prepares)
  {
    key, cands, prepares := (0, ZERO_HASH), [], [];
    if |Select(UnpreparedRoundChanges(round), all)| < quorum {
      var sets, qrc := GroupPrepares(all), Select(RoundChanges(round), all);
      var i := FirstSupportFound(sets, qrc, quorum);
      GroupsSound(all);
      GroupValues(sets[i], all);
      CandidatesSound(qrc, sets[i].0);
      key, cands, prepares := sets[i].0, CollectCandidates(qrc, sets[i].0).msgs, Values(sets[i].1);
    }
  }

  // The value the justification selects

  /** When every PREPARE is for one key, the tally holds that key alone, counting all of them. */
  lemma {:induction false} TallyOfOneKey(ms: seq<Msg>, key: PreparedKey)
    requires forall m :: m in ms && m.msgType == Prepare ==> Hit(Votes(Prepare, key.0, Some(key.1)), m)
    ensures var n := |Select(HashedPrepares, ms)|;
            TallyPrepares(ms) == if n == 0 then [] else [(key, n)]
  {
    if ms != [] {
      var init, m := ms[..|ms| - 1], ms[|ms| - 1];
      assert ms == init + [m];
      TallyOfOneKey(init, key);
    }
  }

  lemma PreparedQuorumTally(
    js: seq<Msg>, all: seq<Msg>, round: nat, quorum: nat, key: PreparedKey, cands: seq<Msg>, prepares: seq<Msg>)
    requires PreparedQuorum(js, all, round, quorum, key, cands, prepares) && quorum > 0
    ensures TallyPrepares(js) == [(key, |prepares|)]
    ensures Select(RoundChanges(round), js) == cands
  {
    SelectSound(RoundChanges(round), all);
    SelectConcat(HashedPrepares, cands, prepares);
    SelectNone(HashedPrepares, cands);
    SelectAll(HashedPrepares, prepares);
    TallyOfOneKey(js, key);
    SelectConcat(RoundChanges(round), cands, prepares);
    SelectAll(RoundChanges(round), cands);
    SelectNone(RoundChanges(round), prepares);
    assert [] + prepares == prepares;
    assert cands + [] == cands;
  }

  lemma UnpreparedQuorumTally(js: seq<Msg>, all: seq<Msg>, round: nat, quorum: nat)
    requires UnpreparedQuorum(js, all, round, quorum)
    ensures TallyPrepares(js) == []
    ensures Select(RoundChanges(round), js) == js
    ensures forall m :: m in js ==> m in all && Hit(UnpreparedRoundChanges(round), m)
  {
    SelectSound(UnpreparedRoundChanges(round), all);
    SelectNone(HashedPrepares, js);
    TallyOfOneKey(js, (0, ZERO_HASH));
    SelectAll(RoundChanges(round), js);
  }

  lemma ProposedHashOfShape(cfg: Config, js: seq<Msg>, all: seq<Msg>, round: nat, key: PreparedKey,
      cands: seq<Msg>, prepares: seq<Msg>)
    requires cfg.nodes > 0
    ensures UnpreparedQuorum(js, all, round, Quorum(cfg.nodes)) ==>
              ProposedHash(cfg, js) == cfg.hashValue(cfg.proposal)
    ensures PreparedQuorum(js, all, round, Quorum(cfg.nodes), key, cands, prepares) ==>
              ProposedHash(cfg, js) == key.1
  {
    if UnpreparedQuorum(js, all, round, Quorum(cfg.nodes)) {
      UnpreparedQuorumTally(js, all, round, Quorum(cfg.nodes));
    }
    if PreparedQuorum(js, all, round, Quorum(cfg.nodes), key, cands, prepares) {
      PreparedQuorumTally(js, all, round, Quorum(cfg.nodes), key, cands, prepares);
      assert TallyPrepares(js)[0] == (key, |prepares|);
    }
  }

  /** A justification is drawn from the buffer, and holds PREPAREs and ROUND-CHANGEs of the round only. */
  lemma JustificationContents(all: seq<Msg>, round: nat, quorum: nat, js: seq<Msg>)
    requires JustifyQuorum(all, round, quorum) == Some(js)
    ensures forall j :: j in js ==> j in all
    ensures forall j :: j in js ==> j.msgType == Prepare || (j.msgType == RoundChange && j.round == round)
  {
    var key, cands, prepares := JustificationShape(all, round, quorum);
    SelectSound(RoundChanges(round), all);
    SelectSound(UnpreparedRoundChanges(round), all);
  }

  /** What is proposed is the node's own value or one that a PREPARE in the buffer bears. */
  lemma ProposedHashSource(cfg: Config, all: seq<Msg>, round: nat, js: seq<Msg>)
    requires cfg.nodes > 0 && JustifyQuorum(all, round, Quorum(cfg.nodes)) == Some(js)
    ensures || ProposedHash(cfg, js) == cfg.hashValue(cfg.proposal)
            || exists m :: m in all && m.msgType == Prepare && m.valueHash == Some(ProposedHash(cfg, js))
  {
    var key, cands, prepares := JustificationShape(all, round, Quorum(cfg.nodes));
    ProposedHashOfShape(cfg, js, all, round, key, cands, prepares);
    if PreparedQuorum(js, all, round, Quorum(cfg.nodes), key, cands, prepares) {
      assert prepares[0] in prepares;
    }
  }
}
