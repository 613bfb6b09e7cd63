/** What an accepted message proves: the justification checks, by counting what a justification holds. */
module QbftEvidence {
  import opened Wrappers
  import opened Dicts
  import opened QbftMessages
  import opened QbftRules
  import opened QbftLemmas

  predicate IsRoundChangeOf(m: Msg, round: nat) {
    m.msgType == RoundChange && m.round == round
  }

  predicate IsHashedPrepare(m: Msg) {
    m.msgType == Prepare && m.valueHash.Some?
  }

  predicate IsVoteFor(m: Msg, t: MsgType, round: nat, h: Option<Hash>) {
    m.msgType == t && m.round == round && m.valueHash == h
  }

  /** Where in a list the ROUND-CHANGEs of a round are. */
  function RoundChangePlaces(ms: seq<Msg>, round: nat): set<nat> {
    set i | 0 <= i < |ms| && IsRoundChangeOf(ms[i], round)
  }

  function VotePlaces(ms: seq<Msg>, t: MsgType, round: nat, h: Option<Hash>): set<nat> {
    set i | 0 <= i < |ms| && IsVoteFor(ms[i], t, round, h)
  }

  // Counting

  function Places(q: Query, ms: seq<Msg>): set<nat> {
    set i | 0 <= i < |ms| && Hit(q, ms[i])
  }

  lemma {:induction false} SelectCounts(q: Query, ms: seq<Msg>)
    ensures |Select(q, ms)| == |Places(q, ms)|
    decreases |ms|
  {
    if ms == [] {
      assert Places(q, ms) == {};
    } else {
      var n := |ms| - 1;
      SelectCounts(q, ms[..n]);
      if Hit(q, ms[n]) {
        assert Places(q, ms) == Places(q, ms[..n]) + {n};
      } else {
        assert Places(q, ms) == Places(q, ms[..n]);
      }
    }
  }

  lemma RoundChangesCount(ms: seq<Msg>, round: nat)
    ensures |Select(RoundChanges(round), ms)| == |RoundChangePlaces(ms, round)|
  {
    SelectCounts(RoundChanges(round), ms);
    assert Places(RoundChanges(round), ms) == RoundChangePlaces(ms, round);
  }

  lemma VotesCount(ms: seq<Msg>, t: MsgType, round: nat, h: Option<Hash>)
    ensures |Select(Votes(t, round, h), ms)| == |VotePlaces(ms, t, round, h)|
  {
    SelectCounts(Votes(t, round, h), ms);
    assert Places(Votes(t, round, h), ms) == VotePlaces(ms, t, round, h);
  }

  // The tally of PREPAREs

  function KeyOf(m: Msg): PreparedKey
    requires IsHashedPrepare(m)
  {
    (m.round, m.valueHash.value)
  }

  predicate EntryCounts(e: (PreparedKey, nat), ms: seq<Msg>) {
    e.1 == |VotePlaces(ms, Prepare, e.0.0, Some(e.0.1))| > 0
  }

  ghost predicate Tallied(tally: Dict<PreparedKey, nat>, ms: seq<Msg>) {
    && Unique(tally)
    && (forall k :: 0 <= k < |tally| ==> EntryCounts(tally[k], ms))
    && forall i :: 0 <= i < |ms| && IsHashedPrepare(ms[i]) ==> Has(tally, KeyOf(ms[i]))
  }

  lemma VoteCountedOnce(ms: seq<Msg>, m: Msg, t: MsgType, round: nat, h: Option<Hash>)
    ensures |VotePlaces(ms + [m], t, round, h)|
            == |VotePlaces(ms, t, round, h)| + if IsVoteFor(m, t, round, h) then 1 else 0
  {
    if IsVoteFor(m, t, round, h) {
      assert VotePlaces(ms + [m], t, round, h) == VotePlaces(ms, t, round, h) + {|ms|};
    } else {
      assert VotePlaces(ms + [m], t, round, h) == VotePlaces(ms, t, round, h);
    }
  }

  lemma AbsentIsUncounted(tally: Dict<PreparedKey, nat>, ms: seq<Msg>, key: PreparedKey)
    requires Tallied(tally, ms) && !Has(tally, key)
    ensures VotePlaces(ms, Prepare, key.0, Some(key.1)) == {}
  {
    forall i | 0 <= i < |ms|
      ensures !IsVoteFor(ms[i], Prepare, key.0, Some(key.1))
    {
      if IsHashedPrepare(ms[i]) {
        assert Has(tally, KeyOf(ms[i]));
      }
    }
  }

  lemma KeepsPlaces(before: Dict<PreparedKey, nat>, after: Dict<PreparedKey, nat>, key: PreparedKey)
    requires |before| <= |after| && forall i :: 0 <= i < |before| ==> after[i].0 == before[i].0
    requires Has(before, key)
    ensures Has(after, key)
  {
    var i :| 0 <= i < |before| && before[i].0 == key;
    assert after[i].0 == key;
  }

  /** One more PREPARE counted: its count goes up, in place or at the end. */
  ghost predicate CountsOneMore(tally: Dict<PreparedKey, nat>, key: PreparedKey, after: Dict<PreparedKey, nat>) {
    && Unique(after) && Has(after, key) && |tally| <= |after|
    && (forall i :: 0 <= i < |tally| ==> after[i].0 == tally[i].0)
    && (forall i :: 0 <= i < |tally| ==> after[i].1 == tally[i].1 + if tally[i].0 == key then 1 else 0)
    && (if Has(tally, key) then |after| == |tally|
        else |after| == |tally| + 1 && after[..|tally|] == tally && after[|tally|] == (key, 1))
  }

  lemma TallyPut(tally: Dict<PreparedKey, nat>, key: PreparedKey, count: nat, after: Dict<PreparedKey, nat>)
    requires Unique(tally) && count == Get<PreparedKey, nat>(tally, key, 0)
    requires after == Put<PreparedKey, nat>(tally, key, count + 1)
    ensures CountsOneMore(tally, key, after)
  {
    PutAt<PreparedKey, nat>(tally, key, count + 1);
    if Has(tally, key) {
      var j :| 0 <= j < |tally| && tally[j].0 == key;
      GetAt<PreparedKey, nat>(tally, j, 0);
      assert after[j].0 == key;
    } else {
      GetMissing<PreparedKey, nat>(tally, key, 0);
      assert after[|tally|].0 == key;
    }
  }

  lemma OldEntryCounts(e: (PreparedKey, nat), ms: seq<Msg>, m: Msg, key: PreparedKey)
    requires EntryCounts(e, ms) && IsVoteFor(m, Prepare, key.0, Some(key.1))
    ensures EntryCounts((e.0, e.1 + if e.0 == key then 1 else 0), ms + [m])
  {
    VoteCountedOnce(ms, m, Prepare, e.0.0, Some(e.0.1));
  }

  lemma NewEntryCounts(tally: Dict<PreparedKey, nat>, ms: seq<Msg>, m: Msg, key: PreparedKey)
    requires Tallied(tally, ms) && !Has(tally, key) && IsVoteFor(m, Prepare, key.0, Some(key.1))
    ensures EntryCounts((key, 1), ms + [m])
  {
    AbsentIsUncounted(tally, ms, key);
    VoteCountedOnce(ms, m, Prepare, key.0, Some(key.1));
  }

  lemma TallyGrows(tally: Dict<PreparedKey, nat>, ms: seq<Msg>, m: Msg, key: PreparedKey,
                   after: Dict<PreparedKey, nat>)
    requires Tallied(tally, ms) && IsVoteFor(m, Prepare, key.0, Some(key.1)) && CountsOneMore(tally, key, after)
    ensures Tallied(after, ms + [m])
  {
    forall k | 0 <= k < |after|
      ensures EntryCounts(after[k], ms + [m])
    {
      if k < |tally| {
        assert EntryCounts(tally[k], ms);
        OldEntryCounts(tally[k], ms, m, key);
      } else {
        NewEntryCounts(tally, ms, m, key);
      }
    }
    forall i | 0 <= i < |ms + [m]| && IsHashedPrepare((ms + [m])[i])
      ensures Has(after, KeyOf((ms + [m])[i]))
    {
      if i < |ms| {
        KeepsPlaces(tally, after, KeyOf(ms[i]));
      }
    }
  }

  lemma TallyStays(tally: Dict<PreparedKey, nat>, ms: seq<Msg>, m: Msg)
    requires Tallied(tally, ms) && !IsHashedPrepare(m)
    ensures Tallied(tally, ms + [m])
  {
    forall k | 0 <= k < |tally|
      ensures EntryCounts(tally[k], ms + [m])
    {
      VoteCountedOnce(ms, m, Prepare, tally[k].0.0, Some(tally[k].0.1));
    }
  }

  lemma {:induction false} TallyCounts(ms: seq<Msg>)
    ensures Tallied(TallyPrepares(ms), ms)
    decreases |ms|
  {
    if ms != [] {
      var init, m := ms[..|ms| - 1], ms[|ms| - 1];
      assert ms == init + [m];
      TallyCounts(init);
      if IsHashedPrepare(m) {
        var tally := TallyPrepares(init);
        assert TallyPrepares(ms)
            == Put<PreparedKey, nat>(tally, KeyOf(m), Get<PreparedKey, nat>(tally, KeyOf(m), 0) + 1);
        TallyPut(tally, KeyOf(m), Get<PreparedKey, nat>(tally, KeyOf(m), 0), TallyPrepares(ms));
        TallyGrows(tally, init, m, KeyOf(m), TallyPrepares(ms));
      } else {
        TallyStays(TallyPrepares(init), init, m);
      }
    }
  }

  // The highest prepared round

  ghost predicate FirstOfRound(ms: seq<Msg>, key: PreparedKey, k: int) {
    && 0 <= k < |ms| && IsVoteFor(ms[k], Prepare, key.0, Some(key.1))
    && forall i :: 0 <= i < k && IsHashedPrepare(ms[i]) ==> ms[i].round != key.0
  }

  /** No PREPARE is of a later round than the key's, and the first of that round is for its hash. */
  ghost predicate HighestFirst(ms: seq<Msg>, key: PreparedKey) {
    && (forall i :: 0 <= i < |ms| && IsHashedPrepare(ms[i]) ==> ms[i].round <= key.0)
    && exists k :: FirstOfRound(ms, key, k)
  }

  lemma HighestUnique(ms: seq<Msg>, a: PreparedKey, b: PreparedKey)
    requires HighestFirst(ms, a) && HighestFirst(ms, b)
    ensures a == b
  {
    var i :| FirstOfRound(ms, a, i);
    var j :| FirstOfRound(ms, b, j);
    assert IsHashedPrepare(ms[i]) && IsHashedPrepare(ms[j]);
  }

  /** Only the order of the keys matters. */
  lemma {:induction false} HighestOfSameKeys(a: Dict<PreparedKey, nat>, b: Dict<PreparedKey, nat>)
    requires a != [] && |a| == |b| && forall i :: 0 <= i < |a| ==> a[i].0 == b[i].0
    ensures HighestKey(a) == HighestKey(b)
    decreases |a|
  {
    if |a| > 1 {
      HighestOfSameKeys(a[..|a| - 1], b[..|b| - 1]);
    }
  }

  lemma HighestStays(ms: seq<Msg>, m: Msg, key: PreparedKey)
    requires HighestFirst(ms, key) && (IsHashedPrepare(m) ==> m.round <= key.0)
    ensures HighestFirst(ms + [m], key)
  {
    var k :| FirstOfRound(ms, key, k);
    assert FirstOfRound(ms + [m], key, k);
  }

  lemma HighestIsNew(ms: seq<Msg>, m: Msg, key: PreparedKey)
    requires IsVoteFor(m, Prepare, key.0, Some(key.1))
    requires forall i :: 0 <= i < |ms| && IsHashedPrepare(ms[i]) ==> ms[i].round < key.0
    ensures HighestFirst(ms + [m], key)
  {
    assert FirstOfRound(ms + [m], key, |ms|);
  }

  lemma HasHighestRound(ms: seq<Msg>, tally: Dict<PreparedKey, nat>, key: PreparedKey)
    requires Tallied(tally, ms) && Has(tally, key) && tally != [] && HighestFirst(ms, HighestKey(tally))
    ensures key.0 <= HighestKey(tally).0
  {
    var k :| 0 <= k < |tally| && tally[k].0 == key;
    assert EntryCounts(tally[k], ms);
    var i :| i in VotePlaces(ms, Prepare, key.0, Some(key.1));
    assert IsHashedPrepare(ms[i]);
  }

  lemma HighestGrows(ms: seq<Msg>, m: Msg, tally: Dict<PreparedKey, nat>, key: PreparedKey,
                     after: Dict<PreparedKey, nat>)
    requires Tallied(tally, ms) && IsVoteFor(m, Prepare, key.0, Some(key.1)) && CountsOneMore(tally, key, after)
    requires tally == [] ==> forall i :: 0 <= i < |ms| ==> !IsHashedPrepare(ms[i])
    requires tally != [] ==> HighestFirst(ms, HighestKey(tally))
    ensures after != [] && HighestFirst(ms + [m], HighestKey(after))
  {
    if tally == [] {
      HighestIsNew(ms, m, key);
    } else if Has(tally, key) {
      HighestOfSameKeys(tally, after);
      HasHighestRound(ms, tally, key);
      HighestStays(ms, m, HighestKey(tally));
    } else {
      if key.0 > HighestKey(tally).0 {
        HighestIsNew(ms, m, key);
      } else {
        HighestStays(ms, m, HighestKey(tally));
      }
    }
  }

  lemma {:induction false} TallyHighest(ms: seq<Msg>)
    ensures TallyPrepares(ms) == [] <==> forall i :: 0 <= i < |ms| ==> !IsHashedPrepare(ms[i])
    ensures TallyPrepares(ms) != [] ==> HighestFirst(ms, HighestKey(TallyPrepares(ms)))
    decreases |ms|
  {
    if ms != [] {
      var init, m := ms[..|ms| - 1], ms[|ms| - 1];
      assert ms == init + [m];
      TallyHighest(init);
      TallyCounts(init);
      var tally := TallyPrepares(init);
      if IsHashedPrepare(m) {
        assert TallyPrepares(ms)
            == Put<PreparedKey, nat>(tally, KeyOf(m), Get<PreparedKey, nat>(tally, KeyOf(m), 0) + 1);
        TallyPut(tally, KeyOf(m), Get<PreparedKey, nat>(tally, KeyOf(m), 0), TallyPrepares(ms));
        HighestGrows(init, m, tally, KeyOf(m), TallyPrepares(ms));
        assert IsHashedPrepare(ms[|init|]);
      } else if tally != [] {
        HighestStays(init, m, HighestKey(tally));
      }
    }
  }

  // PRE-PREPARE

  predicate NothingPrepared(m: Msg) {
    m.preparedRound == 0 && m.preparedValueHash == ZERO_HASH
  }

  /** The justification proves that `key` is the value to propose: its round is the highest among the
      PREPAREs, of which a quorum are for it, no ROUND-CHANGE is prepared later, and one names it. */
  ghost predicate ProvesKey(js: seq<Msg>, round: nat, key: PreparedKey, quorum: nat) {
    && HighestFirst(js, key)
    && |VotePlaces(js, Prepare, key.0, Some(key.1))| >= quorum
    && (forall i :: i in RoundChangePlaces(js, round) ==> js[i].preparedRound <= key.0)
    && exists i :: i in RoundChangePlaces(js, round)
                   && js[i].preparedRound == key.0 && js[i].preparedValueHash == key.1
  }

  ghost predicate ProvesValue(js: seq<Msg>, round: nat, h: Option<Hash>, quorum: nat) {
    exists key :: ProvesKey(js, round, key, quorum) && h == Some(key.1)
  }

  ghost predicate EnoughRoundChanges(js: seq<Msg>, round: nat, quorum: nat) {
    |RoundChangePlaces(js, round)| >= quorum
  }

  ghost predicate AllUnprepared(js: seq<Msg>, round: nat) {
    forall i :: i in RoundChangePlaces(js, round) ==> NothingPrepared(js[i])
  }

  ghost predicate NoPrepares(js: seq<Msg>) {
    forall i :: 0 <= i < |js| ==> !IsHashedPrepare(js[i])
  }

  lemma SelectedAt(js: seq<Msg>, round: nat, m: Msg)
    ensures m in Select(RoundChanges(round), js) <==> exists i :: i in RoundChangePlaces(js, round) && js[i] == m
  {
    SelectSound(RoundChanges(round), js);
    if m in js && IsRoundChangeOf(m, round) {
      var i :| 0 <= i < |js| && js[i] == m;
      assert i in RoundChangePlaces(js, round);
    }
  }

  /** What holds of the ROUND-CHANGEs selected holds at their places. */
  lemma SelectedPlaces(js: seq<Msg>, round: nat)
    ensures forall i :: i in RoundChangePlaces(js, round) ==> js[i] in Select(RoundChanges(round), js)
    ensures forall m :: m in Select(RoundChanges(round), js) ==>
                          exists i :: i in RoundChangePlaces(js, round) && js[i] == m
  {
    forall i | i in RoundChangePlaces(js, round)
      ensures js[i] in Select(RoundChanges(round), js)
    {
      SelectedAt(js, round, js[i]);
    }
    forall m | m in Select(RoundChanges(round), js)
      ensures exists i :: i in RoundChangePlaces(js, round) && js[i] == m
    {
      SelectedAt(js, round, m);
    }
  }

  predicate SomePreparedLater(qrc: seq<Msg>, key: PreparedKey) {
    exists rc :: rc in qrc && rc.preparedRound > 0 && rc.preparedRound > key.0
  }

  predicate SomeNames(qrc: seq<Msg>, key: PreparedKey) {
    exists rc :: rc in qrc && rc.preparedRound == key.0 && rc.preparedValueHash == key.1
  }

  /** The checks on the key chosen, as the function makes them on the selected messages. */
  predicate ChecksKey(qrc: seq<Msg>, key: PreparedKey, count: int, quorum: nat) {
    count >= quorum && !SomePreparedLater(qrc, key) && SomeNames(qrc, key)
  }

  lemma {:induction false} HighestInTally(tally: Dict<PreparedKey, nat>) returns (k: nat)
    requires tally != []
    ensures k < |tally| && tally[k].0 == HighestKey(tally)
    decreases |tally|
  {
    if |tally| == 1 || tally[|tally| - 1].0.0 > HighestKey(tally[..|tally| - 1]).0 {
      k := |tally| - 1;
    } else {
      k := HighestInTally(tally[..|tally| - 1]);
    }
  }

  lemma KeyCounted(tally: Dict<PreparedKey, nat>, js: seq<Msg>, key: PreparedKey)
    requires Tallied(tally, js) && tally != [] && key == HighestKey(tally)
    ensures Get<PreparedKey, nat>(tally, key, 0) == |VotePlaces(js, Prepare, key.0, Some(key.1))|
  {
    var k := HighestInTally(tally);
    assert EntryCounts(tally[k], js);
    GetAt(tally, k, 0);
  }

  lemma ChecksProveKey(js: seq<Msg>, round: nat, tally: Dict<PreparedKey, nat>, key: PreparedKey, quorum: nat)
    requires tally == TallyPrepares(js) && tally != [] && key == HighestKey(tally)
    ensures ChecksKey(Select(RoundChanges(round), js), key, Get<PreparedKey, nat>(tally, key, 0), quorum)
            <==> ProvesKey(js, round, key, quorum)
  {
    TallyCounts(js);
    TallyHighest(js);
    SelectedPlaces(js, round);
    KeyCounted(tally, js, key);
  }

  /** Only the key of the highest round can be proved. */
  lemma ProvedKeyIsHighest(js: seq<Msg>, round: nat, tally: Dict<PreparedKey, nat>, quorum: nat, h: Option<Hash>)
    requires tally == TallyPrepares(js)
    ensures ProvesValue(js, round, h, quorum)
            <==> tally != [] && ProvesKey(js, round, HighestKey(tally), quorum) && h == Some(HighestKey(tally).1)
  {
    TallyHighest(js);
    forall key | ProvesKey(js, round, key, quorum)
      ensures tally != [] && key == HighestKey(tally)
    {
      var k :| FirstOfRound(js, key, k);
      assert IsHashedPrepare(js[k]);
      HighestUnique(js, key, HighestKey(tally));
    }
  }

  /** The checks have passed that come before a maximum is taken, and there is one. */
  predicate TakesMaximum(cfg: Config, cm: ConsensusMsg, qrc: seq<Msg>, tally: Dict<PreparedKey, nat>)
    requires cfg.nodes > 0
  {
    && cm.msg.msgType == PrePrepare && cm.msg.round != 1
    && IsLeader(cfg.nodes, cfg.duty, cm.msg.round, cm.msg.peerIdx)
    && qrc == Select(RoundChanges(cm.msg.round), cm.justification) && |qrc| >= Quorum(cfg.nodes)
    && !(forall rc :: rc in qrc ==> Unprepared(rc))
    && tally == TallyPrepares(cm.justification) != []
  }

  /** A count looked up is the same integer at either type. */
  lemma {:induction false} CountAsInt(tally: Dict<PreparedKey, nat>, key: PreparedKey)
    ensures Get<PreparedKey, int>(tally, key, 0) == Get<PreparedKey, nat>(tally, key, 0)
    decreases |tally|
  {
    if tally != [] {
      CountAsInt(tally[1..], key);
    }
  }

  lemma TooFewAnswer(cfg: Config, cm: ConsensusMsg, qrc: seq<Msg>, tally: Dict<PreparedKey, nat>, key: PreparedKey)
    requires cfg.nodes > 0 && TakesMaximum(cfg, cm, qrc, tally) && key == HighestKey(tally)
    requires || Get<PreparedKey, int>(tally, key, 0) < Quorum(cfg.nodes)
             || SomePreparedLater(qrc, key) || !SomeNames(qrc, key)
    ensures IsJustifiedPrePrepare(cfg, cm) == Success(false)
  {
  }

  lemma EnoughAnswer(cfg: Config, cm: ConsensusMsg, qrc: seq<Msg>, tally: Dict<PreparedKey, nat>, key: PreparedKey)
    requires cfg.nodes > 0 && TakesMaximum(cfg, cm, qrc, tally) && key == HighestKey(tally)
    requires && Get<PreparedKey, int>(tally, key, 0) >= Quorum(cfg.nodes)
             && !SomePreparedLater(qrc, key) && SomeNames(qrc, key)
    ensures IsJustifiedPrePrepare(cfg, cm) == Success(Some(key.1) == cm.msg.valueHash)
  {
  }

  lemma KeyAnswer(cfg: Config, cm: ConsensusMsg, qrc: seq<Msg>, tally: Dict<PreparedKey, nat>, key: PreparedKey,
                  proved: bool)
    requires cfg.nodes > 0 && TakesMaximum(cfg, cm, qrc, tally) && key == HighestKey(tally)
    requires proved <==> && ChecksKey(qrc, key, Get<PreparedKey, nat>(tally, key, 0), Quorum(cfg.nodes))
                         && cm.msg.valueHash == Some(key.1)
    ensures IsJustifiedPrePrepare(cfg, cm) == Success(proved)
  {
    CountAsInt(tally, key);
    if ChecksKey(qrc, key, Get<PreparedKey, nat>(tally, key, 0), Quorum(cfg.nodes)) {
      EnoughAnswer(cfg, cm, qrc, tally, key);
    } else {
      TooFewAnswer(cfg, cm, qrc, tally, key);
    }
  }

  /** The answer when no maximum is taken. */
  lemma EarlyAnswer(cfg: Config, cm: ConsensusMsg, qrc: seq<Msg>, tally: Dict<PreparedKey, nat>)
    requires cfg.nodes > 0 && cm.msg.msgType == PrePrepare && cm.msg.round != 1
    requires qrc == Select(RoundChanges(cm.msg.round), cm.justification) && tally == TallyPrepares(cm.justification)
    requires || !IsLeader(cfg.nodes, cfg.duty, cm.msg.round, cm.msg.peerIdx) || |qrc| < Quorum(cfg.nodes)
             || (forall rc :: rc in qrc ==> Unprepared(rc)) || tally == []
    ensures IsJustifiedPrePrepare(cfg, cm)
            == if !IsLeader(cfg.nodes, cfg.duty, cm.msg.round, cm.msg.peerIdx) || |qrc| < Quorum(cfg.nodes)
               then Success(false)
               else if forall rc :: rc in qrc ==> Unprepared(rc) then Success(true)
               else Failure(MaxOfNothing)
  {
  }

  /** The conditions on the selected messages, by place. */
  lemma BySelecting(js: seq<Msg>, round: nat, h: Option<Hash>, quorum: nat, qrc: seq<Msg>,
                    tally: Dict<PreparedKey, nat>)
    requires qrc == Select(RoundChanges(round), js) && tally == TallyPrepares(js)
    ensures |qrc| >= quorum <==> EnoughRoundChanges(js, round, quorum)
    ensures (forall rc :: rc in qrc ==> Unprepared(rc)) <==> AllUnprepared(js, round)
    ensures tally == [] <==> NoPrepares(js)
    ensures ProvesValue(js, round, h, quorum)
            <==> && tally != []
                 && ChecksKey(qrc, HighestKey(tally), Get<PreparedKey, nat>(tally, HighestKey(tally), 0), quorum)
                 && h == Some(HighestKey(tally).1)
  {
    RoundChangesCount(js, round);
    SelectedPlaces(js, round);
    TallyHighest(js);
    ProvedKeyIsHighest(js, round, tally, quorum, h);
    if tally != [] {
      ChecksProveKey(js, round, tally, HighestKey(tally), quorum);
    }
  }

  lemma LaterAnswer(cfg: Config, cm: ConsensusMsg, js: seq<Msg>, round: nat, quorum: nat)
    requires cfg.nodes > 0 && cm.msg.msgType == PrePrepare && cm.msg.round == round != 1
    requires js == cm.justification && quorum == Quorum(cfg.nodes)
    requires IsLeader(cfg.nodes, cfg.duty, round, cm.msg.peerIdx) && EnoughRoundChanges(js, round, quorum)
    requires !AllUnprepared(js, round) && !NoPrepares(js)
    ensures IsJustifiedPrePrepare(cfg, cm) == Success(ProvesValue(js, round, cm.msg.valueHash, quorum))
  {
    var qrc, tally := Select(RoundChanges(round), js), TallyPrepares(js);
    BySelecting(js, round, cm.msg.valueHash, quorum, qrc, tally);
    KeyAnswer(cfg, cm, qrc, tally, HighestKey(tally), ProvesValue(js, round, cm.msg.valueHash, quorum));
  }

  lemma SoonerAnswer(cfg: Config, cm: ConsensusMsg, js: seq<Msg>, round: nat, quorum: nat)
    requires cfg.nodes > 0 && cm.msg.msgType == PrePrepare && cm.msg.round == round != 1
    requires js == cm.justification && quorum == Quorum(cfg.nodes)
    requires !IsLeader(cfg.nodes, cfg.duty, round, cm.msg.peerIdx) || !EnoughRoundChanges(js, round, quorum)
             || AllUnprepared(js, round) || NoPrepares(js)
    ensures IsJustifiedPrePrepare(cfg, cm)
            == if !IsLeader(cfg.nodes, cfg.duty, round, cm.msg.peerIdx) || !EnoughRoundChanges(js, round, quorum)
               then Success(false)
               else if AllUnprepared(js, round) then Success(true)
               else Failure(MaxOfNothing)
  {
    var qrc, tally := Select(RoundChanges(round), js), TallyPrepares(js);
    BySelecting(js, round, cm.msg.valueHash, quorum, qrc, tally);
    EarlyAnswer(cfg, cm, qrc, tally);
  }

  /** Exactly when a PRE-PREPARE of a later round is justified, whatever the message: its sender leads the
      round, and the justification holds a quorum of the round's ROUND-CHANGEs and proves that none
      of them is prepared or that its value was. Without a PREPARE to take a maximum of, the check raises. */
  lemma {:induction false} ProposalJustifiedIff(cfg: Config, cm: ConsensusMsg, js: seq<Msg>, round: nat, quorum: nat)
    requires cfg.nodes > 0 && cm.msg.msgType == PrePrepare && cm.msg.round == round != 1
    requires js == cm.justification && quorum == Quorum(cfg.nodes)
    ensures IsJustified(cfg, cm) == Success(true)
            <==> && IsLeader(cfg.nodes, cfg.duty, round, cm.msg.peerIdx)
                 && EnoughRoundChanges(js, round, quorum)
                 && (AllUnprepared(js, round) || ProvesValue(js, round, cm.msg.valueHash, quorum))
    ensures IsJustified(cfg, cm).Failure?
            <==> && IsLeader(cfg.nodes, cfg.duty, round, cm.msg.peerIdx)
                 && EnoughRoundChanges(js, round, quorum)
                 && !AllUnprepared(js, round) && NoPrepares(js)
  {
    if IsLeader(cfg.nodes, cfg.duty, round, cm.msg.peerIdx) && EnoughRoundChanges(js, round, quorum)
       && !AllUnprepared(js, round) && !NoPrepares(js) {
      LaterAnswer(cfg, cm, js, round, quorum);
    } else {
      SoonerAnswer(cfg, cm, js, round, quorum);
      BySelecting(js, round, cm.msg.valueHash, quorum, Select(RoundChanges(round), js), TallyPrepares(js));
    }
  }

  /** A PRE-PREPARE of round 1 is justified exactly when its sender leads the round. */
  lemma FirstProposalJustified(cfg: Config, cm: ConsensusMsg)
    requires cfg.nodes > 0 && cm.msg.msgType == PrePrepare && cm.msg.round == 1
    ensures IsJustified(cfg, cm) == Success(IsLeader(cfg.nodes, cfg.duty, 1, cm.msg.peerIdx))
  {
  }

  // ROUND-CHANGE and DECIDED

  /** A valid ROUND-CHANGE is justified exactly when it announces nothing prepared and brings nothing, or
      brings a quorum of PREPAREs for the round and hash it announces. */
  lemma {:induction false} RoundChangeJustifiedIff(cfg: Config, cm: ConsensusMsg)
    requires cfg.nodes > 0 && cm.msg.msgType == RoundChange && ValidConsensusMsg(cm)
    ensures var js, round, h := cm.justification, cm.msg.preparedRound, Some(cm.msg.preparedValueHash);
            IsJustified(cfg, cm)
            == Success(if round == 0 then js == [] else |VotePlaces(js, Prepare, round, h)| >= Quorum(cfg.nodes))
  {
    var js, round, h := cm.justification, cm.msg.preparedRound, Some(cm.msg.preparedValueHash);
    VotesCount(js, Prepare, round, h);
    if round == 0 {
      assert forall i :: 0 <= i < |js| ==> ValidMsg(js[i]);
      assert VotePlaces(js, Prepare, round, h) == {};
    }
  }

  lemma {:induction false} DecidedJustifiedIff(cfg: Config, cm: ConsensusMsg)
    requires cfg.nodes > 0 && cm.msg.msgType == Decided
    ensures IsJustified(cfg, cm)
            == Success(|VotePlaces(cm.justification, Commit, cm.msg.round, cm.msg.valueHash)| >= Quorum(cfg.nodes))
  {
    VotesCount(cm.justification, Commit, cm.msg.round, cm.msg.valueHash);
  }
}
