/** When each rule fires in an undecided node, in any state and on any message, and what it does. */
module QbftUpon {
  import opened SymbolicBytes
  import opened Wrappers
  import opened Dicts
  import opened QbftMessages
  import opened QbftRules
  import opened QbftLemmas
  import opened QbftNode
  import opened QbftJustification
  import opened QbftEvidence
  import opened QbftCompleteness

  ghost predicate Receives(cfg: Config, s: State, cm: ConsensusMsg, next: State) {
    ValidConfig(cfg) && cfg.numPeers > 0 && NodeInv(cfg, s) && ValidConsensusMsg(cm) && Buffers(cfg, s, cm, next)
  }

  // Messages that are not buffered

  /** A message over the limits changes nothing and is complained about; one for another duty, or one
      that is not justified, only leaves its values behind. */
  lemma NotBuffered(cfg: Config, s: State, cm: ConsensusMsg)
    requires cfg.nodes > 0 && s.qCommit == []
    ensures var step, stored := Handle(cfg, s, cm), s.(values := StoreValues(cfg, s.values, cm.values));
            && (VerifyMsgLimits(cm, cfg.nodes).Some? ==>
                  step == Step(s, Raised(VerifyMsgLimits(cm, cfg.nodes).value)))
            && (VerifyMsgLimits(cm, cfg.nodes).None? && cm.msg.duty != cfg.duty ==> step == Step(stored, Sent([])))
            && (VerifyMsgLimits(cm, cfg.nodes).None? && cm.msg.duty == cfg.duty
                && IsJustified(cfg, cm) != Success(true) ==>
                  step.state == stored
                  && step.outcome == if IsJustified(cfg, cm).Failure? then Raised(MaxOfNothing) else Sent([]))
  {
    JustificationError(cfg, cm);
  }

  // PRE-PREPARE

  ghost predicate SaysVote(sent: ConsensusMsg, t: MsgType, round: nat, h: Option<Hash>) {
    sent.msg.msgType == t && sent.msg.round == round && sent.msg.valueHash == h && sent.justification == []
  }

  lemma SaysIt(cfg: Config, values: map<Hash, Bytes>, t: MsgType, round: nat, h: Hash)
    requires ValidConfig(cfg) && cfg.numPeers > 0 && round >= 1 && |h.bytes| == 32 && (t == Prepare || t == Commit)
    ensures var sent := SentBy(BroadcastMessage(cfg, values, t, round, h, []));
            sent.Some? && SaysVote(sent.value, t, round, Some(h))
  {
    var unsigned := Unsigned(cfg, t, round, Some(h), None, None);
    BroadcastShape(cfg, unsigned, [], Known(values, Some(h)));
    assert ValidMsg(unsigned);
  }

  /** A justified PRE-PREPARE takes effect exactly when its round is not past and none has in the
      current round: the node enters its round and, if there is a hash, sends a PREPARE for it. */
  lemma {:induction false} ProposalTakesEffect(cfg: Config, s: State, cm: ConsensusMsg, next: State)
    requires Receives(cfg, s, cm, next) && cm.msg.msgType == PrePrepare
    ensures var step := Handle(cfg, s, cm);
            if cm.msg.round < s.round || (JustifiedPrePrepare, s.round) in s.dedup then step == Step(next, Sent([]))
            else
              && step.state.round == cm.msg.round && step.state.qCommit == [] && step.state.buffer == next.buffer
              && step.state.dedup
                 == (if cm.msg.round == s.round then s.dedup + {(JustifiedPrePrepare, s.round)} else {})
              && (SentBy(step.outcome).Some? <==> cm.msg.valueHash.Some?)
              && (SentBy(step.outcome).Some? ==>
                    SaysVote(SentBy(step.outcome).value, Prepare, cm.msg.round, cm.msg.valueHash))
  {
    if cm.msg.round < s.round || (JustifiedPrePrepare, s.round) in s.dedup {
      HandleBuffers(cfg, s, cm, next);
    } else {
      HandleFires(cfg, s, cm, next, JustifiedPrePrepare, []);
      if cm.msg.valueHash.Some? {
        SaysIt(cfg, next.values, Prepare, cm.msg.round, cm.msg.valueHash.value);
      }
    }
  }

  // PREPARE and COMMIT

  /** How many votes for the same the node holds once it has buffered this one. */
  function VotesWith(next: State, m: Msg): nat {
    |VotePlaces(Flatten(next.buffer), m.msgType, m.round, m.valueHash)|
  }

  lemma VoteAnswer(cfg: Config, cm: ConsensusMsg, next: State, rule: UponRule)
    requires cfg.nodes > 0
    requires || (cm.msg.msgType == Prepare && rule == QuorumPrepares)
             || (cm.msg.msgType == Commit && rule == QuorumCommits)
    ensures Classify(cfg, next, cm)
            == if cm.msg.round != next.round || VotesWith(next, cm.msg) < Quorum(cfg.nodes) then (Nothing, [])
               else (rule, Select(Votes(cm.msg.msgType, cm.msg.round, cm.msg.valueHash), Flatten(next.buffer)))
  {
    VotesCount(Flatten(next.buffer), cm.msg.msgType, cm.msg.round, cm.msg.valueHash);
  }

  /** A PREPARE takes effect exactly when it is of the current round, completes a quorum, and is the first
      to do so in the round: the node then prepares its hash and, if there is one, sends a COMMIT. */
  lemma {:induction false} PrepareTakesEffect(cfg: Config, s: State, cm: ConsensusMsg, next: State, votes: seq<Msg>)
    requires Receives(cfg, s, cm, next) && cm.msg.msgType == Prepare
    requires votes == Select(Votes(Prepare, cm.msg.round, cm.msg.valueHash), Flatten(next.buffer))
    ensures var step := Handle(cfg, s, cm);
            if cm.msg.round != s.round || VotesWith(next, cm.msg) < Quorum(cfg.nodes)
               || (QuorumPrepares, s.round) in s.dedup
            then step == Step(next, Sent([]))
            else
              && step.state == next.(dedup := s.dedup + {(QuorumPrepares, s.round)}, preparedRound := Some(s.round),
                                     preparedValueHash := cm.msg.valueHash, preparedJustification := votes)
              && (SentBy(step.outcome).Some? <==> cm.msg.valueHash.Some?)
              && (SentBy(step.outcome).Some? ==>
                    SaysVote(SentBy(step.outcome).value, Commit, s.round, cm.msg.valueHash))
  {
    VoteAnswer(cfg, cm, next, QuorumPrepares);
    if cm.msg.round != s.round || VotesWith(next, cm.msg) < Quorum(cfg.nodes)
       || (QuorumPrepares, s.round) in s.dedup {
      HandleBuffers(cfg, s, cm, next);
    } else {
      HandleFires(cfg, s, cm, next, QuorumPrepares, votes);
      if cm.msg.valueHash.Some? {
        SaysIt(cfg, next.values, Commit, cm.msg.round, cm.msg.valueHash.value);
      }
    }
  }

  /** A COMMIT decides exactly when it is of the current round and completes a quorum. */
  lemma {:induction false} CommitTakesEffect(cfg: Config, s: State, cm: ConsensusMsg, next: State, votes: seq<Msg>)
    requires Receives(cfg, s, cm, next) && cm.msg.msgType == Commit
    requires votes == Select(Votes(Commit, cm.msg.round, cm.msg.valueHash), Flatten(next.buffer))
    ensures Handle(cfg, s, cm)
            == Step(if cm.msg.round != s.round || VotesWith(next, cm.msg) < Quorum(cfg.nodes) then next
                    else next.(dedup := s.dedup + {(QuorumCommits, s.round)}, qCommit := votes),
                    Sent([]))
  {
    VoteAnswer(cfg, cm, next, QuorumCommits);
    if cm.msg.round != s.round || VotesWith(next, cm.msg) < Quorum(cfg.nodes) {
      HandleBuffers(cfg, s, cm, next);
    } else {
      assert (QuorumCommits, s.round) !in s.dedup;
      HandleFires(cfg, s, cm, next, QuorumCommits, votes);
    }
  }

  /** A justified DECIDED is adopted, whatever its round. */
  lemma {:induction false} DecidedTakesEffect(cfg: Config, s: State, cm: ConsensusMsg, next: State)
    requires Receives(cfg, s, cm, next) && cm.msg.msgType == Decided
    ensures var step := Handle(cfg, s, cm);
            step.state.qCommit == cm.justification && step.state.round == cm.msg.round && step.outcome == Sent([])
  {
    assert (JustifiedDecided, s.round) !in s.dedup;
    HandleFires(cfg, s, cm, next, JustifiedDecided, cm.justification);
  }

  // ROUND-CHANGE of the current round

  /** What the buffer must hold for a proposal. */
  ghost predicate CanPropose(ms: seq<Msg>, round: nat, quorum: nat) {
    |UnpreparedPlaces(ms, round)| >= quorum || SomeSupport(ms, round, quorum)
  }

  lemma {:induction false} CandidatesAreSome(qrc: seq<Msg>, key: PreparedKey)
    ensures |CollectCandidates(qrc, key).msgs| <= |qrc|
    decreases |qrc|
  {
    if qrc != [] {
      CandidatesAreSome(qrc[..|qrc| - 1], key);
    }
  }

  lemma SubsetCount(a: set<nat>, b: set<nat>)
    requires a <= b
    ensures |a| <= |b|
  {
    assert b == a + (b - a);
  }

  /** What suffices for a proposal includes a quorum of ROUND-CHANGEs. */
  lemma EnoughToPropose(ms: seq<Msg>, round: nat, quorum: nat)
    requires CanPropose(ms, round, quorum)
    ensures |Select(RoundChanges(round), ms)| >= quorum
  {
    RoundChangesCount(ms, round);
    if |UnpreparedPlaces(ms, round)| >= quorum {
      SubsetCount(UnpreparedPlaces(ms, round), RoundChangePlaces(ms, round));
    } else {
      var key :| Supports(ms, round, key, quorum);
      var qrc := Select(RoundChanges(round), ms);
      CandidatesSound(qrc, key);
      CandidatesExact(ms, round, key);
      DistinctPeersCount(CollectCandidates(qrc, key).msgs);
      CandidatesAreSome(qrc, key);
    }
  }

  lemma CurrentRoundAnswer(cfg: Config, next: State, msg: Msg, all: seq<Msg>, round: nat, quorum: nat)
    requires cfg.nodes > 0 && msg.msgType == RoundChange && msg.round == next.round == round
    requires all == Flatten(next.buffer) && quorum == Quorum(cfg.nodes)
    ensures var (rule, js) := ClassifyRoundChange(cfg, next, msg);
            if CanPropose(all, round, quorum) && IsLeader(cfg.nodes, cfg.duty, round, cfg.peer)
            then rule == QuorumRoundChanges && JustifyQuorum(all, round, quorum) == Some(js)
            else rule == Nothing || rule == UnjustQuorumRoundChanges
  {
    JustificationFoundIff(all, round, quorum);
    if CanPropose(all, round, quorum) {
      EnoughToPropose(all, round, quorum);
    }
  }

  /** The hash proposed: the node's own when a quorum has prepared nothing, or that of the key chosen. */
  ghost predicate IsProposed(cfg: Config, ms: seq<Msg>, round: nat, quorum: nat, h: Option<Hash>) {
    if |UnpreparedPlaces(ms, round)| >= quorum then h == Some(cfg.hashValue(cfg.proposal))
    else exists key :: IsChosen(ms, round, key, quorum) && h == Some(key.1)
  }

  lemma {:induction false} HashToPropose(cfg: Config, all: seq<Msg>, round: nat, quorum: nat, js: seq<Msg>)
    requires cfg.nodes > 0 && quorum == Quorum(cfg.nodes) && JustifyQuorum(all, round, quorum) == Some(js)
    ensures IsProposed(cfg, all, round, quorum, Some(ProposedHash(cfg, js)))
  {
    UnpreparedCount(all, round);
    if |UnpreparedPlaces(all, round)| >= quorum {
      ProposedHashOfShape(cfg, js, all, round, (0, ZERO_HASH), [], []);
    } else {
      var key, cands, prepares := JustificationChosen(all, round, quorum);
      ProposedHashOfShape(cfg, js, all, round, key, cands, prepares);
    }
  }

  lemma Proposes(cfg: Config, s: State, cm: ConsensusMsg, next: State, js: seq<Msg>, all: seq<Msg>)
    requires Receives(cfg, s, cm, next) && cm.msg.msgType == RoundChange && cm.msg.round == s.round
    requires all == Flatten(next.buffer) && JustifyQuorum(all, s.round, Quorum(cfg.nodes)) == Some(js)
    requires ClassifyRoundChange(cfg, next, cm.msg) == (QuorumRoundChanges, js)
    requires (QuorumRoundChanges, s.round) !in s.dedup
    ensures var sent := SentBy(Handle(cfg, s, cm).outcome);
            && sent.Some? && sent.value.msg.msgType == PrePrepare && sent.value.msg.round == s.round
            && sent.value.msg.valueHash == Some(ProposedHash(cfg, js)) && sent.value.justification == js
  {
    HandleFires(cfg, s, cm, next, QuorumRoundChanges, js);
    var h := ProposedHash(cfg, js);
    var unsigned := Unsigned(cfg, PrePrepare, s.round, Some(h), None, None);
    BroadcastShape(cfg, unsigned, js, Known(next.values, Some(h)));
    BufferedValid(cfg, s, cm);
    ProposedHashSource(cfg, all, s.round, js);
    assert ValidMsg(unsigned);
  }

  /** A ROUND-CHANGE of the current round makes the node propose exactly when it leads the round, has not
      proposed in it, and its buffer then suffices for a proposal. */
  lemma {:induction false} ProposesIff(cfg: Config, s: State, cm: ConsensusMsg, next: State, all: seq<Msg>, quorum: nat)
    requires Receives(cfg, s, cm, next) && cm.msg.msgType == RoundChange && cm.msg.round == s.round
    requires all == Flatten(next.buffer) && quorum == Quorum(cfg.nodes)
    ensures var sent := SentBy(Handle(cfg, s, cm).outcome);
            && (sent.Some? <==> && IsLeader(cfg.nodes, cfg.duty, s.round, cfg.peer)
                                && (QuorumRoundChanges, s.round) !in s.dedup
                                && CanPropose(all, s.round, quorum))
            && (sent.Some? ==>
                  && sent.value.msg.msgType == PrePrepare && sent.value.msg.round == s.round
                  && IsProposed(cfg, all, s.round, quorum, sent.value.msg.valueHash))
  {
    var (rule, js) := ClassifyRoundChange(cfg, next, cm.msg);
    CurrentRoundAnswer(cfg, next, cm.msg, all, s.round, quorum);
    if rule == Nothing || (rule, s.round) in s.dedup {
      HandleBuffers(cfg, s, cm, next);
    } else if rule == QuorumRoundChanges {
      Proposes(cfg, s, cm, next, js, all);
      HashToPropose(cfg, all, s.round, quorum, js);
    } else {
      HandleFires(cfg, s, cm, next, rule, js);
    }
  }

  /** So a leader whose buffer holds one ROUND-CHANGE each from a quorum of sources that have not prepared
      later than a key, one of them naming it, and PREPAREs for it from a quorum of sources, proposes;
      and proposes that key's hash when no other is prepared by a quorum. */
  lemma {:induction false} PreparedKeyIsProposed(cfg: Config, s: State, cm: ConsensusMsg, next: State, all: seq<Msg>,
                                                 quorum: nat, key: PreparedKey, named: nat)
    requires Receives(cfg, s, cm, next) && cm.msg.msgType == RoundChange && cm.msg.round == s.round
    requires all == Flatten(next.buffer) && quorum == Quorum(cfg.nodes)
    requires IsLeader(cfg.nodes, cfg.duty, s.round, cfg.peer) && (QuorumRoundChanges, s.round) !in s.dedup
    requires forall i, j :: 0 <= i < j < |all| && IsRoundChangeOf(all[i], s.round) && IsRoundChangeOf(all[j], s.round)
               ==> all[i].peerIdx != all[j].peerIdx
    requires |EligibleSources(all, s.round, key)| >= quorum && |PrepareSources(all, key)| >= quorum
    requires named < |all| && IsEligible(all[named], s.round, key) && NamesKey(all[named], key)
    ensures var sent := SentBy(Handle(cfg, s, cm).outcome);
            && sent.Some? && sent.value.msg.msgType == PrePrepare
            && (|UnpreparedPlaces(all, s.round)| < quorum
                && (forall other :: other != key ==> |PrepareSources(all, other)| < quorum) ==>
                  sent.value.msg.valueHash == Some(key.1))
  {
    assert NamesFirst(all, s.round, key, named);
    assert Supports(all, s.round, key, quorum);
    ProposesIff(cfg, s, cm, next, all, quorum);
  }

  // ROUND-CHANGE of a later round

  predicate IsFuture(m: Msg, round: nat) {
    m.msgType == RoundChange && m.round > round
  }

  /** The sources that have announced a later round. */
  function FutureSources(ms: seq<Msg>, round: nat): set<nat> {
    set i | 0 <= i < |ms| && IsFuture(ms[i], round) :: ms[i].peerIdx
  }

  /** `r` is the latest round that the source announces. */
  ghost predicate IsLatest(ms: seq<Msg>, round: nat, source: nat, r: nat) {
    && (exists i :: 0 <= i < |ms| && IsFuture(ms[i], round) && ms[i].peerIdx == source && ms[i].round == r)
    && forall i :: 0 <= i < |ms| && IsFuture(ms[i], round) && ms[i].peerIdx == source ==> ms[i].round <= r
  }

  /** The scan stops after `n` messages: at the end, or as soon as it knows `limit` sources. */
  ghost predicate StopsAt(ms: seq<Msg>, round: nat, limit: nat, n: nat) {
    && n <= |ms|
    && (n < |ms| ==> |FutureSources(ms[..n], round)| == limit)
    && forall m :: 0 <= m < n ==> |FutureSources(ms[..m], round)| < limit
  }

  lemma {:induction false} FutureOneMore(ms: seq<Msg>, m: Msg, round: nat)
    ensures FutureSources(ms + [m], round)
            == FutureSources(ms, round) + if IsFuture(m, round) then {m.peerIdx} else {}
  {
    var all := ms + [m];
    forall x | x in FutureSources(ms, round)
      ensures x in FutureSources(all, round)
    {
      var i :| 0 <= i < |ms| && IsFuture(ms[i], round) && ms[i].peerIdx == x;
      assert all[i] == ms[i];
    }
    if IsFuture(m, round) {
      assert all[|ms|] == m;
    }
  }

  ghost predicate HoldsLatest(e: (nat, Msg), ms: seq<Msg>, round: nat) {
    IsFuture(e.1, round) && e.1.peerIdx == e.0 && IsLatest(ms, round, e.0, e.1.round)
  }

  /** One latest ROUND-CHANGE for each source. */
  ghost predicate AllLatest(h: Dict<nat, Msg>, ms: seq<Msg>, round: nat) {
    && Unique(h) && KeySet(h) == FutureSources(ms, round)
    && forall i :: 0 <= i < |h| ==> HoldsLatest(h[i], ms, round)
  }

  lemma {:induction false} LatestStays(e: (nat, Msg), ms: seq<Msg>, m: Msg, round: nat)
    requires HoldsLatest(e, ms, round)
    requires IsFuture(m, round) && m.peerIdx == e.0 ==> m.round <= e.1.round
    ensures HoldsLatest(e, ms + [m], round)
  {
    var i :| 0 <= i < |ms| && IsFuture(ms[i], round) && ms[i].peerIdx == e.0 && ms[i].round == e.1.round;
    assert (ms + [m])[i] == ms[i];
  }

  lemma {:induction false} LatestIsNew(ms: seq<Msg>, m: Msg, round: nat)
    requires IsFuture(m, round)
    requires forall i :: 0 <= i < |ms| && IsFuture(ms[i], round) && ms[i].peerIdx == m.peerIdx ==>
                           ms[i].round <= m.round
    ensures HoldsLatest((m.peerIdx, m), ms + [m], round)
  {
    assert (ms + [m])[|ms|] == m;
  }

  lemma {:induction false} NotYetAnnounced(h: Dict<nat, Msg>, ms: seq<Msg>, round: nat, source: nat)
    requires AllLatest(h, ms, round) && !Has(h, source)
    ensures forall i :: 0 <= i < |ms| && IsFuture(ms[i], round) ==> ms[i].peerIdx != source
  {
    forall i | 0 <= i < |ms| && IsFuture(ms[i], round)
      ensures ms[i].peerIdx != source
    {
      assert ms[i].peerIdx in KeySet(h);
    }
  }

  /** A message that is not the latest of its source. */
  lemma {:induction false} ScanOther(h: Dict<nat, Msg>, ms: seq<Msg>, m: Msg, round: nat)
    requires AllLatest(h, ms, round)
    requires forall i :: 0 <= i < |h| && IsFuture(m, round) && h[i].0 == m.peerIdx ==> m.round <= h[i].1.round
    requires IsFuture(m, round) ==> Has(h, m.peerIdx)
    ensures AllLatest(h, ms + [m], round)
  {
    FutureOneMore(ms, m, round);
    assert IsFuture(m, round) ==> m.peerIdx in KeySet(h);
    forall i | 0 <= i < |h|
      ensures HoldsLatest(h[i], ms + [m], round)
    {
      LatestStays(h[i], ms, m, round);
    }
  }

  lemma {:induction false} ScanLatest(h: Dict<nat, Msg>, ms: seq<Msg>, m: Msg, round: nat, j: nat)
    requires AllLatest(h, ms, round) && IsFuture(m, round)
    requires j < |h| && h[j].0 == m.peerIdx && h[j].1.round <= m.round
    ensures AllLatest(Put(h, m.peerIdx, m), ms + [m], round)
  {
    FutureOneMore(ms, m, round);
    KeySetPut(h, m.peerIdx, m);
    PutAt(h, m.peerIdx, m);
    assert HoldsLatest(h[j], ms, round);
    LatestIsNew(ms, m, round);
    forall i | 0 <= i < |h| && i != j
      ensures HoldsLatest(h[i], ms + [m], round)
    {
      LatestStays(h[i], ms, m, round);
    }
  }

  lemma {:induction false} ScanNew(h: Dict<nat, Msg>, ms: seq<Msg>, m: Msg, round: nat)
    requires AllLatest(h, ms, round) && IsFuture(m, round) && !Has(h, m.peerIdx)
    ensures AllLatest(Put(h, m.peerIdx, m), ms + [m], round)
  {
    FutureOneMore(ms, m, round);
    KeySetPut(h, m.peerIdx, m);
    PutAt(h, m.peerIdx, m);
    NotYetAnnounced(h, ms, round, m.peerIdx);
    LatestIsNew(ms, m, round);
    forall i | 0 <= i < |h|
      ensures HoldsLatest(h[i], ms + [m], round)
    {
      assert h[i].0 != m.peerIdx;
      LatestStays(h[i], ms, m, round);
    }
  }

  /** What the scan does with one message more. */
  lemma {:induction false} ScanOne(h: Dict<nat, Msg>, ms: seq<Msg>, m: Msg, round: nat)
    requires AllLatest(h, ms, round)
    ensures !IsFuture(m, round) ==> AllLatest(h, ms + [m], round)
    ensures IsFuture(m, round) && Has(h, m.peerIdx) && Get(h, m.peerIdx, m).round > m.round ==>
              AllLatest(h, ms + [m], round)
    ensures IsFuture(m, round) && !(Has(h, m.peerIdx) && Get(h, m.peerIdx, m).round > m.round) ==>
              AllLatest(Put(h, m.peerIdx, m), ms + [m], round)
  {
    FutureOneMore(ms, m, round);
    if !IsFuture(m, round) {
      ScanOther(h, ms, m, round);
    } else if Has(h, m.peerIdx) {
      var j :| 0 <= j < |h| && h[j].0 == m.peerIdx;
      GetAt(h, j, m);
      if h[j].1.round > m.round {
        ScanOther(h, ms, m, round);
      } else {
        ScanLatest(h, ms, m, round, j);
      }
    } else {
      ScanNew(h, ms, m, round);
    }
  }

  lemma {:induction false} ScanMore(ms: seq<Msg>, m: Msg, round: nat, limit: nat, h: Dict<nat, Msg>)
    requires h == HighestBySource(ms, round, limit) && AllLatest(h, ms, round) && |h| < limit
    ensures AllLatest(HighestBySource(ms + [m], round, limit), ms + [m], round)
    ensures |HighestBySource(ms + [m], round, limit)| <= |h| + 1
  {
    assert (ms + [m])[..|ms|] == ms;
    ScanOne(h, ms, m, round);
    PutAt(h, m.peerIdx, m);
  }

  lemma {:induction false} StopsLater(ms: seq<Msg>, m: Msg, round: nat, limit: nat)
    requires StopsAt(ms, round, limit, |ms|) && |FutureSources(ms, round)| < limit
    ensures StopsAt(ms + [m], round, limit, |ms| + 1)
  {
    assert ms[..|ms|] == ms;
    forall k | 0 <= k < |ms| + 1
      ensures |FutureSources((ms + [m])[..k], round)| < limit
    {
      assert (ms + [m])[..k] == ms[..k];
    }
  }

  lemma {:induction false} StillStops(ms: seq<Msg>, m: Msg, round: nat, limit: nat, n: nat)
    requires StopsAt(ms, round, limit, n) && |FutureSources(ms[..n], round)| == limit
    ensures StopsAt(ms + [m], round, limit, n) && (ms + [m])[..n] == ms[..n]
  {
    assert (ms + [m])[..n] == ms[..n];
    forall k | 0 <= k < n
      ensures |FutureSources((ms + [m])[..k], round)| < limit
    {
      assert (ms + [m])[..k] == ms[..k];
    }
  }

  /** What the scan has found once it stops. */
  lemma {:induction false} ScanFinds(ms: seq<Msg>, round: nat, limit: nat) returns (n: nat)
    requires limit > 0
    ensures StopsAt(ms, round, limit, n) && AllLatest(HighestBySource(ms, round, limit), ms[..n], round)
    ensures |HighestBySource(ms, round, limit)| == |FutureSources(ms[..n], round)| <= limit
    decreases |ms|
  {
    if ms == [] {
      n := 0;
      assert FutureSources(ms, round) == {};
    } else {
      var init, m := ms[..|ms| - 1], ms[|ms| - 1];
      assert ms == init + [m];
      n := ScanFinds(init, round, limit);
      var h := HighestBySource(init, round, limit);
      if |h| == limit {
        StillStops(init, m, round, limit, n);
      } else {
        assert init[..n] == init;
        ScanMore(init, m, round, limit, h);
        StopsLater(init, m, round, limit);
        n := |ms|;
        assert ms[..n] == ms;
        KeySetCounts(HighestBySource(ms, round, limit));
      }
    }
  }

  ghost predicate ReachesRound(ms: seq<Msg>, round: nat, source: nat, r: nat) {
    exists i :: 0 <= i < |ms| && IsFuture(ms[i], round) && ms[i].peerIdx == source && ms[i].round >= r
  }

  /** The round to enter: every source has announced it or a later one, and some source none later. */
  ghost predicate IsRoundToEnter(ms: seq<Msg>, round: nat, r: nat) {
    && (forall source :: source in FutureSources(ms, round) ==> ReachesRound(ms, round, source, r))
    && exists source :: IsLatest(ms, round, source, r)
  }

  lemma {:induction false} SmallestLatest(h: Dict<nat, Msg>, ms: seq<Msg>, round: nat, frc: seq<Msg>)
    requires h != [] && AllLatest(h, ms, round) && frc == Values(h)
    ensures MinFutureRound(frc, round).Success?
    ensures IsRoundToEnter(ms, round, MinFutureRound(frc, round).value)
  {
    forall m | m in frc
      ensures m.msgType == RoundChange && m.round > round
    {
      var i :| 0 <= i < |frc| && frc[i] == m;
      assert HoldsLatest(h[i], ms, round);
    }
    MinFutureRoundFuture(frc, round);
    var r := MinFutureRound(frc, round).value;
    forall source | source in FutureSources(ms, round)
      ensures ReachesRound(ms, round, source, r)
    {
      assert source in KeySet(h);
      var i :| 0 <= i < |h| && h[i].0 == source;
      assert HoldsLatest(h[i], ms, round) && frc[i] in frc;
    }
    var least :| least in frc && least.round == r;
    var k :| 0 <= k < |frc| && frc[k] == least;
    assert HoldsLatest(h[k], ms, round);
  }

  /** The node's round and prepared state, as it announces them. */
  ghost predicate AnnouncesState(sent: ConsensusMsg, s: State, round: nat) {
    && sent.msg.msgType == RoundChange && sent.msg.round == round && sent.msg.valueHash == None
    && sent.msg.preparedRound == (if s.preparedRound.Some? then s.preparedRound.value else 0)
    && sent.msg.preparedValueHash == (if s.preparedValueHash.Some? then s.preparedValueHash.value else ZERO_HASH)
    && sent.justification == s.preparedJustification
  }

  /** A prepared state that no valid message can announce: without a hash, or with the zero hash. */
  predicate Unannounceable(s: State) {
    s.preparedRound.Some? && (s.preparedValueHash == None || s.preparedValueHash == Some(ZERO_HASH))
  }

  lemma {:induction false} AnnouncesIt(cfg: Config, s: State, t: State)
    requires ValidConfig(cfg) && cfg.numPeers > 0 && NodeInv(cfg, s) && s.qCommit == []
    requires t.preparedRound == s.preparedRound && t.preparedValueHash == s.preparedValueHash
    requires t.preparedJustification == s.preparedJustification && t.round > s.round
    ensures var outcome := Announce(cfg, t);
            if Unannounceable(s) then outcome == Raised(InvalidMessage)
            else SentBy(outcome).Some? && AnnouncesState(SentBy(outcome).value, s, t.round)
  {
    if s.preparedRound.Some? {
      assert s.preparedJustification[0] in s.preparedJustification;
    }
    var unsigned := Unsigned(cfg, RoundChange, t.round, None, t.preparedRound, t.preparedValueHash);
    BroadcastShape(cfg, unsigned, t.preparedJustification, Known(t.values, t.preparedValueHash));
  }

  /** A round timeout always enters the next round, and announces it. */
  lemma {:induction false} TimeoutTakesEffect(cfg: Config, s: State)
    requires ValidConfig(cfg) && cfg.numPeers > 0 && NodeInv(cfg, s) && s.qCommit == []
    ensures var step := Timeout(cfg, s);
            && step.state == s.(round := s.round + 1, dedup := {})
            && if Unannounceable(s) then step.outcome == Raised(InvalidMessage)
               else SentBy(step.outcome).Some? && AnnouncesState(SentBy(step.outcome).value, s, s.round + 1)
  {
    AnnouncesIt(cfg, s, s.(round := s.round + 1, dedup := {}));
  }

  lemma LaterRoundClassified(cfg: Config, next: State, msg: Msg, all: seq<Msg>, limit: nat, h: Dict<nat, Msg>)
    requires cfg.nodes > 0 && msg.msgType == RoundChange && msg.round > next.round
    requires all == Flatten(next.buffer) && limit == Faulty(cfg.nodes) + 1
    requires h == HighestBySource(all, next.round, limit)
    ensures ClassifyRoundChange(cfg, next, msg) == if |h| < limit then (Nothing, []) else (FPlus1RoundChanges, Values(h))
  {
  }

  lemma {:induction false} LaterRoundAnswer(cfg: Config, next: State, msg: Msg, all: seq<Msg>, limit: nat)
      returns (n: nat)
    requires cfg.nodes > 0 && msg.msgType == RoundChange && msg.round > next.round
    requires all == Flatten(next.buffer) && limit == Faulty(cfg.nodes) + 1
    ensures StopsAt(all, next.round, limit, n)
    ensures var (rule, frc) := ClassifyRoundChange(cfg, next, msg);
            if |FutureSources(all[..n], next.round)| < limit then rule == Nothing
            else
              && rule == FPlus1RoundChanges && |frc| == limit && MinFutureRound(frc, next.round).Success?
              && IsRoundToEnter(all[..n], next.round, MinFutureRound(frc, next.round).value)
  {
    n := ScanFinds(all, next.round, limit);
    var h := HighestBySource(all, next.round, limit);
    LaterRoundClassified(cfg, next, msg, all, limit, h);
    if |h| == limit {
      SmallestLatest(h, all[..n], next.round, Values(h));
    }
  }

  lemma {:induction false} SourcesGrow(ms: seq<Msg>, round: nat, n: nat)
    requires n <= |ms|
    ensures FutureSources(ms[..n], round) <= FutureSources(ms, round)
  {
    forall x | x in FutureSources(ms[..n], round)
      ensures x in FutureSources(ms, round)
    {
      var i :| 0 <= i < n && IsFuture(ms[..n][i], round) && ms[..n][i].peerIdx == x;
      assert ms[i] == ms[..n][i];
    }
  }

  /** The scan ends with enough sources exactly when there are enough. */
  lemma {:induction false} StopsWithEnough(ms: seq<Msg>, round: nat, limit: nat, n: nat)
    requires StopsAt(ms, round, limit, n)
    ensures |FutureSources(ms[..n], round)| >= limit <==> |FutureSources(ms, round)| >= limit
  {
    SourcesGrow(ms, round, n);
    SubsetCount(FutureSources(ms[..n], round), FutureSources(ms, round));
    if n == |ms| {
      assert ms[..n] == ms;
    }
  }

  lemma EntersLater(ms: seq<Msg>, round: nat, r: nat)
    requires IsRoundToEnter(ms, round, r)
    ensures r > round
  {
    var source :| IsLatest(ms, round, source, r);
  }

  lemma {:induction false} MovesOn(cfg: Config, s: State, cm: ConsensusMsg, next: State, read: seq<Msg>, frc: seq<Msg>)
    requires Receives(cfg, s, cm, next) && cm.msg.msgType == RoundChange
    requires ClassifyRoundChange(cfg, next, cm.msg) == (FPlus1RoundChanges, frc)
    requires (FPlus1RoundChanges, s.round) !in s.dedup
    requires |frc| == Faulty(cfg.nodes) + 1 && MinFutureRound(frc, s.round).Success?
    requires IsRoundToEnter(read, s.round, MinFutureRound(frc, s.round).value)
    ensures var step, r := Handle(cfg, s, cm), MinFutureRound(frc, s.round).value;
            && step.state == next.(round := r, dedup := {})
            && if Unannounceable(s) then step.outcome == Raised(InvalidMessage)
               else SentBy(step.outcome).Some? && AnnouncesState(SentBy(step.outcome).value, s, r)
  {
    var r := MinFutureRound(frc, s.round).value;
    HandleFires(cfg, s, cm, next, FPlus1RoundChanges, frc);
    EntersLater(read, s.round, r);
    AnnouncesIt(cfg, s, next.(round := r, dedup := {}));
  }

  /** A ROUND-CHANGE of a later round moves the node exactly when more sources than can be faulty have
      announced later rounds. It enters the smallest of the latest rounds that these announce, as far
      as the buffer is read before it holds enough of them, and announces that round. */
  lemma {:induction false} MovesIff(cfg: Config, s: State, cm: ConsensusMsg, next: State, all: seq<Msg>, limit: nat)
      returns (n: nat)
    requires Receives(cfg, s, cm, next) && cm.msg.msgType == RoundChange && cm.msg.round > s.round
    requires all == Flatten(next.buffer) && limit == Faulty(cfg.nodes) + 1
    ensures StopsAt(all, s.round, limit, n)
    ensures var step := Handle(cfg, s, cm);
            if |FutureSources(all, s.round)| < limit || (FPlus1RoundChanges, s.round) in s.dedup
            then step == Step(next, Sent([]))
            else
              && step.state == next.(round := step.state.round, dedup := {})
              && IsRoundToEnter(all[..n], s.round, step.state.round)
              && if Unannounceable(s) then step.outcome == Raised(InvalidMessage)
                 else SentBy(step.outcome).Some? && AnnouncesState(SentBy(step.outcome).value, s, step.state.round)
  {
    n := LaterRoundAnswer(cfg, next, cm.msg, all, limit);
    StopsWithEnough(all, s.round, limit, n);
    var (rule, frc) := ClassifyRoundChange(cfg, next, cm.msg);
    if rule == Nothing || (rule, s.round) in s.dedup {
      HandleBuffers(cfg, s, cm, next);
    } else {
      MovesOn(cfg, s, cm, next, all[..n], frc);
    }
  }

  /** One of a past round is only kept. */
  lemma {:induction false} PastRoundIsKept(cfg: Config, s: State, cm: ConsensusMsg, next: State)
    requires Receives(cfg, s, cm, next) && cm.msg.msgType == RoundChange && cm.msg.round < s.round
    ensures Handle(cfg, s, cm) == Step(next, Sent([]))
  {
    HandleBuffers(cfg, s, cm, next);
  }
}
