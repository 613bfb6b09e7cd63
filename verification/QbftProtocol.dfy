/** One QBFT instance for one duty, updated in place by the messages it handles. */
module QbftProtocol {
  import opened SymbolicBytes
  import opened Wrappers
  import opened Dicts
  import opened QbftMessages
  import opened QbftRules
  import opened QbftTransport

  lemma PutTwice<K, V>(d: Dict<K, V>, k: K, u: V, v: V)
    requires !Has(d, k)
    ensures Put(Put(d, k, u), k, v) == Put(d, k, v)
    ensures Get(Put(d, k, u), k, v) == u && Get(d, k, v) == v
    ensures Get(d, k, u) == u && Get(Put(d, k, u), k, u) == u
  {
    if d != [] {
      assert d[0].0 != k;
      assert !Has(d[1..], k) by {
        assert forall i :: 0 <= i < |d[1..]| ==> d[1..][i] == d[i + 1];
      }
      PutTwice(d[1..], k, u, v);
      assert ([d[0]] + Put(d[1..], k, u))[1..] == Put(d[1..], k, u);
    }
  }

  /** Once the limit is reached the rest of the scan changes nothing. */
  lemma {:induction false} StoppedScan(all: seq<Msg>, i: nat, round: nat, limit: int)
    requires i <= |all| && |HighestBySource(all[..i], round, limit)| == limit
    ensures HighestBySource(all, round, limit) == HighestBySource(all[..i], round, limit)
    decreases |all|
  {
    if i < |all| {
      var init := all[..|all| - 1];
      assert init[..i] == all[..i];
      StoppedScan(init, i, round, limit);
    } else {
      assert all[..i] == all;
    }
  }

  lemma {:induction false} SupportStays(sets: PrepareSets, i: nat, qrc: seq<Msg>, quorum: nat)
    requires i <= |sets| && FirstSupport(sets[..i], qrc, quorum).Some?
    ensures FirstSupport(sets, qrc, quorum) == FirstSupport(sets[..i], qrc, quorum)
    decreases |sets|
  {
    if i < |sets| {
      var init := sets[..|sets| - 1];
      assert init[..i] == sets[..i];
      SupportStays(init, i, qrc, quorum);
    } else {
      assert sets[..i] == sets;
    }
  }

  lemma {:induction false} FailureStays(frc: seq<Msg>, i: nat, round: nat)
    requires 0 < i <= |frc| && MinFutureRound(frc[..i], round).Failure?
    ensures MinFutureRound(frc, round) == MinFutureRound(frc[..i], round)
    decreases |frc|
  {
    if i < |frc| {
      var init := frc[..|frc| - 1];
      assert init[..i] == frc[..i];
      FailureStays(init, i, round);
    } else {
      assert frc[..i] == frc;
    }
  }

  class QbftConsensus {
    const cfg: Config
    const t: Transport

    var round: nat
    var preparedRound: Option<nat>
    var preparedValueHash: Option<Hash>
    var preparedJustification: seq<Msg>
    var qCommit: seq<Msg>
    var buffer: Buffer
    var dedupRules: set<(UponRule, nat)>
    var decidedResends: map<nat, (nat, nat)>

    ghost predicate Valid() {
      t.cfg == cfg && cfg.nodes > 0
    }

    ghost function Snapshot(): State
      reads this, t
    {
      State(round, preparedRound, preparedValueHash, preparedJustification, qCommit, buffer, dedupRules,
            decidedResends, t.values)
    }

    constructor (cfg: Config, t: Transport)
      requires t.cfg == cfg && cfg.nodes > 0
      modifies t
      ensures Valid() && this.cfg == cfg && this.t == t
      ensures old(t.values) == map[] ==> Snapshot() == InitialState(cfg)
    {
      this.cfg := cfg;
      this.t := t;
      round := 1;
      preparedRound, preparedValueHash, preparedJustification := None, None, [];
      qCommit, buffer, dedupRules, decidedResends := [], [], {}, map[];
      new;
      t.SetValues(map[cfg.hashValue(cfg.proposal) := cfg.proposal]);
    }

    method BufferMessage(cm: ConsensusMsg)
      modifies this`buffer
      ensures buffer == QbftRules.BufferMessage(old(buffer), cm)
    {
      if !Has(buffer, cm.msg.peerIdx) {
        PutTwice(buffer, cm.msg.peerIdx, [], [cm]);
        assert [] + [cm] == [cm];
        buffer := Put(buffer, cm.msg.peerIdx, []);
      }
      buffer := Put(buffer, cm.msg.peerIdx, Get(buffer, cm.msg.peerIdx, []) + [cm]);
    }

    method Flatten() returns (all: seq<Msg>)
      ensures all == QbftRules.Flatten(buffer)
    {
      all := [];
      for p := 0 to |buffer|
        invariant all == QbftRules.Flatten(buffer[..p])
      {
        ghost var before := all;
        var msgs := buffer[p].1;
        for m := 0 to |msgs|
          invariant all == before + FlattenMsgs(msgs[..m])
        {
          all := all + [msgs[m].msg];
          ghost var own := all;
          var js := msgs[m].justification;
          for j := 0 to |js|
            invariant all == own + js[..j]
          {
            all := all + [js[j]];
          }
          assert msgs[..m + 1][..m] == msgs[..m];
        }
        assert msgs[..|msgs|] == msgs;
        assert buffer[..p + 1][..p] == buffer[..p];
      }
      assert buffer[..|buffer|] == buffer;
    }

    method CountPrepares(ms: seq<Msg>) returns (tally: Dict<PreparedKey, nat>)
      ensures tally == TallyPrepares(ms)
    {
      tally := [];
      for i := 0 to |ms|
        invariant tally == TallyPrepares(ms[..i])
      {
        if ms[i].msgType == Prepare && ms[i].valueHash.Some? {
          var key := (ms[i].round, ms[i].valueHash.value);
          tally := Put(tally, key, Get(tally, key, 0) + 1);
        }
        assert ms[..i + 1][..i] == ms[..i];
      }
      assert ms[..|ms|] == ms;
    }

    method IsJustifiedPrePrepare(cm: ConsensusMsg) returns (r: Result<bool, Error>)
      requires Valid()
      ensures r == QbftRules.IsJustifiedPrePrepare(cfg, cm)
    {
      var msg := cm.msg;
      if msg.msgType != PrePrepare || !IsLeader(cfg.nodes, cfg.duty, msg.round, msg.peerIdx) {
        return Success(false);
      }
      if msg.round == 1 {
        return Success(true);
      }
      var qrc := Select(RoundChanges(msg.round), cm.justification);
      if |qrc| < Quorum(cfg.nodes) {
        return Success(false);
      }
      if forall rc :: rc in qrc ==> Unprepared(rc) {
        return Success(true);
      }
      var tally := CountPrepares(cm.justification);
      if tally == [] {
        return Failure(MaxOfNothing);
      }
      var key := HighestKey(tally);
      if Get(tally, key, 0) < Quorum(cfg.nodes) {
        return Success(false);
      }
      if exists rc :: rc in qrc && rc.preparedRound > 0 && rc.preparedRound > key.0 {
        return Success(false);
      }
      if !exists rc :: rc in qrc && rc.preparedRound == key.0 && rc.preparedValueHash == key.1 {
        return Success(false);
      }
      return Success(Some(key.1) == msg.valueHash);
    }

    method IsJustified(cm: ConsensusMsg) returns (r: Result<bool, Error>)
      requires Valid()
      ensures r == QbftRules.IsJustified(cfg, cm)
    {
      match cm.msg.msgType
      case PrePrepare => r := IsJustifiedPrePrepare(cm);
      case Prepare => r := Success(true);
      case Commit => r := Success(true);
      case RoundChange => r := Success(IsJustifiedRoundChange(cfg, cm));
      case Decided => r := Success(IsJustifiedDecided(cfg, cm));
    }

    /** The latest future ROUND-CHANGE of each source; the scan stops at `limit` sources. */
    method FindHighest(all: seq<Msg>, limit: int) returns (highest: Dict<nat, Msg>)
      requires limit > 0
      ensures highest == HighestBySource(all, round, limit)
    {
      highest := [];
      for i := 0 to |all|
        invariant highest == HighestBySource(all[..i], round, limit)
        invariant |highest| != limit
      {
        assert all[..i + 1][..i] == all[..i];
        var m := all[i];
        if m.msgType != RoundChange || m.round <= round {
          continue;
        }
        if Has(highest, m.peerIdx) && Get(highest, m.peerIdx, m).round > m.round {
          continue;
        }
        highest := Put(highest, m.peerIdx, m);
        if |highest| == limit {
          StoppedScan(all, i + 1, round, limit);
          return;
        }
      }
      assert all[..|all|] == all;
    }

    method CollectPrepareSets(all: seq<Msg>) returns (sets: PrepareSets)
      ensures sets == GroupPrepares(all)
    {
      sets := [];
      for i := 0 to |all|
        invariant sets == GroupPrepares(all[..i])
      {
        assert all[..i + 1][..i] == all[..i];
        var m := all[i];
        if m.msgType == Prepare && m.valueHash.Some? {
          var key := (m.round, m.valueHash.value);
          ghost var before := sets;
          if !Has(sets, key) {
            PutTwice(sets, key, [], Put([], m.peerIdx, m));
            sets := Put(sets, key, []);
          }
          sets := Put(sets, key, Put(Get(sets, key, []), m.peerIdx, m));
          assert sets == Put(before, key, Put(Get(before, key, []), m.peerIdx, m));
        }
      }
      assert all[..|all|] == all;
    }

    method FindSupport(sets: PrepareSets, qrc: seq<Msg>) returns (support: Option<seq<Msg>>)
      ensures support == FirstSupport(sets, qrc, Quorum(cfg.nodes))
    {
      for s := 0 to |sets|
        invariant FirstSupport(sets[..s], qrc, Quorum(cfg.nodes)) == None
      {
        assert sets[..s + 1][..s] == sets[..s];
        var group := sets[s].1;
        if |group| < Quorum(cfg.nodes) {
          continue;
        }
        var key := sets[s].0;
        var candidates: seq<Msg>, used: set<nat>, hasHighest := [], {}, false;
        for i := 0 to |qrc|
          invariant Candidates(candidates, used, hasHighest) == CollectCandidates(qrc[..i], key)
        {
          assert qrc[..i + 1][..i] == qrc[..i];
          var rc := qrc[i];
          if (rc.preparedRound > 0 && rc.preparedRound > key.0) || rc.peerIdx in used {
            continue;
          }
          if rc.preparedRound == key.0 && rc.preparedValueHash == key.1 {
            hasHighest := true;
          }
          candidates := candidates + [rc];
          used := used + {rc.peerIdx};
        }
        assert qrc[..|qrc|] == qrc;
        if |candidates| >= Quorum(cfg.nodes) && hasHighest {
          SupportStays(sets, s + 1, qrc, Quorum(cfg.nodes));
          return Some(candidates + Values(group));
        }
      }
      assert sets[..|sets|] == sets;
      return None;
    }

    method ClassifyRoundChange(msg: Msg) returns (rule: UponRule, justification: seq<Msg>)
      requires Valid() && msg.msgType == RoundChange
      ensures (rule, justification) == QbftRules.ClassifyRoundChange(cfg, Snapshot(), msg)
    {
      if msg.round < round {
        return Nothing, [];
      }
      var all := Flatten();
      if msg.round > round {
        var highest := FindHighest(all, Faulty(cfg.nodes) + 1);
        if |highest| < Faulty(cfg.nodes) + 1 {
          return Nothing, [];
        }
        return FPlus1RoundChanges, Values(highest);
      }
      var qrc := Select(RoundChanges(msg.round), all);
      if |qrc| < Quorum(cfg.nodes) {
        return Nothing, [];
      }
      var justified: Option<seq<Msg>>;
      var unprepared := Select(UnpreparedRoundChanges(msg.round), all);
      if |unprepared| >= Quorum(cfg.nodes) {
        justified := Some(unprepared);
      } else {
        var sets := CollectPrepareSets(all);
        justified := FindSupport(sets, qrc);
      }
      if justified.None? {
        return UnjustQuorumRoundChanges, [];
      }
      if !IsLeader(cfg.nodes, cfg.duty, msg.round, cfg.peer) {
        return Nothing, [];
      }
      return QuorumRoundChanges, justified.value;
    }

    method Classify(cm: ConsensusMsg) returns (rule: UponRule, justification: seq<Msg>)
      requires Valid()
      ensures (rule, justification) == QbftRules.Classify(cfg, Snapshot(), cm)
    {
      var msg := cm.msg;
      match msg.msgType
      case Decided =>
        return JustifiedDecided, cm.justification;
      case PrePrepare =>
        if msg.round < round {
          return Nothing, [];
        }
        return JustifiedPrePrepare, [];
      case RoundChange =>
        rule, justification := ClassifyRoundChange(msg);
      case Prepare =>
        if msg.round != round {
          return Nothing, [];
        }
        var all := Flatten();
        var prepares := Select(Votes(Prepare, msg.round, msg.valueHash), all);
        if |prepares| >= Quorum(cfg.nodes) {
          return QuorumPrepares, prepares;
        }
        return Nothing, [];
      case Commit =>
        if msg.round != round {
          return Nothing, [];
        }
        var all := Flatten();
        var commits := Select(Votes(Commit, msg.round, msg.valueHash), all);
        if |commits| >= Quorum(cfg.nodes) {
          return QuorumCommits, commits;
        }
        return Nothing, [];
    }

    method ChangeRound(r: nat)
      modifies this`round, this`dedupRules
      ensures Snapshot() == QbftRules.ChangeRound(old(Snapshot()), r)
    {
      if r == round {
        return;
      }
      round := r;
      dedupRules := {};
    }

    method AllowDecidedResend(peerIdx: nat, msgRound: nat) returns (allowed: bool)
      modifies this`decidedResends
      ensures (Snapshot(), allowed) == QbftRules.AllowDecidedResend(old(Snapshot()), peerIdx, msgRound)
    {
      var (highest, count) := if peerIdx in decidedResends then decidedResends[peerIdx] else (0, 0);
      if msgRound <= highest || count >= MAX_DECIDED_RESENDS {
        return false;
      }
      decidedResends := decidedResends[peerIdx := (msgRound, count + 1)];
      return true;
    }

    method StoreValues(incoming: seq<Bytes>)
      requires Valid()
      modifies t
      ensures t.values == QbftRules.StoreValues(cfg, old(t.values), incoming)
    {
      var mapping: map<Hash, Bytes> := map[];
      for i := 0 to |incoming|
        invariant t.values == old(t.values)
        invariant t.values + mapping == QbftRules.StoreValues(cfg, t.values, incoming[..i])
      {
        assert incoming[..i + 1][..i] == incoming[..i];
        mapping := mapping[cfg.hashValue(incoming[i]) := incoming[i]];
      }
      assert incoming[..|incoming|] == incoming;
      t.SetValues(mapping);
    }

    /** The round f+1 peers have moved on to. The original's own sanity checks raise here. */
    method SmallestRound(frc: seq<Msg>) returns (r: Result<nat, Error>)
      requires frc != []
      ensures r == MinFutureRound(frc, round)
    {
      var rmin: Option<nat> := None;
      for i := 0 to |frc|
        invariant i == 0 <==> rmin == None
        invariant i > 0 ==> MinFutureRound(frc[..i], round) == Success(rmin.value)
      {
        assert frc[..i + 1][..i] == frc[..i];
        if frc[i].msgType != RoundChange {
          FailureStays(frc, i + 1, round);
          return Failure(FrcNotRoundChange);
        }
        if frc[i].round <= round {
          FailureStays(frc, i + 1, round);
          return Failure(FrcRoundNotFuture);
        }
        if rmin.None? || rmin.value > frc[i].round {
          rmin := Some(frc[i].round);
        }
      }
      assert frc[..|frc|] == frc;
      return Success(rmin.value);
    }

    method Fire(msg: Msg, rule: UponRule, justification: seq<Msg>) returns (outcome: Outcome)
      requires Valid()
      modifies this
      ensures t.values == old(t.values)
      ensures Step(Snapshot(), outcome) == QbftRules.Fire(cfg, old(Snapshot()), msg, rule, justification)
    {
      outcome := Sent([]);
      match rule
      case Nothing =>
      case JustifiedPrePrepare =>
        ChangeRound(msg.round);
        if msg.valueHash.Some? {
          outcome := t.BroadcastMessage(Prepare, round, msg.valueHash.value, []);
        }
      case QuorumPrepares =>
        preparedRound := Some(msg.round);
        preparedValueHash := msg.valueHash;
        preparedJustification := justification;
        if msg.valueHash.Some? {
          outcome := t.BroadcastMessage(Commit, round, msg.valueHash.value, []);
        }
      case QuorumCommits =>
        ChangeRound(msg.round);
        qCommit := justification;
      case JustifiedDecided =>
        ChangeRound(msg.round);
        qCommit := justification;
      case FPlus1RoundChanges =>
        if |justification| < Faulty(cfg.nodes) + 1 {
          return Raised(FrcTooShort);
        }
        var rmin := SmallestRound(justification);
        if rmin.Failure? {
          return Raised(rmin.error);
        }
        ChangeRound(rmin.value);
        outcome := t.BroadcastRoundChange(round, preparedRound, preparedValueHash, preparedJustification);
      case QuorumRoundChanges =>
        var tally := CountPrepares(justification);
        if tally != [] {
          var key := HighestKey(tally);
          if Get(tally, key, 0) >= Quorum(cfg.nodes) {
            outcome := t.BroadcastMessage(PrePrepare, round, key.1, justification);
            return;
          }
        }
        outcome := t.BroadcastMessage(PrePrepare, round, cfg.hashValue(cfg.proposal), justification);
      case UnjustQuorumRoundChanges =>
    }

    method ResendDecided(msg: Msg) returns (outcome: Outcome)
      requires Valid() && qCommit != []
      modifies this
      ensures t.values == old(t.values)
      ensures Step(Snapshot(), outcome) == HandleDecided(cfg, old(Snapshot()), msg)
    {
      if msg.peerIdx != cfg.peer && msg.msgType == RoundChange {
        var allowed := AllowDecidedResend(msg.peerIdx, msg.round);
        if allowed && qCommit[0].valueHash.Some? {
          outcome := t.BroadcastMessage(Decided, round, qCommit[0].valueHash.value, qCommit);
          return;
        }
      }
      return Sent([]);
    }

    /** Handles one message in place, exactly as the rules prescribe. */
    method HandleMessage(cm: ConsensusMsg) returns (outcome: Outcome)
      requires Valid()
      modifies this, t
      ensures Valid()
      ensures Step(Snapshot(), outcome) == Handle(cfg, old(Snapshot()), cm)
    {
      var msg := cm.msg;
      var limits := VerifyMsgLimits(cm, cfg.nodes);
      if limits.Some? {
        return Raised(limits.value);
      }
      StoreValues(cm.values);
      if msg.duty != cfg.duty {
        return Sent([]);
      }
      if qCommit != [] {
        outcome := ResendDecided(msg);
        return;
      }
      var justified := IsJustified(cm);
      if justified.Failure? {
        return Raised(justified.error);
      }
      if !justified.value {
        return Sent([]);
      }
      BufferMessage(cm);
      var rule, justification := Classify(cm);
      if rule == Nothing || (rule, round) in dedupRules {
        return Sent([]);
      }
      dedupRules := dedupRules + {(rule, round)};
      outcome := Fire(msg, rule, justification);
    }
  }

  // Loops that stop early
}
