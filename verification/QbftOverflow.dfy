/** Repeats in a node's buffer count, and can make it send what its peers reject for its size. */
module QbftOverflow {
  import opened Duties
  import opened Wrappers
  import opened QbftMessages
  import opened QbftRules
  import opened QbftLemmas
  import opened QbftNode
  import opened QbftJustification
  import opened QbftNodeRuns
  import opened QbftEmission

  /** A message of this type that every receiver rejects for its size. */
  predicate Overflows(cfg: Config, sent: Option<ConsensusMsg>, t: MsgType) {
    sent.Some? && sent.value.msg.msgType == t && VerifyMsgLimits(sent.value, cfg.nodes) == Some(TooManyJustifications)
  }

  // A ROUND-CHANGE delivered many times

  function UnpreparedRoundChange(duty: Duty, peer: nat): ConsensusMsg {
    ConsensusMsg(Msg(RoundChange, duty, peer, 2, 0, None, None, ZERO_HASH), [], [])
  }

  function Repeated(cm: ConsensusMsg, times: nat): seq<ConsensusMsg> {
    seq(times, _ => cm)
  }

  lemma {:induction false} FlattenRepeated(cm: ConsensusMsg, times: nat)
    requires cm.justification == []
    ensures FlattenMsgs(Repeated(cm, times)) == seq(times, _ => cm.msg)
  {
    if times > 0 {
      assert Repeated(cm, times)[..times - 1] == Repeated(cm, times - 1);
      FlattenRepeated(cm, times - 1);
    }
  }

  lemma FlattenRepeats(buffer: Buffer, cm: ConsensusMsg, times: nat)
    requires cm.justification == [] && buffer == [(cm.msg.peerIdx, Repeated(cm, times))]
    ensures Flatten(buffer) == seq(times, _ => cm.msg)
  {
    FlattenOne(buffer[0]);
    FlattenRepeated(cm, times);
  }

  lemma RepeatsClassified(cfg: Config, s: State, msg: Msg, all: seq<Msg>)
    requires cfg.nodes > 0 && |all| > 2 * cfg.nodes && msg.round == s.round && msg.msgType == RoundChange
    requires forall m :: m in all ==> Hit(UnpreparedRoundChanges(s.round), m)
    requires Flatten(s.buffer) == all && IsLeader(cfg.nodes, cfg.duty, s.round, cfg.peer)
    ensures ClassifyRoundChange(cfg, s, msg) == (QuorumRoundChanges, all)
  {
    SelectAll(UnpreparedRoundChanges(s.round), all);
    SelectAll(RoundChanges(s.round), all);
  }

  lemma OverflowRejected(cfg: Config, s: State, all: seq<Msg>)
    requires cfg.nodes > 0 && |all| > 2 * cfg.nodes && s.round >= 1
    requires cfg.numPeers > 0 && |cfg.hashValue(cfg.proposal).bytes| == 32
    requires forall m :: m in all ==> Hit(UnpreparedRoundChanges(s.round), m)
    ensures Overflows(cfg, SentBy(OnQuorumRoundChanges(cfg, s, all).outcome), PrePrepare)
  {
    SelectAll(UnpreparedRoundChanges(s.round), all);
    UnpreparedQuorumTally(all, all, s.round, Quorum(cfg.nodes));
  }

  /** One source is not enough to move a node that tolerates a fault. */
  lemma {:induction false} HighestOfOneSource(ms: seq<Msg>, peer: nat, round: nat, limit: int)
    requires forall m :: m in ms && m.msgType == RoundChange ==> m.peerIdx == peer
    ensures var h := HighestBySource(ms, round, limit);
            |h| <= 1 && (h != [] ==> h[0].0 == peer)
    decreases |ms|
  {
    if ms != [] {
      var init, last := ms[..|ms| - 1], ms[|ms| - 1];
      assert ms == init + [last];
      HighestOfOneSource(init, peer, round, limit);
    }
  }

  function Repeats(cm: ConsensusMsg, times: nat): seq<Input> {
    seq(times, _ => Receive(cm))
  }

  /** A node that has received `times` copies in `round`. */
  function Holding(cfg: Config, cm: ConsensusMsg, times: nat, round: nat): State {
    InitialState(cfg).(
      round := round, buffer := if times == 0 then [] else [(cm.msg.peerIdx, Repeated(cm, times))])
  }

  lemma HoldsOneMore(cfg: Config, cm: ConsensusMsg, times: nat, round: nat)
    ensures BufferMessage(Holding(cfg, cm, times, round).buffer, cm) == Holding(cfg, cm, times + 1, round).buffer
  {
    if times == 0 {
      assert [] + [cm] == Repeated(cm, 1);
    } else {
      assert Repeated(cm, times) + [cm] == Repeated(cm, times + 1);
    }
  }

  lemma OneSourceMovesNothing(cfg: Config, s: State, msg: Msg, peer: nat)
    requires Faulty(cfg.nodes) >= 1 && msg.msgType == RoundChange && msg.round > s.round
    requires forall m :: m in Flatten(s.buffer) && m.msgType == RoundChange ==> m.peerIdx == peer
    ensures ClassifyRoundChange(cfg, s, msg) == (Nothing, [])
  {
    HighestOfOneSource(Flatten(s.buffer), peer, s.round, Faulty(cfg.nodes) + 1);
  }

  lemma HoldingBuffers(cfg: Config, cm: ConsensusMsg, peer: nat, times: nat, round: nat)
    requires cfg.nodes > 0 && cm == UnpreparedRoundChange(cfg.duty, peer)
    ensures Buffers(cfg, Holding(cfg, cm, times, round), cm, Holding(cfg, cm, times + 1, round))
    ensures Flatten(Holding(cfg, cm, times + 1, round).buffer) == seq(times + 1, _ => cm.msg)
  {
    HoldsOneMore(cfg, cm, times, round);
    FlattenRepeats(Holding(cfg, cm, times + 1, round).buffer, cm, times + 1);
  }

  /** In round 1 a copy is buffered and nothing else. */
  lemma CopyBuffered(cfg: Config, cm: ConsensusMsg, peer: nat, times: nat)
    requires Faulty(cfg.nodes) >= 1 && cm == UnpreparedRoundChange(cfg.duty, peer)
    ensures Handle(cfg, Holding(cfg, cm, times, 1), cm) == Step(Holding(cfg, cm, times + 1, 1), Sent([]))
  {
    HoldingBuffers(cfg, cm, peer, times, 1);
    OneSourceMovesNothing(cfg, Holding(cfg, cm, times + 1, 1), cm.msg, peer);
    HandleBuffers(cfg, Holding(cfg, cm, times, 1), cm, Holding(cfg, cm, times + 1, 1));
  }

  lemma {:induction false} CopiesBuffered(cfg: Config, cm: ConsensusMsg, peer: nat, times: nat)
    requires Faulty(cfg.nodes) >= 1 && cm == UnpreparedRoundChange(cfg.duty, peer)
    ensures StateAfter(cfg, Repeats(cm, times)) == Holding(cfg, cm, times, 1)
  {
    if times > 0 {
      var step := Step(Holding(cfg, cm, times, 1), Sent([]));
      CopiesBuffered(cfg, cm, peer, times - 1);
      CopyBuffered(cfg, cm, peer, times - 1);
      OneMoreInput(cfg, Repeats(cm, times - 1), Holding(cfg, cm, times - 1, 1), Receive(cm), step);
      assert Repeats(cm, times - 1) + [Receive(cm)] == Repeats(cm, times);
    }
  }

  lemma CopyClassified(cfg: Config, cm: ConsensusMsg, peer: nat, times: nat, next: State)
    requires times > 2 * cfg.nodes > 0 && IsLeader(cfg.nodes, cfg.duty, 2, cfg.peer)
    requires cm == UnpreparedRoundChange(cfg.duty, peer) && next == Holding(cfg, cm, times, 2)
    requires Flatten(next.buffer) == seq(times, _ => cm.msg)
    ensures Classify(cfg, next, cm) == (QuorumRoundChanges, Flatten(next.buffer))
  {
    RepeatsClassified(cfg, next, cm.msg, Flatten(next.buffer));
  }

  lemma CopyFires(cfg: Config, cm: ConsensusMsg, peer: nat, times: nat, next: State)
    requires cfg.nodes > 0 && IsLeader(cfg.nodes, cfg.duty, 2, cfg.peer) && times == 2 * cfg.nodes
    requires cm == UnpreparedRoundChange(cfg.duty, peer) && next == Holding(cfg, cm, times + 1, 2)
    ensures var fired := next.(dedup := {(QuorumRoundChanges, 2)});
            Handle(cfg, Holding(cfg, cm, times, 2), cm) == OnQuorumRoundChanges(cfg, fired, Flatten(next.buffer))
  {
    HoldingBuffers(cfg, cm, peer, times, 2);
    CopyClassified(cfg, cm, peer, times + 1, next);
    assert {} + {(QuorumRoundChanges, 2)} == {(QuorumRoundChanges, 2)};
    HandleFires(cfg, Holding(cfg, cm, times, 2), cm, next, QuorumRoundChanges, Flatten(next.buffer));
  }

  /** In round 2 the copy after 2n others makes the leader propose on all of them. */
  lemma CopyOverflows(cfg: Config, cm: ConsensusMsg, peer: nat, step: Step)
    requires ValidConfig(cfg) && cfg.numPeers > 0 && IsLeader(cfg.nodes, cfg.duty, 2, cfg.peer)
    requires cm == UnpreparedRoundChange(cfg.duty, peer)
    requires step == Handle(cfg, Holding(cfg, cm, 2 * cfg.nodes, 2), cm)
    ensures Overflows(cfg, SentBy(step.outcome), PrePrepare)
  {
    var times := 2 * cfg.nodes;
    var next := Holding(cfg, cm, times + 1, 2);
    CopyFires(cfg, cm, peer, times, next);
    HoldingBuffers(cfg, cm, peer, times, 2);
    OverflowRejected(cfg, next.(dedup := {(QuorumRoundChanges, 2)}), Flatten(next.buffer));
  }

  /** 2n deliveries of one peer's ROUND-CHANGE, a timeout, and one delivery more. */
  function OverflowRun(cfg: Config, peer: nat): seq<Input> {
    var cm := UnpreparedRoundChange(cfg.duty, peer);
    Repeats(cm, 2 * cfg.nodes) + [RoundTimeout] + [Receive(cm)]
  }

  lemma HoldingExpires(cfg: Config, cm: ConsensusMsg, times: nat, step: Step)
    requires cfg.nodes > 0 && step == Timeout(cfg, Holding(cfg, cm, times, 1))
    ensures step.state == Holding(cfg, cm, times, 2)
  {
  }

  lemma OverflowRunValid(cfg: Config, peer: nat)
    requires ValidConfig(cfg)
    ensures ValidRun(cfg, OverflowRun(cfg, peer))
  {
  }

  lemma HoldingExpired(cfg: Config, cm: ConsensusMsg, peer: nat, inputs: seq<Input>, times: nat)
    requires Faulty(cfg.nodes) >= 1 && cm == UnpreparedRoundChange(cfg.duty, peer)
    requires inputs == Repeats(cm, times) + [RoundTimeout]
    ensures StateAfter(cfg, inputs) == Holding(cfg, cm, times, 2)
  {
    var expired := Timeout(cfg, Holding(cfg, cm, times, 1));
    CopiesBuffered(cfg, cm, peer, times);
    HoldingExpires(cfg, cm, times, expired);
    OneMoreInput(cfg, Repeats(cm, times), Holding(cfg, cm, times, 1), RoundTimeout, expired);
  }

  /** In a cluster that tolerates a fault, a run in which one peer's ROUND-CHANGE is delivered 2n + 1
      times ends with the leader of round 2 broadcasting a proposal that every peer rejects for its
      size. */
  lemma RepeatsOverflowProposal(cfg: Config, peer: nat)
    requires ValidConfig(cfg) && cfg.numPeers > 0 && Faulty(cfg.nodes) >= 1
    requires IsLeader(cfg.nodes, cfg.duty, 2, cfg.peer)
    ensures var inputs := OverflowRun(cfg, peer);
            ValidRun(cfg, inputs) && Overflows(cfg, Broadcasts(cfg, inputs, |inputs| - 1), PrePrepare)
  {
    var cm, times := UnpreparedRoundChange(cfg.duty, peer), 2 * cfg.nodes;
    var first := Repeats(cm, times) + [RoundTimeout];
    var last := Handle(cfg, Holding(cfg, cm, times, 2), cm);
    OverflowRunValid(cfg, peer);
    HoldingExpired(cfg, cm, peer, first, times);
    OneMoreInput(cfg, first, Holding(cfg, cm, times, 2), Receive(cm), last);
    CopyOverflows(cfg, cm, peer, last);
  }

  // PREPAREs embedded and sent

  function PrepareMsg(duty: Duty, peer: nat, h: Hash): Msg {
    Msg(Prepare, duty, peer, 1, 0, None, Some(h), ZERO_HASH)
  }

  /** A ROUND-CHANGE to round 2 that embeds the peer's PREPARE of round 1 that many times. */
  function PreparedRoundChange(duty: Duty, peer: nat, h: Hash, times: nat): ConsensusMsg {
    ConsensusMsg(Msg(RoundChange, duty, peer, 2, 1, None, None, h), seq(times, _ => PrepareMsg(duty, peer, h)), [])
  }

  function PrepareEnvelope(duty: Duty, peer: nat, h: Hash): ConsensusMsg {
    ConsensusMsg(PrepareMsg(duty, peer, h), [], [])
  }

  /** The ROUND-CHANGE with 2n PREPAREs, one PREPARE more, and a timeout. */
  function PreparesRun(cfg: Config, peer: nat, h: Hash): seq<Input> {
    [Receive(PreparedRoundChange(cfg.duty, peer, h, 2 * cfg.nodes))]
    + [Receive(PrepareEnvelope(cfg.duty, peer, h))] + [RoundTimeout]
  }

  /** The votes once all is buffered. */
  lemma PreparesHeld(rc: ConsensusMsg, p: ConsensusMsg, buffer: Buffer, times: nat, h: Hash)
    requires rc == PreparedRoundChange(p.msg.duty, p.msg.peerIdx, h, times)
    requires p == PrepareEnvelope(p.msg.duty, p.msg.peerIdx, h)
    requires buffer == [(p.msg.peerIdx, [rc])]
    ensures Flatten(buffer) == [rc.msg] + rc.justification
    ensures |Select(Votes(Prepare, 1, Some(h)), Flatten(BufferMessage(buffer, p)))| == times + 1
    ensures BufferMessage([], rc) == buffer
  {
    var q := Votes(Prepare, 1, Some(h));
    FlattenOne(buffer[0]);
    FlattenMsgsAppend([], rc);
    assert [] + [rc] == [rc];
    var x, y := SelectAfterInsert(q, buffer, p);
    SelectOwn(q, p);
    SelectConcat(q, [rc.msg], rc.justification);
    SelectNone(q, [rc.msg]);
    SelectAll(q, rc.justification);
  }

  function HoldingPrepares(cfg: Config, peer: nat, h: Hash): State {
    InitialState(cfg).(buffer := [(peer, [PreparedRoundChange(cfg.duty, peer, h, 2 * cfg.nodes)])])
  }

  lemma PreparedRoundChangeBuffers(cfg: Config, peer: nat, h: Hash, rc: ConsensusMsg, next: State)
    requires cfg.nodes > 0 && rc == PreparedRoundChange(cfg.duty, peer, h, 2 * cfg.nodes)
    requires next == InitialState(cfg).(buffer := BufferMessage([], rc))
    ensures Buffers(cfg, InitialState(cfg), rc, next)
  {
    SelectAll(Votes(Prepare, 1, Some(h)), rc.justification);
  }

  lemma PreparesBuffered(cfg: Config, peer: nat, h: Hash, rc: ConsensusMsg)
    requires ValidConfig(cfg) && Faulty(cfg.nodes) >= 1
    requires rc == PreparedRoundChange(cfg.duty, peer, h, 2 * cfg.nodes)
    ensures Handle(cfg, InitialState(cfg), rc) == Step(HoldingPrepares(cfg, peer, h), Sent([]))
  {
    var s, next := InitialState(cfg), HoldingPrepares(cfg, peer, h);
    PreparesHeld(rc, PrepareEnvelope(cfg.duty, peer, h), next.buffer, 2 * cfg.nodes, h);
    PreparedRoundChangeBuffers(cfg, peer, h, rc, next);
    OneSourceMovesNothing(cfg, next, rc.msg, peer);
    HandleBuffers(cfg, s, rc, next);
  }

  lemma PreparesOnAll(cfg: Config, peer: nat, h: Hash, step: Step)
    requires ValidConfig(cfg)
    requires step == Handle(cfg, HoldingPrepares(cfg, peer, h), PrepareEnvelope(cfg.duty, peer, h))
    ensures step.state.qCommit == [] && step.state.preparedValueHash == Some(h)
    ensures |step.state.preparedJustification| == 2 * cfg.nodes + 1
  {
    var s, cm := HoldingPrepares(cfg, peer, h), PrepareEnvelope(cfg.duty, peer, h);
    var next := s.(buffer := BufferMessage(s.buffer, cm));
    PreparesHeld(PreparedRoundChange(cfg.duty, peer, h, 2 * cfg.nodes), cm, s.buffer, 2 * cfg.nodes, h);
    assert Buffers(cfg, s, cm, next);
    var votes := Select(Votes(Prepare, 1, Some(h)), Flatten(next.buffer));
    HandleFires(cfg, s, cm, next, QuorumPrepares, votes);
  }

  predicate ValidHash(h: Hash) {
    |h.bytes| == 32 && h != ZERO_HASH
  }

  lemma OverflowAnnounced(cfg: Config, s: State)
    requires ValidConfig(cfg) && cfg.numPeers > 0 && NodeInv(cfg, s) && s.qCommit == []
    requires |s.preparedJustification| > 2 * cfg.nodes
    requires s.preparedValueHash.Some? && ValidHash(s.preparedValueHash.value)
    ensures Overflows(cfg, SentBy(Timeout(cfg, s).outcome), RoundChange)
  {
  }

  lemma PreparesRunValid(cfg: Config, peer: nat, h: Hash)
    requires ValidConfig(cfg) && peer < cfg.nodes && ValidHash(h)
    ensures ValidRun(cfg, PreparesRun(cfg, peer, h)) && KnownSources(cfg, PreparesRun(cfg, peer, h))
  {
  }

  lemma PreparesRunState(cfg: Config, peer: nat, h: Hash, inputs: seq<Input>)
    requires ValidConfig(cfg) && Faulty(cfg.nodes) >= 1
    requires inputs == PreparesRun(cfg, peer, h)[..2]
    ensures var s := StateAfter(cfg, inputs);
            s.qCommit == [] && s.preparedValueHash == Some(h) && |s.preparedJustification| == 2 * cfg.nodes + 1
  {
    var rc, cm := PreparedRoundChange(cfg.duty, peer, h, 2 * cfg.nodes), PrepareEnvelope(cfg.duty, peer, h);
    var held := HoldingPrepares(cfg, peer, h);
    PreparesBuffered(cfg, peer, h, rc);
    PreparesOnAll(cfg, peer, h, Handle(cfg, held, cm));
    OneMoreInput(cfg, [], InitialState(cfg), Receive(rc), Step(held, Sent([])));
    assert [] + [Receive(rc)] == [Receive(rc)];
    OneMoreInput(cfg, [Receive(rc)], held, Receive(cm), Handle(cfg, held, cm));
    assert inputs == [Receive(rc)] + [Receive(cm)];
  }

  /** In a cluster that tolerates a fault, these three inputs from one peer make a node broadcast a
      ROUND-CHANGE that every peer rejects for its size. */
  lemma RepeatsOverflowRoundChange(cfg: Config, peer: nat, h: Hash)
    requires ValidConfig(cfg) && cfg.numPeers > 0 && Faulty(cfg.nodes) >= 1 && peer < cfg.nodes && ValidHash(h)
    ensures var inputs := PreparesRun(cfg, peer, h);
            && ValidRun(cfg, inputs) && KnownSources(cfg, inputs)
            && Overflows(cfg, Broadcasts(cfg, inputs, 2), RoundChange)
  {
    var inputs := PreparesRun(cfg, peer, h);
    PreparesRunValid(cfg, peer, h);
    PreparesRunState(cfg, peer, h, inputs[..2]);
    ReachableInv(cfg, inputs[..2]);
    OverflowAnnounced(cfg, StateAfter(cfg, inputs[..2]));
  }
}
