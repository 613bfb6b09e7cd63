/** The agreement theorem is not vacuous: every cluster has a run in which every node decides. */
module QbftDecides {
  import opened SymbolicBytes
  import opened Wrappers
  import opened QbftMessages
  import opened QbftRules
  import opened QbftLemmas
  import opened QbftNode
  import opened QbftNetwork
  import opened QbftAgreement

  /** The leader of round 1. */
  function Leader(c: Cluster): nat
    requires |c| > 0
  {
    (c[0].duty.slot + c[0].duty.dutyType + 1) % |c|
  }

  /** The hash of the leader's own proposal. */
  function LeaderHash(c: Cluster): Hash
    requires |c| > 0
  {
    c[Leader(c)].hashValue(c[Leader(c)].proposal)
  }

  /** A message of round 1 for `v`. */
  ghost predicate IsVote(cfg: Config, cm: ConsensusMsg, t: MsgType, v: Hash)
    requires cfg.nodes > 0
  {
    && cm.msg.msgType == t && cm.msg.duty == cfg.duty && cm.msg.round == 1 && cm.msg.valueHash == Some(v)
    && cm.justification == [] && |cm.values| <= 1
    && (t == PrePrepare ==> IsLeader(cfg.nodes, cfg.duty, 1, cm.msg.peerIdx))
  }

  /** What a node has heard so far: nothing, or the PRE-PREPARE and that many PREPAREs and COMMITs. */
  datatype Stage = Fresh | Heard(prepares: nat, commits: nat)

  /** The node has prepared `v` in round 1, on that many PREPAREs. */
  ghost predicate PreparedOn(s: State, v: Hash, votes: nat) {
    && s.preparedRound == Some(1) && s.preparedValueHash == Some(v) && |s.preparedJustification| == votes
    && forall m :: m in s.preparedJustification ==> Hit(Votes(Prepare, 1, Some(v)), m)
  }

  ghost predicate At(cfg: Config, v: Hash, s: State, stage: Stage) {
    match stage
    case Fresh => s == InitialState(cfg)
    case Heard(prepares, commits) =>
      if HasDecided(s) then commits >= Quorum(cfg.nodes) && Decision(s) == Some(v)
      else
        && commits < Quorum(cfg.nodes) && s.round == 1
        && ((QuorumPrepares, 1) in s.dedup <==> prepares >= Quorum(cfg.nodes))
        && (QuorumCommits, 1) !in s.dedup
        && |Select(Votes(Prepare, 1, Some(v)), Flatten(s.buffer))| == prepares
        && |Select(Votes(Commit, 1, Some(v)), Flatten(s.buffer))| == commits
        && (forall m :: m in Flatten(s.buffer) ==> m.msgType != RoundChange)
        && (prepares >= Quorum(cfg.nodes) ==> PreparedOn(s, v, Quorum(cfg.nodes)))
  }

  predicate Expects(stage: Stage, t: MsgType) {
    match stage
    case Fresh => t == PrePrepare
    case Heard(_, commits) => t == Commit || (t == Prepare && commits == 0)
  }

  function NextStage(stage: Stage, t: MsgType): Stage
    requires Expects(stage, t)
  {
    match stage
    case Fresh => Heard(0, 0)
    case Heard(prepares, commits) =>
      if t == Prepare then Heard(prepares + 1, commits) else Heard(prepares, commits + 1)
  }

  /** The type of message a node sends when it hears `t`. */
  function Answer(nodes: nat, stage: Stage, t: MsgType): Option<MsgType>
    requires Expects(stage, t)
  {
    match stage
    case Fresh => Some(Prepare)
    case Heard(prepares, _) => if t == Prepare && prepares + 1 == Quorum(nodes) then Some(Commit) else None
  }

  ghost predicate Answers(cfg: Config, outcome: Outcome, answer: Option<MsgType>, v: Hash)
    requires cfg.nodes > 0
  {
    && outcome.Sent?
    && |outcome.msgs| == (if answer.Some? then cfg.numPeers else 0)
    && forall k :: 0 <= k < |outcome.msgs| ==> IsVote(cfg, outcome.msgs[k], answer.value, v)
  }

  // One node

  lemma VoteSent(cfg: Config, values: map<Hash, Bytes>, t: MsgType, v: Hash)
    requires ValidConfig(cfg) && |v.bytes| == 32 && (t == Prepare || t == Commit)
    ensures Answers(cfg, BroadcastMessage(cfg, values, t, 1, v, []), Some(t), v)
  {
    var unsigned := Unsigned(cfg, t, 1, Some(v), None, None);
    BroadcastShape(cfg, unsigned, [], Known(values, Some(v)));
    assert ValidMsg(unsigned);
  }

  lemma VoteCounted(buffer: Buffer, cm: ConsensusMsg, t: MsgType, v: Hash)
    requires cm.justification == []
    ensures var q := Votes(t, 1, Some(v));
            |Select(q, Flatten(BufferMessage(buffer, cm)))|
            == |Select(q, Flatten(buffer))| + if Hit(q, cm.msg) then 1 else 0
  {
    var x, y := SelectInserted(Votes(t, 1, Some(v)), buffer, cm);
  }

  lemma HearsProposal(cfg: Config, v: Hash, cm: ConsensusMsg)
    requires ValidConfig(cfg) && |v.bytes| == 32 && IsVote(cfg, cm, PrePrepare, v)
    ensures var step := Handle(cfg, InitialState(cfg), cm);
            At(cfg, v, step.state, Heard(0, 0)) && Answers(cfg, step.outcome, Some(Prepare), v)
  {
    var s := InitialState(cfg).(values := StoreValues(cfg, InitialState(cfg).values, cm.values));
    VoteCounted([], cm, Prepare, v);
    VoteCounted([], cm, Commit, v);
    BufferContents([], cm);
    VoteSent(cfg, s.values, Prepare, v);
    assert IsJustified(cfg, cm) == Success(true);
    assert Handle(cfg, InitialState(cfg), cm) == HandleJustified(cfg, s, cm);
  }

  function Buffered(cfg: Config, s: State, cm: ConsensusMsg): State {
    s.(buffer := BufferMessage(s.buffer, cm), values := StoreValues(cfg, s.values, cm.values))
  }

  /** What an undecided node holds once it has buffered a vote. */
  lemma VoteBuffered(cfg: Config, v: Hash, s: State, stage: Stage, cm: ConsensusMsg, t: MsgType, next: State)
    requires cfg.nodes > 0 && IsVote(cfg, cm, t, v) && (t == Prepare || t == Commit) && next == Buffered(cfg, s, cm)
    requires stage.Heard? && At(cfg, v, s, stage) && !HasDecided(s)
    ensures Buffers(cfg, s, cm, next)
    ensures |Select(Votes(Prepare, 1, Some(v)), Flatten(next.buffer))| == stage.prepares + if t == Prepare then 1 else 0
    ensures |Select(Votes(Commit, 1, Some(v)), Flatten(next.buffer))| == stage.commits + if t == Commit then 1 else 0
    ensures forall m :: m in Flatten(next.buffer) ==> m.msgType != RoundChange
  {
    VoteCounted(s.buffer, cm, Prepare, v);
    VoteCounted(s.buffer, cm, Commit, v);
    BufferContents(s.buffer, cm);
  }

  lemma VoteClassified(cfg: Config, v: Hash, cm: ConsensusMsg, t: MsgType, next: State, votes: seq<Msg>)
    requires cfg.nodes > 0 && IsVote(cfg, cm, t, v) && (t == Prepare || t == Commit) && next.round == 1
    requires votes == Select(Votes(t, 1, Some(v)), Flatten(next.buffer))
    ensures Classify(cfg, next, cm)
            == if |votes| < Quorum(cfg.nodes) then (Nothing, [])
               else (if t == Prepare then QuorumPrepares else QuorumCommits, votes)
    ensures forall m :: m in votes ==> Hit(Votes(t, 1, Some(v)), m)
  {
    SelectSound(Votes(t, 1, Some(v)), Flatten(next.buffer));
  }

  /** The PREPARE that completes a quorum. */
  lemma HearsQuorum(cfg: Config, v: Hash, s: State, commits: nat, cm: ConsensusMsg, next: State, votes: seq<Msg>)
    requires ValidConfig(cfg) && |v.bytes| == 32 && IsVote(cfg, cm, Prepare, v) && Buffers(cfg, s, cm, next)
    requires At(cfg, v, s, Heard(Quorum(cfg.nodes) - 1, commits)) && !HasDecided(s)
    requires Classify(cfg, next, cm) == (QuorumPrepares, votes)
    requires |votes| == Quorum(cfg.nodes) && forall m :: m in votes ==> Hit(Votes(Prepare, 1, Some(v)), m)
    ensures var step := Handle(cfg, s, cm);
            && PreparedOn(step.state, v, Quorum(cfg.nodes)) && step.state.buffer == next.buffer
            && step.state.qCommit == [] && step.state.round == 1
            && step.state.dedup == s.dedup + {(QuorumPrepares, 1)}
            && Answers(cfg, step.outcome, Some(Commit), v)
  {
    VoteSent(cfg, next.values, Commit, v);
    HandleFires(cfg, s, cm, next, QuorumPrepares, votes);
  }

  lemma HearsPrepare(cfg: Config, v: Hash, s: State, stage: Stage, cm: ConsensusMsg, next: State)
    requires ValidConfig(cfg) && |v.bytes| == 32 && IsVote(cfg, cm, Prepare, v) && next == Buffered(cfg, s, cm)
    requires stage.Heard? && Expects(stage, Prepare) && At(cfg, v, s, stage)
    ensures var step := Handle(cfg, s, cm);
            && At(cfg, v, step.state, NextStage(stage, Prepare))
            && Answers(cfg, step.outcome, Answer(cfg.nodes, stage, Prepare), v)
  {
    var votes := Select(Votes(Prepare, 1, Some(v)), Flatten(next.buffer));
    VoteBuffered(cfg, v, s, stage, cm, Prepare, next);
    VoteClassified(cfg, v, cm, Prepare, next, votes);
    if stage.prepares + 1 == Quorum(cfg.nodes) {
      HearsQuorum(cfg, v, s, stage.commits, cm, next, votes);
    } else {
      HandleBuffers(cfg, s, cm, next);
    }
  }

  /** The COMMIT that completes a quorum. */
  lemma HearsLastCommit(cfg: Config, v: Hash, s: State, cm: ConsensusMsg, next: State, votes: seq<Msg>)
    requires cfg.nodes > 0 && IsVote(cfg, cm, Commit, v) && Buffers(cfg, s, cm, next)
    requires s.round == 1 && (QuorumCommits, 1) !in s.dedup
    requires Classify(cfg, next, cm) == (QuorumCommits, votes)
    requires votes != [] && forall m :: m in votes ==> Hit(Votes(Commit, 1, Some(v)), m)
    ensures var step := Handle(cfg, s, cm);
            HasDecided(step.state) && Decision(step.state) == Some(v) && step.outcome == Sent([])
  {
    assert votes[0] in votes;
    HandleFires(cfg, s, cm, next, QuorumCommits, votes);
  }

  lemma HearsCommit(cfg: Config, v: Hash, s: State, stage: Stage, cm: ConsensusMsg, next: State)
    requires ValidConfig(cfg) && IsVote(cfg, cm, Commit, v) && next == Buffered(cfg, s, cm)
    requires stage.Heard? && At(cfg, v, s, stage) && !HasDecided(s)
    ensures var step := Handle(cfg, s, cm);
            && At(cfg, v, step.state, NextStage(stage, Commit))
            && Answers(cfg, step.outcome, None, v)
  {
    var votes := Select(Votes(Commit, 1, Some(v)), Flatten(next.buffer));
    VoteBuffered(cfg, v, s, stage, cm, Commit, next);
    VoteClassified(cfg, v, cm, Commit, next, votes);
    if |votes| < Quorum(cfg.nodes) {
      HandleBuffers(cfg, s, cm, next);
    } else {
      HearsLastCommit(cfg, v, s, cm, next, votes);
    }
  }

  lemma HearsDecided(cfg: Config, v: Hash, s: State, stage: Stage, cm: ConsensusMsg)
    requires ValidConfig(cfg) && IsVote(cfg, cm, Commit, v)
    requires stage.Heard? && At(cfg, v, s, stage) && HasDecided(s)
    ensures var step := Handle(cfg, s, cm);
            && At(cfg, v, step.state, NextStage(stage, Commit))
            && Answers(cfg, step.outcome, None, v)
  {
    var stored := s.(values := StoreValues(cfg, s.values, cm.values));
    assert Handle(cfg, s, cm) == Step(stored, Sent([]));
  }

  // A block of messages, one to each node

  ghost predicate IsBlock(c: Cluster, v: Hash, block: seq<Envelope>, t: MsgType)
    requires ValidCluster(c)
  {
    |block| == |c| && forall d :: 0 <= d < |c| ==> block[d].dest == d && IsVote(c[0], block[d].cm, t, v)
  }

  ghost predicate AreBlocks(c: Cluster, v: Hash, sent: seq<Envelope>, ts: seq<MsgType>)
    requires ValidCluster(c)
    decreases |ts|
  {
    if ts == [] then sent == []
    else |sent| >= |c| && IsBlock(c, v, sent[..|c|], ts[0]) && AreBlocks(c, v, sent[|c|..], ts[1..])
  }

  lemma {:induction false} BlocksConcat(c: Cluster, v: Hash, a: seq<Envelope>, ts: seq<MsgType>, b: seq<Envelope>,
                                        us: seq<MsgType>)
    requires ValidCluster(c) && AreBlocks(c, v, a, ts) && AreBlocks(c, v, b, us)
    ensures AreBlocks(c, v, a + b, ts + us)
    decreases |ts|
  {
    if ts == [] {
      assert a + b == b && ts + us == us;
    } else {
      BlocksConcat(c, v, a[|c|..], ts[1..], b, us);
      assert (a + b)[..|c|] == a[..|c|] && (a + b)[|c|..] == a[|c|..] + b;
      assert (ts + us)[1..] == ts[1..] + us;
    }
  }

  function Times(t: Option<MsgType>, n: nat): (ts: seq<MsgType>)
    ensures |ts| == if t.Some? then n else 0
    ensures forall k :: 0 <= k < |ts| ==> ts[k] == t.value
  {
    if t.Some? then seq(n, _ => t.value) else []
  }

  lemma BlockAdded(c: Cluster, v: Hash, sent: seq<Envelope>, t: Option<MsgType>, n: nat, more: seq<Envelope>)
    requires ValidCluster(c) && AreBlocks(c, v, sent, Times(t, n))
    requires if t.Some? then IsBlock(c, v, more, t.value) else more == []
    ensures AreBlocks(c, v, sent + more, Times(t, n + 1))
  {
    if t.Some? {
      assert more[..|c|] == more && more[|c|..] == [];
      assert AreBlocks(c, v, more, [t.value]);
      BlocksConcat(c, v, sent, Times(t, n), more, [t.value]);
      assert Times(t, n) + [t.value] == Times(t, n + 1);
    } else {
      assert sent + more == sent;
    }
  }

  lemma AnswersAreBlock(c: Cluster, v: Hash, i: nat, outcome: Outcome, t: Option<MsgType>)
    requires ValidCluster(c) && i < |c| && Answers(c[i], outcome, t, v)
    ensures if t.Some? then IsBlock(c, v, Copies(outcome), t.value) else Copies(outcome) == []
  {
  }

  // Delivering a block

  /** The stage of all nodes, and the blocks they have yet to hear. */
  datatype Progress = Progress(stage: Stage, ts: seq<MsgType>)

  /** All nodes are at one stage, and what is not delivered yet are these blocks from `start` on. */
  ghost predicate Waiting(c: Cluster, v: Hash, net: Net, start: nat, p: Progress)
    requires ValidCluster(c)
  {
    && |net.nodes| == |c| && start <= |net.sent| && net.crashed == {}
    && (forall k :: k in net.consumed ==> k < start)
    && (forall i :: 0 <= i < |c| ==> At(c[i], v, net.nodes[i], p.stage))
    && AreBlocks(c, v, net.sent[start..], p.ts)
  }

  /** The first block is delivered to the first `d` nodes, whose answers are appended. */
  ghost predicate Midway(c: Cluster, v: Hash, before: Net, net: Net, start: nat, d: nat, stage: Stage, t: MsgType)
    requires ValidCluster(c) && Expects(stage, t)
  {
    && d <= |c| == |net.nodes| && net.crashed == {} && before.sent <= net.sent
    && (forall k :: k in net.consumed ==> k < start + d)
    && (forall i :: 0 <= i < d ==> At(c[i], v, net.nodes[i], NextStage(stage, t)))
    && (forall i :: d <= i < |c| ==> At(c[i], v, net.nodes[i], stage))
    && AreBlocks(c, v, net.sent[|before.sent|..], Times(Answer(|c|, stage, t), d))
  }

  lemma {:induction false} Hears(cfg: Config, v: Hash, s: State, stage: Stage, cm: ConsensusMsg, t: MsgType)
    requires ValidConfig(cfg) && |v.bytes| == 32 && Expects(stage, t)
    requires IsVote(cfg, cm, t, v) && At(cfg, v, s, stage)
    ensures var step := Handle(cfg, s, cm);
            && At(cfg, v, step.state, NextStage(stage, t))
            && Answers(cfg, step.outcome, Answer(cfg.nodes, stage, t), v)
  {
    if stage.Fresh? {
      HearsProposal(cfg, v, cm);
    } else if t == Prepare {
      HearsPrepare(cfg, v, s, stage, cm, Buffered(cfg, s, cm));
    } else if HasDecided(s) {
      HearsDecided(cfg, v, s, stage, cm);
    } else {
      HearsCommit(cfg, v, s, stage, cm, Buffered(cfg, s, cm));
    }
  }

  lemma HeardOne(c: Cluster, v: Hash, net0: Net, net: Net, start: nat, d: nat, stage: Stage, t: MsgType,
                 step: Step, consumed: set<nat>)
    requires ValidCluster(c) && Expects(stage, t) && d < |c| && Midway(c, v, net0, net, start, d, stage, t)
    requires At(c[d], v, step.state, NextStage(stage, t)) && Answers(c[d], step.outcome, Answer(|c|, stage, t), v)
    requires consumed == net.consumed + {start + d}
    ensures Midway(c, v, net0, After(net, d, step, consumed), start, d + 1, stage, t)
  {
    var net' := After(net, d, step, consumed);
    var answer := Answer(|c|, stage, t);
    AnswersAreBlock(c, v, d, step.outcome, answer);
    BlockAdded(c, v, net.sent[|net0.sent|..], answer, d, Copies(step.outcome));
    assert net'.sent[|net0.sent|..] == net.sent[|net0.sent|..] + Copies(step.outcome);
  }

  /** An event by which nothing fails. */
  predicate Benign(event: Event) {
    !event.Lose? && !event.Crash?
  }

  /** `reached` holds of whatever one more such event leads to. */
  ghost predicate Extends(c: Cluster, reached: Net -> bool)
    requires ValidCluster(c)
  {
    forall net, event :: reached(net) && |net.nodes| == |c| && Benign(event) ==> reached(Apply(c, net, event))
  }

  lemma ReachMore(c: Cluster, reached: Net -> bool, net: Net, k: nat, step: Step)
    requires ValidCluster(c) && Extends(c, reached) && reached(net) && |net.nodes| == |c| && net.crashed == {}
    requires k < |net.sent| && k !in net.consumed && net.sent[k].dest < |c|
    requires step == Handle(c[net.sent[k].dest], net.nodes[net.sent[k].dest], net.sent[k].cm)
    ensures reached(After(net, net.sent[k].dest, step, net.consumed + {k}))
  {
    assert Apply(c, net, Deliver(k)) == After(net, net.sent[k].dest, step, net.consumed + {k});
  }

  lemma StepOne(c: Cluster, reached: Net -> bool, v: Hash, net: Net, k: nat, d: nat, stage: Stage, t: MsgType)
    returns (step: Step)
    requires ValidCluster(c) && Extends(c, reached) && |v.bytes| == 32 && Expects(stage, t)
    requires reached(net) && d < |net.nodes| == |c| && net.crashed == {} && At(c[d], v, net.nodes[d], stage)
    requires k < |net.sent| && k !in net.consumed && net.sent[k].dest == d && IsVote(c[d], net.sent[k].cm, t, v)
    ensures reached(After(net, d, step, net.consumed + {k}))
    ensures At(c[d], v, step.state, NextStage(stage, t)) && Answers(c[d], step.outcome, Answer(|c|, stage, t), v)
  {
    step := Handle(c[d], net.nodes[d], net.sent[k].cm);
    Hears(c[d], v, net.nodes[d], stage, net.sent[k].cm, t);
    ReachMore(c, reached, net, k, step);
  }

  /** The next envelope is for node `d`, which is still at the old stage. */
  lemma NextEnvelope(c: Cluster, v: Hash, net0: Net, net: Net, start: nat, d: nat, stage: Stage, t: MsgType)
    requires ValidCluster(c) && Expects(stage, t) && d < |c| && Midway(c, v, net0, net, start, d, stage, t)
    requires start + |c| <= |net0.sent| && IsBlock(c, v, net0.sent[start..start + |c|], t)
    ensures d < |net.nodes| == |c| && net.crashed == {} && At(c[d], v, net.nodes[d], stage)
    ensures start + d < |net.sent| && start + d !in net.consumed
    ensures net.sent[start + d].dest == d && IsVote(c[d], net.sent[start + d].cm, t, v)
  {
    assert net.sent[start + d] == net0.sent[start + d] == net0.sent[start..start + |c|][d];
  }

  lemma {:induction false} DeliverOne(c: Cluster, reached: Net -> bool, v: Hash, net0: Net, net: Net, start: nat,
                                      d: nat, stage: Stage, t: MsgType) returns (net': Net)
    requires ValidCluster(c) && Extends(c, reached) && |v.bytes| == 32 && Expects(stage, t)
    requires start + |c| <= |net0.sent| && IsBlock(c, v, net0.sent[start..start + |c|], t)
    requires d < |c| && reached(net) && Midway(c, v, net0, net, start, d, stage, t)
    ensures reached(net') && Midway(c, v, net0, net', start, d + 1, stage, t)
  {
    NextEnvelope(c, v, net0, net, start, d, stage, t);
    var step := StepOne(c, reached, v, net, start + d, d, stage, t);
    HeardOne(c, v, net0, net, start, d, stage, t, step, net.consumed + {start + d});
    net' := After(net, d, step, net.consumed + {start + d});
  }

  lemma {:induction false} DeliverSome(c: Cluster, reached: Net -> bool, v: Hash, net0: Net, start: nat, d: nat,
                                       stage: Stage, t: MsgType) returns (net: Net)
    requires ValidCluster(c) && Extends(c, reached) && |v.bytes| == 32 && Expects(stage, t)
    requires start + |c| <= |net0.sent| && IsBlock(c, v, net0.sent[start..start + |c|], t)
    requires d <= |c| && reached(net0) && Midway(c, v, net0, net0, start, 0, stage, t)
    ensures reached(net) && Midway(c, v, net0, net, start, d, stage, t)
  {
    if d == 0 {
      net := net0;
    } else {
      net := DeliverSome(c, reached, v, net0, start, d - 1, stage, t);
      net := DeliverOne(c, reached, v, net0, net, start, d - 1, stage, t);
    }
  }

  function OneBlock(n: nat, p: Progress): Progress {
    if p.ts == [] || !Expects(p.stage, p.ts[0]) then p
    else Progress(NextStage(p.stage, p.ts[0]), p.ts[1..] + Times(Answer(n, p.stage, p.ts[0]), n))
  }

  /** Delivering a block takes all nodes to the next stage and appends the blocks of their answers. */
  lemma {:induction false} DeliverBlock(c: Cluster, reached: Net -> bool, v: Hash, net0: Net, start: nat, p: Progress)
    returns (net: Net)
    requires ValidCluster(c) && Extends(c, reached) && |v.bytes| == 32
    requires p.ts != [] && Expects(p.stage, p.ts[0])
    requires reached(net0) && Waiting(c, v, net0, start, p)
    ensures reached(net) && Waiting(c, v, net, start + |c|, OneBlock(|c|, p))
  {
    var rest := net0.sent[start..];
    assert rest[..|c|] == net0.sent[start..start + |c|] && rest[|c|..] == net0.sent[start + |c|..];
    assert net0.sent[|net0.sent|..] == [];
    net := DeliverSome(c, reached, v, net0, start, |c|, p.stage, p.ts[0]);
    var more := net.sent[|net0.sent|..];
    assert net.sent == net0.sent + more;
    assert net.sent[start + |c|..] == rest[|c|..] + more;
    BlocksConcat(c, v, rest[|c|..], p.ts[1..], more, Times(Answer(|c|, p.stage, p.ts[0]), |c|));
  }

  // The whole run

  /** The COMMITs are on their way once a quorum of PREPAREs is delivered. */
  function Undelivered(n: nat, prepares: nat): seq<MsgType>
    requires prepares <= n
  {
    Times(Some(Prepare), n - prepares) + if prepares >= Quorum(n) then Times(Some(Commit), n) else []
  }

  /** After that many blocks of PREPAREs. */
  function Preparing(n: nat, prepares: nat): Progress
    requires prepares <= n
  {
    Progress(Heard(prepares, 0), Undelivered(n, prepares))
  }

  /** After all PREPAREs and that many blocks of COMMITs. */
  function Committing(n: nat, commits: nat): Progress
    requires commits <= n
  {
    Progress(Heard(n, commits), Times(Some(Commit), n - commits))
  }

  lemma FirstBlock(n: nat)
    requires 0 < n
    ensures OneBlock(n, Progress(Fresh, [PrePrepare])) == Preparing(n, 0)
  {
    assert [PrePrepare][1..] + Times(Some(Prepare), n) == Times(Some(Prepare), n);
  }

  lemma PrepareBlock(n: nat, prepares: nat)
    requires prepares < n
    ensures OneBlock(n, Preparing(n, prepares)) == Preparing(n, prepares + 1)
  {
    var ts := Undelivered(n, prepares);
    assert ts[0] == Prepare;
    assert ts[1..] + Times(Answer(n, Heard(prepares, 0), Prepare), n) == Undelivered(n, prepares + 1);
  }

  lemma AllPrepared(n: nat)
    requires 0 < n
    ensures Preparing(n, n) == Committing(n, 0)
  {
  }

  lemma CommitBlock(n: nat, commits: nat)
    requires commits < n
    ensures OneBlock(n, Committing(n, commits)) == Committing(n, commits + 1)
  {
    var ts := Times(Some(Commit), n - commits);
    assert ts[0] == Commit;
    assert ts[1..] + Times(None, n) == Times(Some(Commit), n - commits - 1);
  }

  /** Where a run that delivers in order of sending is after `k` blocks. */
  function Plan(n: nat, k: nat): Progress
    requires k <= 1 + n + n
  {
    if k == 0 then Progress(Fresh, [PrePrepare])
    else if k <= n then Preparing(n, k - 1)
    else Committing(n, k - 1 - n)
  }

  lemma PlanStep(n: nat, k: nat)
    requires 0 < n && k <= n + n
    ensures OneBlock(n, Plan(n, k)) == Plan(n, k + 1)
  {
    if k == 0 {
      FirstBlock(n);
    } else if k <= n {
      PrepareBlock(n, k - 1);
      AllPrepared(n);
    } else {
      CommitBlock(n, k - 1 - n);
    }
  }

  lemma DeliverNext(c: Cluster, reached: Net -> bool, v: Hash, net0: Net, start0: nat, p: Progress)
    returns (net: Net, start: nat)
    requires ValidCluster(c) && Extends(c, reached) && |v.bytes| == 32
    requires reached(net0) && Waiting(c, v, net0, start0, p)
    ensures reached(net) && Waiting(c, v, net, start, OneBlock(|c|, p))
  {
    net, start := net0, start0;
    if p.ts != [] && Expects(p.stage, p.ts[0]) {
      net := DeliverBlock(c, reached, v, net0, start0, p);
      start := start0 + |c|;
    }
  }

  lemma DeliverPlanned(c: Cluster, reached: Net -> bool, v: Hash, net0: Net, start0: nat, k: nat, p: Progress,
                       q: Progress) returns (net: Net, start: nat)
    requires ValidCluster(c) && Extends(c, reached) && |v.bytes| == 32 && k <= |c| + |c|
    requires reached(net0) && Waiting(c, v, net0, start0, p) && p == Plan(|c|, k) && q == Plan(|c|, k + 1)
    ensures reached(net) && Waiting(c, v, net, start, q)
  {
    PlanStep(|c|, k);
    net, start := DeliverNext(c, reached, v, net0, start0, p);
  }

  lemma {:induction false} DeliverBlocks(c: Cluster, reached: Net -> bool, v: Hash, first: Net, k: nat, p: Progress)
    returns (net: Net, start: nat)
    requires ValidCluster(c) && Extends(c, reached) && |v.bytes| == 32 && k <= 1 + |c| + |c| && p == Plan(|c|, k)
    requires reached(first) && Waiting(c, v, first, 0, Progress(Fresh, [PrePrepare]))
    ensures reached(net) && Waiting(c, v, net, start, p)
  {
    if k == 0 {
      net, start := first, 0;
    } else {
      var before := Plan(|c|, k - 1);
      net, start := DeliverBlocks(c, reached, v, first, k - 1, before);
      net, start := DeliverPlanned(c, reached, v, net, start, k - 1, before, p);
    }
  }

  lemma Opens(c: Cluster, reached: Net -> bool) returns (net: Net)
    requires ValidCluster(c) && Extends(c, reached) && reached(Start(c))
    ensures reached(net) && |LeaderHash(c).bytes| == 32
    ensures Waiting(c, LeaderHash(c), net, 0, Progress(Fresh, [PrePrepare]))
  {
    var i, v := Leader(c), LeaderHash(c);
    net := Apply(c, Start(c), Open(i));
    var unsigned := Unsigned(c[i], PrePrepare, 1, Some(v), None, None);
    BroadcastShape(c[i], unsigned, [], Known(InitialState(c[i]).values, Some(v)));
    assert ValidMsg(unsigned);
    assert net.sent[0..][..|c|] == net.sent && net.sent[0..][|c|..] == [];
    assert IsBlock(c, v, net.sent, PrePrepare);
  }

  ghost predicate AllDecided(c: Cluster, net: Net, v: Hash)
    requires ValidCluster(c) && |net.nodes| == |c|
  {
    forall i :: 0 <= i < |c| ==> HasDecided(net.nodes[i]) && Decision(net.nodes[i]) == Some(v)
  }

  lemma AllHeard(c: Cluster, v: Hash, net: Net, start: nat, p: Progress)
    requires ValidCluster(c) && Waiting(c, v, net, start, p) && p.stage == Heard(|c|, |c|)
    ensures AllDecided(c, net, v)
  {
    forall i | 0 <= i < |c|
      ensures HasDecided(net.nodes[i]) && Decision(net.nodes[i]) == Some(v)
    {
      assert At(c[i], v, net.nodes[i], p.stage);
    }
  }

  lemma {:induction false} EveryoneHears(c: Cluster, reached: Net -> bool) returns (net: Net)
    requires ValidCluster(c) && Extends(c, reached) && reached(Start(c))
    ensures reached(net) && |net.nodes| == |c| && AllDecided(c, net, LeaderHash(c))
  {
    var v := LeaderHash(c);
    var first := Opens(c, reached);
    var start;
    net, start := DeliverBlocks(c, reached, v, first, 1 + |c| + |c|, Committing(|c|, |c|));
    AllHeard(c, v, net, start, Committing(|c|, |c|));
  }

  ghost predicate RunsTo(c: Cluster, events: seq<Event>, net: Net)
    requires ValidCluster(c)
  {
    (forall e <- events :: Benign(e)) && Run(c, events) == net
  }

  ghost predicate IsReached(c: Cluster, net: Net)
    requires ValidCluster(c)
  {
    exists events :: RunsTo(c, events, net)
  }

  /** The nets that runs without failures lead to. */
  ghost function Reached(c: Cluster): Net -> bool
    requires ValidCluster(c)
  {
    (net: Net) => IsReached(c, net)
  }

  lemma RunsExtend(c: Cluster)
    requires ValidCluster(c)
    ensures Extends(c, Reached(c)) && Reached(c)(Start(c))
  {
    assert RunsTo(c, [], Start(c));
    forall net, event | Reached(c)(net) && |net.nodes| == |c| && Benign(event)
      ensures Reached(c)(Apply(c, net, event))
    {
      var events :| RunsTo(c, events, net);
      RunOneMore(c, events, event);
      assert RunsTo(c, events + [event], Apply(c, net, event));
    }
  }

  /** Every cluster has a run without failures in which every node decides what the leader of round 1
      proposed: the leader opens the round, and everything sent is delivered in the order it was sent. */
  lemma {:induction false} EveryNodeDecides(c: Cluster)
    requires ValidCluster(c)
    ensures exists events :: (forall e <- events :: Benign(e)) && AllDecided(c, Run(c, events), LeaderHash(c))
  {
    RunsExtend(c);
    var net := EveryoneHears(c, Reached(c));
    var events :| RunsTo(c, events, net);
  }
}
