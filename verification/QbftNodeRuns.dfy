/** What one node broadcasts over a whole run, whatever it is sent and whenever it times out. */
module QbftNodeRuns {
  import opened Wrappers
  import opened QbftMessages
  import opened QbftRules
  import opened QbftNode

  datatype Input = Receive(cm: ConsensusMsg) | RoundTimeout

  ghost predicate ValidInput(input: Input) {
    input.Receive? ==> ValidConsensusMsg(input.cm)
  }

  function Next(cfg: Config, s: State, input: Input): Step
    requires cfg.nodes > 0
  {
    match input
    case Receive(cm) => Handle(cfg, s, cm)
    case RoundTimeout => Timeout(cfg, s)
  }

  function StateAfter(cfg: Config, inputs: seq<Input>): State
    requires cfg.nodes > 0
  {
    if inputs == [] then InitialState(cfg)
    else Next(cfg, StateAfter(cfg, inputs[..|inputs| - 1]), inputs[|inputs| - 1]).state
  }

  /** The broadcast made on input `k`, if any. */
  function Broadcasts(cfg: Config, inputs: seq<Input>, k: nat): Option<ConsensusMsg>
    requires cfg.nodes > 0 && k < |inputs|
  {
    SentBy(Next(cfg, StateAfter(cfg, inputs[..k]), inputs[k]).outcome)
  }

  ghost predicate ValidRun(cfg: Config, inputs: seq<Input>) {
    ValidConfig(cfg) && forall k :: 0 <= k < |inputs| ==> ValidInput(inputs[k])
  }

  function Incoming(input: Input): Option<ConsensusMsg> {
    if input.Receive? then Some(input.cm) else None
  }

  lemma {:induction false} NextGood(cfg: Config, s: State, input: Input)
    requires ValidConfig(cfg) && NodeInv(cfg, s) && ValidInput(input)
    ensures Good(cfg, s, Incoming(input), Next(cfg, s, input))
  {
    match input
    case Receive(cm) => HandleGood(cfg, s, cm);
    case RoundTimeout => TimeoutGood(cfg, s);
  }

  /** Every reachable state satisfies the node invariant. */
  lemma {:induction false} ReachableInv(cfg: Config, inputs: seq<Input>)
    requires ValidRun(cfg, inputs)
    ensures NodeInv(cfg, StateAfter(cfg, inputs))
  {
    if inputs == [] {
      InitialInv(cfg);
    } else {
      ReachableInv(cfg, inputs[..|inputs| - 1]);
      NextGood(cfg, StateAfter(cfg, inputs[..|inputs| - 1]), inputs[|inputs| - 1]);
    }
  }

  function MoveAt(cfg: Config, inputs: seq<Input>, k: nat): Move
    requires cfg.nodes > 0 && k < |inputs|
  {
    var s := StateAfter(cfg, inputs[..k]);
    Move(s, Incoming(inputs[k]), Next(cfg, s, inputs[k]).state, Broadcasts(cfg, inputs, k))
  }

  lemma MovesAreLegal(cfg: Config, inputs: seq<Input>, k: nat)
    requires ValidRun(cfg, inputs) && k < |inputs|
    ensures NodeInv(cfg, StateAfter(cfg, inputs[..k]))
    ensures Legal(cfg, MoveAt(cfg, inputs, k))
    ensures StateAfter(cfg, inputs[..k + 1]) == MoveAt(cfg, inputs, k).post
  {
    ReachableInv(cfg, inputs[..k]);
    NextGood(cfg, StateAfter(cfg, inputs[..k]), inputs[k]);
    assert inputs[..k + 1][..k] == inputs[..k];
  }

  lemma OneMoreInput(cfg: Config, inputs: seq<Input>, s: State, input: Input, step: Step)
    requires cfg.nodes > 0 && s == StateAfter(cfg, inputs) && step == Next(cfg, s, input)
    ensures StateAfter(cfg, inputs + [input]) == step.state
    ensures Broadcasts(cfg, inputs + [input], |inputs|) == SentBy(step.outcome)
  {
    assert (inputs + [input])[..|inputs|] == inputs;
  }

  /** Rounds and prepared rounds never decrease before the decision; nothing moves after it. */
  lemma {:induction false} RunsAdvance(cfg: Config, inputs: seq<Input>, k: nat)
    requires ValidRun(cfg, inputs) && k <= |inputs|
    ensures var early, late := StateAfter(cfg, inputs[..k]), StateAfter(cfg, inputs);
            && (early.qCommit != [] ==> late == early.(resends := late.resends, values := late.values))
            && (late.qCommit == [] ==> early.qCommit == [] && early.round <= late.round)
            && (early.preparedRound.Some? ==>
                  late.preparedRound.Some? && early.preparedRound.value <= late.preparedRound.value)
    decreases |inputs|
  {
    if k == |inputs| {
      assert inputs[..k] == inputs;
    } else {
      var n := |inputs| - 1;
      assert inputs[..n][..k] == inputs[..k];
      assert inputs[..n + 1] == inputs;
      RunsAdvance(cfg, inputs[..n], k);
      MovesAreLegal(cfg, inputs, n);
    }
  }

  // At most one COMMIT, ROUND-CHANGE and PRE-PREPARE for any round

  predicate OncePerRound(t: MsgType) {
    t == Commit || t == RoundChange || t == PrePrepare
  }

  /** In state `s` the node can no longer broadcast a message of type `t` for round `r`. */
  ghost predicate Spent(s: State, t: MsgType, r: nat) {
    || s.qCommit != []
    || r < s.round
    || (r == s.round &&
        match t
        case RoundChange => true
        case Commit => (QuorumPrepares, r) in s.dedup
        case PrePrepare => (QuorumRoundChanges, r) in s.dedup
        case Prepare => false
        case Decided => false)
  }

  lemma {:induction false} StaysSpent(cfg: Config, inputs: seq<Input>, k: nat, t: MsgType, r: nat)
    requires ValidRun(cfg, inputs) && k <= |inputs| && Spent(StateAfter(cfg, inputs[..k]), t, r)
    ensures Spent(StateAfter(cfg, inputs), t, r)
    decreases |inputs|
  {
    if k == |inputs| {
      assert inputs[..k] == inputs;
    } else {
      var n := |inputs| - 1;
      assert inputs[..n][..k] == inputs[..k];
      assert inputs[..n + 1] == inputs;
      StaysSpent(cfg, inputs[..n], k, t, r);
      MovesAreLegal(cfg, inputs, n);
    }
  }

  /** Although every round change clears the dedup table, no COMMIT, ROUND-CHANGE or PRE-PREPARE is
      ever broadcast twice for a round. */
  lemma {:induction false} BroadcastOncePerRound(cfg: Config, inputs: seq<Input>, i: nat, j: nat)
    requires ValidRun(cfg, inputs) && i < j < |inputs|
    requires Broadcasts(cfg, inputs, i).Some? && Broadcasts(cfg, inputs, j).Some?
    ensures var a, b := Broadcasts(cfg, inputs, i).value.msg, Broadcasts(cfg, inputs, j).value.msg;
            OncePerRound(a.msgType) && a.msgType == b.msgType ==> a.round != b.round
  {
    var a := Broadcasts(cfg, inputs, i).value.msg;
    MovesAreLegal(cfg, inputs, i);
    MovesAreLegal(cfg, inputs, j);
    if OncePerRound(a.msgType) {
      assert Spent(StateAfter(cfg, inputs[..i + 1]), a.msgType, a.round);
      assert inputs[..j][..i + 1] == inputs[..i + 1];
      StaysSpent(cfg, inputs[..j], i + 1, a.msgType, a.round);
    }
  }

  // PREPAREs: at most two for any round, and two can happen

  predicate IsPrepare(sent: Option<ConsensusMsg>, r: nat) {
    sent.Some? && sent.value.msg.msgType == Prepare && sent.value.msg.round == r
  }

  /** How many PREPAREs for round `r` a run broadcasts. */
  function PreparesFor(cfg: Config, inputs: seq<Input>, r: nat): nat
    requires cfg.nodes > 0
  {
    if inputs == [] then 0
    else
      var n := |inputs| - 1;
      PreparesFor(cfg, inputs[..n], r) + if IsPrepare(Broadcasts(cfg, inputs, n), r) then 1 else 0
  }

  ghost predicate PrepareBudget(s: State, r: nat, count: nat) {
    && count <= 2
    && (s.qCommit == [] ==>
          && (r > s.round ==> count == 0)
          && (r == s.round && (JustifiedPrePrepare, r) !in s.dedup ==> count <= 1))
  }

  lemma BudgetKept(cfg: Config, mv: Move, r: nat, count: nat)
    requires cfg.nodes > 0 && Legal(cfg, mv) && PrepareBudget(mv.pre, r, count)
    ensures PrepareBudget(mv.post, r, count + if IsPrepare(mv.sent, r) then 1 else 0)
  {
  }

  lemma {:induction false} PreparesWithinBudget(cfg: Config, inputs: seq<Input>, r: nat)
    requires ValidRun(cfg, inputs)
    ensures PrepareBudget(StateAfter(cfg, inputs), r, PreparesFor(cfg, inputs, r))
  {
    if inputs != [] {
      var n := |inputs| - 1;
      PreparesWithinBudget(cfg, inputs[..n], r);
      MovesAreLegal(cfg, inputs, n);
      BudgetKept(cfg, MoveAt(cfg, inputs, n), r, PreparesFor(cfg, inputs[..n], r));
      assert inputs[..n + 1] == inputs;
    }
  }

  /** A node broadcasts at most two PREPAREs for any round. */
  lemma {:induction false} AtMostTwoPrepares(cfg: Config, inputs: seq<Input>, r: nat)
    requires ValidRun(cfg, inputs)
    ensures PreparesFor(cfg, inputs, r) <= 2
  {
    PreparesWithinBudget(cfg, inputs, r);
  }

  /** An undecided node answers a justified PRE-PREPARE it has not answered in its round. */
  lemma ProposalAnswered(cfg: Config, s: State, cm: ConsensusMsg)
    requires ValidConfig(cfg) && cfg.numPeers > 0 && s.qCommit == [] && ValidConsensusMsg(cm)
    requires VerifyMsgLimits(cm, cfg.nodes) == None && cm.msg.duty == cfg.duty
    requires IsJustifiedPrePrepare(cfg, cm) == Success(true) && cm.msg.valueHash.Some? && cm.msg.round >= s.round
    requires (JustifiedPrePrepare, s.round) !in s.dedup
    ensures var step := Handle(cfg, s, cm);
            && IsPrepare(SentBy(step.outcome), cm.msg.round)
            && step.state.qCommit == [] && step.state.round == cm.msg.round
            && (cm.msg.round > s.round ==> step.state.dedup == {})
  {
    var next := s.(buffer := BufferMessage(s.buffer, cm), values := StoreValues(cfg, s.values, cm.values));
    HandleFires(cfg, s, cm, next, JustifiedPrePrepare, []);
    var s' := ChangeRound(next.(dedup := s.dedup + {(JustifiedPrePrepare, s.round)}), cm.msg.round);
    BroadcastShape(cfg, Unsigned(cfg, Prepare, s'.round, cm.msg.valueHash, None, None), [],
                   Known(s'.values, cm.msg.valueHash));
  }

  /** A justified PRE-PREPARE that moves an undecided node to a new round is answered again when it
      is delivered again. */
  lemma PrepareTwice(cfg: Config, s: State, cm: ConsensusMsg)
    requires ValidConfig(cfg) && cfg.numPeers > 0 && NodeInv(cfg, s) && ValidConsensusMsg(cm)
    requires s.qCommit == [] && VerifyMsgLimits(cm, cfg.nodes) == None && cm.msg.duty == cfg.duty
    requires IsJustifiedPrePrepare(cfg, cm) == Success(true) && cm.msg.valueHash.Some? && cm.msg.round > s.round
    requires (JustifiedPrePrepare, s.round) !in s.dedup
    ensures var first := Handle(cfg, s, cm);
            var second := Handle(cfg, first.state, cm);
            IsPrepare(SentBy(first.outcome), cm.msg.round) && IsPrepare(SentBy(second.outcome), cm.msg.round)
  {
    ProposalAnswered(cfg, s, cm);
    ProposalAnswered(cfg, Handle(cfg, s, cm).state, cm);
  }
}
