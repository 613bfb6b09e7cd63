/** In a cluster whose nodes follow the rules, everything sent is accepted by everyone. */
module QbftAcceptance {
  import opened Wrappers
  import opened QbftMessages
  import opened QbftRules
  import opened QbftLemmas
  import opened QbftNode
  import opened QbftJustification
  import opened QbftEmission
  import opened QbftNetwork
  import opened QbftAgreement

  /** Every node's justification check passes. */
  ghost predicate JustifiedEverywhere(c: Cluster, cm: ConsensusMsg)
    requires ValidCluster(c)
  {
    forall p :: 0 <= p < |c| ==> IsJustified(c[p], cm) == Success(true)
  }

  /** What every message on the wire satisfies. The limits leave out ROUND-CHANGEs, whose justification
      can hold one PREPARE many times. */
  ghost predicate Receivable(c: Cluster, cm: ConsensusMsg)
    requires ValidCluster(c)
  {
    && PureDecided(cm)
    && JustifiedEverywhere(c, cm)
    && (cm.msg.msgType != RoundChange ==> VerifyMsgLimits(cm, |c|) == None)
  }

  ghost predicate AllReceivable(c: Cluster, net: Net)
    requires ValidCluster(c)
  {
    forall k :: 0 <= k < |net.sent| ==> Receivable(c, net.sent[k].cm)
  }

  ghost predicate AllCoherent(c: Cluster, net: Net)
    requires ValidCluster(c)
  {
    |net.nodes| == |c| && forall i :: 0 <= i < |c| ==> CoherentDecision(c[i], net.nodes[i])
  }

  // One step's message

  lemma SourceInCluster(c: Cluster, net: Net, m: Msg)
    requires ValidCluster(c) && NetInv(c, net) && Says(net, m)
    ensures m.peerIdx < |c|
  {
    var k :| 0 <= k < |net.sent| && net.sent[k].cm.msg == m;
    assert EmbedsLegally(c, net, net.sent[k].cm);
  }

  /** Everything held once the envelope is buffered is valid and names a node of the cluster. */
  lemma HeldIsSound(c: Cluster, net: Net, net': Net, i: nat, k: nat, mv: Move, all: seq<Msg>)
    requires ValidCluster(c) && NetInv(c, net) && Moves(c, net, net', i, Some(k), mv)
    requires mv.pre.qCommit == [] && mv.cm.value.msg.msgType != Decided
    requires all == Flatten(BufferMessage(mv.pre.buffer, mv.cm.value))
    ensures AllValid(all) && forall m :: m in all ==> m.peerIdx < |c|
  {
    assert Holds(c, net, i, mv.pre) && EmbedsLegally(c, net, mv.cm.value);
    BufferedValid(c[i], mv.pre, mv.cm.value);
    HeldIsCarried(c, net, net', i, k);
    forall m | m in all
      ensures m.peerIdx < |c|
    {
      SourceInCluster(c, net, m);
    }
  }

  lemma ShapeAccepted(peer: Config, cfg: Config, cm: ConsensusMsg, all: seq<Msg>)
    requires cfg.nodes > 0 && SameInstance(cfg, peer) && AllValid(all)
    requires cm.msg.msgType == PrePrepare && IsLeader(cfg.nodes, cfg.duty, cm.msg.round, cm.msg.peerIdx)
    requires JustifyQuorum(all, cm.msg.round, Quorum(cfg.nodes)) == Some(cm.justification)
    requires cm.msg.valueHash == Some(ProposedHash(cfg, cm.justification))
    ensures IsJustified(peer, cm) == Success(true)
  {
    var key, cands, prepares := JustificationShape(all, cm.msg.round, Quorum(cfg.nodes));
    ProposedHashOfShape(cfg, cm.justification, all, cm.msg.round, key, cands, prepares);
    if UnpreparedQuorum(cm.justification, all, cm.msg.round, Quorum(cfg.nodes)) {
      UnpreparedAccepted(peer, cm, all);
    } else {
      PreparedAccepted(peer, cm, all, key, cands, prepares);
    }
  }

  lemma NobodySaw(net: Net, i: nat, round: nat)
    requires forall m :: Says(net, m) && m.msgType == PrePrepare ==> m.round != round
    ensures !PrePrepareSeen(net, i, round)
  {
    forall k | 0 <= k < |net.sent| && net.sent[k].cm.msg.msgType == PrePrepare
      ensures net.sent[k].cm.msg.round != round
    {
      assert Says(net, net.sent[k].cm.msg);
    }
  }

  lemma SentProposal(c: Cluster, net: Net, net': Net, i: nat, k: nat, mv: Move)
    requires ValidCluster(c) && NetInv(c, net) && Moves(c, net, net', i, Some(k), mv)
    requires mv.sent.Some? && mv.sent.value.msg.msgType == PrePrepare
    ensures JustifiedEverywhere(c, mv.sent.value) && VerifyMsgLimits(mv.sent.value, |c|) == None
  {
    var sent := mv.sent.value;
    var all, round := Flatten(BufferMessage(mv.pre.buffer, mv.cm.value)), sent.msg.round;
    HeldIsSound(c, net, net', i, k, mv, all);
    forall p | 0 <= p < |c|
      ensures IsJustified(c[p], sent) == Success(true)
    {
      ShapeAccepted(c[p], c[i], sent, all);
    }
    NotYetProposed(c, net, net', i, Some(k), mv);
    NobodySaw(net, i, round);
    RoundChangesDistinct(c, net, i, k, round);
    SelectSound(UnpreparedRoundChanges(round), all);
    DistinctWithin(Select(UnpreparedRoundChanges(round), all), |c|);
    JustificationWithin(c[i], all, sent.justification, round);
  }

  lemma SentRoundChange(c: Cluster, net: Net, net': Net, i: nat, cause: Option<nat>, mv: Move)
    requires ValidCluster(c) && NetInv(c, net) && Moves(c, net, net', i, cause, mv)
    requires mv.sent.Some? && mv.sent.value.msg.msgType == RoundChange
    ensures JustifiedEverywhere(c, mv.sent.value)
  {
    var cm := mv.sent.value;
    assert Holds(c, net, i, mv.pre);
    if mv.pre.preparedRound.Some? {
      SelectAll(Votes(Prepare, cm.msg.preparedRound, Some(cm.msg.preparedValueHash)), cm.justification);
    }
  }

  lemma CommitsWithin(c: Cluster, net: Net, ms: seq<Msg>)
    requires ValidCluster(c) && NetInv(c, net) && SomeCommitQuorum(c, net, ms)
    ensures |ms| <= |c|
  {
    var r, h :| CommitQuorum(c, net, ms, r, h);
    forall m | m in ms
      ensures m.peerIdx < |c|
    {
      SourceInCluster(c, net, m);
    }
    DistinctWithin(ms, |c|);
  }

  lemma PureIsJustified(cfg: Config, cm: ConsensusMsg)
    requires cfg.nodes > 0 && cm.msg.msgType == Decided && PureDecided(cm)
    requires |cm.justification| >= Quorum(cfg.nodes)
    ensures IsJustified(cfg, cm) == Success(true)
  {
    SelectAll(Votes(Commit, cm.msg.round, cm.msg.valueHash), cm.justification);
  }

  /** A DECIDED resends a coherent commit quorum. */
  lemma ResendIsPure(cfg: Config, mv: Move)
    requires cfg.nodes > 0 && Legal(cfg, mv) && CoherentDecision(cfg, mv.pre)
    requires mv.sent.Some? && mv.sent.value.msg.msgType == Decided
    ensures PureDecided(mv.sent.value) && mv.pre.qCommit != [] && mv.sent.value.justification == mv.pre.qCommit
    ensures |mv.sent.value.justification| >= Quorum(cfg.nodes) && |mv.sent.value.values| <= 1
  {
  }

  lemma {:induction false} QuorumHeld(c: Cluster, net: Net, i: nat)
    requires ValidCluster(c) && NetInv(c, net) && i < |c| && net.nodes[i].qCommit != []
    ensures |net.nodes[i].qCommit| <= |c|
  {
    assert Holds(c, net, i, net.nodes[i]);
    CommitsWithin(c, net, net.nodes[i].qCommit);
  }

  lemma {:induction false} PureIsReceivable(c: Cluster, cm: ConsensusMsg)
    requires ValidCluster(c) && cm.msg.msgType == Decided && PureDecided(cm)
    requires Quorum(|c|) <= |cm.justification| <= |c| && |cm.values| <= 1
    ensures Receivable(c, cm)
  {
    forall p | 0 <= p < |c|
      ensures IsJustified(c[p], cm) == Success(true)
    {
      PureIsJustified(c[p], cm);
    }
  }

  lemma {:induction false} SentDecided(c: Cluster, net: Net, net': Net, i: nat, cause: Option<nat>, mv: Move)
    requires ValidCluster(c) && NetInv(c, net) && Moves(c, net, net', i, cause, mv)
    requires CoherentDecision(c[i], mv.pre)
    requires mv.sent.Some? && mv.sent.value.msg.msgType == Decided
    ensures Receivable(c, mv.sent.value)
  {
    ResendIsPure(c[i], mv);
    QuorumHeld(c, net, i);
    PureIsReceivable(c, mv.sent.value);
  }

  lemma {:induction false} SentReceivable(c: Cluster, net: Net, net': Net, i: nat, cause: Option<nat>, mv: Move)
    requires ValidCluster(c) && NetInv(c, net) && Moves(c, net, net', i, cause, mv)
    requires CoherentDecision(c[i], mv.pre) && mv.sent.Some?
    ensures Receivable(c, mv.sent.value)
  {
    match mv.sent.value.msg.msgType
    case PrePrepare => SentProposal(c, net, net', i, cause.value, mv);
    case RoundChange => SentRoundChange(c, net, net', i, cause, mv);
    case Decided => SentDecided(c, net, net', i, cause, mv);
    case Prepare =>
    case Commit =>
  }

  // Runs

  lemma CopiesReceivable(c: Cluster, net: Net, net': Net, sent: Option<ConsensusMsg>)
    requires ValidCluster(c) && AllReceivable(c, net) && net'.sent == net.sent + CopiesOf(c, sent)
    requires sent.Some? ==> Receivable(c, sent.value)
    ensures AllReceivable(c, net')
  {
    forall k | 0 <= k < |net'.sent|
      ensures Receivable(c, net'.sent[k].cm)
    {
      if k < |net.sent| {
        assert net'.sent[k] == net.sent[k];
      } else {
        assert net'.sent[k] == CopiesOf(c, sent)[k - |net.sent|];
      }
    }
  }

  lemma StepReceivable(c: Cluster, net: Net, net': Net, i: nat, cause: Option<nat>, mv: Move)
    requires ValidCluster(c) && NetInv(c, net) && AllCoherent(c, net) && AllReceivable(c, net)
    requires Moves(c, net, net', i, cause, mv)
    ensures AllCoherent(c, net') && AllReceivable(c, net')
  {
    if cause.Some? {
      assert Receivable(c, net.sent[cause.value].cm);
    }
    CoherenceKept(c[i], mv);
    if mv.sent.Some? {
      SentReceivable(c, net, net', i, cause, mv);
    }
    CopiesReceivable(c, net, net', mv.sent);
  }

  lemma {:induction false} OpenReceivable(c: Cluster, net: Net, i: nat)
    requires ValidCluster(c) && |net.nodes| == |c| && i < |c| && AllReceivable(c, net)
    ensures AllReceivable(c, Apply(c, net, Open(i)))
  {
    var net' := Apply(c, net, Open(i));
    if net' != net {
      var proposal := c[i].hashValue(c[i].proposal);
      var out := BroadcastMessage(c[i], net.nodes[i].values, PrePrepare, 1, proposal, []);
      BroadcastShape(c[i], Unsigned(c[i], PrePrepare, 1, Some(proposal), None, None), [],
                     Known(net.nodes[i].values, Some(proposal)));
      CopiesMatch(c, i, out);
      CopiesReceivable(c, net, net', SentBy(out));
    }
  }

  lemma ApplyReceivable(c: Cluster, net: Net, event: Event)
    requires ValidCluster(c) && NetInv(c, net) && AllCoherent(c, net) && AllReceivable(c, net)
    ensures var net' := Apply(c, net, event);
            AllCoherent(c, net') && AllReceivable(c, net')
  {
    match event
    case Deliver(k) =>
      if Delivers(c, net, k) {
        var i := net.sent[k].dest;
        DeliverMoves(c, net, k);
        StepReceivable(c, net, Apply(c, net, event), i, Some(k),
                       MoveOf(c, net, i, Some(k), Handle(c[i], net.nodes[i], net.sent[k].cm)));
      }
    case Lose(k) =>
    case Crash(i) =>
    case Expire(i) =>
      if i < |c| && i !in net.crashed {
        ExpireMoves(c, net, i);
        StepReceivable(c, net, Apply(c, net, event), i, None, MoveOf(c, net, i, None, Timeout(c[i], net.nodes[i])));
      }
    case Open(i) =>
      if i < |c| {
        OpenReceivable(c, net, i);
      }
  }

  lemma {:induction false} RunReceivable(c: Cluster, events: seq<Event>)
    requires ValidCluster(c)
    ensures AllCoherent(c, Run(c, events)) && AllReceivable(c, Run(c, events))
  {
    if events != [] {
      var init := events[..|events| - 1];
      RunInv(c, init);
      RunReceivable(c, init);
      ApplyReceivable(c, Run(c, init), events[|events| - 1]);
    }
  }

  /** In every run of the cluster, whatever is sent passes every node's justification check, and all but
      ROUND-CHANGEs are within the limits of every node. */
  lemma {:induction false} SentIsAccepted(c: Cluster, events: seq<Event>, k: nat, p: nat)
    requires ValidCluster(c) && k < |Run(c, events).sent| && p < |c|
    ensures var cm := Run(c, events).sent[k].cm;
            && IsJustified(c[p], cm) == Success(true)
            && (cm.msg.msgType != RoundChange ==> VerifyMsgLimits(cm, c[p].nodes) == None)
  {
    RunReceivable(c, events);
    assert Receivable(c, Run(c, events).sent[k].cm);
  }
}
