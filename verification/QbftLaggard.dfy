/** Even when no node is faulty and no message is lost, a slow node can announce its round with more
    PREPAREs than its peers accept. */
module QbftLaggard {
  import opened Wrappers
  import opened QbftMessages
  import opened QbftRules
  import opened QbftLemmas
  import opened QbftNode
  import opened QbftOverflow
  import opened QbftNetwork
  import opened QbftDecides

  // One node

  /** A ROUND-CHANGE of a node that prepared `v` in round 1 on that many PREPAREs. */
  ghost predicate IsAnnounced(cfg: Config, cm: ConsensusMsg, peer: nat, v: Hash, round: nat, votes: nat) {
    && cm.msg.msgType == RoundChange && cm.msg.duty == cfg.duty && cm.msg.peerIdx == peer && cm.msg.round == round
    && cm.msg.preparedRound == 1 && cm.msg.preparedValueHash == v
    && |cm.values| <= 1 && |cm.justification| == votes
    && forall j :: j in cm.justification ==> Hit(Votes(Prepare, 1, Some(v)), j)
  }

  lemma Announces(cfg: Config, s: State, v: Hash, votes: nat, step: Step)
    requires ValidConfig(cfg) && ValidHash(v) && step == Timeout(cfg, s)
    requires s.qCommit == [] && s.round >= 1 && PreparedOn(s, v, votes)
    ensures step.state == s.(round := s.round + 1, dedup := {})
    ensures step.outcome.Sent? && |step.outcome.msgs| == cfg.numPeers
    ensures forall k :: 0 <= k < cfg.numPeers ==>
                          IsAnnounced(cfg, step.outcome.msgs[k], cfg.peer, v, s.round + 1, votes)
  {
  }

  /** An undecided node of round 1 that has not prepared, with that many PREPAREs for `v` in its buffer
      and ROUND-CHANGEs of one peer only. */
  ghost predicate Gathering(s: State, v: Hash, peer: nat, count: nat) {
    && s.qCommit == [] && s.round == 1 && (QuorumPrepares, 1) !in s.dedup
    && |Select(Votes(Prepare, 1, Some(v)), Flatten(s.buffer))| == count
    && forall m :: m in Flatten(s.buffer) && m.msgType == RoundChange ==> m.peerIdx == peer
  }

  lemma AnnouncedCounted(buffer: Buffer, cfg: Config, cm: ConsensusMsg, peer: nat, v: Hash, round: nat, votes: nat)
    requires IsAnnounced(cfg, cm, peer, v, round, votes)
    ensures var q := Votes(Prepare, 1, Some(v));
            |Select(q, Flatten(BufferMessage(buffer, cm)))| == |Select(q, Flatten(buffer))| + votes
            && |Select(q, cm.justification)| == votes
  {
    var q := Votes(Prepare, 1, Some(v));
    var x, y := SelectAfterInsert(q, buffer, cm);
    SelectConcat(q, [cm.msg], cm.justification);
    SelectNone(q, [cm.msg]);
    SelectAll(q, cm.justification);
  }

  /** What it embeds is counted along, and one peer does not move the node. */
  lemma Gathers(cfg: Config, s: State, v: Hash, peer: nat, count: nat, cm: ConsensusMsg, round: nat, step: Step)
    requires Faulty(cfg.nodes) >= 1 && Gathering(s, v, peer, count) && step == Handle(cfg, s, cm)
    requires round > 1 && IsAnnounced(cfg, cm, peer, v, round, Quorum(cfg.nodes))
    ensures Gathering(step.state, v, peer, count + Quorum(cfg.nodes)) && step.outcome == Sent([])
  {
    var next := Buffered(cfg, s, cm);
    AnnouncedCounted(s.buffer, cfg, cm, peer, v, round, Quorum(cfg.nodes));
    BufferContents(s.buffer, cm);
    assert Buffers(cfg, s, cm, next);
    OneSourceMovesNothing(cfg, next, cm.msg, peer);
    HandleBuffers(cfg, s, cm, next);
  }

  /** Its quorum then holds all of them. */
  lemma PreparesLate(cfg: Config, s: State, v: Hash, peer: nat, count: nat, cm: ConsensusMsg, step: Step)
    requires cfg.nodes > 0 && Gathering(s, v, peer, count) && count >= Quorum(cfg.nodes)
    requires IsVote(cfg, cm, Prepare, v) && step == Handle(cfg, s, cm)
    ensures step.state.qCommit == [] && step.state.round == 1 && PreparedOn(step.state, v, count + 1)
  {
    var next := Buffered(cfg, s, cm);
    var votes := Select(Votes(Prepare, 1, Some(v)), Flatten(next.buffer));
    VoteCounted(s.buffer, cm, Prepare, v);
    VoteClassified(cfg, v, cm, Prepare, next, votes);
    assert Buffers(cfg, s, cm, next);
    HandleFires(cfg, s, cm, next, QuorumPrepares, votes);
  }

  // Node 0 hears a quorum of PREPAREs, node 1 none

  lemma ReachExpire(c: Cluster, reached: Net -> bool, net: Net, i: nat, step: Step)
    requires ValidCluster(c) && Extends(c, reached) && reached(net) && |net.nodes| == |c| && net.crashed == {}
    requires i < |c| && step == Timeout(c[i], net.nodes[i])
    ensures reached(After(net, i, step, net.consumed))
  {
    assert Apply(c, net, Expire(i)) == After(net, i, step, net.consumed);
  }

  /** Node 0 has heard that many PREPAREs, node 1 is as before, and the blocks from `ready` on are
      still to come. */
  ghost predicate Hearing(c: Cluster, v: Hash, base: Net, net: Net, ready: nat, prepares: nat)
    requires ValidCluster(c) && |c| > 1
  {
    && |net.nodes| == |base.nodes| == |c| && net.crashed == {} && base.sent <= net.sent && ready <= |base.sent|
    && prepares <= |c| && (forall k :: k in net.consumed ==> k < ready)
    && At(c[0], v, net.nodes[0], Heard(prepares, 0)) && net.nodes[1] == base.nodes[1]
    && AreBlocks(c, v, base.sent[ready..], Times(Some(Prepare), |c| - prepares))
  }

  lemma NextBlock(c: Cluster, v: Hash, base: Net, net: Net, ready: nat, prepares: nat)
    requires ValidCluster(c) && |c| > 1 && Hearing(c, v, base, net, ready, prepares) && prepares < |c|
    ensures ready + |c| <= |base.sent|
    ensures forall d :: 0 <= d < |c| ==>
              base.sent[ready + d].dest == d && IsVote(c[d], base.sent[ready + d].cm, Prepare, v)
    ensures AreBlocks(c, v, base.sent[ready + |c|..], Times(Some(Prepare), |c| - prepares - 1))
  {
    var rest, ts := base.sent[ready..], Times(Some(Prepare), |c| - prepares);
    assert ts[1..] == Times(Some(Prepare), |c| - prepares - 1);
    assert rest[|c|..] == base.sent[ready + |c|..];
    forall d | 0 <= d < |c|
      ensures base.sent[ready + d].dest == d && IsVote(c[d], base.sent[ready + d].cm, Prepare, v)
    {
      assert rest[..|c|][d] == base.sent[ready + d];
    }
  }

  lemma {:induction false} HearsOne(c: Cluster, reached: Net -> bool, v: Hash, base: Net, net0: Net, ready: nat,
                                    prepares: nat) returns (net: Net)
    requires ValidCluster(c) && Extends(c, reached) && |v.bytes| == 32 && |c| > 1
    requires reached(net0) && Hearing(c, v, base, net0, ready, prepares) && prepares < |c|
    ensures reached(net) && Hearing(c, v, base, net, ready + |c|, prepares + 1)
  {
    NextBlock(c, v, base, net0, ready, prepares);
    assert net0.sent[ready + 0] == base.sent[ready + 0];
    var step := StepOne(c, reached, v, net0, ready, 0, Heard(prepares, 0), Prepare);
    net := After(net0, 0, step, net0.consumed + {ready});
  }

  lemma {:induction false} HearsSome(c: Cluster, reached: Net -> bool, v: Hash, base: Net, start: nat, prepares: nat)
    returns (net: Net, ready: nat)
    requires ValidCluster(c) && Extends(c, reached) && |v.bytes| == 32 && |c| > 1 && prepares <= |c|
    requires reached(base) && Hearing(c, v, base, base, start, 0)
    ensures reached(net) && Hearing(c, v, base, net, ready, prepares)
  {
    if prepares == 0 {
      net, ready := base, start;
    } else {
      net, ready := HearsSome(c, reached, v, base, start, prepares - 1);
      net := HearsOne(c, reached, v, base, net, ready, prepares - 1);
      ready := ready + |c|;
    }
  }

  // Node 0 times out again and again, and node 1 hears it

  ghost predicate Lagging(c: Cluster, v: Hash, base: Net, net: Net, ready: nat, count: nat)
    requires ValidCluster(c) && |c| > 1
  {
    && |net.nodes| == |c| && net.crashed == {} && base.sent <= net.sent && ready <= |base.sent|
    && (forall k :: k in net.consumed ==> k < ready || |base.sent| <= k < |net.sent|)
    && net.nodes[0].qCommit == [] && net.nodes[0].round >= 1 && PreparedOn(net.nodes[0], v, Quorum(|c|))
    && Gathering(net.nodes[1], v, 0, count)
  }

  lemma {:induction false} Expires(c: Cluster, reached: Net -> bool, v: Hash, base: Net, net0: Net, ready: nat,
                                   count: nat) returns (net: Net, round: nat)
    requires ValidCluster(c) && Extends(c, reached) && ValidHash(v) && |c| > 1
    requires reached(net0) && Lagging(c, v, base, net0, ready, count)
    ensures reached(net) && Lagging(c, v, base, net, ready, count) && round > 1 && net.consumed == net0.consumed
    ensures |net.sent| == |net0.sent| + |c| && net.sent[|net0.sent| + 1].dest == 1
    ensures IsAnnounced(c[1], net.sent[|net0.sent| + 1].cm, 0, v, round, Quorum(|c|))
    ensures forall k :: k in net.consumed ==> k < |net0.sent|
  {
    var step := Timeout(c[0], net0.nodes[0]);
    Announces(c[0], net0.nodes[0], v, Quorum(|c|), step);
    ReachExpire(c, reached, net0, 0, step);
    net, round := After(net0, 0, step, net0.consumed), net0.nodes[0].round + 1;
    assert net.sent[|net0.sent| + 1] == Copies(step.outcome)[1];
  }

  lemma {:induction false} Lap(c: Cluster, reached: Net -> bool, v: Hash, base: Net, net0: Net, ready: nat, count: nat)
    returns (net: Net)
    requires ValidCluster(c) && Extends(c, reached) && ValidHash(v) && Faulty(|c|) >= 1
    requires reached(net0) && Lagging(c, v, base, net0, ready, count)
    ensures reached(net) && Lagging(c, v, base, net, ready, count + Quorum(|c|))
  {
    var k := |net0.sent| + 1;
    var expired, round := Expires(c, reached, v, base, net0, ready, count);
    var step := Handle(c[1], expired.nodes[1], expired.sent[k].cm);
    Gathers(c[1], expired.nodes[1], v, 0, count, expired.sent[k].cm, round, step);
    ReachMore(c, reached, expired, k, step);
    net := After(expired, 1, step, expired.consumed + {k});
  }

  /** Some ROUND-CHANGE is on the wire that every node rejects for its size. */
  ghost predicate RoundChangeOverflows(c: Cluster, net: Net)
    requires |c| > 0
  {
    exists k :: 0 <= k < |net.sent| && Overflows(c[0], Some(net.sent[k].cm), RoundChange)
  }

  /** Node 1 prepares on the PREPARE from `ready` on, and times out. */
  lemma {:induction false} LastLap(c: Cluster, reached: Net -> bool, v: Hash, base: Net, net0: Net, ready: nat,
                                   count: nat) returns (net: Net)
    requires ValidCluster(c) && Extends(c, reached) && ValidHash(v) && |c| > 1
    requires reached(net0) && Lagging(c, v, base, net0, ready, count) && count >= 2 * |c| && count >= Quorum(|c|)
    requires ready + |c| <= |base.sent| && base.sent[ready + 1].dest == 1
    requires IsVote(c[1], base.sent[ready + 1].cm, Prepare, v)
    ensures reached(net) && RoundChangeOverflows(c, net)
  {
    var k := ready + 1;
    assert net0.sent[k] == base.sent[k];
    var step := Handle(c[1], net0.nodes[1], net0.sent[k].cm);
    PreparesLate(c[1], net0.nodes[1], v, 0, count, net0.sent[k].cm, step);
    ReachMore(c, reached, net0, k, step);
    var prepared := After(net0, 1, step, net0.consumed + {k});
    var last := Timeout(c[1], prepared.nodes[1]);
    Announces(c[1], prepared.nodes[1], v, count + 1, last);
    ReachExpire(c, reached, prepared, 1, last);
    net := After(prepared, 1, last, prepared.consumed);
    assert net.sent[|prepared.sent|] == Copies(last.outcome)[0];
  }

  lemma StartsHearing(c: Cluster, v: Hash, base: Net, start: nat)
    requires ValidCluster(c) && |c| > 1 && Waiting(c, v, base, start, Preparing(|c|, 0))
    ensures Hearing(c, v, base, base, start, 0) && Gathering(base.nodes[1], v, 0, 0)
  {
    assert Undelivered(|c|, 0) == Times(Some(Prepare), |c|);
    assert At(c[0], v, base.nodes[0], Heard(0, 0)) && At(c[1], v, base.nodes[1], Heard(0, 0));
  }

  lemma {:induction false} SlowNode(c: Cluster, reached: Net -> bool) returns (net: Net)
    requires ValidCluster(c) && Extends(c, reached) && reached(Start(c))
    requires Faulty(|c|) >= 1 && ValidHash(LeaderHash(c))
    ensures reached(net) && RoundChangeOverflows(c, net)
  {
    var v, q := LeaderHash(c), Quorum(|c|);
    var first := Opens(c, reached);
    var base, start := DeliverBlocks(c, reached, v, first, 1, Preparing(|c|, 0));
    StartsHearing(c, v, base, start);
    var ready;
    net, ready := HearsSome(c, reached, v, base, start, q);
    NextBlock(c, v, base, net, ready, q);
    net := Lap(c, reached, v, base, net, ready, 0);
    net := Lap(c, reached, v, base, net, ready, q);
    net := Lap(c, reached, v, base, net, ready, q + q);
    net := LastLap(c, reached, v, base, net, ready, q + q + q);
  }

  /** Every cluster that tolerates a fault has a run without failures in which a node
      broadcasts a ROUND-CHANGE that no node accepts: one peer that has prepared times out three times, and
      a node that is still in round 1 counts the PREPAREs embedded in each of its ROUND-CHANGEs. */
  lemma {:induction false} SlowNodeOverflows(c: Cluster)
    requires ValidCluster(c) && Faulty(|c|) >= 1 && LeaderHash(c) != ZERO_HASH
    ensures exists events :: (forall e <- events :: Benign(e)) && RoundChangeOverflows(c, Run(c, events))
  {
    RunsExtend(c);
    var net := SlowNode(c, Reached(c));
    var events :| RunsTo(c, events, net);
  }
}
