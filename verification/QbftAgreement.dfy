/** Agreement: no two nodes of a cluster ever decide different values. */
module QbftAgreement {
  import opened Wrappers
  import opened QbftMessages
  import opened QbftRules
  import opened QbftLemmas
  import opened QbftNode
  import opened QbftJustification
  import opened QbftNetwork

  function CopiesOf(c: Cluster, sent: Option<ConsensusMsg>): seq<Envelope> {
    if sent.None? then [] else seq(|c|, d requires 0 <= d => Envelope(d, sent.value))
  }

  /** One node's step inside the network: on envelope `cause`, or a timeout when there is none. */
  ghost predicate Moves(c: Cluster, net: Net, net': Net, i: nat, cause: Option<nat>, mv: Move)
    requires ValidCluster(c)
  {
    && i < |c|
    && |net.nodes| == |c|
    && mv.pre == net.nodes[i]
    && net'.nodes == net.nodes[i := mv.post]
    && net'.started == net.started
    && (match cause
        case None => mv.cm == None && net'.consumed == net.consumed
        case Some(k) =>
          && k < |net.sent| && k !in net.consumed
          && net.sent[k].dest == i
          && mv.cm == Some(net.sent[k].cm)
          && net'.consumed == net.consumed + {k})
    && net'.sent == net.sent + CopiesOf(c, mv.sent)
    && NodeInv(c[i], mv.post)
    && Legal(c[i], mv)
  }

  lemma SaysMore(c: Cluster, net: Net, net': Net, sent: Option<ConsensusMsg>)
    requires |c| > 0 && net'.sent == net.sent + CopiesOf(c, sent)
    ensures forall m :: Says(net', m) <==> Says(net, m) || (sent.Some? && m == sent.value.msg)
  {
    forall m
      ensures Says(net', m) <==> Says(net, m) || (sent.Some? && m == sent.value.msg)
    {
      if Says(net, m) {
        var k :| 0 <= k < |net.sent| && net.sent[k].cm.msg == m;
        assert net'.sent[k].cm.msg == m;
      }
      if sent.Some? && m == sent.value.msg {
        assert net'.sent[|net.sent|] == CopiesOf(c, sent)[0];
      }
    }
  }

  lemma CommitQuorumKept(c: Cluster, net: Net, net': Net, ms: seq<Msg>)
    requires forall m :: Says(net, m) ==> Says(net', m)
    requires SomeCommitQuorum(c, net, ms)
    ensures SomeCommitQuorum(c, net', ms)
  {
    var r, h :| CommitQuorum(c, net, ms, r, h);
    assert CommitQuorum(c, net', ms, r, h);
  }

  /** What was legal to embed stays so as more is said. */
  lemma LegalKept(c: Cluster, net: Net, net': Net, cm: ConsensusMsg)
    requires forall m :: Says(net, m) ==> Says(net', m)
    requires EmbedsLegally(c, net, cm)
    ensures EmbedsLegally(c, net', cm)
  {
    if cm.msg.msgType == Decided {
      CommitQuorumKept(c, net, net', cm.justification);
    }
  }

  lemma CarriedIsSaid(c: Cluster, net: Net, i: nat, m: Msg)
    requires |c| > 0 && Authentic(c, net) && Carried(net, i, m)
    ensures Says(net, m)
  {
    var k :| k in net.consumed && 0 <= k < |net.sent| && Carries(net.sent[k], i, m);
    assert EmbedsLegally(c, net, net.sent[k].cm);
  }

  // What an undecided node holds once it has buffered an envelope

  /** Envelope `k` reaches the undecided node `i`. */
  ghost predicate Arrives(c: Cluster, net: Net, i: nat, k: nat)
    requires ValidCluster(c)
  {
    && NetInv(c, net)
    && i < |c| && !HasDecided(net.nodes[i])
    && k < |net.sent| && k !in net.consumed && net.sent[k].dest == i
    && net.sent[k].cm.msg.msgType != Decided
  }

  lemma CarriedStays(net: Net, net': Net, i: nat, m: Msg)
    requires Carried(net, i, m) && net.sent <= net'.sent && net.consumed <= net'.consumed
    ensures Carried(net', i, m)
  {
    var l :| l in net.consumed && 0 <= l < |net.sent| && Carries(net.sent[l], i, m);
    assert net'.sent[l] == net.sent[l];
  }

  lemma ArrivedIsCarried(c: Cluster, net: Net, net': Net, i: nat, k: nat, m: Msg)
    requires |c| > 0 && Authentic(c, net) && net.sent <= net'.sent
    requires k < |net.sent| && k in net'.consumed && net.sent[k].dest == i
    requires m in [net.sent[k].cm.msg] + net.sent[k].cm.justification && net.sent[k].cm.msg.msgType != Decided
    ensures Carried(net', i, m) && Says(net, m)
  {
    assert net'.sent[k] == net.sent[k] && Carries(net'.sent[k], i, m);
    assert EmbedsLegally(c, net, net.sent[k].cm);
  }

  lemma HeldIsCarried(c: Cluster, net: Net, net': Net, i: nat, k: nat)
    requires ValidCluster(c) && Arrives(c, net, i, k)
    requires net.sent <= net'.sent && net'.consumed == net.consumed + {k}
    ensures forall m :: m in Flatten(BufferMessage(net.nodes[i].buffer, net.sent[k].cm)) ==> Carried(net', i, m)
    ensures forall m :: m in Flatten(BufferMessage(net.nodes[i].buffer, net.sent[k].cm)) ==> Says(net, m)
  {
    var b, cm := net.nodes[i].buffer, net.sent[k].cm;
    assert Holds(c, net, i, net.nodes[i]);
    BufferContents(b, cm);
    forall m | m in Flatten(BufferMessage(b, cm))
      ensures Carried(net', i, m) && Says(net, m)
    {
      if m in Flatten(b) {
        CarriedIsSaid(c, net, i, m);
        CarriedStays(net, net', i, m);
      } else {
        ArrivedIsCarried(c, net, net', i, k, m);
      }
    }
  }

  /** A COMMIT, or a ROUND-CHANGE of a round not yet proposed, only ever travels as itself. */
  lemma CarriedDirectly(c: Cluster, net: Net, i: nat, m: Msg) returns (l: nat)
    requires |c| > 0 && Authentic(c, net) && Carried(net, i, m)
    requires m.msgType == Commit || (m.msgType == RoundChange && !PrePrepareSeen(net, i, m.round))
    ensures l in net.consumed && l < |net.sent| && net.sent[l].dest == i && net.sent[l].cm.msg == m
  {
    l :| l in net.consumed && 0 <= l < |net.sent| && Carries(net.sent[l], i, m);
    assert EmbedsLegally(c, net, net.sent[l].cm);
  }

  lemma NeverSame(net: Net, k: nat, l: nat)
    requires UniqueSends(net) && k < |net.sent| && l < |net.sent| && k != l
    ensures !Same(net.sent[k], net.sent[l])
  {
    if l < k {
      assert !Same(net.sent[l], net.sent[k]);
    }
  }

  lemma {:induction false} FirstFromSource(c: Cluster, net: Net, i: nat, k: nat, m: Msg)
    requires ValidCluster(c) && Arrives(c, net, i, k)
    requires m in Flatten(net.nodes[i].buffer)
    requires var own := net.sent[k].cm.msg;
             m.msgType == own.msgType && m.round == own.round
    requires m.msgType == Commit || (m.msgType == RoundChange && !PrePrepareSeen(net, i, m.round))
    ensures m.peerIdx != net.sent[k].cm.msg.peerIdx
  {
    assert Holds(c, net, i, net.nodes[i]);
    var l := CarriedDirectly(c, net, i, m);
    NeverSame(net, k, l);
  }

  lemma CommitsDistinct(c: Cluster, net: Net, i: nat, k: nat, r: nat, h: Option<Hash>)
    requires ValidCluster(c) && Arrives(c, net, i, k)
    ensures DistinctPeers(Select(Votes(Commit, r, h), Flatten(BufferMessage(net.nodes[i].buffer, net.sent[k].cm))))
  {
    var q, b, cm := Votes(Commit, r, h), net.nodes[i].buffer, net.sent[k].cm;
    assert Holds(c, net, i, net.nodes[i]) && EmbedsLegally(c, net, cm);
    if Hit(q, cm.msg) {
      forall m | m in Flatten(b) && Hit(q, m)
        ensures m.peerIdx != cm.msg.peerIdx
      {
        FirstFromSource(c, net, i, k, m);
      }
    }
    DistinctAfterInsert(q, b, cm);
  }

  lemma EmbedsNoRoundChange(c: Cluster, net: Net, cm: ConsensusMsg, r: nat)
    requires |c| > 0 && EmbedsLegally(c, net, cm) && cm.msg.msgType != Decided
    requires cm.msg.msgType == PrePrepare ==> cm.msg.round != r
    ensures forall j :: j in cm.justification ==> !Hit(UnpreparedRoundChanges(r), j)
  {
  }

  lemma RoundChangesDistinct(c: Cluster, net: Net, i: nat, k: nat, r: nat)
    requires ValidCluster(c) && Arrives(c, net, i, k)
    requires !PrePrepareSeen(net, i, r)
    requires net.sent[k].cm.msg.msgType == PrePrepare ==> net.sent[k].cm.msg.round != r
    ensures DistinctPeers(
              Select(UnpreparedRoundChanges(r), Flatten(BufferMessage(net.nodes[i].buffer, net.sent[k].cm))))
  {
    var q, b, cm := UnpreparedRoundChanges(r), net.nodes[i].buffer, net.sent[k].cm;
    assert Holds(c, net, i, net.nodes[i]);
    EmbedsNoRoundChange(c, net, cm, r);
    if Hit(q, cm.msg) {
      forall m | m in Flatten(b) && Hit(q, m)
        ensures m.peerIdx != cm.msg.peerIdx
      {
        FirstFromSource(c, net, i, k, m);
      }
    }
    DistinctAfterInsert(q, b, cm);
  }

  // A new proposal is safe

  /** What a node that has announced round `r'` can still have committed before it. */
  lemma AnnouncedIsPast(c: Cluster, net: Net, rc: Msg, r: nat, h: Option<Hash>)
    requires ValidCluster(c) && NetInv(c, net)
    requires Says(net, rc) && rc.msgType == RoundChange && r < rc.round
    ensures rc.peerIdx < |c| && rc.preparedRound < rc.round && rc.round >= 2
    ensures Past(net, rc.peerIdx, r)
    ensures CommitSaid(net, rc.peerIdx, r, h) ==> r <= rc.preparedRound
  {
    var k :| 0 <= k < |net.sent| && net.sent[k].cm.msg == rc;
    assert EmbedsLegally(c, net, net.sent[k].cm);
    assert Holds(c, net, rc.peerIdx, net.nodes[rc.peerIdx]);
    if CommitSaid(net, rc.peerIdx, r, h) {
      var m :| Says(net, m) && m.peerIdx == rc.peerIdx && Hit(Votes(Commit, r, h), m);
    }
  }

  lemma UnpreparedProposalSafe(c: Cluster, net: Net, js: seq<Msg>, round: nat, r: nat, h: Option<Hash>)
    requires ValidCluster(c) && NetInv(c, net)
    requires |js| >= Quorum(|c|) && DistinctPeers(js)
    requires forall m :: m in js ==> Says(net, m) && Hit(UnpreparedRoundChanges(round), m)
    requires 1 <= r < round
    ensures Blocked(c, net, r, h)
  {
    var q := Peers(js);
    DistinctPeersCount(js);
    forall p | p in q
      ensures p < |c| && Past(net, p, r) && !CommitSaid(net, p, r, h)
    {
      var m :| m in js && m.peerIdx == p;
      AnnouncedIsPast(c, net, m, r, h);
    }
    assert BlockedBy(c, net, r, h, q);
  }

  lemma PrepareWasProposed(c: Cluster, net: Net, m: Msg) returns (p: Msg)
    requires Chained(net) && Says(net, m) && m.msgType == Prepare
    ensures Says(net, p) && Hit(Votes(PrePrepare, m.round, m.valueHash), p)
  {
    p :| Says(net, p) && Hit(Votes(PrePrepare, m.round, m.valueHash), p);
  }

  /** A node prepared no later than `p0` has not committed a rival of `p0` from its round on. */
  lemma CandidateBlocks(c: Cluster, net: Net, m: Msg, p0: Msg, r: nat, h: Option<Hash>)
    requires ValidCluster(c) && NetInv(c, net)
    requires Says(net, m) && m.msgType == RoundChange && m.preparedRound <= p0.round <= r < m.round
    requires Says(net, p0) && p0.msgType == PrePrepare && p0.valueHash != h
    ensures m.peerIdx < |c| && Past(net, m.peerIdx, r) && !CommitSaid(net, m.peerIdx, r, h)
  {
    AnnouncedIsPast(c, net, m, r, h);
    if CommitSaid(net, m.peerIdx, r, h) {
      var p1 := CommitWasProposed(c, net, m.peerIdx, r, h);
    }
  }

  lemma LaterThanPrepared(c: Cluster, net: Net, cands: seq<Msg>, p0: Msg, r: nat, h: Option<Hash>)
    requires ValidCluster(c) && NetInv(c, net)
    requires |cands| >= Quorum(|c|) && DistinctPeers(cands)
    requires forall m :: m in cands ==>
               Says(net, m) && m.msgType == RoundChange && m.preparedRound <= p0.round <= r < m.round
    requires Says(net, p0) && p0.msgType == PrePrepare && p0.valueHash != h
    ensures Blocked(c, net, r, h)
  {
    var q := Peers(cands);
    DistinctPeersCount(cands);
    forall p | p in q
      ensures p < |c| && Past(net, p, r) && !CommitSaid(net, p, r, h)
    {
      var m :| m in cands && m.peerIdx == p;
      CandidateBlocks(c, net, m, p0, r, h);
    }
    assert BlockedBy(c, net, r, h, q);
  }

  lemma PreparedProposalSafe(c: Cluster, net: Net, all: seq<Msg>, js: seq<Msg>, round: nat,
                             key: PreparedKey, cands: seq<Msg>, prepares: seq<Msg>, r: nat, h: Option<Hash>)
    requires ValidCluster(c) && NetInv(c, net)
    requires PreparedQuorum(js, all, round, Quorum(|c|), key, cands, prepares)
    requires forall m :: m in all ==> Says(net, m)
    requires 1 <= r < round && h != Some(key.1)
    ensures Blocked(c, net, r, h)
  {
    SelectSound(RoundChanges(round), all);
    assert prepares[0] in prepares;
    var p0 := PrepareWasProposed(c, net, prepares[0]);
    var rc :| rc in cands && NamesKey(rc, key);
    AnnouncedIsPast(c, net, rc, r, h);
    if r >= key.0 {
      LaterThanPrepared(c, net, cands, p0, r, h);
    }
  }

  /** The proposal a leader makes on a quorum of ROUND-CHANGEs rules out all earlier rivals. */
  lemma {:induction false} ProposalSafe(c: Cluster, net: Net, net': Net, i: nat, k: nat, mv: Move, r: nat,
      h: Option<Hash>)
    requires ValidCluster(c) && NetInv(c, net) && Moves(c, net, net', i, Some(k), mv)
    requires mv.sent.Some? && mv.sent.value.msg.msgType == PrePrepare
    requires 1 <= r < mv.sent.value.msg.round && h != mv.sent.value.msg.valueHash
    requires !PrePrepareSeen(net, i, mv.sent.value.msg.round)
    ensures Blocked(c, net, r, h)
  {
    var cm := net.sent[k].cm;
    var all, round := Flatten(BufferMessage(mv.pre.buffer, cm)), mv.sent.value.msg.round;
    var js := mv.sent.value.justification;
    HeldIsCarried(c, net, net', i, k);
    var key, cands, prepares := JustificationShape(all, round, Quorum(|c|));
    ProposedHashOfShape(c[i], js, all, round, key, cands, prepares);
    if UnpreparedQuorum(js, all, round, Quorum(|c|)) {
      UnpreparedQuorumTally(js, all, round, Quorum(|c|));
      RoundChangesDistinct(c, net, i, k, round);
      UnpreparedProposalSafe(c, net, js, round, r, h);
    } else {
      PreparedProposalSafe(c, net, all, js, round, key, cands, prepares, r, h);
    }
  }

  // Each part of the invariant survives a node's step

  lemma {:induction false} ProposalJustificationSaid(c: Cluster, net: Net, net': Net, i: nat,
      cause: Option<nat>, mv: Move)
    requires ValidCluster(c) && NetInv(c, net) && Moves(c, net, net', i, cause, mv)
    requires mv.sent.Some? && mv.sent.value.msg.msgType == PrePrepare
    ensures forall j :: j in mv.sent.value.justification ==> Says(net, j) && ValidMsg(j)
    ensures forall j :: j in mv.sent.value.justification ==>
                          j.msgType == Prepare || (j.msgType == RoundChange && j.round == mv.sent.value.msg.round)
  {
    var cm, round := mv.cm.value, mv.sent.value.msg.round;
    assert Holds(c, net, i, mv.pre) && EmbedsLegally(c, net, cm);
    HeldIsCarried(c, net, net', i, cause.value);
    BufferedValid(c[i], mv.pre, cm);
    JustificationContents(Flatten(BufferMessage(mv.pre.buffer, cm)), round, Quorum(|c|), mv.sent.value.justification);
  }

  lemma {:induction false} JustificationSaid(c: Cluster, net: Net, net': Net, i: nat, cause: Option<nat>, mv: Move)
    requires ValidCluster(c) && NetInv(c, net) && Moves(c, net, net', i, cause, mv)
    requires mv.sent.Some?
    ensures forall j :: j in mv.sent.value.justification ==> Says(net, j) && ValidMsg(j)
    ensures mv.sent.value.msg.msgType == PrePrepare ==>
              forall j :: j in mv.sent.value.justification ==>
                            j.msgType == Prepare || (j.msgType == RoundChange && j.round == mv.sent.value.msg.round)
  {
    if mv.sent.value.msg.msgType == PrePrepare {
      ProposalJustificationSaid(c, net, net', i, cause, mv);
    } else {
      assert Holds(c, net, i, mv.pre);
      if mv.sent.value.msg.msgType == Decided {
        var r, h :| CommitQuorum(c, net, mv.pre.qCommit, r, h);
      }
    }
  }

  lemma {:induction false} SentIsLegal(c: Cluster, net: Net, net': Net, i: nat, cause: Option<nat>, mv: Move)
    requires ValidCluster(c) && NetInv(c, net) && Moves(c, net, net', i, cause, mv) && mv.sent.Some?
    requires forall m :: Says(net, m) ==> Says(net', m)
    ensures EmbedsLegally(c, net', mv.sent.value)
  {
    JustificationSaid(c, net, net', i, cause, mv);
    assert Holds(c, net, i, mv.pre);
    if mv.sent.value.msg.msgType == Decided {
      CommitQuorumKept(c, net, net', mv.pre.qCommit);
    }
  }

  lemma AuthenticWithCopies(c: Cluster, net: Net, net': Net, sent: Option<ConsensusMsg>)
    requires |c| > 0 && Authentic(c, net) && net'.sent == net.sent + CopiesOf(c, sent)
    requires forall m :: Says(net, m) ==> Says(net', m)
    requires sent.Some? ==> EmbedsLegally(c, net', sent.value)
    ensures Authentic(c, net')
  {
    forall k | 0 <= k < |net'.sent|
      ensures EmbedsLegally(c, net', net'.sent[k].cm)
    {
      if k < |net.sent| {
        LegalKept(c, net, net', net.sent[k].cm);
      } else {
        assert net'.sent[k] == CopiesOf(c, sent)[k - |net.sent|];
      }
    }
  }

  lemma {:induction false} AuthenticKept(c: Cluster, net: Net, net': Net, i: nat, cause: Option<nat>, mv: Move)
    requires ValidCluster(c) && NetInv(c, net) && Moves(c, net, net', i, cause, mv)
    ensures Authentic(c, net')
  {
    SaysMore(c, net, net', mv.sent);
    if mv.sent.Some? {
      SentIsLegal(c, net, net', i, cause, mv);
    }
    AuthenticWithCopies(c, net, net', mv.sent);
  }

  /** A second PRE-PREPARE of the same round cannot arrive. */
  lemma FirstPrePrepare(c: Cluster, net: Net, i: nat, k: nat)
    requires ValidCluster(c) && Authentic(c, net) && UniqueSends(net)
    requires k < |net.sent| && k !in net.consumed && net.sent[k].dest == i && net.sent[k].cm.msg.msgType == PrePrepare
    ensures !PrePrepareSeen(net, i, net.sent[k].cm.msg.round)
  {
    forall l | l in net.consumed && 0 <= l < |net.sent| && net.sent[l].dest == i
               && net.sent[l].cm.msg.msgType == PrePrepare
      ensures net.sent[l].cm.msg.round != net.sent[k].cm.msg.round
    {
      assert EmbedsLegally(c, net, net.sent[k].cm) && EmbedsLegally(c, net, net.sent[l].cm);
      NeverSame(net, k, l);
    }
  }

  lemma RoundChangesAreLate(c: Cluster, net: Net, k: nat)
    requires ValidCluster(c) && NetInv(c, net) && k < |net.sent| && net.sent[k].cm.msg.msgType == RoundChange
    ensures net.sent[k].cm.msg.round >= 2
  {
    var m := net.sent[k].cm.msg;
    assert EmbedsLegally(c, net, net.sent[k].cm) && Says(net, m);
    assert Holds(c, net, m.peerIdx, net.nodes[m.peerIdx]);
    assert Recalls(net, m.peerIdx, net.nodes[m.peerIdx], m);
  }

  /** Whoever has proposed in round `r >= 2` is its leader and will not propose in it again. */
  lemma ProposerRecalls(c: Cluster, net: Net, m: Msg, i: nat)
    requires ValidCluster(c) && NetInv(c, net) && i < |c| && IsLeader(|c|, c[0].duty, m.round, i)
    requires Says(net, m) && m.msgType == PrePrepare
    ensures Recalls(net, i, net.nodes[i], m)
  {
    var l :| 0 <= l < |net.sent| && net.sent[l].cm.msg == m;
    assert EmbedsLegally(c, net, net.sent[l].cm);
    assert Holds(c, net, i, net.nodes[i]);
  }

  /** Nobody has proposed in the round a leader is proposing in, and that round is not the first. */
  lemma {:induction false} NotYetProposed(c: Cluster, net: Net, net': Net, i: nat, cause: Option<nat>, mv: Move)
    requires ValidCluster(c) && NetInv(c, net) && Moves(c, net, net', i, cause, mv)
    requires mv.sent.Some? && mv.sent.value.msg.msgType == PrePrepare
    ensures mv.sent.value.msg.round >= 2
    ensures forall m :: Says(net, m) && m.msgType == PrePrepare ==> m.round != mv.sent.value.msg.round
  {
    RoundChangesAreLate(c, net, cause.value);
    var sent := mv.sent.value.msg;
    assert SendsLegally(c[i], mv);
    forall m | Says(net, m) && m.msgType == PrePrepare
      ensures m.round != sent.round
    {
      if IsLeader(|c|, c[0].duty, m.round, i) {
        ProposerRecalls(c, net, m, i);
      }
    }
  }

  /** A step never repeats something the node has said before. */
  lemma {:induction false} NothingSaidTwice(c: Cluster, net: Net, net': Net, i: nat, cause: Option<nat>, mv: Move)
    requires ValidCluster(c) && NetInv(c, net) && Moves(c, net, net', i, cause, mv)
    requires mv.sent.Some? && mv.sent.value.msg.msgType != Decided
    ensures forall m :: Says(net, m) && m.msgType == mv.sent.value.msg.msgType && m.peerIdx == i ==>
                          m.round != mv.sent.value.msg.round
  {
    assert Holds(c, net, i, mv.pre);
    if mv.sent.value.msg.msgType == PrePrepare {
      NotYetProposed(c, net, net', i, cause, mv);
    } else if mv.sent.value.msg.msgType == Prepare {
      FirstPrePrepare(c, net, i, cause.value);
    }
  }

  lemma {:induction false} UniqueSendsKept(c: Cluster, net: Net, net': Net, i: nat, cause: Option<nat>, mv: Move)
    requires ValidCluster(c) && NetInv(c, net) && Moves(c, net, net', i, cause, mv)
    ensures UniqueSends(net')
  {
    if mv.sent.Some? && mv.sent.value.msg.msgType != Decided {
      NothingSaidTwice(c, net, net', i, cause, mv);
    }
    forall k, l | 0 <= k < l < |net'.sent|
      ensures !Same(net'.sent[k], net'.sent[l])
    {
      if l < |net.sent| {
        assert !Same(net.sent[k], net.sent[l]);
      } else if k < |net.sent| {
        assert Says(net, net.sent[k].cm.msg);
      }
    }
  }

  lemma {:induction false} OneProposalKept(c: Cluster, net: Net, net': Net, i: nat, cause: Option<nat>, mv: Move)
    requires ValidCluster(c) && NetInv(c, net) && Moves(c, net, net', i, cause, mv)
    ensures OnePrePreparePerRound(net')
  {
    SaysMore(c, net, net', mv.sent);
    if mv.sent.Some? && mv.sent.value.msg.msgType == PrePrepare {
      NotYetProposed(c, net, net', i, cause, mv);
    }
  }

  lemma {:induction false} ChainedKept(c: Cluster, net: Net, net': Net, i: nat, cause: Option<nat>, mv: Move)
    requires ValidCluster(c) && NetInv(c, net) && Moves(c, net, net', i, cause, mv)
    ensures Chained(net')
  {
    SaysMore(c, net, net', mv.sent);
    if mv.cm.Some? {
      assert Says(net, mv.cm.value.msg);
    }
  }

  lemma {:induction false} GenuineKept(c: Cluster, net: Net, net': Net, i: nat, cause: Option<nat>, mv: Move)
    requires ValidCluster(c) && NetInv(c, net) && Moves(c, net, net', i, cause, mv)
    ensures ProposalsGenuine(c, net')
  {
    SaysMore(c, net, net', mv.sent);
    if mv.sent.Some? && mv.sent.value.msg.msgType == PrePrepare {
      var all := Flatten(BufferMessage(mv.pre.buffer, mv.cm.value));
      var h := mv.sent.value.msg.valueHash;
      HeldIsCarried(c, net, net', i, cause.value);
      ProposedHashSource(c[i], all, mv.sent.value.msg.round, mv.sent.value.justification);
      if h == Some(c[i].hashValue(c[i].proposal)) {
        assert IsProposal(c, h);
      } else {
        var m :| m in all && m.msgType == Prepare && m.valueHash == h;
        var p := PrepareWasProposed(c, net, m);
      }
    }
  }

  /** A ROUND-CHANGE of this step names the round of every COMMIT before it. */
  lemma NewRoundChangePromises(c: Cluster, net: Net, net': Net, i: nat, cause: Option<nat>, mv: Move, m: Msg)
    requires ValidCluster(c) && NetInv(c, net) && Moves(c, net, net', i, cause, mv)
    requires mv.sent.Some? && mv.sent.value.msg.msgType == RoundChange
    requires Says(net, m) && m.msgType == Commit && m.peerIdx == i
    ensures m.round <= mv.sent.value.msg.preparedRound
  {
    assert Holds(c, net, i, mv.pre);
    assert Recalls(net, i, mv.pre, m);
  }

  /** A COMMIT of this step is not of a round before an announced one. */
  lemma NewCommitPromises(c: Cluster, net: Net, net': Net, i: nat, cause: Option<nat>, mv: Move, rc: Msg)
    requires ValidCluster(c) && NetInv(c, net) && Moves(c, net, net', i, cause, mv)
    requires mv.sent.Some? && mv.sent.value.msg.msgType == Commit
    requires Says(net, rc) && rc.msgType == RoundChange && rc.peerIdx == i
    ensures mv.sent.value.msg.round >= rc.round
  {
    assert Holds(c, net, i, mv.pre);
    assert Recalls(net, i, mv.pre, rc);
  }

  lemma PromisesKept(c: Cluster, net: Net, net': Net, i: nat, cause: Option<nat>, mv: Move)
    requires ValidCluster(c) && NetInv(c, net) && Moves(c, net, net', i, cause, mv)
    ensures Promises(net')
  {
    SaysMore(c, net, net', mv.sent);
    forall rc, m |
      && Says(net', rc) && Says(net', m)
      && rc.msgType == RoundChange && m.msgType == Commit
      && rc.peerIdx == m.peerIdx && m.round < rc.round
      ensures m.round <= rc.preparedRound
    {
      if !Says(net, rc) {
        NewRoundChangePromises(c, net, net', i, cause, mv, m);
      } else if !Says(net, m) {
        NewCommitPromises(c, net, net', i, cause, mv, rc);
      }
    }
  }

  lemma BlockedKept(c: Cluster, net: Net, net': Net, i: nat, cause: Option<nat>, mv: Move, r: nat, h: Option<Hash>)
    requires ValidCluster(c) && NetInv(c, net) && Moves(c, net, net', i, cause, mv)
    requires Blocked(c, net, r, h)
    ensures Blocked(c, net', r, h)
  {
    SaysMore(c, net, net', mv.sent);
    var q :| BlockedBy(c, net, r, h, q);
    forall j | j in q
      ensures j < |c| && Past(net', j, r) && !CommitSaid(net', j, r, h)
    {
      assert Past(net, j, r) && !CommitSaid(net, j, r, h);
      forall m | Says(net', m) && m.peerIdx == j
        ensures !Hit(Votes(Commit, r, h), m)
      {
        if Says(net, m) {
          assert !Hit(Votes(Commit, r, h), m);
        }
      }
    }
    assert BlockedBy(c, net', r, h, q);
  }

  lemma ProposalsSafeKept(c: Cluster, net: Net, net': Net, i: nat, cause: Option<nat>, mv: Move)
    requires ValidCluster(c) && NetInv(c, net) && Moves(c, net, net', i, cause, mv)
    ensures ProposalsSafe(c, net')
  {
    SaysMore(c, net, net', mv.sent);
    forall p, r: nat, h | Says(net', p) && p.msgType == PrePrepare && 1 <= r < p.round && h != p.valueHash
      ensures Blocked(c, net', r, h)
    {
      if Says(net, p) {
        assert Blocked(c, net, r, h);
      } else {
        NotYetProposed(c, net, net', i, cause, mv);
        ProposalSafe(c, net, net', i, cause.value, mv, r, h);
      }
      BlockedKept(c, net, net', i, cause, mv, r, h);
    }
  }

  // Nodes keep what they hold

  lemma SaysKept(net: Net, net': Net)
    requires net.sent <= net'.sent
    ensures forall m :: Says(net, m) ==> Says(net', m)
  {
    forall m | Says(net, m)
      ensures Says(net', m)
    {
      var k :| 0 <= k < |net.sent| && net.sent[k].cm.msg == m;
      assert net'.sent[k] == net.sent[k];
    }
  }

  lemma SeenKept(net: Net, net': Net, j: nat)
    requires net.sent <= net'.sent && net.consumed <= net'.consumed
    ensures forall m :: Carried(net, j, m) ==> Carried(net', j, m)
    ensures forall r :: PrePrepareSeen(net, j, r) ==> PrePrepareSeen(net', j, r)
  {
    assert forall k :: 0 <= k < |net.sent| ==> net'.sent[k] == net.sent[k];
    forall m | Carried(net, j, m)
      ensures Carried(net', j, m)
    {
      var k :| k in net.consumed && 0 <= k < |net.sent| && Carries(net.sent[k], j, m);
      assert Carries(net'.sent[k], j, m);
    }
    forall r | PrePrepareSeen(net, j, r)
      ensures PrePrepareSeen(net', j, r)
    {
      var k :| k in net.consumed && 0 <= k < |net.sent| && net.sent[k].dest == j
               && net.sent[k].cm.msg.msgType == PrePrepare && net.sent[k].cm.msg.round == r;
      assert net'.sent[k].dest == j;
    }
  }

  /** What a node holds survives the network growing around it. */
  lemma HoldsStill(c: Cluster, net: Net, net': Net, j: nat)
    requires ValidCluster(c) && NetInv(c, net) && j < |c|
    requires net.sent <= net'.sent && net.consumed <= net'.consumed && (net.started ==> net'.started)
    requires forall m :: Says(net', m) && m.peerIdx == j ==>
               Says(net, m) || (net'.started && m.msgType == PrePrepare && m.round == 1)
    ensures Holds(c, net', j, net.nodes[j])
  {
    var s := net.nodes[j];
    assert Holds(c, net, j, s);
    SaysKept(net, net');
    SeenKept(net, net', j);
    if HasDecided(s) {
      CommitQuorumKept(c, net, net', s.qCommit);
    }
    assert Remembers(net', j, s);
  }

  lemma RecallsOld(c: Cluster, net: Net, net': Net, i: nat, cause: Option<nat>, mv: Move, m: Msg)
    requires ValidCluster(c) && NetInv(c, net) && Moves(c, net, net', i, cause, mv)
    requires Says(net, m) && m.peerIdx == i
    ensures Recalls(net', i, mv.post, m)
  {
    assert Holds(c, net, i, mv.pre);
    assert Recalls(net, i, mv.pre, m);
    SeenKept(net, net', i);
  }

  lemma RecallsNew(c: Cluster, net: Net, net': Net, i: nat, cause: Option<nat>, mv: Move)
    requires ValidCluster(c) && NetInv(c, net) && Moves(c, net, net', i, cause, mv)
    requires mv.sent.Some?
    ensures Recalls(net', i, mv.post, mv.sent.value.msg)
  {
    assert Holds(c, net, i, mv.pre);
    if mv.sent.value.msg.msgType == PrePrepare {
      NotYetProposed(c, net, net', i, cause, mv);
    } else if mv.sent.value.msg.msgType == Prepare {
      assert net'.sent[cause.value] == net.sent[cause.value];
      assert PrePrepareSeen(net', i, mv.sent.value.msg.round);
    }
  }

  lemma {:induction false} RemembersNext(c: Cluster, net: Net, net': Net, i: nat, cause: Option<nat>, mv: Move)
    requires ValidCluster(c) && NetInv(c, net) && Moves(c, net, net', i, cause, mv)
    ensures Remembers(net', i, mv.post)
  {
    SaysMore(c, net, net', mv.sent);
    forall m | Says(net', m) && m.peerIdx == i
      ensures Recalls(net', i, mv.post, m)
    {
      if Says(net, m) {
        RecallsOld(c, net, net', i, cause, mv, m);
      } else {
        RecallsNew(c, net, net', i, cause, mv);
      }
    }
  }

  lemma PreparedIsSaid(c: Cluster, net: Net, net': Net, i: nat, cause: Option<nat>, mv: Move)
    requires ValidCluster(c) && NetInv(c, net) && Moves(c, net, net', i, cause, mv)
    ensures forall m :: m in mv.post.preparedJustification ==> m.msgType == Prepare && Says(net', m)
  {
    assert Holds(c, net, i, mv.pre);
    SaysKept(net, net');
    if mv.post.preparedJustification != mv.pre.preparedJustification && mv.pre.qCommit == [] {
      var cm := mv.cm.value;
      HeldIsCarried(c, net, net', i, cause.value);
      SelectSound(Votes(cm.msg.msgType, cm.msg.round, cm.msg.valueHash), Flatten(BufferMessage(mv.pre.buffer, cm)));
    }
  }

  lemma DecisionIsQuorum(c: Cluster, net: Net, net': Net, i: nat, cause: Option<nat>, mv: Move)
    requires ValidCluster(c) && NetInv(c, net) && Moves(c, net, net', i, cause, mv)
    requires HasDecided(mv.post)
    ensures SomeCommitQuorum(c, net', mv.post.qCommit)
  {
    assert Holds(c, net, i, mv.pre);
    SaysKept(net, net');
    if HasDecided(mv.pre) {
      CommitQuorumKept(c, net, net', mv.pre.qCommit);
    } else {
      var cm := mv.cm.value;
      if cm.msg.msgType == Decided {
        assert EmbedsLegally(c, net, cm);
        CommitQuorumKept(c, net, net', cm.justification);
      } else {
        HeldIsCarried(c, net, net', i, cause.value);
        CommitsDistinct(c, net, i, cause.value, cm.msg.round, cm.msg.valueHash);
        SelectSound(Votes(Commit, cm.msg.round, cm.msg.valueHash), Flatten(BufferMessage(mv.pre.buffer, cm)));
        assert CommitQuorum(c, net', mv.post.qCommit, cm.msg.round, cm.msg.valueHash);
      }
    }
  }

  lemma BufferHolds(c: Cluster, net: Net, net': Net, i: nat, cause: Option<nat>, mv: Move)
    requires ValidCluster(c) && NetInv(c, net) && Moves(c, net, net', i, cause, mv)
    requires !HasDecided(mv.post)
    ensures forall m :: m in Flatten(mv.post.buffer) ==> Carried(net', i, m)
    ensures forall r, h :: DistinctPeers(Select(Votes(Commit, r, h), Flatten(mv.post.buffer)))
    ensures forall r :: PrePrepareSeen(net', i, r)
                        || DistinctPeers(Select(UnpreparedRoundChanges(r), Flatten(mv.post.buffer)))
  {
    assert Holds(c, net, i, mv.pre);
    SeenKept(net, net', i);
    if mv.post.buffer != mv.pre.buffer {
      var k := cause.value;
      HeldIsCarried(c, net, net', i, k);
      forall r, h
        ensures DistinctPeers(Select(Votes(Commit, r, h), Flatten(mv.post.buffer)))
      {
        CommitsDistinct(c, net, i, k, r, h);
      }
      forall r
        ensures PrePrepareSeen(net', i, r) || DistinctPeers(Select(UnpreparedRoundChanges(r), Flatten(mv.post.buffer)))
      {
        if !PrePrepareSeen(net', i, r) {
          assert net'.sent[k] == net.sent[k];
          RoundChangesDistinct(c, net, i, k, r);
        }
      }
    }
  }

  lemma StepKeepsInv(c: Cluster, net: Net, net': Net, i: nat, cause: Option<nat>, mv: Move)
    requires ValidCluster(c) && NetInv(c, net) && Moves(c, net, net', i, cause, mv)
    ensures NetInv(c, net')
  {
    AuthenticKept(c, net, net', i, cause, mv);
    UniqueSendsKept(c, net, net', i, cause, mv);
    OneProposalKept(c, net, net', i, cause, mv);
    ChainedKept(c, net, net', i, cause, mv);
    GenuineKept(c, net, net', i, cause, mv);
    PromisesKept(c, net, net', i, cause, mv);
    ProposalsSafeKept(c, net, net', i, cause, mv);
    SaysMore(c, net, net', mv.sent);
    forall j | 0 <= j < |c|
      ensures Holds(c, net', j, net'.nodes[j])
    {
      if j == i {
        RemembersNext(c, net, net', i, cause, mv);
        PreparedIsSaid(c, net, net', i, cause, mv);
        if HasDecided(mv.post) {
          DecisionIsQuorum(c, net, net', i, cause, mv);
        } else {
          BufferHolds(c, net, net', i, cause, mv);
        }
      } else {
        HoldsStill(c, net, net', j);
      }
    }
  }

  // Runs

  lemma StartInv(c: Cluster)
    requires ValidCluster(c)
    ensures NetInv(c, Start(c))
  {
    var net := Start(c);
    forall i | 0 <= i < |c|
      ensures Holds(c, net, i, net.nodes[i])
    {
      assert net.nodes[i] == InitialState(c[i]);
      InitialInv(c[i]);
    }
  }

  lemma CopiesMatch(c: Cluster, i: nat, outcome: Outcome)
    requires ValidCluster(c) && i < |c| && Uniform(c[i], outcome)
    ensures Copies(outcome) == CopiesOf(c, SentBy(outcome))
  {
  }

  /** What the network's step of one node is as a move of it. */
  function MoveOf(c: Cluster, net: Net, i: nat, cause: Option<nat>, step: Step): Move
    requires i < |net.nodes| && (cause.Some? ==> cause.value < |net.sent|)
  {
    Move(net.nodes[i], if cause.Some? then Some(net.sent[cause.value].cm) else None, step.state, SentBy(step.outcome))
  }

  lemma NodeStepMoves(c: Cluster, net: Net, i: nat, cause: Option<nat>, step: Step, consumed: set<nat>)
    requires ValidCluster(c) && |net.nodes| == |c| && i < |c|
    requires cause.Some? ==>
               && cause.value < |net.sent| && cause.value !in net.consumed && net.sent[cause.value].dest == i
               && consumed == net.consumed + {cause.value}
    requires cause.None? ==> consumed == net.consumed
    requires Good(c[i], net.nodes[i], MoveOf(c, net, i, cause, step).cm, step)
    ensures Moves(c, net, After(net, i, step, consumed), i, cause, MoveOf(c, net, i, cause, step))
  {
    CopiesMatch(c, i, step.outcome);
  }

  lemma NodeStepInv(c: Cluster, net: Net, i: nat, cause: Option<nat>, step: Step, consumed: set<nat>)
    requires ValidCluster(c) && NetInv(c, net) && i < |c|
    requires cause.Some? ==> cause.value < |net.sent|
    requires Moves(c, net, After(net, i, step, consumed), i, cause, MoveOf(c, net, i, cause, step))
    ensures NetInv(c, After(net, i, step, consumed))
  {
    StepKeepsInv(c, net, After(net, i, step, consumed), i, cause, MoveOf(c, net, i, cause, step));
  }

  lemma BlockedElsewhere(c: Cluster, net: Net, net': Net, r: nat, h: Option<Hash>)
    requires |net.nodes| == |c| && net'.nodes == net.nodes && Blocked(c, net, r, h)
    requires forall m :: Says(net', m) && m.msgType == Commit ==> Says(net, m)
    ensures Blocked(c, net', r, h)
  {
    var q :| BlockedBy(c, net, r, h, q);
    assert BlockedBy(c, net', r, h, q);
  }

  /** Losing a message or crashing a node changes nothing anyone holds. */
  lemma QuietInv(c: Cluster, net: Net, net': Net)
    requires ValidCluster(c) && NetInv(c, net)
    requires net' == net.(consumed := net'.consumed, crashed := net'.crashed) && net.consumed <= net'.consumed
    ensures NetInv(c, net')
  {
    assert forall m :: Says(net', m) <==> Says(net, m);
    forall k | 0 <= k < |net.sent|
      ensures EmbedsLegally(c, net', net.sent[k].cm)
    {
      assert EmbedsLegally(c, net, net.sent[k].cm);
      if net.sent[k].cm.msg.msgType == Decided {
        CommitQuorumKept(c, net, net', net.sent[k].cm.justification);
      }
    }
    assert UniqueSends(net') by {
      forall k, l | 0 <= k < l < |net.sent|
        ensures !Same(net.sent[k], net.sent[l])
      {
      }
    }
    forall p, r: nat, h | Says(net', p) && p.msgType == PrePrepare && 1 <= r < p.round && h != p.valueHash
      ensures Blocked(c, net', r, h)
    {
      BlockedElsewhere(c, net, net', r, h);
    }
    forall i | 0 <= i < |c|
      ensures Holds(c, net', i, net'.nodes[i])
    {
      HoldsStill(c, net, net', i);
    }
  }

  lemma NothingProposedFirst(c: Cluster, net: Net)
    requires ValidCluster(c) && NetInv(c, net) && !net.started
    ensures forall m :: Says(net, m) && m.msgType == PrePrepare ==> m.round > 1
  {
    forall m | Says(net, m) && m.msgType == PrePrepare
      ensures m.round > 1
    {
      var k :| 0 <= k < |net.sent| && net.sent[k].cm.msg == m;
      assert EmbedsLegally(c, net, net.sent[k].cm);
      assert Holds(c, net, m.peerIdx, net.nodes[m.peerIdx]);
      assert Recalls(net, m.peerIdx, net.nodes[m.peerIdx], m);
    }
  }

  /** The leader of round 1 opens it with its own proposal. */
  ghost predicate OpensRound(c: Cluster, net: Net, net': Net, i: nat, sent: Option<ConsensusMsg>)
    requires |c| > 0
  {
    && i < |c| && !net.started
    && net' == net.(sent := net.sent + CopiesOf(c, sent), started := true)
    && IsLeader(|c|, c[0].duty, 1, i)
    && (sent.Some? ==>
          && ValidMsg(sent.value.msg) && sent.value.justification == []
          && sent.value.msg.msgType == PrePrepare && sent.value.msg.round == 1 && sent.value.msg.peerIdx == i
          && IsProposal(c, sent.value.msg.valueHash))
  }

  lemma {:induction false} OpenedAuthentic(c: Cluster, net: Net, net': Net, i: nat, sent: Option<ConsensusMsg>)
    requires ValidCluster(c) && NetInv(c, net) && OpensRound(c, net, net', i, sent)
    ensures Authentic(c, net')
  {
    SaysMore(c, net, net', sent);
    AuthenticWithCopies(c, net, net', sent);
  }

  lemma OpenedUnique(c: Cluster, net: Net, net': Net, sent: Option<ConsensusMsg>)
    requires |c| > 0 && UniqueSends(net)
    requires forall m :: Says(net, m) && m.msgType == PrePrepare ==> m.round > 1
    requires net'.sent == net.sent + CopiesOf(c, sent)
    requires sent.Some? ==> sent.value.msg.msgType == PrePrepare && sent.value.msg.round == 1
    ensures UniqueSends(net')
  {
    forall k, l | 0 <= k < l < |net'.sent|
      ensures !Same(net'.sent[k], net'.sent[l])
    {
      if l < |net.sent| {
        assert !Same(net.sent[k], net.sent[l]);
      } else if k < |net.sent| {
        assert Says(net, net.sent[k].cm.msg);
      }
    }
  }

  /** Only a PRE-PREPARE is new, and it is the first of its round. */
  lemma OpenedSays(c: Cluster, net: Net, net': Net, i: nat, sent: Option<ConsensusMsg>)
    requires ValidCluster(c) && NetInv(c, net) && OpensRound(c, net, net', i, sent)
    ensures forall m :: Says(net', m) ==> Says(net, m) || (m.msgType == PrePrepare && m.round == 1)
    ensures OnePrePreparePerRound(net') && ProposalsGenuine(c, net')
  {
    SaysMore(c, net, net', sent);
    NothingProposedFirst(c, net);
  }

  lemma OpenedChains(c: Cluster, net: Net, net': Net, i: nat, sent: Option<ConsensusMsg>)
    requires ValidCluster(c) && NetInv(c, net) && OpensRound(c, net, net', i, sent)
    ensures Chained(net') && Promises(net')
  {
    SaysMore(c, net, net', sent);
  }

  lemma OpenedSafe(c: Cluster, net: Net, net': Net, i: nat, sent: Option<ConsensusMsg>)
    requires ValidCluster(c) && NetInv(c, net) && OpensRound(c, net, net', i, sent)
    ensures ProposalsSafe(c, net')
  {
    OpenedSays(c, net, net', i, sent);
    forall p, r: nat, h | Says(net', p) && p.msgType == PrePrepare && 1 <= r < p.round && h != p.valueHash
      ensures Blocked(c, net', r, h)
    {
      assert Says(net, p);
      BlockedElsewhere(c, net, net', r, h);
    }
  }

  lemma OpenedInv(c: Cluster, net: Net, net': Net, i: nat, sent: Option<ConsensusMsg>)
    requires ValidCluster(c) && NetInv(c, net) && OpensRound(c, net, net', i, sent)
    ensures NetInv(c, net')
  {
    NothingProposedFirst(c, net);
    OpenedSays(c, net, net', i, sent);
    OpenedAuthentic(c, net, net', i, sent);
    OpenedUnique(c, net, net', sent);
    OpenedChains(c, net, net', i, sent);
    OpenedSafe(c, net, net', i, sent);
    forall j | 0 <= j < |c|
      ensures Holds(c, net', j, net'.nodes[j])
    {
      HoldsStill(c, net, net', j);
    }
  }

  /** The first round's leader opens it, once. */
  lemma {:induction false} OpenInv(c: Cluster, net: Net, i: nat)
    requires ValidCluster(c) && NetInv(c, net) && i < |c|
    ensures NetInv(c, Apply(c, net, Open(i)))
  {
    var net' := Apply(c, net, Open(i));
    if net' != net {
      var proposal := c[i].hashValue(c[i].proposal);
      var out := BroadcastMessage(c[i], net.nodes[i].values, PrePrepare, 1, proposal, []);
      BroadcastShape(c[i], Unsigned(c[i], PrePrepare, 1, Some(proposal), None, None), [],
                     Known(net.nodes[i].values, Some(proposal)));
      CopiesMatch(c, i, out);
      assert IsProposal(c, Some(proposal));
      OpenedInv(c, net, net', i, SentBy(out));
    }
  }

  /** Envelope `k` is delivered rather than skipped. */
  predicate Delivers(c: Cluster, net: Net, k: nat) {
    k < |net.sent| && k !in net.consumed && net.sent[k].dest < |c| && net.sent[k].dest !in net.crashed
  }

  lemma DeliverMoves(c: Cluster, net: Net, k: nat)
    requires ValidCluster(c) && NetInv(c, net) && Delivers(c, net, k)
    ensures var i := net.sent[k].dest;
            var step := Handle(c[i], net.nodes[i], net.sent[k].cm);
            && Apply(c, net, Deliver(k)) == After(net, i, step, net.consumed + {k})
            && Moves(c, net, Apply(c, net, Deliver(k)), i, Some(k), MoveOf(c, net, i, Some(k), step))
  {
    var i := net.sent[k].dest;
    assert EmbedsLegally(c, net, net.sent[k].cm) && Holds(c, net, i, net.nodes[i]);
    HandleGood(c[i], net.nodes[i], net.sent[k].cm);
    NodeStepMoves(c, net, i, Some(k), Handle(c[i], net.nodes[i], net.sent[k].cm), net.consumed + {k});
  }

  lemma ExpireMoves(c: Cluster, net: Net, i: nat)
    requires ValidCluster(c) && NetInv(c, net) && i < |c| && i !in net.crashed
    ensures var step := Timeout(c[i], net.nodes[i]);
            && Apply(c, net, Expire(i)) == After(net, i, step, net.consumed)
            && Moves(c, net, Apply(c, net, Expire(i)), i, None, MoveOf(c, net, i, None, step))
  {
    assert Holds(c, net, i, net.nodes[i]);
    TimeoutGood(c[i], net.nodes[i]);
    NodeStepMoves(c, net, i, None, Timeout(c[i], net.nodes[i]), net.consumed);
  }

  lemma ApplyInv(c: Cluster, net: Net, event: Event)
    requires ValidCluster(c) && NetInv(c, net)
    ensures NetInv(c, Apply(c, net, event))
  {
    match event
    case Deliver(k) =>
      if Delivers(c, net, k) {
        var i := net.sent[k].dest;
        DeliverMoves(c, net, k);
        NodeStepInv(c, net, i, Some(k), Handle(c[i], net.nodes[i], net.sent[k].cm), net.consumed + {k});
      }
    case Lose(k) => QuietInv(c, net, Apply(c, net, event));
    case Crash(i) => QuietInv(c, net, Apply(c, net, event));
    case Expire(i) =>
      if i < |c| && i !in net.crashed {
        ExpireMoves(c, net, i);
        NodeStepInv(c, net, i, None, Timeout(c[i], net.nodes[i]), net.consumed);
      }
    case Open(i) =>
      if i < |c| {
        OpenInv(c, net, i);
      }
  }

  lemma {:induction false} RunInv(c: Cluster, events: seq<Event>)
    requires ValidCluster(c)
    ensures NetInv(c, Run(c, events))
  {
    if events == [] {
      StartInv(c);
    } else {
      RunInv(c, events[..|events| - 1]);
      ApplyInv(c, Run(c, events[..|events| - 1]), events[|events| - 1]);
    }
  }

  /** Agreement and validity, for every cluster and every run: two nodes that have decided, in
      whatever rounds, decided the same value, and it is the proposal of some node. */
  lemma {:induction false} Agreement(c: Cluster, events: seq<Event>, i: nat, j: nat)
    requires ValidCluster(c) && i < |c| && j < |c|
    ensures var net := Run(c, events);
            HasDecided(net.nodes[i]) && HasDecided(net.nodes[j]) ==>
              Decision(net.nodes[i]) == Decision(net.nodes[j]) && IsProposal(c, Decision(net.nodes[i]))
  {
    RunInv(c, events);
    var net := Run(c, events);
    if HasDecided(net.nodes[i]) && HasDecided(net.nodes[j]) {
      InvImpliesAgreement(c, net, i, j);
      InvImpliesValidity(c, net, i);
    }
  }

  lemma DecidedNodeExpires(c: Cluster, net: Net, j: nat, i: nat)
    requires ValidCluster(c) && NetInv(c, net) && i < |c| && HasDecided(net.nodes[i]) && j < |c|
    ensures Apply(c, net, Expire(j)).nodes[i] == net.nodes[i]
  {
  }

  lemma {:induction false} DecisionStays(c: Cluster, net: Net, event: Event, i: nat)
    requires ValidCluster(c) && NetInv(c, net) && i < |c| && HasDecided(net.nodes[i])
    ensures var pre, post := net.nodes[i], Apply(c, net, event).nodes[i];
            post == pre.(resends := post.resends, values := post.values)
  {
    match event
    case Deliver(k) =>
      if Delivers(c, net, k) {
        DeliverMoves(c, net, k);
      }
    case Expire(j) =>
      if j < |c| {
        DecidedNodeExpires(c, net, j, i);
      }
    case Lose(k) =>
    case Crash(j) =>
    case Open(j) =>
  }

  lemma RunOneMore(c: Cluster, events: seq<Event>, last: Event)
    requires ValidCluster(c)
    ensures Run(c, events + [last]) == Apply(c, Run(c, events), last)
  {
    assert (events + [last])[..|events|] == events;
  }

  /** The decision a node has made, and the round it made it in, are still the later node's. */
  ghost predicate KeepsDecision(node: State, later: State) {
    HasDecided(node) && HasDecided(later) && Decision(later) == Decision(node) && later.round == node.round
  }

  ghost predicate KeepsAfter(c: Cluster, i: nat, node: State, events: seq<Event>)
    requires ValidCluster(c) && i < |c|
  {
    KeepsDecision(node, Run(c, events).nodes[i])
  }

  lemma OneMoreEvent(c: Cluster, i: nat, node: State, events: seq<Event>, last: Event)
    requires ValidCluster(c) && i < |c| && KeepsAfter(c, i, node, events)
    ensures KeepsAfter(c, i, node, events + [last])
  {
    RunInv(c, events);
    DecisionStays(c, Run(c, events), last, i);
    RunOneMore(c, events, last);
  }

  /** What one more event keeps, any more events keep. */
  lemma {:induction false} KeptThroughout(kept: seq<Event> -> bool, events: seq<Event>, more: seq<Event>)
    requires kept(events) && forall es, e :: kept(es) ==> kept(es + [e])
    ensures kept(events + more)
    decreases |more|
  {
    if more == [] {
      assert events + more == events;
    } else {
      var init, last := more[..|more| - 1], more[|more| - 1];
      KeptThroughout(kept, events, init);
      assert (events + init) + [last] == events + more;
    }
  }

  /** A decision is final: no later event of the run changes it. */
  lemma {:induction false} DecisionsAreFinal(c: Cluster, events: seq<Event>, more: seq<Event>, i: nat)
    requires ValidCluster(c) && i < |c| && HasDecided(Run(c, events).nodes[i])
    ensures KeepsDecision(Run(c, events).nodes[i], Run(c, events + more).nodes[i])
  {
    var node := Run(c, events).nodes[i];
    var kept := (es: seq<Event>) => ValidCluster(c) && i < |c| && KeepsAfter(c, i, node, es);
    forall es, e | kept(es)
      ensures kept(es + [e])
    {
      OneMoreEvent(c, i, node, es, e);
    }
    KeptThroughout(kept, events, more);
  }

  /** So nodes agree even when they decide at different times. */
  lemma {:induction false} AgreementOverTime(c: Cluster, events: seq<Event>, more: seq<Event>, i: nat, j: nat)
    requires ValidCluster(c) && i < |c| && j < |c|
    requires HasDecided(Run(c, events).nodes[i]) && HasDecided(Run(c, events + more).nodes[j])
    ensures Decision(Run(c, events).nodes[i]) == Decision(Run(c, events + more).nodes[j])
  {
    DecisionsAreFinal(c, events, more, i);
    Agreement(c, events + more, i, j);
  }
}
