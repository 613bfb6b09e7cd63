/** A cluster of nodes running the rules over an asynchronous network.

    Messages may be lost, delayed, reordered and delivered at most once; nodes may crash; undecided
    nodes time out; and the leader of round 1 opens with one PRE-PREPARE. */
module QbftNetwork {
  import opened Wrappers
  import opened QbftMessages
  import opened QbftRules
  import opened QbftLemmas
  import opened QbftNode

  type Cluster = seq<Config>

  ghost predicate ValidCluster(c: Cluster) {
    && |c| > 0
    && forall i :: 0 <= i < |c| ==>
         && ValidConfig(c[i])
         && c[i].peer == i
         && c[i].nodes == c[i].numPeers == |c|
         && c[i].duty == c[0].duty
  }

  datatype Envelope = Envelope(dest: nat, cm: ConsensusMsg)

  /** `consumed` holds the envelopes delivered or lost, and `started` whether round 1 was started. */
  datatype Net = Net(nodes: seq<State>, sent: seq<Envelope>, consumed: set<nat>, crashed: set<nat>, started: bool)

  datatype Event =
    | Deliver(envelope: nat)
    | Lose(envelope: nat)
    | Crash(node: nat)
    | Expire(node: nat)
    | Open(leader: nat)

  function Copies(outcome: Outcome): seq<Envelope> {
    if outcome.Raised? then []
    else seq(|outcome.msgs|, d requires 0 <= d < |outcome.msgs| => Envelope(d, outcome.msgs[d]))
  }

  function Start(c: Cluster): Net {
    Net(seq(|c|, i requires 0 <= i < |c| => InitialState(c[i])), [], {}, {}, false)
  }

  function After(net: Net, i: nat, step: Step, consumed: set<nat>): Net
    requires i < |net.nodes|
  {
    net.(nodes := net.nodes[i := step.state], sent := net.sent + Copies(step.outcome), consumed := consumed)
  }

  /** One event of the environment; an event that is not enabled changes nothing. */
  function Apply(c: Cluster, net: Net, event: Event): Net
    requires |net.nodes| == |c| && forall i :: 0 <= i < |c| ==> c[i].nodes > 0
  {
    match event
    case Deliver(k) =>
      if k >= |net.sent| || k in net.consumed then net
      else
        var i := net.sent[k].dest;
        if i >= |c| || i in net.crashed then net
        else After(net, i, Handle(c[i], net.nodes[i], net.sent[k].cm), net.consumed + {k})
    case Lose(k) => net.(consumed := net.consumed + {k})
    case Crash(i) => net.(crashed := net.crashed + {i})
    case Expire(i) =>
      if i >= |c| || i in net.crashed then net
      else After(net, i, Timeout(c[i], net.nodes[i]), net.consumed)
    case Open(i) =>
      if i >= |c| || i in net.crashed || net.started || !IsLeader(c[i].nodes, c[i].duty, 1, i) then net
      else
        var proposal := c[i].hashValue(c[i].proposal);
        net.(sent := net.sent + Copies(BroadcastMessage(c[i], net.nodes[i].values, PrePrepare, 1, proposal, [])),
             started := true)
  }

  function Run(c: Cluster, events: seq<Event>): (net: Net)
    requires forall i :: 0 <= i < |c| ==> c[i].nodes > 0
    ensures |net.nodes| == |c|
  {
    if events == [] then Start(c)
    else Apply(c, Run(c, events[..|events| - 1]), events[|events| - 1])
  }

  // What has been said

  /** `m` was broadcast by some node. */
  ghost predicate Says(net: Net, m: Msg) {
    exists k :: 0 <= k < |net.sent| && net.sent[k].cm.msg == m
  }

  predicate HasDecided(s: State) {
    s.qCommit != []
  }

  /** The hash a decided node reports. */
  function Decision(s: State): Option<Hash>
    requires HasDecided(s)
  {
    s.qCommit[0].valueHash
  }

  /** `m` reached the undecided node `i` in envelope `e`, directly or as a justification. */
  ghost predicate Carries(e: Envelope, i: nat, m: Msg) {
    e.dest == i && e.cm.msg.msgType != Decided && (e.cm.msg == m || m in e.cm.justification)
  }

  ghost predicate Carried(net: Net, i: nat, m: Msg) {
    exists k :: k in net.consumed && 0 <= k < |net.sent| && Carries(net.sent[k], i, m)
  }

  /** A PRE-PREPARE of round `r` is among the envelopes consumed at node `i`. */
  ghost predicate PrePrepareSeen(net: Net, i: nat, r: nat) {
    exists k :: k in net.consumed && 0 <= k < |net.sent| && net.sent[k].dest == i
                && net.sent[k].cm.msg.msgType == PrePrepare && net.sent[k].cm.msg.round == r
  }

  /** A quorum of COMMITs for one round and hash, from distinct nodes that all sent them. */
  ghost predicate CommitQuorum(c: Cluster, net: Net, ms: seq<Msg>, r: nat, h: Option<Hash>) {
    && |ms| >= Quorum(|c|)
    && DistinctPeers(ms)
    && forall m :: m in ms ==> Hit(Votes(Commit, r, h), m) && Says(net, m)
  }

  ghost predicate SomeCommitQuorum(c: Cluster, net: Net, ms: seq<Msg>) {
    exists r, h :: CommitQuorum(c, net, ms, r, h)
  }

  // Invariants

  /** Shape of what travels: who signs it, and what each type of message may embed. */
  ghost predicate EmbedsLegally(c: Cluster, net: Net, cm: ConsensusMsg) {
    && ValidConsensusMsg(cm)
    && cm.msg.peerIdx < |c|
    && (forall j :: j in cm.justification ==> Says(net, j))
    && match cm.msg.msgType
       case PrePrepare =>
         && IsLeader(|c|, c[0].duty, cm.msg.round, cm.msg.peerIdx)
         && forall j :: j in cm.justification ==>
              j.msgType == Prepare || (j.msgType == RoundChange && j.round == cm.msg.round)
       case Prepare => cm.justification == []
       case Commit => cm.justification == []
       case RoundChange => forall j :: j in cm.justification ==> j.msgType == Prepare
       case Decided => SomeCommitQuorum(c, net, cm.justification)
  }

  ghost predicate Authentic(c: Cluster, net: Net)
    requires |c| > 0
  {
    forall k :: 0 <= k < |net.sent| ==> EmbedsLegally(c, net, net.sent[k].cm)
  }

  ghost predicate Same(a: Envelope, b: Envelope) {
    && a.dest == b.dest
    && a.cm.msg.msgType == b.cm.msg.msgType != Decided
    && a.cm.msg.peerIdx == b.cm.msg.peerIdx
    && a.cm.msg.round == b.cm.msg.round
  }

  /** Apart from DECIDED, no node sends the same type twice in one round. */
  ghost predicate UniqueSends(net: Net) {
    forall k, l :: 0 <= k < l < |net.sent| ==> !Same(net.sent[k], net.sent[l])
  }

  ghost predicate OnePrePreparePerRound(net: Net) {
    forall a, b :: Says(net, a) && Says(net, b) && a.msgType == b.msgType == PrePrepare && a.round == b.round ==> a == b
  }

  /** Every PREPARE follows a PRE-PREPARE, and every COMMIT a PREPARE, of its round and hash. */
  ghost predicate Chained(net: Net) {
    && (forall m :: Says(net, m) && m.msgType == Prepare ==>
          exists p :: Says(net, p) && Hit(Votes(PrePrepare, m.round, m.valueHash), p))
    && (forall m :: Says(net, m) && m.msgType == Commit ==>
          exists p :: Says(net, p) && Hit(Votes(Prepare, m.round, m.valueHash), p))
  }

  /** Only values some node brought as its own proposal are ever proposed. */
  ghost predicate IsProposal(c: Cluster, h: Option<Hash>) {
    exists i :: 0 <= i < |c| && h == Some(c[i].hashValue(c[i].proposal))
  }

  ghost predicate ProposalsGenuine(c: Cluster, net: Net) {
    forall p :: Says(net, p) && p.msgType == PrePrepare ==> IsProposal(c, p.valueHash)
  }

  /** Having said `m`, node `i` in state `s` cannot say its like again. */
  ghost predicate Recalls(net: Net, i: nat, s: State, m: Msg) {
    match m.msgType
    case PrePrepare =>
      if m.round <= 1 then net.started
      else HasDecided(s) || m.round < s.round || (m.round == s.round && (QuorumRoundChanges, m.round) in s.dedup)
    case Prepare => PrePrepareSeen(net, i, m.round)
    case Commit =>
      && s.preparedRound.Some? && m.round <= s.preparedRound.value
      && (HasDecided(s) || m.round < s.round || (QuorumPrepares, m.round) in s.dedup)
    case RoundChange => m.round >= 2 && m.preparedRound < m.round && (HasDecided(s) || m.round <= s.round)
    case Decided => true
  }

  ghost predicate Remembers(net: Net, i: nat, s: State) {
    forall m :: Says(net, m) && m.peerIdx == i ==> Recalls(net, i, s, m)
  }

  ghost predicate Holds(c: Cluster, net: Net, i: nat, s: State)
    requires i < |c| && c[i].nodes > 0
  {
    && NodeInv(c[i], s)
    && Remembers(net, i, s)
    && (forall m :: m in s.preparedJustification ==> m.msgType == Prepare && Says(net, m))
    && (if HasDecided(s) then SomeCommitQuorum(c, net, s.qCommit)
        else
          && (forall m :: m in Flatten(s.buffer) ==> Carried(net, i, m))
          && (forall r, h :: DistinctPeers(Select(Votes(Commit, r, h), Flatten(s.buffer))))
          && (forall r :: PrePrepareSeen(net, i, r)
                          || DistinctPeers(Select(UnpreparedRoundChanges(r), Flatten(s.buffer)))))
  }

  /** Having announced round `r'`, a node has committed in no round between its prepared round and `r'`. */
  ghost predicate Promises(net: Net) {
    forall rc, m ::
      (&& Says(net, rc) && Says(net, m)
       && rc.msgType == RoundChange && m.msgType == Commit
       && rc.peerIdx == m.peerIdx && m.round < rc.round) ==> m.round <= rc.preparedRound
  }

  /** Node `i` will never commit in round `r` again. */
  ghost predicate Past(net: Net, i: nat, r: nat)
    requires i < |net.nodes|
  {
    HasDecided(net.nodes[i]) || net.nodes[i].round > r
  }

  ghost predicate CommitSaid(net: Net, i: nat, r: nat, h: Option<Hash>) {
    exists m :: Says(net, m) && m.peerIdx == i && Hit(Votes(Commit, r, h), m)
  }

  /** The nodes of `q` have not committed `h` in round `r`, and never will. */
  ghost predicate BlockedBy(c: Cluster, net: Net, r: nat, h: Option<Hash>, q: set<nat>)
    requires |net.nodes| == |c|
  {
    && |q| >= Quorum(|c|)
    && forall i :: i in q ==> i < |c| && Past(net, i, r) && !CommitSaid(net, i, r, h)
  }

  /** No quorum can ever commit `h` in round `r`. */
  ghost predicate Blocked(c: Cluster, net: Net, r: nat, h: Option<Hash>)
    requires |net.nodes| == |c|
  {
    exists q :: BlockedBy(c, net, r, h, q)
  }

  /** A proposal rules out every other value in every earlier round. */
  ghost predicate ProposalsSafe(c: Cluster, net: Net)
    requires |net.nodes| == |c|
  {
    forall p, r, h :: Says(net, p) && p.msgType == PrePrepare && 1 <= r < p.round && h != p.valueHash ==>
      Blocked(c, net, r, h)
  }

  ghost predicate NetInv(c: Cluster, net: Net)
    requires ValidCluster(c)
  {
    && |net.nodes| == |c|
    && Authentic(c, net)
    && UniqueSends(net)
    && OnePrePreparePerRound(net)
    && Chained(net)
    && ProposalsGenuine(c, net)
    && Promises(net)
    && ProposalsSafe(c, net)
    && forall i :: 0 <= i < |c| ==> Holds(c, net, i, net.nodes[i])
  }

  // Agreement follows from the invariant

  lemma {:induction false} CommitQuorumSenders(c: Cluster, net: Net, ms: seq<Msg>, r: nat,
      h: Option<Hash>) returns (q: set<nat>)
    requires ValidCluster(c) && NetInv(c, net) && CommitQuorum(c, net, ms, r, h)
    ensures |q| >= Quorum(|c|)
    ensures forall i :: i in q ==> i < |c| && CommitSaid(net, i, r, h)
  {
    q := Peers(ms);
    DistinctPeersCount(ms);
    forall i | i in q
      ensures i < |c| && CommitSaid(net, i, r, h)
    {
      var m :| m in ms && m.peerIdx == i;
      assert Says(net, m);
    }
  }

  /** A committed value was proposed in its round. */
  lemma {:induction false} CommitWasProposed(c: Cluster, net: Net, i: nat, r: nat, h: Option<Hash>) returns (p: Msg)
    requires ValidCluster(c) && NetInv(c, net) && CommitSaid(net, i, r, h)
    ensures Says(net, p) && Hit(Votes(PrePrepare, r, h), p) && r >= 1
  {
    var m :| Says(net, m) && m.peerIdx == i && Hit(Votes(Commit, r, h), m);
    var prepare :| Says(net, prepare) && Hit(Votes(Prepare, m.round, m.valueHash), prepare);
    p :| Says(net, p) && Hit(Votes(PrePrepare, prepare.round, prepare.valueHash), p);
    var k :| 0 <= k < |net.sent| && net.sent[k].cm.msg == p;
    assert EmbedsLegally(c, net, net.sent[k].cm);
  }

  /** A proposal of round `p2.round` bears the value of any quorum of earlier commits. */
  lemma {:induction false} LaterProposalAgrees(c: Cluster, net: Net, p1: Msg, p2: Msg, q1: set<nat>)
    requires |net.nodes| == |c| > 0 && ProposalsSafe(c, net) && OnePrePreparePerRound(net)
    requires Says(net, p1) && Says(net, p2) && p1.msgType == p2.msgType == PrePrepare
    requires 1 <= p1.round <= p2.round
    requires |q1| >= Quorum(|c|) && forall i :: i in q1 ==> i < |c| && CommitSaid(net, i, p1.round, p1.valueHash)
    ensures p1.valueHash == p2.valueHash
  {
    if p1.round == p2.round {
      assert p1 == p2;
    } else if p1.valueHash != p2.valueHash {
      assert Blocked(c, net, p1.round, p1.valueHash);
      var q :| BlockedBy(c, net, p1.round, p1.valueHash, q);
      QuorumsIntersect(|c|, q, q1);
    }
  }

  lemma {:induction false} QuorumsAgree(c: Cluster, net: Net, r1: nat, h1: Option<Hash>, q1: set<nat>, r2: nat,
      h2: Option<Hash>, q2: set<nat>)
    requires ValidCluster(c) && NetInv(c, net) && r1 <= r2
    requires |q1| >= Quorum(|c|) && forall i :: i in q1 ==> i < |c| && CommitSaid(net, i, r1, h1)
    requires |q2| >= Quorum(|c|) && forall i :: i in q2 ==> i < |c| && CommitSaid(net, i, r2, h2)
    ensures h1 == h2
  {
    var i1 :| i1 in q1;
    var i2 :| i2 in q2;
    var p1 := CommitWasProposed(c, net, i1, r1, h1);
    var p2 := CommitWasProposed(c, net, i2, r2, h2);
    LaterProposalAgrees(c, net, p1, p2, q1);
  }

  /** A decision rests on a quorum of nodes that committed it. */
  lemma {:induction false} DecisionQuorum(c: Cluster, net: Net, i: nat) returns (r: nat, h: Option<Hash>, q: set<nat>)
    requires ValidCluster(c) && NetInv(c, net) && i < |c| && HasDecided(net.nodes[i])
    ensures Decision(net.nodes[i]) == h
    ensures |q| >= Quorum(|c|) && forall k :: k in q ==> k < |c| && CommitSaid(net, k, r, h)
  {
    assert Holds(c, net, i, net.nodes[i]);
    var ms := net.nodes[i].qCommit;
    r, h :| CommitQuorum(c, net, ms, r, h);
    assert ms[0] in ms;
    q := CommitQuorumSenders(c, net, ms, r, h);
  }

  lemma {:induction false} InvImpliesAgreement(c: Cluster, net: Net, i: nat, j: nat)
    requires ValidCluster(c) && NetInv(c, net) && i < |c| && j < |c|
    requires HasDecided(net.nodes[i]) && HasDecided(net.nodes[j])
    ensures Decision(net.nodes[i]) == Decision(net.nodes[j])
  {
    var r1, h1, q1 := DecisionQuorum(c, net, i);
    var r2, h2, q2 := DecisionQuorum(c, net, j);
    if r1 <= r2 {
      QuorumsAgree(c, net, r1, h1, q1, r2, h2, q2);
    } else {
      QuorumsAgree(c, net, r2, h2, q2, r1, h1, q1);
    }
  }

  lemma {:induction false} InvImpliesValidity(c: Cluster, net: Net, i: nat)
    requires ValidCluster(c) && NetInv(c, net) && i < |c| && HasDecided(net.nodes[i])
    ensures IsProposal(c, Decision(net.nodes[i]))
  {
    var r, h, q := DecisionQuorum(c, net, i);
    var k :| k in q;
    var p := CommitWasProposed(c, net, k, r, h);
  }
}
