/** QBFT messages with their field validators, the cluster definition and the receiver's limits. */
module QbftMessages {
  import opened Duties
  import opened SymbolicBytes
  import opened Wrappers

  datatype MsgType = PrePrepare | Prepare | Commit | RoundChange | Decided

  datatype Hash = Hash(bytes: Bytes)

  const ZERO_HASH := Hash(ZERO_CHUNK)

  datatype Msg = Msg(
    msgType: MsgType,
    duty: Duty,
    peerIdx: nat,
    round: nat,
    preparedRound: nat,
    signature: Option<Bytes>,
    valueHash: Option<Hash>,
    preparedValueHash: Hash)

  datatype ConsensusMsg = ConsensusMsg(msg: Msg, justification: seq<Msg>, values: seq<Bytes>)

  /** The exceptions handling a message can raise. */
  datatype Error =
    | TooManyJustifications
    | TooManyValues
    | MaxOfNothing
    | InvalidMessage
    | FrcTooShort
    | FrcNotRoundChange
    | FrcRoundNotFuture

  /** The field validators: every constructed message passes them. */
  predicate ValidMsg(m: Msg) {
    && m.round >= 1
    && m.preparedRound <= m.round
    && (m.signature.Some? ==> |m.signature.value| == 65)
    && (m.valueHash.Some? ==> |m.valueHash.value.bytes| == 32)
    && |m.preparedValueHash.bytes| == 32
    && (m.preparedRound == 0 <==> m.preparedValueHash == ZERO_HASH)
  }

  predicate ValidConsensusMsg(cm: ConsensusMsg) {
    && ValidMsg(cm.msg)
    && forall j :: j in cm.justification ==> ValidMsg(j)
  }

  /** ceil(2n / 3) */
  function Quorum(nodes: nat): nat {
    (2 * nodes + 2) / 3
  }

  /** floor((n - 1) / 3) */
  function Faulty(nodes: nat): int {
    (nodes - 1) / 3
  }

  predicate IsLeader(nodes: nat, duty: Duty, round: nat, peer: nat)
    requires nodes > 0
  {
    (duty.slot + duty.dutyType + round) % nodes == peer
  }

  /** Justifications are bounded before values, so a message over both limits reports the first. */
  function VerifyMsgLimits(cm: ConsensusMsg, nodes: nat): Option<Error> {
    if |cm.justification| > 2 * nodes then Some(TooManyJustifications)
    else if |cm.values| > 2 * (|cm.justification| + 1) then Some(TooManyValues)
    else None
  }

  lemma {:induction false} BoundedSet(s: set<nat>, n: nat)
    requires forall i :: i in s ==> i < n
    ensures |s| <= n
  {
    if n == 0 {
      assert s == {};
    } else {
      BoundedSet(s - {n - 1}, n - 1);
      assert s <= (s - {n - 1}) + {n - 1};
      assert |s| <= |s - {n - 1}| + 1;
    }
  }

  /** A quorum is the least number that is at least two thirds, and the faults tolerated the greatest that
      is less than one third. */
  lemma QuorumAndFaults(nodes: nat, k: int)
    requires nodes > 0
    ensures k >= Quorum(nodes) <==> 3 * k >= 2 * nodes
    ensures k <= Faulty(nodes) <==> 3 * k < nodes
    ensures 0 <= Faulty(nodes) && 0 < Quorum(nodes) <= nodes - Faulty(nodes)
  {
  }

  /** Every round of every duty has one leader. */
  lemma LeaderIsOne(nodes: nat, duty: Duty, round: nat, p: nat, q: nat)
    requires nodes > 0 && IsLeader(nodes, duty, round, p) && IsLeader(nodes, duty, round, q)
    ensures p == q < nodes
  {
  }

  lemma SmallMultiple(n: nat, q: int, d: int)
    requires n > 0 && n * q == d && 2 - n <= d <= n
    ensures q == 0 || q == 1
  {
    assert q < 0 ==> n * q <= n * -1;
    assert q > 1 ==> n * q >= n * 2;
  }

  lemma NextResidue(x: nat, n: nat)
    requires n > 0
    ensures (x + 1) % n == if x % n + 1 == n then 0 else x % n + 1
  {
    SmallMultiple(n, (x + 1) / n - x / n, x % n + 1 - (x + 1) % n);
  }

  /** The leader of the first duty before its first round is node 0, and the next slot, the next type of
      duty and the next round are each led by the next node. */
  lemma LeaderRotates(nodes: nat, duty: Duty, round: nat, p: nat)
    requires nodes > 0 && IsLeader(nodes, duty, round, p)
    ensures IsLeader(nodes, Duty(0, 0), 0, 0)
    ensures var next := if p + 1 == nodes then 0 else p + 1;
            && IsLeader(nodes, duty, round + 1, next)
            && IsLeader(nodes, duty.(slot := duty.slot + 1), round, next)
            && IsLeader(nodes, duty.(dutyType := duty.dutyType + 1), round, next)
  {
    NextResidue(duty.slot + duty.dutyType + round, nodes);
  }

  /** Any two quorums share a node, and a quorum outnumbers the tolerated faults. */
  lemma QuorumsIntersect(nodes: nat, a: set<nat>, b: set<nat>)
    requires nodes > 0
    requires forall i :: i in a + b ==> i < nodes
    requires |a| >= Quorum(nodes) && |b| >= Quorum(nodes)
    ensures exists i :: i in a && i in b
  {
    if a * b == {} {
      assert |a + b| == |a| + |b|;
      BoundedSet(a + b, nodes);
      assert false;
    }
    var i :| i in a * b;
    assert i in a && i in b;
  }
}
