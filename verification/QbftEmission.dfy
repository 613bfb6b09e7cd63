/** What a node emits, its peers accept: justification checks against the messages built. */
module QbftEmission {
  import opened Duties
  import opened Wrappers
  import opened Dicts
  import opened QbftMessages
  import opened QbftRules
  import opened QbftLemmas
  import opened QbftNode
  import opened QbftJustification
  import opened QbftNodeRuns

  /** A peer of the same cluster working on the same duty. */
  predicate SameInstance(cfg: Config, peer: Config) {
    peer.nodes == cfg.nodes && peer.duty == cfg.duty
  }

  // PRE-PREPARE

  lemma UnpreparedAccepted(peer: Config, cm: ConsensusMsg, all: seq<Msg>)
    requires peer.nodes > 0 && cm.msg.msgType == PrePrepare
    requires IsLeader(peer.nodes, peer.duty, cm.msg.round, cm.msg.peerIdx)
    requires UnpreparedQuorum(cm.justification, all, cm.msg.round, Quorum(peer.nodes))
    ensures IsJustified(peer, cm) == Success(true)
  {
    UnpreparedQuorumTally(cm.justification, all, cm.msg.round, Quorum(peer.nodes));
  }

  lemma PreparedAccepted(peer: Config, cm: ConsensusMsg, all: seq<Msg>, key: PreparedKey, cands: seq<Msg>,
      prepares: seq<Msg>)
    requires peer.nodes > 0 && cm.msg.msgType == PrePrepare && AllValid(all)
    requires IsLeader(peer.nodes, peer.duty, cm.msg.round, cm.msg.peerIdx)
    requires PreparedQuorum(cm.justification, all, cm.msg.round, Quorum(peer.nodes), key, cands, prepares)
    requires cm.msg.valueHash == Some(key.1)
    ensures IsJustified(peer, cm) == Success(true)
  {
    PreparedQuorumTally(cm.justification, all, cm.msg.round, Quorum(peer.nodes), key, cands, prepares);
    var rc :| rc in cands && NamesKey(rc, key);
    assert prepares[0] in prepares && key.0 >= 1;
    assert !Unprepared(rc);
    var tally := TallyPrepares(cm.justification);
    assert tally[0] == (key, |prepares|);
    assert HighestKey(tally) == key && Get(tally, key, 0) == |prepares|;
  }

  /** The proposal built on a quorum of ROUND-CHANGEs passes the justification check of every peer,
      whatever valid messages the buffer holds. */
  lemma ProposalAccepted(cfg: Config, peer: Config, s: State, msg: Msg, k: nat)
    requires cfg.nodes > 0 && SameInstance(cfg, peer) && AllValid(Flatten(s.buffer))
    requires msg.msgType == RoundChange && ClassifyRoundChange(cfg, s, msg).0 == QuorumRoundChanges
    requires var out := OnQuorumRoundChanges(cfg, s, ClassifyRoundChange(cfg, s, msg).1).outcome;
             out.Sent? && k < |out.msgs|
    ensures var out := OnQuorumRoundChanges(cfg, s, ClassifyRoundChange(cfg, s, msg).1).outcome;
            out.msgs[k].msg.msgType == PrePrepare && IsJustified(peer, out.msgs[k]) == Success(true)
  {
    var all, js := Flatten(s.buffer), ClassifyRoundChange(cfg, s, msg).1;
    var cm := OnQuorumRoundChanges(cfg, s, js).outcome.msgs[k];
    var key, cands, prepares := JustificationShape(all, s.round, Quorum(cfg.nodes));
    ProposedHashOfShape(cfg, js, all, s.round, key, cands, prepares);
    if UnpreparedQuorum(js, all, s.round, Quorum(cfg.nodes)) {
      UnpreparedAccepted(peer, cm, all);
    } else {
      PreparedAccepted(peer, cm, all, key, cands, prepares);
    }
  }

  /** So every PRE-PREPARE a reachable node broadcasts on a message is justified at every peer. */
  lemma {:induction false} ProposalInRunAccepted(cfg: Config, peer: Config, inputs: seq<Input>, k: nat)
    requires ValidRun(cfg, inputs) && SameInstance(cfg, peer) && k < |inputs|
    requires Broadcasts(cfg, inputs, k).Some? && Broadcasts(cfg, inputs, k).value.msg.msgType == PrePrepare
    ensures IsJustified(peer, Broadcasts(cfg, inputs, k).value) == Success(true)
  {
    MovesAreLegal(cfg, inputs, k);
    var pre, sent := StateAfter(cfg, inputs[..k]), Broadcasts(cfg, inputs, k).value;
    var cm := inputs[k].cm;
    BufferedValid(cfg, pre, cm);
    var all, js, round := Flatten(BufferMessage(pre.buffer, cm)), sent.justification, sent.msg.round;
    var key, cands, prepares := JustificationShape(all, round, Quorum(cfg.nodes));
    ProposedHashOfShape(cfg, js, all, round, key, cands, prepares);
    if UnpreparedQuorum(js, all, round, Quorum(cfg.nodes)) {
      UnpreparedAccepted(peer, sent, all);
    } else {
      PreparedAccepted(peer, sent, all, key, cands, prepares);
    }
  }

  lemma DistinctWithin(ms: seq<Msg>, nodes: nat)
    requires DistinctPeers(ms) && forall m :: m in ms ==> m.peerIdx < nodes
    ensures |ms| <= nodes
  {
    DistinctPeersCount(ms);
    BoundedSet(Peers(ms), nodes);
  }

  lemma {:induction false} JustificationWithin(cfg: Config, all: seq<Msg>, js: seq<Msg>, round: nat)
    requires cfg.nodes > 0 && forall m :: m in all ==> m.peerIdx < cfg.nodes
    requires JustifyQuorum(all, round, Quorum(cfg.nodes)) == Some(js)
    ensures |js| <= 2 * cfg.nodes <==> |Select(UnpreparedRoundChanges(round), all)| <= 2 * cfg.nodes
  {
    var key, cands, prepares := JustificationShape(all, round, Quorum(cfg.nodes));
    if |Select(UnpreparedRoundChanges(round), all)| < Quorum(cfg.nodes) {
      SelectSound(RoundChanges(round), all);
      DistinctWithin(cands, cfg.nodes);
      DistinctWithin(prepares, cfg.nodes);
    }
  }

  /** Exactly when a proposal stays within the receivers' limits: when the unprepared
      ROUND-CHANGEs it was built from, counted with their repeats, do. Sources are distinct in the
      prepared branch, so that branch is always within them. */
  lemma ProposalWithinLimits(cfg: Config, s: State, msg: Msg, k: nat)
    requires cfg.nodes > 0
    requires forall m :: m in Flatten(s.buffer) ==> m.peerIdx < cfg.nodes
    requires msg.msgType == RoundChange && ClassifyRoundChange(cfg, s, msg).0 == QuorumRoundChanges
    requires var out := OnQuorumRoundChanges(cfg, s, ClassifyRoundChange(cfg, s, msg).1).outcome;
             out.Sent? && k < |out.msgs|
    ensures var out := OnQuorumRoundChanges(cfg, s, ClassifyRoundChange(cfg, s, msg).1).outcome;
            VerifyMsgLimits(out.msgs[k], cfg.nodes) == None
            <==> |Select(UnpreparedRoundChanges(s.round), Flatten(s.buffer))| <= 2 * cfg.nodes
  {
    JustificationWithin(cfg, Flatten(s.buffer), ClassifyRoundChange(cfg, s, msg).1, s.round);
  }

  /** Every message received, and every one it embeds, names a node of the cluster. */
  ghost predicate KnownSources(cfg: Config, inputs: seq<Input>) {
    forall k :: 0 <= k < |inputs| && inputs[k].Receive? ==>
      forall m :: m in [inputs[k].cm.msg] + inputs[k].cm.justification ==> m.peerIdx < cfg.nodes
  }

  lemma {:induction false} BufferedSources(cfg: Config, inputs: seq<Input>)
    requires ValidRun(cfg, inputs) && KnownSources(cfg, inputs)
    ensures forall m :: m in Flatten(StateAfter(cfg, inputs).buffer) ==> m.peerIdx < cfg.nodes
  {
    if inputs != [] {
      var n := |inputs| - 1;
      BufferedSources(cfg, inputs[..n]);
      MovesAreLegal(cfg, inputs, n);
      assert inputs[..n + 1] == inputs;
      if inputs[n].Receive? {
        BufferContents(StateAfter(cfg, inputs[..n]).buffer, inputs[n].cm);
      }
    }
  }

  lemma MoveProposes(cfg: Config, mv: Move, js: seq<Msg>, round: nat)
    requires cfg.nodes > 0 && Legal(cfg, mv) && mv.sent.Some? && mv.sent.value.msg.msgType == PrePrepare
    requires js == mv.sent.value.justification && round == mv.sent.value.msg.round
    ensures JustifyQuorum(Flatten(mv.post.buffer), round, Quorum(cfg.nodes)) == Some(js)
    ensures |mv.sent.value.values| <= 1
  {
  }

  lemma {:induction false} ProposalIsJustified(cfg: Config, inputs: seq<Input>, k: nat, js: seq<Msg>, round: nat)
    requires ValidRun(cfg, inputs) && k < |inputs|
    requires Broadcasts(cfg, inputs, k).Some? && Broadcasts(cfg, inputs, k).value.msg.msgType == PrePrepare
    requires js == Broadcasts(cfg, inputs, k).value.justification
    requires round == Broadcasts(cfg, inputs, k).value.msg.round
    ensures JustifyQuorum(Flatten(StateAfter(cfg, inputs[..k + 1]).buffer), round, Quorum(cfg.nodes)) == Some(js)
    ensures |Broadcasts(cfg, inputs, k).value.values| <= 1
  {
    MovesAreLegal(cfg, inputs, k);
    MoveProposes(cfg, MoveAt(cfg, inputs, k), js, round);
  }

  lemma LimitsOf(cm: ConsensusMsg, nodes: nat)
    requires |cm.values| <= 1
    ensures VerifyMsgLimits(cm, nodes) == None <==> |cm.justification| <= 2 * nodes
  {
  }

  /** The same over runs: a PRE-PREPARE broadcast on a message is within every receiver's limits exactly
      when the node then holds at most 2n unprepared ROUND-CHANGEs of the round, counted with repeats. */
  lemma {:induction false} ProposalInRunWithinLimits(cfg: Config, inputs: seq<Input>, k: nat)
    requires ValidRun(cfg, inputs) && KnownSources(cfg, inputs) && k < |inputs|
    requires Broadcasts(cfg, inputs, k).Some? && Broadcasts(cfg, inputs, k).value.msg.msgType == PrePrepare
    ensures var sent, held := Broadcasts(cfg, inputs, k).value, Flatten(StateAfter(cfg, inputs[..k + 1]).buffer);
            VerifyMsgLimits(sent, cfg.nodes) == None
            <==> |Select(UnpreparedRoundChanges(sent.msg.round), held)| <= 2 * cfg.nodes
  {
    var sent := Broadcasts(cfg, inputs, k).value;
    ProposalIsJustified(cfg, inputs, k, sent.justification, sent.msg.round);
    BufferedSources(cfg, inputs[..k + 1]);
    JustificationWithin(cfg, Flatten(StateAfter(cfg, inputs[..k + 1]).buffer), sent.justification, sent.msg.round);
    LimitsOf(sent, cfg.nodes);
  }

  // ROUND-CHANGE

  /** Every ROUND-CHANGE a reachable node emits passes the justification check of every peer. */
  lemma {:induction false} RoundChangeAccepted(cfg: Config, peer: Config, inputs: seq<Input>, k: nat)
    requires ValidRun(cfg, inputs) && SameInstance(cfg, peer) && k < |inputs|
    requires Broadcasts(cfg, inputs, k).Some? && Broadcasts(cfg, inputs, k).value.msg.msgType == RoundChange
    ensures IsJustified(peer, Broadcasts(cfg, inputs, k).value) == Success(true)
  {
    MovesAreLegal(cfg, inputs, k);
    var pre, cm := StateAfter(cfg, inputs[..k]), Broadcasts(cfg, inputs, k).value;
    if pre.preparedRound.Some? {
      SelectAll(Votes(Prepare, cm.msg.preparedRound, Some(cm.msg.preparedValueHash)), cm.justification);
    }
  }

  /** A ROUND-CHANGE too is within the receivers' limits exactly when the PREPAREs the node prepared
      on, counted with their repeats, are. */
  lemma {:induction false} RoundChangeInRunWithinLimits(cfg: Config, inputs: seq<Input>, k: nat)
    requires ValidRun(cfg, inputs) && k < |inputs|
    requires Broadcasts(cfg, inputs, k).Some? && Broadcasts(cfg, inputs, k).value.msg.msgType == RoundChange
    ensures VerifyMsgLimits(Broadcasts(cfg, inputs, k).value, cfg.nodes) == None
            <==> |StateAfter(cfg, inputs[..k]).preparedJustification| <= 2 * cfg.nodes
  {
    MovesAreLegal(cfg, inputs, k);
  }

  // DECIDED

  /** A DECIDED whose justification holds nothing but matching COMMITs. */
  ghost predicate PureDecided(cm: ConsensusMsg) {
    cm.msg.msgType == Decided ==>
      forall j :: j in cm.justification ==> Hit(Votes(Commit, cm.msg.round, cm.msg.valueHash), j)
  }

  /** A decision resting on a quorum of COMMITs for the node's round and one hash. */
  ghost predicate CoherentDecision(cfg: Config, s: State) {
    s.qCommit != [] ==>
      && |s.qCommit| >= Quorum(cfg.nodes)
      && forall m :: m in s.qCommit ==> Hit(Votes(Commit, s.round, s.qCommit[0].valueHash), m)
  }

  lemma CoherenceKept(cfg: Config, mv: Move)
    requires cfg.nodes > 0 && Legal(cfg, mv) && CoherentDecision(cfg, mv.pre)
    requires mv.cm.Some? ==> PureDecided(mv.cm.value)
    ensures CoherentDecision(cfg, mv.post)
  {
    if mv.pre.qCommit == [] && mv.post.qCommit != [] {
      assert mv.post.qCommit[0] in mv.post.qCommit;
      var cm := mv.cm.value;
      if cm.msg.msgType == Commit {
        SelectSound(Votes(Commit, cm.msg.round, cm.msg.valueHash), Flatten(BufferMessage(mv.pre.buffer, cm)));
      }
    }
  }

  lemma {:induction false} DecisionsCohere(cfg: Config, inputs: seq<Input>)
    requires ValidRun(cfg, inputs)
    requires forall k :: 0 <= k < |inputs| && inputs[k].Receive? ==> PureDecided(inputs[k].cm)
    ensures CoherentDecision(cfg, StateAfter(cfg, inputs))
  {
    if inputs != [] {
      var n := |inputs| - 1;
      DecisionsCohere(cfg, inputs[..n]);
      MovesAreLegal(cfg, inputs, n);
      assert inputs[..n + 1] == inputs;
      CoherenceKept(cfg, MoveAt(cfg, inputs, n));
    }
  }

  /** As long as the DECIDEDs a node adopts carry only matching COMMITs, every DECIDED it emits
      passes the justification check of every peer, and again carries only matching COMMITs. */
  lemma {:induction false} DecidedAccepted(cfg: Config, peer: Config, inputs: seq<Input>, k: nat)
    requires ValidRun(cfg, inputs) && SameInstance(cfg, peer) && k < |inputs|
    requires forall i :: 0 <= i < |inputs| && inputs[i].Receive? ==> PureDecided(inputs[i].cm)
    requires Broadcasts(cfg, inputs, k).Some? && Broadcasts(cfg, inputs, k).value.msg.msgType == Decided
    ensures IsJustified(peer, Broadcasts(cfg, inputs, k).value) == Success(true)
    ensures PureDecided(Broadcasts(cfg, inputs, k).value)
  {
    MovesAreLegal(cfg, inputs, k);
    DecisionsCohere(cfg, inputs[..k]);
    var cm := Broadcasts(cfg, inputs, k).value;
    SelectAll(Votes(Commit, cm.msg.round, cm.msg.valueHash), cm.justification);
  }

  /** Exactly when an emitted DECIDED is accepted, whatever the node adopted: when its commit quorum
      holds a quorum of COMMITs for the round decided and for the hash of its first message. */
  lemma {:induction false} DecidedAcceptedIff(cfg: Config, peer: Config, inputs: seq<Input>, k: nat)
    requires ValidRun(cfg, inputs) && SameInstance(cfg, peer) && k < |inputs|
    requires Broadcasts(cfg, inputs, k).Some? && Broadcasts(cfg, inputs, k).value.msg.msgType == Decided
    ensures var pre := StateAfter(cfg, inputs[..k]);
            pre.qCommit != []
            && (IsJustified(peer, Broadcasts(cfg, inputs, k).value) == Success(true)
                <==> |Select(Votes(Commit, pre.round, pre.qCommit[0].valueHash), pre.qCommit)| >= Quorum(cfg.nodes))
  {
    MovesAreLegal(cfg, inputs, k);
  }

  lemma JustifiedDecidedHasCommits(cfg: Config, cm: ConsensusMsg)
    requires cfg.nodes > 0 && IsJustifiedDecided(cfg, cm)
    ensures cm.justification != []
  {
  }

  /** A node that adopts a DECIDED keeps its round and its whole justification. */
  lemma {:induction false} AdoptionKeeps(cfg: Config, s: State, adopted: ConsensusMsg)
    requires ValidConfig(cfg) && NodeInv(cfg, s) && s.qCommit == [] && ValidConsensusMsg(adopted)
    requires adopted.msg.msgType == Decided && IsJustifiedDecided(cfg, adopted)
    requires adopted.msg.duty == cfg.duty && VerifyMsgLimits(adopted, cfg.nodes) == None
    ensures var decided := Handle(cfg, s, adopted).state;
            && NodeInv(cfg, decided) && decided.resends == map[]
            && decided.qCommit == adopted.justification != [] && decided.round == adopted.msg.round
  {
    HandleGood(cfg, s, adopted);
    JustifiedDecidedHasCommits(cfg, adopted);
    var stored := s.(values := StoreValues(cfg, s.values, adopted.values));
    assert Handle(cfg, s, adopted) == HandleJustified(cfg, stored, adopted);
  }

  /** What a node that has just decided answers a lagging peer's first request: its commit quorum, under
      the hash of the first message in it; nothing when that message bears none, and the limiter
      counts the request all the same. */
  lemma {:induction false} FirstRequestAnswered(cfg: Config, decided: State, rc: ConsensusMsg)
    requires ValidConfig(cfg) && cfg.numPeers > 0 && NodeInv(cfg, decided)
    requires decided.qCommit != [] && decided.resends == map[]
    requires ValidConsensusMsg(rc) && rc.msg.duty == cfg.duty && VerifyMsgLimits(rc, cfg.nodes) == None
    requires rc.msg.msgType == RoundChange && rc.msg.peerIdx != cfg.peer
    ensures var step, h := Handle(cfg, decided, rc), decided.qCommit[0].valueHash;
            && step.state.resends == map[rc.msg.peerIdx := (rc.msg.round, 1)]
            && (h.None? ==> SentBy(step.outcome).None?)
            && (h.Some? ==>
                  && SentBy(step.outcome).Some?
                  && SentBy(step.outcome).value.justification == decided.qCommit
                  && var m := SentBy(step.outcome).value.msg;
                     m.msgType == Decided && m.round == decided.round && m.valueHash == h)
  {
    var h := decided.qCommit[0].valueHash;
    assert decided.qCommit[0] in decided.qCommit;
    var stored := decided.(values := StoreValues(cfg, decided.values, rc.values));
    assert Handle(cfg, decided, rc) == HandleDecided(cfg, stored, rc.msg);
    BroadcastShape(
      cfg, Unsigned(cfg, Decided, decided.round, h, None, None), decided.qCommit, Known(stored.values, h));
  }

  /** A node that has adopted a DECIDED reports the hash of the first message of its justification, not the
      hash it adopted. What it resends is accepted exactly when the justification holds a quorum for
      that hash, and nothing is resent when the first message bears none, while the limiter counts
      the request. */
  lemma {:induction false} AdoptedDecisionResent(cfg: Config, peer: Config, s: State, adopted: ConsensusMsg,
      rc: ConsensusMsg)
    requires ValidConfig(cfg) && cfg.numPeers > 0 && SameInstance(cfg, peer)
    requires NodeInv(cfg, s) && s.qCommit == [] && ValidConsensusMsg(adopted) && ValidConsensusMsg(rc)
    requires adopted.msg.msgType == Decided && IsJustifiedDecided(cfg, adopted)
    requires adopted.msg.duty == rc.msg.duty == cfg.duty
    requires VerifyMsgLimits(adopted, cfg.nodes) == None && VerifyMsgLimits(rc, cfg.nodes) == None
    requires rc.msg.msgType == RoundChange && rc.msg.peerIdx != cfg.peer
    ensures adopted.justification != []
    ensures var h := adopted.justification[0].valueHash;
            var after := Handle(cfg, Handle(cfg, s, adopted).state, rc);
            var resent := SentBy(after.outcome);
            && after.state.resends == map[rc.msg.peerIdx := (rc.msg.round, 1)]
            && (resent.Some? <==> h.Some?)
            && (resent.Some? ==>
                  && resent.value.msg.msgType == Decided && resent.value.msg.valueHash == h
                  && (IsJustified(peer, resent.value) == Success(true)
                      <==> |Select(Votes(Commit, adopted.msg.round, h), adopted.justification)| >= Quorum(cfg.nodes)))
  {
    AdoptionKeeps(cfg, s, adopted);
    FirstRequestAnswered(cfg, Handle(cfg, s, adopted).state, rc);
  }

  function CommitMsg(duty: Duty, peer: nat, round: nat, h: Hash): Msg {
    Msg(Commit, duty, peer, round, 0, None, Some(h), ZERO_HASH)
  }

  /** A DECIDED for `v` in round 1, justified by three COMMITs for `v` after a stray one for `w`. */
  function StrayDecided(duty: Duty, v: Hash, w: Hash): ConsensusMsg {
    var commit := CommitMsg(duty, 0, 1, v);
    ConsensusMsg(commit.(msgType := Decided), [CommitMsg(duty, 1, 1, w), commit, commit, commit], [])
  }

  lemma StrayDecidedVotes(cfg: Config, v: Hash, w: Hash)
    requires cfg.nodes == 4 && v != w
    ensures var cm := StrayDecided(cfg.duty, v, w);
            && IsJustifiedDecided(cfg, cm)
            && |Select(Votes(Commit, 1, Some(w)), cm.justification)| < Quorum(cfg.nodes)
  {
    var cm := StrayDecided(cfg.duty, v, w);
    var stray, own := cm.justification[..1], cm.justification[1..];
    assert cm.justification == stray + own;
    SelectConcat(Votes(Commit, 1, Some(v)), stray, own);
    SelectAll(Votes(Commit, 1, Some(v)), own);
    SelectConcat(Votes(Commit, 1, Some(w)), stray, own);
    SelectNone(Votes(Commit, 1, Some(w)), own);
  }

  /** In a cluster of four, adopting it makes a node announce `w`, which its peers reject. */
  lemma StrayCommitSwapsDecision(cfg: Config, peer: Config, v: Hash, w: Hash, rc: ConsensusMsg)
    requires ValidConfig(cfg) && cfg.nodes == 4 && cfg.numPeers > 0 && SameInstance(cfg, peer)
    requires v != w && |v.bytes| == |w.bytes| == 32
    requires ValidConsensusMsg(rc) && rc.msg.duty == cfg.duty && VerifyMsgLimits(rc, cfg.nodes) == None
    requires rc.msg.msgType == RoundChange && rc.msg.peerIdx != cfg.peer
    ensures var decided := Handle(cfg, InitialState(cfg), StrayDecided(cfg.duty, v, w)).state;
            var resent := SentBy(Handle(cfg, decided, rc).outcome);
            && resent.Some? && resent.value.msg.valueHash == Some(w)
            && IsJustified(peer, resent.value) == Success(false)
  {
    StrayDecidedVotes(cfg, v, w);
    InitialInv(cfg);
    AdoptedDecisionResent(cfg, peer, InitialState(cfg), StrayDecided(cfg.duty, v, w), rc);
  }
}
