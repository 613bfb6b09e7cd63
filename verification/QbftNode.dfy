/** What every step of one node keeps, whatever messages it is handed. */
module QbftNode {
  import opened SymbolicBytes
  import opened Wrappers
  import opened Dicts
  import opened QbftMessages
  import opened QbftRules
  import opened QbftLemmas

  /** Signatures are 65 bytes and value hashes 32. */
  ghost predicate ValidConfig(cfg: Config) {
    && cfg.nodes > 0
    && (forall m :: |cfg.signer(m)| == 65)
    && (forall v :: |cfg.hashValue(v).bytes| == 32)
  }

  ghost predicate AllValid(ms: seq<Msg>) {
    forall m :: m in ms ==> ValidMsg(m)
  }

  /** A prepared round comes with a quorum of PREPAREs for exactly that round and hash. */
  ghost predicate PreparedJustified(cfg: Config, s: State) {
    match s.preparedRound
    case None => s.preparedValueHash == None && s.preparedJustification == []
    case Some(p) =>
      && 1 <= p
      && |s.preparedJustification| >= Quorum(cfg.nodes)
      && forall m :: m in s.preparedJustification ==> Hit(Votes(Prepare, p, s.preparedValueHash), m)
  }

  ghost predicate NodeInv(cfg: Config, s: State) {
    && s.round >= 1
    && PreparedJustified(cfg, s)
    && (forall key :: key in s.dedup ==> key.1 == s.round)
    && (s.qCommit == [] ==>
          && s.resends == map[]
          && (s.preparedRound.Some? ==> s.preparedRound.value <= s.round)
          && (forall key :: key in s.dedup ==> key.0 != JustifiedDecided && key.0 != QuorumCommits))
    && AllValid(Flatten(s.buffer))
    && AllValid(s.preparedJustification)
    && AllValid(s.qCommit)
  }

  lemma InitialInv(cfg: Config)
    ensures NodeInv(cfg, InitialState(cfg))
  {
  }

  /** What a node can do in one step: handle `cm`, or time out when there is none. `sent` is the
      message it broadcasts a copy of to every peer. */
  datatype Move = Move(pre: State, cm: Option<ConsensusMsg>, post: State, sent: Option<ConsensusMsg>)

  /** Rounds, prepared rounds and fired rules only accumulate, until a decision freezes the node. */
  ghost predicate Advances(pre: State, post: State) {
    && (pre.qCommit != [] ==> post == pre.(resends := post.resends, values := post.values))
    && (pre.qCommit == [] && post.qCommit == [] ==> pre.round <= post.round)
    && (pre.qCommit == [] && post.round == pre.round ==> pre.dedup <= post.dedup)
    && (pre.preparedRound.Some? ==>
          post.preparedRound.Some? && pre.preparedRound.value <= post.preparedRound.value)
  }

  ghost predicate BuffersLegally(mv: Move) {
    || mv.post.buffer == mv.pre.buffer
    || (&& mv.cm.Some?
        && mv.post.buffer == BufferMessage(mv.pre.buffer, mv.cm.value)
        && (mv.cm.value.msg.msgType == Decided ==> mv.post.qCommit != []))
  }

  /** The votes for the same round and value that a node holds once it has buffered `cm`. */
  function VotesHeld(s: State, cm: ConsensusMsg): seq<Msg> {
    Select(Votes(cm.msg.msgType, cm.msg.round, cm.msg.valueHash), Flatten(BufferMessage(s.buffer, cm)))
  }

  ghost predicate DecidesLegally(cfg: Config, mv: Move) {
    mv.pre.qCommit == [] && mv.post.qCommit != [] ==>
      && mv.cm.Some?
      && (|| (&& mv.cm.value.msg.msgType == Decided
              && IsJustifiedDecided(cfg, mv.cm.value)
              && mv.post.round == mv.cm.value.msg.round
              && mv.post.qCommit == mv.cm.value.justification)
          || (&& mv.cm.value.msg.msgType == Commit
              && mv.post.round == mv.pre.round == mv.cm.value.msg.round
              && mv.post.qCommit == VotesHeld(mv.pre, mv.cm.value)
              && |mv.post.qCommit| >= Quorum(cfg.nodes)))
  }

  ghost predicate PreparesLegally(cfg: Config, mv: Move) {
    || (&& mv.post.preparedRound == mv.pre.preparedRound
        && mv.post.preparedValueHash == mv.pre.preparedValueHash
        && mv.post.preparedJustification == mv.pre.preparedJustification)
    || (&& mv.cm.Some?
        && mv.cm.value.msg.msgType == Prepare
        && mv.post.round == mv.pre.round == mv.cm.value.msg.round
        && mv.post.preparedRound == Some(mv.post.round)
        && mv.post.preparedValueHash == mv.cm.value.msg.valueHash
        && mv.post.preparedJustification == VotesHeld(mv.pre, mv.cm.value)
        && |mv.post.preparedJustification| >= Quorum(cfg.nodes))
  }

  /** A rule of the current round that had not fired and now has. */
  ghost predicate Fires(pre: State, post: State, rule: UponRule) {
    && post.round == pre.round
    && (rule, pre.round) !in pre.dedup
    && (rule, pre.round) in post.dedup
  }

  /** A message carries the value of the hash it refers to if the node knows one, and nothing else. */
  predicate CarriesKnown(values: map<Hash, Bytes>, h: Option<Hash>, carried: seq<Bytes>) {
    carried == if h.Some? && h.value in values then [values[h.value]] else []
  }

  ghost predicate SendsLegally(cfg: Config, mv: Move)
    requires cfg.nodes > 0
  {
    mv.sent.Some? ==>
      var m, js := mv.sent.value.msg, mv.sent.value.justification;
      && ValidMsg(m)
      && m.peerIdx == cfg.peer
      && m.duty == cfg.duty
      && |mv.sent.value.values| <= 1
      && CarriesKnown(mv.post.values, if m.msgType == RoundChange then mv.pre.preparedValueHash else m.valueHash,
                      mv.sent.value.values)
      && match m.msgType
         case Decided =>
           mv.pre.qCommit != [] && js == mv.pre.qCommit && m.round == mv.pre.round
           && m.valueHash.Some? && m.valueHash == mv.pre.qCommit[0].valueHash
         case Prepare =>
           && mv.pre.qCommit == [] && mv.cm.Some? && mv.cm.value.msg.msgType == PrePrepare
           && js == [] && m.round == mv.cm.value.msg.round == mv.post.round
           && m.valueHash == mv.cm.value.msg.valueHash
           && (m.round > mv.pre.round || Fires(mv.pre, mv.post, JustifiedPrePrepare))
         case Commit =>
           && mv.pre.qCommit == [] && mv.cm.Some? && mv.cm.value.msg.msgType == Prepare
           && js == [] && m.round == mv.cm.value.msg.round == mv.pre.round
           && m.valueHash == mv.cm.value.msg.valueHash
           && Fires(mv.pre, mv.post, QuorumPrepares)
           && mv.post.preparedRound == Some(m.round)
         case RoundChange =>
           && mv.pre.qCommit == [] && m.round == mv.post.round > mv.pre.round
           && m.valueHash == None
           && mv.post.preparedRound == mv.pre.preparedRound
           && m.preparedRound == (if mv.pre.preparedRound.Some? then mv.pre.preparedRound.value else 0)
           && m.preparedValueHash
              == (if mv.pre.preparedValueHash.Some? then mv.pre.preparedValueHash.value else ZERO_HASH)
           && js == mv.pre.preparedJustification
         case PrePrepare =>
           && mv.pre.qCommit == [] && mv.cm.Some? && mv.cm.value.msg.msgType == RoundChange
           && m.round == mv.cm.value.msg.round == mv.pre.round
           && Fires(mv.pre, mv.post, QuorumRoundChanges)
           && IsLeader(cfg.nodes, cfg.duty, m.round, cfg.peer)
           && mv.post.buffer == BufferMessage(mv.pre.buffer, mv.cm.value)
           && JustifyQuorum(Flatten(BufferMessage(mv.pre.buffer, mv.cm.value)), m.round, Quorum(cfg.nodes)) == Some(js)
           && m.valueHash == Some(ProposedHash(cfg, js))
           && Unprepared(m)
  }

  ghost predicate Legal(cfg: Config, mv: Move)
    requires cfg.nodes > 0
  {
    && Advances(mv.pre, mv.post)
    && BuffersLegally(mv)
    && DecidesLegally(cfg, mv)
    && PreparesLegally(cfg, mv)
    && SendsLegally(cfg, mv)
  }

  /** The message a call sends copies of, if it sends any. */
  function SentBy(outcome: Outcome): Option<ConsensusMsg> {
    if outcome.Sent? && outcome.msgs != [] then Some(outcome.msgs[0]) else None
  }

  /** A call sends nothing, or one and the same message to every peer. */
  ghost predicate Uniform(cfg: Config, outcome: Outcome) {
    outcome.Sent? ==>
      || outcome.msgs == []
      || (|outcome.msgs| == cfg.numPeers && forall k :: 0 <= k < |outcome.msgs| ==> outcome.msgs[k] == outcome.msgs[0])
  }

  ghost predicate Good(cfg: Config, pre: State, cm: Option<ConsensusMsg>, step: Step)
    requires cfg.nodes > 0
  {
    && NodeInv(cfg, step.state)
    && Uniform(cfg, step.outcome)
    && Legal(cfg, Move(pre, cm, step.state, SentBy(step.outcome)))
  }

  lemma BroadcastShape(cfg: Config, unsigned: Msg, js: seq<Msg>, values: seq<Bytes>)
    requires ValidConfig(cfg)
    ensures var out := Broadcast(cfg, unsigned, js, values);
            && Uniform(cfg, out)
            && (SentBy(out).Some? ==>
                  && ValidMsg(unsigned)
                  && ValidMsg(SentBy(out).value.msg)
                  && SentBy(out).value == ConsensusMsg(unsigned.(signature := Some(cfg.signer(unsigned))), js, values))
  {
  }

  // One lemma per rule. `s` is the state with the message buffered and the rule recorded.

  ghost predicate Firing(cfg: Config, pre: State, cm: ConsensusMsg, rule: UponRule, s: State) {
    && ValidConfig(cfg)
    && NodeInv(cfg, pre)
    && ValidConsensusMsg(cm)
    && pre.qCommit == []
    && (rule, pre.round) !in pre.dedup
    && AllValid(Flatten(s.buffer))
    && s == pre.(
      buffer := BufferMessage(pre.buffer, cm),
      dedup := pre.dedup + {(rule, pre.round)},
      values := s.values)
  }

  lemma BufferedValid(cfg: Config, s: State, cm: ConsensusMsg)
    requires NodeInv(cfg, s) && ValidConsensusMsg(cm)
    ensures AllValid(Flatten(BufferMessage(s.buffer, cm)))
  {
    BufferContents(s.buffer, cm);
  }

  lemma PrePrepareGood(cfg: Config, pre: State, cm: ConsensusMsg, s: State)
    requires Firing(cfg, pre, cm, JustifiedPrePrepare, s)
    requires cm.msg.msgType == PrePrepare && cm.msg.round >= pre.round
    ensures Good(cfg, pre, Some(cm), OnPrePrepare(cfg, s, cm.msg))
  {
    var s' := ChangeRound(s, cm.msg.round);
    if cm.msg.valueHash.Some? {
      BroadcastShape(cfg, Unsigned(cfg, Prepare, s'.round, cm.msg.valueHash, None, None), [],
                     Known(s'.values, cm.msg.valueHash));
    }
  }

  lemma QuorumPreparesGood(cfg: Config, pre: State, cm: ConsensusMsg, s: State)
    requires Firing(cfg, pre, cm, QuorumPrepares, s)
    requires cm.msg.msgType == Prepare && cm.msg.round == pre.round
    requires |VotesHeld(pre, cm)| >= Quorum(cfg.nodes)
    ensures Good(cfg, pre, Some(cm), OnQuorumPrepares(cfg, s, cm.msg, VotesHeld(pre, cm)))
  {
    SelectSound(Votes(Prepare, cm.msg.round, cm.msg.valueHash), Flatten(s.buffer));
    if cm.msg.valueHash.Some? {
      BroadcastShape(cfg, Unsigned(cfg, Commit, s.round, cm.msg.valueHash, None, None), [],
                     Known(s.values, cm.msg.valueHash));
    }
  }

  lemma QuorumCommitsGood(cfg: Config, pre: State, cm: ConsensusMsg, s: State)
    requires Firing(cfg, pre, cm, QuorumCommits, s)
    requires cm.msg.msgType == Commit && cm.msg.round == pre.round
    requires |VotesHeld(pre, cm)| >= Quorum(cfg.nodes)
    ensures Good(cfg, pre, Some(cm), Decide(s, cm.msg, VotesHeld(pre, cm)))
  {
    SelectSound(Votes(Commit, cm.msg.round, cm.msg.valueHash), Flatten(s.buffer));
  }

  lemma DecidedGood(cfg: Config, pre: State, cm: ConsensusMsg, s: State)
    requires Firing(cfg, pre, cm, JustifiedDecided, s)
    requires IsJustifiedDecided(cfg, cm)
    ensures Good(cfg, pre, Some(cm), Decide(s, cm.msg, cm.justification))
  {
  }

  ghost predicate FutureEntry(e: (nat, Msg), ms: seq<Msg>, round: nat) {
    e.1.msgType == RoundChange && e.1.round > round && e.1.peerIdx == e.0 && e.1 in ms
  }

  /** The future ROUND-CHANGEs classification hands over come from distinct sources. */
  lemma {:induction false} HighestAreFuture(ms: seq<Msg>, round: nat, limit: int)
    ensures var h := HighestBySource(ms, round, limit);
            Unique(h) && forall i :: 0 <= i < |h| ==> FutureEntry(h[i], ms, round)
  {
    if ms != [] {
      var init, m := ms[..|ms| - 1], ms[|ms| - 1];
      assert ms == init + [m];
      HighestAreFuture(init, round, limit);
      var h, r := HighestBySource(init, round, limit), HighestBySource(ms, round, limit);
      assert forall i :: 0 <= i < |h| ==> FutureEntry(h[i], ms, round);
      if r != h {
        PutAt(h, m.peerIdx, m);
        assert r == Put(h, m.peerIdx, m);
        assert FutureEntry((m.peerIdx, m), ms, round);
        if Has(h, m.peerIdx) {
          var j :| 0 <= j < |h| && h[j].0 == m.peerIdx;
          assert r == h[j := (m.peerIdx, m)];
        }
      }
    }
  }

  lemma {:induction false} MinFutureRoundFuture(frc: seq<Msg>, round: nat)
    requires frc != []
    requires forall m :: m in frc ==> m.msgType == RoundChange && m.round > round
    ensures MinFutureRound(frc, round).Success?
    ensures var r := MinFutureRound(frc, round).value;
            r > round && (forall m :: m in frc ==> r <= m.round) && exists m :: m in frc && m.round == r
  {
    var init, last := frc[..|frc| - 1], frc[|frc| - 1];
    assert frc == init + [last];
    assert last in frc;
    assert forall m :: m in frc <==> m in init || m == last;
    if |frc| > 1 {
      MinFutureRoundFuture(init, round);
      var least :| least in init && least.round == MinFutureRound(init, round).value;
      assert least in frc;
    } else {
      assert init == [];
    }
  }

  lemma FPlus1Good(cfg: Config, pre: State, cm: ConsensusMsg, s: State, frc: seq<Msg>)
    requires Firing(cfg, pre, cm, FPlus1RoundChanges, s)
    requires cm.msg.msgType == RoundChange && frc != [] && |frc| >= Faulty(cfg.nodes) + 1
    requires forall m :: m in frc ==> m.msgType == RoundChange && m.round > pre.round
    ensures Good(cfg, pre, Some(cm), OnFPlus1(cfg, s, frc))
    ensures OnFPlus1(cfg, s, frc).outcome.Raised? ==> OnFPlus1(cfg, s, frc).outcome.error == InvalidMessage
  {
    MinFutureRoundFuture(frc, s.round);
    var s' := ChangeRound(s, MinFutureRound(frc, s.round).value);
    BroadcastShape(
      cfg, Unsigned(cfg, RoundChange, s'.round, None, s'.preparedRound, s'.preparedValueHash),
      s'.preparedJustification, Known(s'.values, s'.preparedValueHash));
  }

  lemma QuorumRoundChangesGood(cfg: Config, pre: State, cm: ConsensusMsg, s: State, js: seq<Msg>)
    requires Firing(cfg, pre, cm, QuorumRoundChanges, s)
    requires cm.msg.msgType == RoundChange && cm.msg.round == pre.round
    requires JustifyQuorum(Flatten(s.buffer), pre.round, Quorum(cfg.nodes)) == Some(js)
    requires IsLeader(cfg.nodes, cfg.duty, pre.round, cfg.peer)
    ensures Good(cfg, pre, Some(cm), OnQuorumRoundChanges(cfg, s, js))
  {
    var h := ProposedHash(cfg, js);
    BroadcastShape(cfg, Unsigned(cfg, PrePrepare, s.round, Some(h), None, None), js, Known(s.values, Some(h)));
  }

  lemma TimeoutGood(cfg: Config, pre: State)
    requires ValidConfig(cfg) && NodeInv(cfg, pre)
    ensures Good(cfg, pre, None, Timeout(cfg, pre))
  {
    var s' := ChangeRound(pre, pre.round + 1);
    BroadcastShape(
      cfg, Unsigned(cfg, RoundChange, s'.round, None, s'.preparedRound, s'.preparedValueHash),
      s'.preparedJustification, Known(s'.values, s'.preparedValueHash));
  }

  lemma HighestGood(cfg: Config, pre: State, cm: ConsensusMsg, s: State, highest: Dict<nat, Msg>)
    requires Firing(cfg, pre, cm, FPlus1RoundChanges, s) && cm.msg.msgType == RoundChange
    requires highest == HighestBySource(Flatten(s.buffer), s.round, Faulty(cfg.nodes) + 1)
    requires |highest| >= Faulty(cfg.nodes) + 1
    ensures Good(cfg, pre, Some(cm), OnFPlus1(cfg, s, Values(highest)))
  {
    HighestAreFuture(Flatten(s.buffer), s.round, Faulty(cfg.nodes) + 1);
    forall m | m in Values(highest)
      ensures m.msgType == RoundChange && m.round > pre.round
    {
      var i :| 0 <= i < |highest| && m == Values(highest)[i];
      assert FutureEntry(highest[i], Flatten(s.buffer), s.round);
    }
    FPlus1Good(cfg, pre, cm, s, Values(highest));
  }

  lemma UnjustGood(cfg: Config, pre: State, cm: ConsensusMsg, s: State)
    requires Firing(cfg, pre, cm, UnjustQuorumRoundChanges, s) && cm.msg.msgType == RoundChange
    ensures Good(cfg, pre, Some(cm), Step(s, Sent([])))
  {
  }

  lemma RoundChangeRules(cfg: Config, s: State, msg: Msg, rule: UponRule, js: seq<Msg>)
    requires cfg.nodes > 0 && ClassifyRoundChange(cfg, s, msg) == (rule, js)
    ensures rule == Nothing || rule == UnjustQuorumRoundChanges || rule == FPlus1RoundChanges
            || rule == QuorumRoundChanges
    ensures rule == FPlus1RoundChanges ==>
              var highest := HighestBySource(Flatten(s.buffer), s.round, Faulty(cfg.nodes) + 1);
              js == Values(highest) && |highest| >= Faulty(cfg.nodes) + 1
    ensures rule == QuorumRoundChanges ==>
              && msg.round == s.round && IsLeader(cfg.nodes, cfg.duty, s.round, cfg.peer)
              && JustifyQuorum(Flatten(s.buffer), s.round, Quorum(cfg.nodes)) == Some(js)
  {
  }

  lemma {:induction false} ClassifyRoundChangeGood(cfg: Config, pre: State, cm: ConsensusMsg, s: State,
                                                   rule: UponRule, js: seq<Msg>)
    requires cm.msg.msgType == RoundChange && cfg.nodes > 0
    requires ClassifyRoundChange(cfg, s, cm.msg) == (rule, js) && rule != Nothing && Firing(cfg, pre, cm, rule, s)
    ensures Good(cfg, pre, Some(cm), Fire(cfg, s, cm.msg, rule, js))
  {
    RoundChangeRules(cfg, s, cm.msg, rule, js);
    if rule == FPlus1RoundChanges {
      HighestGood(cfg, pre, cm, s, HighestBySource(Flatten(s.buffer), s.round, Faulty(cfg.nodes) + 1));
    } else if rule == QuorumRoundChanges {
      QuorumRoundChangesGood(cfg, pre, cm, s, js);
    } else {
      UnjustGood(cfg, pre, cm, s);
    }
  }

  lemma {:induction false} FireGood(cfg: Config, pre: State, cm: ConsensusMsg, s: State)
    requires cfg.nodes > 0 && IsJustified(cfg, cm) == Success(true)
    requires var (rule, js) := Classify(cfg, s, cm);
             rule != Nothing && Firing(cfg, pre, cm, rule, s)
    ensures var (rule, js) := Classify(cfg, s, cm);
            Good(cfg, pre, Some(cm), Fire(cfg, s, cm.msg, rule, js))
  {
    match cm.msg.msgType
    case PrePrepare => PrePrepareGood(cfg, pre, cm, s);
    case Prepare => QuorumPreparesGood(cfg, pre, cm, s);
    case Commit => QuorumCommitsGood(cfg, pre, cm, s);
    case RoundChange =>
      var (rule, js) := Classify(cfg, s, cm);
      ClassifyRoundChangeGood(cfg, pre, cm, s, rule, js);
    case Decided => DecidedGood(cfg, pre, cm, s);
  }

  lemma ClassifyIgnoresDedup(cfg: Config, s: State, t: State, cm: ConsensusMsg)
    requires cfg.nodes > 0 && s == t.(dedup := s.dedup)
    ensures Classify(cfg, s, cm) == Classify(cfg, t, cm)
  {
  }

  /** A message that fires nothing is only kept; a justified DECIDED always fires. */
  lemma BufferingGood(cfg: Config, pre: State, cm: ConsensusMsg, buffered: State)
    requires ValidConfig(cfg) && NodeInv(cfg, pre) && ValidConsensusMsg(cm) && pre.qCommit == []
    requires buffered == pre.(buffer := BufferMessage(pre.buffer, cm), values := buffered.values)
    requires cm.msg.msgType != Decided
    ensures Good(cfg, pre, Some(cm), Step(buffered, Sent([])))
  {
    BufferedValid(cfg, pre, cm);
  }

  lemma {:induction false} HandleJustifiedGood(cfg: Config, pre: State, cm: ConsensusMsg, stored: State)
    requires ValidConfig(cfg) && NodeInv(cfg, pre) && ValidConsensusMsg(cm) && pre.qCommit == []
    requires stored == pre.(values := stored.values)
    requires IsJustified(cfg, cm) == Success(true)
    ensures Good(cfg, pre, Some(cm), HandleJustified(cfg, stored, cm))
  {
    BufferedValid(cfg, pre, cm);
    var buffered := stored.(buffer := BufferMessage(stored.buffer, cm));
    var (rule, js) := Classify(cfg, buffered, cm);
    if rule == Nothing || (rule, pre.round) in pre.dedup {
      BufferingGood(cfg, pre, cm, buffered);
    } else {
      var s := buffered.(dedup := stored.dedup + {(rule, stored.round)});
      ClassifyIgnoresDedup(cfg, buffered, s, cm);
      FireGood(cfg, pre, cm, s);
    }
  }

  /** The limiter touches nothing the invariant speaks of in a decided node. */
  lemma LimiterGood(cfg: Config, pre: State, stored: State, peerIdx: nat, round: nat)
    requires NodeInv(cfg, pre) && pre.qCommit != [] && stored == pre.(values := stored.values)
    ensures var limited := AllowDecidedResend(stored, peerIdx, round).0;
            NodeInv(cfg, stored) && NodeInv(cfg, limited) && limited == stored.(resends := limited.resends)
  {
  }

  lemma HandleDecidedGood(cfg: Config, pre: State, cm: ConsensusMsg, stored: State)
    requires ValidConfig(cfg) && NodeInv(cfg, pre) && pre.qCommit != []
    requires stored == pre.(values := stored.values)
    ensures Good(cfg, pre, Some(cm), HandleDecided(cfg, stored, cm.msg))
  {
    var hash := pre.qCommit[0].valueHash;
    var (limited, allowed) := AllowDecidedResend(stored, cm.msg.peerIdx, cm.msg.round);
    LimiterGood(cfg, pre, stored, cm.msg.peerIdx, cm.msg.round);
    if allowed && hash.Some? {
      BroadcastShape(
        cfg, Unsigned(cfg, Decided, pre.round, hash, None, None), pre.qCommit, Known(stored.values, hash));
    }
  }

  /** Every message, from anyone and in any order, leaves a reachable node in a reachable state. */
  lemma {:induction false} HandleGood(cfg: Config, pre: State, cm: ConsensusMsg)
    requires ValidConfig(cfg) && NodeInv(cfg, pre) && ValidConsensusMsg(cm)
    ensures Good(cfg, pre, Some(cm), Handle(cfg, pre, cm))
  {
    var stored := pre.(values := StoreValues(cfg, pre.values, cm.values));
    if VerifyMsgLimits(cm, cfg.nodes).None? && cm.msg.duty == cfg.duty {
      if pre.qCommit != [] {
        HandleDecidedGood(cfg, pre, cm, stored);
      } else if IsJustified(cfg, cm) == Success(true) {
        HandleJustifiedGood(cfg, pre, cm, stored);
      }
    }
  }

  /** A justified message of the instance reaches an undecided node, which buffers it. */
  ghost predicate Buffers(cfg: Config, s: State, cm: ConsensusMsg, next: State)
    requires cfg.nodes > 0
  {
    && s.qCommit == [] && cm.msg.duty == cfg.duty
    && VerifyMsgLimits(cm, cfg.nodes) == None && IsJustified(cfg, cm) == Success(true)
    && next == s.(buffer := BufferMessage(s.buffer, cm), values := StoreValues(cfg, s.values, cm.values))
  }

  lemma HandleBuffers(cfg: Config, s: State, cm: ConsensusMsg, next: State)
    requires cfg.nodes > 0 && Buffers(cfg, s, cm, next)
    requires Classify(cfg, next, cm).0 == Nothing || (Classify(cfg, next, cm).0, s.round) in s.dedup
    ensures Handle(cfg, s, cm) == Step(next, Sent([]))
  {
  }

  lemma HandleFires(cfg: Config, s: State, cm: ConsensusMsg, next: State, rule: UponRule, js: seq<Msg>)
    requires cfg.nodes > 0 && Buffers(cfg, s, cm, next)
    requires Classify(cfg, next, cm) == (rule, js) && rule != Nothing && (rule, s.round) !in s.dedup
    ensures Handle(cfg, s, cm) == Fire(cfg, next.(dedup := s.dedup + {(rule, s.round)}), cm.msg, rule, js)
  {
  }

  predicate SanityError(e: Error) {
    e == FrcTooShort || e == FrcNotRoundChange || e == FrcRoundNotFuture
  }

  lemma FireNeverInsane(cfg: Config, s: State, msg: Msg, rule: UponRule, js: seq<Msg>)
    requires cfg.nodes > 0
    requires rule == FPlus1RoundChanges ==> |js| >= Faulty(cfg.nodes) + 1 > 0 && MinFutureRound(js, s.round).Success?
    ensures var out := Fire(cfg, s, msg, rule, js).outcome;
            out.Raised? ==> !SanityError(out.error)
  {
  }

  /** Classification hands over enough ROUND-CHANGEs, from distinct sources, all for future rounds. */
  lemma FPlus1NeverRaises(cfg: Config, s: State, msg: Msg)
    requires cfg.nodes > 0
    ensures var (rule, frc) := ClassifyRoundChange(cfg, s, msg);
            rule == FPlus1RoundChanges ==>
              && |frc| >= Faulty(cfg.nodes) + 1 > 0
              && DistinctPeers(frc)
              && MinFutureRound(frc, s.round).Success?
              && MinFutureRound(frc, s.round).value > s.round
  {
    var (rule, frc) := ClassifyRoundChange(cfg, s, msg);
    if rule == FPlus1RoundChanges {
      var all := Flatten(s.buffer);
      var highest := HighestBySource(all, s.round, Faulty(cfg.nodes) + 1);
      HighestAreFuture(all, s.round, Faulty(cfg.nodes) + 1);
      forall i | 0 <= i < |frc|
        ensures frc[i].msgType == RoundChange && frc[i].round > s.round && frc[i].peerIdx == highest[i].0
      {
        assert FutureEntry(highest[i], all, s.round);
      }
      MinFutureRoundFuture(frc, s.round);
    }
  }

  lemma JustifiedNeverInsane(cfg: Config, s: State, cm: ConsensusMsg)
    requires cfg.nodes > 0
    ensures var out := HandleJustified(cfg, s, cm).outcome;
            out.Raised? ==> !SanityError(out.error)
  {
    var buffered := s.(buffer := BufferMessage(s.buffer, cm));
    var (rule, js) := Classify(cfg, buffered, cm);
    if rule == FPlus1RoundChanges {
      FPlus1NeverRaises(cfg, buffered, cm.msg);
    }
    FireNeverInsane(cfg, buffered.(dedup := s.dedup + {(rule, s.round)}), cm.msg, rule, js);
  }

  lemma JustificationError(cfg: Config, cm: ConsensusMsg)
    requires cfg.nodes > 0
    ensures IsJustified(cfg, cm).Failure? ==> IsJustified(cfg, cm).error == MaxOfNothing
  {
  }

  lemma DecidedNeverInsane(cfg: Config, s: State, msg: Msg)
    requires s.qCommit != []
    ensures var out := HandleDecided(cfg, s, msg).outcome;
            out.Raised? ==> !SanityError(out.error)
  {
  }

  /** The sanity checks on f+1 ROUND-CHANGEs never raise, in any state and for any message. */
  lemma SanityChecksNeverFire(cfg: Config, s: State, cm: ConsensusMsg)
    requires cfg.nodes > 0
    ensures var out := Handle(cfg, s, cm).outcome;
            out.Raised? ==> !SanityError(out.error)
  {
    var stored := s.(values := StoreValues(cfg, s.values, cm.values));
    if stored.qCommit != [] {
      DecidedNeverInsane(cfg, stored, cm.msg);
    } else {
      JustificationError(cfg, cm);
      JustifiedNeverInsane(cfg, stored, cm);
    }
  }
}
