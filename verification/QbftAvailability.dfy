/** In a cluster whose nodes follow the rules, whoever votes for a hash or decides it knows its value. */
module QbftAvailability {
  import opened Wrappers
  import opened QbftMessages
  import opened QbftRules
  import opened QbftLemmas
  import opened QbftNode
  import opened QbftJustification
  import opened QbftNetwork
  import opened QbftAgreement
  import opened QbftValues

  /** All nodes hash values alike. */
  ghost predicate SameHashing(c: Cluster) {
    forall i, v :: 0 <= i < |c| ==> c[i].hashValue(v) == c[0].hashValue(v)
  }

  /** What hashes a message leaves to be known: that of a vote. */
  function VotedHash(m: Msg): Option<Hash> {
    if m.msgType == Prepare || m.msgType == Commit then m.valueHash else None
  }

  /** Votes embedded in a message are for the hash the message refers to. */
  ghost predicate EmbedsOwnHash(cm: ConsensusMsg) {
    forall j :: j in cm.justification && VotedHash(j).Some? ==> VotedHash(j) == Referred(cm.msg)
  }

  ghost predicate CarriesItsValue(cfg: Config, cm: ConsensusMsg) {
    Referred(cm.msg).Some? ==> HasValue(cfg, cm.values, Referred(cm.msg).value)
  }

  ghost predicate AllCarry(c: Cluster, net: Net)
    requires ValidCluster(c)
  {
    forall k :: 0 <= k < |net.sent| ==> EmbedsOwnHash(net.sent[k].cm) && CarriesItsValue(c[0], net.sent[k].cm)
  }

  ghost predicate KnowsHash(s: State, h: Option<Hash>) {
    h.Some? ==> h.value in s.values
  }

  /** The node knows the values of its proposal, of all votes it holds, of what it prepared and of what it
      decided. */
  ghost predicate Knows(cfg: Config, s: State) {
    && Keyed(cfg, s.values) && cfg.hashValue(cfg.proposal) in s.values
    && (forall m :: m in Flatten(s.buffer) ==> KnowsHash(s, VotedHash(m)))
    && KnowsHash(s, s.preparedValueHash)
    && (HasDecided(s) ==> KnowsHash(s, Decision(s)))
  }

  ghost predicate AllKnow(c: Cluster, net: Net)
    requires ValidCluster(c)
  {
    |net.nodes| == |c| && forall i :: 0 <= i < |c| ==> Knows(c[i], net.nodes[i])
  }

  // One step

  /** The step keeps all values and adds those of the message, or changes nothing at all. */
  ghost predicate Stores(cfg: Config, mv: Move) {
    || (mv.post == mv.pre && mv.sent.None?)
    || (&& Keyed(cfg, mv.post.values)
        && (forall h :: h in mv.pre.values ==> h in mv.post.values)
        && (mv.cm.Some? ==> forall h :: HasValue(cfg, mv.cm.value.values, h) ==> h in mv.post.values))
  }

  lemma Refuses(cfg: Config, s: State, cm: ConsensusMsg, step: Step)
    requires cfg.nodes > 0 && step == Handle(cfg, s, cm) && VerifyMsgLimits(cm, cfg.nodes).Some?
    ensures step.state == s && SentBy(step.outcome).None?
  {
  }

  lemma {:induction false} HandlingStores(cfg: Config, s: State, cm: ConsensusMsg, step: Step)
    requires cfg.nodes > 0 && Keyed(cfg, s.values) && step == Handle(cfg, s, cm)
    ensures Stores(cfg, Move(s, Some(cm), step.state, SentBy(step.outcome)))
  {
    HandleStores(cfg, s, cm);
    StoresAll(cfg, s.values, cm.values);
    if VerifyMsgLimits(cm, cfg.nodes).Some? {
      Refuses(cfg, s, cm, step);
    }
  }

  lemma {:induction false} ExpiringStores(cfg: Config, s: State, step: Step)
    requires cfg.nodes > 0 && Keyed(cfg, s.values) && step == Timeout(cfg, s)
    ensures Stores(cfg, Move(s, None, step.state, SentBy(step.outcome)))
  {
  }

  /** A message on the wire whose hash and embedded votes the receiver will know. */
  ghost predicate Teaches(cfg: Config, cm: ConsensusMsg) {
    EmbedsOwnHash(cm) && CarriesItsValue(cfg, cm)
  }

  lemma {:induction false} LearnsMessage(cfg: Config, mv: Move)
    requires Stores(cfg, mv) && mv.post != mv.pre && mv.cm.Some? && Teaches(cfg, mv.cm.value)
    ensures KnowsHash(mv.post, Referred(mv.cm.value.msg))
    ensures forall m :: m in [mv.cm.value.msg] + mv.cm.value.justification ==> KnowsHash(mv.post, VotedHash(m))
  {
  }

  lemma {:induction false} KeepsBuffer(cfg: Config, mv: Move)
    requires cfg.nodes > 0 && Legal(cfg, mv) && Stores(cfg, mv) && Knows(cfg, mv.pre)
    requires mv.cm.Some? ==> Teaches(cfg, mv.cm.value)
    ensures forall m :: m in Flatten(mv.post.buffer) ==> KnowsHash(mv.post, VotedHash(m))
  {
    if mv.post.buffer != mv.pre.buffer {
      LearnsMessage(cfg, mv);
      BufferContents(mv.pre.buffer, mv.cm.value);
    }
  }

  lemma {:induction false} KeepsPrepared(cfg: Config, mv: Move)
    requires cfg.nodes > 0 && Legal(cfg, mv) && Stores(cfg, mv) && Knows(cfg, mv.pre)
    requires mv.cm.Some? ==> Teaches(cfg, mv.cm.value)
    ensures KnowsHash(mv.post, mv.post.preparedValueHash)
  {
    if mv.post.preparedValueHash != mv.pre.preparedValueHash {
      LearnsMessage(cfg, mv);
    }
  }

  /** Whoever decides knows what: on COMMITs, from the last one, or on a DECIDED, from its votes. */
  lemma {:induction false} KeepsDecided(cfg: Config, mv: Move)
    requires cfg.nodes > 0 && Legal(cfg, mv) && Stores(cfg, mv) && Knows(cfg, mv.pre)
    requires mv.cm.Some? ==> Teaches(cfg, mv.cm.value)
    requires mv.cm.Some? && mv.cm.value.msg.msgType == Decided ==>
               forall j :: j in mv.cm.value.justification ==> j.msgType == Commit
    ensures HasDecided(mv.post) ==> KnowsHash(mv.post, Decision(mv.post))
  {
    if HasDecided(mv.post) && !HasDecided(mv.pre) {
      var cm := mv.cm.value;
      assert mv.post.qCommit[0] in mv.post.qCommit;
      LearnsMessage(cfg, mv);
      if cm.msg.msgType == Commit {
        SelectSound(Votes(Commit, cm.msg.round, cm.msg.valueHash), Flatten(BufferMessage(mv.pre.buffer, cm)));
      }
    }
  }

  lemma {:induction false} KeepsKnowing(cfg: Config, mv: Move)
    requires cfg.nodes > 0 && Legal(cfg, mv) && Stores(cfg, mv) && Knows(cfg, mv.pre)
    requires mv.cm.Some? ==> Teaches(cfg, mv.cm.value)
    requires mv.cm.Some? && mv.cm.value.msg.msgType == Decided ==>
               forall j :: j in mv.cm.value.justification ==> j.msgType == Commit
    ensures Knows(cfg, mv.post)
  {
    KeepsBuffer(cfg, mv);
    KeepsPrepared(cfg, mv);
    KeepsDecided(cfg, mv);
  }

  /** The hash of whatever is sent is known, so its value goes along. */
  lemma {:induction false} SentIsKnown(cfg: Config, mv: Move)
    requires cfg.nodes > 0 && Legal(cfg, mv) && NodeInv(cfg, mv.pre) && Stores(cfg, mv)
    requires Knows(cfg, mv.pre) && Knows(cfg, mv.post)
    requires mv.cm.Some? ==> Teaches(cfg, mv.cm.value)
    requires mv.sent.Some?
    ensures KnowsHash(mv.post, Referred(mv.sent.value.msg))
  {
    var m := mv.sent.value.msg;
    if m.msgType == PrePrepare {
      var all := Flatten(mv.post.buffer);
      ProposedHashSource(cfg, all, m.round, mv.sent.value.justification);
    } else if m.msgType == Prepare || m.msgType == Commit {
      if mv.post != mv.pre {
        LearnsMessage(cfg, mv);
      }
    }
  }

  lemma {:induction false} SentCarries(cfg: Config, mv: Move)
    requires cfg.nodes > 0 && Legal(cfg, mv) && NodeInv(cfg, mv.pre) && Stores(cfg, mv)
    requires Knows(cfg, mv.pre) && Knows(cfg, mv.post)
    requires mv.cm.Some? ==> Teaches(cfg, mv.cm.value)
    requires mv.sent.Some?
    ensures CarriesItsValue(cfg, mv.sent.value)
  {
    SentIsKnown(cfg, mv);
    ReferredHash(cfg, mv);
    var h := Referred(mv.sent.value.msg);
    if h.Some? {
      assert mv.sent.value.values[0] in mv.sent.value.values;
    }
  }

  lemma {:induction false} ProposalEmbedsOwnHash(cfg: Config, mv: Move)
    requires cfg.nodes > 0 && Legal(cfg, mv) && mv.sent.Some? && mv.sent.value.msg.msgType == PrePrepare
    ensures EmbedsOwnHash(mv.sent.value)
  {
    var js, round := mv.sent.value.justification, mv.sent.value.msg.round;
    var all := Flatten(BufferMessage(mv.pre.buffer, mv.cm.value));
    var key, cands, prepares := JustificationShape(all, round, Quorum(cfg.nodes));
    ProposedHashOfShape(cfg, js, all, round, key, cands, prepares);
    SelectSound(UnpreparedRoundChanges(round), all);
    SelectSound(RoundChanges(round), all);
  }

  /** The votes embedded in what is sent are for its own hash. */
  lemma {:induction false} SentEmbedsOwnHash(c: Cluster, net: Net, net': Net, i: nat, cause: Option<nat>, mv: Move)
    requires ValidCluster(c) && NetInv(c, net) && Moves(c, net, net', i, cause, mv) && mv.sent.Some?
    ensures EmbedsOwnHash(mv.sent.value)
  {
    assert Holds(c, net, i, mv.pre);
    if mv.sent.value.msg.msgType == PrePrepare {
      ProposalEmbedsOwnHash(c[i], mv);
    } else if mv.sent.value.msg.msgType == Decided {
      var r, h :| CommitQuorum(c, net, mv.pre.qCommit, r, h);
      assert mv.pre.qCommit[0] in mv.pre.qCommit;
    }
  }

  // Runs

  lemma {:induction false} DecidedEmbedsCommits(c: Cluster, net: Net, k: nat)
    requires ValidCluster(c) && NetInv(c, net) && k < |net.sent| && net.sent[k].cm.msg.msgType == Decided
    ensures forall j :: j in net.sent[k].cm.justification ==> j.msgType == Commit
  {
    assert EmbedsLegally(c, net, net.sent[k].cm);
    var r, h :| CommitQuorum(c, net, net.sent[k].cm.justification, r, h);
  }

  lemma {:induction false} SameTeaching(c: Cluster, i: nat, cm: ConsensusMsg)
    requires |c| > 0 && SameHashing(c) && i < |c|
    ensures Teaches(c[0], cm) <==> Teaches(c[i], cm)
  {
    forall h
      ensures HasValue(c[0], cm.values, h) <==> HasValue(c[i], cm.values, h)
    {
      assert forall v :: c[i].hashValue(v) == c[0].hashValue(v);
    }
  }

  lemma {:induction false} CopiesTeach(c: Cluster, net: Net, net': Net, sent: Option<ConsensusMsg>)
    requires ValidCluster(c) && AllCarry(c, net) && net'.sent == net.sent + CopiesOf(c, sent)
    requires sent.Some? ==> Teaches(c[0], sent.value)
    ensures AllCarry(c, net')
  {
    forall k | 0 <= k < |net'.sent|
      ensures Teaches(c[0], net'.sent[k].cm)
    {
      if k < |net.sent| {
        assert net'.sent[k] == net.sent[k];
      } else {
        assert net'.sent[k] == CopiesOf(c, sent)[k - |net.sent|];
      }
    }
  }

  lemma {:induction false} StepTeaches(c: Cluster, net: Net, net': Net, i: nat, cause: Option<nat>, mv: Move)
    requires ValidCluster(c) && SameHashing(c) && NetInv(c, net) && AllKnow(c, net) && AllCarry(c, net)
    requires Moves(c, net, net', i, cause, mv) && Stores(c[i], mv)
    ensures AllKnow(c, net') && AllCarry(c, net')
  {
    assert Holds(c, net, i, mv.pre);
    if cause.Some? {
      SameTeaching(c, i, net.sent[cause.value].cm);
      if net.sent[cause.value].cm.msg.msgType == Decided {
        DecidedEmbedsCommits(c, net, cause.value);
      }
    }
    KeepsKnowing(c[i], mv);
    if mv.sent.Some? {
      SentCarries(c[i], mv);
      SentEmbedsOwnHash(c, net, net', i, cause, mv);
      SameTeaching(c, i, mv.sent.value);
    }
    CopiesTeach(c, net, net', mv.sent);
  }

  lemma {:induction false} OpenTeaches(c: Cluster, net: Net, i: nat)
    requires ValidCluster(c) && SameHashing(c) && AllKnow(c, net) && AllCarry(c, net) && i < |c|
    ensures AllCarry(c, Apply(c, net, Open(i)))
  {
    var net' := Apply(c, net, Open(i));
    if net' != net {
      var h := c[i].hashValue(c[i].proposal);
      var out := BroadcastMessage(c[i], net.nodes[i].values, PrePrepare, 1, h, []);
      BroadcastShape(c[i], Unsigned(c[i], PrePrepare, 1, Some(h), None, None), [], Known(net.nodes[i].values, Some(h)));
      CopiesMatch(c, i, out);
      if SentBy(out).Some? {
        assert SentBy(out).value.values[0] in SentBy(out).value.values;
        SameTeaching(c, i, SentBy(out).value);
      }
      CopiesTeach(c, net, net', SentBy(out));
    }
  }

  lemma {:induction false} ApplyTeaches(c: Cluster, net: Net, event: Event)
    requires ValidCluster(c) && SameHashing(c) && NetInv(c, net) && AllKnow(c, net) && AllCarry(c, net)
    ensures AllKnow(c, Apply(c, net, event)) && AllCarry(c, Apply(c, net, event))
  {
    match event
    case Deliver(k) =>
      if Delivers(c, net, k) {
        var i := net.sent[k].dest;
        var step := Handle(c[i], net.nodes[i], net.sent[k].cm);
        DeliverMoves(c, net, k);
        HandlingStores(c[i], net.nodes[i], net.sent[k].cm, step);
        StepTeaches(c, net, Apply(c, net, event), i, Some(k), MoveOf(c, net, i, Some(k), step));
      }
    case Lose(k) =>
    case Crash(i) =>
    case Expire(i) =>
      if i < |c| && i !in net.crashed {
        var step := Timeout(c[i], net.nodes[i]);
        ExpireMoves(c, net, i);
        ExpiringStores(c[i], net.nodes[i], step);
        StepTeaches(c, net, Apply(c, net, event), i, None, MoveOf(c, net, i, None, step));
      }
    case Open(i) =>
      if i < |c| {
        OpenTeaches(c, net, i);
      }
  }

  lemma {:induction false} RunTeaches(c: Cluster, events: seq<Event>)
    requires ValidCluster(c) && SameHashing(c)
    ensures AllKnow(c, Run(c, events)) && AllCarry(c, Run(c, events))
  {
    if events != [] {
      var init := events[..|events| - 1];
      RunInv(c, init);
      RunTeaches(c, init);
      ApplyTeaches(c, Run(c, init), events[|events| - 1]);
    }
  }

  /** In every run whatever is sent carries the value of the hash it refers to. */
  lemma {:induction false} SentCarriesItsValue(c: Cluster, events: seq<Event>, k: nat)
    requires ValidCluster(c) && SameHashing(c) && k < |Run(c, events).sent|
    ensures var cm := Run(c, events).sent[k].cm;
            Referred(cm.msg).Some? ==> exists v :: v in cm.values && c[0].hashValue(v) == Referred(cm.msg).value
  {
    RunTeaches(c, events);
    assert CarriesItsValue(c[0], Run(c, events).sent[k].cm);
  }

  /** A node that has decided holds a value with the hash it decided. */
  lemma {:induction false} DecidedValueIsKnown(c: Cluster, events: seq<Event>, i: nat)
    requires ValidCluster(c) && SameHashing(c) && i < |c| && HasDecided(Run(c, events).nodes[i])
    ensures var s := Run(c, events).nodes[i];
            Decision(s).Some? && Decision(s).value in s.values
            && c[i].hashValue(s.values[Decision(s).value]) == Decision(s).value
  {
    RunTeaches(c, events);
    Agreement(c, events, i, i);
    assert Knows(c[i], Run(c, events).nodes[i]);
  }
}
