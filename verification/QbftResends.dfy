/** The limiter on DECIDED rebroadcasts: a pair of numbers per peer standing for its whole history. */
module QbftResends {
  import opened Wrappers
  import opened QbftMessages
  import opened QbftRules
  import opened QbftNode

  /** A post-decision ROUND-CHANGE that reaches the limiter. */
  predicate Eligible(cfg: Config, cm: ConsensusMsg) {
    && VerifyMsgLimits(cm, cfg.nodes) == None
    && cm.msg.duty == cfg.duty
    && cm.msg.msgType == RoundChange
    && cm.msg.peerIdx != cfg.peer
  }

  /** The rounds peer `p` has asked for, in order. */
  function Asked(cfg: Config, cms: seq<ConsensusMsg>, p: nat): seq<nat> {
    if cms == [] then []
    else
      var last := cms[|cms| - 1];
      Asked(cfg, cms[..|cms| - 1], p) + if Eligible(cfg, last) && last.msg.peerIdx == p then [last.msg.round] else []
  }

  /** Whether `r` exceeds every round asked for before. */
  predicate IsRecord(asked: seq<nat>, r: nat) {
    forall i :: 0 <= i < |asked| ==> asked[i] < r
  }

  /** How many of the rounds asked for exceeded all those before them. */
  function Records(asked: seq<nat>): nat {
    if asked == [] then 0
    else
      var init := asked[..|asked| - 1];
      Records(init) + if IsRecord(init, asked[|asked| - 1]) then 1 else 0
  }

  function AfterRequests(cfg: Config, s: State, cms: seq<ConsensusMsg>): State
    requires cfg.nodes > 0
  {
    if cms == [] then s else Handle(cfg, AfterRequests(cfg, s, cms[..|cms| - 1]), cms[|cms| - 1]).state
  }

  predicate Resends(cfg: Config, s: State, cm: ConsensusMsg)
    requires cfg.nodes > 0
  {
    SentBy(Handle(cfg, s, cm).outcome).Some?
  }

  /** The (highest round, count) pair of peer `p` says all that matters about its history. */
  ghost predicate PairTells(s: State, p: nat, asked: seq<nat>) {
    var (highest, count) := if p in s.resends then s.resends[p] else (0, 0);
    && count == (if Records(asked) < MAX_DECIDED_RESENDS then Records(asked) else MAX_DECIDED_RESENDS)
    && (count < MAX_DECIDED_RESENDS ==> forall r :: r >= 1 ==> (IsRecord(asked, r) <==> r > highest))
  }

  /** A node right after its decision, with peers to report it to. */
  ghost predicate JustDecided(cfg: Config, s: State) {
    && ValidConfig(cfg) && NodeInv(cfg, s) && cfg.numPeers > 0
    && s.qCommit != [] && s.resends == map[]
  }

  /** There is a hash to report: the first message of the adopted justification bears one. */
  predicate Reportable(s: State)
    requires s.qCommit != []
  {
    s.qCommit[0].valueHash.Some?
  }

  ghost predicate Tracks(cfg: Config, start: State, s: State, cms: seq<ConsensusMsg>) {
    && NodeInv(cfg, s)
    && s == start.(resends := s.resends, values := s.values)
    && forall p :: PairTells(s, p, Asked(cfg, cms, p))
  }

  /** What an eligible request does to the limiter, and whether it is answered. */
  lemma EligibleStep(cfg: Config, s: State, cm: ConsensusMsg)
    requires ValidConfig(cfg) && NodeInv(cfg, s) && cfg.numPeers > 0 && s.qCommit != []
    requires ValidConsensusMsg(cm) && Eligible(cfg, cm)
    ensures var (limited, allowed) := AllowDecidedResend(s, cm.msg.peerIdx, cm.msg.round);
            && Handle(cfg, s, cm).state.resends == limited.resends
            && Resends(cfg, s, cm) == (allowed && Reportable(s))
  {
    var stored := s.(values := StoreValues(cfg, s.values, cm.values));
    assert Handle(cfg, s, cm) == HandleDecided(cfg, stored, cm.msg);
    assert s.qCommit[0] in s.qCommit;
    BroadcastShape(
      cfg, Unsigned(cfg, Decided, s.round, s.qCommit[0].valueHash, None, None), s.qCommit,
      Known(stored.values, s.qCommit[0].valueHash));
  }

  lemma IneligibleStep(cfg: Config, s: State, cm: ConsensusMsg)
    requires cfg.nodes > 0 && s.qCommit != [] && !Eligible(cfg, cm)
    ensures Handle(cfg, s, cm).state.resends == s.resends && !Resends(cfg, s, cm)
  {
  }

  lemma DecidedStep(cfg: Config, start: State, s: State, cm: ConsensusMsg)
    requires JustDecided(cfg, start) && ValidConsensusMsg(cm)
    requires NodeInv(cfg, s) && s == start.(resends := s.resends, values := s.values)
    ensures var s' := Handle(cfg, s, cm).state;
            NodeInv(cfg, s') && s' == start.(resends := s'.resends, values := s'.values)
  {
    HandleGood(cfg, s, cm);
  }

  lemma PairGrows(s: State, s': State, p: nat, asked: seq<nat>, r: nat)
    requires PairTells(s, p, asked) && r >= 1
    requires s'.resends == AllowDecidedResend(s, p, r).0.resends
    ensures PairTells(s', p, asked + [r])
    ensures AllowDecidedResend(s, p, r).1 <==> IsRecord(asked, r) && Records(asked) < MAX_DECIDED_RESENDS
  {
    var more := asked + [r];
    assert more[..|more| - 1] == asked;
    forall q | q >= 1
      ensures IsRecord(more, q) <==> IsRecord(asked, q) && r < q
    {
      assert more[|asked|] == r;
      if IsRecord(more, q) {
        forall i | 0 <= i < |asked|
          ensures asked[i] < q
        {
          assert more[i] == asked[i];
        }
      }
    }
  }

  lemma {:induction false} RunTracks(cfg: Config, start: State, cms: seq<ConsensusMsg>)
    requires JustDecided(cfg, start) && forall k :: 0 <= k < |cms| ==> ValidConsensusMsg(cms[k])
    ensures Tracks(cfg, start, AfterRequests(cfg, start, cms), cms)
  {
    if cms != [] {
      var init, cm := cms[..|cms| - 1], cms[|cms| - 1];
      RunTracks(cfg, start, init);
      var s, s' := AfterRequests(cfg, start, init), AfterRequests(cfg, start, cms);
      DecidedStep(cfg, start, s, cm);
      if Eligible(cfg, cm) {
        EligibleStep(cfg, s, cm);
      } else {
        IneligibleStep(cfg, s, cm);
      }
      forall p
        ensures PairTells(s', p, Asked(cfg, cms, p))
      {
        assert PairTells(s, p, Asked(cfg, init, p));
        if Eligible(cfg, cm) && p == cm.msg.peerIdx {
          PairGrows(s, s', p, Asked(cfg, init, p), cm.msg.round);
        } else {
          assert Asked(cfg, cms, p) == Asked(cfg, init, p);
        }
      }
    }
  }

  /** Over every post-decision run: a message is answered with DECIDED exactly when it is an
      eligible ROUND-CHANGE whose round exceeds every round its sender asked for before, fewer
      than 16 of those did, and there is a hash to report. Without one the limiter counts the
      request all the same, and nothing is sent. */
  lemma {:induction false} ResendIffRecord(cfg: Config, start: State, cms: seq<ConsensusMsg>, cm: ConsensusMsg)
    requires JustDecided(cfg, start) && ValidConsensusMsg(cm)
    requires forall k :: 0 <= k < |cms| ==> ValidConsensusMsg(cms[k])
    ensures var asked := Asked(cfg, cms, cm.msg.peerIdx);
            Resends(cfg, AfterRequests(cfg, start, cms), cm)
            <==> Eligible(cfg, cm) && IsRecord(asked, cm.msg.round) && Records(asked) < MAX_DECIDED_RESENDS
                 && Reportable(start)
  {
    RunTracks(cfg, start, cms);
    var s := AfterRequests(cfg, start, cms);
    if Eligible(cfg, cm) {
      EligibleStep(cfg, s, cm);
      PairGrows(s, Handle(cfg, s, cm).state, cm.msg.peerIdx, Asked(cfg, cms, cm.msg.peerIdx), cm.msg.round);
    } else {
      IneligibleStep(cfg, s, cm);
    }
  }

  /** How many DECIDEDs peer `p` has extracted. */
  function ResentTo(cfg: Config, start: State, cms: seq<ConsensusMsg>, p: nat): nat
    requires cfg.nodes > 0
  {
    if cms == [] then 0
    else
      var init, cm := cms[..|cms| - 1], cms[|cms| - 1];
      ResentTo(cfg, start, init, p)
      + if cm.msg.peerIdx == p && Resends(cfg, AfterRequests(cfg, start, init), cm) then 1 else 0
  }

  /** No peer ever extracts more than 16 rebroadcasts, and a peer that keeps advancing gets each, as
      long as there is a hash to report. */
  lemma {:induction false} ResendsAreCapped(cfg: Config, start: State, cms: seq<ConsensusMsg>, p: nat)
    requires JustDecided(cfg, start) && forall k :: 0 <= k < |cms| ==> ValidConsensusMsg(cms[k])
    ensures var records := Records(Asked(cfg, cms, p));
            ResentTo(cfg, start, cms, p)
            == if !Reportable(start) then 0
               else if records < MAX_DECIDED_RESENDS then records
               else MAX_DECIDED_RESENDS
  {
    if cms != [] {
      var init, cm := cms[..|cms| - 1], cms[|cms| - 1];
      ResendsAreCapped(cfg, start, init, p);
      ResendIffRecord(cfg, start, init, cm);
      var asked := Asked(cfg, init, p);
      if Eligible(cfg, cm) && cm.msg.peerIdx == p {
        assert (asked + [cm.msg.round])[..|asked|] == asked;
      } else {
        assert Asked(cfg, cms, p) == asked;
      }
    }
  }
}
