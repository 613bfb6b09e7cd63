/** The transport: the values a node knows by hash, and the messages it sends. */
module QbftTransport {
  import opened SymbolicBytes
  import opened Wrappers
  import opened QbftMessages
  import opened QbftRules

  class Transport {
    const cfg: Config
    var values: map<Hash, Bytes>

    constructor (cfg: Config)
      ensures this.cfg == cfg && values == map[]
    {
      this.cfg := cfg;
      values := map[];
    }

    method SetValues(mapping: map<Hash, Bytes>)
      modifies this
      ensures values == old(values) + mapping
    {
      values := values + mapping;
    }

    /** Builds and signs one copy for each peer; the validators may reject the first. */
    method BroadcastMessage(msgType: MsgType, round: nat, valueHash: Hash, justification: seq<Msg>)
      returns (outcome: Outcome)
      ensures outcome == QbftRules.BroadcastMessage(cfg, values, msgType, round, valueHash, justification)
    {
      ghost var expected := QbftRules.BroadcastMessage(cfg, values, msgType, round, valueHash, justification);
      var result: seq<ConsensusMsg> := [];
      for copies := 0 to cfg.numPeers
        invariant |result| == copies
        invariant result == [] || expected.Sent?
        invariant forall k :: 0 <= k < copies ==> result[k] == expected.msgs[k]
      {
        var msg := Msg(
          msgType, cfg.duty, cfg.peer, round, 0, None,
          if msgType != RoundChange then Some(valueHash) else None, ZERO_HASH);
        if !ValidMsg(msg) {
          return Raised(InvalidMessage);
        }
        var signed := msg.(signature := Some(cfg.signer(msg)));
        var carried: seq<Bytes> := [];
        if valueHash in values {
          carried := [values[valueHash]];
        }
        result := result + [ConsensusMsg(signed, justification, carried)];
      }
      outcome := Sent(result);
    }

    method BroadcastRoundChange(
      round: nat, preparedRound: Option<nat>, preparedValueHash: Option<Hash>, preparedJustification: seq<Msg>)
      returns (outcome: Outcome)
      ensures outcome
              == QbftRules.BroadcastRoundChange(
                   cfg, values, round, preparedRound, preparedValueHash, preparedJustification)
    {
      ghost var expected :=
        QbftRules.BroadcastRoundChange(cfg, values, round, preparedRound, preparedValueHash, preparedJustification);
      var result: seq<ConsensusMsg> := [];
      for copies := 0 to cfg.numPeers
        invariant |result| == copies
        invariant result == [] || expected.Sent?
        invariant forall k :: 0 <= k < copies ==> result[k] == expected.msgs[k]
      {
        var msg := Msg(
          RoundChange, cfg.duty, cfg.peer, round,
          if preparedRound.Some? then preparedRound.value else 0, None, None,
          if preparedValueHash.Some? then preparedValueHash.value else ZERO_HASH);
        if !ValidMsg(msg) {
          return Raised(InvalidMessage);
        }
        var signed := msg.(signature := Some(cfg.signer(msg)));
        var carried: seq<Bytes> := [];
        if preparedValueHash.Some? && preparedValueHash.value in values {
          carried := [values[preparedValueHash.value]];
        }
        result := result + [ConsensusMsg(signed, preparedJustification, carried)];
      }
      outcome := Sent(result);
    }
  }
}
