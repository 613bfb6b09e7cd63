/** Which values a node holds, and that it passes them on with every message that refers to them. */
module QbftValues {
  import opened SymbolicBytes
  import opened Wrappers
  import opened QbftMessages
  import opened QbftRules
  import opened QbftNode
  import opened QbftNodeRuns

  /** Every value is filed under its own hash. */
  ghost predicate Keyed(cfg: Config, values: map<Hash, Bytes>) {
    forall h :: h in values ==> cfg.hashValue(values[h]) == h
  }

  ghost predicate HasValue(cfg: Config, vs: seq<Bytes>, h: Hash) {
    exists v :: v in vs && cfg.hashValue(v) == h
  }

  lemma {:induction false} StoresAll(cfg: Config, values: map<Hash, Bytes>, incoming: seq<Bytes>)
    requires Keyed(cfg, values)
    ensures Keyed(cfg, StoreValues(cfg, values, incoming))
    ensures forall h :: h in StoreValues(cfg, values, incoming) <==> h in values || HasValue(cfg, incoming, h)
    decreases |incoming|
  {
    if incoming != [] {
      var init, last := incoming[..|incoming| - 1], incoming[|incoming| - 1];
      assert incoming == init + [last];
      StoresAll(cfg, values, init);
      forall h
        ensures HasValue(cfg, incoming, h) <==> HasValue(cfg, init, h) || h == cfg.hashValue(last)
      {
        if HasValue(cfg, init, h) {
          var v :| v in init && cfg.hashValue(v) == h;
          assert v in incoming;
        }
        if h == cfg.hashValue(last) {
          assert last in incoming;
        }
      }
    }
  }

  // What one step does to the values

  lemma FireKeepsValues(cfg: Config, s: State, msg: Msg, rule: UponRule, js: seq<Msg>)
    requires cfg.nodes > 0
    ensures Fire(cfg, s, msg, rule, js).state.values == s.values
  {
  }

  lemma JustifiedKeepsValues(cfg: Config, s: State, cm: ConsensusMsg)
    requires cfg.nodes > 0
    ensures HandleJustified(cfg, s, cm).state.values == s.values
  {
    var buffered := s.(buffer := BufferMessage(s.buffer, cm));
    var (rule, js) := Classify(cfg, buffered, cm);
    FireKeepsValues(cfg, buffered.(dedup := s.dedup + {(rule, s.round)}), cm.msg, rule, js);
  }

  /** A message within the limits leaves its values, whatever else becomes of it; any other nothing. */
  lemma HandleStores(cfg: Config, s: State, cm: ConsensusMsg)
    requires cfg.nodes > 0
    ensures Handle(cfg, s, cm).state.values
            == if VerifyMsgLimits(cm, cfg.nodes).Some? then s.values else StoreValues(cfg, s.values, cm.values)
  {
    JustifiedKeepsValues(cfg, s.(values := StoreValues(cfg, s.values, cm.values)), cm);
  }

  // Runs

  /** Input `k` is a message within the limits that carries a value with this hash. */
  ghost predicate Brings(cfg: Config, input: Input, h: Hash) {
    input.Receive? && VerifyMsgLimits(input.cm, cfg.nodes).None? && HasValue(cfg, input.cm.values, h)
  }

  /** The hash is that of the node's own proposal, or of a value it has received. */
  ghost predicate HasReceived(cfg: Config, inputs: seq<Input>, h: Hash) {
    h == cfg.hashValue(cfg.proposal) || exists k :: 0 <= k < |inputs| && Brings(cfg, inputs[k], h)
  }

  lemma ReceivedOneMore(cfg: Config, inputs: seq<Input>, input: Input, h: Hash)
    ensures HasReceived(cfg, inputs + [input], h) <==> HasReceived(cfg, inputs, h) || Brings(cfg, input, h)
  {
    var all := inputs + [input];
    if exists k :: 0 <= k < |inputs| && Brings(cfg, inputs[k], h) {
      var k :| 0 <= k < |inputs| && Brings(cfg, inputs[k], h);
      assert Brings(cfg, all[k], h);
    }
    if Brings(cfg, input, h) {
      assert Brings(cfg, all[|inputs|], h);
    }
  }

  /** After any inputs a node holds exactly the values it has received, and its own proposal, each under
      its hash. */
  lemma {:induction false} ValuesHeld(cfg: Config, inputs: seq<Input>)
    requires cfg.nodes > 0
    ensures Keyed(cfg, StateAfter(cfg, inputs).values)
    ensures forall h :: h in StateAfter(cfg, inputs).values <==> HasReceived(cfg, inputs, h)
  {
    if inputs != [] {
      var init, last := inputs[..|inputs| - 1], inputs[|inputs| - 1];
      assert inputs == init + [last];
      ValuesHeld(cfg, init);
      var values := StateAfter(cfg, init).values;
      forall h
        ensures HasReceived(cfg, inputs, h) <==> HasReceived(cfg, init, h) || Brings(cfg, last, h)
      {
        ReceivedOneMore(cfg, init, last, h);
      }
      if last.Receive? {
        HandleStores(cfg, StateAfter(cfg, init), last.cm);
        StoresAll(cfg, values, last.cm.values);
      }
    }
  }

  /** The hash a message refers to: its own, or that of the prepared value a ROUND-CHANGE announces. */
  function Referred(m: Msg): Option<Hash> {
    if m.msgType != RoundChange then m.valueHash
    else if m.preparedRound == 0 then None
    else Some(m.preparedValueHash)
  }

  lemma ReferredHash(cfg: Config, mv: Move)
    requires cfg.nodes > 0 && Legal(cfg, mv) && NodeInv(cfg, mv.pre) && mv.sent.Some?
    ensures CarriesKnown(mv.post.values, Referred(mv.sent.value.msg), mv.sent.value.values)
  {
  }

  /** Whatever a node broadcasts carries exactly one value, the one whose hash it refers to, when the node
      has received it, and none otherwise. */
  lemma {:induction false} BroadcastCarriesValue(cfg: Config, inputs: seq<Input>, k: nat)
    requires ValidRun(cfg, inputs) && k < |inputs| && Broadcasts(cfg, inputs, k).Some?
    ensures var sent := Broadcasts(cfg, inputs, k).value;
            var h := Referred(sent.msg);
            if h.Some? && HasReceived(cfg, inputs[..k + 1], h.value)
            then |sent.values| == 1 && cfg.hashValue(sent.values[0]) == h.value
            else sent.values == []
  {
    MovesAreLegal(cfg, inputs, k);
    ReferredHash(cfg, MoveAt(cfg, inputs, k));
    ValuesHeld(cfg, inputs[..k + 1]);
  }

  /** So does the PRE-PREPARE that opens round 1, of the node's own proposal. */
  lemma {:induction false} OpeningCarriesProposal(cfg: Config, inputs: seq<Input>)
    requires ValidConfig(cfg) && cfg.numPeers > 0
    ensures var h := cfg.hashValue(cfg.proposal);
            var sent := SentBy(BroadcastMessage(cfg, StateAfter(cfg, inputs).values, PrePrepare, 1, h, []));
            sent.Some? && sent.value.msg.valueHash == Some(h)
            && |sent.value.values| == 1 && cfg.hashValue(sent.value.values[0]) == h
  {
    var h := cfg.hashValue(cfg.proposal);
    ValuesHeld(cfg, inputs);
    var unsigned := Unsigned(cfg, PrePrepare, 1, Some(h), None, None);
    BroadcastShape(cfg, unsigned, [], Known(StateAfter(cfg, inputs).values, Some(h)));
    assert ValidMsg(unsigned);
  }

  // Limits

  /** The hashes that a message refers to as its own or as prepared. */
  function RefersTo(m: Msg): set<Hash> {
    (if m.valueHash.Some? then {m.valueHash.value} else {}) + {m.preparedValueHash}
  }

  function AllReferences(ms: seq<Msg>): set<Hash> {
    if ms == [] then {} else AllReferences(ms[..|ms| - 1]) + RefersTo(ms[|ms| - 1])
  }

  lemma {:induction false} ReferencesCount(ms: seq<Msg>)
    ensures |AllReferences(ms)| <= 2 * |ms|
    decreases |ms|
  {
    if ms != [] {
      ReferencesCount(ms[..|ms| - 1]);
      var m := ms[|ms| - 1];
      assert |RefersTo(m)| <= 2;
      assert |AllReferences(ms)| <= |AllReferences(ms[..|ms| - 1])| + |RefersTo(m)|;
    }
  }

  lemma {:induction false} HashesCount(cfg: Config, vs: seq<Bytes>, hs: set<Hash>)
    requires forall i, j :: 0 <= i < j < |vs| ==> cfg.hashValue(vs[i]) != cfg.hashValue(vs[j])
    requires forall i :: 0 <= i < |vs| ==> cfg.hashValue(vs[i]) in hs
    ensures |vs| <= |hs|
    decreases |vs|
  {
    if vs != [] {
      var last := cfg.hashValue(vs[|vs| - 1]);
      HashesCount(cfg, vs[..|vs| - 1], hs - {last});
      assert hs == (hs - {last}) + {last};
    }
  }

  /** The limits refuse no message that carries different values only, each referred to by it or by a message
      it embeds, and embeds at most 2n; and they refuse every message with more values than that. */
  lemma {:induction false} LimitsOnValues(cfg: Config, cm: ConsensusMsg)
    requires |cm.justification| <= 2 * cfg.nodes
    ensures (forall i, j :: 0 <= i < j < |cm.values| ==> cfg.hashValue(cm.values[i]) != cfg.hashValue(cm.values[j]))
            && (forall i :: 0 <= i < |cm.values| ==>
                  cfg.hashValue(cm.values[i]) in AllReferences([cm.msg] + cm.justification)) ==>
              VerifyMsgLimits(cm, cfg.nodes) == None
    ensures |cm.values| > 2 * |[cm.msg] + cm.justification| ==>
              VerifyMsgLimits(cm, cfg.nodes) == Some(TooManyValues)
  {
    var all := [cm.msg] + cm.justification;
    ReferencesCount(all);
    if (forall i, j :: 0 <= i < j < |cm.values| ==> cfg.hashValue(cm.values[i]) != cfg.hashValue(cm.values[j]))
       && (forall i :: 0 <= i < |cm.values| ==> cfg.hashValue(cm.values[i]) in AllReferences(all)) {
      HashesCount(cfg, cm.values, AllReferences(all));
    }
  }
}
