/** The upon-rules of one QBFT instance, as functions of the node's state.

    These are the specification the class in QbftProtocol is proved against, and the transition
    function the network model runs. */
module QbftRules {
  import opened Duties
  import opened SymbolicBytes
  import opened Wrappers
  import opened Dicts
  import opened QbftMessages

  const MAX_DECIDED_RESENDS: nat := 16

  datatype UponRule =
    | Nothing
    | JustifiedPrePrepare
    | QuorumPrepares
    | QuorumCommits
    | UnjustQuorumRoundChanges
    | FPlus1RoundChanges
    | QuorumRoundChanges
    | JustifiedDecided

  /** What never changes during an instance. `signer` is the node's signature over the signing root
      of an unsigned message and `hashValue` the hash of an encoded value. */
  datatype Config = Config(
    nodes: nat,
    duty: Duty,
    peer: nat,
    proposal: Bytes,
    numPeers: nat,
    signer: Msg -> Bytes,
    hashValue: Bytes -> Hash)

  type Buffer = Dict<nat, seq<ConsensusMsg>>

  datatype State = State(
    round: nat,
    preparedRound: Option<nat>,
    preparedValueHash: Option<Hash>,
    preparedJustification: seq<Msg>,
    qCommit: seq<Msg>,
    buffer: Buffer,
    dedup: set<(UponRule, nat)>,
    resends: map<nat, (nat, nat)>,
    values: map<Hash, Bytes>)

  /** What a call returns: the messages to send, copy `k` to peer `k`, or the exception it raised. */
  datatype Outcome = Sent(msgs: seq<ConsensusMsg>) | Raised(error: Error)

  datatype Step = Step(state: State, outcome: Outcome)

  function InitialState(cfg: Config): State {
    State(1, None, None, [], [], [], {}, map[], map[cfg.hashValue(cfg.proposal) := cfg.proposal])
  }

  // Selecting messages

  /** The message filters of the rules. */
  datatype Query =
    | Votes(msgType: MsgType, round: nat, valueHash: Option<Hash>)
    | RoundChanges(round: nat)
    | UnpreparedRoundChanges(round: nat)
    | HashedPrepares

  predicate Unprepared(m: Msg) {
    m.preparedRound == 0 && m.preparedValueHash == ZERO_HASH
  }

  predicate Hit(q: Query, m: Msg) {
    match q
    case Votes(t, r, h) => m.msgType == t && m.round == r && m.valueHash == h
    case RoundChanges(r) => m.msgType == RoundChange && m.round == r
    case UnpreparedRoundChanges(r) => m.msgType == RoundChange && m.round == r && Unprepared(m)
    case HashedPrepares => m.msgType == Prepare && m.valueHash.Some?
  }

  /** The messages of `ms` that a query hits, in order and with repeats. */
  function Select(q: Query, ms: seq<Msg>): (r: seq<Msg>)
    ensures |r| <= |ms|
  {
    if ms == [] then []
    else Select(q, ms[..|ms| - 1]) + if Hit(q, ms[|ms| - 1]) then [ms[|ms| - 1]] else []
  }

  // The message buffer

  function BufferMessage(buffer: Buffer, cm: ConsensusMsg): Buffer {
    Put(buffer, cm.msg.peerIdx, Get(buffer, cm.msg.peerIdx, []) + [cm])
  }

  /** One peer's messages, each followed by the messages justifying it. */
  function FlattenMsgs(cms: seq<ConsensusMsg>): seq<Msg> {
    if cms == [] then []
    else FlattenMsgs(cms[..|cms| - 1]) + [cms[|cms| - 1].msg] + cms[|cms| - 1].justification
  }

  function Flatten(buffer: Buffer): seq<Msg> {
    if buffer == [] then []
    else Flatten(buffer[..|buffer| - 1]) + FlattenMsgs(buffer[|buffer| - 1].1)
  }

  // Justification checks

  type PreparedKey = (nat, Hash)

  /** How many PREPAREs carry each (round, hash), in order of first appearance. */
  function TallyPrepares(ms: seq<Msg>): Dict<PreparedKey, nat> {
    if ms == [] then []
    else
      var tally := TallyPrepares(ms[..|ms| - 1]);
      var m := ms[|ms| - 1];
      if Hit(HashedPrepares, m) then
        var key := (m.round, m.valueHash.value);
        Put(tally, key, Get(tally, key, 0) + 1)
      else tally
  }

  /** The first key with the highest round. */
  function HighestKey(tally: Dict<PreparedKey, nat>): PreparedKey
    requires tally != []
  {
    if |tally| == 1 then tally[0].0
    else
      var best := HighestKey(tally[..|tally| - 1]);
      if tally[|tally| - 1].0.0 > best.0 then tally[|tally| - 1].0 else best
  }

  function IsJustifiedPrePrepare(cfg: Config, cm: ConsensusMsg): Result<bool, Error>
    requires cfg.nodes > 0
  {
    var msg := cm.msg;
    if msg.msgType != PrePrepare then Success(false)
    else if !IsLeader(cfg.nodes, cfg.duty, msg.round, msg.peerIdx) then Success(false)
    else if msg.round == 1 then Success(true)
    else
      var qrc := Select(RoundChanges(msg.round), cm.justification);
      if |qrc| < Quorum(cfg.nodes) then Success(false)
      else if forall rc :: rc in qrc ==> Unprepared(rc) then Success(true)
      else
        var tally := TallyPrepares(cm.justification);
        if tally == [] then Failure(MaxOfNothing)
        else
          var key := HighestKey(tally);
          if Get(tally, key, 0) < Quorum(cfg.nodes) then Success(false)
          else if exists rc :: rc in qrc && rc.preparedRound > 0 && rc.preparedRound > key.0 then Success(false)
          else if !exists rc :: rc in qrc && rc.preparedRound == key.0 && rc.preparedValueHash == key.1 then
            Success(false)
          else Success(Some(key.1) == msg.valueHash)
  }

  predicate IsJustifiedRoundChange(cfg: Config, cm: ConsensusMsg) {
    && cm.msg.msgType == RoundChange
    && (|| (cm.justification == [] && Unprepared(cm.msg))
        || |Select(Votes(Prepare, cm.msg.preparedRound, Some(cm.msg.preparedValueHash)), cm.justification)|
           >= Quorum(cfg.nodes))
  }

  predicate IsJustifiedDecided(cfg: Config, cm: ConsensusMsg) {
    && cm.msg.msgType == Decided
    && |Select(Votes(Commit, cm.msg.round, cm.msg.valueHash), cm.justification)| >= Quorum(cfg.nodes)
  }

  function IsJustified(cfg: Config, cm: ConsensusMsg): Result<bool, Error>
    requires cfg.nodes > 0
  {
    match cm.msg.msgType
    case PrePrepare => IsJustifiedPrePrepare(cfg, cm)
    case Prepare => Success(true)
    case Commit => Success(true)
    case RoundChange => Success(IsJustifiedRoundChange(cfg, cm))
    case Decided => Success(IsJustifiedDecided(cfg, cm))
  }

  // Classification

  /** The latest future ROUND-CHANGE of each source, stopping once `limit` sources are known. */
  function HighestBySource(ms: seq<Msg>, round: nat, limit: int): Dict<nat, Msg> {
    if ms == [] then []
    else
      var highest := HighestBySource(ms[..|ms| - 1], round, limit);
      var m := ms[|ms| - 1];
      if |highest| == limit || m.msgType != RoundChange || m.round <= round then highest
      else if Has(highest, m.peerIdx) && Get(highest, m.peerIdx, m).round > m.round then highest
      else Put(highest, m.peerIdx, m)
  }

  type PrepareSets = Dict<PreparedKey, Dict<nat, Msg>>

  /** PREPAREs grouped by (round, hash), keeping the last one of each source. */
  function GroupPrepares(ms: seq<Msg>): PrepareSets {
    if ms == [] then []
    else
      var sets := GroupPrepares(ms[..|ms| - 1]);
      var m := ms[|ms| - 1];
      if Hit(HashedPrepares, m) then
        var key := (m.round, m.valueHash.value);
        Put(sets, key, Put(Get(sets, key, []), m.peerIdx, m))
      else sets
  }

  datatype Candidates = Candidates(msgs: seq<Msg>, sources: set<nat>, hasHighest: bool)

  /** One ROUND-CHANGE per source that is prepared no later than `key`, and whether one names it. */
  function CollectCandidates(qrc: seq<Msg>, key: PreparedKey): Candidates {
    if qrc == [] then Candidates([], {}, false)
    else
      var c := CollectCandidates(qrc[..|qrc| - 1], key);
      var rc := qrc[|qrc| - 1];
      if (rc.preparedRound > 0 && rc.preparedRound > key.0) || rc.peerIdx in c.sources then c
      else Candidates(
        c.msgs + [rc],
        c.sources + {rc.peerIdx},
        c.hasHighest || (rc.preparedRound == key.0 && rc.preparedValueHash == key.1))
  }

  /** The justification one group of PREPAREs supports, if it does. */
  function GroupSupport(group: (PreparedKey, Dict<nat, Msg>), qrc: seq<Msg>, quorum: nat): Option<seq<Msg>> {
    var c := CollectCandidates(qrc, group.0);
    if |group.1| >= quorum && |c.msgs| >= quorum && c.hasHighest then Some(c.msgs + Values(group.1)) else None
  }

  /** The support of the first group that has one. */
  function FirstSupport(sets: PrepareSets, qrc: seq<Msg>, quorum: nat): Option<seq<Msg>> {
    if sets == [] then None
    else
      var earlier := FirstSupport(sets[..|sets| - 1], qrc, quorum);
      if earlier.Some? then earlier else GroupSupport(sets[|sets| - 1], qrc, quorum)
  }

  function JustifyQuorum(all: seq<Msg>, round: nat, quorum: nat): Option<seq<Msg>> {
    var unprepared := Select(UnpreparedRoundChanges(round), all);
    if |unprepared| >= quorum then Some(unprepared)
    else FirstSupport(GroupPrepares(all), Select(RoundChanges(round), all), quorum)
  }

  function ClassifyRoundChange(cfg: Config, state: State, msg: Msg): (UponRule, seq<Msg>)
    requires cfg.nodes > 0
  {
    var all := Flatten(state.buffer);
    if msg.round < state.round then (Nothing, [])
    else if msg.round > state.round then
      var highest := HighestBySource(all, state.round, Faulty(cfg.nodes) + 1);
      if |highest| < Faulty(cfg.nodes) + 1 then (Nothing, []) else (FPlus1RoundChanges, Values(highest))
    else if |Select(RoundChanges(msg.round), all)| < Quorum(cfg.nodes) then (Nothing, [])
    else
      var justified := JustifyQuorum(all, msg.round, Quorum(cfg.nodes));
      if justified.None? then (UnjustQuorumRoundChanges, [])
      else if !IsLeader(cfg.nodes, cfg.duty, msg.round, cfg.peer) then (Nothing, [])
      else (QuorumRoundChanges, justified.value)
  }

  function ClassifyVote(cfg: Config, state: State, msg: Msg, rule: UponRule): (UponRule, seq<Msg>) {
    var votes := Select(Votes(msg.msgType, msg.round, msg.valueHash), Flatten(state.buffer));
    if msg.round != state.round || |votes| < Quorum(cfg.nodes) then (Nothing, []) else (rule, votes)
  }

  function Classify(cfg: Config, state: State, cm: ConsensusMsg): (UponRule, seq<Msg>)
    requires cfg.nodes > 0
  {
    match cm.msg.msgType
    case Decided => (JustifiedDecided, cm.justification)
    case PrePrepare => if cm.msg.round < state.round then (Nothing, []) else (JustifiedPrePrepare, [])
    case Prepare => ClassifyVote(cfg, state, cm.msg, QuorumPrepares)
    case Commit => ClassifyVote(cfg, state, cm.msg, QuorumCommits)
    case RoundChange => ClassifyRoundChange(cfg, state, cm.msg)
  }

  // Sending

  function Unsigned(
    cfg: Config, msgType: MsgType, round: nat, valueHash: Option<Hash>,
    preparedRound: Option<nat>, preparedValueHash: Option<Hash>): Msg
  {
    Msg(msgType, cfg.duty, cfg.peer, round,
        if preparedRound.Some? then preparedRound.value else 0,
        None, valueHash,
        if preparedValueHash.Some? then preparedValueHash.value else ZERO_HASH)
  }

  function Known(values: map<Hash, Bytes>, hash: Option<Hash>): (vs: seq<Bytes>)
    ensures |vs| <= 1
  {
    if hash.Some? && hash.value in values then [values[hash.value]] else []
  }

  /** One signed copy for each peer; building a copy the validators reject raises. */
  function Broadcast(cfg: Config, unsigned: Msg, justification: seq<Msg>, values: seq<Bytes>): Outcome {
    if cfg.numPeers == 0 then Sent([])
    else if !ValidMsg(unsigned) then Raised(InvalidMessage)
    else
      var signed := unsigned.(signature := Some(cfg.signer(unsigned)));
      Sent(seq(cfg.numPeers, _ => ConsensusMsg(signed, justification, values)))
  }

  function BroadcastMessage(
    cfg: Config, values: map<Hash, Bytes>, msgType: MsgType, round: nat, valueHash: Hash,
    justification: seq<Msg>): Outcome
  {
    var carried := if msgType != RoundChange then Some(valueHash) else None;
    Broadcast(cfg, Unsigned(cfg, msgType, round, carried, None, None), justification, Known(values, Some(valueHash)))
  }

  function BroadcastRoundChange(
    cfg: Config, values: map<Hash, Bytes>, round: nat,
    preparedRound: Option<nat>, preparedValueHash: Option<Hash>, preparedJustification: seq<Msg>): Outcome
  {
    Broadcast(
      cfg,
      Unsigned(cfg, RoundChange, round, None, preparedRound, preparedValueHash),
      preparedJustification,
      Known(values, preparedValueHash))
  }

  /** The ROUND-CHANGE announcing a node's round and prepared state. */
  function Announce(cfg: Config, state: State): Outcome {
    BroadcastRoundChange(
      cfg, state.values, state.round, state.preparedRound, state.preparedValueHash, state.preparedJustification)
  }

  // Handling a message

  function StoreValues(cfg: Config, values: map<Hash, Bytes>, incoming: seq<Bytes>): map<Hash, Bytes> {
    if incoming == [] then values
    else
      var v := incoming[|incoming| - 1];
      StoreValues(cfg, values, incoming[..|incoming| - 1])[cfg.hashValue(v) := v]
  }

  function ChangeRound(state: State, round: nat): State {
    if round == state.round then state else state.(round := round, dedup := {})
  }

  function AllowDecidedResend(state: State, peerIdx: nat, round: nat): (State, bool) {
    var (highest, count) := if peerIdx in state.resends then state.resends[peerIdx] else (0, 0);
    if round <= highest || count >= MAX_DECIDED_RESENDS then (state, false)
    else (state.(resends := state.resends[peerIdx := (round, count + 1)]), true)
  }

  /** A node that has decided only rebroadcasts its decision to lagging peers. */
  function HandleDecided(cfg: Config, state: State, msg: Msg): Step
    requires state.qCommit != []
  {
    if msg.peerIdx == cfg.peer || msg.msgType != RoundChange then Step(state, Sent([]))
    else
      var (state', allowed) := AllowDecidedResend(state, msg.peerIdx, msg.round);
      var hash := state.qCommit[0].valueHash;
      if !allowed || hash.None? then Step(state', Sent([]))
      else Step(state', BroadcastMessage(cfg, state'.values, Decided, state'.round, hash.value, state'.qCommit))
  }

  function OnPrePrepare(cfg: Config, state: State, msg: Msg): Step {
    var state' := ChangeRound(state, msg.round);
    if msg.valueHash.None? then Step(state', Sent([]))
    else Step(state', BroadcastMessage(cfg, state'.values, Prepare, state'.round, msg.valueHash.value, []))
  }

  function OnQuorumPrepares(cfg: Config, state: State, msg: Msg, prepares: seq<Msg>): Step {
    var state' := state.(
      preparedRound := Some(msg.round), preparedValueHash := msg.valueHash, preparedJustification := prepares);
    if msg.valueHash.None? then Step(state', Sent([]))
    else Step(state', BroadcastMessage(cfg, state'.values, Commit, state'.round, msg.valueHash.value, []))
  }

  function Decide(state: State, msg: Msg, commits: seq<Msg>): Step {
    Step(ChangeRound(state, msg.round).(qCommit := commits), Sent([]))
  }

  /** The smallest round of `frc`, or the exception its first unexpected message raises. */
  function MinFutureRound(frc: seq<Msg>, round: nat): Result<nat, Error>
    requires frc != []
  {
    var last := frc[|frc| - 1];
    var here :=
      if last.msgType != RoundChange then Failure(FrcNotRoundChange)
      else if last.round <= round then Failure(FrcRoundNotFuture)
      else Success(last.round);
    if |frc| == 1 then here
    else
      var earlier := MinFutureRound(frc[..|frc| - 1], round);
      if earlier.Failure? then earlier
      else if here.Success? && here.value >= earlier.value then earlier
      else here
  }

  function OnFPlus1(cfg: Config, state: State, frc: seq<Msg>): Step
    requires cfg.nodes > 0
  {
    if |frc| < Faulty(cfg.nodes) + 1 then Step(state, Raised(FrcTooShort))
    else
      var rmin := MinFutureRound(frc, state.round);
      if rmin.Failure? then Step(state, Raised(rmin.error))
      else
        var state' := ChangeRound(state, rmin.value);
        Step(state', Announce(cfg, state'))
  }

  /** Propose the prepared value the justification names, or else the node's own. */
  function ProposedHash(cfg: Config, justification: seq<Msg>): Hash {
    var tally := TallyPrepares(justification);
    if tally != [] && Get(tally, HighestKey(tally), 0) >= Quorum(cfg.nodes) then HighestKey(tally).1
    else cfg.hashValue(cfg.proposal)
  }

  function OnQuorumRoundChanges(cfg: Config, state: State, justification: seq<Msg>): Step {
    var hash := ProposedHash(cfg, justification);
    Step(state, BroadcastMessage(cfg, state.values, PrePrepare, state.round, hash, justification))
  }

  function Fire(cfg: Config, state: State, msg: Msg, rule: UponRule, justification: seq<Msg>): Step
    requires cfg.nodes > 0
  {
    match rule
    case Nothing => Step(state, Sent([]))
    case JustifiedPrePrepare => OnPrePrepare(cfg, state, msg)
    case QuorumPrepares => OnQuorumPrepares(cfg, state, msg, justification)
    case QuorumCommits => Decide(state, msg, justification)
    case JustifiedDecided => Decide(state, msg, justification)
    case FPlus1RoundChanges => OnFPlus1(cfg, state, justification)
    case QuorumRoundChanges => OnQuorumRoundChanges(cfg, state, justification)
    case UnjustQuorumRoundChanges => Step(state, Sent([]))
  }

  /** Buffer a justified message, then fire the rule it triggers unless it fired in this round. */
  function HandleJustified(cfg: Config, state: State, cm: ConsensusMsg): Step
    requires cfg.nodes > 0
  {
    var buffered := state.(buffer := BufferMessage(state.buffer, cm));
    var (rule, justification) := Classify(cfg, buffered, cm);
    if rule == Nothing || (rule, state.round) in state.dedup then Step(buffered, Sent([]))
    else Fire(cfg, buffered.(dedup := state.dedup + {(rule, state.round)}), cm.msg, rule, justification)
  }

  function Handle(cfg: Config, state: State, cm: ConsensusMsg): Step
    requires cfg.nodes > 0
  {
    var limits := VerifyMsgLimits(cm, cfg.nodes);
    if limits.Some? then Step(state, Raised(limits.value))
    else
      var stored := state.(values := StoreValues(cfg, state.values, cm.values));
      if cm.msg.duty != cfg.duty then Step(stored, Sent([]))
      else if stored.qCommit != [] then HandleDecided(cfg, stored, cm.msg)
      else
        var justified := IsJustified(cfg, cm);
        if justified.Failure? then Step(stored, Raised(justified.error))
        else if !justified.value then Step(stored, Sent([]))
        else HandleJustified(cfg, stored, cm)
  }

  /** A round timeout of an undecided node: enter the next round and announce it. */
  function Timeout(cfg: Config, state: State): Step {
    if state.qCommit != [] then Step(state, Sent([]))
    else
      var state' := ChangeRound(state, state.round + 1);
      Step(state', Announce(cfg, state'))
  }
}
