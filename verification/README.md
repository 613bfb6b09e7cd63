# Verification of the distributed validator specification

A Dafny model of the parts of `dv_spec` that carry its safety: the QBFT consensus instance, the
interpolation that threshold signatures rest on, the Merkle hashes that bind cluster files and
consensus values, and the priority protocol's reduction. The model takes the form of the code:
`QBFTConsensus`, `Transport` and `HashWalker` are classes whose methods update their fields, loops are
loops, and each is proved against a function of its inputs or old state. The properties of those
functions, over whole runs where there are runs, are lemmas.

`dafny verify dfyconfig.toml` checks everything.

## What is modelled

* **Consensus** (`Qbft*.dfy`). `QbftProtocol` is the node, `QbftRules` its transition function,
  `QbftNode` and `QbftNodeRuns` what every step and every run of one node keeps on arbitrary valid
  messages, `QbftEvidence` what an accepted message proves, `QbftCompleteness` and `QbftUpon` when
  each rule fires and what it does, `QbftValues` which values go along, `QbftEmission` and
  `QbftOverflow` what peers make of what it sends, `QbftResends` the limiter after a decision.
  `QbftNetwork` and `QbftAgreement` are a cluster of nodes over an asynchronous network,
  `QbftAcceptance` and `QbftLaggard` what they make of each other's messages there,
  `QbftAvailability` that they know the values they decide, and `QbftDecides` a run in which all
  decide. The network loses, delays and reorders messages and delivers each at most once; nodes
  crash, and undecided ones time out. A round timeout and the opening PRE-PREPARE of round 1 are
  events of the environment, because `handle_message` performs neither. The signature of a message
  and the hash of a value are functions given with a node's configuration.
* **Hashing** (`SymbolicBytes.dfy`, `Ssz*.dfy`, `HashWalking.dfy`, `Cluster*.dfy`).
  SHA-256 is symbolic: a digest byte remembers its preimage, so digests are equal exactly when
  their preimages are, and no digest byte is a byte of the program's own data. `SszValues` is the
  recursive definition of hash tree roots that the walker is proved against; `SszReading` and
  `ClusterReading` open roots again and find every field in its place.
* **Encodings** (`Proto.dfy`, `QbftHashing.dfy`, `UnsignedDataSet.dfy`). The repository has no
  decoder; the ones here exist to show that an encoding can be read in one way only.
* **Interpolation** (`Congruence.dfy`, `Polynomials.dfy`, `Lagrange.dfy`, `Interpolation.dfy`,
  `ShareVerification.dfy`). Residues modulo a prime `p`, with share indices below it. Curve points are
  represented by their discrete logarithms, so equal points are equal residues.
* **The trigger** (`Threshold.dfy`) and **priorities** (`PriorityMessages.dfy`, `Priority.dfy`,
  `PriorityResult.dfy`, `PriorityTies.dfy`). The reduction is proved for any hash that identifies
  strings, and the hash it uses is proved to be one.

`Dicts.dfy`, `Grouping.dfy`, `Sorting.dfy`, `Duties.dfy` and `Wrappers.dfy` hold insertion-ordered
dictionaries, grouping, stable sorting, duties and result types. An exception is a `Failure` or
`Raised` result.

## Where the code and its documentation disagree

The model follows the code.

* `sigagg/threshold.py:112-115` says the trigger fires exactly once. It does when all signatures are
  over one root; in general a later signature over another root selects the full group again.
* `priority/scoring.py:9-13` says more supporters always rank first. They do exactly as long as the
  positions they gave exceed the rival's by less than 1000 for each further supporter, because the
  penalty is summed over all supporters; positions that sum to less than 1000 are enough for that.
* `qbft/message.py:158-160` takes 2n as a bound on every legitimate justification. A node counts
  repeated ROUND-CHANGEs and PREPAREs, so a proposal and a ROUND-CHANGE of its own can exceed it.
  The former takes repeated deliveries, the latter only a slow node.
* `encoding/ssz.py:252-258` describes the capacity of an integer list in items; the check is in whole
  chunks. They agree exactly for positive multiples of four, as the one capacity in use, 256, is.
* `cluster/hashing.py:294-295` says the lock hash covers the definition and the validators. It does not
  cover the length of a fee recipient, so locks with different recipients can share a verified hash.
* A decided node reports the hash of the first message in the justification it adopted, which a
  peer may have filled with something else than matching COMMITs.
* `UponRule.ROUND_TIMEOUT` is declared and never handled.

## Model

| member | source | states |
|---|---|---|
| `QbftAgreement.Agreement` | src/dv_spec/subspecs/consensus/qbft/protocol.py:450-611 | in every run of every cluster, with crashes, loss, reordering, delivery at most once, timeouts of undecided nodes and one opening PRE-PREPARE, any two nodes that have decided hold the same value hash, whatever their rounds, and it is the hash of some node's proposal |
| `QbftAgreement.DecisionsAreFinal` | src/dv_spec/subspecs/consensus/qbft/protocol.py:471-492 | no later event of a run changes a decision or the round it was made in |
| `QbftAgreement.AgreementOverTime` | src/dv_spec/subspecs/consensus/qbft/protocol.py:471-492 | nodes that decide at different moments of a run still agree |
| `QbftAgreement.RunInv` | src/dv_spec/subspecs/consensus/qbft/protocol.py:450-611 | every state of every run satisfies the network invariant the agreement proof rests on |
| `QbftAgreement.ProposalSafe` | src/dv_spec/subspecs/consensus/qbft/protocol.py:348-411 | a PRE-PREPARE built on a quorum of ROUND-CHANGEs rules out every other value of every earlier round: a quorum of nodes can never commit to it any more |
| `QbftNetwork.QuorumsAgree` | src/dv_spec/subspecs/consensus/qbft/definition.py:22-28 | two quorums of COMMITs, of the same or of different rounds, are for one value |
| `QbftNetwork.InvImpliesValidity` | src/dv_spec/subspecs/consensus/qbft/protocol.py:600-603 | a decided value was proposed by a node |
| `QbftMessages.QuorumsIntersect` | src/dv_spec/subspecs/consensus/qbft/definition.py:22-28 | any two quorums share a node |
| `QbftMessages.QuorumAndFaults` | src/dv_spec/subspecs/consensus/qbft/definition.py:22-28 | a quorum is the least number that is at least two thirds of the nodes, the tolerated faults the greatest below one third, and the other nodes make a quorum |
| `QbftMessages.LeaderIsOne` | src/dv_spec/subspecs/consensus/qbft/definition.py:30-32 | a round of a duty has one leader |
| `QbftMessages.LeaderRotates` | src/dv_spec/subspecs/consensus/qbft/definition.py:30-32 | leadership starts at node 0 and passes to the next node with each slot, each type of duty and each round |
| `QbftDecides.EveryNodeDecides` | src/dv_spec/subspecs/consensus/qbft/protocol.py:450-545 | decisions are reachable: every cluster has a run, without crashes or losses, in which every node decides what the leader of round 1 proposed |
| `QbftAcceptance.SentIsAccepted` | src/dv_spec/subspecs/consensus/qbft/protocol.py:222-239 | in every run of every cluster, whatever any node sends passes the justification check of every node, and all but ROUND-CHANGEs are within the limits of every node |
| `QbftLaggard.SlowNodeOverflows` | src/dv_spec/subspecs/consensus/qbft/protocol.py:518-527 | the failing run for those: in every cluster that tolerates a fault, unless the leader's hash is the zero hash, some run without crashes or losses has a node broadcast a ROUND-CHANGE that every node rejects for its size |
| `QbftAvailability.DecidedValueIsKnown` | src/dv_spec/subspecs/consensus/qbft/transport.py:54-60 | in every run of every cluster whose nodes hash alike, a node that has decided holds a value with the hash it decided |
| `QbftAvailability.SentCarriesItsValue` | src/dv_spec/subspecs/consensus/qbft/transport.py:118-123 | and whatever is sent carries a value with the hash it refers to |
| `QbftProtocol.QbftConsensus.HandleMessage` | src/dv_spec/subspecs/consensus/qbft/protocol.py:450-611 | the method that updates the node's fields changes its whole state, and answers, as the transition function that the runs are made of |
| `QbftProtocol.QbftConsensus.Classify` | src/dv_spec/subspecs/consensus/qbft/protocol.py:262-421 | the loops over the flattened buffer find the rule and the justification of the specification |
| `QbftProtocol.QbftConsensus.IsJustifiedPrePrepare` | src/dv_spec/subspecs/consensus/qbft/protocol.py:115-176 | the tally loop and the checks after it, including the exception when there is no PREPARE to take a maximum of |
| `QbftProtocol.QbftConsensus.Flatten` | src/dv_spec/subspecs/consensus/qbft/protocol.py:241-260 | the nested loops list every buffered message followed by its justifications |
| `QbftProtocol.QbftConsensus.AllowDecidedResend` | src/dv_spec/subspecs/consensus/qbft/protocol.py:431-448 | updates the (round, count) pair of one source |
| `QbftTransport.Transport.BroadcastMessage` | src/dv_spec/subspecs/consensus/qbft/transport.py:69-131 | one signed copy for each peer, carrying the values it refers to |
| `QbftTransport.Transport.BroadcastRoundChange` | src/dv_spec/subspecs/consensus/qbft/transport.py:133-187 | the ROUND-CHANGE with the prepared round, hash and justification |
| `QbftValues.ValuesHeld` | src/dv_spec/subspecs/consensus/qbft/protocol.py:461-466 | after any inputs a node holds exactly its own proposal and the values of all messages within the limits, each under its hash |
| `QbftValues.BroadcastCarriesValue` | src/dv_spec/subspecs/consensus/qbft/transport.py:118-123 | over every run on arbitrary valid messages, a broadcast carries exactly the value whose hash it refers to, as its own or as prepared, when the node has received that value, and none otherwise |
| `QbftValues.OpeningCarriesProposal` | src/dv_spec/subspecs/consensus/qbft/protocol.py:108-113 | the PRE-PREPARE that opens round 1 carries the proposal |
| `QbftValues.LimitsOnValues` | src/dv_spec/subspecs/consensus/qbft/message.py:163-181 | the limits refuse no different values that a message or its justifications refer to, and refuse more than they can refer to |
| `QbftEvidence.ProposalJustifiedIff` | src/dv_spec/subspecs/consensus/qbft/protocol.py:125-176 | for any message whatever: a PRE-PREPARE of a later round is justified exactly when its sender leads, a quorum of its justifications are ROUND-CHANGEs of the round, and either none of these is prepared, or its hash is that of the first PREPARE of the highest round among the PREPAREs, which a quorum of them bear, no ROUND-CHANGE is prepared later and one names it; and exactly when it raises |
| `QbftEvidence.FirstProposalJustified` | src/dv_spec/subspecs/consensus/qbft/protocol.py:118-123 | one of round 1 is justified exactly when its sender leads |
| `QbftEvidence.RoundChangeJustifiedIff` | src/dv_spec/subspecs/consensus/qbft/protocol.py:178-203 | a valid ROUND-CHANGE is justified exactly when it announces nothing prepared and brings nothing, or brings a quorum of PREPAREs for what it announces |
| `QbftEvidence.DecidedJustifiedIff` | src/dv_spec/subspecs/consensus/qbft/protocol.py:205-220 | a DECIDED is justified exactly when a quorum of its justifications are COMMITs for its round and hash |
| `QbftCompleteness.JustificationFoundIff` | src/dv_spec/subspecs/consensus/qbft/protocol.py:348-411 | the search is complete: over any buffer a justification is found exactly when a quorum of the round's ROUND-CHANGEs are unprepared, or some key has PREPAREs from a quorum of sources and eligible ROUND-CHANGEs from a quorum, the first of one source naming it |
| `QbftCompleteness.JustificationChosen` | src/dv_spec/subspecs/consensus/qbft/protocol.py:382-409 | and it is that of the key which, of all with such support, appears first in the buffer |
| `QbftUpon.NotBuffered` | src/dv_spec/subspecs/consensus/qbft/protocol.py:458-496 | a message over the limits changes nothing, and one for another duty or unjustified leaves only its values |
| `QbftUpon.ProposalTakesEffect` | src/dv_spec/subspecs/consensus/qbft/protocol.py:507-516 | exactly when a justified PRE-PREPARE takes effect, in any state, and the new state and PREPARE it causes |
| `QbftUpon.PrepareTakesEffect` | src/dv_spec/subspecs/consensus/qbft/protocol.py:518-527 | exactly when a PREPARE completes a quorum, counted by messages, and the prepared state and COMMIT it causes |
| `QbftUpon.CommitTakesEffect` | src/dv_spec/subspecs/consensus/qbft/protocol.py:529-534 | exactly when a COMMIT decides, and on what |
| `QbftUpon.DecidedTakesEffect` | src/dv_spec/subspecs/consensus/qbft/protocol.py:536-545 | a justified DECIDED is adopted whatever its round |
| `QbftUpon.ProposesIff` | src/dv_spec/subspecs/consensus/qbft/protocol.py:338-421 | a ROUND-CHANGE of the current round makes the node propose exactly when it leads, has not proposed in the round and its buffer suffices; it proposes its own hash when a quorum is unprepared, and else that of the key chosen |
| `QbftUpon.PreparedKeyIsProposed` | src/dv_spec/subspecs/consensus/qbft/protocol.py:369-409 | so with one ROUND-CHANGE each from a quorum of sources, none prepared later than a key and one naming it, and PREPAREs for it from a quorum of sources, the leader proposes that key's hash, unless another key is prepared by a quorum |
| `QbftUpon.MovesIff` | src/dv_spec/subspecs/consensus/qbft/protocol.py:310-336 | a ROUND-CHANGE of a later round moves the node exactly when f+1 sources have announced later rounds; it enters the smallest of their latest rounds, as far as the buffer is read before it holds f+1 sources, and announces it with its prepared state |
| `QbftUpon.TimeoutTakesEffect` | src/dv_spec/subspecs/consensus/qbft/protocol.py:46-46 | a timeout always enters the next round and announces it, unless the prepared hash is one no valid message can bear |
| `QbftNode.HandleGood` | src/dv_spec/subspecs/consensus/qbft/protocol.py:450-611 | any valid message from anybody keeps the node invariant, and every state change and broadcast it causes is one of those listed as legal |
| `QbftNode.TimeoutGood` | src/dv_spec/subspecs/consensus/qbft/protocol.py:46-46 | a round timeout keeps the node invariant |
| `QbftNodeRuns.ReachableInv` | src/dv_spec/subspecs/consensus/qbft/protocol.py:423-545 | in every reachable state: a prepared round comes with a quorum of PREPAREs for exactly that round and hash and does not exceed the round while undecided, and every dedup key names the current round |
| `QbftNodeRuns.RunsAdvance` | src/dv_spec/subspecs/consensus/qbft/protocol.py:423-429 | while undecided neither the round nor the prepared round decreases; once decided, round, buffer, prepared state and commit quorum never change |
| `QbftNodeRuns.BroadcastOncePerRound` | src/dv_spec/subspecs/consensus/qbft/protocol.py:499-603 | over every run a node broadcasts at most one COMMIT, one ROUND-CHANGE and one PRE-PREPARE for a round, although the dedup table is cleared on each round change; the opening PRE-PREPARE, which the environment sends, is not counted |
| `QbftNodeRuns.AtMostTwoPrepares` | src/dv_spec/subspecs/consensus/qbft/protocol.py:507-516 | a node broadcasts at most two PREPAREs for a round |
| `QbftNodeRuns.PrepareTwice` | src/dv_spec/subspecs/consensus/qbft/protocol.py:503-516 | and two it can be: a PRE-PREPARE that moved the node to a new round is answered again when it is delivered again |
| `QbftNode.SanityChecksNeverFire` | src/dv_spec/subspecs/consensus/qbft/protocol.py:547-561 | the three checks on f+1 ROUND-CHANGEs never raise, in any state |
| `QbftNode.FPlus1NeverRaises` | src/dv_spec/subspecs/consensus/qbft/protocol.py:310-336 | classification hands over at least f+1 ROUND-CHANGEs, of distinct sources, all for later rounds |
| `QbftJustification.JustificationShape` | src/dv_spec/subspecs/consensus/qbft/protocol.py:348-411 | a justification found in any buffer is a quorum of unprepared ROUND-CHANGEs, or a quorum of PREPAREs of one key with a quorum of ROUND-CHANGEs of distinct sources none of which prepared later |
| `QbftEmission.ProposalAccepted` | src/dv_spec/subspecs/consensus/qbft/protocol.py:115-176 | a PRE-PREPARE emitted on a quorum of ROUND-CHANGEs, from any buffer of valid messages, is justified at every peer of the instance |
| `QbftEmission.ProposalInRunAccepted` | src/dv_spec/subspecs/consensus/qbft/protocol.py:576-603 | so is every PRE-PREPARE a reachable node broadcasts on a message, in any run on arbitrary valid messages |
| `QbftEmission.ProposalWithinLimits` | src/dv_spec/subspecs/consensus/qbft/message.py:153-181 | when it passes the receivers' limits: exactly when the unprepared ROUND-CHANGEs of the round, counted with repeats, number at most 2n; with distinct sources, as in the prepared branch, it always does |
| `QbftEmission.ProposalInRunWithinLimits` | src/dv_spec/subspecs/consensus/qbft/message.py:153-181 | so for every PRE-PREPARE broadcast on a message in a run: within the limits exactly when the node then holds at most 2n unprepared ROUND-CHANGEs of the round, counted with repeats |
| `QbftOverflow.RepeatsOverflowProposal` | src/dv_spec/subspecs/consensus/qbft/protocol.py:352-366 | the failing run, in a cluster that tolerates a fault: one peer's ROUND-CHANGE delivered 2n + 1 times, with a timeout before the last, makes the leader of round 2 broadcast a PRE-PREPARE that every peer rejects for its size |
| `QbftEmission.RoundChangeAccepted` | src/dv_spec/subspecs/consensus/qbft/protocol.py:178-203 | every ROUND-CHANGE a reachable node emits is justified at every peer |
| `QbftEmission.RoundChangeInRunWithinLimits` | src/dv_spec/subspecs/consensus/qbft/message.py:153-181 | and within the limits exactly when the PREPAREs the node prepared on, counted with repeats, number at most 2n |
| `QbftOverflow.RepeatsOverflowRoundChange` | src/dv_spec/subspecs/consensus/qbft/protocol.py:518-527 | the failing run: a ROUND-CHANGE that embeds one PREPARE 2n times, that PREPARE once more, and a timeout make a node broadcast a ROUND-CHANGE that every peer rejects for its size |
| `QbftEmission.DecidedAccepted` | src/dv_spec/subspecs/consensus/qbft/protocol.py:205-220 | every DECIDED a node emits is justified at every peer, and carries only matching COMMITs, as long as the DECIDEDs it received carried only matching ones |
| `QbftEmission.DecidedAcceptedIff` | src/dv_spec/subspecs/consensus/qbft/protocol.py:471-492 | whatever was received, an emitted DECIDED is justified at every peer exactly when the commit quorum it resends holds a quorum of COMMITs for the round decided and the hash of its first message |
| `QbftEmission.AdoptedDecisionResent` | src/dv_spec/subspecs/consensus/qbft/protocol.py:471-492 | for an adopted decision: it is resent under the hash of the first message of its justification, accepted exactly when the justification holds a quorum of COMMITs for that hash, and not resent at all when that message bears none, although the limiter counts the request |
| `QbftEmission.StrayCommitSwapsDecision` | src/dv_spec/subspecs/consensus/qbft/protocol.py:481-491 | the failing input, in a cluster of four: after a DECIDED for v whose justification starts with a COMMIT for w, the node announces w, and every peer finds that unjustified |
| `QbftResends.ResendIffRecord` | src/dv_spec/subspecs/consensus/qbft/protocol.py:431-448 | over every run after the decision, a ROUND-CHANGE is answered exactly when its round exceeds all that its source asked for before, fewer than 16 of those did, and the decision bears a hash |
| `QbftResends.ResendsAreCapped` | src/dv_spec/subspecs/consensus/qbft/protocol.py:471-492 | a source is answered as often as its requests set a record, up to 16 times, and never when the decision bears no hash |
| `QbftHashing.QbftRoundTrip` | src/dv_spec/subspecs/consensus/qbft/hashing.py:29-66 | decoding inverts the encoding of an unsigned message and finds where it ends, whatever follows |
| `QbftHashing.SigningRootBinds` | src/dv_spec/subspecs/consensus/qbft/hashing.py:69-82 | two messages have one signing root exactly when they agree on everything but the signature, an absent value hash being the zero hash |
| `QbftHashing.TypeReadsBack` | src/dv_spec/subspecs/consensus/qbft/message.py:16-23 | the type sent is the number the message type has |
| `Proto.Varint` | src/dv_spec/encoding/proto.py:59-82 | the loop emits the base-128 digits of the integer's 64-bit two's complement |
| `Proto.ReadDigits` | src/dv_spec/encoding/proto.py:59-82 | a varint is read back, and ends where it should, whatever follows |
| `Proto.VarintInjective` | src/dv_spec/encoding/proto.py:71-72 | two integers share an encoding exactly when 64-bit two's complement identifies them |
| `Proto.ReadVarintFieldBack` | src/dv_spec/encoding/proto.py:90-95 | a varint field is read back, also when it is zero and so not sent |
| `Proto.ReadDelimitedBack` | src/dv_spec/encoding/proto.py:98-105 | a delimited field is read back, also when it is empty |
| `Proto.AnyStringPrefixFree` | src/dv_spec/encoding/proto.py:151-170 | no wrapped string is another followed by more bytes |
| `Proto.AnyStringReads` | src/dv_spec/encoding/proto.py:151-170 | a wrapped string is found in the fields of the wrapper and of the value |
| `UnsignedDataSet.Encode` | src/dv_spec/encoding/proto.py:130-148 | the loop over the sorted keys joins one record for each |
| `UnsignedDataSet.EncodingIgnoresOrder` | src/dv_spec/encoding/proto.py:130-148 | the encoding does not depend on the order of insertion |
| `UnsignedDataSet.EncodingAscends` | src/dv_spec/encoding/proto.py:144-146 | the encoding reads back as the map's entries in ascending order of their keys, compared at the first byte that differs |
| `UnsignedDataSet.EncodingInjective` | src/dv_spec/encoding/proto.py:130-148 | two data sets have one encoding exactly when they are the same map, empty keys and values included |
| `UnsignedDataSet.ValueHashInjective` | src/dv_spec/encoding/ssz.py:161-175 | and one hash exactly when they are the same map, although the hash mixes in no length |
| `Ssz.DepthIsLeast` | src/dv_spec/encoding/ssz.py:70-75 | the depth is the least whose tree has room for the chunks |
| `Ssz.ZeroHashes` | src/dv_spec/encoding/ssz.py:57-67 | the table holds the root of the zero subtree of each height |
| `Ssz.Merkleize` | src/dv_spec/encoding/ssz.py:107-150 | the layer loop, completing odd layers from the table, ends with one node, the root of the full tree over the chunks zero-padded to its leaves |
| `Ssz.PairUpKeepsRoot` | src/dv_spec/encoding/ssz.py:143-148 | hashing neighbours takes a level off a tree and keeps its root |
| `Ssz.TreeRootInjective` | src/dv_spec/encoding/ssz.py:107-150 | a root determines the zero-padded leaves of a tree of given depth |
| `Ssz.HashProtoEqualIff` | src/dv_spec/encoding/ssz.py:161-175 | two encodings that start with a byte of the program's own hash alike exactly when their trees have one depth and they agree once zero-padded to its leaves |
| `Ssz.HashProtoUpToZeros` | src/dv_spec/encoding/ssz.py:13-16 | encodings that start with a byte of the program's own and hash alike differ by trailing zeros at most |
| `Ssz.HashProtoSame` | src/dv_spec/encoding/ssz.py:161-175 | any two encodings, digests in them included, hash alike exactly when the leaves of the shallower tree are the roots of the deeper one's subtrees |
| `SszReading.Uint64Reads` | src/dv_spec/encoding/ssz.py:153-158 | the chunk of an integer holds it little-endian in its first eight bytes, and zeros |
| `SszReading.BoolReads` | src/dv_spec/encoding/ssz.py:248-250 | the chunk of a boolean is one or zero, then zeros |
| `SszReading.ConcatReads` | src/dv_spec/encoding/ssz.py:252-267 | in a list of integers each takes eight bytes, little-endian, in order |
| `SszReading.MixInOpens` | src/dv_spec/encoding/ssz.py:293-296 | a list's root opens to the root of its tree and a chunk with the count |
| `SszReading.ContainerOpens` | src/dv_spec/encoding/ssz.py:107-150 | opening digests on the way down from a container's root finds the root of each field at its place |
| `SszReading.ListOpens` | src/dv_spec/encoding/ssz.py:278-296 | and from a list's root its count, the root of each item, and zeros after them |
| `SszReading.ByteListOpens` | src/dv_spec/encoding/ssz.py:327-345 | and from a byte list's root its length and each byte |
| `SszReading.Uint64ListOpens` | src/dv_spec/encoding/ssz.py:252-267 | and from an integer list's root its length and each integer |
| `SszValues.RootBinds` | src/dv_spec/encoding/ssz.py:178-192 | among values of one SSZ shape the hash tree root determines the value |
| `HashWalking.HashWalker.constructor` | src/dv_spec/encoding/ssz.py:194-197 | a walk starts with an empty buffer |
| `HashWalking.HashWalker.AppendBytes32` | src/dv_spec/encoding/ssz.py:203-213 | appends the bytes padded to whole chunks, nothing for the empty string |
| `HashWalking.HashWalker.PutBytes` | src/dv_spec/encoding/ssz.py:221-236 | appends one chunk, the root of the bytes, or nothing for the empty string |
| `HashWalking.HashWalker.PutUint64` | src/dv_spec/encoding/ssz.py:238-246 | appends the integer's chunk, or raises when it is out of range |
| `HashWalking.HashWalker.PutBool` | src/dv_spec/encoding/ssz.py:248-250 | appends the boolean's chunk |
| `HashWalking.HashWalker.PutUint64Array` | src/dv_spec/encoding/ssz.py:252-267 | appends the list's root with its length mixed in; raises exactly when an integer is out of range or the integers need more chunks than the capacity has |
| `HashWalking.WholeChunkCapacity` | src/dv_spec/encoding/ssz.py:87-104 | the check accepts exactly the lists of at most that many integers if and only if the capacity is positive and a multiple of four, so that the integers fill whole chunks |
| `HashWalking.HashWalker.Merkleize` | src/dv_spec/encoding/ssz.py:269-276 | replaces the chunks since a position by their root, or raises when they are not whole |
| `HashWalking.HashWalker.MerkleizeWithMixin` | src/dv_spec/encoding/ssz.py:278-296 | the same for a list, sized for its capacity, with the number of items mixed in |
| `HashWalking.HashWalker.HashRoot` | src/dv_spec/encoding/ssz.py:298-309 | the one chunk left, or an error |
| `HashWalking.PutByteList` | src/dv_spec/encoding/ssz.py:327-345 | appends the root of the SSZ byte list, or raises exactly when it is too long |
| `HashWalking.PutBytesN` | src/dv_spec/encoding/ssz.py:348-367 | appends the root of the left-padded vector, or raises exactly when it is too long |
| `ClusterHashing.PutAddress` | src/dv_spec/cluster/hashing.py:69-105 | appends the address, or raises exactly when it does not decode to 20 bytes |
| `ClusterHashing.HashDefinition` | src/dv_spec/cluster/hashing.py:108-176 | the walk keeps what was in the buffer, and appends one chunk, the SSZ root of the fields the hash covers, or raises exactly when a field does not fit its type |
| `ClusterHashing.HashDepositData` | src/dv_spec/cluster/hashing.py:179-191 | the same for a deposit |
| `ClusterHashing.HashRegistration` | src/dv_spec/cluster/hashing.py:194-203 | the same for a registration; an empty fee recipient leaves the container a field short |
| `ClusterHashing.HashBuilderRegistration` | src/dv_spec/cluster/hashing.py:206-211 | the same for a signed registration |
| `ClusterHashing.HashValidator` | src/dv_spec/cluster/hashing.py:214-242 | the same for a validator with its shares and deposits |
| `ClusterHashing.HashLock` | src/dv_spec/cluster/hashing.py:245-260 | the same for a lock |
| `ClusterHashing.ConfigHash` | src/dv_spec/cluster/hashing.py:263-277 | the root without ENRs, signatures and stored hashes; only the version or a field's content can make it fail, never an unbalanced walk |
| `ClusterHashing.DefinitionHash` | src/dv_spec/cluster/hashing.py:280-291 | the root of the whole definition, likewise |
| `ClusterHashing.LockHash` | src/dv_spec/cluster/hashing.py:294-305 | the root of the lock, likewise |
| `ClusterReading.DefinitionReads` | src/dv_spec/cluster/hashing.py:119-176 | the definition root opens to each of the fifteen fields at its place, and to the config hash when that is covered |
| `ClusterReading.OperatorReads` | src/dv_spec/cluster/hashing.py:130-141 | the operator's fields, each at its place |
| `ClusterReading.AddressesRead` | src/dv_spec/cluster/hashing.py:143-163 | the creator's and the validators' addresses |
| `ClusterReading.DepositReads` | src/dv_spec/cluster/hashing.py:179-191 | the deposit's fields |
| `ClusterReading.RegistrationReads` | src/dv_spec/cluster/hashing.py:194-203 | the registration's fields, one place up when there is no fee recipient |
| `ClusterReading.BuilderReads` | src/dv_spec/cluster/hashing.py:206-211 | the registration before its signature |
| `ClusterReading.ValidatorReads` | src/dv_spec/cluster/hashing.py:214-242 | the validator's key, shares, deposits and registration |
| `ClusterReading.LockReads` | src/dv_spec/cluster/hashing.py:245-260 | the definition before the validators |
| `ClusterReading.FixedReads` | src/dv_spec/encoding/ssz.py:348-367 | a short value of fixed size has its zeros on the left |
| `ClusterReading.AddressReads` | src/dv_spec/cluster/hashing.py:69-100 | exactly the texts that spell twenty bytes in hexadecimal, in either case and with or without `0x`, decode to them |
| `ClusterBinding.DefinitionHashBinds` | src/dv_spec/cluster/hashing.py:263-291 | two definitions that can be hashed have one hash exactly when they agree on all it covers, up to the spelling of addresses and absent ones equalling zero; so the config hash binds its fields and never changes with ENRs, signatures or stored hashes |
| `ClusterBinding.LockHashBinds` | src/dv_spec/cluster/hashing.py:294-305 | two locks that can be hashed have one hash exactly when they agree on their definitions, but for the stored definition hash, and on their validators; a fee recipient counts as the same when its tree is, and an empty one only as another empty one |
| `ClusterBinding.RecipientsOfLength` | src/dv_spec/cluster/hashing.py:197-199 | fee recipients of one length are the same to the hash exactly when they are equal |
| `ClusterBinding.LiteralRecipients` | src/dv_spec/cluster/hashing.py:197-199 | fee recipients of the program's own bytes are the same to the hash exactly when both or neither are empty, their trees have one depth and they agree once zero-padded to its leaves |
| `ClusterBinding.RecipientSwapKeepsHash` | src/dv_spec/cluster/hashing.py:333-346 | a verified lock with a fee recipient replaced still verifies, with the lock hash it states, exactly when the new recipient is the same to the hash |
| `ClusterBinding.LongerRecipientCollides` | src/dv_spec/cluster/hashing.py:197-199 | so every verified lock has a different twin that verifies with the same hash: a zero byte appended to a fee recipient whose length is no multiple of 32 |
| `ClusterBinding.CollidingLocks` | src/dv_spec/cluster/hashing.py:197-199 | and such locks exist: two that verify with one lock hash, one recipient being 19 bytes and the other those bytes and a zero |
| `ClusterBinding.VerifyDefinitionHashes` | src/dv_spec/cluster/hashing.py:308-330 | accepts exactly the definitions whose stored hashes are those of their content |
| `ClusterBinding.VerifyLockHash` | src/dv_spec/cluster/hashing.py:333-346 | accepts exactly the locks whose stored hashes are those of their content |
| `ClusterBinding.VerifiedLocksAgree` | src/dv_spec/cluster/hashing.py:333-346 | two verified locks state one lock hash exactly when they agree on all it covers, fee recipients as far as the hash tells them apart; their stored config and definition hashes are then equal too |
| `ClusterBinding.VerifiedRecipientsAgree` | src/dv_spec/cluster/hashing.py:333-346 | verified locks that state one lock hash have equal fee recipients wherever those have one length |
| `ClusterBinding.AddressValues` | src/dv_spec/cluster/hashing.py:69-100 | two addresses hash alike exactly when they stand for the same 20 bytes |
| `Interpolation.LagrangeCoefficient` | src/dv_spec/crypto/bls.py:118-162 | the loop computes the product of the factors modulo the prime, with the error of each check and of a denominator without inverse |
| `Interpolation.InterpolateAtZero` | src/dv_spec/crypto/bls.py:165-177 | the loop adds up the points weighted by their coefficients |
| `Interpolation.AggregationCoefficients` | src/dv_spec/subspecs/sigagg/aggregation.py:64-82 | the coefficient of every index |
| `Lagrange.CoefficientDefinedIff` | src/dv_spec/crypto/bls.py:118-162 | modulo a prime a coefficient exists exactly for one of several different positive indices, none equal to it modulo the prime |
| `Lagrange.SumOfOnes` | src/dv_spec/crypto/bls.py:118-162 | the coefficients of any quorum of distinct indices below the modulus add up to one |
| `Lagrange.Recovers` | src/dv_spec/crypto/bls.py:118-223 | they recover f(0) from the values of any polynomial f of lower degree than the quorum is large |
| `Lagrange.Interpolant` | src/dv_spec/cluster/verification.py:85-92 | through any values at distinct indices passes a polynomial of lower degree than there are indices |
| `Lagrange.LambdaNonZero` | src/dv_spec/crypto/bls.py:118-162 | no coefficient is zero |
| `ShareVerification.InterpolationRecovers` | src/dv_spec/crypto/bls.py:165-223 | interpolating points of a polynomial yields its value at zero, whichever points they are |
| `ShareVerification.QuorumsAgree` | src/dv_spec/crypto/bls.py:180-202 | any two quorums of partial signatures over one message aggregate to the same signature, the group key's own |
| `ShareVerification.VerifySharesReconstruct` | src/dv_spec/cluster/verification.py:85-119 | accepts exactly when the threshold is in range and the shares of every validator are the values of one polynomial of degree below it whose value at zero is the group key |
| `ShareVerification.EveryQuorumRecovers` | src/dv_spec/cluster/verification.py:88-91 | so its n - t + 1 checks stand for all quorums: each one recovers the group key |
| `ShareVerification.VerifyPubshareCounts` | src/dv_spec/cluster/verification.py:53-82 | accepts exactly when every validator has one share for each operator, none twice, and no group key is repeated |
| `Threshold.StorePartialSignature` | src/dv_spec/subspecs/sigagg/threshold.py:62-96 | the first stored signature of the share decides: append, ignore a repeat, refuse another |
| `Threshold.StoreMeans` | src/dv_spec/subspecs/sigagg/threshold.py:86-96 | a signature of a new share is appended; of a stored share the first stored signature is ignored and any other refused |
| `Threshold.StoredIsFirst` | src/dv_spec/subspecs/sigagg/threshold.py:62-96 | a run stores exactly the first signature of each share |
| `Threshold.OneSlotPerShare` | src/dv_spec/subspecs/sigagg/threshold.py:66-71 | so over a run a share has one slot: the same again is ignored, anything else refused |
| `Threshold.SelectThresholdMatching` | src/dv_spec/subspecs/sigagg/threshold.py:99-147 | the grouping loop selects the first group of exactly the threshold, or the whole DKG exchange at exactly the threshold |
| `Threshold.SelectedMeans` | src/dv_spec/subspecs/sigagg/threshold.py:99-147 | a group is selected whenever one has exactly the threshold of members |
| `Threshold.SelectedIsFirst` | src/dv_spec/subspecs/sigagg/threshold.py:142-146 | of several full groups the one whose root comes first |
| `Threshold.SelectAggregationInputs` | src/dv_spec/subspecs/sigagg/aggregation.py:85-119 | keys the signatures by share, and raises when there are too few of either |
| `Threshold.KeyByShareMeans` | src/dv_spec/subspecs/sigagg/aggregation.py:111-111 | a share that is repeated keeps its last signature |
| `Threshold.FiringsAgree` | src/dv_spec/subspecs/sigagg/threshold.py:117-119 | in a run with 2t > n all firings select the same group |
| `Threshold.FiringAggregates` | src/dv_spec/subspecs/sigagg/aggregation.py:85-119 | what fires passes the count checks with exactly t signatures of t shares |
| `Threshold.FiresAgainIff` | src/dv_spec/subspecs/sigagg/threshold.py:112-115 | after a first firing, an accepted signature fires again exactly while no further signature over the fired root is stored |
| `Threshold.RefiresIff` | src/dv_spec/subspecs/sigagg/threshold.py:112-115 | the next signature fires again exactly when it is over another root |
| `Threshold.OneRootFiresOnce` | src/dv_spec/subspecs/sigagg/threshold.py:112-115 | when all roots agree exactly the t-th accepted signature fires |
| `PriorityMessages.PriorityHashInjective` | src/dv_spec/subspecs/priority/scoring.py:51-58 | no two strings share the hash topics and priorities are compared by |
| `PriorityMessages.PriorityHashIdentifies` | src/dv_spec/subspecs/priority/scoring.py:51-58 | so that hash is one the whole reduction is proved for |
| `Priority.ValidateMsgs` | src/dv_spec/subspecs/priority/scoring.py:61-106 | accepts exactly one message a peer, all for one duty, each topic and each priority in it once, fewer than the maximum |
| `Priority.ScoreTopic` | src/dv_spec/subspecs/priority/scoring.py:148-176 | the loops over dictionaries of hashes compute the scores, the stable ranking and the cut |
| `Priority.EqualScoresKeepOrder` | src/dv_spec/subspecs/priority/scoring.py:112-118 | equal scores are ranked in the order first seen |
| `PriorityResult.CalculateResult` | src/dv_spec/subspecs/priority/scoring.py:109-180 | the whole reduction, for any hash that identifies strings and any order of hashes |
| `PriorityResult.ResultIgnoresOrder` | src/dv_spec/subspecs/priority/scoring.py:3-7 | every permutation of an accepted message set is accepted and has the same result |
| `PriorityResult.TopicsListed` | src/dv_spec/subspecs/priority/scoring.py:136-141 | every topic somebody named is listed, once, and no other is, in the order of the hashes |
| `PriorityResult.ListingMeans` | src/dv_spec/subspecs/priority/scoring.py:143-176 | a topic lists each priority at most once, by descending score, and lists a priority exactly when the weight of its supporters exceeds the sum of the positions they gave it by enough |
| `PriorityResult.RankingMeans` | src/dv_spec/subspecs/priority/scoring.py:112-118 | the exact ranking: of two listed priorities the one comes first whose positions exceed the other's by less than 1000 for each further supporter, and in a tie the one seen first |
| `PriorityTies.TieGoesToFirstPeer` | src/dv_spec/subspecs/priority/scoring.py:112-118 | a priority is seen first whose first peer has the smaller identifier, and of two with one first peer the one this peer lists first |
| `PriorityResult.ListedIsSupported` | src/dv_spec/subspecs/priority/scoring.py:143-145 | whatever is listed has the required number of distinct supporters |
| `PriorityResult.ListedIffSupported` | src/dv_spec/subspecs/priority/scoring.py:9-13 | while its positions sum to less than one supporter's weight, a priority is listed exactly when it has enough supporters |
| `PriorityResult.SupportersRankFirst` | src/dv_spec/subspecs/priority/scoring.py:9-13 | so more supporters rank first while their positions sum to less than one supporter's weight |
| `PriorityResult.SupportersMayLose` | src/dv_spec/subspecs/priority/scoring.py:42-48 | the failing input, an accepted set of two messages: a priority that both list at position 600 ranks below one that only one of them lists, and is left out although two supporters are required |

## Left out

- Byzantine agreement: rules and justification checks count messages, not senders, so agreement is
  stated for crash faults; the lemmas about one node hold for arbitrary messages.
- Liveness beyond the existence of a deciding run, `round_start_time` and the timers: they are
  floating-point wall-clock times.
- `_flatten` wraps justifications as messages of their own without values; here it returns the plain
  messages, since nothing downstream looks at more.
- `quorum` and `faulty` use floating-point division; here they are exact, which differs only for
  clusters beyond 2^50 nodes.
- Building a message the field validators reject is a `Raised` result; other parsing of pydantic and
  JSON, hex fields in files and `extra` keys are not modelled.
- A cluster has at least one node; with none the original's leader election divides by zero.
- Signing and verifying signatures, ECDSA and BLS alike, curve arithmetic, point encodings and their
  errors: signatures are opaque, points are discrete logarithms.
- `verify_signature_aggregate` and `verify_node_signatures`: calls into the signature libraries.
- `require_supported_version` while parsing, and the check that `num_validators` matches the address
  list: the hash functions do not depend on the latter.
- UTF-8 encoding: text fields hold their bytes, and code-point order is the order of those bytes.
- The order of topic hashes is a parameter, since a symbolic digest has no numeric value.
- Byte strings that do not fit in memory, and chunk lists beyond 2^64: `merkleize` is modelled for the
  sizes its table covers.
- `peerinfo`, `parsigex`, `dkg_sync`, `reliable_bcast`, `infosync`, the DKG message models and the
  scripts: data shapes, single checks and file handling that would add only easy members.
- HashWalking.CloseContainer: states the effect of `merkleize` for the caller that knows which values it
  appended; the walk's contract speaks of those values.
