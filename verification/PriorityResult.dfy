/** The cluster-wide result: what it lists, and that it does not depend on the order of messages. */
module PriorityResult {
  import opened Duties
  import opened SymbolicBytes
  import opened Wrappers
  import opened Dicts
  import opened Grouping
  import opened Sorting
  import opened PriorityMessages
  import opened Priority

  function ByPeer(): (PriorityMsg, PriorityMsg) -> bool {
    (a: PriorityMsg, b: PriorityMsg) => LexLeq(a.peerId, b.peerId)
  }

  function TopicOf(t: TopicProposal): Text {
    t.topic
  }

  function HashOf(hash: Text -> Bytes): TopicProposal -> Bytes {
    (t: TopicProposal) => hash(t.topic)
  }

  function ByHash(hash: Text -> Bytes, leq: (Bytes, Bytes) -> bool): (Text, Text) -> bool {
    (a, b) => leq(hash(a), hash(b))
  }

  function AllTopics(msgs: seq<PriorityMsg>): seq<TopicProposal>
    decreases |msgs|
  {
    if msgs == [] then [] else AllTopics(msgs[..|msgs| - 1]) + msgs[|msgs| - 1].topics
  }

  /** The proposals for one topic, in the order of their peers. */
  function ProposalsFor(msgs: seq<PriorityMsg>, topic: Text): seq<TopicProposal> {
    Group(AllTopics(Sort(msgs, ByPeer())), TopicOf, topic)
  }

  function Topics(msgs: seq<PriorityMsg>): seq<Text> {
    FirstKeys(AllTopics(Sort(msgs, ByPeer())), TopicOf)
  }

  function ResultFor(msgs: seq<PriorityMsg>, minRequired: int): Text -> TopicResult {
    topic => TopicResult(topic, TopicScores(ProposalsFor(msgs, topic), (minRequired - 1) * COUNT_WEIGHT))
  }

  /** One result per topic, in the order of the topics' hashes. */
  function TopicResults(hash: Text -> Bytes, leq: (Bytes, Bytes) -> bool, msgs: seq<PriorityMsg>, minRequired: int)
    : seq<TopicResult>
  {
    Map(ResultFor(msgs, minRequired), Sort(Topics(msgs), ByHash(hash, leq)))
  }

  // Calculation

  /** The inner loop, over one message's topics. */
  method GroupTopics(hash: Text -> Bytes, topics: seq<TopicProposal>, proposals0: Dict<Bytes, seq<TopicProposal>>,
      ghost before: seq<TopicProposal>)
    returns (proposals: Dict<Bytes, seq<TopicProposal>>)
    requires Grouped(proposals0, before, HashOf(hash))
    ensures Grouped(proposals, before + topics, HashOf(hash))
  {
    proposals := proposals0;
    assert before + topics[..0] == before;
    for j := 0 to |topics|
      invariant Grouped(proposals, before + topics[..j], HashOf(hash))
    {
      var key := hash(topics[j].topic);
      GroupsGrow(proposals, before + topics[..j], HashOf(hash), topics[j]);
      assert before + topics[..j + 1] == before + topics[..j] + [topics[j]];
      proposals := Put(proposals, key, Get(proposals, key, []) + [topics[j]]);
    }
    assert topics[..|topics|] == topics;
  }

  method GroupByTopic(hash: Text -> Bytes, ordered: seq<PriorityMsg>)
    returns (proposals: Dict<Bytes, seq<TopicProposal>>)
    ensures Grouped(proposals, AllTopics(ordered), HashOf(hash))
  {
    proposals := [];
    for i := 0 to |ordered|
      invariant Grouped(proposals, AllTopics(ordered[..i]), HashOf(hash))
    {
      proposals := GroupTopics(hash, ordered[i].topics, proposals, AllTopics(ordered[..i]));
      assert ordered[..i + 1][..i] == ordered[..i];
    }
    assert ordered[..|ordered|] == ordered;
  }

  /** A topic's hash with its result. */
  function Keyed(hash: Text -> Bytes, msgs: seq<PriorityMsg>, minRequired: int): Text -> (Bytes, TopicResult) {
    topic => (hash(topic), ResultFor(msgs, minRequired)(topic))
  }

  lemma GroupOfTopic(hash: Text -> Bytes, msgs: seq<PriorityMsg>, groups: Dict<Bytes, seq<TopicProposal>>, k: nat)
    requires Identifies(hash) && Grouped(groups, AllTopics(Sort(msgs, ByPeer())), HashOf(hash)) && k < |groups|
    ensures k < |Topics(msgs)| == |groups|
    ensures groups[k] == (hash(Topics(msgs)[k]), ProposalsFor(msgs, Topics(msgs)[k]))
    ensures groups[k].1 != [] && groups[k].1[0].topic == Topics(msgs)[k]
  {
    var all := AllTopics(Sort(msgs, ByPeer()));
    GroupsUnderImage(all, TopicOf, HashOf(hash), hash);
    var topic := Topics(msgs)[k];
    KeysAppear(all, TopicOf, topic);
    GroupMembers(all, TopicOf, topic);
    assert ProposalsFor(msgs, topic)[0] in ProposalsFor(msgs, topic);
  }

  lemma GroupPerTopic(hash: Text -> Bytes, msgs: seq<PriorityMsg>, groups: Dict<Bytes, seq<TopicProposal>>)
    requires Identifies(hash) && Grouped(groups, AllTopics(Sort(msgs, ByPeer())), HashOf(hash))
    ensures |Topics(msgs)| == |groups|
  {
    GroupsUnderImage(AllTopics(Sort(msgs, ByPeer())), TopicOf, HashOf(hash), hash);
  }

  method ScoreGroup(hash: Text -> Bytes, group: (Bytes, seq<TopicProposal>), minRequired: int,
                    ghost msgs: seq<PriorityMsg>, ghost topic: Text)
    returns (result: (Bytes, TopicResult))
    requires Identifies(hash) && group == (hash(topic), ProposalsFor(msgs, topic))
    requires group.1 != [] && group.1[0].topic == topic
    ensures result == Keyed(hash, msgs, minRequired)(topic)
  {
    var priorities := ScoreTopic(hash, group.1, (minRequired - 1) * COUNT_WEIGHT);
    result := (group.0, TopicResult(group.1[0].topic, priorities));
  }

  method ScoreTopics(hash: Text -> Bytes, groups: Dict<Bytes, seq<TopicProposal>>, minRequired: int,
      ghost msgs: seq<PriorityMsg>)
    returns (results: seq<(Bytes, TopicResult)>)
    requires Identifies(hash) && Grouped(groups, AllTopics(Sort(msgs, ByPeer())), HashOf(hash))
    ensures results == Map(Keyed(hash, msgs, minRequired), Topics(msgs))
  {
    ghost var topics := Topics(msgs);
    GroupPerTopic(hash, msgs, groups);
    results := [];
    for k := 0 to |groups|
      invariant |results| == k
      invariant forall j :: 0 <= j < k ==> results[j] == Keyed(hash, msgs, minRequired)(topics[j])
    {
      GroupOfTopic(hash, msgs, groups, k);
      var result := ScoreGroup(hash, groups[k], minRequired, msgs, topics[k]);
      results := results + [result];
    }
  }

  /** `leq` is the order of hashes, which the symbolic hash leaves open. */
  method CalculateResult(hash: Text -> Bytes, leq: (Bytes, Bytes) -> bool, msgs: seq<PriorityMsg>, minRequired: int)
    returns (r: Result<seq<TopicResult>, PriorityError>)
    requires Identifies(hash) && TotalPreorder(leq)
    ensures r.Success? <==> Acceptable(msgs)
    ensures r.Success? ==> r.value == TopicResults(hash, leq, msgs, minRequired)
  {
    var _ :- ValidateMsgs(hash, msgs);
    var ordered := Sort(msgs, ByPeer());
    var groups := GroupByTopic(hash, ordered);
    var results := ScoreTopics(hash, groups, minRequired, msgs);
    var byKey := (a: (Bytes, TopicResult), b: (Bytes, TopicResult)) => leq(a.0, b.0);
    SortMapped(Keyed(hash, msgs, minRequired), Topics(msgs), ByHash(hash, leq), byKey);
    var inOrder := Sort(results, byKey);
    r := Success(Map((x: (Bytes, TopicResult)) => x.1, inOrder));
  }

  // Order of messages

  predicate DistinctSenders(msgs: seq<PriorityMsg>) {
    forall i, j :: 0 <= i < j < |msgs| ==> msgs[i].peerId != msgs[j].peerId
  }

  lemma PeerOrder()
    ensures TotalPreorder(ByPeer())
    ensures forall a: PriorityMsg, b: PriorityMsg :: ByPeer()(a, b) && ByPeer()(b, a) ==> a.peerId == b.peerId
  {
    LexPreorder();
  }

  lemma SamePeerSameMessage(msgs: seq<PriorityMsg>)
    requires DistinctSenders(msgs)
    ensures forall a <- msgs, b <- msgs :: a.peerId == b.peerId ==> a == b
  {
  }

  lemma {:induction false} PeerOnce(msgs: seq<PriorityMsg>, m: PriorityMsg)
    requires DistinctSenders(msgs)
    ensures multiset(msgs)[m] <= 1
    decreases |msgs|
  {
    if msgs != [] {
      var init, last := msgs[..|msgs| - 1], msgs[|msgs| - 1];
      assert msgs == init + [last];
      PeerOnce(init, m);
      if m == last {
        assert last !in init;
      }
    }
  }

  lemma PeersStayDistinct(msgs: seq<PriorityMsg>, others: seq<PriorityMsg>)
    requires DistinctSenders(msgs) && multiset(msgs) == multiset(others)
    ensures DistinctSenders(others)
  {
    forall i, j | 0 <= i < j < |others|
      ensures others[i].peerId != others[j].peerId
    {
      var a, b := others[..j], others[j..];
      assert others == a + b && a[i] == others[i] && b[0] == others[j];
      assert multiset(others) == multiset(a) + multiset(b);
      PeerOnce(msgs, others[i]);
      assert others[i] in multiset(a) && others[j] in multiset(b);
      SamePeerSameMessage(msgs);
      assert others[i] in multiset(msgs) && others[j] in multiset(msgs);
    }
  }

  lemma SameMessages(msgs: seq<PriorityMsg>, others: seq<PriorityMsg>)
    requires multiset(msgs) == multiset(others)
    ensures forall m :: m in msgs <==> m in others
  {
    forall m
      ensures m in msgs <==> m in others
    {
      assert m in msgs <==> m in multiset(msgs);
      assert m in others <==> m in multiset(others);
    }
  }

  lemma AcceptableIgnoresOrder(msgs: seq<PriorityMsg>, others: seq<PriorityMsg>)
    requires Acceptable(msgs) && multiset(msgs) == multiset(others)
    ensures Acceptable(others)
  {
    PeersStayDistinct(msgs, others);
    SameMessages(msgs, others);
    assert msgs[0] in others;
    assert others[0] in msgs;
  }

  /** Every node computes the same result from the same messages, in whatever order they arrived. */
  lemma ResultIgnoresOrder(hash: Text -> Bytes, leq: (Bytes, Bytes) -> bool, msgs: seq<PriorityMsg>,
                           others: seq<PriorityMsg>, minRequired: int)
    requires Acceptable(msgs) && multiset(msgs) == multiset(others)
    ensures Acceptable(others)
    ensures TopicResults(hash, leq, msgs, minRequired) == TopicResults(hash, leq, others, minRequired)
  {
    PeerOrder();
    SamePeerSameMessage(msgs);
    SortIgnoresOrder(msgs, others, ByPeer());
    AcceptableIgnoresOrder(msgs, others);
    forall topic
      ensures ResultFor(msgs, minRequired)(topic) == ResultFor(others, minRequired)(topic)
    {
    }
  }

  // Supporters

  /** The message lists the priority under the topic. */
  predicate Proposes(m: PriorityMsg, topic: Text, priority: Text) {
    exists t <- m.topics :: t.topic == topic && priority in t.priorities
  }

  function Supporters(msgs: seq<PriorityMsg>, topic: Text, priority: Text): set<Text> {
    set m | m in msgs && Proposes(m, topic, priority) :: m.peerId
  }

  lemma {:induction false} SupportConcat(a: seq<TopicProposal>, b: seq<TopicProposal>, priority: Text)
    ensures Support(a + b, priority) == Support(a, priority) + Support(b, priority)
    decreases |b|
  {
    if b == [] {
      assert a + b == a;
    } else {
      assert (a + b)[..|a + b| - 1] == a + b[..|b| - 1];
      SupportConcat(a, b[..|b| - 1], priority);
    }
  }

  lemma {:induction false} AtMostOneProposal(topics: seq<TopicProposal>, topic: Text)
    requires forall i, j :: 0 <= i < j < |topics| ==> topics[i].topic != topics[j].topic
    ensures |Group(topics, TopicOf, topic)| <= 1
    decreases |topics|
  {
    if topics != [] {
      AtMostOneProposal(topics[..|topics| - 1], topic);
      GroupMembers(topics[..|topics| - 1], TopicOf, topic);
    }
  }

  /** A message naming each topic once counts once if it proposes the priority. */
  lemma SupportOfMessage(m: PriorityMsg, topic: Text, priority: Text)
    requires TopicsAcceptable(m.topics)
    ensures Support(Group(m.topics, TopicOf, topic), priority) == if Proposes(m, topic, priority) then 1 else 0
  {
    var group := Group(m.topics, TopicOf, topic);
    AtMostOneProposal(m.topics, topic);
    GroupMembers(m.topics, TopicOf, topic);
    if group != [] {
      assert group[0] in group && group == [group[0]];
      assert group[..0] == [];
    }
  }

  lemma SupporterSet(init: seq<PriorityMsg>, last: PriorityMsg, topic: Text, priority: Text)
    ensures Supporters(init + [last], topic, priority)
            == Supporters(init, topic, priority) + if Proposes(last, topic, priority) then {last.peerId} else {}
  {
    forall m
      ensures m in init + [last] <==> m in init || m == last
    {
    }
  }

  lemma SupportersOneMore(init: seq<PriorityMsg>, last: PriorityMsg, topic: Text, priority: Text)
    requires DistinctSenders(init + [last])
    ensures |Supporters(init + [last], topic, priority)|
            == |Supporters(init, topic, priority)| + if Proposes(last, topic, priority) then 1 else 0
  {
    SupporterSet(init, last, topic, priority);
    var msgs := init + [last];
    forall m <- init
      ensures m.peerId != last.peerId
    {
      var i :| 0 <= i < |init| && init[i] == m;
      assert msgs[i] == m && msgs[|init|] == last;
    }
  }

  /** Counting proposals counts peers. */
  lemma {:induction false} SupportIsPeers(msgs: seq<PriorityMsg>, topic: Text, priority: Text)
    requires DistinctSenders(msgs) && forall m <- msgs :: TopicsAcceptable(m.topics)
    ensures Support(Group(AllTopics(msgs), TopicOf, topic), priority) == |Supporters(msgs, topic, priority)|
    decreases |msgs|
  {
    if msgs != [] {
      var init, last := msgs[..|msgs| - 1], msgs[|msgs| - 1];
      assert msgs == init + [last];
      SupportIsPeers(init, topic, priority);
      GroupConcat(AllTopics(init), last.topics, TopicOf, topic);
      SupportConcat(Group(AllTopics(init), TopicOf, topic), Group(last.topics, TopicOf, topic), priority);
      SupportOfMessage(last, topic, priority);
      SupportersOneMore(init, last, topic, priority);
    } else {
      assert Supporters(msgs, topic, priority) == {};
    }
  }

  lemma AcceptedInOrder(msgs: seq<PriorityMsg>)
    requires Acceptable(msgs)
    ensures var ordered := Sort(msgs, ByPeer());
            DistinctSenders(ordered) && (forall m <- ordered :: TopicsAcceptable(m.topics))
            && forall m :: m in ordered <==> m in msgs
  {
    PeerOrder();
    SortCorrect(msgs, ByPeer());
    AcceptableIgnoresOrder(msgs, Sort(msgs, ByPeer()));
  }

  lemma {:induction false} TopicsOfMessages(msgs: seq<PriorityMsg>, t: TopicProposal)
    ensures t in AllTopics(msgs) <==> exists m <- msgs :: t in m.topics
    decreases |msgs|
  {
    if msgs != [] {
      var init, last := msgs[..|msgs| - 1], msgs[|msgs| - 1];
      assert msgs == init + [last];
      TopicsOfMessages(init, t);
    }
  }

  lemma ProposalsAcceptable(msgs: seq<PriorityMsg>, topic: Text)
    requires Acceptable(msgs)
    ensures forall t <- ProposalsFor(msgs, topic) :: ProposalAcceptable(t)
  {
    var ordered := Sort(msgs, ByPeer());
    AcceptedInOrder(msgs);
    GroupMembers(AllTopics(ordered), TopicOf, topic);
    forall t <- ProposalsFor(msgs, topic)
      ensures ProposalAcceptable(t)
    {
      TopicsOfMessages(ordered, t);
    }
  }

  lemma PeersBehindSupport(msgs: seq<PriorityMsg>, topic: Text, priority: Text)
    requires Acceptable(msgs)
    ensures Support(ProposalsFor(msgs, topic), priority) == |Supporters(msgs, topic, priority)|
  {
    var ordered := Sort(msgs, ByPeer());
    AcceptedInOrder(msgs);
    SupportIsPeers(ordered, topic, priority);
    assert Supporters(ordered, topic, priority) == Supporters(msgs, topic, priority);
  }

  /** The sum of the positions that a topic's supporters gave a priority. */
  function PositionSum(msgs: seq<PriorityMsg>, topic: Text, priority: Text): nat {
    Penalty(ProposalsFor(msgs, topic), priority)
  }

  predicate EachOnce(listed: seq<ScoredPriority>) {
    forall i, j :: 0 <= i < j < |listed| ==> listed[i].priority != listed[j].priority
  }

  /** What the result lists under a topic, by descending score and each priority once. */
  lemma ListingMeans(msgs: seq<PriorityMsg>, minRequired: int, topic: Text, priority: Text, score: int)
    requires Acceptable(msgs)
    ensures var listed := ResultFor(msgs, minRequired)(topic).priorities;
            var supporters, positions := |Supporters(msgs, topic, priority)|, PositionSum(msgs, topic, priority);
            && Descending(listed) && EachOnce(listed)
            && (ScoredPriority(priority, score) in listed <==>
                  && supporters > 0
                  && score == COUNT_WEIGHT * supporters - positions
                  && positions < COUNT_WEIGHT * (supporters - minRequired + 1))
  {
    ProposalsAcceptable(msgs, topic);
    TopicScoresMean(ProposalsFor(msgs, topic), minRequired, priority, score);
    TopicScoresInOrder(ProposalsFor(msgs, topic), (minRequired - 1) * COUNT_WEIGHT);
    PeersBehindSupport(msgs, topic, priority);
  }

  /** Nothing is listed without the required number of peers. */
  lemma ListedIsSupported(msgs: seq<PriorityMsg>, minRequired: int, topic: Text, listed: ScoredPriority)
    requires Acceptable(msgs) && listed in ResultFor(msgs, minRequired)(topic).priorities
    ensures |Supporters(msgs, topic, listed.priority)| >= minRequired
  {
    ListingMeans(msgs, minRequired, topic, listed.priority, listed.score);
  }

  predicate Listed(msgs: seq<PriorityMsg>, minRequired: int, topic: Text, priority: Text) {
    exists s <- ResultFor(msgs, minRequired)(topic).priorities :: s.priority == priority
  }

  /** As long as the positions sum to less than one supporter's weight, a priority is listed exactly when
      enough peers support it. */
  lemma ListedIffSupported(msgs: seq<PriorityMsg>, minRequired: int, topic: Text, priority: Text)
    requires Acceptable(msgs) && minRequired > 0 && PositionSum(msgs, topic, priority) < COUNT_WEIGHT
    ensures Listed(msgs, minRequired, topic, priority) <==> |Supporters(msgs, topic, priority)| >= minRequired
  {
    var supporters := |Supporters(msgs, topic, priority)|;
    var score := COUNT_WEIGHT * supporters - PositionSum(msgs, topic, priority);
    ListingMeans(msgs, minRequired, topic, priority, score);
    if Listed(msgs, minRequired, topic, priority) {
      var s :| s in ResultFor(msgs, minRequired)(topic).priorities && s.priority == priority;
      ListedIsSupported(msgs, minRequired, topic, s);
    }
  }

  /** The priorities named under a topic, in the order in which they are first seen when the messages
      are read by peer. */
  function FirstSeen(msgs: seq<PriorityMsg>, topic: Text): seq<Text> {
    Seen(Votes(ProposalsFor(msgs, topic)))
  }

  predicate SeenBefore(msgs: seq<PriorityMsg>, topic: Text, a: Text, b: Text) {
    a in FirstSeen(msgs, topic) && b in FirstSeen(msgs, topic)
    && Position(FirstSeen(msgs, topic), a) < Position(FirstSeen(msgs, topic), b)
  }

  /** How a listed priority got its score. */
  lemma ListedScore(msgs: seq<PriorityMsg>, minRequired: int, topic: Text, s: ScoredPriority)
    requires Acceptable(msgs) && s in ResultFor(msgs, minRequired)(topic).priorities
    ensures s.score == COUNT_WEIGHT * |Supporters(msgs, topic, s.priority)| - PositionSum(msgs, topic, s.priority)
    ensures s.score == Score(Votes(ProposalsFor(msgs, topic)), s.priority)
    ensures s.priority in FirstSeen(msgs, topic)
  {
    ListingMeans(msgs, minRequired, topic, s.priority, s.score);
    ProposalsAcceptable(msgs, topic);
    PeersBehindSupport(msgs, topic, s.priority);
    ScoreIsSupport(ProposalsFor(msgs, topic), s.priority);
    SeenIsSupported(ProposalsFor(msgs, topic), s.priority);
  }

  lemma ListedOrder(msgs: seq<PriorityMsg>, minRequired: int, topic: Text, listed: seq<ScoredPriority>, i: nat, j: nat)
    requires Acceptable(msgs) && listed == ResultFor(msgs, minRequired)(topic).priorities
    requires i < j < |listed|
    ensures listed[i].score > listed[j].score
            || (listed[i].score == listed[j].score
                && SeenBefore(msgs, topic, listed[i].priority, listed[j].priority))
  {
    var votes := Votes(ProposalsFor(msgs, topic));
    TopicScoresInOrder(ProposalsFor(msgs, topic), (minRequired - 1) * COUNT_WEIGHT);
    ListedScore(msgs, minRequired, topic, listed[i]);
    ListedScore(msgs, minRequired, topic, listed[j]);
    assert RanksBefore(votes, listed[i].priority, listed[j].priority);
  }

  /** The exact ranking. Of two listed priorities, the one comes first whose positions exceed the other's
      by less than what its further supporters weigh, and in a tie the one seen first. */
  lemma RankingMeans(msgs: seq<PriorityMsg>, minRequired: int, topic: Text, listed: seq<ScoredPriority>, i: nat, j: nat)
    requires Acceptable(msgs) && listed == ResultFor(msgs, minRequired)(topic).priorities
    requires i < |listed| && j < |listed| && i != j
    ensures var a, b := listed[i].priority, listed[j].priority;
            var further := |Supporters(msgs, topic, a)| - |Supporters(msgs, topic, b)|;
            var excess := PositionSum(msgs, topic, a) - PositionSum(msgs, topic, b);
            i < j <==> excess < COUNT_WEIGHT * further
                       || (excess == COUNT_WEIGHT * further && SeenBefore(msgs, topic, a, b))
  {
    ListedScore(msgs, minRequired, topic, listed[i]);
    ListedScore(msgs, minRequired, topic, listed[j]);
    if i < j {
      ListedOrder(msgs, minRequired, topic, listed, i, j);
    } else {
      ListedOrder(msgs, minRequired, topic, listed, j, i);
    }
  }

  /** So more supporters rank first as long as their positions sum to less than one supporter's weight. */
  lemma SupportersRankFirst(msgs: seq<PriorityMsg>, minRequired: int, topic: Text, i: nat, j: nat)
    requires Acceptable(msgs)
    requires var listed := ResultFor(msgs, minRequired)(topic).priorities;
             && i < |listed| && j < |listed|
             && PositionSum(msgs, topic, listed[i].priority) < COUNT_WEIGHT
             && |Supporters(msgs, topic, listed[i].priority)| > |Supporters(msgs, topic, listed[j].priority)|
    ensures i < j
  {
    RankingMeans(msgs, minRequired, topic, ResultFor(msgs, minRequired)(topic).priorities, i, j);
  }

  lemma TopicsOnce(hash: Text -> Bytes, leq: (Bytes, Bytes) -> bool, msgs: seq<PriorityMsg>)
    requires TotalPreorder(leq)
    ensures DistinctTexts(Sort(Topics(msgs), ByHash(hash, leq)))
  {
    KeysDistinct(AllTopics(Sort(msgs, ByPeer())), TopicOf);
    SortTexts(Topics(msgs), ByHash(hash, leq));
    var order := Sort(Topics(msgs), ByHash(hash, leq));
    assert forall i, j :: 0 <= i < j < |order| ==>
        Precedes(order[i], order[j], ByHash(hash, leq), Places(Topics(msgs)));
  }

  predicate Named(msgs: seq<PriorityMsg>, topic: Text) {
    exists m <- msgs, t <- m.topics :: t.topic == topic
  }

  lemma TopicsNamed(msgs: seq<PriorityMsg>, topic: Text)
    requires Acceptable(msgs)
    ensures topic in Topics(msgs) <==> Named(msgs, topic)
  {
    var ordered := Sort(msgs, ByPeer());
    KeysAppear(AllTopics(ordered), TopicOf, topic);
    AcceptedInOrder(msgs);
    if topic in Topics(msgs) {
      var t :| t in AllTopics(ordered) && t.topic == topic;
      TopicsOfMessages(ordered, t);
    }
    forall m <- msgs, t <- m.topics | t.topic == topic
      ensures topic in Topics(msgs)
    {
      assert m in ordered;
      TopicsOfMessages(ordered, t);
    }
  }

  /** The result has exactly one entry for each topic somebody named, in the order of their hashes. */
  lemma TopicsListed(hash: Text -> Bytes, leq: (Bytes, Bytes) -> bool, msgs: seq<PriorityMsg>,
                     minRequired: int, topic: Text)
    requires Identifies(hash) && TotalPreorder(leq) && Acceptable(msgs)
    ensures var results := TopicResults(hash, leq, msgs, minRequired);
            && (ResultFor(msgs, minRequired)(topic) in results <==> Named(msgs, topic))
            && (forall i, j :: 0 <= i < j < |results| ==> leq(hash(results[i].topic), hash(results[j].topic)))
            && (forall i, j :: 0 <= i < j < |results| ==> results[i].topic != results[j].topic)
  {
    var results := TopicResults(hash, leq, msgs, minRequired);
    var order := Sort(Topics(msgs), ByHash(hash, leq));
    SortCorrect(Topics(msgs), ByHash(hash, leq));
    TopicsOnce(hash, leq, msgs);
    TopicsNamed(msgs, topic);
    assert forall i :: 0 <= i < |order| ==> results[i] == ResultFor(msgs, minRequired)(order[i]);
    if topic in order {
      var i :| 0 <= i < |order| && order[i] == topic;
      assert results[i] == ResultFor(msgs, minRequired)(topic);
    }
    forall i, j | 0 <= i < j < |results|
      ensures leq(hash(results[i].topic), hash(results[j].topic))
    {
      assert ByHash(hash, leq)(order[i], order[j]);
    }
  }

  // Where the condition fails

  /** The distinct texts that fill a long list. */
  function Filler(i: nat): Text
    requires i < MAX_PRIORITIES
  {
    [i / 256, i % 256]
  }

  const LATE: nat := 600

  /** Two peers' lists: both rank the same priority at position 600, and one has a first choice of its own. */
  function LongList(first: Text): (r: seq<Text>)
    ensures |r| == LATE + 1 && r[0] == first && forall i :: 1 <= i <= LATE ==> r[i] == Filler(i)
  {
    [first] + seq(LATE, i requires 0 <= i < LATE => Filler(i + 1))
  }

  lemma LongListDistinct(first: Text)
    requires |first| == 1
    ensures DistinctTexts(LongList(first))
  {
    forall i, j | 0 <= i < j < |LongList(first)|
      ensures LongList(first)[i] != LongList(first)[j]
    {
      assert i > 0 ==> Filler(i)[0] == i / 256 && Filler(i)[1] == i % 256;
      assert Filler(j)[0] == j / 256 && Filler(j)[1] == j % 256;
    }
  }

  function Rivals(): seq<TopicProposal> {
    [TopicProposal([], LongList([1])), TopicProposal([], LongList([2]))]
  }

  lemma {:induction false} RivalsAcceptable()
    ensures forall t <- Rivals() :: ProposalAcceptable(t)
  {
    LongListDistinct([1]);
    LongListDistinct([2]);
  }

  lemma TwoProposals(a: TopicProposal, b: TopicProposal, priority: Text)
    ensures Support([a, b], priority)
            == (if priority in a.priorities then 1 else 0) + if priority in b.priorities then 1 else 0
    ensures Penalty([a, b], priority)
            == (if priority in a.priorities then Position(a.priorities, priority) else 0)
               + if priority in b.priorities then Position(b.priorities, priority) else 0
  {
    assert [a, b][..1] == [a] && [a][..0] == [];
    assert Support([a], priority) == if priority in a.priorities then 1 else 0;
    assert Penalty([a], priority) == if priority in a.priorities then Position(a.priorities, priority) else 0;
  }

  lemma LateSupport()
    ensures Support(Rivals(), Filler(LATE)) == 2 && Penalty(Rivals(), Filler(LATE)) == 2 * LATE
  {
    var a, b := LongList([1]), LongList([2]);
    LongListDistinct([1]);
    LongListDistinct([2]);
    assert a[LATE] == b[LATE] == Filler(LATE);
    PositionUnique(a, LATE);
    PositionUnique(b, LATE);
    TwoProposals(Rivals()[0], Rivals()[1], Filler(LATE));
  }

  lemma FirstSupport()
    ensures Support(Rivals(), [1]) == 1 && Penalty(Rivals(), [1]) == 0
  {
    var a, b := LongList([1]), LongList([2]);
    assert a[0] == [1];
    assert forall i :: 1 <= i < |b| ==> |b[i]| == 2;
    assert [1] !in b;
    TwoProposals(Rivals()[0], Rivals()[1], [1]);
  }

  /** The messages of two peers with these lists for one topic. */
  function RivalMsgs(duty: Duty): seq<PriorityMsg> {
    [PriorityMsg(duty, [Rivals()[0]], [1], []), PriorityMsg(duty, [Rivals()[1]], [2], [])]
  }

  lemma RivalProposals(duty: Duty)
    ensures Acceptable(RivalMsgs(duty)) && ProposalsFor(RivalMsgs(duty), []) == Rivals()
  {
    var msgs := RivalMsgs(duty);
    var a, b := msgs[0], msgs[1];
    RivalsAcceptable();
    assert Rivals()[0] in Rivals() && Rivals()[1] in Rivals();
    assert Sort(msgs[1..], ByPeer()) == [b];
    assert Sort(msgs, ByPeer()) == [a, b];
    assert [a, b][..1] == [a] && [a][..0] == [];
    assert AllTopics([a]) == [Rivals()[0]];
    assert AllTopics([a, b]) == [Rivals()[0]] + [Rivals()[1]] == Rivals();
    assert Rivals()[..1] == [Rivals()[0]] && Rivals()[..1][..0] == [];
  }

  lemma LateRanksSecond(msgs: seq<PriorityMsg>)
    requires Acceptable(msgs)
    requires |Supporters(msgs, [], Filler(LATE))| == 2 && PositionSum(msgs, [], Filler(LATE)) == 2 * LATE
    requires |Supporters(msgs, [], [1])| == 1 && PositionSum(msgs, [], [1]) == 0
    ensures var listed := ResultFor(msgs, 1)([]).priorities;
            exists i, j :: 0 <= i < j < |listed| && listed[i].priority == [1] && listed[j].priority == Filler(LATE)
  {
    var listed := ResultFor(msgs, 1)([]).priorities;
    ListingMeans(msgs, 1, [], Filler(LATE), 2 * COUNT_WEIGHT - 2 * LATE);
    ListingMeans(msgs, 1, [], [1], COUNT_WEIGHT);
    var i :| 0 <= i < |listed| && listed[i] == ScoredPriority([1], COUNT_WEIGHT);
    var j :| 0 <= j < |listed| && listed[j] == ScoredPriority(Filler(LATE), 2 * COUNT_WEIGHT - 2 * LATE);
  }

  /** It fails beyond that: two supporters can rank below one, and be left out although two are
      required. */
  lemma {:induction false} SupportersMayLose(duty: Duty)
    ensures var msgs := RivalMsgs(duty);
            && Acceptable(msgs)
            && |Supporters(msgs, [], Filler(LATE))| == 2 && |Supporters(msgs, [], [1])| == 1
            && !Listed(msgs, 2, [], Filler(LATE))
    ensures var listed := ResultFor(RivalMsgs(duty), 1)([]).priorities;
            exists i, j :: 0 <= i < j < |listed| && listed[i].priority == [1] && listed[j].priority == Filler(LATE)
  {
    var msgs, late := RivalMsgs(duty), Filler(LATE);
    RivalProposals(duty);
    LateSupport();
    FirstSupport();
    PeersBehindSupport(msgs, [], late);
    PeersBehindSupport(msgs, [], [1]);
    if Listed(msgs, 2, [], late) {
      var s :| s in ResultFor(msgs, 2)([]).priorities && s.priority == late;
      ListingMeans(msgs, 2, [], late, s.score);
    }
    LateRanksSecond(msgs);
  }
}
