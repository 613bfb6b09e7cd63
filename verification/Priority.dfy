/** Cluster-wide priority scoring, for any hash that identifies strings. */
module Priority {
  import opened SymbolicBytes
  import opened Wrappers
  import opened Dicts
  import opened Grouping
  import opened Sorting
  import opened PriorityMessages

  const MAX_PRIORITIES: nat := 1000
  const COUNT_WEIGHT: int := MAX_PRIORITIES

  datatype ScoredPriority = ScoredPriority(priority: Text, score: int)

  datatype TopicResult = TopicResult(topic: Text, priorities: seq<ScoredPriority>)

  datatype PriorityError =
    | NoMessages | MismatchingDuties | DuplicatePeer | DuplicateTopic | TooManyPriorities | DuplicatePriority

  // Validation

  predicate DistinctTexts(ts: seq<Text>) {
    forall i, j :: 0 <= i < j < |ts| ==> ts[i] != ts[j]
  }

  predicate ProposalAcceptable(t: TopicProposal) {
    |t.priorities| < MAX_PRIORITIES && DistinctTexts(t.priorities)
  }

  predicate TopicsAcceptable(topics: seq<TopicProposal>) {
    && (forall t <- topics :: ProposalAcceptable(t))
    && forall i, j :: 0 <= i < j < |topics| ==> topics[i].topic != topics[j].topic
  }

  /** One message a peer, all for one duty, each naming every topic at most once with fewer than the
      maximum of distinct priorities. */
  predicate Acceptable(msgs: seq<PriorityMsg>) {
    && msgs != []
    && (forall m <- msgs :: m.duty == msgs[0].duty && TopicsAcceptable(m.topics))
    && forall i, j :: 0 <= i < j < |msgs| ==> msgs[i].peerId != msgs[j].peerId
  }

  method ValidatePriorities(hash: Text -> Bytes, priorities: seq<Text>) returns (r: Result<(), PriorityError>)
    requires Identifies(hash)
    ensures r.Success? <==> |priorities| < MAX_PRIORITIES && DistinctTexts(priorities)
  {
    if |priorities| >= MAX_PRIORITIES {
      return Failure(TooManyPriorities);
    }
    var seen: set<Bytes> := {};
    for i := 0 to |priorities|
      invariant DistinctTexts(priorities[..i])
      invariant forall h :: h in seen <==> exists j :: 0 <= j < i && hash(priorities[j]) == h
    {
      var key := hash(priorities[i]);
      if key in seen {
        return Failure(DuplicatePriority);
      }
      seen := seen + {key};
    }
    assert priorities[..|priorities|] == priorities;
    r := Success(());
  }

  method ValidateTopics(hash: Text -> Bytes, topics: seq<TopicProposal>) returns (r: Result<(), PriorityError>)
    requires Identifies(hash)
    ensures r.Success? <==> TopicsAcceptable(topics)
  {
    var seen: set<Bytes> := {};
    for i := 0 to |topics|
      invariant TopicsAcceptable(topics[..i])
      invariant forall h :: h in seen <==> exists j :: 0 <= j < i && hash(topics[j].topic) == h
    {
      var topic := topics[i];
      assert topic in topics;
      var key := hash(topic.topic);
      if key in seen {
        return Failure(DuplicateTopic);
      }
      seen := seen + {key};
      var _ :- ValidatePriorities(hash, topic.priorities);
      assert topics[..i + 1] == topics[..i] + [topic];
    }
    assert topics[..|topics|] == topics;
    r := Success(());
  }

  method ValidateMsgs(hash: Text -> Bytes, msgs: seq<PriorityMsg>) returns (r: Result<(), PriorityError>)
    requires Identifies(hash)
    ensures r.Success? <==> Acceptable(msgs)
  {
    if msgs == [] {
      return Failure(NoMessages);
    }
    var duty := msgs[0].duty;
    var seenPeers: set<Text> := {};
    for i := 0 to |msgs|
      invariant forall j :: 0 <= j < i ==> msgs[j].duty == duty && TopicsAcceptable(msgs[j].topics)
      invariant forall j, k :: 0 <= j < k < i ==> msgs[j].peerId != msgs[k].peerId
      invariant forall p :: p in seenPeers <==> exists j :: 0 <= j < i && msgs[j].peerId == p
    {
      var msg := msgs[i];
      assert msg in msgs;
      if msg.duty != duty {
        return Failure(MismatchingDuties);
      }
      if msg.peerId in seenPeers {
        return Failure(DuplicatePeer);
      }
      seenPeers := seenPeers + {msg.peerId};
      var _ :- ValidateTopics(hash, msg.topics);
    }
    r := Success(());
  }

  // Scores

  /** One peer's vote for a priority, at its position in the peer's order. */
  datatype Vote = Vote(priority: Text, position: nat)

  function VotesOf(priorities: seq<Text>): (r: seq<Vote>)
    ensures |r| == |priorities| && forall i :: 0 <= i < |r| ==> r[i] == Vote(priorities[i], i)
  {
    seq(|priorities|, i requires 0 <= i < |priorities| => Vote(priorities[i], i))
  }

  function Votes(proposals: seq<TopicProposal>): seq<Vote>
    decreases |proposals|
  {
    if proposals == [] then []
    else Votes(proposals[..|proposals| - 1]) + VotesOf(proposals[|proposals| - 1].priorities)
  }

  function Score(votes: seq<Vote>, priority: Text): int
    decreases |votes|
  {
    if votes == [] then 0
    else
      var last := votes[|votes| - 1];
      Score(votes[..|votes| - 1], priority) + if last.priority == priority then COUNT_WEIGHT - last.position else 0
  }

  function PriorityOf(v: Vote): Text {
    v.priority
  }

  /** The priorities voted for, in the order in which they were first seen. */
  function Seen(votes: seq<Vote>): seq<Text> {
    FirstKeys(votes, PriorityOf)
  }

  function Outranks(votes: seq<Vote>): (Text, Text) -> bool {
    (a, b) => Score(votes, a) >= Score(votes, b)
  }

  function Included(ranked: seq<Text>, votes: seq<Vote>, minScore: int): seq<ScoredPriority>
    decreases |ranked|
  {
    if ranked == [] then []
    else
      var init, last := ranked[..|ranked| - 1], ranked[|ranked| - 1];
      Included(init, votes, minScore)
      + if Score(votes, last) > minScore then [ScoredPriority(last, Score(votes, last))] else []
  }

  /** One topic's result: the priorities seen, stably sorted by descending score, those above the
      minimum. */
  function TopicScores(proposals: seq<TopicProposal>, minScore: int): seq<ScoredPriority> {
    var votes := Votes(proposals);
    Included(Sort(Seen(votes), Outranks(votes)), votes, minScore)
  }

  // Counting support

  function Position(priorities: seq<Text>, priority: Text): (p: nat)
    requires priority in priorities
    ensures p < |priorities| && priorities[p] == priority
  {
    if priorities[0] == priority then 0 else 1 + Position(priorities[1..], priority)
  }

  /** How many proposals list the priority. */
  function Support(proposals: seq<TopicProposal>, priority: Text): nat
    decreases |proposals|
  {
    if proposals == [] then 0
    else
      Support(proposals[..|proposals| - 1], priority)
      + if priority in proposals[|proposals| - 1].priorities then 1 else 0
  }

  /** The sum of the positions they list it at. */
  function Penalty(proposals: seq<TopicProposal>, priority: Text): nat
    decreases |proposals|
  {
    if proposals == [] then 0
    else
      var last := proposals[|proposals| - 1].priorities;
      Penalty(proposals[..|proposals| - 1], priority) + if priority in last then Position(last, priority) else 0
  }

  lemma ScoreOneMore(votes: seq<Vote>, v: Vote, priority: Text)
    ensures Score(votes + [v], priority)
            == Score(votes, priority) + if v.priority == priority then COUNT_WEIGHT - v.position else 0
  {
    assert (votes + [v])[..|votes|] == votes;
  }

  lemma {:induction false} PositionUnique(priorities: seq<Text>, k: nat)
    requires k < |priorities| && DistinctTexts(priorities)
    ensures Position(priorities, priorities[k]) == k && priorities[k] !in priorities[..k]
    decreases |priorities|
  {
    if k > 0 {
      assert priorities[0] != priorities[k];
      PositionUnique(priorities[1..], k - 1);
    }
  }

  lemma {:induction false} ScoreConcat(a: seq<Vote>, b: seq<Vote>, priority: Text)
    ensures Score(a + b, priority) == Score(a, priority) + Score(b, priority)
    decreases |b|
  {
    if b == [] {
      assert a + b == a;
    } else {
      var init, last := b[..|b| - 1], b[|b| - 1];
      ScoreConcat(a, init, priority);
      assert a + b == (a + init) + [last];
      ScoreOneMore(a + init, last, priority);
    }
  }

  lemma PrefixMember(priorities: seq<Text>, n: nat, priority: Text)
    requires 0 < n <= |priorities|
    ensures priority in priorities[..n] <==> priority in priorities[..n - 1] || priority == priorities[n - 1]
  {
    assert priorities[..n] == priorities[..n - 1] + [priorities[n - 1]];
  }

  /** What the first `n` votes of one peer add. */
  lemma {:induction false} ScoreOfPeer(priorities: seq<Text>, n: nat, priority: Text)
    requires n <= |priorities| && DistinctTexts(priorities)
    ensures Score(VotesOf(priorities)[..n], priority)
            == if priority in priorities[..n] then COUNT_WEIGHT - Position(priorities, priority) else 0
    decreases n
  {
    if n > 0 {
      var mine := VotesOf(priorities);
      ScoreOfPeer(priorities, n - 1, priority);
      assert mine[..n] == mine[..n - 1] + [mine[n - 1]];
      ScoreOneMore(mine[..n - 1], mine[n - 1], priority);
      PositionUnique(priorities, n - 1);
      PrefixMember(priorities, n, priority);
    }
  }

  /** A priority's score is the weight of its supporters less the positions they gave it. */
  lemma {:induction false} ScoreIsSupport(proposals: seq<TopicProposal>, priority: Text)
    requires forall t <- proposals :: ProposalAcceptable(t)
    ensures Score(Votes(proposals), priority)
            == COUNT_WEIGHT * Support(proposals, priority) - Penalty(proposals, priority)
    decreases |proposals|
  {
    if proposals != [] {
      var init, last := proposals[..|proposals| - 1], proposals[|proposals| - 1];
      assert last in proposals;
      ScoreIsSupport(init, priority);
      var ps := last.priorities;
      assert VotesOf(ps)[..|ps|] == VotesOf(ps) && ps[..|ps|] == ps;
      ScoreOfPeer(ps, |ps|, priority);
      ScoreConcat(Votes(init), VotesOf(ps), priority);
    }
  }

  lemma {:induction false} SeenIsSupported(proposals: seq<TopicProposal>, priority: Text)
    ensures priority in Seen(Votes(proposals)) <==> Support(proposals, priority) > 0
    decreases |proposals|
  {
    KeysAppear(Votes(proposals), PriorityOf, priority);
    if proposals != [] {
      var init, last := proposals[..|proposals| - 1], proposals[|proposals| - 1];
      SeenIsSupported(init, priority);
      KeysAppear(Votes(init), PriorityOf, priority);
      if priority in last.priorities {
        var k :| 0 <= k < |last.priorities| && last.priorities[k] == priority;
        assert VotesOf(last.priorities)[k] in Votes(proposals);
      }
    }
  }

  // Results

  lemma OutranksPreorder(votes: seq<Vote>)
    ensures TotalPreorder(Outranks(votes))
  {
  }

  predicate Descending(scored: seq<ScoredPriority>) {
    forall i, j :: 0 <= i < j < |scored| ==> scored[i].score >= scored[j].score
  }

  lemma {:induction false} IncludedIff(ranked: seq<Text>, votes: seq<Vote>, minScore: int, p: Text, score: int)
    ensures ScoredPriority(p, score) in Included(ranked, votes, minScore)
            <==> p in ranked && score == Score(votes, p) && score > minScore
    decreases |ranked|
  {
    if ranked != [] {
      var init, last := ranked[..|ranked| - 1], ranked[|ranked| - 1];
      assert ranked == init + [last];
      IncludedIff(init, votes, minScore, p, score);
    }
  }

  predicate RankedBy(votes: seq<Vote>, ranked: seq<Text>) {
    forall i, j :: 0 <= i < j < |ranked| ==> Score(votes, ranked[i]) >= Score(votes, ranked[j])
  }

  lemma {:induction false} IncludedDescending(ranked: seq<Text>, votes: seq<Vote>, minScore: int)
    requires RankedBy(votes, ranked)
    ensures Descending(Included(ranked, votes, minScore))
    decreases |ranked|
  {
    if ranked != [] {
      var init, last := ranked[..|ranked| - 1], ranked[|ranked| - 1];
      IncludedDescending(init, votes, minScore);
      forall s <- Included(init, votes, minScore)
        ensures s.score >= Score(votes, last)
      {
        IncludedIff(init, votes, minScore, s.priority, s.score);
        var i :| 0 <= i < |init| && init[i] == s.priority;
        assert ranked[i] == s.priority;
      }
    }
  }

  /** Priorities of equal score are ranked in the order in which they were first seen. */
  lemma EqualScoresKeepOrder(votes: seq<Vote>, p: Text)
    ensures var outranks := Outranks(votes);
            Ties(Sort(Seen(votes), outranks), p, outranks) == Ties(Seen(votes), p, outranks)
  {
    OutranksPreorder(votes);
    SortStable(Seen(votes), p, Outranks(votes));
  }

  /** The place of each text in a list; texts outside it have none of their own. */
  function Places(ts: seq<Text>): Text -> int {
    t => if t in ts then Position(ts, t) else 0
  }

  lemma SortTexts(ts: seq<Text>, leq: (Text, Text) -> bool)
    requires DistinctTexts(ts) && TotalPreorder(leq)
    ensures InOrder(Sort(ts, leq), leq, Places(ts))
  {
    forall i, j | 0 <= i < j < |ts|
      ensures Places(ts)(ts[i]) < Places(ts)(ts[j])
    {
      PositionUnique(ts, i);
      PositionUnique(ts, j);
    }
    SortInOrder(ts, leq, Places(ts));
  }

  /** `a` has the higher score, or the same and was seen first. */
  predicate RanksBefore(votes: seq<Vote>, a: Text, b: Text) {
    Precedes(a, b, Outranks(votes), Places(Seen(votes)))
  }

  ghost predicate ListedInOrder(votes: seq<Vote>, listed: seq<ScoredPriority>) {
    forall i, j :: 0 <= i < j < |listed| ==> RanksBefore(votes, listed[i].priority, listed[j].priority)
  }

  lemma {:induction false} IncludedInOrder(ranked: seq<Text>, votes: seq<Vote>, minScore: int)
    requires InOrder(ranked, Outranks(votes), Places(Seen(votes)))
    ensures ListedInOrder(votes, Included(ranked, votes, minScore))
    decreases |ranked|
  {
    if ranked != [] {
      var init, last := ranked[..|ranked| - 1], ranked[|ranked| - 1];
      IncludedInOrder(init, votes, minScore);
      forall s <- Included(init, votes, minScore)
        ensures RanksBefore(votes, s.priority, last)
      {
        IncludedIff(init, votes, minScore, s.priority, s.score);
        var i :| 0 <= i < |init| && init[i] == s.priority;
        assert ranked[i] == s.priority;
      }
    }
  }

  /** A topic lists the priorities in the order of their scores, those of equal score in the order in
      which they were first seen, and so each only once. */
  lemma TopicScoresInOrder(proposals: seq<TopicProposal>, minScore: int)
    ensures ListedInOrder(Votes(proposals), TopicScores(proposals, minScore))
  {
    var votes := Votes(proposals);
    OutranksPreorder(votes);
    KeysDistinct(votes, PriorityOf);
    SortTexts(Seen(votes), Outranks(votes));
    IncludedInOrder(Sort(Seen(votes), Outranks(votes)), votes, minScore);
  }

  lemma RankedByScore(votes: seq<Vote>)
    ensures var ranked := Sort(Seen(votes), Outranks(votes));
            RankedBy(votes, ranked) && forall p :: p in ranked <==> p in Seen(votes)
  {
    OutranksPreorder(votes);
    SortCorrect(Seen(votes), Outranks(votes));
    var ranked := Sort(Seen(votes), Outranks(votes));
    forall i, j | 0 <= i < j < |ranked|
      ensures Score(votes, ranked[i]) >= Score(votes, ranked[j])
    {
      assert Outranks(votes)(ranked[i], ranked[j]);
    }
  }

  /** A topic lists, by descending score, exactly the priorities somebody proposed whose supporters
      outweigh the positions they gave it by more than what `minRequired - 1` first choices weigh. */
  lemma TopicScoresMean(proposals: seq<TopicProposal>, minRequired: int, priority: Text, score: int)
    requires forall t <- proposals :: ProposalAcceptable(t)
    ensures var listed := TopicScores(proposals, (minRequired - 1) * COUNT_WEIGHT);
            && Descending(listed)
            && (ScoredPriority(priority, score) in listed <==>
                  && Support(proposals, priority) > 0
                  && score == COUNT_WEIGHT * Support(proposals, priority) - Penalty(proposals, priority)
                  && Penalty(proposals, priority) < COUNT_WEIGHT * (Support(proposals, priority) - minRequired + 1))
  {
    var votes, minScore := Votes(proposals), (minRequired - 1) * COUNT_WEIGHT;
    var ranked := Sort(Seen(votes), Outranks(votes));
    RankedByScore(votes);
    IncludedDescending(ranked, votes, minScore);
    IncludedIff(ranked, votes, minScore, priority, score);
    ScoreIsSupport(proposals, priority);
    SeenIsSupported(proposals, priority);
  }

  // Scoring a topic

  ghost predicate ScoresTallied(scores: Dict<Bytes, int>, hash: Text -> Bytes, votes: seq<Vote>) {
    var seen := Seen(votes);
    |scores| == |seen| && forall k :: 0 <= k < |seen| ==> scores[k] == (hash(seen[k]), Score(votes, seen[k]))
  }

  ghost predicate ValuesTallied(values: Dict<Bytes, Text>, hash: Text -> Bytes, seen: seq<Text>) {
    |values| == |seen| && forall k :: 0 <= k < |seen| ==> values[k] == (hash(seen[k]), seen[k])
  }

  /** The dictionaries and the list that the scoring loops fill, after these votes. */
  ghost predicate Tallied(scores: Dict<Bytes, int>, seenOrder: seq<Bytes>, values: Dict<Bytes, Text>,
                          hash: Text -> Bytes, votes: seq<Vote>) {
    && ScoresTallied(scores, hash, votes)
    && seenOrder == Map(hash, Seen(votes))
    && ValuesTallied(values, hash, Seen(votes))
  }

  lemma ScoresUnique(scores: Dict<Bytes, int>, hash: Text -> Bytes, votes: seq<Vote>, t: Text)
    requires Identifies(hash) && ScoresTallied(scores, hash, votes)
    ensures Unique(scores) && (Has(scores, hash(t)) <==> t in Seen(votes))
  {
    KeysDistinct(votes, PriorityOf);
    if t in Seen(votes) {
      var k :| 0 <= k < |scores| && Seen(votes)[k] == t;
      assert scores[k].0 == hash(t);
    }
  }

  lemma ValuesUnique(values: Dict<Bytes, Text>, hash: Text -> Bytes, votes: seq<Vote>, t: Text)
    requires Identifies(hash) && ValuesTallied(values, hash, Seen(votes))
    ensures Unique(values) && (Has(values, hash(t)) <==> t in Seen(votes))
  {
    KeysDistinct(votes, PriorityOf);
    if t in Seen(votes) {
      var k :| 0 <= k < |values| && Seen(votes)[k] == t;
      assert values[k].0 == hash(t);
    }
  }

  lemma {:induction false} UnseenScore(votes: seq<Vote>, priority: Text)
    requires priority !in Seen(votes)
    ensures Score(votes, priority) == 0
    decreases |votes|
  {
    if votes != [] {
      UnseenScore(votes[..|votes| - 1], priority);
    }
  }

  lemma SeenOneMore(votes: seq<Vote>, v: Vote)
    ensures Seen(votes + [v]) == Seen(votes) + if v.priority in Seen(votes) then [] else [v.priority]
    ensures v.priority !in Seen(votes) ==> Score(votes, v.priority) == 0
  {
    assert (votes + [v])[..|votes|] == votes;
    if v.priority !in Seen(votes) {
      UnseenScore(votes, v.priority);
    }
  }

  /** The scores after one more vote, as the loop body assigns them. */
  function CountVote(scores: Dict<Bytes, int>, key: Bytes, position: nat): Dict<Bytes, int> {
    var started := if Has(scores, key) then scores else Put(scores, key, 0);
    Put(started, key, Get(started, key, 0) + (COUNT_WEIGHT - position))
  }

  lemma FirstVote(scores: Dict<Bytes, int>, key: Bytes, position: nat)
    requires Unique(scores) && !Has(scores, key)
    ensures CountVote(scores, key, position) == scores + [(key, COUNT_WEIGHT - position)]
  {
    var started := Put(scores, key, 0);
    PutAt(scores, key, 0);
    assert started[|scores|] == (key, 0);
    GetAt(started, |scores|, 0);
    PutAt(started, key, COUNT_WEIGHT - position);
  }

  lemma LaterVote(scores: Dict<Bytes, int>, k: nat, position: nat)
    requires Unique(scores) && k < |scores|
    ensures CountVote(scores, scores[k].0, position)
            == scores[k := (scores[k].0, scores[k].1 + (COUNT_WEIGHT - position))]
  {
    GetAt(scores, k, 0);
    PutAt(scores, scores[k].0, scores[k].1 + (COUNT_WEIGHT - position));
  }

  /** A vote for a priority already seen. */
  lemma ScoresAgain(scores: Dict<Bytes, int>, hash: Text -> Bytes, votes: seq<Vote>, v: Vote, k: nat)
    requires Identifies(hash) && ScoresTallied(scores, hash, votes)
    requires k < |scores| && Seen(votes)[k] == v.priority
    ensures ScoresTallied(CountVote(scores, hash(v.priority), v.position), hash, votes + [v])
  {
    var seen := Seen(votes);
    ScoresUnique(scores, hash, votes, v.priority);
    SeenOneMore(votes, v);
    KeysDistinct(votes, PriorityOf);
    LaterVote(scores, k, v.position);
    forall i | 0 <= i < |seen|
      ensures Score(votes + [v], seen[i]) == Score(votes, seen[i]) + if i == k then COUNT_WEIGHT - v.position else 0
    {
      ScoreOneMore(votes, v, seen[i]);
    }
  }

  /** The first vote for a priority. */
  lemma ScoresFirst(scores: Dict<Bytes, int>, hash: Text -> Bytes, votes: seq<Vote>, v: Vote)
    requires Identifies(hash) && ScoresTallied(scores, hash, votes) && v.priority !in Seen(votes)
    ensures ScoresTallied(CountVote(scores, hash(v.priority), v.position), hash, votes + [v])
  {
    var seen := Seen(votes);
    ScoresUnique(scores, hash, votes, v.priority);
    SeenOneMore(votes, v);
    FirstVote(scores, hash(v.priority), v.position);
    ScoreOneMore(votes, v, v.priority);
    forall i | 0 <= i < |seen|
      ensures Score(votes + [v], seen[i]) == Score(votes, seen[i])
    {
      assert seen[i] in seen;
      ScoreOneMore(votes, v, seen[i]);
    }
  }

  lemma ValuesStep(values: Dict<Bytes, Text>, hash: Text -> Bytes, votes: seq<Vote>, p: Text)
    requires Identifies(hash) && ValuesTallied(values, hash, Seen(votes))
    ensures ValuesTallied(Put(values, hash(p), p), hash, Seen(votes) + if p in Seen(votes) then [] else [p])
  {
    ValuesUnique(values, hash, votes, p);
    PutAt(values, hash(p), p);
    if p in Seen(votes) {
      var k :| 0 <= k < |values| && Seen(votes)[k] == p;
      assert values[k].0 == hash(p);
      assert Put(values, hash(p), p) == values;
    }
  }

  lemma TallyStep(scores: Dict<Bytes, int>, seenOrder: seq<Bytes>, values: Dict<Bytes, Text>,
                  hash: Text -> Bytes, votes: seq<Vote>, v: Vote)
    requires Identifies(hash) && Tallied(scores, seenOrder, values, hash, votes)
    ensures var key := hash(v.priority);
            Tallied(CountVote(scores, key, v.position), if Has(scores, key) then seenOrder else seenOrder + [key],
                    Put(values, key, v.priority), hash, votes + [v])
  {
    ScoresUnique(scores, hash, votes, v.priority);
    ValuesStep(values, hash, votes, v.priority);
    SeenOneMore(votes, v);
    if v.priority in Seen(votes) {
      var k :| 0 <= k < |scores| && Seen(votes)[k] == v.priority;
      ScoresAgain(scores, hash, votes, v, k);
    } else {
      ScoresFirst(scores, hash, votes, v);
    }
  }

  lemma LookUpTally(scores: Dict<Bytes, int>, seenOrder: seq<Bytes>, values: Dict<Bytes, Text>,
                    hash: Text -> Bytes, votes: seq<Vote>, t: Text)
    requires Identifies(hash) && Tallied(scores, seenOrder, values, hash, votes) && t in Seen(votes)
    ensures Get(scores, hash(t), 0) == Score(votes, t) && Get(values, hash(t), []) == t
  {
    ScoresUnique(scores, hash, votes, t);
    ValuesUnique(values, hash, votes, t);
    var k :| 0 <= k < |Seen(votes)| && Seen(votes)[k] == t;
    GetAt(scores, k, 0);
    GetAt(values, k, []);
  }

  /** The loop body: one peer's vote for one priority. */
  method TallyVote(hash: Text -> Bytes, priority: Text, position: nat, scores0: Dict<Bytes, int>,
                   seenOrder0: seq<Bytes>, values0: Dict<Bytes, Text>, ghost votes: seq<Vote>)
    returns (scores: Dict<Bytes, int>, seenOrder: seq<Bytes>, values: Dict<Bytes, Text>)
    requires Identifies(hash) && Tallied(scores0, seenOrder0, values0, hash, votes)
    ensures Tallied(scores, seenOrder, values, hash, votes + [Vote(priority, position)])
  {
    var key := hash(priority);
    TallyStep(scores0, seenOrder0, values0, hash, votes, Vote(priority, position));
    seenOrder := seenOrder0;
    if !Has(scores0, key) {
      seenOrder := seenOrder + [key];
    }
    scores := CountVote(scores0, key, position);
    values := Put(values0, key, priority);
  }

  /** The inner loop, over one peer's priorities. */
  method TallyPeer(hash: Text -> Bytes, priorities: seq<Text>, scores0: Dict<Bytes, int>, seenOrder0: seq<Bytes>,
                   values0: Dict<Bytes, Text>, ghost votes: seq<Vote>)
    returns (scores: Dict<Bytes, int>, seenOrder: seq<Bytes>, values: Dict<Bytes, Text>)
    requires Identifies(hash) && Tallied(scores0, seenOrder0, values0, hash, votes)
    ensures Tallied(scores, seenOrder, values, hash, votes + VotesOf(priorities))
  {
    scores, seenOrder, values := scores0, seenOrder0, values0;
    ghost var mine := VotesOf(priorities);
    assert votes + mine[..0] == votes;
    for position := 0 to |priorities|
      invariant Tallied(scores, seenOrder, values, hash, votes + mine[..position])
    {
      assert votes + mine[..position + 1] == votes + mine[..position] + [mine[position]];
      scores, seenOrder, values :=
        TallyVote(hash, priorities[position], position, scores, seenOrder, values, votes + mine[..position]);
    }
    assert mine[..|priorities|] == mine;
  }

  method TallyTopic(hash: Text -> Bytes, proposals: seq<TopicProposal>)
    returns (scores: Dict<Bytes, int>, seenOrder: seq<Bytes>, values: Dict<Bytes, Text>)
    requires Identifies(hash)
    ensures Tallied(scores, seenOrder, values, hash, Votes(proposals))
  {
    scores, seenOrder, values := [], [], [];
    for i := 0 to |proposals|
      invariant Tallied(scores, seenOrder, values, hash, Votes(proposals[..i]))
    {
      scores, seenOrder, values :=
        TallyPeer(hash, proposals[i].priorities, scores, seenOrder, values, Votes(proposals[..i]));
      assert proposals[..i + 1][..i] == proposals[..i];
    }
    assert proposals[..|proposals|] == proposals;
  }

  /** The tally looks up the score and the string of every priority seen. */
  ghost predicate LooksUp(scores: Dict<Bytes, int>, values: Dict<Bytes, Text>, hash: Text -> Bytes, votes: seq<Vote>) {
    forall t <- Seen(votes) :: Get(scores, hash(t), 0) == Score(votes, t) && Get(values, hash(t), []) == t
  }

  lemma TallyLooksUp(scores: Dict<Bytes, int>, seenOrder: seq<Bytes>, values: Dict<Bytes, Text>,
                     hash: Text -> Bytes, votes: seq<Vote>)
    requires Identifies(hash) && Tallied(scores, seenOrder, values, hash, votes)
    ensures LooksUp(scores, values, hash, votes)
  {
    forall t <- Seen(votes)
      ensures Get(scores, hash(t), 0) == Score(votes, t) && Get(values, hash(t), []) == t
    {
      LookUpTally(scores, seenOrder, values, hash, votes, t);
    }
  }

  method IncludeRanked(hash: Text -> Bytes, ranked: seq<Bytes>, scores: Dict<Bytes, int>, values: Dict<Bytes, Text>,
                       minScore: int, ghost order: seq<Text>, ghost votes: seq<Vote>)
    returns (listed: seq<ScoredPriority>)
    requires ranked == Map(hash, order) && LooksUp(scores, values, hash, votes) && forall t <- order :: t in Seen(votes)
    ensures listed == Included(order, votes, minScore)
  {
    listed := [];
    for i := 0 to |ranked|
      invariant listed == Included(order[..i], votes, minScore)
    {
      var key := ranked[i];
      assert key == hash(order[i]) && order[i] in order;
      assert order[..i + 1][..i] == order[..i];
      if Get(scores, key, 0) > minScore {
        listed := listed + [ScoredPriority(Get(values, key, []), Get(scores, key, 0))];
      }
    }
    assert order[..|order|] == order;
  }

  method ScoreTopic(hash: Text -> Bytes, proposals: seq<TopicProposal>, minScore: int)
    returns (listed: seq<ScoredPriority>)
    requires Identifies(hash)
    ensures listed == TopicScores(proposals, minScore)
  {
    ghost var votes := Votes(proposals);
    var scores, seenOrder, values := TallyTopic(hash, proposals);
    TallyLooksUp(scores, seenOrder, values, hash, votes);
    var byScore := (a, b) => Get(scores, a, 0) >= Get(scores, b, 0);
    var ranked := Sort(seenOrder, byScore);
    OutranksPreorder(votes);
    SortCorrect(Seen(votes), Outranks(votes));
    SortMapped(hash, Seen(votes), Outranks(votes), byScore);
    listed := IncludeRanked(hash, ranked, scores, values, minScore, Sort(Seen(votes), Outranks(votes)), votes);
  }
}
