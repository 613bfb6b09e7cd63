/** Ties between priorities of equal score, decided by who proposed them first. */
module PriorityTies {
  import opened Grouping
  import opened Sorting
  import opened PriorityMessages
  import opened Priority
  import opened PriorityResult

  /** The votes for one topic, message by message. */
  function VotesOn(msgs: seq<PriorityMsg>, topic: Text): seq<Vote> {
    Votes(Group(AllTopics(msgs), TopicOf, topic))
  }

  function VotesIn(m: PriorityMsg, topic: Text): seq<Vote> {
    Votes(Group(m.topics, TopicOf, topic))
  }

  lemma {:induction false} VotesAppend(ps: seq<TopicProposal>, t: TopicProposal)
    ensures Votes(ps + [t]) == Votes(ps) + VotesOf(t.priorities)
  {
    assert (ps + [t])[..|ps|] == ps;
  }

  lemma {:induction false} VotesConcat(a: seq<TopicProposal>, b: seq<TopicProposal>)
    ensures Votes(a + b) == Votes(a) + Votes(b)
    decreases |b|
  {
    if b == [] {
      assert a + b == a;
    } else {
      var init, last := b[..|b| - 1], b[|b| - 1];
      assert a + b == (a + init) + [last] && b == init + [last];
      VotesAppend(a + init, last);
      VotesAppend(init, last);
      VotesConcat(a, init);
      assert (Votes(a) + Votes(init)) + VotesOf(last.priorities) == Votes(a) + (Votes(init) + VotesOf(last.priorities));
    }
  }

  lemma {:induction false} VotesOneMore(msgs: seq<PriorityMsg>, m: PriorityMsg, topic: Text)
    ensures VotesOn(msgs + [m], topic) == VotesOn(msgs, topic) + VotesIn(m, topic)
  {
    assert (msgs + [m])[..|msgs|] == msgs;
    GroupConcat(AllTopics(msgs), m.topics, TopicOf, topic);
    VotesConcat(Group(AllTopics(msgs), TopicOf, topic), Group(m.topics, TopicOf, topic));
  }

  // One message

  /** The message lists the priority at place `k` under the topic. */
  predicate ListsAt(m: PriorityMsg, topic: Text, priority: Text, k: int) {
    exists t <- m.topics :: t.topic == topic && 0 <= k < |t.priorities| && t.priorities[k] == priority
  }

  lemma {:induction false} OneProposal(m: PriorityMsg, topic: Text, t: TopicProposal)
    requires TopicsAcceptable(m.topics) && t in m.topics && t.topic == topic
    ensures Group(m.topics, TopicOf, topic) == [t] && VotesIn(m, topic) == VotesOf(t.priorities)
  {
    var group := Group(m.topics, TopicOf, topic);
    AtMostOneProposal(m.topics, topic);
    GroupMembers(m.topics, TopicOf, topic);
    assert t in group && group == [group[0]];
    assert group[..0] == [] && Votes(group[..0]) == [];
  }

  /** A message's votes for the topic stand in the order of its list. */
  lemma {:induction false} VoteIsListed(m: PriorityMsg, topic: Text, k: int)
    requires TopicsAcceptable(m.topics) && 0 <= k < |VotesIn(m, topic)|
    ensures ListsAt(m, topic, VotesIn(m, topic)[k].priority, k)
  {
    GroupMembers(m.topics, TopicOf, topic);
    var t :| t in m.topics && t.topic == topic;
    OneProposal(m, topic, t);
  }

  lemma {:induction false} ListedIsVote(m: PriorityMsg, topic: Text, p: Text, k: int)
    requires TopicsAcceptable(m.topics) && ListsAt(m, topic, p, k)
    ensures 0 <= k < |VotesIn(m, topic)| && VotesIn(m, topic)[k].priority == p
  {
    var t :| t in m.topics && t.topic == topic && 0 <= k < |t.priorities| && t.priorities[k] == p;
    OneProposal(m, topic, t);
  }

  /** A message lists a priority at one place only. */
  lemma {:induction false} ListsOnce(m: PriorityMsg, topic: Text, p: Text, i: int, j: int)
    requires TopicsAcceptable(m.topics) && ListsAt(m, topic, p, i) && ListsAt(m, topic, p, j)
    ensures i == j
  {
    var t :| t in m.topics && t.topic == topic && 0 <= i < |t.priorities| && t.priorities[i] == p;
    var u :| u in m.topics && u.topic == topic && 0 <= j < |u.priorities| && u.priorities[j] == p;
    OneProposal(m, topic, t);
    OneProposal(m, topic, u);
    assert [t][0] == [u][0];
    assert ProposalAcceptable(t);
  }

  lemma {:induction false} OtherVote(m: PriorityMsg, topic: Text, p: Text, k: nat, v: nat)
    requires TopicsAcceptable(m.topics) && ListsAt(m, topic, p, k) && v < |VotesIn(m, topic)| && v != k
    ensures VotesIn(m, topic)[v].priority != p
  {
    VoteIsListed(m, topic, v);
    if ListsAt(m, topic, p, v) {
      ListsOnce(m, topic, p, v, k);
    }
  }

  // Many messages

  /** Message `x` is the first to list the priority, at place `k`. */
  ghost predicate FirstListed(msgs: seq<PriorityMsg>, topic: Text, p: Text, x: int, k: int) {
    && 0 <= x < |msgs| && ListsAt(msgs[x], topic, p, k)
    && forall y, j :: 0 <= y < x ==> !ListsAt(msgs[y], topic, p, j)
  }

  ghost predicate AllAcceptable(msgs: seq<PriorityMsg>) {
    forall m <- msgs :: TopicsAcceptable(m.topics)
  }

  lemma {:induction false} NotVoted(msgs: seq<PriorityMsg>, topic: Text, p: Text)
    requires AllAcceptable(msgs) && forall y, j :: 0 <= y < |msgs| ==> !ListsAt(msgs[y], topic, p, j)
    ensures forall v :: 0 <= v < |VotesOn(msgs, topic)| ==> VotesOn(msgs, topic)[v].priority != p
    decreases |msgs|
  {
    if msgs != [] {
      var init, m := msgs[..|msgs| - 1], msgs[|msgs| - 1];
      assert msgs == init + [m];
      NotVoted(init, topic, p);
      VotesOneMore(init, m, topic);
      forall k | 0 <= k < |VotesIn(m, topic)|
        ensures VotesIn(m, topic)[k].priority != p
      {
        VoteIsListed(m, topic, k);
        assert !ListsAt(msgs[|init|], topic, p, k);
      }
    }
  }

  lemma {:induction false} VotesGrow(msgs: seq<PriorityMsg>, topic: Text, x: nat)
    requires x <= |msgs|
    ensures VotesOn(msgs[..x], topic) <= VotesOn(msgs, topic)
    decreases |msgs|
  {
    if x < |msgs| {
      var init, m := msgs[..|msgs| - 1], msgs[|msgs| - 1];
      assert msgs == init + [m] && init[..x] == msgs[..x];
      VotesGrow(init, topic, x);
      VotesOneMore(init, m, topic);
    } else {
      assert msgs[..x] == msgs;
    }
  }

  /** Where the first vote for a priority is. */
  lemma {:induction false} FirstVotePlace(msgs: seq<PriorityMsg>, topic: Text, p: Text, x: nat, k: nat)
    requires AllAcceptable(msgs) && FirstListed(msgs, topic, p, x, k)
    ensures k < |VotesIn(msgs[x], topic)|
    ensures |VotesOn(msgs[..x + 1], topic)| == |VotesOn(msgs[..x], topic)| + |VotesIn(msgs[x], topic)|
    ensures AppearsFirstAt(VotesOn(msgs, topic), PriorityOf, p, |VotesOn(msgs[..x], topic)| + k)
  {
    var before, own := VotesOn(msgs[..x], topic), VotesIn(msgs[x], topic);
    assert msgs[..x + 1] == msgs[..x] + [msgs[x]] && msgs[x] in msgs;
    VotesOneMore(msgs[..x], msgs[x], topic);
    VotesGrow(msgs, topic, x + 1);
    NotVoted(msgs[..x], topic, p);
    ListedIsVote(msgs[x], topic, p, k);
    forall v | 0 <= v < |before| + k
      ensures VotesOn(msgs, topic)[v].priority != p
    {
      if v < |before| {
        assert VotesOn(msgs, topic)[v] == before[v];
      } else {
        assert VotesOn(msgs, topic)[v] == own[v - |before|];
        OtherVote(msgs[x], topic, p, k, v - |before|);
      }
    }
  }

  /** The place of a key is the place of its first item, compared with other keys. */
  lemma {:induction false} KeyOrder(votes: seq<Vote>, a: Text, b: Text, p: nat, q: nat)
    requires AppearsFirstAt(votes, PriorityOf, a, p) && AppearsFirstAt(votes, PriorityOf, b, q) && a != b
    ensures a in Seen(votes) && b in Seen(votes)
    ensures Position(Seen(votes), a) < Position(Seen(votes), b) <==> p < q
  {
    KeysAppear(votes, PriorityOf, a);
    KeysAppear(votes, PriorityOf, b);
    assert votes[p] in votes && votes[q] in votes;
    var i, j := Position(Seen(votes), a), Position(Seen(votes), b);
    if i < j {
      var x, y := KeysInOrder(votes, PriorityOf, i, j);
    } else {
      var x, y := KeysInOrder(votes, PriorityOf, j, i);
    }
  }

  lemma {:induction false} EarlierVotes(msgs: seq<PriorityMsg>, topic: Text, x: nat, y: nat)
    requires x < y <= |msgs|
    ensures |VotesOn(msgs[..x + 1], topic)| <= |VotesOn(msgs[..y], topic)|
  {
    assert msgs[..y][..x + 1] == msgs[..x + 1];
    VotesGrow(msgs[..y], topic, x + 1);
  }

  lemma {:induction false} SeenInOrder(msgs: seq<PriorityMsg>, topic: Text, a: Text, b: Text,
                                       x: nat, k: nat, y: nat, l: nat)
    requires AllAcceptable(msgs) && a != b
    requires FirstListed(msgs, topic, a, x, k) && FirstListed(msgs, topic, b, y, l)
    ensures var seen := Seen(VotesOn(msgs, topic));
            a in seen && b in seen && (Position(seen, a) < Position(seen, b) <==> x < y || (x == y && k < l))
  {
    FirstVotePlace(msgs, topic, a, x, k);
    FirstVotePlace(msgs, topic, b, y, l);
    if x < y {
      EarlierVotes(msgs, topic, x, y);
    } else if y < x {
      EarlierVotes(msgs, topic, y, x);
    }
    KeyOrder(VotesOn(msgs, topic), a, b, |VotesOn(msgs[..x], topic)| + k, |VotesOn(msgs[..y], topic)| + l);
  }

  // In any order of arrival

  /** Of the peers that list the priority, this one's identifier comes first. */
  ghost predicate FirstPeer(msgs: seq<PriorityMsg>, topic: Text, p: Text, m: PriorityMsg) {
    && m in msgs && Proposes(m, topic, p)
    && forall o :: o in msgs && o != m && Proposes(o, topic, p) ==> ComesBefore(m.peerId, o.peerId)
  }

  lemma {:induction false} ProposesAt(m: PriorityMsg, topic: Text, p: Text) returns (k: nat)
    requires Proposes(m, topic, p)
    ensures ListsAt(m, topic, p, k)
  {
    var t :| t in m.topics && t.topic == topic && p in t.priorities;
    k :| 0 <= k < |t.priorities| && t.priorities[k] == p;
  }

  lemma {:induction false} ListsIsProposes(m: PriorityMsg, topic: Text, p: Text, k: int)
    ensures ListsAt(m, topic, p, k) ==> Proposes(m, topic, p)
  {
    if ListsAt(m, topic, p, k) {
      var t :| t in m.topics && t.topic == topic && 0 <= k < |t.priorities| && t.priorities[k] == p;
      assert t.priorities[k] in t.priorities;
    }
  }

  lemma {:induction false} SortedByPeer(msgs: seq<PriorityMsg>, ordered: seq<PriorityMsg>)
    requires Acceptable(msgs) && ordered == Sort(msgs, ByPeer())
    ensures AllAcceptable(ordered) && forall m :: m in ordered <==> m in msgs
    ensures forall i, j :: 0 <= i < j < |ordered| ==> ComesBefore(ordered[i].peerId, ordered[j].peerId)
  {
    PeerOrder();
    SortCorrect(msgs, ByPeer());
    AcceptedInOrder(msgs);
    forall i, j | 0 <= i < j < |ordered|
      ensures ComesBefore(ordered[i].peerId, ordered[j].peerId)
    {
      assert ByPeer()(ordered[i], ordered[j]);
      LexMeans(ordered[i].peerId, ordered[j].peerId);
    }
  }

  lemma {:induction false} NotBothBefore(a: Text, b: Text)
    requires ComesBefore(a, b) && a != b
    ensures !ComesBefore(b, a)
  {
    LexMeans(a, b);
    LexMeans(b, a);
    LexPreorder();
  }

  lemma EarlierProposesNot(msgs: seq<PriorityMsg>, topic: Text, p: Text, m: PriorityMsg, o: PriorityMsg)
    requires FirstPeer(msgs, topic, p, m) && o in msgs && o != m && !ComesBefore(m.peerId, o.peerId)
    ensures !Proposes(o, topic, p)
  {
  }

  /** The first peer's message is the first in order that lists the priority. */
  lemma {:induction false} FirstPeerListed(msgs: seq<PriorityMsg>, ordered: seq<PriorityMsg>, topic: Text, p: Text,
                                           m: PriorityMsg, k: nat) returns (x: nat)
    requires Acceptable(msgs) && ordered == Sort(msgs, ByPeer())
    requires FirstPeer(msgs, topic, p, m) && ListsAt(m, topic, p, k)
    ensures FirstListed(ordered, topic, p, x, k) && ordered[x] == m
  {
    SortedByPeer(msgs, ordered);
    AcceptedInOrder(msgs);
    x :| 0 <= x < |ordered| && ordered[x] == m;
    forall y, j | 0 <= y < x
      ensures !ListsAt(ordered[y], topic, p, j)
    {
      NotBothBefore(ordered[y].peerId, m.peerId);
      EarlierProposesNot(msgs, topic, p, m, ordered[y]);
      ListsIsProposes(ordered[y], topic, p, j);
    }
  }

  lemma {:induction false} NotBeforeItself(a: Text)
    ensures !ComesBefore(a, a)
  {
  }

  /** Of two priorities of a topic the one is seen first whose first peer comes first, and of two with one
      first peer the one this peer lists first. */
  lemma {:induction false} TieGoesToFirstPeer(msgs: seq<PriorityMsg>, topic: Text, a: Text, b: Text,
                                              m: PriorityMsg, n: PriorityMsg, k: nat, l: nat)
    requires Acceptable(msgs) && a != b && FirstPeer(msgs, topic, a, m) && FirstPeer(msgs, topic, b, n)
    requires ListsAt(m, topic, a, k) && ListsAt(n, topic, b, l)
    ensures SeenBefore(msgs, topic, a, b) <==> ComesBefore(m.peerId, n.peerId) || (m == n && k < l)
  {
    var ordered := Sort(msgs, ByPeer());
    SortedByPeer(msgs, ordered);
    AcceptedInOrder(msgs);
    var x := FirstPeerListed(msgs, ordered, topic, a, m, k);
    var y := FirstPeerListed(msgs, ordered, topic, b, n, l);
    SeenInOrder(ordered, topic, a, b, x, k, y, l);
    if y < x {
      NotBothBefore(n.peerId, m.peerId);
    }
    if x == y {
      LexMeans(m.peerId, m.peerId);
      NotBeforeItself(m.peerId);
    }
  }
}
