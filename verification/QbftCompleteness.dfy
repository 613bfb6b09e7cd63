/** When a leader finds a justification in its buffer, and which: the search for one is complete. */
module QbftCompleteness {
  import opened Wrappers
  import opened Dicts
  import opened QbftMessages
  import opened QbftRules
  import opened QbftLemmas
  import opened QbftJustification
  import opened QbftEvidence

  // What supports a key

  /** The sources of the PREPAREs for a key. */
  function PrepareSources(ms: seq<Msg>, key: PreparedKey): set<nat> {
    set i | 0 <= i < |ms| && IsVoteFor(ms[i], Prepare, key.0, Some(key.1)) :: ms[i].peerIdx
  }

  /** A ROUND-CHANGE of the round that is not prepared later than the key. */
  predicate IsEligible(m: Msg, round: nat, key: PreparedKey) {
    IsRoundChangeOf(m, round) && m.preparedRound <= key.0
  }

  function EligibleSources(ms: seq<Msg>, round: nat, key: PreparedKey): set<nat> {
    set i | 0 <= i < |ms| && IsEligible(ms[i], round, key) :: ms[i].peerIdx
  }

  /** The first eligible ROUND-CHANGE of its source, naming the key. */
  ghost predicate NamesFirst(ms: seq<Msg>, round: nat, key: PreparedKey, i: int) {
    && 0 <= i < |ms| && IsEligible(ms[i], round, key) && NamesKey(ms[i], key)
    && forall j :: 0 <= j < i && IsEligible(ms[j], round, key) ==> ms[j].peerIdx != ms[i].peerIdx
  }

  ghost predicate IsNamed(ms: seq<Msg>, round: nat, key: PreparedKey) {
    exists i :: NamesFirst(ms, round, key, i)
  }

  /** A quorum of sources prepared the key, and a quorum of sources changed to the round not having
      prepared later, one of them naming the key. */
  ghost predicate Supports(ms: seq<Msg>, round: nat, key: PreparedKey, quorum: nat) {
    |PrepareSources(ms, key)| >= quorum && |EligibleSources(ms, round, key)| >= quorum && IsNamed(ms, round, key)
  }

  ghost predicate SomeSupport(ms: seq<Msg>, round: nat, quorum: nat) {
    exists key :: Supports(ms, round, key, quorum)
  }

  function UnpreparedPlaces(ms: seq<Msg>, round: nat): set<nat> {
    set i | 0 <= i < |ms| && IsRoundChangeOf(ms[i], round) && NothingPrepared(ms[i])
  }

  // The groups of PREPAREs hold all sources

  function KeySet<K, V>(d: Dict<K, V>): set<K> {
    set i | 0 <= i < |d| :: d[i].0
  }

  lemma {:induction false} KeySetCounts<K, V>(d: Dict<K, V>)
    requires Unique(d)
    ensures |KeySet(d)| == |d|
    decreases |d|
  {
    if d == [] {
      assert KeySet(d) == {};
    } else {
      var init, last := d[..|d| - 1], d[|d| - 1];
      KeySetCounts(init);
      assert KeySet(d) == KeySet(init) + {last.0};
      assert last.0 !in KeySet(init);
    }
  }

  lemma {:induction false} SameKeySet<K, V>(a: Dict<K, V>, b: Dict<K, V>)
    requires |a| == |b| && forall i :: 0 <= i < |a| ==> a[i].0 == b[i].0
    ensures KeySet(a) == KeySet(b)
  {
    forall x | x in KeySet(a)
      ensures x in KeySet(b)
    {
      var i :| 0 <= i < |a| && a[i].0 == x;
      assert b[i].0 == x;
    }
    forall x | x in KeySet(b)
      ensures x in KeySet(a)
    {
      var i :| 0 <= i < |b| && b[i].0 == x;
      assert a[i].0 == x;
    }
  }

  lemma {:induction false} KeySetAppend<K, V>(d: Dict<K, V>, e: (K, V))
    ensures KeySet(d + [e]) == KeySet(d) + {e.0}
  {
    forall x | x in KeySet(d) + {e.0}
      ensures x in KeySet(d + [e])
    {
      if x == e.0 {
        assert (d + [e])[|d|].0 == x;
      } else {
        var i :| 0 <= i < |d| && d[i].0 == x;
        assert (d + [e])[i].0 == x;
      }
    }
  }

  lemma {:induction false} KeySetPut<K, V>(d: Dict<K, V>, k: K, v: V)
    requires Unique(d)
    ensures Unique(Put(d, k, v)) && KeySet(Put(d, k, v)) == KeySet(d) + {k}
  {
    PutAt(d, k, v);
    if Has(d, k) {
      var j :| 0 <= j < |d| && d[j].0 == k;
      assert Put(d, k, v) == d[j := (k, v)];
      SameKeySet(d, Put(d, k, v));
      assert k in KeySet(d);
    } else {
      assert Put(d, k, v) == d + [(k, v)];
      KeySetAppend(d, (k, v));
    }
  }

  lemma SourcesOneMore(ms: seq<Msg>, m: Msg, key: PreparedKey)
    ensures PrepareSources(ms + [m], key)
            == PrepareSources(ms, key) + if IsVoteFor(m, Prepare, key.0, Some(key.1)) then {m.peerIdx} else {}
  {
    var all := ms + [m];
    forall x | x in PrepareSources(ms, key)
      ensures x in PrepareSources(all, key)
    {
      var i :| 0 <= i < |ms| && IsVoteFor(ms[i], Prepare, key.0, Some(key.1)) && ms[i].peerIdx == x;
      assert all[i] == ms[i];
    }
    if IsVoteFor(m, Prepare, key.0, Some(key.1)) {
      assert all[|ms|] == m;
    }
  }

  /** Each group holds the sources of its key's PREPAREs. */
  ghost predicate GroupComplete(g: (PreparedKey, Dict<nat, Msg>), ms: seq<Msg>) {
    Unique(g.1) && KeySet(g.1) == PrepareSources(ms, g.0) != {}
  }

  ghost predicate AllGrouped(sets: PrepareSets, ms: seq<Msg>) {
    && Unique(sets)
    && (forall i :: 0 <= i < |sets| ==> GroupComplete(sets[i], ms))
    && forall i :: 0 <= i < |ms| && IsHashedPrepare(ms[i]) ==> Has(sets, KeyOf(ms[i]))
  }

  lemma UngroupedHasNone(sets: PrepareSets, ms: seq<Msg>, key: PreparedKey)
    requires AllGrouped(sets, ms) && !Has(sets, key)
    ensures PrepareSources(ms, key) == {}
    ensures forall i :: 0 <= i < |ms| ==> !IsVoteFor(ms[i], Prepare, key.0, Some(key.1))
  {
    forall i | 0 <= i < |ms|
      ensures !IsVoteFor(ms[i], Prepare, key.0, Some(key.1))
    {
      if IsHashedPrepare(ms[i]) {
        assert Has(sets, KeyOf(ms[i]));
      }
    }
  }

  lemma GroupOneMore(g: (PreparedKey, Dict<nat, Msg>), ms: seq<Msg>, m: Msg)
    requires GroupComplete(g, ms) && IsHashedPrepare(m)
    ensures KeyOf(m) != g.0 ==> GroupComplete(g, ms + [m])
    ensures KeyOf(m) == g.0 ==> GroupComplete((g.0, Put(g.1, m.peerIdx, m)), ms + [m])
  {
    SourcesOneMore(ms, m, g.0);
    KeySetPut(g.1, m.peerIdx, m);
  }

  lemma StillGrouped(sets: PrepareSets, ms: seq<Msg>, m: Msg, after: PrepareSets)
    requires AllGrouped(sets, ms) && IsHashedPrepare(m)
    requires |sets| <= |after| && forall i :: 0 <= i < |sets| ==> after[i].0 == sets[i].0
    requires Has(after, KeyOf(m))
    ensures forall i :: 0 <= i < |ms + [m]| && IsHashedPrepare((ms + [m])[i]) ==> Has(after, KeyOf((ms + [m])[i]))
  {
    forall i | 0 <= i < |ms + [m]| && IsHashedPrepare((ms + [m])[i])
      ensures Has(after, KeyOf((ms + [m])[i]))
    {
      if i < |ms| {
        var j :| 0 <= j < |sets| && sets[j].0 == KeyOf(ms[i]);
        assert after[j].0 == KeyOf(ms[i]);
      }
    }
  }

  /** Keys keep their places, and a new one comes last. */
  ghost predicate KeysGrow(sets: PrepareSets, key: PreparedKey, after: PrepareSets) {
    && |sets| <= |after| && (forall i :: 0 <= i < |sets| ==> after[i].0 == sets[i].0)
    && (if Has(sets, key) then |after| == |sets| else |after| == |sets| + 1 && after[|sets|].0 == key)
  }

  /** The group of a key, with one PREPARE more. */
  ghost predicate GroupGrows(sets: PrepareSets, key: PreparedKey, m: Msg, group: Dict<nat, Msg>) {
    if Has(sets, key) then exists j :: 0 <= j < |sets| && sets[j].0 == key && group == Put(sets[j].1, m.peerIdx, m)
    else group == [(m.peerIdx, m)]
  }

  lemma GroupReplacedIn(sets: PrepareSets, ms: seq<Msg>, m: Msg, key: PreparedKey, group: Dict<nat, Msg>,
                        after: PrepareSets)
    requires AllGrouped(sets, ms) && IsHashedPrepare(m) && key == KeyOf(m) && Has(sets, key)
    requires GroupGrows(sets, key, m, group) && after == Put(sets, key, group)
    ensures AllGrouped(after, ms + [m]) && KeysGrow(sets, key, after)
  {
    PutAt(sets, key, group);
    var j :| 0 <= j < |sets| && sets[j].0 == key && group == Put(sets[j].1, m.peerIdx, m);
    assert after == sets[j := (key, group)];
    forall i | 0 <= i < |after|
      ensures GroupComplete(after[i], ms + [m])
    {
      assert GroupComplete(sets[i], ms);
      GroupOneMore(sets[i], ms, m);
    }
    assert after[j].0 == key;
    StillGrouped(sets, ms, m, after);
  }

  lemma FirstInGroup(ms: seq<Msg>, m: Msg, key: PreparedKey)
    requires IsHashedPrepare(m) && key == KeyOf(m) && PrepareSources(ms, key) == {}
    ensures GroupComplete((key, [(m.peerIdx, m)]), ms + [m])
  {
    var group: Dict<nat, Msg> := [(m.peerIdx, m)];
    SourcesOneMore(ms, m, key);
    assert group[0].0 in KeySet(group);
  }

  lemma GroupAppended(sets: PrepareSets, ms: seq<Msg>, m: Msg, key: PreparedKey, group: Dict<nat, Msg>,
                      after: PrepareSets)
    requires AllGrouped(sets, ms) && IsHashedPrepare(m) && key == KeyOf(m) && !Has(sets, key)
    requires GroupGrows(sets, key, m, group) && after == Put(sets, key, group)
    ensures AllGrouped(after, ms + [m]) && KeysGrow(sets, key, after)
  {
    PutAt(sets, key, group);
    UngroupedHasNone(sets, ms, key);
    FirstInGroup(ms, m, key);
    forall i | 0 <= i < |after|
      ensures GroupComplete(after[i], ms + [m])
    {
      if i < |sets| {
        assert GroupComplete(sets[i], ms);
        GroupOneMore(sets[i], ms, m);
        assert Has(sets, sets[i].0);
      }
    }
    assert after[|sets|].0 == key;
    StillGrouped(sets, ms, m, after);
  }

  lemma GroupFound(sets: PrepareSets, key: PreparedKey, m: Msg, group: Dict<nat, Msg>)
    requires Unique(sets) && group == Put(Get(sets, key, []), m.peerIdx, m)
    ensures GroupGrows(sets, key, m, group)
  {
    if Has(sets, key) {
      var j :| 0 <= j < |sets| && sets[j].0 == key;
      GetAt(sets, j, []);
    } else {
      GetMissing(sets, key, []);
    }
  }

  /** What grouping does with one PREPARE more. */
  lemma GroupsGrow(ms: seq<Msg>, m: Msg, sets: PrepareSets, key: PreparedKey)
    requires sets == GroupPrepares(ms) && AllGrouped(sets, ms) && IsHashedPrepare(m) && key == KeyOf(m)
    ensures AllGrouped(GroupPrepares(ms + [m]), ms + [m]) && KeysGrow(sets, key, GroupPrepares(ms + [m]))
  {
    assert (ms + [m])[..|ms|] == ms;
    var group := Put(Get(sets, key, []), m.peerIdx, m);
    GroupFound(sets, key, m, group);
    if Has(sets, key) {
      GroupReplacedIn(sets, ms, m, key, group, GroupPrepares(ms + [m]));
    } else {
      GroupAppended(sets, ms, m, key, group, GroupPrepares(ms + [m]));
    }
  }

  lemma OthersChangeNothing(sets: PrepareSets, ms: seq<Msg>, m: Msg)
    requires AllGrouped(sets, ms) && !IsHashedPrepare(m)
    ensures AllGrouped(sets, ms + [m])
  {
    forall i | 0 <= i < |sets|
      ensures GroupComplete(sets[i], ms + [m])
    {
      assert GroupComplete(sets[i], ms);
      SourcesOneMore(ms, m, sets[i].0);
    }
    forall i | 0 <= i < |ms + [m]| && IsHashedPrepare((ms + [m])[i])
      ensures Has(sets, KeyOf((ms + [m])[i]))
    {
      assert Has(sets, KeyOf(ms[i]));
    }
  }

  lemma {:induction false} GroupsComplete(ms: seq<Msg>)
    ensures AllGrouped(GroupPrepares(ms), ms)
    decreases |ms|
  {
    if ms != [] {
      var init, m := ms[..|ms| - 1], ms[|ms| - 1];
      assert ms == init + [m];
      GroupsComplete(init);
      var sets := GroupPrepares(init);
      if IsHashedPrepare(m) {
        GroupsGrow(init, m, sets, KeyOf(m));
      } else {
        OthersChangeNothing(sets, init, m);
      }
    }
  }

  // Groups stand in the order in which their keys appear

  ghost predicate AppearsAt(ms: seq<Msg>, a: PreparedKey, b: PreparedKey, p: int) {
    && 0 <= p < |ms| && IsVoteFor(ms[p], Prepare, a.0, Some(a.1))
    && forall q :: 0 <= q <= p ==> !IsVoteFor(ms[q], Prepare, b.0, Some(b.1))
  }

  /** Some PREPARE for `a` comes before any for `b`. */
  ghost predicate AppearsBefore(ms: seq<Msg>, a: PreparedKey, b: PreparedKey) {
    exists p :: AppearsAt(ms, a, b, p)
  }

  ghost predicate InOrderOfAppearance(sets: PrepareSets, ms: seq<Msg>) {
    forall i, j :: 0 <= i < j < |sets| ==> AppearsBefore(ms, sets[i].0, sets[j].0)
  }

  lemma StillBefore(ms: seq<Msg>, m: Msg, a: PreparedKey, b: PreparedKey)
    requires AppearsBefore(ms, a, b)
    ensures AppearsBefore(ms + [m], a, b)
  {
    var p :| AppearsAt(ms, a, b, p);
    assert AppearsAt(ms + [m], a, b, p);
  }

  lemma BeforeNew(sets: PrepareSets, ms: seq<Msg>, m: Msg, i: nat, key: PreparedKey)
    requires AllGrouped(sets, ms) && i < |sets| && !Has(sets, key)
    ensures AppearsBefore(ms + [m], sets[i].0, key)
  {
    assert GroupComplete(sets[i], ms);
    var x :| x in PrepareSources(ms, sets[i].0);
    var p :| 0 <= p < |ms| && IsVoteFor(ms[p], Prepare, sets[i].0.0, Some(sets[i].0.1)) && ms[p].peerIdx == x;
    UngroupedHasNone(sets, ms, key);
    assert AppearsAt(ms + [m], sets[i].0, key, p);
  }

  lemma OrderGrows(sets: PrepareSets, ms: seq<Msg>, m: Msg, key: PreparedKey, after: PrepareSets)
    requires AllGrouped(sets, ms) && InOrderOfAppearance(sets, ms) && KeysGrow(sets, key, after)
    ensures InOrderOfAppearance(after, ms + [m])
  {
    forall i, j | 0 <= i < j < |after|
      ensures AppearsBefore(ms + [m], after[i].0, after[j].0)
    {
      if j < |sets| {
        StillBefore(ms, m, sets[i].0, sets[j].0);
      } else {
        BeforeNew(sets, ms, m, i, key);
      }
    }
  }

  lemma OrderStays(sets: PrepareSets, ms: seq<Msg>, m: Msg)
    requires InOrderOfAppearance(sets, ms)
    ensures InOrderOfAppearance(sets, ms + [m])
  {
    forall i, j | 0 <= i < j < |sets|
      ensures AppearsBefore(ms + [m], sets[i].0, sets[j].0)
    {
      StillBefore(ms, m, sets[i].0, sets[j].0);
    }
  }

  lemma {:induction false} GroupsInOrder(ms: seq<Msg>)
    ensures InOrderOfAppearance(GroupPrepares(ms), ms)
    decreases |ms|
  {
    if ms != [] {
      var init, m := ms[..|ms| - 1], ms[|ms| - 1];
      assert ms == init + [m];
      GroupsInOrder(init);
      GroupsComplete(init);
      var sets := GroupPrepares(init);
      if IsHashedPrepare(m) {
        GroupsGrow(init, m, sets, KeyOf(m));
        OrderGrows(sets, init, m, KeyOf(m), GroupPrepares(ms));
      } else {
        OrderStays(sets, init, m);
      }
    }
  }

  // The candidates are all there are

  lemma EligibleOneMore(ms: seq<Msg>, m: Msg, round: nat, key: PreparedKey)
    ensures EligibleSources(ms + [m], round, key)
            == EligibleSources(ms, round, key) + if IsEligible(m, round, key) then {m.peerIdx} else {}
  {
    var all := ms + [m];
    forall x | x in EligibleSources(ms, round, key)
      ensures x in EligibleSources(all, round, key)
    {
      var i :| 0 <= i < |ms| && IsEligible(ms[i], round, key) && ms[i].peerIdx == x;
      assert all[i] == ms[i];
    }
    if IsEligible(m, round, key) {
      assert all[|ms|] == m;
    }
  }

  lemma NamedOneMore(ms: seq<Msg>, m: Msg, round: nat, key: PreparedKey)
    ensures IsNamed(ms + [m], round, key)
            <==> || IsNamed(ms, round, key)
                 || (IsEligible(m, round, key) && NamesKey(m, key) && m.peerIdx !in EligibleSources(ms, round, key))
  {
    var all := ms + [m];
    if IsNamed(ms, round, key) {
      var i :| NamesFirst(ms, round, key, i);
      assert NamesFirst(all, round, key, i);
    }
    if IsNamed(all, round, key) {
      var i :| NamesFirst(all, round, key, i);
      assert forall j :: 0 <= j < |ms| ==> all[j] == ms[j];
      if i < |ms| {
        assert NamesFirst(ms, round, key, i);
      }
    }
    if IsEligible(m, round, key) && NamesKey(m, key) && m.peerIdx !in EligibleSources(ms, round, key) {
      forall j | 0 <= j < |ms| && IsEligible(ms[j], round, key)
        ensures ms[j].peerIdx != m.peerIdx
      {
        assert ms[j].peerIdx in EligibleSources(ms, round, key);
      }
      assert NamesFirst(all, round, key, |ms|);
    }
  }

  ghost predicate CandidatesComplete(c: Candidates, ms: seq<Msg>, round: nat, key: PreparedKey) {
    c.sources == EligibleSources(ms, round, key) && (c.hasHighest <==> IsNamed(ms, round, key))
  }

  lemma CandidatesGrow(qrc: seq<Msg>, ms: seq<Msg>, m: Msg, round: nat, key: PreparedKey)
    requires CandidatesComplete(CollectCandidates(qrc, key), ms, round, key)
    ensures CandidatesComplete(
              CollectCandidates(if IsRoundChangeOf(m, round) then qrc + [m] else qrc, key), ms + [m], round, key)
  {
    assert (qrc + [m])[..|qrc|] == qrc;
    EligibleOneMore(ms, m, round, key);
    NamedOneMore(ms, m, round, key);
  }

  lemma {:induction false} CandidatesExact(ms: seq<Msg>, round: nat, key: PreparedKey)
    ensures CandidatesComplete(CollectCandidates(Select(RoundChanges(round), ms), key), ms, round, key)
    decreases |ms|
  {
    if ms == [] {
      assert EligibleSources(ms, round, key) == {};
    } else {
      var init, m := ms[..|ms| - 1], ms[|ms| - 1];
      assert ms == init + [m];
      CandidatesExact(init, round, key);
      CandidatesGrow(Select(RoundChanges(round), init), init, m, round, key);
      assert Select(RoundChanges(round), init) + [] == Select(RoundChanges(round), init);
    }
  }

  // The search

  lemma GroupSupportIff(g: (PreparedKey, Dict<nat, Msg>), ms: seq<Msg>, round: nat, quorum: nat)
    requires GroupComplete(g, ms)
    ensures GroupSupport(g, Select(RoundChanges(round), ms), quorum).Some? <==> Supports(ms, round, g.0, quorum)
  {
    var qrc := Select(RoundChanges(round), ms);
    var c := CollectCandidates(qrc, g.0);
    CandidatesSound(qrc, g.0);
    CandidatesExact(ms, round, g.0);
    DistinctPeersCount(c.msgs);
    KeySetCounts(g.1);
  }

  /** The first group with support is the one found. */
  lemma {:induction false} FirstSupportLeast(sets: PrepareSets, qrc: seq<Msg>, quorum: nat) returns (i: nat)
    ensures i <= |sets| && forall j :: 0 <= j < i ==> GroupSupport(sets[j], qrc, quorum).None?
    ensures i < |sets| ==> GroupSupport(sets[i], qrc, quorum).Some?
    ensures FirstSupport(sets, qrc, quorum)
            == if i == |sets| then None else GroupSupport(sets[i], qrc, quorum)
    decreases |sets|
  {
    if sets == [] {
      i := 0;
    } else {
      var init := sets[..|sets| - 1];
      i := FirstSupportLeast(init, qrc, quorum);
      if i == |init| && GroupSupport(sets[|init|], qrc, quorum).None? {
        i := |sets|;
      }
    }
  }

  lemma SupportedIsGrouped(sets: PrepareSets, ms: seq<Msg>, round: nat, key: PreparedKey, quorum: nat) returns (i: nat)
    requires AllGrouped(sets, ms) && Supports(ms, round, key, quorum) && quorum > 0
    ensures i < |sets| && sets[i].0 == key
  {
    if !Has(sets, key) {
      UngroupedHasNone(sets, ms, key);
    }
    i :| 0 <= i < |sets| && sets[i].0 == key;
  }

  /** The key has support, and of all that do it appears first. */
  ghost predicate IsChosen(ms: seq<Msg>, round: nat, key: PreparedKey, quorum: nat) {
    && Supports(ms, round, key, quorum)
    && forall other :: Supports(ms, round, other, quorum) && other != key ==> AppearsBefore(ms, key, other)
  }

  lemma FirstIsChosen(ms: seq<Msg>, round: nat, quorum: nat, sets: PrepareSets, i: nat)
    requires sets == GroupPrepares(ms) && quorum > 0 && i < |sets|
    requires GroupSupport(sets[i], Select(RoundChanges(round), ms), quorum).Some?
    requires forall j :: 0 <= j < i ==> GroupSupport(sets[j], Select(RoundChanges(round), ms), quorum).None?
    ensures IsChosen(ms, round, sets[i].0, quorum)
  {
    GroupsComplete(ms);
    GroupsInOrder(ms);
    GroupSupportIff(sets[i], ms, round, quorum);
    forall other | Supports(ms, round, other, quorum) && other != sets[i].0
      ensures AppearsBefore(ms, sets[i].0, other)
    {
      var j := SupportedIsGrouped(sets, ms, round, other, quorum);
      GroupSupportIff(sets[j], ms, round, quorum);
    }
  }

  lemma NoneIsUnsupported(ms: seq<Msg>, round: nat, quorum: nat, sets: PrepareSets)
    requires sets == GroupPrepares(ms) && quorum > 0
    requires forall j :: 0 <= j < |sets| ==> GroupSupport(sets[j], Select(RoundChanges(round), ms), quorum).None?
    ensures !SomeSupport(ms, round, quorum)
  {
    GroupsComplete(ms);
    forall key
      ensures !Supports(ms, round, key, quorum)
    {
      if Supports(ms, round, key, quorum) {
        var j := SupportedIsGrouped(sets, ms, round, key, quorum);
        GroupSupportIff(sets[j], ms, round, quorum);
      }
    }
  }

  lemma UnpreparedCount(ms: seq<Msg>, round: nat)
    ensures |Select(UnpreparedRoundChanges(round), ms)| == |UnpreparedPlaces(ms, round)|
  {
    SelectCounts(UnpreparedRoundChanges(round), ms);
    assert Places(UnpreparedRoundChanges(round), ms) == UnpreparedPlaces(ms, round);
  }

  /** A justification is found in a buffer exactly when it holds a quorum of unprepared ROUND-CHANGEs of
      the round, or some key has support. */
  lemma {:induction false} JustificationFoundIff(ms: seq<Msg>, round: nat, quorum: nat)
    requires quorum > 0
    ensures JustifyQuorum(ms, round, quorum).Some?
            <==> |UnpreparedPlaces(ms, round)| >= quorum || SomeSupport(ms, round, quorum)
  {
    UnpreparedCount(ms, round);
    var sets, qrc := GroupPrepares(ms), Select(RoundChanges(round), ms);
    var i := FirstSupportLeast(sets, qrc, quorum);
    if i < |sets| {
      FirstIsChosen(ms, round, quorum, sets, i);
    } else {
      NoneIsUnsupported(ms, round, quorum, sets);
    }
  }

  /** With too few unprepared ones it is that of the key chosen. */
  lemma {:induction false} JustificationChosen(ms: seq<Msg>, round: nat, quorum: nat)
      returns (key: PreparedKey, cands: seq<Msg>, prepares: seq<Msg>)
    requires quorum > 0 && |UnpreparedPlaces(ms, round)| < quorum && JustifyQuorum(ms, round, quorum).Some?
    ensures IsChosen(ms, round, key, quorum)
    ensures PreparedQuorum(JustifyQuorum(ms, round, quorum).value, ms, round, quorum, key, cands, prepares)
  {
    UnpreparedCount(ms, round);
    var sets, qrc := GroupPrepares(ms), Select(RoundChanges(round), ms);
    var i := FirstSupportLeast(sets, qrc, quorum);
    FirstIsChosen(ms, round, quorum, sets, i);
    GroupsSound(ms);
    GroupValues(sets[i], ms);
    CandidatesSound(qrc, sets[i].0);
    key, cands, prepares := sets[i].0, CollectCandidates(qrc, sets[i].0).msgs, Values(sets[i].1);
  }
}
