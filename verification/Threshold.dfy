/** The threshold trigger: storing partial signatures and choosing those to aggregate. */
module Threshold {
  import opened SymbolicBytes
  import opened Wrappers
  import opened Dicts
  import opened Grouping
  import opened Lagrange
  import opened Interpolation

  datatype PartialSignature = PartialSignature(shareIdx: int, signature: Bytes, messageRoot: Bytes)

  datatype TriggerError = MismatchingSignature | TooFewSignatures | TooFewShares

  /** The duty type of DKG signature exchanges, which carry no message root. */
  const SIGNATURE: int := 3

  // Storing

  function FirstOfShare(stored: seq<PartialSignature>, idx: int): PartialSignature
    requires exists s <- stored :: s.shareIdx == idx
  {
    if stored[0].shareIdx == idx then stored[0] else FirstOfShare(stored[1..], idx)
  }

  /** What the first stored signature of the same share decides. */
  function Store(stored: seq<PartialSignature>, incoming: PartialSignature)
    : Result<Option<seq<PartialSignature>>, TriggerError>
  {
    if forall s <- stored :: s.shareIdx != incoming.shareIdx then Success(Some(stored + [incoming]))
    else if FirstOfShare(stored, incoming.shareIdx) == incoming then Success(None)
    else Failure(MismatchingSignature)
  }

  method StorePartialSignature(stored: seq<PartialSignature>, incoming: PartialSignature)
    returns (r: Result<Option<seq<PartialSignature>>, TriggerError>)
    ensures r == Store(stored, incoming)
  {
    for i := 0 to |stored|
      invariant forall s <- stored[..i] :: s.shareIdx != incoming.shareIdx
      invariant (exists s <- stored :: s.shareIdx == incoming.shareIdx) ==>
                  (exists s <- stored[i..] :: s.shareIdx == incoming.shareIdx)
                  && FirstOfShare(stored, incoming.shareIdx) == FirstOfShare(stored[i..], incoming.shareIdx)
    {
      var existing := stored[i];
      assert stored[i..][0] == existing && stored[i..][1..] == stored[i + 1..];
      assert stored[..i + 1] == stored[..i] + [existing];
      if existing.shareIdx == incoming.shareIdx {
        assert existing in stored;
        return if existing == incoming then Success(None) else Failure(MismatchingSignature);
      }
    }
    assert stored[..|stored|] == stored;
    r := Success(Some(stored + [incoming]));
  }

  /** Signature `k` is the first of its share. */
  predicate FirstAt(sigs: seq<PartialSignature>, k: int, idx: int) {
    0 <= k < |sigs| && sigs[k].shareIdx == idx && forall j :: 0 <= j < k ==> sigs[j].shareIdx != idx
  }

  lemma {:induction false} FirstOfShareAt(stored: seq<PartialSignature>, idx: int) returns (k: nat)
    requires exists s <- stored :: s.shareIdx == idx
    ensures FirstAt(stored, k, idx) && stored[k] == FirstOfShare(stored, idx)
    decreases |stored|
  {
    if stored[0].shareIdx == idx {
      k := 0;
    } else {
      var later := FirstOfShareAt(stored[1..], idx);
      k := later + 1;
      assert forall j :: 0 < j < k ==> stored[j] == stored[1..][j - 1];
    }
  }

  /** A signature of a new share is appended. Of a share already stored, exactly the first stored one is
      ignored, and any other refused. */
  lemma {:induction false} StoreMeans(stored: seq<PartialSignature>, incoming: PartialSignature)
    ensures (forall k :: !FirstAt(stored, k, incoming.shareIdx)) ==>
              Store(stored, incoming) == Success(Some(stored + [incoming]))
    ensures forall k :: FirstAt(stored, k, incoming.shareIdx) ==>
              Store(stored, incoming) == if stored[k] == incoming then Success(None) else Failure(MismatchingSignature)
  {
    if s :| s in stored && s.shareIdx == incoming.shareIdx {
      var k := FirstOfShareAt(stored, incoming.shareIdx);
      assert forall j :: FirstAt(stored, j, incoming.shareIdx) ==> j == k;
    }
  }

  // Selecting

  function RootOf(s: PartialSignature): Bytes {
    s.messageRoot
  }

  function FirstFull(sigs: seq<PartialSignature>, roots: seq<Bytes>, threshold: int): Option<seq<PartialSignature>> {
    if roots == [] then None
    else if |Group(sigs, RootOf, roots[0])| == threshold then Some(Group(sigs, RootOf, roots[0]))
    else FirstFull(sigs, roots[1..], threshold)
  }

  function Selected(duty: int, sigs: seq<PartialSignature>, threshold: int): Option<seq<PartialSignature>> {
    if |sigs| < threshold then None
    else if duty == SIGNATURE then if |sigs| == threshold then Some(sigs) else None
    else FirstFull(sigs, FirstKeys(sigs, RootOf), threshold)
  }

  /** The selection: all signatures of a DKG exchange, or the group of one root; in both cases only at
      exactly `threshold` members. */
  ghost predicate Selects(duty: int, sigs: seq<PartialSignature>, threshold: int, r: Option<seq<PartialSignature>>) {
    match r
    case None =>
      if duty == SIGNATURE then |sigs| != threshold
      else forall s <- sigs :: |Group(sigs, RootOf, s.messageRoot)| != threshold
    case Some(g) =>
      && |g| == threshold
      && if duty == SIGNATURE then g == sigs else exists s <- sigs :: g == Group(sigs, RootOf, s.messageRoot)
  }

  lemma {:induction false} FirstFullMeans(sigs: seq<PartialSignature>, roots: seq<Bytes>, threshold: int)
    ensures var r := FirstFull(sigs, roots, threshold);
            if r.None? then forall root <- roots :: |Group(sigs, RootOf, root)| != threshold
            else |r.value| == threshold && exists root <- roots :: r.value == Group(sigs, RootOf, root)
    decreases |roots|
  {
    if roots != [] {
      assert roots == [roots[0]] + roots[1..];
      FirstFullMeans(sigs, roots[1..], threshold);
    }
  }

  /** Walking the groups in order selects a full group whenever there is one. */
  lemma SelectedMeans(duty: int, sigs: seq<PartialSignature>, threshold: int)
    ensures Selects(duty, sigs, threshold, Selected(duty, sigs, threshold))
  {
    forall s <- sigs
      ensures |Group(sigs, RootOf, s.messageRoot)| <= |sigs| && s.messageRoot in FirstKeys(sigs, RootOf)
    {
      GroupMembers(sigs, RootOf, s.messageRoot);
      KeysAppear(sigs, RootOf, s.messageRoot);
    }
    var roots := FirstKeys(sigs, RootOf);
    FirstFullMeans(sigs, roots, threshold);
    if duty != SIGNATURE && Selected(duty, sigs, threshold).Some? {
      var root :| root in roots && Selected(duty, sigs, threshold).value == Group(sigs, RootOf, root);
      KeysAppear(sigs, RootOf, root);
    }
  }

  lemma {:induction false} FirstFullAt(sigs: seq<PartialSignature>, roots: seq<Bytes>, threshold: int) returns (i: nat)
    requires FirstFull(sigs, roots, threshold).Some?
    ensures i < |roots| && FirstFull(sigs, roots, threshold) == Some(Group(sigs, RootOf, roots[i]))
    ensures |Group(sigs, RootOf, roots[i])| == threshold
    ensures forall j :: 0 <= j < i ==> |Group(sigs, RootOf, roots[j])| != threshold
    decreases |roots|
  {
    if |Group(sigs, RootOf, roots[0])| == threshold {
      i := 0;
    } else {
      i := FirstFullAt(sigs, roots[1..], threshold);
      i := i + 1;
    }
  }

  /** Of several full groups the one is selected whose root comes first. */
  lemma {:induction false} SelectedIsFirst(duty: int, sigs: seq<PartialSignature>, threshold: int)
      returns (p: nat)
    requires duty != SIGNATURE && Selected(duty, sigs, threshold).Some?
    ensures p < |sigs| && Selected(duty, sigs, threshold) == Some(Group(sigs, RootOf, sigs[p].messageRoot))
    ensures forall q :: 0 <= q < p ==> |Group(sigs, RootOf, sigs[q].messageRoot)| != threshold
  {
    var roots := FirstKeys(sigs, RootOf);
    var i := FirstFullAt(sigs, roots, threshold);
    p := KeyAppears(sigs, RootOf, i);
    forall q | 0 <= q < p
      ensures |Group(sigs, RootOf, sigs[q].messageRoot)| != threshold
    {
      KeysAppear(sigs, RootOf, sigs[q].messageRoot);
      var j :| 0 <= j < |roots| && roots[j] == sigs[q].messageRoot;
      if i < j {
        var a, b := KeysInOrder(sigs, RootOf, i, j);
      }
    }
  }

  method GroupByRoot(sigs: seq<PartialSignature>) returns (byRoot: Dict<Bytes, seq<PartialSignature>>)
    ensures Grouped(byRoot, sigs, RootOf)
  {
    byRoot := [];
    for i := 0 to |sigs|
      invariant Grouped(byRoot, sigs[..i], RootOf)
    {
      var sig := sigs[i];
      GroupsGrow(byRoot, sigs[..i], RootOf, sig);
      assert sigs[..i + 1] == sigs[..i] + [sig];
      byRoot := Put(byRoot, sig.messageRoot, Get(byRoot, sig.messageRoot, []) + [sig]);
    }
    assert sigs[..|sigs|] == sigs;
  }

  method SelectThresholdMatching(duty: int, sigs: seq<PartialSignature>, threshold: int)
    returns (r: Option<seq<PartialSignature>>)
    ensures r == Selected(duty, sigs, threshold)
  {
    if |sigs| < threshold {
      return None;
    }
    if duty == SIGNATURE {
      return if |sigs| == threshold then Some(sigs) else None;
    }
    var byRoot := GroupByRoot(sigs);
    ghost var roots := FirstKeys(sigs, RootOf);
    for k := 0 to |byRoot|
      invariant FirstFull(sigs, roots, threshold) == FirstFull(sigs, roots[k..], threshold)
    {
      assert roots[k..][0] == roots[k] && roots[k..][1..] == roots[k + 1..];
      var group := byRoot[k].1;
      if |group| == threshold {
        return Some(group);
      }
    }
    r := None;
  }

  // Aggregation inputs

  /** The signatures keyed by share index; a repeated index keeps its last signature. */
  function KeyByShare(sigs: seq<PartialSignature>): Dict<int, Bytes>
    decreases |sigs|
  {
    if sigs == [] then []
    else
      var last := sigs[|sigs| - 1];
      Put(KeyByShare(sigs[..|sigs| - 1]), last.shareIdx, last.signature)
  }

  method SelectAggregationInputs(sigs: seq<PartialSignature>, threshold: int)
    returns (r: Result<Dict<int, Bytes>, TriggerError>)
    ensures r == if |sigs| < threshold then Failure(TooFewSignatures)
                 else if |KeyByShare(sigs)| < threshold then Failure(TooFewShares)
                 else Success(KeyByShare(sigs))
  {
    if |sigs| < threshold {
      return Failure(TooFewSignatures);
    }
    var byShareIdx: Dict<int, Bytes> := [];
    for i := 0 to |sigs|
      invariant byShareIdx == KeyByShare(sigs[..i])
    {
      assert sigs[..i + 1][..i] == sigs[..i];
      byShareIdx := Put(byShareIdx, sigs[i].shareIdx, sigs[i].signature);
    }
    assert sigs[..|sigs|] == sigs;
    if |byShareIdx| < threshold {
      return Failure(TooFewShares);
    }
    r := Success(byShareIdx);
  }

  predicate DistinctShares(sigs: seq<PartialSignature>) {
    forall i, j :: 0 <= i < j < |sigs| ==> sigs[i].shareIdx != sigs[j].shareIdx
  }

  lemma {:induction false} KeyByDistinctShares(sigs: seq<PartialSignature>)
    requires DistinctShares(sigs)
    ensures |KeyByShare(sigs)| == |sigs|
    ensures forall k :: 0 <= k < |sigs| ==> KeyByShare(sigs)[k] == (sigs[k].shareIdx, sigs[k].signature)
    decreases |sigs|
  {
    if sigs != [] {
      var init, last := sigs[..|sigs| - 1], sigs[|sigs| - 1];
      KeyByDistinctShares(init);
      assert !Has(KeyByShare(init), last.shareIdx);
      PutNew(KeyByShare(init), last.shareIdx, last.signature);
    }
  }

  lemma PutLookup(d: Dict<int, Bytes>, k: int, v: Bytes, x: int)
    requires Unique(d)
    ensures Unique(Put(d, k, v))
    ensures Has(Put(d, k, v), x) <==> Has(d, x) || x == k
    ensures Get(Put(d, k, v), x, []) == if x == k then v else Get(d, x, [])
  {
    var e := Put(d, k, v);
    PutAt(d, k, v);
    if Has(d, k) {
      var i :| 0 <= i < |d| && d[i].0 == k;
      assert e == d[i := (k, v)];
      assert e[i].0 == k;
      GetAt(e, i, []);
    } else {
      assert e[|d|].0 == k;
      GetAt(e, |d|, []);
    }
    if x != k {
      if Has(d, x) {
        var j :| 0 <= j < |d| && d[j].0 == x;
        assert e[j] == d[j];
        GetAt(d, j, []);
        GetAt(e, j, []);
      } else {
        assert !Has(e, x);
        GetMissing(d, x, []);
        GetMissing(e, x, []);
      }
    }
  }

  /** A share keeps the last of its signatures. */
  lemma {:induction false} KeyByShareMeans(sigs: seq<PartialSignature>, idx: int)
    ensures Unique(KeyByShare(sigs))
    ensures Has(KeyByShare(sigs), idx) <==> exists s <- sigs :: s.shareIdx == idx
    ensures forall k :: 0 <= k < |sigs| && sigs[k].shareIdx == idx
                        && (forall j :: k < j < |sigs| ==> sigs[j].shareIdx != idx) ==>
                          Get(KeyByShare(sigs), idx, []) == sigs[k].signature
    decreases |sigs|
  {
    if sigs != [] {
      var init, last := sigs[..|sigs| - 1], sigs[|sigs| - 1];
      assert sigs == init + [last];
      KeyByShareMeans(init, idx);
      PutLookup(KeyByShare(init), last.shareIdx, last.signature, idx);
    }
  }

  // Runs

  /** What is stored after a run of received signatures; refused and repeated ones leave no trace. */
  function Stored(run: seq<PartialSignature>): seq<PartialSignature>
    decreases |run|
  {
    if run == [] then []
    else
      var before := Stored(run[..|run| - 1]);
      match Store(before, run[|run| - 1])
      case Success(Some(after)) => after
      case _ => before
  }

  /** The last signature of the run was accepted, which is when the trigger is evaluated. */
  predicate Accepted(run: seq<PartialSignature>) {
    run != [] && Stored(run) == Stored(run[..|run| - 1]) + [run[|run| - 1]]
  }

  /** The group aggregated on the arrival of the run's last signature, if any. */
  function Fired(duty: int, run: seq<PartialSignature>, threshold: int): Option<seq<PartialSignature>> {
    if Accepted(run) then Selected(duty, Stored(run), threshold) else None
  }

  lemma {:induction false} StoredShares(run: seq<PartialSignature>, n: int)
    requires forall s <- run :: 1 <= s.shareIdx <= n
    ensures DistinctShares(Stored(run)) && forall s <- Stored(run) :: 1 <= s.shareIdx <= n
    decreases |run|
  {
    if run != [] {
      StoredShares(run[..|run| - 1], n);
    }
  }

  lemma {:induction false} StoredGrows(run: seq<PartialSignature>, k: nat)
    requires k <= |run|
    ensures Stored(run[..k]) <= Stored(run)
    decreases |run|
  {
    if k < |run| {
      StoredGrows(run[..|run| - 1], k);
      assert run[..|run| - 1][..k] == run[..k];
    } else {
      assert run[..k] == run;
    }
  }

  lemma {:induction false} IntsBounded(s: set<int>, n: nat)
    requires forall i <- s :: 1 <= i <= n
    ensures |s| <= n
    decreases n
  {
    if n == 0 {
      assert forall i | i in s :: 1 <= i <= 0;
      assert s == {};
    } else {
      IntsBounded(s - {n}, n - 1);
      assert s <= (s - {n}) + {n};
    }
  }

  lemma {:induction false} DistinctSharesBounded(sigs: seq<PartialSignature>, n: nat)
    requires DistinctShares(sigs) && forall s <- sigs :: 1 <= s.shareIdx <= n
    ensures |sigs| <= n
  {
    var idxs := seq(|sigs|, i requires 0 <= i < |sigs| => sigs[i].shareIdx);
    assert Distinct(idxs);
    DistinctCount(idxs);
    IntsBounded((set i | i in idxs), n);
  }

  lemma {:induction false} GroupsDisjoint(sigs: seq<PartialSignature>, a: Bytes, b: Bytes)
    requires a != b
    ensures |Group(sigs, RootOf, a)| + |Group(sigs, RootOf, b)| <= |sigs|
    decreases |sigs|
  {
    if sigs != [] {
      GroupsDisjoint(sigs[..|sigs| - 1], a, b);
    }
  }

  lemma {:induction false} GroupExtends(sigs: seq<PartialSignature>, more: seq<PartialSignature>, root: Bytes)
    requires sigs <= more
    ensures Group(sigs, RootOf, root) <= Group(more, RootOf, root)
    decreases |more|
  {
    if |sigs| < |more| {
      GroupExtends(sigs, more[..|more| - 1], root);
    } else {
      assert sigs == more;
    }
  }

  /** A full group of the stored signatures stays the only one there can be. */
  lemma OneFullGroup(early: seq<PartialSignature>, late: seq<PartialSignature>, a: Bytes, b: Bytes,
      threshold: int, n: nat)
    requires early <= late && DistinctShares(late) && 2 * threshold > n
    requires forall s <- late :: 1 <= s.shareIdx <= n
    requires |Group(early, RootOf, a)| == threshold == |Group(late, RootOf, b)|
    ensures a == b && Group(early, RootOf, a) == Group(late, RootOf, b)
  {
    GroupExtends(early, late, a);
    DistinctSharesBounded(late, n);
    if a != b {
      GroupsDisjoint(late, a, b);
    }
  }

  /** In a run of a cluster of n nodes, whenever the trigger fires again it selects the same group. */
  lemma FiringsAgree(duty: int, run: seq<PartialSignature>, i: nat, j: nat, threshold: int, n: nat)
    requires i <= j <= |run| && 2 * threshold > n && forall s <- run :: 1 <= s.shareIdx <= n
    requires Fired(duty, run[..i], threshold).Some? && Fired(duty, run[..j], threshold).Some?
    ensures Fired(duty, run[..i], threshold) == Fired(duty, run[..j], threshold)
  {
    var early, late := Stored(run[..i]), Stored(run[..j]);
    assert run[..j][..i] == run[..i];
    StoredGrows(run[..j], i);
    StoredShares(run[..j], n);
    SelectedMeans(duty, early, threshold);
    SelectedMeans(duty, late, threshold);
    if duty != SIGNATURE {
      var s :| s in early && Selected(duty, early, threshold).value == Group(early, RootOf, s.messageRoot);
      var t :| t in late && Selected(duty, late, threshold).value == Group(late, RootOf, t.messageRoot);
      OneFullGroup(early, late, s.messageRoot, t.messageRoot, threshold, n);
    } else {
      assert early == late;
    }
  }

  lemma GroupShares(sigs: seq<PartialSignature>, root: Bytes)
    requires DistinctShares(sigs)
    ensures DistinctShares(Group(sigs, RootOf, root))
    decreases |sigs|
  {
    if sigs != [] {
      var init, last := sigs[..|sigs| - 1], sigs[|sigs| - 1];
      GroupShares(init, root);
      GroupMembers(init, RootOf, root);
      forall g <- Group(init, RootOf, root)
        ensures g.shareIdx != last.shareIdx
      {
        assert g in init;
        var k :| 0 <= k < |init| && init[k] == g;
        assert sigs[k] == g;
      }
    }
  }

  lemma {:induction false} AnyStoredShares(run: seq<PartialSignature>)
    ensures DistinctShares(Stored(run))
    decreases |run|
  {
    if run != [] {
      AnyStoredShares(run[..|run| - 1]);
    }
  }

  predicate HasShare(sigs: seq<PartialSignature>, idx: int) {
    exists s <- sigs :: s.shareIdx == idx
  }

  lemma {:induction false} FirstOneMore(run: seq<PartialSignature>, last: PartialSignature, idx: int, k: int)
    ensures FirstAt(run + [last], k, idx)
            <==> FirstAt(run, k, idx) || (k == |run| && last.shareIdx == idx && !HasShare(run, idx))
  {
    assert forall j :: 0 <= j < |run| ==> (run + [last])[j] == run[j];
    if k == |run| && HasShare(run, idx) {
      var s :| s in run && s.shareIdx == idx;
      var j :| 0 <= j < |run| && run[j] == s;
    }
  }

  /** A share is stored exactly when the run has brought it. */
  lemma {:induction false} ShareSeen(run: seq<PartialSignature>, idx: int)
    ensures HasShare(Stored(run), idx) <==> HasShare(run, idx)
    decreases |run|
  {
    if run != [] {
      var init, last := run[..|run| - 1], run[|run| - 1];
      assert run == init + [last];
      ShareSeen(init, idx);
      ShareSeen(init, last.shareIdx);
    }
  }

  ghost predicate IsFirst(run: seq<PartialSignature>, x: PartialSignature) {
    exists k :: FirstAt(run, k, x.shareIdx) && run[k] == x
  }

  lemma {:induction false} FirstIsOneMore(run: seq<PartialSignature>, last: PartialSignature, x: PartialSignature)
    ensures IsFirst(run + [last], x) <==> IsFirst(run, x) || (x == last && !HasShare(run, x.shareIdx))
  {
    if IsFirst(run, x) {
      var k :| FirstAt(run, k, x.shareIdx) && run[k] == x;
      FirstOneMore(run, last, x.shareIdx, k);
    }
    if IsFirst(run + [last], x) {
      var k :| FirstAt(run + [last], k, x.shareIdx) && (run + [last])[k] == x;
      FirstOneMore(run, last, x.shareIdx, k);
    }
    FirstOneMore(run, last, x.shareIdx, |run|);
  }

  lemma {:induction false} StoredOneMore(run: seq<PartialSignature>, last: PartialSignature, x: PartialSignature)
    requires HasShare(Stored(run), last.shareIdx) <==> HasShare(run, last.shareIdx)
    ensures x in Stored(run + [last]) <==> x in Stored(run) || (x == last && !HasShare(run, x.shareIdx))
  {
    assert (run + [last])[..|run|] == run;
  }

  /** A run stores exactly the first signature of each share, so each share has one slot: the signature in it
      is ignored when it comes again, any other of that share is refused, and a new share is stored. */
  lemma {:induction false} StoredIsFirst(run: seq<PartialSignature>, x: PartialSignature)
    ensures x in Stored(run) <==> IsFirst(run, x)
    decreases |run|
  {
    if run != [] {
      var init, last := run[..|run| - 1], run[|run| - 1];
      assert run == init + [last];
      StoredIsFirst(init, x);
      ShareSeen(init, last.shareIdx);
      StoredOneMore(init, last, x);
      FirstIsOneMore(init, last, x);
    }
  }

  lemma SlotIsOnly(sigs: seq<PartialSignature>, k: nat, x: PartialSignature)
    requires DistinctShares(sigs) && FirstAt(sigs, k, x.shareIdx)
    ensures x in sigs <==> sigs[k] == x
  {
    if x in sigs {
      var j :| 0 <= j < |sigs| && sigs[j] == x;
      assert j == k;
    }
  }

  /** So over a run what is stored of a share decides: the same again is ignored, anything else refused. */
  lemma {:induction false} OneSlotPerShare(run: seq<PartialSignature>, incoming: PartialSignature)
    ensures Store(Stored(run), incoming)
            == if !HasShare(run, incoming.shareIdx) then Success(Some(Stored(run) + [incoming]))
               else if incoming in Stored(run) then Success(None)
               else Failure(MismatchingSignature)
  {
    ShareSeen(run, incoming.shareIdx);
    AnyStoredShares(run);
    if HasShare(run, incoming.shareIdx) {
      var k := FirstOfShareAt(Stored(run), incoming.shareIdx);
      StoreMeans(Stored(run), incoming);
      SlotIsOnly(Stored(run), k, incoming);
    }
  }

  /** What fires can always be aggregated: exactly `threshold` signatures, of as many shares. */
  lemma FiringAggregates(duty: int, run: seq<PartialSignature>, threshold: int)
    requires Fired(duty, run, threshold).Some?
    ensures var g := Fired(duty, run, threshold).value;
            |g| == |KeyByShare(g)| == threshold
            && forall k :: 0 <= k < |g| ==> KeyByShare(g)[k] == (g[k].shareIdx, g[k].signature)
  {
    var sigs := Stored(run);
    AnyStoredShares(run);
    SelectedMeans(duty, sigs, threshold);
    var g := Fired(duty, run, threshold).value;
    if duty != SIGNATURE {
      var s :| s in sigs && g == Group(sigs, RootOf, s.messageRoot);
      GroupShares(sigs, s.messageRoot);
    }
    KeyByDistinctShares(g);
  }

  lemma OnlyFullGroup(sigs: seq<PartialSignature>, a: Bytes, b: Bytes, threshold: int, n: nat)
    requires DistinctShares(sigs) && 2 * threshold > n && forall s <- sigs :: 1 <= s.shareIdx <= n
    requires |Group(sigs, RootOf, a)| >= threshold && |Group(sigs, RootOf, b)| == threshold
    ensures a == b
  {
    DistinctSharesBounded(sigs, n);
    if a != b {
      GroupsDisjoint(sigs, a, b);
    }
  }

  /** In a cluster of n nodes a full group is selected, and nothing is once it is over-full. */
  lemma FullGroupSelected(duty: int, sigs: seq<PartialSignature>, root: Bytes, threshold: int, n: nat)
    requires duty != SIGNATURE && threshold > 0 && 2 * threshold > n
    requires DistinctShares(sigs) && forall s <- sigs :: 1 <= s.shareIdx <= n
    requires |Group(sigs, RootOf, root)| >= threshold
    ensures Selected(duty, sigs, threshold)
            == if |Group(sigs, RootOf, root)| == threshold then Some(Group(sigs, RootOf, root)) else None
  {
    var r := Selected(duty, sigs, threshold);
    SelectedMeans(duty, sigs, threshold);
    if r.Some? {
      var s :| s in sigs && r.value == Group(sigs, RootOf, s.messageRoot);
      OnlyFullGroup(sigs, root, s.messageRoot, threshold, n);
    } else {
      GroupMembers(sigs, RootOf, root);
      var s :| s in sigs && s.messageRoot == root;
      assert |Group(sigs, RootOf, s.messageRoot)| != threshold;
    }
  }

  /** After a group is full, another accepted signature fires the trigger again exactly when it is over
      a different root: the group is then still of the exact size that selects it. */
  lemma RefiresIff(duty: int, sigs: seq<PartialSignature>, root: Bytes, incoming: PartialSignature,
      threshold: int, n: nat)
    requires duty != SIGNATURE && threshold > 0 && 2 * threshold > n
    requires DistinctShares(sigs + [incoming]) && forall s <- sigs + [incoming] :: 1 <= s.shareIdx <= n
    requires |Group(sigs, RootOf, root)| == threshold
    ensures Selected(duty, sigs + [incoming], threshold)
            == if incoming.messageRoot == root then None else Some(Group(sigs, RootOf, root))
  {
    GroupOneMore(sigs, RootOf, incoming, root);
    assert Group(sigs, RootOf, root) + [] == Group(sigs, RootOf, root);
    FullGroupSelected(duty, sigs + [incoming], root, threshold, n);
  }

  lemma LaterGroup(duty: int, early: seq<PartialSignature>, late: seq<PartialSignature>, root: Bytes,
      threshold: int, n: nat)
    requires duty != SIGNATURE && threshold > 0 && 2 * threshold > n
    requires early <= late && DistinctShares(late) && forall s <- late :: 1 <= s.shareIdx <= n
    requires |Group(early, RootOf, root)| == threshold
    ensures Selected(duty, late, threshold)
            == if |Group(late, RootOf, root)| == threshold then Some(Group(early, RootOf, root)) else None
  {
    var g, h := Group(early, RootOf, root), Group(late, RootOf, root);
    GroupExtends(early, late, root);
    assert |g| == |h| ==> g == h;
    FullGroupSelected(duty, late, root, threshold, n);
  }

  lemma FiredSize(duty: int, run: seq<PartialSignature>, threshold: int)
    requires Fired(duty, run, threshold).Some?
    ensures Accepted(run) && |Fired(duty, run, threshold).value| == threshold
  {
    SelectedMeans(duty, Stored(run), threshold);
  }

  /** So once a group has fired, each later accepted signature fires it again exactly as long as no
      further signature over its root has been stored. */
  lemma {:induction false} FiresAgainIff(duty: int, run: seq<PartialSignature>, i: nat, root: Bytes,
      threshold: int, n: nat)
    requires i <= |run| && duty != SIGNATURE && threshold > 0 && 2 * threshold > n
    requires forall s <- run :: 1 <= s.shareIdx <= n
    requires Fired(duty, run[..i], threshold) == Some(Group(Stored(run[..i]), RootOf, root)) && Accepted(run)
    ensures Fired(duty, run, threshold)
            == if |Group(Stored(run), RootOf, root)| == threshold then Fired(duty, run[..i], threshold) else None
  {
    FiredSize(duty, run[..i], threshold);
    StoredGrows(run, i);
    StoredShares(run, n);
    LaterGroup(duty, Stored(run[..i]), Stored(run), root, threshold, n);
  }

  lemma {:induction false} StoredRoots(run: seq<PartialSignature>, root: Bytes)
    requires forall s <- run :: s.messageRoot == root
    ensures forall s <- Stored(run) :: s.messageRoot == root
    decreases |run|
  {
    if run != [] {
      StoredRoots(run[..|run| - 1], root);
    }
  }

  lemma {:induction false} WholeGroup(sigs: seq<PartialSignature>, root: Bytes)
    requires forall s <- sigs :: s.messageRoot == root
    ensures Group(sigs, RootOf, root) == sigs
    decreases |sigs|
  {
    if sigs != [] {
      var init, last := sigs[..|sigs| - 1], sigs[|sigs| - 1];
      assert sigs == init + [last];
      WholeGroup(init, root);
    }
  }

  /** When all signatures are over one root the trigger fires once: on the threshold-th accepted. */
  lemma OneRootFiresOnce(duty: int, run: seq<PartialSignature>, root: Bytes, threshold: int)
    requires forall s <- run :: s.messageRoot == root
    ensures Fired(duty, run, threshold).Some? <==> Accepted(run) && |Stored(run)| == threshold
  {
    var sigs := Stored(run);
    StoredRoots(run, root);
    SelectedMeans(duty, sigs, threshold);
    WholeGroup(sigs, root);
    if Accepted(run) && |sigs| == threshold && duty != SIGNATURE {
      assert sigs[0] in sigs;
    }
  }
}
