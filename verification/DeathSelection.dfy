/** Choosing which death windows to report: the first of every round, then the best of equal
    stretches of the match when there are more than the budget allows. */
module DeathSelection {
  import opened Division
  import opened Finite
  import opened Sorting
  import opened WindowOrder
  import opened Windows

  // ----- Order of peaks

  function PeakAt(windows: seq<Window>, i: int): real {
    if 0 <= i < |windows| then windows[i].peak else 0.0
  }

  /** `i` comes before `j` in a stable sort by peak. */
  predicate PeaksFirst(windows: seq<Window>, i: int, j: int) {
    PeakAt(windows, i) < PeakAt(windows, j) || (PeakAt(windows, i) == PeakAt(windows, j) && i < j)
  }

  function Positions(n: nat): (positions: seq<int>)
    ensures |positions| == n && forall i :: 0 <= i < n ==> positions[i] == i
  {
    seq(n, i => i)
  }

  /** `order` lists all positions, by peak and then by position. */
  ghost predicate PeakOrder(windows: seq<Window>, order: seq<int>) {
    && multiset(order) == multiset(Positions(|windows|))
    && forall i, j :: 0 <= i < j < |order| ==> !PeaksFirst(windows, order[j], order[i])
  }

  function Reordered(windows: seq<Window>, order: seq<int>): (reordered: seq<Window>)
    requires forall i :: 0 <= i < |order| ==> 0 <= order[i] < |windows|
    ensures |reordered| == |order|
    ensures forall i :: 0 <= i < |order| ==> reordered[i] == windows[order[i]]
  {
    seq(|order|, i requires 0 <= i < |order| => windows[order[i]])
  }

  lemma PositionsOnly(windows: seq<Window>, order: seq<int>)
    requires multiset(order) == multiset(Positions(|windows|))
    ensures |order| == |windows|
    ensures forall i :: 0 <= i < |order| ==> 0 <= order[i] < |windows|
    ensures forall i, j :: 0 <= i < j < |order| ==> order[i] != order[j]
  {
    SortedMembers(order, Positions(|windows|));
    DistinctPermutation(Positions(|windows|), order);
    forall i | 0 <= i < |order| ensures 0 <= order[i] < |windows| {
      assert order[i] in Positions(|windows|);
    }
  }

  /** `chronological` is `windows` sorted stably by peak. */
  ghost predicate ByPeak(chronological: seq<Window>, windows: seq<Window>) {
    exists order :: PeakOrder(windows, order) && Permutes(windows, order, chronological)
  }

  ghost predicate Permutes(windows: seq<Window>, order: seq<int>, chronological: seq<Window>) {
    && |order| == |windows| == |chronological|
    && (forall i :: 0 <= i < |order| ==> 0 <= order[i] < |windows| && chronological[i] == windows[order[i]])
    && (forall i, j :: 0 <= i < j < |order| ==> order[i] != order[j])
  }

  method SortByPeak(windows: seq<Window>) returns (chronological: seq<Window>)
    ensures ByPeak(chronological, windows)
  {
    var less := (i, j) => PeaksFirst(windows, i, j);
    PeaksFirstIsWeakOrder(windows, less);
    var positions: seq<int> := Positions(|windows|);
    var order := SortBy(positions, less);
    assert PeakOrder(windows, order);
    PositionsOnly(windows, order);
    chronological := Reordered(windows, order);
    assert Permutes(windows, order, chronological);
  }

  lemma PeaksFirstIsWeakOrder(windows: seq<Window>, less: (int, int) -> bool)
    requires forall i, j :: less(i, j) == PeaksFirst(windows, i, j)
    ensures WeakOrder(less)
  {
  }

  lemma ByPeakIsOrdered(chronological: seq<Window>, windows: seq<Window>)
    requires ByPeak(chronological, windows)
    ensures |chronological| == |windows|
    ensures forall i, j :: 0 <= i <= j < |chronological| ==> chronological[i].peak <= chronological[j].peak
  {
    var order :| PeakOrder(windows, order) && Permutes(windows, order, chronological);
    forall i, j | 0 <= i <= j < |chronological| ensures chronological[i].peak <= chronological[j].peak {
      assert i < j ==> !PeaksFirst(windows, order[j], order[i]);
    }
  }

  /** Windows that peak together keep their order. */
  lemma ByPeakIsStable(chronological: seq<Window>, windows: seq<Window>) returns (order: seq<int>)
    requires ByPeak(chronological, windows)
    ensures Permutes(windows, order, chronological)
    ensures forall i, j :: 0 <= i < j < |order| && chronological[i].peak == chronological[j].peak ==> order[i] < order[j]
  {
    order :| PeakOrder(windows, order) && Permutes(windows, order, chronological);
    forall i, j | 0 <= i < j < |order| && chronological[i].peak == chronological[j].peak ensures order[i] < order[j] {
      assert !PeaksFirst(windows, order[j], order[i]) && order[i] != order[j];
    }
  }

  lemma ByPeakMembers(chronological: seq<Window>, windows: seq<Window>)
    requires ByPeak(chronological, windows)
    ensures multiset(chronological) == multiset(windows)
  {
    var order :| PeakOrder(windows, order) && Permutes(windows, order, chronological);
    if windows != [] {
      var f := i => if 0 <= i < |windows| then windows[i] else windows[0];
      MapSubmultiset(f, order, Positions(|windows|));
      MapSubmultiset(f, Positions(|windows|), order);
      assert MapSeq(f, order) == chronological;
      assert MapSeq(f, Positions(|windows|)) == windows;
    }
  }

  // ----- The first window of every round

  /** A window before position `n` has the round. */
  predicate RoundSeen(windows: seq<Window>, n: nat, round: int)
    requires n <= |windows|
  {
    exists i :: 0 <= i < n && windows[i].round == round
  }

  /** Windows without a round, and the first window of every round. */
  function FirstOfRounds(windows: seq<Window>, n: nat): seq<Window>
    requires n <= |windows|
  {
    if n == 0 then []
    else
      var earlier, w := FirstOfRounds(windows, n - 1), windows[n - 1];
      if w.round > 0 && RoundSeen(windows, n - 1, w.round) then earlier else earlier + [w]
  }

  method KeepFirstOfRounds(windows: seq<Window>) returns (selected: seq<Window>)
    ensures selected == FirstOfRounds(windows, |windows|)
  {
    selected := [];
    var roundIndexes: map<int, nat> := map[];
    for n := 0 to |windows|
      invariant selected == FirstOfRounds(windows, n)
      invariant forall round :: round in roundIndexes <==> round > 0 && RoundSeen(windows, n, round)
    {
      var w := windows[n];
      NextRoundSeen(windows, n);
      hide RoundSeen;
      if w.round <= 0 {
        selected := selected + [w];
        continue;
      }
      if w.round in roundIndexes {
        continue;
      }
      roundIndexes := roundIndexes[w.round := |selected|];
      selected := selected + [w];
    }
  }

  lemma NextRoundSeen(windows: seq<Window>, n: nat)
    requires n < |windows|
    ensures forall round :: RoundSeen(windows, n + 1, round) <==> RoundSeen(windows, n, round) || windows[n].round == round
  {
    assert RoundSeen(windows, n + 1, windows[n].round);
  }

  /** Every window stands for itself or for an earlier window of its round that was kept. */
  lemma {:induction false} RoundsAreRepresented(windows: seq<Window>, n: nat, i: nat) returns (k: nat)
    requires i < n <= |windows|
    requires forall a, b :: 0 <= a <= b < |windows| ==> windows[a].peak <= windows[b].peak
    ensures k < |FirstOfRounds(windows, n)|
    ensures var kept := FirstOfRounds(windows, n)[k];
            kept.peak <= windows[i].peak && kept.round == windows[i].round && (windows[i].round <= 0 ==> kept == windows[i])
  {
    if i < n - 1 {
      k := RoundsAreRepresented(windows, n - 1, i);
    } else if windows[i].round > 0 && RoundSeen(windows, n - 1, windows[i].round) {
      var j :| 0 <= j < n - 1 && windows[j].round == windows[i].round;
      k := RoundsAreRepresented(windows, n - 1, j);
    } else {
      k := |FirstOfRounds(windows, n)| - 1;
    }
  }

  /** What was kept comes from the list, in its order, with no round twice. */
  lemma {:induction false} KeptComeFrom(windows: seq<Window>, n: nat, i: nat) returns (p: nat)
    requires n <= |windows| && i < |FirstOfRounds(windows, n)|
    ensures p < n && FirstOfRounds(windows, n)[i] == windows[p]
    ensures windows[p].round > 0 ==> !RoundSeen(windows, p, windows[p].round)
    ensures FirstOfRounds(windows, p) == FirstOfRounds(windows, n)[..i]
  {
    if i < |FirstOfRounds(windows, n - 1)| {
      p := KeptComeFrom(windows, n - 1, i);
    } else {
      p := n - 1;
    }
  }

  lemma OnePerRound(windows: seq<Window>, i: nat, j: nat)
    requires i < j < |FirstOfRounds(windows, |windows|)|
    ensures var kept := FirstOfRounds(windows, |windows|);
            kept[i].round > 0 ==> kept[i].round != kept[j].round
  {
    var q := KeptComeFrom(windows, |windows|, j);
    var p := KeptComeFrom(windows, q, i);
  }

  /** A relation between any two windows still holds between any two kept ones. */
  lemma KeptPairwise(windows: seq<Window>, rel: (Window, Window) -> bool)
    requires Pairwise(windows, rel)
    ensures Pairwise(FirstOfRounds(windows, |windows|), rel)
  {
    var kept := FirstOfRounds(windows, |windows|);
    forall i, j | 0 <= i < j < |kept| ensures rel(kept[i], kept[j]) {
      var q := KeptComeFrom(windows, |windows|, j);
      var p := KeptComeFrom(windows, q, i);
    }
    forall i | 0 <= i < |kept| ensures !rel(kept[i], kept[i]) {
      var p := KeptComeFrom(windows, |windows|, i);
    }
  }

  // ----- How many windows are kept

  predicate WithoutRound(w: Window) {
    w.round <= 0
  }

  function RoundsOf(windows: seq<Window>): set<int> {
    set w | w in windows && w.round > 0 :: w.round
  }

  /** The windows without a round and one for every round. */
  function SurvivorCount(windows: seq<Window>): nat {
    CountIf(windows, WithoutRound) + |RoundsOf(windows)|
  }

  lemma RoundsGrow(earlier: seq<Window>, w: Window)
    ensures RoundsOf(earlier + [w]) == RoundsOf(earlier) + (if w.round > 0 then {w.round} else {})
    ensures CountIf(earlier + [w], WithoutRound) == CountIf(earlier, WithoutRound) + (if w.round > 0 then 0 else 1)
  {
    CountIfAppend(earlier, [w], WithoutRound);
    assert [w][1..] == [];
  }

  lemma SeenIsMember(windows: seq<Window>, n: nat, round: int)
    requires n <= |windows| && round > 0
    ensures RoundSeen(windows, n, round) <==> round in RoundsOf(windows[..n])
  {
    if RoundSeen(windows, n, round) {
      var i :| 0 <= i < n && windows[i].round == round;
      assert windows[i] in windows[..n];
    }
  }

  lemma NextSurvivor(windows: seq<Window>, n: nat)
    requires n < |windows|
    ensures SurvivorCount(windows[..n + 1]) == SurvivorCount(windows[..n]) +
            (if windows[n].round > 0 && RoundSeen(windows, n, windows[n].round) then 0 else 1)
  {
    assert windows[..n + 1] == windows[..n] + [windows[n]];
    RoundsGrow(windows[..n], windows[n]);
    SizeWith(RoundsOf(windows[..n]), windows[n].round);
    hide RoundsOf;
    hide CountIf;
    if windows[n].round > 0 {
      SeenIsMember(windows, n, windows[n].round);
    }
  }

  lemma {:induction false} KeptCount(windows: seq<Window>, n: nat)
    requires n <= |windows|
    ensures |FirstOfRounds(windows, n)| == SurvivorCount(windows[..n])
  {
    if n == 0 {
      assert RoundsOf(windows[..0]) == {};
    } else {
      KeptCount(windows, n - 1);
      NextSurvivor(windows, n - 1);
    }
  }

  lemma SurvivorsPermuted(a: seq<Window>, b: seq<Window>)
    requires multiset(a) == multiset(b)
    ensures SurvivorCount(a) == SurvivorCount(b)
  {
    CountIfPermuted(a, b, WithoutRound);
    SortedMembers(a, b);
    assert RoundsOf(a) == RoundsOf(b);
  }

  // ----- Buckets

  function BucketStart(bucket: nat, n: nat, limit: nat): nat
    requires limit > 0
  {
    bucket * n / limit
  }

  /** The buckets are not empty, follow one another and cover all `n` positions. */
  lemma BucketsTile(bucket: nat, n: nat, limit: nat)
    requires bucket < limit <= n
    ensures BucketStart(0, n, limit) == 0 && BucketStart(limit, n, limit) == n
    ensures BucketStart(bucket, n, limit) < BucketStart(bucket + 1, n, limit) <= n
  {
    assert (bucket + 1) * n == bucket * n + n;
    QuotientGrows(bucket * n, n, limit);
    assert (bucket + 1) * n <= limit * n by {
      ProductGrows(bucket + 1, limit, n);
    }
    QuotientsOrdered((bucket + 1) * n, limit * n, limit);
    assert limit * n == n * limit;
    WholeQuotient(n, limit);
  }

  /** The buckets are equal stretches, up to one position. */
  lemma BucketsAreEven(bucket: nat, n: nat, limit: nat)
    requires limit > 0
    ensures limit * BucketStart(bucket, n, limit) <= bucket * n < limit * (BucketStart(bucket, n, limit) + 1)
    ensures n / limit <= BucketStart(bucket + 1, n, limit) - BucketStart(bucket, n, limit) <= n / limit + 1
  {
    assert (bucket + 1) * n == bucket * n + n;
    QuotientFits(bucket * n, limit);
    QuotientOfSum(bucket * n, n, limit);
  }

  /** Every position lies in one bucket. */
  lemma {:induction false} BucketOf(i: nat, n: nat, limit: nat, last: nat) returns (bucket: nat)
    requires 0 < last <= limit <= n && i < BucketStart(last, n, limit)
    ensures bucket < last && BucketStart(bucket, n, limit) <= i < BucketStart(bucket + 1, n, limit)
  {
    bucket := last - 1;
    if i < BucketStart(bucket, n, limit) {
      BucketsTile(bucket, n, limit);
      hide BucketStart;
      bucket := BucketOf(i, n, limit, bucket);
    }
  }

  /** The best score in `low..high`, the earliest on ties. */
  function BestIn(windows: seq<Window>, low: nat, high: nat): (best: nat)
    requires low < high <= |windows|
    ensures low <= best < high
    ensures forall i :: low <= i < high ==> windows[i].score <= windows[best].score
    ensures forall i :: low <= i < best ==> windows[i].score < windows[best].score
    decreases high
  {
    if low + 1 == high then low
    else
      var best := BestIn(windows, low, high - 1);
      if windows[high - 1].score > windows[best].score then high - 1 else best
  }

  function Bucketed(windows: seq<Window>, limit: nat, n: nat): (spread: seq<Window>)
    requires n <= limit <= |windows| && limit > 0
    ensures |spread| == n
  {
    if n == 0 then []
    else
      BucketsTile(n - 1, |windows|, limit);
      Bucketed(windows, limit, n - 1) +
      [windows[BestIn(windows, BucketStart(n - 1, |windows|, limit), BucketStart(n, |windows|, limit))]]
  }

  method BestOf(windows: seq<Window>, start: nat, end: nat) returns (best: Window)
    requires start < end <= |windows|
    ensures best == windows[BestIn(windows, start, end)]
  {
    best := windows[start];
    for index := start + 1 to end
      invariant best == windows[BestIn(windows, start, index)]
    {
      if windows[index].score > best.score {
        best := windows[index];
      }
    }
  }

  method SpreadOut(windows: seq<Window>, limit: nat) returns (spread: seq<Window>)
    requires 0 < limit <= |windows|
    ensures spread == Bucketed(windows, limit, limit)
  {
    spread := [];
    for bucket := 0 to limit
      invariant spread == Bucketed(windows, limit, bucket)
    {
      BucketsTile(bucket, |windows|, limit);
      var start := BucketStart(bucket, |windows|, limit);
      var end := BucketStart(bucket + 1, |windows|, limit);
      hide BucketStart;
      var best := BestOf(windows, start, end);
      hide BestIn;
      spread := spread + [best];
    }
  }

  lemma NextBucket(windows: seq<Window>, limit: nat, n: nat)
    requires 0 < n <= limit <= |windows|
    ensures BucketStart(n - 1, |windows|, limit) < BucketStart(n, |windows|, limit) <= |windows|
    ensures Bucketed(windows, limit, n) ==
            Bucketed(windows, limit, n - 1) +
            [windows[BestIn(windows, BucketStart(n - 1, |windows|, limit), BucketStart(n, |windows|, limit))]]
  {
    BucketsTile(n - 1, |windows|, limit);
  }

  /** Window `b` of the spread is the best of bucket `b`. */
  lemma {:induction false} BucketedPicks(windows: seq<Window>, limit: nat, n: nat, b: nat) returns (p: nat)
    requires b < n <= limit <= |windows|
    ensures BucketStart(b, |windows|, limit) <= p < BucketStart(b + 1, |windows|, limit) <= |windows|
    ensures p < |windows| && Bucketed(windows, limit, n)[b] == windows[p]
    ensures forall i :: BucketStart(b, |windows|, limit) <= i < BucketStart(b + 1, |windows|, limit) ==>
              i < |windows| && windows[i].score <= windows[p].score && (i < p ==> windows[i].score < windows[p].score)
  {
    hide BucketStart;
    hide Bucketed;
    BucketsTile(n - 1, |windows|, limit);
    NextBucket(windows, limit, n);
    if b < n - 1 {
      p := BucketedPicks(windows, limit, n - 1, b);
    } else {
      p := BestIn(windows, BucketStart(b, |windows|, limit), BucketStart(b + 1, |windows|, limit));
    }
  }

  lemma {:induction false} BucketsAscend(a: nat, b: nat, n: nat, limit: nat)
    requires a <= b <= limit <= n && limit > 0
    ensures BucketStart(a, n, limit) <= BucketStart(b, n, limit)
  {
    if a < b {
      BucketsAscend(a, b - 1, n, limit);
      BucketsTile(b - 1, n, limit);
    }
  }

  lemma BucketedPairwise(windows: seq<Window>, limit: nat, rel: (Window, Window) -> bool)
    requires 0 < limit <= |windows| && Pairwise(windows, rel)
    ensures Pairwise(Bucketed(windows, limit, limit), rel)
  {
    var spread := Bucketed(windows, limit, limit);
    forall i, j | 0 <= i < j < |spread| ensures rel(spread[i], spread[j]) {
      var p := BucketedPicks(windows, limit, limit, i);
      var q := BucketedPicks(windows, limit, limit, j);
      BucketsAscend(i + 1, j, |windows|, limit);
    }
    forall i | 0 <= i < |spread| ensures !rel(spread[i], spread[i]) {
      var p := BucketedPicks(windows, limit, limit, i);
    }
  }

  // ----- The selection

  function Limited(kept: seq<Window>, limit: nat): seq<Window>
    requires limit > 0
  {
    if |kept| <= limit then kept else Bucketed(kept, limit, limit)
  }

  ghost predicate SelectedFrom(selected: seq<Window>, windows: seq<Window>, limit: int) {
    if windows == [] || limit <= 0 then selected == []
    else exists chronological :: Selects(selected, chronological, windows, limit)
  }

  ghost predicate Selects(selected: seq<Window>, chronological: seq<Window>, windows: seq<Window>, limit: int)
    requires limit > 0
  {
    && ByPeak(chronological, windows)
    && Arranged(selected, Limited(FirstOfRounds(chronological, |chronological|), limit))
  }

  method SelectDeathWindowsByRound(windows: seq<Window>, limit: int) returns (selected: seq<Window>)
    ensures SelectedFrom(selected, windows, limit)
  {
    if windows == [] || limit <= 0 {
      return [];
    }
    var chronological := SortByPeak(windows);
    var kept := KeepFirstOfRounds(chronological);
    hide ByPeak;
    hide FirstOfRounds;
    hide Bucketed;
    hide Arranged;
    if |kept| > limit {
      kept := SpreadOut(kept, limit);
    }
    selected := ArrangeAll(kept);
    assert Selects(selected, chronological, windows, limit);
  }

  /** The selection returns as many windows as the limit allows, or one for every round and
      every window without a round if they are fewer. */
  lemma SelectionSize(selected: seq<Window>, windows: seq<Window>, limit: int)
    requires SelectedFrom(selected, windows, limit)
    ensures limit <= 0 ==> |selected| == 0
    ensures limit > 0 ==> |selected| == if SurvivorCount(windows) <= limit then SurvivorCount(windows) else limit
  {
    if windows != [] && limit > 0 {
      var chronological :| Selects(selected, chronological, windows, limit);
      ByPeakMembers(chronological, windows);
      SurvivorsPermuted(chronological, windows);
      KeptCount(chronological, |chronological|);
      assert chronological[..|chronological|] == chronological;
      ArrangedWindows(selected, Limited(FirstOfRounds(chronological, |chronological|), limit));
    } else {
      assert windows == [] ==> RoundsOf(windows) == {};
    }
  }

  /** A relation that holds between any two candidates and ignores IDs holds between any two
      selected windows. */
  lemma SelectionPairwise(selected: seq<Window>, windows: seq<Window>, limit: int, rel: (Window, Window) -> bool)
    requires SelectedFrom(selected, windows, limit) && Pairwise(windows, rel) && IgnoresIds(rel)
    ensures Pairwise(selected, rel)
  {
    if windows != [] && limit > 0 {
      var chronological :| Selects(selected, chronological, windows, limit);
      ByPeakMembers(chronological, windows);
      PermutedPairwise(chronological, windows, rel);
      KeptPairwise(chronological, rel);
      var kept := FirstOfRounds(chronological, |chronological|);
      if |kept| > limit {
        BucketedPairwise(kept, limit, rel);
      }
      ArrangedPairwise(selected, Limited(kept, limit), rel);
    }
  }

  // ----- What is selected, and from where

  /** The first window of every round and all without a round, in order of their peaks. */
  ghost predicate FirstsOf(kept: seq<Window>, windows: seq<Window>) {
    && (forall p, q :: 0 <= p < q < |kept| ==>
          kept[p].peak <= kept[q].peak && (kept[p].round > 0 ==> kept[p].round != kept[q].round))
    && (forall p :: 0 <= p < |kept| ==> kept[p] in windows && EarliestOfRound(windows, kept[p]))
    && (forall w :: w in windows ==> Represented(kept, w))
  }

  ghost predicate Represented(kept: seq<Window>, w: Window) {
    exists p :: 0 <= p < |kept| && kept[p].round == w.round && kept[p].peak <= w.peak && (w.round <= 0 ==> kept[p] == w)
  }

  ghost predicate Found(selected: seq<Window>, w: Window) {
    exists i :: 0 <= i < |selected| && SameButId(selected[i], w)
  }

  /** Position `p` lies in stretch `b` of `limit` equal stretches of `n` positions. */
  predicate InStretch(p: int, b: nat, n: nat, limit: nat)
    requires limit > 0
  {
    b * n / limit <= p < (b + 1) * n / limit
  }

  /** A window of stretch `b` is selected, the best of the stretch and the earliest of the best. */
  ghost predicate PicksBest(selected: seq<Window>, kept: seq<Window>, b: nat, limit: nat)
    requires limit > 0
  {
    exists p :: 0 <= p < |kept| && InStretch(p, b, |kept|, limit) && Found(selected, kept[p]) && BestOfStretch(kept, p, b, limit)
  }

  ghost predicate BestOfStretch(kept: seq<Window>, p: nat, b: nat, limit: nat)
    requires limit > 0 && p < |kept|
  {
    forall q :: 0 <= q < |kept| && InStretch(q, b, |kept|, limit) ==>
      kept[q].score <= kept[p].score && (q < p ==> kept[q].score < kept[p].score)
  }

  lemma KeptInOrder(chronological: seq<Window>, p: nat, q: nat)
    requires p < q < |FirstOfRounds(chronological, |chronological|)|
    requires forall i, j :: 0 <= i <= j < |chronological| ==> chronological[i].peak <= chronological[j].peak
    ensures var kept := FirstOfRounds(chronological, |chronological|);
            kept[p].peak <= kept[q].peak && (kept[p].round > 0 ==> kept[p].round != kept[q].round)
  {
    OnePerRound(chronological, p, q);
    var j := KeptComeFrom(chronological, |chronological|, q);
    var i := KeptComeFrom(chronological, j, p);
  }

  lemma KeptIsMember(chronological: seq<Window>, p: nat)
    requires p < |FirstOfRounds(chronological, |chronological|)|
    ensures FirstOfRounds(chronological, |chronological|)[p] in chronological
  {
    var i := KeptComeFrom(chronological, |chronological|, p);
  }

  lemma MemberIsRepresented(chronological: seq<Window>, w: Window)
    requires w in chronological
    requires forall i, j :: 0 <= i <= j < |chronological| ==> chronological[i].peak <= chronological[j].peak
    ensures Represented(FirstOfRounds(chronological, |chronological|), w)
  {
    hide FirstOfRounds;
    var i :| 0 <= i < |chronological| && chronological[i] == w;
    var p := RoundsAreRepresented(chronological, |chronological|, i);
  }

  lemma KeptAreFirsts(chronological: seq<Window>, windows: seq<Window>)
    requires ByPeak(chronological, windows)
    ensures FirstsOf(FirstOfRounds(chronological, |chronological|), windows)
  {
    hide ByPeak;
    hide FirstOfRounds;
    hide EarliestOfRound;
    hide Represented;
    var kept := FirstOfRounds(chronological, |chronological|);
    ByPeakIsOrdered(chronological, windows);
    ByPeakMembers(chronological, windows);
    SortedMembers(chronological, windows);
    forall p, q | 0 <= p < q < |kept|
      ensures kept[p].peak <= kept[q].peak && (kept[p].round > 0 ==> kept[p].round != kept[q].round)
    {
      KeptInOrder(chronological, p, q);
    }
    forall p | 0 <= p < |kept| ensures kept[p] in windows && EarliestOfRound(windows, kept[p]) {
      KeptIsEarliest(chronological, windows, p);
      KeptIsMember(chronological, p);
    }
    forall w | w in windows ensures Represented(kept, w) {
      MemberIsRepresented(chronological, w);
    }
  }

  lemma SpreadPicksBest(selected: seq<Window>, kept: seq<Window>, limit: nat, b: nat)
    requires 0 < limit < |kept| && b < limit && Arranged(selected, Bucketed(kept, limit, limit))
    ensures PicksBest(selected, kept, b, limit)
  {
    hide Arranged;
    hide Bucketed;
    var p := BucketedPicks(kept, limit, limit, b);
    var j := ArrangedFinds(selected, Bucketed(kept, limit, limit), b);
    assert Found(selected, kept[p]);
    assert InStretch(p, b, |kept|, limit) && BestOfStretch(kept, p, b, limit);
  }

  /** What the selection is: of the first windows of all rounds in order of peaks, all if they are
      within the limit, and else the best of each of `limit` equal stretches. */
  lemma SelectionIsSpread(selected: seq<Window>, windows: seq<Window>, limit: int) returns (kept: seq<Window>)
    requires SelectedFrom(selected, windows, limit) && windows != [] && limit > 0
    ensures FirstsOf(kept, windows) && |kept| == SurvivorCount(windows)
    ensures |kept| <= limit ==> |selected| == |kept| && forall p :: 0 <= p < |kept| ==> Found(selected, kept[p])
    ensures |kept| > limit ==> |selected| == limit && forall b :: 0 <= b < limit ==> PicksBest(selected, kept, b, limit)
  {
    SelectionSize(selected, windows, limit);
    var chronological :| Selects(selected, chronological, windows, limit);
    kept := FirstOfRounds(chronological, |chronological|);
    ByPeakMembers(chronological, windows);
    SurvivorsPermuted(chronological, windows);
    KeptCount(chronological, |chronological|);
    assert chronological[..|chronological|] == chronological;
    KeptAreFirsts(chronological, windows);
    hide *;
    SelectionOf(selected, windows, limit, chronological, kept);
  }

  lemma SelectionOf(selected: seq<Window>, windows: seq<Window>, limit: nat, chronological: seq<Window>, kept: seq<Window>)
    requires limit > 0 && Selects(selected, chronological, windows, limit) && kept == FirstOfRounds(chronological, |chronological|)
    ensures |kept| <= limit ==> forall p :: 0 <= p < |kept| ==> Found(selected, kept[p])
    ensures |kept| > limit ==> forall b :: 0 <= b < limit ==> PicksBest(selected, kept, b, limit)
  {
    hide ByPeak;
    hide FirstOfRounds;
    hide Bucketed;
    hide Arranged;
    hide PicksBest;
    if |kept| <= limit {
      forall p | 0 <= p < |kept| ensures Found(selected, kept[p]) {
        var j := ArrangedFinds(selected, kept, p);
      }
    } else {
      forall b | 0 <= b < limit ensures PicksBest(selected, kept, b, limit) {
        SpreadPicksBest(selected, kept, limit, b);
      }
    }
  }

  function HasRound(round: int): Window -> bool {
    (w: Window) => w.round == round
  }

  /** No candidate of the window's round peaks earlier. */
  ghost predicate EarliestOfRound(windows: seq<Window>, w: Window) {
    w.round > 0 ==> forall v :: v in windows && v.round == w.round ==> w.peak <= v.peak
  }

  lemma KeptIsEarliest(chronological: seq<Window>, windows: seq<Window>, k: nat)
    requires ByPeak(chronological, windows) && k < |FirstOfRounds(chronological, |chronological|)|
    ensures EarliestOfRound(windows, FirstOfRounds(chronological, |chronological|)[k])
  {
    ByPeakIsOrdered(chronological, windows);
    ByPeakMembers(chronological, windows);
    SortedMembers(chronological, windows);
    var kept := FirstOfRounds(chronological, |chronological|);
    forall v | v in windows && v.round == kept[k].round && v.round > 0 ensures kept[k].peak <= v.peak {
      assert v in chronological;
      var i :| 0 <= i < |chronological| && chronological[i] == v;
      var j := RoundsAreRepresented(chronological, |chronological|, i);
      if j != k {
        OnePerRound(chronological, if j < k then j else k, if j < k then k else j);
      }
    }
  }

  lemma LimitedComesFrom(kept: seq<Window>, limit: nat, i: nat) returns (p: nat)
    requires limit > 0 && i < |Limited(kept, limit)|
    ensures p < |kept| && Limited(kept, limit)[i] == kept[p]
  {
    if |kept| <= limit {
      p := i;
    } else {
      p := BucketedPicks(kept, limit, limit, i);
    }
  }

  lemma LimitedAscends(kept: seq<Window>, limit: nat, i: nat, j: nat) returns (p: nat, q: nat)
    requires limit > 0 && i < j < |Limited(kept, limit)|
    ensures p < q < |kept| && Limited(kept, limit)[i] == kept[p] && Limited(kept, limit)[j] == kept[q]
  {
    if |kept| <= limit {
      p, q := i, j;
    } else {
      p := BucketedPicks(kept, limit, limit, i);
      q := BucketedPicks(kept, limit, limit, j);
      BucketsAscend(i + 1, j, |kept|, limit);
    }
  }

  /** At most one window is selected for a round, and it is the earliest candidate of the round. */
  lemma SelectionPerRound(selected: seq<Window>, windows: seq<Window>, limit: int, round: int)
    requires SelectedFrom(selected, windows, limit) && round > 0
    ensures CountIf(selected, HasRound(round)) <= 1
    ensures forall w :: w in selected ==> EarliestOfRound(windows, w)
  {
    if windows != [] && limit > 0 {
      var chronological :| Selects(selected, chronological, windows, limit);
      var kept := FirstOfRounds(chronological, |chronological|);
      var chosen := Limited(kept, limit);
      forall i, j | 0 <= i < j < |chosen| ensures !(HasRound(round)(chosen[i]) && HasRound(round)(chosen[j])) {
        var p, q := LimitedAscends(kept, limit, i, j);
        OnePerRound(chronological, p, q);
      }
      CountIfAtMostOne(chosen, HasRound(round));
      ArrangedMembers(selected, chosen, HasRound(round));
      var earliest := w => EarliestOfRound(windows, w);
      forall i | 0 <= i < |chosen| ensures earliest(chosen[i]) {
        var p := LimitedComesFrom(kept, limit, i);
        KeptIsEarliest(chronological, windows, p);
      }
      forall a, b | SameButId(a, b) ensures earliest(a) == earliest(b) {
        assert a.round == b.round && a.peak == b.peak;
      }
      ArrangedMembers(selected, chosen, earliest);
    }
  }

  /** A property of every candidate that ignores IDs is one of every selected window. */
  lemma SelectionMembers(selected: seq<Window>, windows: seq<Window>, limit: int, p: Window -> bool)
    requires SelectedFrom(selected, windows, limit)
    requires forall a, b :: SameButId(a, b) ==> p(a) == p(b)
    requires forall i :: 0 <= i < |windows| ==> p(windows[i])
    ensures forall i :: 0 <= i < |selected| ==> p(selected[i])
  {
    if windows != [] && limit > 0 {
      var chronological :| Selects(selected, chronological, windows, limit);
      ByPeakMembers(chronological, windows);
      SortedMembers(chronological, windows);
      var kept := FirstOfRounds(chronological, |chronological|);
      var chosen := Limited(kept, limit);
      forall i | 0 <= i < |chosen| ensures p(chosen[i]) {
        var k := LimitedComesFrom(kept, limit, i);
        var c := KeptComeFrom(chronological, |chronological|, k);
        assert chronological[c] in windows;
      }
      ArrangedMembers(selected, chosen, p);
    }
  }
}
