/** Dividing a match into round segments: buy-phase anchors, the cadence fallback, and the
    segments cut from a list of boundaries. */
module RoundTimeline {
  import opened Observations
  import opened Rounding

  // ----- Buy-phase anchors

  const TRUSTED_LAYOUT := 0.24
  const CLUSTER_GAP := 12.0

  predicate IsBuy(o: Observation) {
    o.buyPhase >= TRUSTED_BUY_PHASE && o.hudLayout >= TRUSTED_LAYOUT
  }

  /** Frame `i` continues the buy cluster of the frame before it. */
  predicate Continues(frames: seq<Observation>, i: int)
    requires 0 <= i < |frames|
  {
    i > 0 && IsBuy(frames[i - 1]) && IsBuy(frames[i]) && frames[i].timestamp - frames[i - 1].timestamp <= CLUSTER_GAP
  }

  predicate StartsCluster(frames: seq<Observation>, i: int)
    requires 0 <= i < |frames|
  {
    IsBuy(frames[i]) && !Continues(frames, i)
  }

  function ClusterEnd(frames: seq<Observation>, i: int): (end: int)
    requires 0 <= i < |frames|
    ensures i <= end < |frames|
    decreases |frames| - i
  {
    if i + 1 < |frames| && Continues(frames, i + 1) then ClusterEnd(frames, i + 1) else i
  }

  function BestBuy(frames: seq<Observation>, i: int, end: int): (best: real)
    requires 0 <= i <= end < |frames|
    ensures forall k :: i <= k <= end ==> frames[k].buyPhase <= best
    ensures exists k :: i <= k <= end && frames[k].buyPhase == best
  {
    if i == end then frames[i].buyPhase
    else
      var best := BestBuy(frames, i, end - 1);
      if frames[end].buyPhase > best then frames[end].buyPhase else best
  }

  /** A cluster counts when it has two frames or one strong one. */
  predicate Qualifies(frames: seq<Observation>, i: int)
    requires 0 <= i < |frames|
  {
    var end := ClusterEnd(frames, i);
    end - i >= 1 || BestBuy(frames, i, end) >= 0.95
  }

  function AnchorAt(frames: seq<Observation>, i: int): Observation
    requires 0 <= i < |frames|
  {
    frames[i].(buyPhase := BestBuy(frames, i, ClusterEnd(frames, i)))
  }

  /** The anchors of the clusters that start before position `n`. */
  function Anchors(frames: seq<Observation>, n: nat): seq<Observation>
    requires n <= |frames|
  {
    if n == 0 then []
    else
      var earlier := Anchors(frames, n - 1);
      if StartsCluster(frames, n - 1) && Qualifies(frames, n - 1) then earlier + [AnchorAt(frames, n - 1)] else earlier
  }

  lemma {:induction false} NoStartInside(frames: seq<Observation>, i: nat, n: nat)
    requires i < n <= |frames| && forall k :: i < k < n ==> Continues(frames, k)
    ensures Anchors(frames, n) == Anchors(frames, i + 1)
  {
    if i + 1 < n {
      NoStartInside(frames, i, n - 1);
    }
  }

  lemma {:induction false} ClusterEndIs(frames: seq<Observation>, i: int, end: int)
    requires 0 <= i <= end < |frames| && forall k :: i < k <= end ==> Continues(frames, k)
    requires end + 1 == |frames| || !Continues(frames, end + 1)
    ensures ClusterEnd(frames, i) == end
    decreases end - i
  {
    if i < end {
      ClusterEndIs(frames, i + 1, end);
    }
  }

  /** Closes the cluster that ends at `clusterEnd`, if there is one. */
  method FlushCluster(frames: seq<Observation>, clusterStart: int, clusterEnd: int, anchors: seq<Observation>)
    returns (flushed: seq<Observation>)
    requires -1 <= clusterStart && -1 <= clusterEnd < |frames|
    requires clusterStart == -1 ==> anchors == Anchors(frames, clusterEnd + 1)
    requires clusterStart != -1 ==>
      && clusterStart <= clusterEnd && StartsCluster(frames, clusterStart)
      && anchors == Anchors(frames, clusterStart)
      && (forall k :: clusterStart < k <= clusterEnd ==> Continues(frames, k))
      && (clusterEnd + 1 == |frames| || !Continues(frames, clusterEnd + 1))
    ensures flushed == Anchors(frames, clusterEnd + 1)
  {
    hide Continues;
    if clusterStart == -1 || clusterEnd < clusterStart {
      return anchors;
    }
    var best := frames[clusterStart];
    for candidate := clusterStart + 1 to clusterEnd + 1
      invariant best.buyPhase == BestBuy(frames, clusterStart, candidate - 1)
    {
      if frames[candidate].buyPhase > best.buyPhase {
        best := frames[candidate];
      }
    }
    ClusterEndIs(frames, clusterStart, clusterEnd);
    NoStartInside(frames, clusterStart, clusterEnd + 1);
    flushed := anchors;
    if clusterEnd - clusterStart >= 1 || best.buyPhase >= 0.95 {
      var anchor := frames[clusterStart].(buyPhase := best.buyPhase);
      flushed := flushed + [anchor];
    }
  }

  method DetectBuyPhaseAnchors(frames: seq<Observation>) returns (anchors: seq<Observation>)
    ensures anchors == Anchors(frames, |frames|)
  {
    anchors := [];
    var clusterStart := -1;
    for index := 0 to |frames|
      invariant -1 <= clusterStart < index || index == 0
      invariant clusterStart == -1 ==> anchors == Anchors(frames, index) && (index == 0 || !IsBuy(frames[index - 1]))
      invariant clusterStart != -1 ==>
        && 0 <= clusterStart < index && StartsCluster(frames, clusterStart) && IsBuy(frames[index - 1])
        && anchors == Anchors(frames, clusterStart)
        && forall k :: clusterStart < k < index ==> Continues(frames, k)
    {
      if IsBuy(frames[index]) {
        if clusterStart != -1 && index > 0 && frames[index].timestamp - frames[index - 1].timestamp > CLUSTER_GAP {
          anchors := FlushCluster(frames, clusterStart, index - 1, anchors);
          clusterStart := -1;
        }
        if clusterStart == -1 {
          clusterStart := index;
        }
        continue;
      }
      anchors := FlushCluster(frames, clusterStart, index - 1, anchors);
      clusterStart := -1;
    }
    anchors := FlushCluster(frames, clusterStart, |frames| - 1, anchors);
  }

  /** Every anchor is a frame of the timeline. */
  lemma {:induction false} AnchorsAreFrames(frames: seq<Observation>, n: nat, k: nat) returns (i: nat)
    requires n <= |frames| && k < |Anchors(frames, n)|
    ensures i < n && Anchors(frames, n)[k].timestamp == frames[i].timestamp
  {
    hide StartsCluster;
    hide Qualifies;
    if k < |Anchors(frames, n - 1)| {
      i := AnchorsAreFrames(frames, n - 1, k);
    } else {
      i := n - 1;
    }
  }

  // ----- Which stretches of buy screens have an anchor

  predicate BuyUp(o: Observation) {
    o.buyPhase >= 0.90 && o.hudLayout >= 0.24
  }

  /** The buy screen is up from frame `i` to frame `j`, each frame at most twelve seconds after the one
      before it, and no longer run does the same. */
  ghost predicate BuyRun(frames: seq<Observation>, i: int, j: int) {
    && 0 <= i <= j < |frames|
    && (forall k :: i <= k <= j ==> BuyUp(frames[k]))
    && (forall k :: i < k <= j ==> frames[k].timestamp - frames[k - 1].timestamp <= 12.0)
    && (i > 0 && BuyUp(frames[i - 1]) ==> frames[i].timestamp - frames[i - 1].timestamp > 12.0)
    && (j + 1 < |frames| && BuyUp(frames[j + 1]) ==> frames[j + 1].timestamp - frames[j].timestamp > 12.0)
  }

  /** The run has two frames, or one that is certain. */
  ghost predicate Convincing(frames: seq<Observation>, i: int, j: int)
    requires 0 <= i <= j < |frames|
  {
    i < j || exists k :: i <= k <= j && frames[k].buyPhase >= 0.95
  }

  /** The anchor is the first frame of the run, as certain as its most certain frame. */
  ghost predicate AnchorOfRun(anchor: Observation, frames: seq<Observation>, i: int, j: int)
    requires 0 <= i <= j < |frames|
  {
    && anchor == frames[i].(buyPhase := anchor.buyPhase)
    && (forall k :: i <= k <= j ==> frames[k].buyPhase <= anchor.buyPhase)
    && exists k :: i <= k <= j && frames[k].buyPhase == anchor.buyPhase
  }

  lemma RunIsCluster(frames: seq<Observation>, i: int, j: int)
    requires BuyRun(frames, i, j)
    ensures StartsCluster(frames, i) && ClusterEnd(frames, i) == j && (Qualifies(frames, i) <==> Convincing(frames, i, j))
    ensures AnchorOfRun(AnchorAt(frames, i), frames, i, j)
  {
    assert BuyUp(frames[i]) && BuyUp(frames[j]);
    forall k | i < k <= j ensures Continues(frames, k) {
      assert BuyUp(frames[k]) && BuyUp(frames[k - 1]);
    }
    ClusterEndIs(frames, i, j);
  }

  lemma {:induction false} ClusterIsRun(frames: seq<Observation>, i: int, j: int)
    requires 0 <= i < |frames| && StartsCluster(frames, i) && j == ClusterEnd(frames, i)
    ensures BuyRun(frames, i, j)
  {
    ClusterContinues(frames, i);
    forall k | i < k <= j ensures BuyUp(frames[k]) && frames[k].timestamp - frames[k - 1].timestamp <= 12.0 {
      assert Continues(frames, k);
    }
  }

  lemma {:induction false} ClusterContinues(frames: seq<Observation>, i: int)
    requires 0 <= i < |frames|
    ensures forall k :: i < k <= ClusterEnd(frames, i) ==> Continues(frames, k)
    ensures var end := ClusterEnd(frames, i); end + 1 == |frames| || !Continues(frames, end + 1)
    decreases |frames| - i
  {
    if i + 1 < |frames| && Continues(frames, i + 1) {
      ClusterContinues(frames, i + 1);
    }
  }

  lemma {:induction false} StartHasAnchor(frames: seq<Observation>, n: nat, i: nat) returns (k: nat)
    requires i < n <= |frames| && StartsCluster(frames, i) && Qualifies(frames, i)
    ensures k < |Anchors(frames, n)| && Anchors(frames, n)[k] == AnchorAt(frames, i)
  {
    hide StartsCluster;
    hide Qualifies;
    hide AnchorAt;
    if i < n - 1 {
      k := StartHasAnchor(frames, n - 1, i);
    } else {
      k := |Anchors(frames, n - 1)|;
    }
  }

  /** Every convincing run of buy screens has its anchor. */
  lemma RunHasAnchor(frames: seq<Observation>, i: int, j: int) returns (k: nat)
    requires BuyRun(frames, i, j) && Convincing(frames, i, j)
    ensures k < |Anchors(frames, |frames|)| && AnchorOfRun(Anchors(frames, |frames|)[k], frames, i, j)
  {
    RunIsCluster(frames, i, j);
    k := StartHasAnchor(frames, |frames|, i);
  }

  lemma {:induction false} AnchorHasStart(frames: seq<Observation>, n: nat, k: nat) returns (i: nat)
    requires n <= |frames| && k < |Anchors(frames, n)|
    ensures i < n && StartsCluster(frames, i) && Qualifies(frames, i) && Anchors(frames, n)[k] == AnchorAt(frames, i)
  {
    hide StartsCluster;
    hide Qualifies;
    hide AnchorAt;
    if k < |Anchors(frames, n - 1)| {
      i := AnchorHasStart(frames, n - 1, k);
    } else {
      i := n - 1;
    }
  }

  /** Every anchor is the anchor of a convincing run of buy screens. */
  lemma AnchorHasRun(frames: seq<Observation>, k: nat) returns (i: int, j: int)
    requires k < |Anchors(frames, |frames|)|
    ensures BuyRun(frames, i, j) && Convincing(frames, i, j) && AnchorOfRun(Anchors(frames, |frames|)[k], frames, i, j)
  {
    i := AnchorHasStart(frames, |frames|, k);
    j := ClusterEnd(frames, i);
    ClusterIsRun(frames, i, j);
    RunIsCluster(frames, i, j);
  }

  // ----- Boundaries from anchors

  function LastOf(s: seq<real>): real
    requires s != []
  {
    s[|s| - 1]
  }

  predicate AcceptsAnchor(time: real, previous: real, first: real, last: real) {
    !(time - first <= 12.0 || time - previous < 35.0 || last - time < 20.0)
  }

  /** The first frame and the anchors far enough from it, from each other and from the end. */
  function AnchorBoundaries(anchors: seq<Observation>, n: nat, first: real, last: real): (boundaries: seq<real>)
    requires n <= |anchors|
    ensures boundaries != [] && boundaries[0] == first
  {
    if n == 0 then [first]
    else
      var earlier := AnchorBoundaries(anchors, n - 1, first, last);
      var time := anchors[n - 1].timestamp;
      if AcceptsAnchor(time, LastOf(earlier), first, last) then earlier + [time] else earlier
  }

  /** An anchor starts a round unless it comes less than 35 seconds after another round starts or
      less than 20 seconds before the end. */
  lemma {:induction false} AnchorStartsRound(anchors: seq<Observation>, n: nat, first: real, last: real, k: nat)
    requires k < n <= |anchors|
    ensures var b, time := AnchorBoundaries(anchors, n, first, last), anchors[k].timestamp;
            time in b || last - time < 20.0 || exists i :: 0 <= i < |b| && time - b[i] < 35.0
  {
    var earlier := AnchorBoundaries(anchors, n - 1, first, last);
    var b := AnchorBoundaries(anchors, n, first, last);
    assert forall i :: 0 <= i < |earlier| ==> b[i] == earlier[i];
    if k < n - 1 {
      AnchorStartsRound(anchors, n - 1, first, last, k);
    } else {
      assert b[|earlier| - 1] == LastOf(earlier) && b[0] == first;
    }
  }

  // ----- Boundaries from the cadence

  function EstimateRoundCount(total: real): int {
    if total <= 0.0 then 1
    else if total < 95.0 then 1
    else if total < 180.0 then 2
    else
      var rounds := Nearest(total / 105.0);
      var atLeastTwo := if rounds < 2 then 2 else rounds;
      if atLeastTwo > 26 then 26 else atLeastTwo
  }

  /** The number of rounds of a match: one below 95 seconds and two below 180; from there on the
      number of 105-second rounds closest to its length, and never more than 26. */
  lemma RoundCountMeans(total: real)
    ensures total < 95.0 ==> EstimateRoundCount(total) == 1
    ensures 95.0 <= total < 180.0 ==> EstimateRoundCount(total) == 2
    ensures 180.0 <= total < 2782.5 ==> Abs(105.0 * EstimateRoundCount(total) as real - total) <= 52.5
    ensures total >= 2782.5 ==> EstimateRoundCount(total) == 26
  {
    var x := total / 105.0;
    assert x * 105.0 == total;
    NearestIsMonotone(x, x);
    if total >= 2782.5 {
      NearestIsMonotone(26.5, x);
      NearestOfHalf(26);
    }
  }

  lemma RoundCountGrows(a: real, b: real)
    requires a <= b
    ensures EstimateRoundCount(a) <= EstimateRoundCount(b)
  {
    if a >= 180.0 {
      NearestIsMonotone(a / 105.0, b / 105.0);
    }
  }

  function SnapScore(o: Observation): real {
    var score := Clamp01(1.0 - (o.combat * 0.62 + o.motion * 0.38));
    match o.phase
    case Hold => Clamp01(score + 0.08)
    case Midround => Clamp01(score + 0.03)
    case Fight => Clamp01(score - 0.12)
    case _ => score
  }

  /** A quiet frame is a good place to cut: within one phase more combat or motion never scores higher,
      and the same picture scores highest when holding, then midround, and lowest in a fight. */
  lemma CalmerScoresHigher(a: Observation, b: Observation)
    requires a.combat <= b.combat && a.motion <= b.motion
    requires a.phase == b.phase || a.phase == Hold || b.phase == Fight || (a.phase == Midround && b.phase != Hold)
    ensures SnapScore(a) >= SnapScore(b)
  {
  }

  /** How much combat, motion and the phase weigh, as long as no bound of the score is met. */
  lemma ScoreMeans(o: Observation)
    requires 0.12 <= 1.0 - 0.62 * o.combat - 0.38 * o.motion <= 0.92
    ensures SnapScore(o) == 1.0 - 0.62 * o.combat - 0.38 * o.motion +
                            (if o.phase == Hold then 0.08 else if o.phase == Midround then 0.03 else if o.phase == Fight then -0.12 else 0.0)
  {
  }

  predicate Within(o: Observation, target: real, radius: real) {
    Abs(o.timestamp - target) <= radius
  }

  /** The best-scored of the first `n` frames within the radius, the earliest on ties; -1 if none. */
  function SnapIndex(frames: seq<Observation>, target: real, radius: real, n: nat): (best: int)
    requires n <= |frames|
    ensures -1 <= best < n
    ensures best != -1 ==> Within(frames[best], target, radius)
  {
    if n == 0 then -1
    else
      var best := SnapIndex(frames, target, radius, n - 1);
      if Within(frames[n - 1], target, radius) && (best == -1 || SnapScore(frames[n - 1]) > SnapScore(frames[best]))
      then n - 1 else best
  }

  function Snap(frames: seq<Observation>, target: real, radius: real): real {
    var k := SnapIndex(frames, target, radius, |frames|);
    if k == -1 then target else frames[k].timestamp
  }

  method SnapRoundBoundary(frames: seq<Observation>, target: real, radius: real)
    returns (boundary: real, quality: real)
    ensures boundary == Snap(frames, target, radius)
    ensures var k := SnapIndex(frames, target, radius, |frames|);
            quality == if k == -1 then 0.35 else SnapScore(frames[k])
  {
    hide SnapScore;
    var bestTimestamp, bestScore := target, -1.0;
    for n := 0 to |frames|
      invariant var k := SnapIndex(frames, target, radius, n);
                && bestTimestamp == (if k == -1 then target else frames[k].timestamp)
                && bestScore == (if k == -1 then -1.0 else SnapScore(frames[k]))
    {
      ScoresAreNotNegative(frames[n]);
      if Abs(frames[n].timestamp - target) > radius {
        continue;
      }
      var score := SnapScore(frames[n]);
      if score > bestScore {
        bestScore, bestTimestamp := score, frames[n].timestamp;
      }
    }
    if |frames| > 0 {
      var k := SnapIndex(frames, target, radius, |frames|);
      ScoresAreNotNegative(frames[if k == -1 then 0 else k]);
    }
    if bestScore < 0.0 {
      return target, 0.35;
    }
    return bestTimestamp, bestScore;
  }

  lemma ScoresAreNotNegative(o: Observation)
    ensures 0.0 <= SnapScore(o) <= 1.0
  {
  }

  /** No frame within the radius scores higher than the one snapped to. */
  lemma {:induction false} SnapIsBest(frames: seq<Observation>, target: real, radius: real, n: nat, i: nat)
    requires i < n <= |frames| && target - radius <= frames[i].timestamp <= target + radius
    ensures var k := SnapIndex(frames, target, radius, n);
            k != -1 && SnapScore(frames[i]) <= SnapScore(frames[k]) &&
            (SnapScore(frames[i]) == SnapScore(frames[k]) ==> k <= i)
  {
    hide SnapScore;
    if i < n - 1 {
      SnapIsBest(frames, target, radius, n - 1, i);
    }
  }

  function MinGap(cadence: real): real {
    Min(45.0, cadence * 0.55)
  }

  function EndGap(cadence: real): real {
    Min(30.0, cadence * 0.38)
  }

  function SnapRadius(cadence: real): real {
    Min(22.0, cadence * 0.24)
  }

  function Target(first: real, cadence: real, i: nat): real {
    first + cadence * i as real
  }

  lemma NextTarget(first: real, cadence: real, i: nat)
    ensures Target(first, cadence, i + 1) == Target(first, cadence, i) + cadence
    ensures Target(first, cadence, 0) == first
  {
    assert cadence * (i + 1) as real == cadence * i as real + cadence;
  }

  /** The boundary before round `i + 1`: the snapped one unless it is too close to its
      predecessor or to the end, in which case the cadence itself decides. */
  function CadenceBoundary(frames: seq<Observation>, first: real, last: real, cadence: real, i: nat, previous: real): real {
    var target := Target(first, cadence, i);
    var snapped := Snap(frames, target, SnapRadius(cadence));
    var rejected := snapped < previous + MinGap(cadence) || snapped > last - EndGap(cadence);
    Round3(if rejected then target else snapped)
  }

  function CadenceBoundaries(frames: seq<Observation>, first: real, last: real, cadence: real, n: nat): (boundaries: seq<real>)
    ensures |boundaries| == n + 1 && boundaries[0] == first
  {
    if n == 0 then [first]
    else
      var earlier := CadenceBoundaries(frames, first, last, cadence, n - 1);
      earlier + [CadenceBoundary(frames, first, last, cadence, n, LastOf(earlier))]
  }

  // ----- The boundaries of a timeline

  datatype Detection = BuyPhaseAnchors | VisualTimeline

  function First(frames: seq<Observation>): real
    requires frames != []
  {
    frames[0].timestamp
  }

  function Last(frames: seq<Observation>): real
    requires frames != []
  {
    frames[|frames| - 1].timestamp
  }

  function Total(frames: seq<Observation>): real
    requires frames != []
  {
    Max(0.0, Last(frames) - First(frames))
  }

  predicate UsesAnchors(frames: seq<Observation>)
    requires frames != []
  {
    var anchors := Anchors(frames, |frames|);
    |anchors| >= 2 && |AnchorBoundaries(anchors, |anchors|, First(frames), Last(frames))| >= 2
  }

  function Cadence(frames: seq<Observation>): real
    requires frames != []
  {
    Total(frames) / EstimateRoundCount(Total(frames)) as real
  }

  /** All boundaries, from the first frame to the last one. */
  function Boundaries(frames: seq<Observation>): seq<real>
    requires frames != []
  {
    var first, last := First(frames), Last(frames);
    if UsesAnchors(frames) then
      var anchors := Anchors(frames, |frames|);
      AnchorBoundaries(anchors, |anchors|, first, last) + [last]
    else
      CadenceBoundaries(frames, first, last, Cadence(frames), EstimateRoundCount(Total(frames)) - 1) + [last]
  }

  method AnchorPath(anchors: seq<Observation>, first: real, last: real) returns (boundaries: seq<real>)
    ensures boundaries == AnchorBoundaries(anchors, |anchors|, first, last) + [last]
  {
    boundaries := [first];
    for n := 0 to |anchors|
      invariant boundaries == AnchorBoundaries(anchors, n, first, last)
    {
      var time := anchors[n].timestamp;
      if time - first <= 12.0 || time - boundaries[|boundaries| - 1] < 35.0 || last - time < 20.0 {
        continue;
      }
      boundaries := boundaries + [time];
    }
    boundaries := boundaries + [last];
  }

  method CadencePath(frames: seq<Observation>, first: real, last: real, cadence: real, roundCount: int)
    returns (boundaries: seq<real>)
    requires roundCount >= 1
    ensures boundaries == CadenceBoundaries(frames, first, last, cadence, roundCount - 1) + [last]
  {
    hide Snap;
    hide SnapIndex;
    hide Round3;
    boundaries := [first];
    for index := 1 to roundCount
      invariant boundaries == CadenceBoundaries(frames, first, last, cadence, index - 1)
    {
      var target := Target(first, cadence, index);
      var boundary, quality := SnapRoundBoundary(frames, target, Min(22.0, cadence * 0.24));
      var minBoundary := boundaries[|boundaries| - 1] + Min(45.0, cadence * 0.55);
      var maxBoundary := last - Min(30.0, cadence * 0.38);
      if boundary < minBoundary || boundary > maxBoundary {
        boundary := target;
      }
      boundaries := boundaries + [Round3(boundary)];
    }
    boundaries := boundaries + [last];
  }

  method BuildBoundaries(frames: seq<Observation>) returns (boundaries: seq<real>, detection: Detection)
    requires frames != []
    ensures boundaries == Boundaries(frames)
    ensures detection == if UsesAnchors(frames) then BuyPhaseAnchors else VisualTimeline
  {
    hide Anchors;
    hide AnchorBoundaries;
    hide CadenceBoundaries;
    hide EstimateRoundCount;
    var first, last := frames[0].timestamp, frames[|frames| - 1].timestamp;
    var total := Max(0.0, last - first);
    var anchors := DetectBuyPhaseAnchors(frames);
    if |anchors| >= 2 {
      boundaries := AnchorPath(anchors, first, last);
      if |boundaries| >= 3 {
        return boundaries, BuyPhaseAnchors;
      }
    }
    assert !UsesAnchors(frames);
    RoundCountIsPositive(total);
    var roundCount := EstimateRoundCount(total);
    if roundCount <= 0 {
      roundCount := 1;
    }
    boundaries := CadencePath(frames, first, last, total / roundCount as real, roundCount);
    return boundaries, VisualTimeline;
  }

  lemma RoundCountIsPositive(total: real)
    ensures 1 <= EstimateRoundCount(total) <= 26
  {
  }

  // ----- How far apart boundaries are

  ghost predicate Spaced(boundaries: seq<real>, gap: real) {
    forall i :: 0 < i < |boundaries| ==> boundaries[i] - boundaries[i - 1] >= gap
  }

  lemma {:induction false} AnchorsAreSpaced(anchors: seq<Observation>, n: nat, first: real, last: real)
    requires n <= |anchors|
    ensures var b := AnchorBoundaries(anchors, n, first, last);
            Spaced(b, 35.0) && (|b| > 1 ==> last - LastOf(b) >= 20.0)
  {
    if n > 0 {
      AnchorsAreSpaced(anchors, n - 1, first, last);
    }
  }

  /** On the anchor path every round but the last spans at least 35 seconds, the last at least 20. */
  lemma AnchorRoundsAreLong(frames: seq<Observation>)
    requires frames != [] && UsesAnchors(frames)
    ensures var b := Boundaries(frames);
            Spaced(b[..|b| - 1], 35.0) && b[|b| - 1] - b[|b| - 2] >= 20.0
  {
    var anchors := Anchors(frames, |frames|);
    AnchorsAreSpaced(anchors, |anchors|, First(frames), Last(frames));
    var b := AnchorBoundaries(anchors, |anchors|, First(frames), Last(frames));
    assert Boundaries(frames)[..|b|] == b;
  }

  /** A match split into several rounds gives each at least 47.5 seconds on average. */
  lemma CadenceIsLong(frames: seq<Observation>)
    requires frames != [] && EstimateRoundCount(Total(frames)) >= 2
    ensures Cadence(frames) >= 47.5
    ensures Cadence(frames) * EstimateRoundCount(Total(frames)) as real == Total(frames)
    ensures Total(frames) == Last(frames) - First(frames)
  {
    var total, rounds := Total(frames), EstimateRoundCount(Total(frames));
    assert rounds as real * 47.5 <= total;
    QuotientAtLeast(total, rounds as real, 47.5);
  }

  lemma QuotientAtLeast(total: real, parts: real, each: real)
    requires parts > 0.0 && parts * each <= total
    ensures total / parts >= each && (total / parts) * parts == total
  {
  }

  lemma SnapStaysNear(frames: seq<Observation>, target: real, radius: real)
    requires radius >= 0.0
    ensures Abs(Snap(frames, target, radius) - target) <= radius
  {
    hide SnapIndex;
    var k := SnapIndex(frames, target, radius, |frames|);
  }

  /** A boundary keeps its distance from its predecessor and from the end, and stays near its
      target. Rounding a snapped boundary changes nothing, for it is the time of a frame. */
  lemma CadenceBoundaryKeepsDistance(frames: seq<Observation>, first: real, last: real, cadence: real, i: nat, previous: real)
    requires OnMilliseconds(frames) && cadence >= 47.5
    requires var target := Target(first, cadence, i);
             target + cadence <= last && previous <= target - cadence + SnapRadius(cadence) + 0.0005
    ensures var b := CadenceBoundary(frames, first, last, cadence, i, previous);
            && b - previous >= MinGap(cadence)
            && last - b >= EndGap(cadence)
            && Abs(b - Target(first, cadence, i)) <= SnapRadius(cadence) + 0.0005
  {
    var target := Target(first, cadence, i);
    hide Target;
    var snapped := Snap(frames, target, SnapRadius(cadence));
    SnapStaysNear(frames, target, SnapRadius(cadence));
    assert snapped == target || Round3(snapped) == snapped;
    hide Snap;
    hide Round3;
    hide OnMilliseconds;
    Round3Laws(target, target);
    Round3Laws(snapped, snapped);
  }

  lemma {:induction false} CadenceBoundariesKeepDistance(frames: seq<Observation>, first: real, last: real, cadence: real, n: nat)
    requires OnMilliseconds(frames) && cadence >= 47.5
    requires Target(first, cadence, n + 1) <= last
    ensures var b := CadenceBoundaries(frames, first, last, cadence, n);
            && Spaced(b, MinGap(cadence))
            && last - LastOf(b) >= EndGap(cadence)
            && Abs(LastOf(b) - Target(first, cadence, n)) <= SnapRadius(cadence) + 0.0005
  {
    NextTarget(first, cadence, n);
    if n > 0 {
      NextTarget(first, cadence, n - 1);
      hide *;
      CadenceBoundariesKeepDistance(frames, first, last, cadence, n - 1);
      var earlier := CadenceBoundaries(frames, first, last, cadence, n - 1);
      CadenceBoundaryKeepsDistance(frames, first, last, cadence, n, LastOf(earlier));
      ExtendBoundaries(frames, first, last, cadence, n);
    }
  }

  lemma ExtendBoundaries(frames: seq<Observation>, first: real, last: real, cadence: real, n: nat)
    requires n > 0
    requires var earlier := CadenceBoundaries(frames, first, last, cadence, n - 1);
             && Spaced(earlier, MinGap(cadence))
             && CadenceBoundary(frames, first, last, cadence, n, LastOf(earlier)) - LastOf(earlier) >= MinGap(cadence)
    ensures var b := CadenceBoundaries(frames, first, last, cadence, n);
            && Spaced(b, MinGap(cadence))
            && LastOf(b) == CadenceBoundary(frames, first, last, cadence, n, LastOf(CadenceBoundaries(frames, first, last, cadence, n - 1)))
  {
    hide CadenceBoundary;
    hide MinGap;
  }

  /** On the cadence path with two or more rounds every round but the last spans at least
      min(45, 0.55 cadence) seconds and the last at least min(30, 0.38 cadence), also where a
      snapped boundary was rejected. */
  lemma CadenceRoundsAreLong(frames: seq<Observation>)
    requires OnMilliseconds(frames) && frames != [] && !UsesAnchors(frames) && EstimateRoundCount(Total(frames)) >= 2
    ensures var b, cadence := Boundaries(frames), Cadence(frames);
            && |b| == EstimateRoundCount(Total(frames)) + 1
            && Spaced(b[..|b| - 1], MinGap(cadence))
            && b[|b| - 1] - b[|b| - 2] >= EndGap(cadence)
  {
    hide *;
    CadenceIsLong(frames);
    OnCadence(frames);
    var n := EstimateRoundCount(Total(frames)) - 1;
    var b := CadenceBoundaries(frames, First(frames), Last(frames), Cadence(frames), n);
    CadenceBoundariesKeepDistance(frames, First(frames), Last(frames), Cadence(frames), n);
    LastOfIs(b);
    assert Boundaries(frames)[..|b|] == b;
  }

  lemma LastOfIs(b: seq<real>)
    requires b != []
    ensures LastOf(b) == b[|b| - 1]
  {
  }

  lemma OnCadence(frames: seq<Observation>)
    requires frames != [] && !UsesAnchors(frames) && EstimateRoundCount(Total(frames)) >= 2
    requires Cadence(frames) * EstimateRoundCount(Total(frames)) as real == Total(frames) == Last(frames) - First(frames)
    ensures var n := EstimateRoundCount(Total(frames)) - 1;
            && Boundaries(frames) == CadenceBoundaries(frames, First(frames), Last(frames), Cadence(frames), n) + [Last(frames)]
            && Target(First(frames), Cadence(frames), n + 1) <= Last(frames)
  {
    hide CadenceBoundaries;
    hide UsesAnchors;
    hide EstimateRoundCount;
    hide Cadence;
    hide Total;
  }

  /** Boundaries run in order from the first frame to the last one. */
  ghost predicate Ladder(boundaries: seq<real>, first: real, last: real) {
    && |boundaries| >= 2 && boundaries[0] == first && boundaries[|boundaries| - 1] == last
    && forall i, j :: 0 <= i <= j < |boundaries| ==> boundaries[i] <= boundaries[j]
  }

  lemma {:induction false} SpacedIsOrdered(b: seq<real>, i: nat, j: nat)
    requires i <= j < |b| && Spaced(b, 0.0)
    ensures b[i] <= b[j]
  {
    if i < j {
      SpacedIsOrdered(b, i, j - 1);
      assert b[j] - b[j - 1] >= 0.0;
    }
  }

  lemma BoundariesFormLadder(frames: seq<Observation>)
    requires frames != [] && Timeline(frames)
    ensures Ladder(Boundaries(frames), First(frames), Last(frames))
  {
    hide *;
    var b := Boundaries(frames);
    EndsOfBoundaries(frames);
    if UsesAnchors(frames) {
      AnchorRoundsAreLong(frames);
      SpacedIsLadder(b, 35.0, 20.0);
    } else if EstimateRoundCount(Total(frames)) >= 2 {
      CadenceIsLong(frames);
      OnMillisecondsIn(frames);
      CadenceRoundsAreLong(frames);
      GapsAreLong(Cadence(frames));
      SpacedIsLadder(b, MinGap(Cadence(frames)), EndGap(Cadence(frames)));
    } else {
      PairIsLadder(b);
    }
  }

  lemma OnMillisecondsIn(frames: seq<Observation>)
    requires Timeline(frames)
    ensures OnMilliseconds(frames)
  {
  }

  lemma PairIsLadder(b: seq<real>)
    requires |b| == 2 && b[0] <= b[1]
    ensures Ladder(b, b[0], b[1])
  {
  }

  lemma GapsAreLong(cadence: real)
    requires cadence >= 47.5
    ensures MinGap(cadence) >= 0.0 && EndGap(cadence) >= 0.0
  {
  }

  lemma EndsOfBoundaries(frames: seq<Observation>)
    requires frames != [] && Timeline(frames)
    ensures var b := Boundaries(frames);
            |b| >= 2 && b[0] == First(frames) && b[|b| - 1] == Last(frames) && First(frames) <= Last(frames)
    ensures !UsesAnchors(frames) && EstimateRoundCount(Total(frames)) < 2 ==> |Boundaries(frames)| == 2
  {
    hide UsesAnchors;
    hide Cadence;
  }

  lemma SpacedIsLadder(b: seq<real>, gap: real, endGap: real)
    requires |b| >= 2 && gap >= 0.0 && endGap >= 0.0
    requires Spaced(b[..|b| - 1], gap) && b[|b| - 1] - b[|b| - 2] >= endGap
    ensures Ladder(b, b[0], b[|b| - 1])
  {
    assert Spaced(b, 0.0) by {
      forall i | 0 < i < |b| ensures b[i] - b[i - 1] >= 0.0 {
        if i < |b| - 1 {
          assert b[..|b| - 1][i] == b[i] && b[..|b| - 1][i - 1] == b[i - 1];
        }
      }
    }
    forall i, j | 0 <= i <= j < |b| ensures b[i] <= b[j] {
      SpacedIsOrdered(b, i, j);
    }
  }
}
