/** The stretches of a match that could become review windows: combat reports, fights, calm
    periods and rotations. */
module ReviewCandidates {
  import opened Observations
  import opened Phases
  import opened Rounding
  import opened Windows

  // ----- Candidates

  /** A stretch of the match around one frame; `low` and `high` are unrounded. */
  datatype Candidate = Candidate(peak: nat, low: real, high: real, score: real)

  /** How long a window of each kind reaches before and after its peak. A low-activity window
      reaches as far as the calm does. */
  function Lead(kind: Kind): real {
    match kind case DeathReview => 10.0 case CombatSpike => 8.0 case LowActivity => 0.0 case RotationSpike => 6.0
  }

  function Tail(kind: Kind): real {
    match kind case DeathReview => 8.0 case CombatSpike => 10.0 case LowActivity => 0.0 case RotationSpike => 8.0
  }

  /** The candidate of a kind with a fixed reach, around frame `k`. */
  function Around(frames: seq<Observation>, kind: Kind, k: nat, score: real): Candidate
    requires k < |frames|
  {
    var time := frames[k].timestamp;
    Candidate(k, Max(0.0, time - Lead(kind)), time + Tail(kind), score)
  }

  /** The bounds of a candidate belong to its peak. */
  ghost predicate Fits(frames: seq<Observation>, kind: Kind, c: Candidate) {
    && c.peak < |frames|
    && (if kind == LowActivity then 0.0 <= c.low <= frames[c.peak].timestamp <= c.high && c.high - c.low >= 8.0
        else c == Around(frames, kind, c.peak, c.score))
  }

  ghost predicate AllFit(frames: seq<Observation>, kind: Kind, candidates: seq<Candidate>) {
    forall i :: 0 <= i < |candidates| ==> Fits(frames, kind, candidates[i])
  }

  // ----- Maximal runs of frames with a property

  function RunStart(frames: seq<Observation>, isIn: Observation -> bool, e: nat): (start: nat)
    requires e < |frames|
    ensures start <= e
    ensures forall k :: start <= k < e ==> isIn(frames[k])
    ensures start > 0 ==> !isIn(frames[start - 1])
  {
    if e > 0 && isIn(frames[e - 1]) then RunStart(frames, isIn, e - 1) else e
  }

  lemma {:induction false} RunStartIs(frames: seq<Observation>, isIn: Observation -> bool, s: nat, e: nat)
    requires s <= e < |frames| && (forall k :: s <= k < e ==> isIn(frames[k])) && (s > 0 ==> !isIn(frames[s - 1]))
    ensures RunStart(frames, isIn, e) == s
  {
    if s < e {
      RunStartIs(frames, isIn, s, e - 1);
    }
  }

  predicate EndsRun(frames: seq<Observation>, isIn: Observation -> bool, e: nat)
    requires e < |frames|
  {
    isIn(frames[e]) && (e + 1 == |frames| || !isIn(frames[e + 1]))
  }

  // ----- Combat reports

  predicate ShowsDeath(o: Observation) {
    && DeathReport in o.ocrSignals && o.combatReport >= TRUSTED_COMBAT_REPORT
    && o.hudLayout >= 0.22
    && o.buyPhase < TRUSTED_BUY_PHASE && o.scoreboard < TRUSTED_SCOREBOARD && o.roundEnd < TRUSTED_ROUND_END
  }

  /** The strongest report within 8 seconds of the start of the run, the earliest on ties. */
  function DeathPeak(frames: seq<Observation>, start: nat, k: nat): (peak: nat)
    requires start <= k < |frames|
    ensures start <= peak <= k
  {
    if k == start then start
    else
      var peak := DeathPeak(frames, start, k - 1);
      if frames[k].combatReport > frames[peak].combatReport && frames[k].timestamp - frames[start].timestamp <= 8.0
      then k else peak
  }

  /** No frame of the run within 8 seconds of its start has a stronger report than its peak. */
  lemma {:induction false} DeathPeakIsStrongest(frames: seq<Observation>, start: nat, k: nat, i: nat)
    requires start <= i <= k < |frames| && frames[i].timestamp - frames[start].timestamp <= 8.0
    ensures var peak := DeathPeak(frames, start, k);
            && frames[peak].timestamp - frames[start].timestamp <= 8.0
            && frames[i].combatReport <= frames[peak].combatReport
            && (i < peak ==> frames[i].combatReport < frames[peak].combatReport)
  {
    if start < k {
      DeathPeakIsStrongest(frames, start, k - 1, if i < k then i else start);
    }
  }

  /** One candidate for each run of frames showing a combat report that ends before `n`. */
  function DeathClusters(frames: seq<Observation>, n: nat): seq<Candidate>
    requires n <= |frames|
  {
    if n == 0 then []
    else if !EndsRun(frames, ShowsDeath, n - 1) then DeathClusters(frames, n - 1)
    else
      var peak := DeathPeak(frames, RunStart(frames, ShowsDeath, n - 1), n - 1);
      DeathClusters(frames, n - 1) + [Around(frames, DeathReview, peak, frames[peak].combatReport)]
  }

  method FindDeathClusters(frames: seq<Observation>) returns (clusters: seq<Candidate>)
    ensures clusters == DeathClusters(frames, |frames|)
  {
    hide ShowsDeath;
    hide Around;
    clusters := [];
    var clusterStart, peak := -1, -1;
    for index := 0 to |frames|
      invariant clusterStart == -1 ==> clusters == DeathClusters(frames, index)
      invariant clusterStart == -1 ==> index == 0 || index == |frames| || !ShowsDeath(frames[index - 1])
      invariant clusterStart != -1 ==>
        && 0 < index < |frames| && ShowsDeath(frames[index - 1])
        && clusterStart == RunStart(frames, ShowsDeath, index - 1)
        && peak == DeathPeak(frames, clusterStart, index - 1)
        && clusters == DeathClusters(frames, index - 1)
    {
      var visible := ShowsDeath(frames[index]);
      if visible {
        if clusterStart == -1 {
          clusterStart := index;
          peak := index;
        }
        if frames[index].combatReport > frames[peak].combatReport && frames[index].timestamp - frames[clusterStart].timestamp <= 8.0 {
          peak := index;
        }
      }
      if (!visible || index == |frames| - 1) && clusterStart != -1 {
        clusters := clusters + [Around(frames, DeathReview, peak, frames[peak].combatReport)];
        clusterStart, peak := -1, -1;
      }
    }
  }

  // ----- Fights

  predicate ShowsFight(o: Observation, threshold: real) {
    && o.combat >= threshold && o.hudLayout >= 0.22 && HasCombatCorroboration(o)
    && o.scoreboard < 0.48 && o.buyPhase < 0.48 && o.combatReport < 0.58 && o.roundEnd < 0.48
  }

  function FightFrames(frames: seq<Observation>, threshold: real, n: nat): seq<Candidate>
    requires n <= |frames|
  {
    if n == 0 then []
    else if ShowsFight(frames[n - 1], threshold) then
      FightFrames(frames, threshold, n - 1) + [Around(frames, CombatSpike, n - 1, frames[n - 1].combat)]
    else FightFrames(frames, threshold, n - 1)
  }

  method FindFightFrames(frames: seq<Observation>, threshold: real) returns (candidates: seq<Candidate>)
    ensures candidates == FightFrames(frames, threshold, |frames|)
  {
    candidates := [];
    for n := 0 to |frames|
      invariant candidates == FightFrames(frames, threshold, n)
    {
      if ShowsFight(frames[n], threshold) {
        candidates := candidates + [Around(frames, CombatSpike, n, frames[n].combat)];
      }
    }
  }

  // ----- Calm periods

  predicate IsPassive(o: Observation, threshold: real) {
    && o.motion <= threshold && o.combat < 0.24 && o.hudLayout >= 0.22
    && o.buyPhase < 0.42 && o.scoreboard < 0.42 && o.combatReport < 0.42 && o.roundEnd < 0.42
  }

  function Passive(threshold: real): Observation -> bool {
    (o: Observation) => IsPassive(o, threshold)
  }

  function Calm(frames: seq<Observation>, start: nat, end: nat): Candidate
    requires start <= end < |frames|
  {
    var low, high := frames[start].timestamp, frames[end].timestamp;
    Candidate((start + end) / 2, low, high, Clamp01((high - low) / 45.0))
  }

  /** One candidate for each run of calm frames that ends before `n` and lasts 8 seconds. */
  function CalmPeriods(frames: seq<Observation>, threshold: real, n: nat): seq<Candidate>
    requires n <= |frames|
  {
    if n == 0 then []
    else
      var earlier := CalmPeriods(frames, threshold, n - 1);
      if !EndsRun(frames, Passive(threshold), n - 1) then earlier
      else
        var start := RunStart(frames, Passive(threshold), n - 1);
        if frames[n - 1].timestamp - frames[start].timestamp >= 8.0 then earlier + [Calm(frames, start, n - 1)] else earlier
  }

  method FindCalmPeriods(frames: seq<Observation>, threshold: real) returns (segments: seq<Candidate>)
    ensures segments == CalmPeriods(frames, threshold, |frames|)
  {
    hide IsPassive;
    hide Clamp01;
    segments := [];
    var start := -1;
    for index := 0 to |frames|
      invariant start == -1 ==> segments == CalmPeriods(frames, threshold, index)
      invariant start == -1 ==> index == 0 || index == |frames| || !Passive(threshold)(frames[index - 1])
      invariant start != -1 ==>
        && 0 < index < |frames| && Passive(threshold)(frames[index - 1])
        && start == RunStart(frames, Passive(threshold), index - 1)
        && segments == CalmPeriods(frames, threshold, index - 1)
    {
      var isPassive := IsPassive(frames[index], threshold);
      if isPassive && start == -1 {
        start := index;
      }
      if (!isPassive || index == |frames| - 1) && start != -1 {
        var end := if isPassive && index == |frames| - 1 then index else index - 1;
        var duration := frames[end].timestamp - frames[start].timestamp;
        if duration >= 8.0 {
          segments := segments + [Calm(frames, start, end)];
        }
        start := -1;
      }
    }
  }

  // ----- Rotations

  /** A screen that hides the game is up within the radius of frame `k`. */
  predicate OverlayNear(frames: seq<Observation>, k: nat, radius: real)
    requires k < |frames|
  {
    exists i :: 0 <= i < |frames| && Abs(frames[i].timestamp - frames[k].timestamp) <= radius && HasOverlay(frames[i])
  }

  method HasNearbyBlockingOverlay(frames: seq<Observation>, k: int, radius: real) returns (blocked: bool)
    ensures blocked <==> 0 <= k < |frames| && OverlayNear(frames, k, radius)
  {
    if k < 0 || k >= |frames| {
      return false;
    }
    for n := 0 to |frames|
      invariant forall i :: 0 <= i < n ==> !(Abs(frames[i].timestamp - frames[k].timestamp) <= radius && HasOverlay(frames[i]))
    {
      if Abs(frames[n].timestamp - frames[k].timestamp) > radius {
        continue;
      }
      if HasOverlay(frames[n]) {
        return true;
      }
    }
    return false;
  }

  predicate ShowsRotation(frames: seq<Observation>, k: nat, threshold: real, calm: real)
    requires k < |frames|
  {
    var o := frames[k];
    && o.motion >= threshold && o.combat <= calm && o.hudLayout >= 0.22
    && o.buyPhase < 0.42 && o.scoreboard < 0.42 && o.combatReport < 0.42 && o.roundEnd < 0.42
    && !OverlayNear(frames, k, 4.0)
  }

  function RotationFrames(frames: seq<Observation>, threshold: real, calm: real, n: nat): seq<Candidate>
    requires n <= |frames|
  {
    if n == 0 then []
    else if ShowsRotation(frames, n - 1, threshold, calm) then
      RotationFrames(frames, threshold, calm, n - 1) + [Around(frames, RotationSpike, n - 1, frames[n - 1].motion)]
    else RotationFrames(frames, threshold, calm, n - 1)
  }

  method FindRotationFrames(frames: seq<Observation>, threshold: real, calm: real) returns (candidates: seq<Candidate>)
    ensures candidates == RotationFrames(frames, threshold, calm, |frames|)
  {
    hide OverlayNear;
    candidates := [];
    for n := 0 to |frames|
      invariant candidates == RotationFrames(frames, threshold, calm, n)
    {
      var o := frames[n];
      if o.motion >= threshold && o.combat <= calm && o.hudLayout >= 0.22 &&
         o.buyPhase < 0.42 && o.scoreboard < 0.42 && o.combatReport < 0.42 && o.roundEnd < 0.42 {
        var blocked := HasNearbyBlockingOverlay(frames, n, 4.0);
        if !blocked {
          candidates := candidates + [Around(frames, RotationSpike, n, o.motion)];
        }
      }
    }
  }

  // ----- Nothing is overlooked

  predicate LiesInRun(frames: seq<Observation>, isIn: Observation -> bool, i: nat, e: nat)
    requires e < |frames|
  {
    i <= e && EndsRun(frames, isIn, e) && RunStart(frames, isIn, e) <= i
  }

  lemma {:induction false} LaterEnd(frames: seq<Observation>, isIn: Observation -> bool, i: nat) returns (e: nat)
    requires i < |frames| && isIn(frames[i])
    ensures e < |frames| && LiesInRun(frames, isIn, i, e)
    decreases |frames| - i
  {
    if EndsRun(frames, isIn, i) {
      e := i;
    } else {
      e := LaterEnd(frames, isIn, i + 1);
    }
  }

  /** Every frame with the property lies in exactly one run, named by the frame that ends it. */
  lemma EveryFrameIsInARun(frames: seq<Observation>, isIn: Observation -> bool, i: nat) returns (e: nat)
    requires i < |frames| && isIn(frames[i])
    ensures e < |frames| && LiesInRun(frames, isIn, i, e)
    ensures forall d :: 0 <= d < |frames| && LiesInRun(frames, isIn, i, d) ==> d == e
  {
    e := LaterEnd(frames, isIn, i);
    hide RunStart;
    forall d | 0 <= d < |frames| && LiesInRun(frames, isIn, i, d) ensures d == e {
      if d < e {
        RunsAreApart(frames, isIn, d, e);
      } else if e < d {
        RunsAreApart(frames, isIn, e, d);
      }
    }
  }

  /** The runs that end at different frames do not meet. */
  lemma RunsAreApart(frames: seq<Observation>, isIn: Observation -> bool, d: nat, e: nat)
    requires d < e < |frames| && EndsRun(frames, isIn, d) && EndsRun(frames, isIn, e)
    ensures d + 1 < RunStart(frames, isIn, e)
  {
  }

  lemma {:induction false} ClusterListed(frames: seq<Observation>, n: nat, e: nat)
    requires e < n <= |frames| && EndsRun(frames, ShowsDeath, e)
    ensures var peak := DeathPeak(frames, RunStart(frames, ShowsDeath, e), e);
            Around(frames, DeathReview, peak, frames[peak].combatReport) in DeathClusters(frames, n)
  {
    hide ShowsDeath;
    hide Around;
    if e < n - 1 {
      ClusterListed(frames, n - 1, e);
    }
  }

  /** Every frame that shows a combat report belongs to a cluster, whose peak is in its run. */
  lemma EveryReportIsInspected(frames: seq<Observation>, i: nat) returns (e: nat, peak: nat)
    requires i < |frames| && ShowsDeath(frames[i])
    ensures i <= e < |frames| && EndsRun(frames, ShowsDeath, e) && RunStart(frames, ShowsDeath, e) <= i
    ensures RunStart(frames, ShowsDeath, e) <= peak <= e
    ensures Around(frames, DeathReview, peak, frames[peak].combatReport) in DeathClusters(frames, |frames|)
  {
    e := EveryFrameIsInARun(frames, ShowsDeath, i);
    peak := DeathPeak(frames, RunStart(frames, ShowsDeath, e), e);
    ClusterListed(frames, |frames|, e);
  }

  /** Every cluster is the peak of a run, and there are no more clusters than frames. */
  lemma {:induction false} ClusterComesFrom(frames: seq<Observation>, n: nat, i: nat) returns (e: nat)
    requires n <= |frames| && i < |DeathClusters(frames, n)|
    ensures e < n && EndsRun(frames, ShowsDeath, e)
    ensures var peak := DeathPeak(frames, RunStart(frames, ShowsDeath, e), e);
            DeathClusters(frames, n)[i] == Around(frames, DeathReview, peak, frames[peak].combatReport)
    ensures |DeathClusters(frames, n)| <= n
    decreases n
  {
    hide ShowsDeath;
    hide Around;
    FewClusters(frames, n);
    if n > 1 && i < |DeathClusters(frames, n - 1)| {
      e := ClusterComesFrom(frames, n - 1, i);
    } else {
      e := n - 1;
    }
  }

  lemma {:induction false} FewClusters(frames: seq<Observation>, n: nat)
    requires n <= |frames|
    ensures |DeathClusters(frames, n)| <= n
  {
    hide ShowsDeath;
    if n > 0 {
      FewClusters(frames, n - 1);
    }
  }

  /** Every calm period is a run that lasts 8 seconds. */
  lemma {:induction false} PeriodComesFrom(frames: seq<Observation>, threshold: real, n: nat, i: nat) returns (e: nat)
    requires n <= |frames| && i < |CalmPeriods(frames, threshold, n)|
    ensures e < n && EndsRun(frames, Passive(threshold), e)
    ensures var start := RunStart(frames, Passive(threshold), e);
            && frames[e].timestamp - frames[start].timestamp >= 8.0
            && CalmPeriods(frames, threshold, n)[i] == Calm(frames, start, e)
    decreases n
  {
    hide Calm;
    if n > 1 && i < |CalmPeriods(frames, threshold, n - 1)| {
      e := PeriodComesFrom(frames, threshold, n - 1, i);
    } else {
      e := n - 1;
    }
  }

  lemma {:induction false} PeriodListed(frames: seq<Observation>, threshold: real, n: nat, e: nat)
    requires e < n <= |frames| && EndsRun(frames, Passive(threshold), e)
    requires frames[e].timestamp - frames[RunStart(frames, Passive(threshold), e)].timestamp >= 8.0
    ensures Calm(frames, RunStart(frames, Passive(threshold), e), e) in CalmPeriods(frames, threshold, n)
  {
    hide Calm;
    if e < n - 1 {
      PeriodListed(frames, threshold, n - 1, e);
    }
  }

  /** The fight and rotation candidates are those frames that show one, and no others. */
  lemma {:induction false} PointCandidatesAreExact(frames: seq<Observation>, threshold: real, calm: real, n: nat, c: Candidate)
    requires n <= |frames|
    ensures c in FightFrames(frames, threshold, n) <==>
            c.peak < n && ShowsFight(frames[c.peak], threshold) && c == Around(frames, CombatSpike, c.peak, frames[c.peak].combat)
    ensures c in RotationFrames(frames, threshold, calm, n) <==>
            c.peak < n && ShowsRotation(frames, c.peak, threshold, calm) && c == Around(frames, RotationSpike, c.peak, frames[c.peak].motion)
  {
    hide ShowsFight;
    hide ShowsRotation;
    if n > 0 {
      PointCandidatesAreExact(frames, threshold, calm, n - 1, c);
    }
  }

  // ----- Every candidate fits its frames

  lemma AroundFits(frames: seq<Observation>, kind: Kind, candidates: seq<Candidate>, k: nat, score: real)
    requires kind != LowActivity && k < |frames| && AllFit(frames, kind, candidates)
    ensures AllFit(frames, kind, candidates + [Around(frames, kind, k, score)])
  {
  }

  lemma {:induction false} DeathClustersFit(frames: seq<Observation>, n: nat)
    requires n <= |frames|
    ensures AllFit(frames, DeathReview, DeathClusters(frames, n))
  {
    hide AllFit;
    hide EndsRun;
    if n > 0 {
      DeathClustersFit(frames, n - 1);
      if EndsRun(frames, ShowsDeath, n - 1) {
        var peak := DeathPeak(frames, RunStart(frames, ShowsDeath, n - 1), n - 1);
        AroundFits(frames, DeathReview, DeathClusters(frames, n - 1), peak, frames[peak].combatReport);
      }
    } else {
      NothingFits(frames, DeathReview);
    }
  }

  lemma NothingFits(frames: seq<Observation>, kind: Kind)
    ensures AllFit(frames, kind, [])
  {
  }

  lemma {:induction false} FightFramesFit(frames: seq<Observation>, threshold: real, n: nat)
    requires n <= |frames|
    ensures AllFit(frames, CombatSpike, FightFrames(frames, threshold, n))
  {
    hide AllFit;
    hide ShowsFight;
    if n > 0 {
      FightFramesFit(frames, threshold, n - 1);
      AroundFits(frames, CombatSpike, FightFrames(frames, threshold, n - 1), n - 1, frames[n - 1].combat);
    } else {
      NothingFits(frames, CombatSpike);
    }
  }

  lemma {:induction false} RotationFramesFit(frames: seq<Observation>, threshold: real, calm: real, n: nat)
    requires n <= |frames|
    ensures AllFit(frames, RotationSpike, RotationFrames(frames, threshold, calm, n))
  {
    hide AllFit;
    hide ShowsRotation;
    if n > 0 {
      RotationFramesFit(frames, threshold, calm, n - 1);
      AroundFits(frames, RotationSpike, RotationFrames(frames, threshold, calm, n - 1), n - 1, frames[n - 1].motion);
    } else {
      NothingFits(frames, RotationSpike);
    }
  }

  lemma {:induction false} CalmPeriodsFit(frames: seq<Observation>, threshold: real, n: nat)
    requires Chronological(frames) && n <= |frames|
    ensures AllFit(frames, LowActivity, CalmPeriods(frames, threshold, n))
  {
    hide EndsRun;
    hide Clamp01;
    if n > 0 {
      CalmPeriodsFit(frames, threshold, n - 1);
      var start := RunStart(frames, Passive(threshold), n - 1);
      assert frames[start].timestamp <= frames[(start + n - 1) / 2].timestamp <= frames[n - 1].timestamp;
    }
  }
}
