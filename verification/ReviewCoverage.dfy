/** What the chosen windows say about the frames, and the frames about them, with every threshold,
    reach and distance written out: no window without cause, and nothing notable without a window. */
module ReviewCoverage {
  import opened DeathSelection
  import opened Evidence
  import opened Finite
  import opened GameplayReview
  import opened Observations
  import opened Phases
  import opened ReviewCandidates
  import opened ReviewWindows
  import opened RoundSegments
  import opened Rounding
  import opened WindowOrder
  import opened Windows

  // ----- What a frame shows

  predicate ReportUp(o: Observation) {
    && DeathReport in o.ocrSignals && o.combatReport >= 0.90 && o.hudLayout >= 0.22
    && o.buyPhase < 0.90 && o.scoreboard < 0.80 && o.roundEnd < 0.90
  }

  /** A corroborated fight above 0.20 and above the average of the match by 0.68 deviations. */
  predicate FightUp(frames: seq<Observation>, k: nat, sqrt: real -> real)
    requires k < |frames|
  {
    var o, average := frames[k], Average(frames, Combat);
    && o.combat >= 0.20 && o.combat >= average + Deviation(frames, average, Combat, sqrt) * 0.68
    && o.hudLayout >= 0.22 && (o.killfeedEvent >= 0.18 || o.damage >= 0.82)
    && o.scoreboard < 0.48 && o.buyPhase < 0.48 && o.combatReport < 0.58 && o.roundEnd < 0.48
  }

  /** Little motion, by 0.025 or by half the average, and no screen in the way. */
  predicate CalmUp(frames: seq<Observation>, k: nat)
    requires k < |frames|
  {
    var o := frames[k];
    && (o.motion <= 0.025 || o.motion <= Average(frames, Motion) * 0.5) && o.combat < 0.24 && o.hudLayout >= 0.22
    && o.buyPhase < 0.42 && o.scoreboard < 0.42 && o.combatReport < 0.42 && o.roundEnd < 0.42
  }

  /** A screen that hides the game. */
  predicate ScreenUp(o: Observation) {
    o.buyPhase >= 0.90 || o.scoreboard >= 0.80 || o.combatReport >= 0.90 || o.roundEnd >= 0.90
  }

  predicate ScreenWithin(frames: seq<Observation>, k: nat, seconds: real)
    requires k < |frames|
  {
    exists i :: 0 <= i < |frames| && ScreenUp(frames[i]) &&
                frames[k].timestamp - seconds <= frames[i].timestamp <= frames[k].timestamp + seconds
  }

  /** Much motion without combat, and no screen within four seconds. */
  predicate RotationUp(frames: seq<Observation>, k: nat, sqrt: real -> real)
    requires k < |frames|
  {
    var o, average := frames[k], Average(frames, Motion);
    && o.motion >= 0.22 && o.motion >= average + Deviation(frames, average, Motion, sqrt) * 0.55
    && o.combat <= Average(frames, Combat) + 0.12 && o.hudLayout >= 0.22
    && o.buyPhase < 0.42 && o.scoreboard < 0.42 && o.combatReport < 0.42 && o.roundEnd < 0.42
    && !ScreenWithin(frames, k, 4.0)
  }

  // ----- Runs of frames

  ghost predicate ReportRun(frames: seq<Observation>, s: int, e: int) {
    && 0 <= s <= e < |frames| && (forall i :: s <= i <= e ==> ReportUp(frames[i]))
    && (s > 0 ==> !ReportUp(frames[s - 1])) && (e + 1 < |frames| ==> !ReportUp(frames[e + 1]))
  }

  /** The strongest report of the run within 8 seconds of its start, the earliest on ties. */
  ghost predicate StrongestOf(frames: seq<Observation>, s: int, e: int, p: int)
    requires 0 <= s <= e < |frames|
  {
    && s <= p <= e && frames[p].timestamp - frames[s].timestamp <= 8.0
    && forall i :: s <= i <= e && frames[i].timestamp - frames[s].timestamp <= 8.0 ==>
         frames[i].combatReport <= frames[p].combatReport && (i < p ==> frames[i].combatReport < frames[p].combatReport)
  }

  ghost predicate PeaksRun(frames: seq<Observation>, s: int, e: int, p: int) {
    ReportRun(frames, s, e) && StrongestOf(frames, s, e, p)
  }

  ghost predicate IsReportPeak(frames: seq<Observation>, p: int) {
    0 <= p < |frames| && exists s, e :: PeaksRun(frames, s, e, p)
  }

  ghost predicate CalmRun(frames: seq<Observation>, s: int, e: int) {
    && 0 <= s <= e < |frames| && (forall i :: s <= i <= e ==> CalmUp(frames, i))
    && (s > 0 ==> !CalmUp(frames, s - 1)) && (e + 1 < |frames| ==> !CalmUp(frames, e + 1))
    && frames[e].timestamp - frames[s].timestamp >= 8.0
  }

  /** A calm of 45 seconds counts in full. */
  function CalmScore(seconds: real): real {
    if seconds >= 45.0 then 1.0 else seconds / 45.0
  }

  function NotBelowZero(x: real): real {
    if x < 0.0 then 0.0 else x
  }

  // ----- No window without cause

  ghost predicate IsWindowAt(w: Window, frames: seq<Observation>, k: nat, before: real, after: real, score: real,
                             evidenceBefore: real, evidenceAfter: real)
  {
    && k < |frames| && w.peak == frames[k].timestamp
    && w.start == NotBelowZero(w.peak - before) && w.end == w.peak + after && w.score == Round4(score)
    && w.evidence == EvidenceOf(frames, k, evidenceBefore, evidenceAfter)
  }

  ghost predicate FromReport(w: Window, frames: seq<Observation>) {
    exists p :: IsReportPeak(frames, p) && IsWindowAt(w, frames, p, 10.0, 8.0, frames[p].combatReport, 5.0, 3.0)
  }

  ghost predicate FromFight(w: Window, frames: seq<Observation>, sqrt: real -> real) {
    exists k :: 0 <= k < |frames| && FightUp(frames, k, sqrt) && IsWindowAt(w, frames, k, 8.0, 10.0, frames[k].combat, 4.0, 3.0)
  }

  ghost predicate FromRotation(w: Window, frames: seq<Observation>, sqrt: real -> real) {
    exists k :: 0 <= k < |frames| && RotationUp(frames, k, sqrt) && IsWindowAt(w, frames, k, 6.0, 8.0, frames[k].motion, 4.0, 3.0)
  }

  /** The window is the whole calm, and peaks in its middle. */
  ghost predicate IsCalmWindow(w: Window, frames: seq<Observation>, s: int, e: int) {
    && 0 <= s <= e < |frames| && w.start == frames[s].timestamp && w.end == frames[e].timestamp
    && w.peak == frames[(s + e) / 2].timestamp
    && w.score == Round4(CalmScore(frames[e].timestamp - frames[s].timestamp))
    && w.evidence == EvidenceOf(frames, (s + e) / 2, 4.0, 4.0)
  }

  ghost predicate FromCalm(w: Window, frames: seq<Observation>) {
    exists s, e :: CalmRun(frames, s, e) && IsCalmWindow(w, frames, s, e)
  }

  ghost predicate HasCause(w: Window, frames: seq<Observation>, sqrt: real -> real) {
    match w.kind
    case DeathReview => FromReport(w, frames)
    case CombatSpike => FromFight(w, frames, sqrt)
    case LowActivity => FromCalm(w, frames)
    case RotationSpike => FromRotation(w, frames, sqrt)
  }

  ghost predicate AllHaveCause(windows: seq<Window>, frames: seq<Observation>, sqrt: real -> real) {
    forall i :: 0 <= i < |windows| ==> HasCause(windows[i], frames, sqrt)
  }

  // ----- Nothing notable without a window

  /** The window comes within the padding of the stretch. */
  predicate Touches(w: Window, low: real, high: real, padding: real) {
    low <= w.end + padding && w.start - padding <= high
  }

  /** The kinds that are placed before the kind. */
  predicate IsPlacedBefore(kind: Kind, later: Kind) {
    match later
    case DeathReview => false
    case CombatSpike => kind == DeathReview
    case LowActivity => kind == DeathReview || kind == CombatSpike
    case RotationSpike => kind != RotationSpike
  }

  ghost predicate TouchedBefore(windows: seq<Window>, kind: Kind, low: real, high: real, padding: real) {
    exists i :: 0 <= i < |windows| && IsPlacedBefore(windows[i].kind, kind) && Touches(windows[i], low, high, padding)
  }

  ghost predicate TouchedByOwn(windows: seq<Window>, kind: Kind, low: real, high: real, padding: real, score: real) {
    exists i :: 0 <= i < |windows| && windows[i].kind == kind && Touches(windows[i], low, high, padding) && windows[i].score >= Round4(score)
  }

  ghost predicate AllScore(windows: seq<Window>, kind: Kind, score: real) {
    forall i :: 0 <= i < |windows| && windows[i].kind == kind ==> windows[i].score >= Round4(score)
  }

  /** Why the stretch has no window of its own: it has one, or it is close to a window of a kind
      placed before or to one of its kind that scores as high, or the room is used up by such. */
  ghost predicate Covered(windows: seq<Window>, kind: Kind, low: real, high: real, others: real, own: real, score: real, full: bool) {
    || TouchedBefore(windows, kind, low, high, others)
    || TouchedByOwn(windows, kind, low, high, own, score)
    || (full && AllScore(windows, kind, score))
  }

  ghost predicate UsedUp(windows: seq<Window>, kind: Kind, budget: int, m: int) {
    CountIf(windows, OfKind(kind)) == budget || |windows| == m
  }

  ghost predicate FightsCovered(windows: seq<Window>, frames: seq<Observation>, m: int, sqrt: real -> real) {
    forall k :: 0 <= k < |frames| && FightUp(frames, k, sqrt) ==>
      Covered(windows, CombatSpike, NotBelowZero(frames[k].timestamp - 8.0), frames[k].timestamp + 10.0, 0.0, 6.0,
              frames[k].combat, UsedUp(windows, CombatSpike, CombatBudget(m), m))
  }

  ghost predicate CalmsCovered(windows: seq<Window>, frames: seq<Observation>, m: int) {
    forall s, e :: CalmRun(frames, s, e) ==>
      Covered(windows, LowActivity, frames[s].timestamp, frames[e].timestamp, 4.0, 4.0,
              CalmScore(frames[e].timestamp - frames[s].timestamp), UsedUp(windows, LowActivity, DecisionBudget(m), m))
  }

  ghost predicate RotationsCovered(windows: seq<Window>, frames: seq<Observation>, m: int, sqrt: real -> real) {
    forall k :: 0 <= k < |frames| && RotationUp(frames, k, sqrt) ==>
      Covered(windows, RotationSpike, NotBelowZero(frames[k].timestamp - 6.0), frames[k].timestamp + 8.0, 5.0, 5.0,
              frames[k].motion, |windows| == m)
  }

  /** The report at `q` stands in for the one at `p`: it is the same, or within 23 seconds and
      stronger, or as strong and earlier. */
  predicate StandsIn(frames: seq<Observation>, q: nat, p: nat)
    requires q < |frames| && p < |frames|
  {
    q == p ||
    (-23.0 <= frames[q].timestamp - frames[p].timestamp <= 23.0 &&
     (frames[q].combatReport > frames[p].combatReport || (frames[q].combatReport == frames[p].combatReport && q < p)))
  }

  /** The round of time `t` has a death window that peaks no later. */
  ghost predicate RoundReviewed(windows: seq<Window>, rounds: seq<Segment>, t: real) {
    exists i :: 0 <= i < |windows| && windows[i].kind == DeathReview && windows[i].peak <= t &&
                windows[i].round == RoundFor(rounds, t, 0, 0) == RoundFor(rounds, windows[i].peak, 0, 0)
  }

  ghost predicate ReportCovered(windows: seq<Window>, frames: seq<Observation>, m: int, rounds: seq<Segment>, p: nat)
    requires p < |frames|
  {
    exists q :: IsReportPeak(frames, q) && StandsIn(frames, q, p) &&
                (CountIf(windows, OfKind(DeathReview)) == DeathBudget(m) || RoundReviewed(windows, rounds, frames[q].timestamp))
  }

  ghost predicate ReportsCovered(windows: seq<Window>, frames: seq<Observation>, m: int, rounds: seq<Segment>) {
    forall p :: IsReportPeak(frames, p) ==> ReportCovered(windows, frames, m, rounds, p)
  }

  // ----- The runs are those of the candidates

  lemma {:induction false} ReportIs(o: Observation)
    ensures ReportUp(o) <==> ShowsDeath(o)
  {
  }

  lemma {:induction false} RunIsReportRun(frames: seq<Observation>, e: nat)
    requires e < |frames| && EndsRun(frames, ShowsDeath, e)
    ensures ReportRun(frames, RunStart(frames, ShowsDeath, e), e)
  {
    forall o ensures ReportUp(o) <==> ShowsDeath(o) {
      ReportIs(o);
    }
    hide ReportUp;
    hide ShowsDeath;
  }

  lemma {:induction false} ReportRunIsRun(frames: seq<Observation>, s: nat, e: nat)
    requires ReportRun(frames, s, e)
    ensures EndsRun(frames, ShowsDeath, e) && RunStart(frames, ShowsDeath, e) == s
  {
    forall o ensures ReportUp(o) <==> ShowsDeath(o) {
      ReportIs(o);
    }
    hide ReportUp;
    hide ShowsDeath;
    RunStartIs(frames, ShowsDeath, s, e);
  }

  lemma {:induction false} PeakIsStrongest(frames: seq<Observation>, s: nat, e: nat)
    requires s <= e < |frames|
    ensures StrongestOf(frames, s, e, DeathPeak(frames, s, e))
  {
    DeathPeakIsStrongest(frames, s, e, s);
    forall i | s <= i <= e && frames[i].timestamp - frames[s].timestamp <= 8.0
      ensures var p := DeathPeak(frames, s, e);
              frames[i].combatReport <= frames[p].combatReport && (i < p ==> frames[i].combatReport < frames[p].combatReport)
    {
      DeathPeakIsStrongest(frames, s, e, i);
    }
  }

  lemma {:induction false} StrongestIsUnique(frames: seq<Observation>, s: int, e: int, p: int, q: int)
    requires 0 <= s <= e < |frames| && StrongestOf(frames, s, e, p) && StrongestOf(frames, s, e, q)
    ensures p == q
  {
  }

  /** The report peaks are those of the clusters. */
  lemma {:induction false} PeakIsCluster(frames: seq<Observation>, p: nat)
    requires IsReportPeak(frames, p)
    ensures Around(frames, DeathReview, p, frames[p].combatReport) in DeathClusters(frames, |frames|)
  {
    var s, e :| PeaksRun(frames, s, e, p);
    ReportRunIsRun(frames, s, e);
    PeakIsStrongest(frames, s, e);
    StrongestIsUnique(frames, s, e, p, DeathPeak(frames, s, e));
    hide *;
    ClusterListed(frames, |frames|, e);
  }

  lemma {:induction false} ClusterIsPeak(frames: seq<Observation>, c: Candidate)
    requires c in DeathClusters(frames, |frames|)
    ensures IsReportPeak(frames, c.peak) && c == Around(frames, DeathReview, c.peak, frames[c.peak].combatReport)
  {
    var i :| 0 <= i < |DeathClusters(frames, |frames|)| && DeathClusters(frames, |frames|)[i] == c;
    var e := ClusterComesFrom(frames, |frames|, i);
    var s := RunStart(frames, ShowsDeath, e);
    RunIsReportRun(frames, e);
    PeakIsStrongest(frames, s, e);
    assert c.peak == DeathPeak(frames, s, e);
    hide DeathClusters;
    hide RunStart;
    hide EndsRun;
    hide DeathPeak;
    assert PeaksRun(frames, s, e, c.peak);
  }

  /** A frame that shows a combat report lies in a run that peaks. */
  lemma {:induction false} ReportHasPeak(frames: seq<Observation>, k: nat) returns (p: nat)
    requires k < |frames| && ReportUp(frames[k])
    ensures IsReportPeak(frames, p)
  {
    ReportIs(frames[k]);
    var e := EveryFrameIsInARun(frames, ShowsDeath, k);
    var s := RunStart(frames, ShowsDeath, e);
    RunIsReportRun(frames, e);
    PeakIsStrongest(frames, s, e);
    p := DeathPeak(frames, s, e);
    assert PeaksRun(frames, s, e, p);
  }

  lemma {:induction false} CalmIs(frames: seq<Observation>, k: nat)
    requires k < |frames|
    ensures CalmUp(frames, k) <==> Passive(CalmThreshold(frames))(frames[k])
  {
  }

  lemma {:induction false} RunIsCalmRun(frames: seq<Observation>, e: nat)
    requires e < |frames| && EndsRun(frames, Passive(CalmThreshold(frames)), e)
    requires frames[e].timestamp - frames[RunStart(frames, Passive(CalmThreshold(frames)), e)].timestamp >= 8.0
    ensures CalmRun(frames, RunStart(frames, Passive(CalmThreshold(frames)), e), e)
  {
    forall k | 0 <= k < |frames| ensures CalmUp(frames, k) <==> Passive(CalmThreshold(frames))(frames[k]) {
      CalmIs(frames, k);
    }
    hide CalmUp;
    hide Passive;
    hide CalmThreshold;
  }

  lemma {:induction false} CalmRunIsRun(frames: seq<Observation>, s: nat, e: nat)
    requires CalmRun(frames, s, e)
    ensures EndsRun(frames, Passive(CalmThreshold(frames)), e) && RunStart(frames, Passive(CalmThreshold(frames)), e) == s
  {
    forall k | 0 <= k < |frames| ensures CalmUp(frames, k) <==> Passive(CalmThreshold(frames))(frames[k]) {
      CalmIs(frames, k);
    }
    hide CalmUp;
    hide Passive;
    hide CalmThreshold;
    RunStartIs(frames, Passive(CalmThreshold(frames)), s, e);
  }

  lemma {:induction false} CalmRunIsPeriod(frames: seq<Observation>, s: nat, e: nat)
    requires CalmRun(frames, s, e)
    ensures Calm(frames, s, e) in CalmPeriods(frames, CalmThreshold(frames), |frames|)
  {
    CalmRunIsRun(frames, s, e);
    PeriodListed(frames, CalmThreshold(frames), |frames|, e);
  }

  lemma {:induction false} PeriodIsCalmRun(frames: seq<Observation>, c: Candidate) returns (s: nat, e: nat)
    requires c in CalmPeriods(frames, CalmThreshold(frames), |frames|)
    ensures CalmRun(frames, s, e) && c == Calm(frames, s, e)
  {
    var i :| 0 <= i < |CalmPeriods(frames, CalmThreshold(frames), |frames|)| && CalmPeriods(frames, CalmThreshold(frames), |frames|)[i] == c;
    e := PeriodComesFrom(frames, CalmThreshold(frames), |frames|, i);
    s := RunStart(frames, Passive(CalmThreshold(frames)), e);
    RunIsCalmRun(frames, e);
  }

  lemma {:induction false} FightIs(frames: seq<Observation>, k: nat, sqrt: real -> real)
    requires k < |frames|
    ensures FightUp(frames, k, sqrt) <==> ShowsFight(frames[k], FightThreshold(frames, sqrt))
  {
    hide Average;
    hide Deviation;
  }

  lemma {:induction false} RotationIs(frames: seq<Observation>, k: nat, sqrt: real -> real)
    requires k < |frames|
    ensures RotationUp(frames, k, sqrt) <==> ShowsRotation(frames, k, RotationThreshold(frames, sqrt), CombatCeiling(frames))
  {
    hide Average;
    hide Deviation;
    ScreenIs(frames, k);
    hide OverlayNear;
    hide ScreenWithin;
  }

  lemma {:induction false} ScreenIs(frames: seq<Observation>, k: nat)
    requires k < |frames|
    ensures ScreenWithin(frames, k, 4.0) <==> OverlayNear(frames, k, 4.0)
  {
    if OverlayNear(frames, k, 4.0) {
      var i :| 0 <= i < |frames| && Abs(frames[i].timestamp - frames[k].timestamp) <= 4.0 && HasOverlay(frames[i]);
      assert ScreenUp(frames[i]);
    }
    if ScreenWithin(frames, k, 4.0) {
      var i :| 0 <= i < |frames| && ScreenUp(frames[i]) &&
               frames[k].timestamp - 4.0 <= frames[i].timestamp <= frames[k].timestamp + 4.0;
      assert HasOverlay(frames[i]);
    }
  }

  // ----- Windows of a stage have a cause

  lemma {:induction false} ShownAt(w: Window, frames: seq<Observation>, kind: Kind, k: nat, score: real)
    requires Timeline(frames) && kind != LowActivity && k < |frames| && Shows(w, frames, kind, Around(frames, kind, k, score))
    ensures IsWindowAt(w, frames, k, Lead(kind), Tail(kind), score, EvidenceBefore(kind), EvidenceAfter(kind)) && w.kind == kind
  {
    PublishedAsIs(frames, kind, Around(frames, kind, k, score));
    hide Published;
    hide EvidenceOf;
    hide Round4;
  }

  lemma {:induction false} ReportHasCause(w: Window, frames: seq<Observation>, c: Candidate)
    requires Timeline(frames) && c in DeathClusters(frames, |frames|) && Shows(w, frames, DeathReview, c)
    ensures w.kind == DeathReview && FromReport(w, frames)
  {
    hide Shows;
    hide PeaksRun;
    hide DeathClusters;
    hide IsWindowAt;
    ClusterIsPeak(frames, c);
    ShownAt(w, frames, DeathReview, c.peak, frames[c.peak].combatReport);
  }

  lemma {:induction false} FightHasCause(w: Window, frames: seq<Observation>, sqrt: real -> real, c: Candidate)
    requires Timeline(frames) && c in FightFrames(frames, FightThreshold(frames, sqrt), |frames|) && Shows(w, frames, CombatSpike, c)
    ensures w.kind == CombatSpike && FromFight(w, frames, sqrt)
  {
    hide Shows;
    hide FightFrames;
    hide FightUp;
    hide IsWindowAt;
    PointCandidatesAreExact(frames, FightThreshold(frames, sqrt), 0.0, |frames|, c);
    FightIs(frames, c.peak, sqrt);
    ShownAt(w, frames, CombatSpike, c.peak, frames[c.peak].combat);
  }

  lemma {:induction false} RotationHasCause(w: Window, frames: seq<Observation>, sqrt: real -> real, c: Candidate)
    requires Timeline(frames) && c in RotationFrames(frames, RotationThreshold(frames, sqrt), CombatCeiling(frames), |frames|)
    requires Shows(w, frames, RotationSpike, c)
    ensures w.kind == RotationSpike && FromRotation(w, frames, sqrt)
  {
    hide Shows;
    hide RotationFrames;
    hide RotationUp;
    hide ShowsRotation;
    hide IsWindowAt;
    PointCandidatesAreExact(frames, RotationThreshold(frames, sqrt), CombatCeiling(frames), |frames|, c);
    RotationIs(frames, c.peak, sqrt);
    ShownAt(w, frames, RotationSpike, c.peak, frames[c.peak].motion);
  }

  lemma {:induction false} CalmHasCause(w: Window, frames: seq<Observation>, c: Candidate)
    requires Timeline(frames) && c in CalmPeriods(frames, CalmThreshold(frames), |frames|) && Shows(w, frames, LowActivity, c)
    ensures w.kind == LowActivity && FromCalm(w, frames)
  {
    var s, e := PeriodIsCalmRun(frames, c);
    hide CalmUp;
    hide CalmPeriods;
    hide EvidenceOf;
    hide Round4;
    CalmScoreIs(frames[e].timestamp - frames[s].timestamp);
    assert IsCalmWindow(w, frames, s, e);
  }

  lemma {:induction false} CalmScoreIs(seconds: real)
    requires seconds >= 0.0
    ensures Clamp01(seconds / 45.0) == CalmScore(seconds)
  {
  }

  lemma {:induction false} BuiltShows(windows: seq<Window>, frames: seq<Observation>, kind: Kind, candidates: seq<Candidate>, existing: seq<Window>, limit: int, k: nat)
    returns (c: Candidate)
    requires Built(windows, frames, kind, candidates, existing, limit) && k < |windows|
    ensures c in candidates && Shows(windows[k], frames, kind, c)
  {
    hide Shows;
    hide GreedyChoice;
    c := GreedyShowsCandidates(windows, frames, kind, candidates, existing, limit, k);
  }

  /** A cause does not depend on ID or round. */
  lemma {:induction false} CauseCarries(a: Window, b: Window, frames: seq<Observation>, sqrt: real -> real)
    requires HasCause(a, frames, sqrt) && b == a.(id := b.id, round := b.round)
    ensures HasCause(b, frames, sqrt)
  {
    hide PeaksRun;
    hide CalmRun;
    hide FightUp;
    hide RotationUp;
    hide EvidenceOf;
    hide Round4;
    match a.kind
    case DeathReview =>
      var p :| IsReportPeak(frames, p) && IsWindowAt(a, frames, p, 10.0, 8.0, frames[p].combatReport, 5.0, 3.0);
      assert IsWindowAt(b, frames, p, 10.0, 8.0, frames[p].combatReport, 5.0, 3.0);
    case CombatSpike =>
      var k :| 0 <= k < |frames| && FightUp(frames, k, sqrt) && IsWindowAt(a, frames, k, 8.0, 10.0, frames[k].combat, 4.0, 3.0);
      assert IsWindowAt(b, frames, k, 8.0, 10.0, frames[k].combat, 4.0, 3.0);
    case LowActivity =>
      var s, e :| CalmRun(frames, s, e) && IsCalmWindow(a, frames, s, e);
      assert IsCalmWindow(b, frames, s, e);
    case RotationSpike =>
      var k :| 0 <= k < |frames| && RotationUp(frames, k, sqrt) && IsWindowAt(a, frames, k, 6.0, 8.0, frames[k].motion, 4.0, 3.0);
      assert IsWindowAt(b, frames, k, 6.0, 8.0, frames[k].motion, 4.0, 3.0);
  }

  ghost function Caused(frames: seq<Observation>, sqrt: real -> real): (p: Window -> bool)
    ensures forall w :: p(w) == HasCause(w, frames, sqrt)
    ensures forall a, b :: SameButId(a, b) ==> p(a) == p(b)
  {
    assert forall a, b | SameButId(a, b) :: HasCause(a, frames, sqrt) == HasCause(b, frames, sqrt) by {
      forall a, b | SameButId(a, b) ensures HasCause(a, frames, sqrt) == HasCause(b, frames, sqrt) {
        CauseOfSame(a, b, frames, sqrt);
      }
    }
    w => HasCause(w, frames, sqrt)
  }

  lemma {:induction false} CauseOfSame(a: Window, b: Window, frames: seq<Observation>, sqrt: real -> real)
    requires SameButId(a, b)
    ensures HasCause(a, frames, sqrt) == HasCause(b, frames, sqrt)
  {
    hide HasCause;
    if HasCause(a, frames, sqrt) {
      CauseCarries(a, b, frames, sqrt);
    }
    if HasCause(b, frames, sqrt) {
      CauseCarries(b, a, frames, sqrt);
    }
  }

  // ----- Windows of a stage among all windows

  /** Every window of the part is among the windows, but for its ID. */
  ghost predicate Includes(windows: seq<Window>, part: seq<Window>) {
    forall i :: 0 <= i < |part| ==> Found(windows, part[i])
  }

  /** Every window of the kind is of the part. */
  ghost predicate KindFrom(windows: seq<Window>, kind: Kind, part: seq<Window>) {
    forall j :: 0 <= j < |windows| && windows[j].kind == kind ==> Found(part, windows[j])
  }

  lemma {:induction false} ArrangedIncludes(windows: seq<Window>, all: seq<Window>)
    requires Arranged(windows, all)
    ensures Includes(windows, all)
  {
    hide Arranged;
    forall i | 0 <= i < |all| ensures Found(windows, all[i]) {
      var j := ArrangedFinds(windows, all, i);
    }
  }

  lemma {:induction false} IncludesNothing(windows: seq<Window>)
    ensures Includes(windows, [])
  {
  }

  lemma {:induction false} IncludesPart(windows: seq<Window>, a: seq<Window>, b: seq<Window>)
    requires Includes(windows, a + b)
    ensures Includes(windows, a) && Includes(windows, b)
  {
    hide Found;
    forall i | 0 <= i < |a| ensures Found(windows, a[i]) {
      assert (a + b)[i] == a[i];
    }
    forall i | 0 <= i < |b| ensures Found(windows, b[i]) {
      assert (a + b)[|a| + i] == b[i];
    }
  }

  lemma {:induction false} ArrangedKindFrom(windows: seq<Window>, before: seq<Window>, part: seq<Window>, after: seq<Window>, kind: Kind)
    requires Arranged(windows, before + part + after)
    requires forall i :: 0 <= i < |before| ==> before[i].kind != kind
    requires forall i :: 0 <= i < |after| ==> after[i].kind != kind
    ensures KindFrom(windows, kind, part)
  {
    hide Arranged;
    forall j | 0 <= j < |windows| && windows[j].kind == kind ensures Found(part, windows[j]) {
      var i := ArrangedComesFrom(windows, before + part + after, j);
      assert |before| <= i < |before| + |part| && part[i - |before|] == (before + part + after)[i];
      assert SameButId(part[i - |before|], windows[j]);
    }
  }

  // ----- What a stage leaves out is covered

  /** What the stage that placed the windows of a kind knows of them. */
  ghost predicate Stage(windows: seq<Window>, existing: seq<Window>, stage: seq<Window>, kind: Kind) {
    && Includes(windows, existing) && Includes(windows, stage) && KindFrom(windows, kind, stage)
    && AllOfKind(stage, kind)
    && forall i :: 0 <= i < |existing| ==> IsPlacedBefore(existing[i].kind, kind)
  }

  lemma {:induction false} ExistingTouches(windows: seq<Window>, existing: seq<Window>, stage: seq<Window>, kind: Kind, low: real, high: real)
    requires Stage(windows, existing, stage, kind) && OverlapsSome(existing, low, high, PadOthers(kind))
    ensures TouchedBefore(windows, kind, low, high, PadOthers(kind))
  {
    var i :| 0 <= i < |existing| && Overlaps(existing[i], low, high, PadOthers(kind));
    assert Found(windows, existing[i]);
    var j :| 0 <= j < |windows| && SameButId(windows[j], existing[i]);
    assert Touches(windows[j], low, high, PadOthers(kind));
  }

  lemma {:induction false} OwnTouches(windows: seq<Window>, existing: seq<Window>, stage: seq<Window>, kind: Kind, k: nat, low: real, high: real, score: real)
    requires Stage(windows, existing, stage, kind) && k < |stage|
    requires Overlaps(stage[k], low, high, PadOwn(kind)) && stage[k].score >= Round4(score)
    ensures TouchedByOwn(windows, kind, low, high, PadOwn(kind), score)
  {
    hide Round4;
    hide Stage;
    var j := StageFound(windows, existing, stage, kind, k);
    assert Touches(windows[j], low, high, PadOwn(kind));
  }

  lemma {:induction false} StageFound(windows: seq<Window>, existing: seq<Window>, stage: seq<Window>, kind: Kind, k: nat) returns (j: nat)
    requires Stage(windows, existing, stage, kind) && k < |stage|
    ensures j < |windows| && SameButId(windows[j], stage[k]) && windows[j].kind == kind
  {
    assert Found(windows, stage[k]);
    j :| 0 <= j < |windows| && SameButId(windows[j], stage[k]);
  }

  lemma {:induction false} AllOutdo(windows: seq<Window>, existing: seq<Window>, stage: seq<Window>, kind: Kind, score: real)
    requires Stage(windows, existing, stage, kind) && forall k :: 0 <= k < |stage| ==> stage[k].score >= Round4(score)
    ensures AllScore(windows, kind, score)
  {
    hide Round4;
    forall j | 0 <= j < |windows| && windows[j].kind == kind ensures windows[j].score >= Round4(score) {
      assert Found(stage, windows[j]);
    }
  }

  lemma {:induction false} ShownOverlaps(w: Window, frames: seq<Observation>, kind: Kind, c: Candidate)
    requires Timeline(frames) && Fits(frames, kind, c) && Shows(w, frames, kind, c)
    ensures Overlaps(w, c.low, c.high, PadOwn(kind)) && w.score == Round4(c.score)
  {
    PublishedAsIs(frames, kind, c);
    hide Published;
    hide EvidenceOf;
    hide Round4;
    hide Timeline;
  }

  lemma {:induction false} OutdoneInScore(frames: seq<Observation>, kind: Kind, candidates: seq<Candidate>, stage: seq<Window>, c: Candidate)
    requires forall k :: 0 <= k < |stage| ==> Outdoes(frames, kind, candidates, stage[k], c)
    ensures forall k :: 0 <= k < |stage| ==> stage[k].score >= Round4(c.score)
  {
    hide Outdoes;
    hide Round4;
    forall k | 0 <= k < |stage| ensures stage[k].score >= Round4(c.score) {
      OutdoesInScore(frames, kind, candidates, stage[k], c);
    }
  }

  lemma {:induction false} AnsweredIsCovered(windows: seq<Window>, frames: seq<Observation>, kind: Kind, candidates: seq<Candidate>,
                                             existing: seq<Window>, stage: seq<Window>, limit: int, c: Candidate, full: bool)
    requires Timeline(frames) && Fits(frames, kind, c) && Stage(windows, existing, stage, kind)
    requires Answered(stage, frames, kind, candidates, existing, limit, c) && (|stage| >= limit ==> full)
    ensures Covered(windows, kind, c.low, c.high, PadOthers(kind), PadOwn(kind), c.score, full)
  {
    hide Stage;
    hide Shows;
    hide Outdoes;
    hide Overlaps;
    hide OverlapsSome;
    hide Round4;
    hide Timeline;
    hide Fits;
    hide TouchedBefore;
    hide TouchedByOwn;
    hide AllScore;
    if IsShown(stage, frames, kind, c) {
      var k :| 0 <= k < |stage| && Shows(stage[k], frames, kind, c);
      ShownOverlaps(stage[k], frames, kind, c);
      OwnTouches(windows, existing, stage, kind, k, c.low, c.high, c.score);
    } else if OverlapsSome(existing, c.low, c.high, PadOthers(kind)) {
      ExistingTouches(windows, existing, stage, kind, c.low, c.high);
    } else if |stage| == limit && forall k :: 0 <= k < |stage| ==> Outdoes(frames, kind, candidates, stage[k], c) {
      OutdoneInScore(frames, kind, candidates, stage, c);
      AllOutdo(windows, existing, stage, kind, c.score);
    } else {
      var k :| 0 <= k < |stage| && Overlaps(stage[k], c.low, c.high, PadOwn(kind)) && Outdoes(frames, kind, candidates, stage[k], c);
      OutdoesInScore(frames, kind, candidates, stage[k], c);
      OwnTouches(windows, existing, stage, kind, k, c.low, c.high, c.score);
    }
  }

  /** A candidate of a stage is covered; with no room left, by there being none. */
  lemma {:induction false} StageCovers(windows: seq<Window>, frames: seq<Observation>, kind: Kind, candidates: seq<Candidate>,
                                       existing: seq<Window>, stage: seq<Window>, limit: int, c: Candidate, full: bool)
    requires Timeline(frames) && Fits(frames, kind, c) && c in candidates && Stage(windows, existing, stage, kind)
    requires Built(stage, frames, kind, candidates, existing, limit) && (|stage| >= limit ==> full)
    ensures Covered(windows, kind, c.low, c.high, PadOthers(kind), PadOwn(kind), c.score, full)
  {
    hide Covered;
    hide Answered;
    hide GreedyChoice;
    hide Stage;
    hide Fits;
    hide Timeline;
    if limit <= 0 {
      NoneOfKind(windows, existing, stage, kind, c, full);
    } else {
      GreedyGoesByScore(stage, frames, kind, candidates, existing, limit, c);
      AnsweredIsCovered(windows, frames, kind, candidates, existing, stage, limit, c, full);
    }
  }

  lemma {:induction false} NoneOfKind(windows: seq<Window>, existing: seq<Window>, stage: seq<Window>, kind: Kind, c: Candidate, full: bool)
    requires Stage(windows, existing, stage, kind) && stage == [] && full
    ensures Covered(windows, kind, c.low, c.high, PadOthers(kind), PadOwn(kind), c.score, full)
  {
    hide Round4;
    AllOutdo(windows, existing, stage, kind, c.score);
  }

  // ----- The review covers the frames

  /** The stages among the windows of the review. */
  ghost predicate StagesIn(windows: seq<Window>, s: Stages) {
    && Stage(windows, [], s.deaths, DeathReview)
    && Stage(windows, s.deaths, s.fights, CombatSpike)
    && Stage(windows, s.deaths + s.fights, s.calms, LowActivity)
    && Stage(windows, s.deaths + s.fights + s.calms, s.rotations, RotationSpike)
  }

  lemma {:induction false} StagesAreIn(windows: seq<Window>, s: Stages)
    requires Arranged(windows, s.All())
    requires AllOfKind(s.deaths, DeathReview) && AllOfKind(s.fights, CombatSpike)
    requires AllOfKind(s.calms, LowActivity) && AllOfKind(s.rotations, RotationSpike)
    ensures StagesIn(windows, s)
  {
    hide Arranged;
    hide Includes;
    hide KindFrom;
    var d, f, c, r := s.deaths, s.fights, s.calms, s.rotations;
    assert d + f + c + r == [] + d + (f + c + r) == d + f + (c + r) == (d + f) + c + r == (d + f + c) + r + [];
    ArrangedIncludes(windows, d + f + c + r);
    IncludesPart(windows, d + f + c, r);
    IncludesPart(windows, d + f, c);
    IncludesPart(windows, d, f);
    IncludesNothing(windows);
    ArrangedKindFrom(windows, [], d, f + c + r, DeathReview);
    ArrangedKindFrom(windows, d, f, c + r, CombatSpike);
    ArrangedKindFrom(windows, d + f, c, r, LowActivity);
    ArrangedKindFrom(windows, d + f + c, r, [], RotationSpike);
  }

  /** How many windows each stage placed. */
  ghost predicate Counted(windows: seq<Window>, s: Stages) {
    && |windows| == |s.deaths| + |s.fights| + |s.calms| + |s.rotations|
    && CountIf(windows, OfKind(DeathReview)) == |s.deaths|
    && CountIf(windows, OfKind(CombatSpike)) == |s.fights|
    && CountIf(windows, OfKind(LowActivity)) == |s.calms|
  }

  lemma {:induction false} StagesAreCounted(windows: seq<Window>, s: Stages)
    requires Arranged(windows, s.All())
    requires AllOfKind(s.deaths, DeathReview) && AllOfKind(s.fights, CombatSpike)
    requires AllOfKind(s.calms, LowActivity) && AllOfKind(s.rotations, RotationSpike)
    ensures Counted(windows, s)
  {
    hide Arranged;
    hide CountIf;
    hide AllOfKind;
    ArrangedWindows(windows, s.All());
    StageCounts(s, DeathReview);
    StageCounts(s, CombatSpike);
    StageCounts(s, LowActivity);
    KindsKept(windows, s.All(), DeathReview);
    KindsKept(windows, s.All(), CombatSpike);
    KindsKept(windows, s.All(), LowActivity);
  }

  lemma {:induction false} FightsAreCovered(windows: seq<Window>, s: Stages, frames: seq<Observation>, m: int, sqrt: real -> real)
    requires Timeline(frames) && StagesIn(windows, s) && Counted(windows, s) && |windows| <= m && |s.fights| <= CombatBudget(m)
    requires Built(s.fights, frames, CombatSpike, FightFrames(frames, FightThreshold(frames, sqrt), |frames|),
                   s.deaths, AtMost(CombatBudget(m), m - |s.deaths|))
    ensures FightsCovered(windows, frames, m, sqrt)
  {
    hide Covered;
    hide Built;
    hide Timeline;
    hide Stage;
    hide CountIf;
    hide FightFrames;
    hide FightUp;
    hide ShowsFight;
    FightFramesFit(frames, FightThreshold(frames, sqrt), |frames|);
    var limit := AtMost(CombatBudget(m), m - |s.deaths|);
    var full := UsedUp(windows, CombatSpike, CombatBudget(m), m);
    assert |s.fights| >= limit ==> full;
    forall k | 0 <= k < |frames| && FightUp(frames, k, sqrt)
      ensures Covered(windows, CombatSpike, NotBelowZero(frames[k].timestamp - 8.0), frames[k].timestamp + 10.0, 0.0, 6.0, frames[k].combat, full)
    {
      var c := Around(frames, CombatSpike, k, frames[k].combat);
      FightIs(frames, k, sqrt);
      PointCandidatesAreExact(frames, FightThreshold(frames, sqrt), 0.0, |frames|, c);
      FitsMember(frames, CombatSpike, FightFrames(frames, FightThreshold(frames, sqrt), |frames|), c);
      StageCovers(windows, frames, CombatSpike, FightFrames(frames, FightThreshold(frames, sqrt), |frames|), s.deaths, s.fights, limit, c, full);
    }
  }

  lemma {:induction false} FitsMember(frames: seq<Observation>, kind: Kind, candidates: seq<Candidate>, c: Candidate)
    requires AllFit(frames, kind, candidates) && c in candidates
    ensures Fits(frames, kind, c)
  {
    hide Fits;
  }

  lemma {:induction false} RotationsAreCovered(windows: seq<Window>, s: Stages, frames: seq<Observation>, m: int, sqrt: real -> real)
    requires Timeline(frames) && StagesIn(windows, s) && Counted(windows, s) && |windows| <= m
    requires Built(s.rotations, frames, RotationSpike,
                   RotationFrames(frames, RotationThreshold(frames, sqrt), CombatCeiling(frames), |frames|),
                   s.deaths + s.fights + s.calms, m - |s.deaths| - |s.fights| - |s.calms|)
    ensures RotationsCovered(windows, frames, m, sqrt)
  {
    hide Covered;
    hide Built;
    hide Timeline;
    hide Stage;
    hide CountIf;
    hide RotationFrames;
    hide RotationUp;
    hide ShowsRotation;
    var candidates := RotationFrames(frames, RotationThreshold(frames, sqrt), CombatCeiling(frames), |frames|);
    RotationFramesFit(frames, RotationThreshold(frames, sqrt), CombatCeiling(frames), |frames|);
    var limit := m - |s.deaths| - |s.fights| - |s.calms|;
    forall k | 0 <= k < |frames| && RotationUp(frames, k, sqrt)
      ensures Covered(windows, RotationSpike, NotBelowZero(frames[k].timestamp - 6.0), frames[k].timestamp + 8.0, 5.0, 5.0, frames[k].motion, |windows| == m)
    {
      var c := Around(frames, RotationSpike, k, frames[k].motion);
      RotationIs(frames, k, sqrt);
      PointCandidatesAreExact(frames, RotationThreshold(frames, sqrt), CombatCeiling(frames), |frames|, c);
      FitsMember(frames, RotationSpike, candidates, c);
      StageCovers(windows, frames, RotationSpike, candidates, s.deaths + s.fights + s.calms, s.rotations, limit, c, |windows| == m);
    }
  }

  lemma {:induction false} CalmsAreCovered(windows: seq<Window>, s: Stages, frames: seq<Observation>, m: int)
    requires Timeline(frames) && StagesIn(windows, s) && Counted(windows, s) && |windows| <= m && |s.calms| <= DecisionBudget(m)
    requires Built(s.calms, frames, LowActivity, CalmPeriods(frames, CalmThreshold(frames), |frames|),
                   s.deaths + s.fights, AtMost(DecisionBudget(m), m - |s.deaths| - |s.fights|))
    ensures CalmsCovered(windows, frames, m)
  {
    hide Covered;
    hide Built;
    hide Timeline;
    hide Stage;
    hide CountIf;
    hide CalmPeriods;
    hide CalmThreshold;
    hide CalmRun;
    assert Chronological(frames) by {
      TimelineIsChronological(frames);
    }
    hide Chronological;
    var candidates := CalmPeriods(frames, CalmThreshold(frames), |frames|);
    CalmPeriodsFit(frames, CalmThreshold(frames), |frames|);
    var limit := AtMost(DecisionBudget(m), m - |s.deaths| - |s.fights|);
    var full := UsedUp(windows, LowActivity, DecisionBudget(m), m);
    assert |s.calms| >= limit ==> full;
    forall b, e | CalmRun(frames, b, e) ensures 0 <= b <= e < |frames| {
      CalmRunBounds(frames, b, e);
    }
    forall b, e | 0 <= b <= e < |frames| && CalmRun(frames, b, e)
      ensures Covered(windows, LowActivity, frames[b].timestamp, frames[e].timestamp, 4.0, 4.0,
                      CalmScore(frames[e].timestamp - frames[b].timestamp), full)
    {
      CalmRunBounds(frames, b, e);
      CalmRunIsPeriod(frames, b, e);
      CalmScoreIs(frames[e].timestamp - frames[b].timestamp);
      FitsMember(frames, LowActivity, candidates, Calm(frames, b, e));
      StageCovers(windows, frames, LowActivity, candidates, s.deaths + s.fights, s.calms, limit, Calm(frames, b, e), full);
    }
  }

  lemma {:induction false} TimelineIsChronological(frames: seq<Observation>)
    requires Timeline(frames)
    ensures Chronological(frames)
  {
  }

  lemma {:induction false} CalmRunBounds(frames: seq<Observation>, s: int, e: int)
    requires CalmRun(frames, s, e)
    ensures 0 <= s <= e < |frames| && frames[e].timestamp - frames[s].timestamp >= 8.0
  {
  }

  // ----- Combat reports

  /** The report of some candidate stands in for the one at `p`. */
  lemma {:induction false} CandidateStandsIn(candidates: seq<Window>, frames: seq<Observation>, p: nat) returns (k: nat, q: nat)
    requires Timeline(frames) && Built(candidates, frames, DeathReview, DeathClusters(frames, |frames|), [], |frames|)
    requires IsReportPeak(frames, p)
    ensures k < |candidates| && IsReportPeak(frames, q) && StandsIn(frames, q, p)
    ensures candidates[k].peak == frames[q].timestamp
  {
    hide PeaksRun;
    hide DeathClusters;
    hide Around;
    hide GreedyChoice;
    hide Shows;
    hide StandsIn;
    hide Outdoes;
    hide Overlaps;
    var c := Around(frames, DeathReview, p, frames[p].combatReport);
    var clusters := DeathClusters(frames, |frames|);
    PeakIsCluster(frames, p);
    FewClusters(frames, |frames|);
    GreedyGoesByScore(candidates, frames, DeathReview, clusters, [], |frames|, c);
    if IsShown(candidates, frames, DeathReview, c) {
      k :| 0 <= k < |candidates| && Shows(candidates[k], frames, DeathReview, c);
      q := p;
      ShownPeak(candidates[k], frames, c, p);
      StandsForItself(frames, p);
    } else {
      k :| 0 <= k < |candidates| && Overlaps(candidates[k], c.low, c.high, PadOwn(DeathReview)) && Outdoes(frames, DeathReview, clusters, candidates[k], c);
      q := OutdoneStandsIn(frames, candidates[k], p);
    }
  }

  lemma {:induction false} StandsForItself(frames: seq<Observation>, p: nat)
    requires p < |frames|
    ensures StandsIn(frames, p, p)
  {
  }

  lemma {:induction false} ShownPeak(w: Window, frames: seq<Observation>, c: Candidate, p: nat)
    requires p < |frames| && c == Around(frames, DeathReview, p, frames[p].combatReport) && Shows(w, frames, DeathReview, c)
    ensures w.peak == frames[p].timestamp
  {
    hide EvidenceOf;
    hide Published;
    hide Round4;
  }

  lemma {:induction false} OutdoneStandsIn(frames: seq<Observation>, w: Window, p: nat) returns (q: nat)
    requires Timeline(frames) && IsReportPeak(frames, p)
    requires var c := Around(frames, DeathReview, p, frames[p].combatReport);
             Overlaps(w, c.low, c.high, PadOwn(DeathReview)) && Outdoes(frames, DeathReview, DeathClusters(frames, |frames|), w, c)
    ensures IsReportPeak(frames, q) && StandsIn(frames, q, p) && w.peak == frames[q].timestamp
  {
    hide PeaksRun;
    hide DeathClusters;
    hide Shows;
    var c := Around(frames, DeathReview, p, frames[p].combatReport);
    var d :| d in DeathClusters(frames, |frames|) && Shows(w, frames, DeathReview, d) && d.score >= c.score &&
             (d.score == c.score ==> d.peak <= c.peak);
    ClusterIsPeak(frames, d);
    q := d.peak;
    CloseReports(frames, w, p, q);
  }

  lemma {:induction false} CloseReports(frames: seq<Observation>, w: Window, p: nat, q: nat)
    requires Timeline(frames) && p < |frames| && q < |frames|
    requires Shows(w, frames, DeathReview, Around(frames, DeathReview, q, frames[q].combatReport))
    requires var c := Around(frames, DeathReview, p, frames[p].combatReport); Overlaps(w, c.low, c.high, PadOwn(DeathReview))
    ensures w.peak == frames[q].timestamp && -23.0 <= frames[q].timestamp - frames[p].timestamp <= 23.0
  {
    ShownAt(w, frames, DeathReview, q, frames[q].combatReport);
    hide EvidenceOf;
    hide Round4;
    hide Shows;
  }

  /** A candidate whose round has a selected window, or the whole budget is used. */
  lemma {:induction false} RoundIsSelected(s: Stages, rounds: seq<Segment>, budget: int, k: nat)
    requires budget > 0 && k < |s.candidates| && SelectedFrom(s.deaths, WithRounds(s.candidates, rounds), budget)
    requires forall i :: 0 <= i < |s.candidates| ==> s.candidates[i].round == 0
    ensures |s.deaths| == budget || SelectedForRound(s.deaths, rounds, s.candidates[k].peak)
  {
    var numbered := WithRounds(s.candidates, rounds);
    var kept := SelectionIsSpread(s.deaths, numbered, budget);
    hide SelectedFrom;
    hide PicksBest;
    hide EarliestOfRound;
    hide RoundFor;
    if |kept| <= budget {
      assert numbered[k] in numbered && Represented(kept, numbered[k]);
      var p :| 0 <= p < |kept| && kept[p].round == numbered[k].round && kept[p].peak <= numbered[k].peak;
      assert kept[p] in numbered && Found(s.deaths, kept[p]);
      var i :| 0 <= i < |s.deaths| && SameButId(s.deaths[i], kept[p]);
      assert ForRound(s.deaths[i], rounds, s.candidates[k].peak);
    }
  }

  ghost predicate ForRound(w: Window, rounds: seq<Segment>, t: real) {
    w.peak <= t && w.round == RoundFor(rounds, t, 0, 0) == RoundFor(rounds, w.peak, 0, 0)
  }

  ghost predicate SelectedForRound(deaths: seq<Window>, rounds: seq<Segment>, t: real) {
    exists i :: 0 <= i < |deaths| && ForRound(deaths[i], rounds, t)
  }

  lemma {:induction false} SelectedIsReviewed(windows: seq<Window>, s: Stages, rounds: seq<Segment>, t: real)
    requires Stage(windows, [], s.deaths, DeathReview) && SelectedForRound(s.deaths, rounds, t)
    ensures RoundReviewed(windows, rounds, t)
  {
    hide Stage;
    hide RoundFor;
    var i :| 0 <= i < |s.deaths| && ForRound(s.deaths[i], rounds, t);
    var j := StageFound(windows, [], s.deaths, DeathReview, i);
    assert windows[j].peak == s.deaths[i].peak && windows[j].round == s.deaths[i].round;
  }

  lemma {:induction false} CandidatesHaveNoRound(candidates: seq<Window>, frames: seq<Observation>)
    requires Built(candidates, frames, DeathReview, DeathClusters(frames, |frames|), [], |frames|)
    ensures forall i :: 0 <= i < |candidates| ==> candidates[i].round == 0
  {
    hide Built;
    hide DeathClusters;
    forall i | 0 <= i < |candidates| ensures candidates[i].round == 0 {
      var c := BuiltShows(candidates, frames, DeathReview, DeathClusters(frames, |frames|), [], |frames|, i);
    }
  }

  lemma {:induction false} ReportsAreCovered(windows: seq<Window>, s: Stages, frames: seq<Observation>, m: int, rounds: seq<Segment>)
    requires Timeline(frames) && StagesIn(windows, s) && Counted(windows, s) && DeathBudget(m) > 0
    requires Built(s.candidates, frames, DeathReview, DeathClusters(frames, |frames|), [], |frames|)
    requires SelectedFrom(s.deaths, WithRounds(s.candidates, rounds), DeathBudget(m))
    ensures ReportsCovered(windows, frames, m, rounds)
  {
    hide Built;
    hide Timeline;
    hide Stage;
    hide CountIf;
    hide PeaksRun;
    hide DeathClusters;
    hide DeathBudget;
    hide SelectedFrom;
    hide StandsIn;
    hide RoundReviewed;
    CandidatesHaveNoRound(s.candidates, frames);
    forall p | IsReportPeak(frames, p) ensures ReportCovered(windows, frames, m, rounds, p) {
      var k, q := CandidateStandsIn(s.candidates, frames, p);
      RoundIsSelected(s, rounds, DeathBudget(m), k);
      if |s.deaths| != DeathBudget(m) {
        SelectedIsReviewed(windows, s, rounds, s.candidates[k].peak);
      }
    }
  }

  // ----- Every window has a cause

  lemma {:induction false} StageHasCause(stage: seq<Window>, frames: seq<Observation>, kind: Kind, candidates: seq<Candidate>,
                                         existing: seq<Window>, limit: int, sqrt: real -> real)
    requires Built(stage, frames, kind, candidates, existing, limit) && Timeline(frames)
    requires match kind
             case DeathReview => candidates == DeathClusters(frames, |frames|)
             case CombatSpike => candidates == FightFrames(frames, FightThreshold(frames, sqrt), |frames|)
             case LowActivity => candidates == CalmPeriods(frames, CalmThreshold(frames), |frames|)
             case RotationSpike => candidates == RotationFrames(frames, RotationThreshold(frames, sqrt), CombatCeiling(frames), |frames|)
    ensures AllHaveCause(stage, frames, sqrt)
  {
    hide Built;
    hide Timeline;
    hide DeathClusters;
    hide FightFrames;
    hide CalmPeriods;
    hide RotationFrames;
    hide FromReport;
    hide FromFight;
    hide FromCalm;
    hide FromRotation;
    hide Shows;
    forall i | 0 <= i < |stage| ensures HasCause(stage[i], frames, sqrt) {
      var c := BuiltShows(stage, frames, kind, candidates, existing, limit, i);
      match kind
      case DeathReview => ReportHasCause(stage[i], frames, c);
      case CombatSpike => FightHasCause(stage[i], frames, sqrt, c);
      case LowActivity => CalmHasCause(stage[i], frames, c);
      case RotationSpike => RotationHasCause(stage[i], frames, sqrt, c);
    }
  }

  lemma {:induction false} DeathsHaveCause(s: Stages, frames: seq<Observation>, rounds: seq<Segment>, budget: int, sqrt: real -> real)
    requires AllHaveCause(s.candidates, frames, sqrt) && SelectedFrom(s.deaths, WithRounds(s.candidates, rounds), budget)
    ensures AllHaveCause(s.deaths, frames, sqrt)
  {
    hide SelectedFrom;
    hide HasCause;
    var numbered := WithRounds(s.candidates, rounds);
    forall i | 0 <= i < |numbered| ensures HasCause(numbered[i], frames, sqrt) {
      CauseCarries(s.candidates[i], numbered[i], frames, sqrt);
    }
    SelectionMembers(s.deaths, numbered, budget, Caused(frames, sqrt));
  }

  lemma {:induction false} ArrangedHaveCause(windows: seq<Window>, s: Stages, frames: seq<Observation>, sqrt: real -> real)
    requires Arranged(windows, s.All())
    requires AllHaveCause(s.deaths, frames, sqrt) && AllHaveCause(s.fights, frames, sqrt)
    requires AllHaveCause(s.calms, frames, sqrt) && AllHaveCause(s.rotations, frames, sqrt)
    ensures AllHaveCause(windows, frames, sqrt)
  {
    hide Arranged;
    hide HasCause;
    ArrangedMembers(windows, s.All(), Caused(frames, sqrt));
  }

  // ----- The review

  /** No window is without cause, and nothing notable is without a window. */
  ghost predicate Complete(windows: seq<Window>, frames: seq<Observation>, m: int, sqrt: real -> real) {
    && AllHaveCause(windows, frames, sqrt)
    && FightsCovered(windows, frames, m, sqrt) && CalmsCovered(windows, frames, m) && RotationsCovered(windows, frames, m, sqrt)
  }

  lemma {:induction false} ReviewIsComplete(windows: seq<Window>, frames: seq<Observation>, m: int, rounds: seq<Segment>, sqrt: real -> real)
    requires Timeline(frames) && 1 <= m <= MAX_REVIEW_WINDOWS && Reviewed(windows, frames, m, rounds, sqrt)
    ensures Complete(windows, frames, m, sqrt) && ReportsCovered(windows, frames, m, rounds)
  {
    var s :| Staged(s, frames, m, rounds, sqrt) && Arranged(windows, s.All());
    hide *;
    BudgetsFit(m);
    StagesAreClear(s, frames, m, rounds, sqrt);
    CandidatesUnfold(s, frames, m, rounds, sqrt);
    StagesUnfold(s, frames, m, rounds, sqrt);
    ArrangedWindows(windows, s.All());
    StagesAreIn(windows, s);
    StagesAreCounted(windows, s);
    ReportsAreCovered(windows, s, frames, m, rounds);
    FightsAreCovered(windows, s, frames, m, sqrt);
    CalmsAreCovered(windows, s, frames, m);
    RotationsAreCovered(windows, s, frames, m, sqrt);
    StagesHaveCause(windows, s, frames, m, rounds, sqrt);
    IsComplete(windows, frames, m, sqrt);
  }

  lemma {:induction false} IsComplete(windows: seq<Window>, frames: seq<Observation>, m: int, sqrt: real -> real)
    requires AllHaveCause(windows, frames, sqrt)
    requires FightsCovered(windows, frames, m, sqrt) && CalmsCovered(windows, frames, m) && RotationsCovered(windows, frames, m, sqrt)
    ensures Complete(windows, frames, m, sqrt)
  {
  }

  lemma {:induction false} StagesHaveCause(windows: seq<Window>, s: Stages, frames: seq<Observation>, m: int, rounds: seq<Segment>, sqrt: real -> real)
    requires Timeline(frames) && Staged(s, frames, m, rounds, sqrt) && Arranged(windows, s.All())
    ensures AllHaveCause(windows, frames, sqrt)
  {
    hide *;
    CandidatesUnfold(s, frames, m, rounds, sqrt);
    StagesUnfold(s, frames, m, rounds, sqrt);
    StageHasCause(s.candidates, frames, DeathReview, DeathClusters(frames, |frames|), [], |frames|, sqrt);
    DeathsHaveCause(s, frames, rounds, DeathBudget(m), sqrt);
    StageHasCause(s.fights, frames, CombatSpike, FightFrames(frames, FightThreshold(frames, sqrt), |frames|),
                  s.deaths, AtMost(CombatBudget(m), m - |s.deaths|), sqrt);
    StageHasCause(s.calms, frames, LowActivity, CalmPeriods(frames, CalmThreshold(frames), |frames|),
                  s.deaths + s.fights, AtMost(DecisionBudget(m), m - |s.deaths| - |s.fights|), sqrt);
    StageHasCause(s.rotations, frames, RotationSpike,
                  RotationFrames(frames, RotationThreshold(frames, sqrt), CombatCeiling(frames), |frames|),
                  s.deaths + s.fights + s.calms, m - |s.deaths| - |s.fights| - |s.calms|, sqrt);
    ArrangedHaveCause(windows, s, frames, sqrt);
  }
}
