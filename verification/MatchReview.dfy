/** Both passes of the review of a match: the rounds, the windows chosen by them, and the rounds
    again to list and number the windows. */
module MatchReview {
  import opened Finite
  import opened GameplayReview
  import opened Observations
  import opened Phases
  import opened ReviewCoverage
  import opened ReviewWindows
  import opened RoundSegments
  import opened RoundTimeline
  import opened Rounding
  import opened Windows

  /** The window has exactly one round, and is listed in the segment of that round and in no other. */
  ghost predicate Agrees(segments: seq<Segment>, w: Window) {
    1 <= w.round <= |segments| && forall k :: 0 <= k < |segments| ==> (w.id in segments[k].windowIds <==> w.round == k + 1)
  }

  /** The windows are those of the four stages run with the rounds of the first pass, renumbered by
      the segments, which are cut at the same boundaries and list them. */
  ghost predicate FromStages(segments: seq<Segment>, windows: seq<Window>, frames: seq<Observation>, m: int, sqrt: real -> real)
    requires frames != []
  {
    exists chosen, rounds :: Passes(segments, windows, frames, m, sqrt, chosen, rounds)
  }

  ghost predicate Passes(segments: seq<Segment>, windows: seq<Window>, frames: seq<Observation>, m: int, sqrt: real -> real,
                         chosen: seq<Window>, rounds: seq<Segment>)
    requires frames != []
  {
    && AreSegmentsOf(rounds, frames, []) && Reviewed(chosen, frames, m, rounds, sqrt)
    && AreSegmentsOf(segments, frames, chosen) && windows == WithRounds(chosen, segments)
  }

  ghost predicate AreSegmentsOf(segments: seq<Segment>, frames: seq<Observation>, windows: seq<Window>)
    requires frames != []
  {
    var b, detection := Boundaries(frames), if UsesAnchors(frames) then BuyPhaseAnchors else VisualTimeline;
    && |segments| == |b| - 1
    && forall k :: 0 <= k < |segments| ==> segments[k] == SegmentAt(frames, windows, b, detection, k)
  }

  /** Time `t` lies in the round, by the published bounds. */
  predicate InRound(segments: seq<Segment>, round: int, t: real) {
    && 1 <= round <= |segments| && segments[round - 1].start <= t
    && (t < segments[round - 1].end || (round == |segments| && t <= segments[round - 1].end))
  }

  /** The round in which a report peaks has a death window that peaks no later. */
  ghost predicate RoundHasDeath(segments: seq<Segment>, windows: seq<Window>, t: real) {
    exists i :: 0 <= i < |windows| && windows[i].kind == DeathReview && windows[i].peak <= t && InRound(segments, windows[i].round, t)
  }

  /** Every report peak, or a stronger one close by, has a death window in its round, unless the
      budget for deaths is used up. */
  ghost predicate ReportsReviewed(segments: seq<Segment>, windows: seq<Window>, frames: seq<Observation>, m: int) {
    forall p :: IsReportPeak(frames, p) ==> ReportReviewed(segments, windows, frames, m, p)
  }

  ghost predicate ReportReviewed(segments: seq<Segment>, windows: seq<Window>, frames: seq<Observation>, m: int, p: nat)
    requires p < |frames|
  {
    exists q :: IsReportPeak(frames, q) && StandsIn(frames, q, p) &&
                (CountIf(windows, OfKind(DeathReview)) == DeathBudget(m) || RoundHasDeath(segments, windows, frames[q].timestamp))
  }

  ghost predicate HasDeath(windows: seq<Window>) {
    exists i :: 0 <= i < |windows| && windows[i].kind == DeathReview
  }

  /** What a review promises of the frames of a match. */
  ghost predicate IsReviewOf(segments: seq<Segment>, windows: seq<Window>, frames: seq<Observation>, m: int, sqrt: real -> real) {
    && (frames == [] ==> segments == [] && windows == [])
    && (frames != [] ==> CutAt(segments, Boundaries(frames)) && FromStages(segments, windows, frames, m, sqrt))
    && Reviewable(windows, m)
    && (forall i, j :: 0 <= i < j < |windows| ==> windows[i].end < windows[j].start)
    && (forall i :: 0 <= i < |windows| ==> Agrees(segments, windows[i]))
    && Complete(windows, frames, m, sqrt)
    && ReportsReviewed(segments, windows, frames, m)
    && ((exists k :: 0 <= k < |frames| && ReportUp(frames[k])) ==> HasDeath(windows))
  }

  /** Classifies the frames, cuts the rounds, chooses the windows, and cuts the rounds again to list
      and number the windows. */
  method ReviewMatch(observations: array<Observation>, maxWindows: int, sqrt: real -> real)
    returns (segments: seq<Segment>, windows: seq<Window>)
    requires Timeline(observations[..])
    modifies observations
    ensures observations[..] == Classified(old(observations[..]), sqrt)
    ensures IsReviewOf(segments, windows, observations[..], Clamped(maxWindows), sqrt)
  {
    hide *;
    ClassifiedIsTimeline(observations[..], sqrt);
    if observations.Length == 0 {
      ClampedMeans(maxWindows);
      NothingToReview(observations[..], Clamped(maxWindows), sqrt);
      return [], [];
    }
    ClassifyPhases(observations, sqrt);
    segments, windows := ReviewFrames(observations[..], maxWindows, sqrt);
  }

  lemma {:induction false} NothingToReview(frames: seq<Observation>, m: int, sqrt: real -> real)
    requires frames == [] && 1 <= m <= 20
    ensures Classified(frames, sqrt) == frames
    ensures IsReviewOf([], [], frames, m, sqrt)
  {
    BudgetsFit(m);
  }

  lemma {:induction false} ClassifiedIsTimeline(frames: seq<Observation>, sqrt: real -> real)
    requires Timeline(frames)
    ensures Timeline(Classified(frames, sqrt))
  {
    hide WholeMilliseconds;
    hide ThresholdsOf;
    hide PhaseOf;
  }

  method ReviewFrames(frames: seq<Observation>, maxWindows: int, sqrt: real -> real)
    returns (segments: seq<Segment>, windows: seq<Window>)
    requires frames != [] && Timeline(frames)
    ensures IsReviewOf(segments, windows, frames, Clamped(maxWindows), sqrt)
  {
    assert Chronological(frames);
    hide *;
    var rounds := BuildRoundSegments(frames, []);
    var chosen := BuildReviewWindows(frames, maxWindows, rounds, sqrt);
    segments := BuildRoundSegments(frames, chosen);
    windows := NumberRounds(chosen, segments);
    ghost var m := Clamped(maxWindows);
    ClampedMeans(maxWindows);
    ArePasses(segments, windows, frames, m, sqrt, chosen, rounds);
    PassesReview(segments, windows, frames, m, sqrt, chosen, rounds);
  }

  lemma {:induction false} ArePasses(segments: seq<Segment>, windows: seq<Window>, frames: seq<Observation>, m: int, sqrt: real -> real,
                                     chosen: seq<Window>, rounds: seq<Segment>)
    requires frames != [] && Reviewed(chosen, frames, m, rounds, sqrt) && windows == WithRounds(chosen, segments)
    requires var b, detection := Boundaries(frames), if UsesAnchors(frames) then BuyPhaseAnchors else VisualTimeline;
             && |rounds| == |b| - 1 && |segments| == |b| - 1
             && (forall k :: 0 <= k < |rounds| ==> rounds[k] == SegmentAt(frames, [], b, detection, k))
             && (forall k :: 0 <= k < |segments| ==> segments[k] == SegmentAt(frames, chosen, b, detection, k))
    ensures Passes(segments, windows, frames, m, sqrt, chosen, rounds)
  {
    hide Reviewed;
    hide WithRounds;
    hide SegmentAt;
    hide Boundaries;
    hide UsesAnchors;
  }

  /** What the two passes come to. */
  lemma {:induction false} PassesReview(segments: seq<Segment>, windows: seq<Window>, frames: seq<Observation>, m: int, sqrt: real -> real,
                                        chosen: seq<Window>, rounds: seq<Segment>)
    requires frames != [] && Timeline(frames) && 1 <= m <= MAX_REVIEW_WINDOWS
    requires Passes(segments, windows, frames, m, sqrt, chosen, rounds)
    ensures IsReviewOf(segments, windows, frames, m, sqrt)
  {
    PassesUnfold(segments, windows, frames, m, sqrt, chosen, rounds);
    hide *;
    var detection := if UsesAnchors(frames) then BuyPhaseAnchors else VisualTimeline;
    SegmentsAreCut(frames, [], detection, rounds);
    ReviewIsReviewable(chosen, frames, m, rounds, sqrt);
    ReviewIsPlaced(chosen, frames, m, rounds, sqrt);
    ReviewIsComplete(chosen, frames, m, rounds, sqrt);
    PassesMeet(frames, chosen, segments, detection, m);
    SegmentsAreCut(frames, chosen, detection, segments);
    RelabelledIsComplete(chosen, segments, frames, m, sqrt);
    RelabelledReports(chosen, rounds, segments, frames, m);
    if k :| 0 <= k < |frames| && ReportUp(frames[k]) {
      SomeDeath(windows, frames, segments, m, k);
    }
    ReviewableIsDisjoint(windows, m);
    IsStaged(segments, windows, frames, m, sqrt, chosen, rounds);
    AllPromised(segments, windows, frames, m, sqrt);
  }

  lemma {:induction false} IsStaged(segments: seq<Segment>, windows: seq<Window>, frames: seq<Observation>, m: int, sqrt: real -> real,
                 chosen: seq<Window>, rounds: seq<Segment>)
    requires frames != [] && Passes(segments, windows, frames, m, sqrt, chosen, rounds)
    ensures FromStages(segments, windows, frames, m, sqrt)
  {
    hide Passes;
  }

  lemma {:induction false} AllPromised(segments: seq<Segment>, windows: seq<Window>, frames: seq<Observation>, m: int, sqrt: real -> real)
    requires frames != [] && CutAt(segments, Boundaries(frames)) && FromStages(segments, windows, frames, m, sqrt)
    requires Reviewable(windows, m) && Complete(windows, frames, m, sqrt) && ReportsReviewed(segments, windows, frames, m)
    requires forall i, j :: 0 <= i < j < |windows| ==> windows[i].end < windows[j].start
    requires forall i :: 0 <= i < |windows| ==> Agrees(segments, windows[i])
    requires (exists k :: 0 <= k < |frames| && ReportUp(frames[k])) ==> HasDeath(windows)
    ensures IsReviewOf(segments, windows, frames, m, sqrt)
  {
    hide CutAt;
    hide FromStages;
    hide Reviewable;
    hide Complete;
    hide ReportsReviewed;
    hide Agrees;
    hide ReportUp;
  }

  lemma {:induction false} PassesUnfold(segments: seq<Segment>, windows: seq<Window>, frames: seq<Observation>, m: int, sqrt: real -> real,
                                        chosen: seq<Window>, rounds: seq<Segment>)
    requires frames != [] && Passes(segments, windows, frames, m, sqrt, chosen, rounds)
    ensures Reviewed(chosen, frames, m, rounds, sqrt) && windows == WithRounds(chosen, segments) && |windows| == |chosen|
    ensures var b, detection := Boundaries(frames), if UsesAnchors(frames) then BuyPhaseAnchors else VisualTimeline;
            && |rounds| == |b| - 1 && |segments| == |b| - 1
            && (forall k :: 0 <= k < |rounds| ==> rounds[k] == SegmentAt(frames, [], b, detection, k))
            && (forall k :: 0 <= k < |segments| ==> segments[k] == SegmentAt(frames, chosen, b, detection, k))
  {
    hide Reviewed;
    hide SegmentAt;
    hide Boundaries;
    hide UsesAnchors;
  }

  // ----- Numbering windows leaves their cover alone

  lemma {:induction false} RelabelledCause(chosen: seq<Window>, segments: seq<Segment>, frames: seq<Observation>, sqrt: real -> real)
    requires AllHaveCause(chosen, frames, sqrt)
    ensures AllHaveCause(WithRounds(chosen, segments), frames, sqrt)
  {
    hide HasCause;
    var windows := WithRounds(chosen, segments);
    forall i | 0 <= i < |windows| ensures HasCause(windows[i], frames, sqrt) {
      CauseCarries(chosen[i], windows[i], frames, sqrt);
    }
  }

  /** Windows that cover alike: the same but for rounds. */
  ghost predicate CoverAlike(a: seq<Window>, b: seq<Window>) {
    |a| == |b| && forall i :: 0 <= i < |a| ==> a[i].(round := b[i].round) == b[i]
  }

  lemma {:induction false} CoveredAlike(a: seq<Window>, b: seq<Window>, kind: Kind, low: real, high: real, others: real, own: real, score: real, full: bool)
    requires CoverAlike(a, b) && Covered(a, kind, low, high, others, own, score, full)
    ensures Covered(b, kind, low, high, others, own, score, full)
  {
    if TouchedBefore(a, kind, low, high, others) {
      var i :| 0 <= i < |a| && IsPlacedBefore(a[i].kind, kind) && Touches(a[i], low, high, others);
      assert Touches(b[i], low, high, others);
    } else if TouchedByOwn(a, kind, low, high, own, score) {
      var i :| 0 <= i < |a| && a[i].kind == kind && Touches(a[i], low, high, own);
      assert Touches(b[i], low, high, own);
    } else {
      assert full && AllScore(b, kind, score);
    }
  }

  lemma {:induction false} CountedAlike(a: seq<Window>, b: seq<Window>, kind: Kind)
    requires CoverAlike(a, b)
    ensures CountIf(a, OfKind(kind)) == CountIf(b, OfKind(kind))
  {
    CountIfSame(a, b, OfKind(kind));
  }

  lemma {:induction false} RelabelledIsComplete(chosen: seq<Window>, segments: seq<Segment>, frames: seq<Observation>, m: int, sqrt: real -> real)
    requires Complete(chosen, frames, m, sqrt)
    ensures Complete(WithRounds(chosen, segments), frames, m, sqrt)
  {
    hide Covered;
    hide FightUp;
    hide CalmRun;
    hide RotationUp;
    hide AllHaveCause;
    hide CountIf;
    hide CombatBudget;
    hide DecisionBudget;
    var windows := WithRounds(chosen, segments);
    assert CoverAlike(chosen, windows);
    RelabelledCause(chosen, segments, frames, sqrt);
    CountedAlike(chosen, windows, CombatSpike);
    CountedAlike(chosen, windows, LowActivity);
    hide CoverAlike;
    RelabelledFights(chosen, windows, frames, m, sqrt);
    RelabelledCalms(chosen, windows, frames, m);
    RelabelledRotations(chosen, windows, frames, m, sqrt);
  }

  lemma {:induction false} RelabelledFights(a: seq<Window>, b: seq<Window>, frames: seq<Observation>, m: int, sqrt: real -> real)
    requires CoverAlike(a, b) && FightsCovered(a, frames, m, sqrt)
    ensures FightsCovered(b, frames, m, sqrt)
  {
    hide Covered;
    hide FightUp;
    hide CountIf;
    hide CombatBudget;
    CountedAlike(a, b, CombatSpike);
    forall k | 0 <= k < |frames| && FightUp(frames, k, sqrt)
      ensures Covered(b, CombatSpike, NotBelowZero(frames[k].timestamp - 8.0), frames[k].timestamp + 10.0, 0.0, 6.0,
                      frames[k].combat, UsedUp(b, CombatSpike, CombatBudget(m), m))
    {
      CoveredAlike(a, b, CombatSpike, NotBelowZero(frames[k].timestamp - 8.0), frames[k].timestamp + 10.0, 0.0, 6.0,
                   frames[k].combat, UsedUp(a, CombatSpike, CombatBudget(m), m));
    }
  }

  lemma {:induction false} RelabelledCalms(a: seq<Window>, b: seq<Window>, frames: seq<Observation>, m: int)
    requires CoverAlike(a, b) && CalmsCovered(a, frames, m)
    ensures CalmsCovered(b, frames, m)
  {
    hide Covered;
    hide CalmUp;
    hide CountIf;
    hide DecisionBudget;
    hide CalmScore;
    CountedAlike(a, b, LowActivity);
    forall s, e | CalmRun(frames, s, e)
      ensures Covered(b, LowActivity, frames[s].timestamp, frames[e].timestamp, 4.0, 4.0,
                      CalmScore(frames[e].timestamp - frames[s].timestamp), UsedUp(b, LowActivity, DecisionBudget(m), m))
    {
      CoveredAlike(a, b, LowActivity, frames[s].timestamp, frames[e].timestamp, 4.0, 4.0,
                   CalmScore(frames[e].timestamp - frames[s].timestamp), UsedUp(a, LowActivity, DecisionBudget(m), m));
    }
  }

  lemma {:induction false} RelabelledRotations(a: seq<Window>, b: seq<Window>, frames: seq<Observation>, m: int, sqrt: real -> real)
    requires CoverAlike(a, b) && RotationsCovered(a, frames, m, sqrt)
    ensures RotationsCovered(b, frames, m, sqrt)
  {
    hide Covered;
    hide RotationUp;
    forall k | 0 <= k < |frames| && RotationUp(frames, k, sqrt)
      ensures Covered(b, RotationSpike, NotBelowZero(frames[k].timestamp - 6.0), frames[k].timestamp + 8.0, 5.0, 5.0,
                      frames[k].motion, |b| == m)
    {
      CoveredAlike(a, b, RotationSpike, NotBelowZero(frames[k].timestamp - 6.0), frames[k].timestamp + 8.0, 5.0, 5.0,
                   frames[k].motion, |a| == m);
    }
  }

  // ----- The rounds of both passes are the same

  lemma {:induction false} SameCutSameRound(a: seq<Segment>, b: seq<Segment>, boundaries: seq<real>, t: real, n: nat, otherwise: int)
    requires CutAt(a, boundaries) && CutAt(b, boundaries) && n <= |a|
    ensures RoundFor(a, t, n, otherwise) == RoundFor(b, t, n, otherwise)
    decreases |a| - n
  {
    if n < |a| {
      SameCutSameRound(a, b, boundaries, t, n + 1, otherwise);
    }
  }

  lemma {:induction false} RoundHolds(segments: seq<Segment>, frames: seq<Observation>, t: real, otherwise: int)
    requires frames != [] && Timeline(frames) && CutAt(segments, Boundaries(frames)) && First(frames) <= t <= Last(frames)
    ensures InRound(segments, RoundFor(segments, t, 0, otherwise), t)
    ensures RoundFor(segments, t, 0, otherwise) == RoundFor(segments, t, 0, 0)
  {
    var b := Boundaries(frames);
    BoundariesFormLadder(frames);
    RoundForIsUnique(segments, b, First(frames), Last(frames), t, otherwise);
    RoundForIsUnique(segments, b, First(frames), Last(frames), t, 0);
    hide RoundFor;
    hide Ladder;
    hide Boundaries;
    hide Timeline;
    assert Holds(b, RoundFor(segments, t, 0, otherwise) - 1, t);
  }

  lemma {:induction false} FrameWithin(frames: seq<Observation>, k: nat)
    requires Timeline(frames) && k < |frames|
    ensures First(frames) <= frames[k].timestamp <= Last(frames)
  {
  }

  lemma {:induction false} RelabelledRound(chosen: seq<Window>, rounds: seq<Segment>, segments: seq<Segment>, frames: seq<Observation>, q: nat)
    requires Timeline(frames) && q < |frames| && CutAt(rounds, Boundaries(frames)) && CutAt(segments, Boundaries(frames))
    requires AllPlaced(frames, chosen) && RoundReviewed(chosen, rounds, frames[q].timestamp)
    ensures RoundHasDeath(segments, WithRounds(chosen, segments), frames[q].timestamp)
  {
    hide RoundFor;
    hide CutAt;
    hide Boundaries;
    hide InRound;
    hide AllPlaced;
    hide First;
    hide Last;
    var t, windows := frames[q].timestamp, WithRounds(chosen, segments);
    var i :| 0 <= i < |chosen| && chosen[i].kind == DeathReview && chosen[i].peak <= t &&
             chosen[i].round == RoundFor(rounds, t, 0, 0) == RoundFor(rounds, chosen[i].peak, 0, 0);
    TimelineIsChronological(frames);
    PlacedWithin(frames, chosen, i);
    FrameWithin(frames, q);
    hide Timeline;
    hide Chronological;
    SameRounds(rounds, segments, frames, t, chosen[i]);
    assert windows[i].round == RoundFor(segments, chosen[i].peak, 0, chosen[i].round);
  }

  lemma {:induction false} SameRounds(rounds: seq<Segment>, segments: seq<Segment>, frames: seq<Observation>, t: real, w: Window)
    requires frames != [] && Timeline(frames) && CutAt(rounds, Boundaries(frames)) && CutAt(segments, Boundaries(frames))
    requires First(frames) <= t <= Last(frames) && First(frames) <= w.peak <= Last(frames)
    requires RoundFor(rounds, t, 0, 0) == RoundFor(rounds, w.peak, 0, 0)
    ensures InRound(segments, RoundFor(segments, w.peak, 0, w.round), t)
  {
    hide *;
    SameCutSameRound(rounds, segments, Boundaries(frames), t, 0, 0);
    SameCutSameRound(rounds, segments, Boundaries(frames), w.peak, 0, 0);
    RoundHolds(segments, frames, w.peak, w.round);
    RoundHolds(segments, frames, t, 0);
  }

  lemma {:induction false} RelabelledReports(chosen: seq<Window>, rounds: seq<Segment>, segments: seq<Segment>, frames: seq<Observation>, m: int)
    requires Timeline(frames) && frames != [] && AllPlaced(frames, chosen) && ReportsCovered(chosen, frames, m, rounds)
    requires CutAt(rounds, Boundaries(frames)) && CutAt(segments, Boundaries(frames))
    ensures ReportsReviewed(segments, WithRounds(chosen, segments), frames, m)
  {
    hide PeaksRun;
    hide CountIf;
    hide DeathBudget;
    hide RoundReviewed;
    hide RoundHasDeath;
    hide StandsIn;
    hide Timeline;
    hide CutAt;
    hide AllPlaced;
    hide Boundaries;
    var windows := WithRounds(chosen, segments);
    assert CoverAlike(chosen, windows);
    CountedAlike(chosen, windows, DeathReview);
    hide CoverAlike;
    hide WithRounds;
    forall p | IsReportPeak(frames, p) ensures ReportReviewed(segments, windows, frames, m, p) {
      assert ReportCovered(chosen, frames, m, rounds, p);
      var q :| IsReportPeak(frames, q) && StandsIn(frames, q, p) &&
               (CountIf(chosen, OfKind(DeathReview)) == DeathBudget(m) || RoundReviewed(chosen, rounds, frames[q].timestamp));
      if CountIf(chosen, OfKind(DeathReview)) != DeathBudget(m) {
        RelabelledRound(chosen, rounds, segments, frames, q);
      }
    }
  }

  /** A match with a combat report has a death window. */
  lemma {:induction false} SomeDeath(windows: seq<Window>, frames: seq<Observation>, segments: seq<Segment>, m: int, k: nat)
    requires ReportsReviewed(segments, windows, frames, m) && k < |frames| && ReportUp(frames[k]) && 1 <= m <= MAX_REVIEW_WINDOWS
    ensures HasDeath(windows)
  {
    hide PeaksRun;
    hide CountIf;
    hide DeathBudget;
    hide StandsIn;
    hide ReportUp;
    var p := ReportHasPeak(frames, k);
    assert ReportReviewed(segments, windows, frames, m, p);
    BudgetsFit(m);
    if !HasDeath(windows) {
      CountIfNone(windows, OfKind(DeathReview));
    }
  }

  /** The second pass lists the chosen windows in the segments and numbers them. */
  lemma {:induction false} PassesMeet(frames: seq<Observation>, chosen: seq<Window>, segments: seq<Segment>, detection: Detection, m: int)
    requires frames != [] && Timeline(frames) && Reviewable(chosen, m) && AllPlaced(frames, chosen)
    requires |segments| == |Boundaries(frames)| - 1
    requires forall k :: 0 <= k < |segments| ==> segments[k] == SegmentAt(frames, chosen, Boundaries(frames), detection, k)
    ensures CutAt(segments, Boundaries(frames)) && Reviewable(WithRounds(chosen, segments), m)
    ensures forall i :: 0 <= i < |chosen| ==> Agrees(segments, WithRounds(chosen, segments)[i])
  {
    hide *;
    SegmentsAreCut(frames, chosen, detection, segments);
    RelabelledReview(chosen, segments, m);
    forall i | 0 <= i < |chosen| ensures Agrees(segments, WithRounds(chosen, segments)[i]) {
      WindowAgrees(frames, chosen, segments, detection, m, i);
    }
  }

  lemma {:induction false} RelabelledReview(windows: seq<Window>, segments: seq<Segment>, m: int)
    requires Reviewable(windows, m)
    ensures Reviewable(WithRounds(windows, segments), m)
  {
    var numbered := WithRounds(windows, segments);
    CountIfSame(numbered, windows, OfKind(DeathReview));
    CountIfSame(numbered, windows, OfKind(CombatSpike));
    CountIfSame(numbered, windows, OfKind(LowActivity));
    forall i | 0 <= i < |windows| ensures SameReach(numbered[i], windows[i]) && numbered[i].id == windows[i].id {
    }
    hide WithRounds;
    hide CountIf;
    hide Shaped;
    hide Gap;
    forall i | 0 <= i < |windows| ensures Shaped(numbered[i]) {
      ReachDecides(numbered[i], windows[i], numbered[i], windows[i]);
    }
  }

  lemma {:induction false} ReviewIds(windows: seq<Window>, m: int)
    requires Reviewable(windows, m)
    ensures forall i, j :: 0 <= i < j < |windows| ==> windows[i].id != windows[j].id
  {
    hide CountIf;
    hide Shaped;
    hide Follows;
  }

  lemma {:induction false} PlacedWithin(frames: seq<Observation>, windows: seq<Window>, i: nat)
    requires frames != [] && Chronological(frames) && AllPlaced(frames, windows) && i < |windows|
    ensures First(frames) <= windows[i].peak <= Last(frames)
  {
    assert Placed(frames, windows[i]);
    var k :| 0 <= k < |frames| && windows[i].peak == frames[k].timestamp;
    assert frames[0].timestamp <= frames[k].timestamp <= frames[|frames| - 1].timestamp;
  }

  lemma {:induction false} WindowAgrees(frames: seq<Observation>, chosen: seq<Window>, segments: seq<Segment>, detection: Detection, m: int, i: nat)
    requires frames != [] && Timeline(frames) && Reviewable(chosen, m) && AllPlaced(frames, chosen) && i < |chosen|
    requires CutAt(segments, Boundaries(frames)) && |segments| == |Boundaries(frames)| - 1
    requires forall k :: 0 <= k < |segments| ==> segments[k] == SegmentAt(frames, chosen, Boundaries(frames), detection, k)
    ensures Agrees(segments, WithRounds(chosen, segments)[i])
  {
    assert Chronological(frames);
    var w := WithRounds(chosen, segments)[i];
    assert w.round == RoundFor(segments, chosen[i].peak, 0, chosen[i].round) && w.id == chosen[i].id;
    hide Boundaries;
    hide RoundFor;
    hide SegmentAt;
    hide CutAt;
    hide Reviewable;
    hide AllPlaced;
    hide Timeline;
    hide WithRounds;
    hide First;
    hide Last;
    ReviewIds(chosen, m);
    PlacedWithin(frames, chosen, i);
    PassesAgree(frames, chosen, segments, i, detection, chosen[i].round);
  }
}
