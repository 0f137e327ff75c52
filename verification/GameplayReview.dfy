/** The review of a match: its phases, its rounds, and the windows chosen within the budget. */
module GameplayReview {
  import opened DeathSelection
  import opened Finite
  import opened Observations
  import opened Phases
  import opened ReviewCandidates
  import opened ReviewWindows
  import opened RoundSegments
  import opened Rounding
  import opened WindowOrder
  import opened Windows

  // ----- The four builders

  function FightThreshold(frames: seq<Observation>, sqrt: real -> real): real {
    var average := Average(frames, Combat);
    Max(0.20, average + Deviation(frames, average, Combat, sqrt) * 0.68)
  }

  function CalmThreshold(frames: seq<Observation>): real {
    Max(0.025, Average(frames, Motion) * 0.5)
  }

  function RotationThreshold(frames: seq<Observation>, sqrt: real -> real): real {
    var average := Average(frames, Motion);
    Max(0.22, average + Deviation(frames, average, Motion, sqrt) * 0.55)
  }

  function CombatCeiling(frames: seq<Observation>): real {
    Average(frames, Combat) + 0.12
  }

  /** What a builder returns for its candidates: nothing without frames or room. */
  ghost predicate Built(windows: seq<Window>, frames: seq<Observation>, kind: Kind, candidates: seq<Candidate>,
                        existing: seq<Window>, limit: int)
  {
    if limit <= 0 || candidates == [] then windows == []
    else GreedyChoice(windows, frames, kind, candidates, existing, limit)
  }

  method BuildDeathReviewWindows(frames: seq<Observation>, limit: int) returns (windows: seq<Window>)
    requires Chronological(frames)
    ensures Built(windows, frames, DeathReview, DeathClusters(frames, |frames|), [], limit)
  {
    DeathClustersFit(frames, |frames|);
    if |frames| == 0 || limit <= 0 {
      return [];
    }
    hide GreedyChoice;
    hide DeathClusters;
    var clusters := FindDeathClusters(frames);
    windows := [];
    if clusters != [] {
      windows := ChooseRanked(frames, DeathReview, clusters, [], limit);
    }
  }

  method BuildHighImpactWindows(frames: seq<Observation>, limit: int, existing: seq<Window>, sqrt: real -> real)
    returns (windows: seq<Window>)
    requires Chronological(frames)
    ensures Built(windows, frames, CombatSpike, FightFrames(frames, FightThreshold(frames, sqrt), |frames|), existing, limit)
  {
    FightFramesFit(frames, FightThreshold(frames, sqrt), |frames|);
    if |frames| == 0 || limit <= 0 {
      return [];
    }
    hide GreedyChoice;
    hide FightFrames;
    var avgCombat := AverageOf(frames, Combat);
    var stdCombat := DeviationOf(frames, avgCombat, Combat, sqrt);
    var candidates := FindFightFrames(frames, Max(0.20, avgCombat + stdCombat * 0.68));
    if candidates == [] {
      return [];
    }
    windows := ChooseRanked(frames, CombatSpike, candidates, existing, limit);
  }

  method BuildPassiveWindows(frames: seq<Observation>, limit: int, existing: seq<Window>) returns (windows: seq<Window>)
    requires Chronological(frames)
    ensures Built(windows, frames, LowActivity, CalmPeriods(frames, CalmThreshold(frames), |frames|), existing, limit)
  {
    CalmPeriodsFit(frames, CalmThreshold(frames), |frames|);
    if |frames| < 2 || limit <= 0 {
      OneFrameIsNoPeriod(frames, CalmThreshold(frames));
      return [];
    }
    hide GreedyChoice;
    hide CalmPeriods;
    var avgMotion := AverageOf(frames, Motion);
    var segments := FindCalmPeriods(frames, Max(0.025, avgMotion * 0.5));
    windows := [];
    if segments != [] {
      windows := ChooseRanked(frames, LowActivity, segments, existing, limit);
    }
  }

  lemma OneFrameIsNoPeriod(frames: seq<Observation>, threshold: real)
    ensures |frames| < 2 ==> CalmPeriods(frames, threshold, |frames|) == []
  {
    if |frames| == 1 {
      assert CalmPeriods(frames, threshold, 0) == [];
    }
  }

  method BuildRotationWindows(frames: seq<Observation>, limit: int, existing: seq<Window>, sqrt: real -> real)
    returns (windows: seq<Window>)
    requires Chronological(frames)
    ensures Built(windows, frames, RotationSpike,
                  RotationFrames(frames, RotationThreshold(frames, sqrt), CombatCeiling(frames), |frames|), existing, limit)
  {
    RotationFramesFit(frames, RotationThreshold(frames, sqrt), CombatCeiling(frames), |frames|);
    if |frames| == 0 || limit <= 0 {
      return [];
    }
    hide GreedyChoice;
    hide RotationFrames;
    var avgMotion := AverageOf(frames, Motion);
    var stdMotion := DeviationOf(frames, avgMotion, Motion, sqrt);
    var avgCombat := AverageOf(frames, Combat);
    var candidates := FindRotationFrames(frames, Max(0.22, avgMotion + stdMotion * 0.55), avgCombat + 0.12);
    windows := [];
    if candidates != [] {
      windows := ChooseRanked(frames, RotationSpike, candidates, existing, limit);
    }
  }

  lemma BuiltIsClear(windows: seq<Window>, frames: seq<Observation>, kind: Kind, candidates: seq<Candidate>,
                     existing: seq<Window>, limit: int)
    requires Built(windows, frames, kind, candidates, existing, limit)
    requires Timeline(frames) && PlacedBefore(kind, existing) && Family(existing)
    ensures Family(existing + windows) && |windows| <= (if limit < 0 then 0 else limit) && AllOfKind(windows, kind)
  {
    if limit <= 0 || candidates == [] {
      assert existing + windows == existing;
    } else {
      GreedyIsClear(windows, frames, kind, candidates, existing, limit);
    }
  }

  // ----- Budgets

  const MAX_REVIEW_WINDOWS := 20

  function Clamped(maxWindows: int): int {
    var m := if maxWindows < 1 then 1 else maxWindows;
    if m > MAX_REVIEW_WINDOWS then MAX_REVIEW_WINDOWS else m
  }

  function Ceiling(x: real): int {
    -(-x).Floor
  }

  function AtLeast(low: int, x: int): int {
    if x < low then low else x
  }

  function AtMost(high: int, x: int): int {
    if x > high then high else x
  }

  function DeathBudget(m: int): int {
    AtLeast(1, Ceiling(m as real * 0.34))
  }

  function CombatBudget(m: int): int {
    AtLeast(1, Ceiling(m as real * 0.40))
  }

  function DecisionBudget(m: int): int {
    if m >= 8 then AtLeast(2, Nearest(m as real * 0.16)) else 1
  }

  /** The budgets are the least whole numbers of windows that reach 34 and 40 percent of all, and the
      nearest to 16 percent, and never none. */
  lemma BudgetsMean(m: int)
    requires 1 <= m <= MAX_REVIEW_WINDOWS
    ensures var d := DeathBudget(m); d >= 1 && d as real >= m as real * 0.34 && (d > 1 ==> (d - 1) as real < m as real * 0.34)
    ensures var c := CombatBudget(m); c >= 1 && c as real >= m as real * 0.40 && (c > 1 ==> (c - 1) as real < m as real * 0.40)
    ensures m < 8 ==> DecisionBudget(m) == 1
    ensures m >= 8 ==> var d := DecisionBudget(m);
                       d >= 2 && d as real >= m as real * 0.16 - 0.5 && (d > 2 ==> d as real <= m as real * 0.16 + 0.5)
  {
  }

  /** The number of windows asked for counts between one and twenty. */
  lemma ClampedMeans(maxWindows: int)
    ensures 1 <= Clamped(maxWindows) <= 20
    ensures 1 <= maxWindows <= 20 ==> Clamped(maxWindows) == maxWindows
    ensures maxWindows < 1 ==> Clamped(maxWindows) == 1
    ensures maxWindows > 20 ==> Clamped(maxWindows) == 20
  {
  }

  // ----- All windows

  function WithRounds(windows: seq<Window>, rounds: seq<Segment>): (numbered: seq<Window>)
    ensures |numbered| == |windows|
    ensures forall i :: 0 <= i < |windows| ==>
              numbered[i] == windows[i].(round := RoundFor(rounds, windows[i].peak, 0, windows[i].round))
  {
    seq(|windows|, i requires 0 <= i < |windows| => windows[i].(round := RoundFor(rounds, windows[i].peak, 0, windows[i].round)))
  }

  datatype Stages = Stages(candidates: seq<Window>, deaths: seq<Window>, fights: seq<Window>, calms: seq<Window>,
                           rotations: seq<Window>)
  {
    function All(): seq<Window> {
      deaths + fights + calms + rotations
    }
  }

  /** The windows each stage adds, given those of the stages before it. */
  ghost predicate Staged(s: Stages, frames: seq<Observation>, m: int, rounds: seq<Segment>, sqrt: real -> real) {
    && Built(s.candidates, frames, DeathReview, DeathClusters(frames, |frames|), [], |frames|)
    && SelectedFrom(s.deaths, WithRounds(s.candidates, rounds), DeathBudget(m))
    && Built(s.fights, frames, CombatSpike, FightFrames(frames, FightThreshold(frames, sqrt), |frames|),
             s.deaths, AtMost(CombatBudget(m), m - |s.deaths|))
    && Built(s.calms, frames, LowActivity, CalmPeriods(frames, CalmThreshold(frames), |frames|),
             s.deaths + s.fights, AtMost(DecisionBudget(m), m - |s.deaths| - |s.fights|))
    && Built(s.rotations, frames, RotationSpike,
             RotationFrames(frames, RotationThreshold(frames, sqrt), CombatCeiling(frames), |frames|),
             s.deaths + s.fights + s.calms, m - |s.deaths| - |s.fights| - |s.calms|)
  }

  ghost predicate Reviewed(windows: seq<Window>, frames: seq<Observation>, m: int, rounds: seq<Segment>, sqrt: real -> real) {
    exists s :: Staged(s, frames, m, rounds, sqrt) && Arranged(windows, s.All())
  }

  method BuildReviewWindows(frames: seq<Observation>, maxWindows: int, rounds: seq<Segment>, sqrt: real -> real)
    returns (result: seq<Window>)
    requires Chronological(frames)
    ensures Reviewed(result, frames, Clamped(maxWindows), rounds, sqrt)
  {
    hide Built;
    hide SelectedFrom;
    hide Chronological;
    hide DeathBudget;
    hide CombatBudget;
    hide DecisionBudget;
    hide Clamped;
    hide Arranged;
    var m := Clamped(maxWindows);
    var candidates := BuildDeathReviewWindows(frames, |frames|);
    var numbered := NumberRounds(candidates, rounds);
    var deaths := SelectDeathWindowsByRound(numbered, DeathBudget(m));
    var fights, calms, rotations := [], [], [];
    if m - |deaths| > 0 {
      fights := BuildHighImpactWindows(frames, AtMost(CombatBudget(m), m - |deaths|), deaths, sqrt);
    } else {
      NothingBuilt(frames, CombatSpike, FightFrames(frames, FightThreshold(frames, sqrt), |frames|), deaths,
                   AtMost(CombatBudget(m), m - |deaths|));
    }
    if m - |deaths| - |fights| > 0 {
      calms := BuildPassiveWindows(frames, AtMost(DecisionBudget(m), m - |deaths| - |fights|), deaths + fights);
    } else {
      NothingBuilt(frames, LowActivity, CalmPeriods(frames, CalmThreshold(frames), |frames|), deaths + fights,
                   AtMost(DecisionBudget(m), m - |deaths| - |fights|));
    }
    if m - |deaths| - |fights| - |calms| > 0 {
      rotations := BuildRotationWindows(frames, m - |deaths| - |fights| - |calms|, deaths + fights + calms, sqrt);
    } else {
      NothingBuilt(frames, RotationSpike,
                   RotationFrames(frames, RotationThreshold(frames, sqrt), CombatCeiling(frames), |frames|),
                   deaths + fights + calms, m - |deaths| - |fights| - |calms|);
    }
    ghost var s := Stages(candidates, deaths, fights, calms, rotations);
    assert Staged(s, frames, m, rounds, sqrt);
    hide Staged;
    result := ArrangeAll(deaths + fights + calms + rotations);
  }

  lemma NothingBuilt(frames: seq<Observation>, kind: Kind, candidates: seq<Candidate>, existing: seq<Window>, limit: int)
    requires limit <= 0
    ensures Built([], frames, kind, candidates, existing, limit)
  {
  }

  method NumberRounds(windows: seq<Window>, rounds: seq<Segment>) returns (numbered: seq<Window>)
    ensures numbered == WithRounds(windows, rounds)
  {
    var a := new Window[|windows|](i requires 0 <= i < |windows| => windows[i]);
    AssignWindowRoundNumbers(a, rounds);
    numbered := a[..];
  }

  // ----- The chosen windows

  lemma RelabelledFamily(windows: seq<Window>, rounds: seq<Segment>)
    requires Family(windows)
    ensures Family(WithRounds(windows, rounds))
  {
    var numbered := WithRounds(windows, rounds);
    forall i | 0 <= i < |windows| ensures SameReach(numbered[i], windows[i]) {
    }
    hide WithRounds;
    hide SameReach;
    hide Clear;
    hide Shaped;
    forall i, j | 0 <= i < |windows| && 0 <= j < |windows| ensures Clear(numbered[i], numbered[j]) == Clear(windows[i], windows[j]) {
      ReachDecides(numbered[i], windows[i], numbered[j], windows[j]);
    }
    forall i | 0 <= i < |windows| ensures Shaped(numbered[i]) {
      ReachDecides(numbered[i], windows[i], numbered[i], windows[i]);
    }
  }

  predicate SameReach(a: Window, b: Window) {
    a.kind == b.kind && a.start == b.start && a.end == b.end && a.peak == b.peak
  }

  lemma ReachDecides(a: Window, b: Window, c: Window, d: Window)
    requires SameReach(a, b) && SameReach(c, d)
    ensures Clear(a, c) == Clear(b, d) && Shaped(a) == Shaped(b)
  {
  }

  lemma SelectedFamily(selected: seq<Window>, windows: seq<Window>, limit: int)
    requires SelectedFrom(selected, windows, limit) && Family(windows) && AllOfKind(windows, DeathReview)
    ensures Family(selected) && AllOfKind(selected, DeathReview)
  {
    ClearIsSymmetric();
    SelectionPairwise(selected, windows, limit, Clear);
    var shaped := w => Shaped(w);
    var death := (w: Window) => w.kind == DeathReview;
    assert forall a, b :: SameButId(a, b) ==> shaped(a) == shaped(b);
    hide SelectedFrom;
    hide Clear;
    SelectionMembers(selected, windows, limit, shaped);
    SelectionMembers(selected, windows, limit, death);
    hide Shaped;
  }

  lemma DeathsAreClear(s: Stages, frames: seq<Observation>, m: int, rounds: seq<Segment>, sqrt: real -> real)
    requires Timeline(frames) && Staged(s, frames, m, rounds, sqrt) && 1 <= m <= MAX_REVIEW_WINDOWS
    ensures Family(s.deaths) && AllOfKind(s.deaths, DeathReview) && |s.deaths| <= DeathBudget(m) <= m
  {
    CandidatesUnfold(s, frames, m, rounds, sqrt);
    hide *;
    BudgetsFit(m);
    CandidatesAreClear(s.candidates, frames, DeathClusters(frames, |frames|), |frames|, rounds);
    SelectedFamily(s.deaths, WithRounds(s.candidates, rounds), DeathBudget(m));
    SelectionSize(s.deaths, WithRounds(s.candidates, rounds), DeathBudget(m));
  }

  lemma CandidatesAreClear(candidates: seq<Window>, frames: seq<Observation>, clusters: seq<Candidate>, limit: int, rounds: seq<Segment>)
    requires Timeline(frames) && Built(candidates, frames, DeathReview, clusters, [], limit)
    ensures Family(WithRounds(candidates, rounds)) && AllOfKind(WithRounds(candidates, rounds), DeathReview)
  {
    EmptyFamily();
    assert PlacedBefore(DeathReview, []);
    hide Family;
    hide Built;
    hide Timeline;
    BuiltIsClear(candidates, frames, DeathReview, clusters, [], limit);
    assert [] + candidates == candidates;
    RelabelledFamily(candidates, rounds);
  }

  lemma CandidatesUnfold(s: Stages, frames: seq<Observation>, m: int, rounds: seq<Segment>, sqrt: real -> real)
    requires Staged(s, frames, m, rounds, sqrt)
    ensures Built(s.candidates, frames, DeathReview, DeathClusters(frames, |frames|), [], |frames|)
    ensures SelectedFrom(s.deaths, WithRounds(s.candidates, rounds), DeathBudget(m))
  {
  }

  lemma StageOrder(deaths: seq<Window>, fights: seq<Window>, calms: seq<Window>)
    requires AllOfKind(deaths, DeathReview)
    ensures PlacedBefore(CombatSpike, deaths)
    ensures AllOfKind(fights, CombatSpike) ==> PlacedBefore(LowActivity, deaths + fights)
    ensures AllOfKind(fights, CombatSpike) && AllOfKind(calms, LowActivity) ==> PlacedBefore(RotationSpike, deaths + fights + calms)
  {
  }

  lemma LimitsFit(budget: int, room: int)
    requires budget >= 0 && room >= 0
    ensures 0 <= AtMost(budget, room) <= budget && AtMost(budget, room) <= room
  {
  }

  lemma StagesUnfold(s: Stages, frames: seq<Observation>, m: int, rounds: seq<Segment>, sqrt: real -> real)
    requires Staged(s, frames, m, rounds, sqrt)
    ensures Built(s.fights, frames, CombatSpike, FightFrames(frames, FightThreshold(frames, sqrt), |frames|),
                  s.deaths, AtMost(CombatBudget(m), m - |s.deaths|))
    ensures Built(s.calms, frames, LowActivity, CalmPeriods(frames, CalmThreshold(frames), |frames|),
                  s.deaths + s.fights, AtMost(DecisionBudget(m), m - |s.deaths| - |s.fights|))
    ensures Built(s.rotations, frames, RotationSpike,
                  RotationFrames(frames, RotationThreshold(frames, sqrt), CombatCeiling(frames), |frames|),
                  s.deaths + s.fights + s.calms, m - |s.deaths| - |s.fights| - |s.calms|)
    ensures s.All() == s.deaths + s.fights + s.calms + s.rotations
  {
  }

  /** Every stage keeps all windows clear of one another and within its budget. */
  lemma StagesAreClear(s: Stages, frames: seq<Observation>, m: int, rounds: seq<Segment>, sqrt: real -> real)
    requires Timeline(frames) && Staged(s, frames, m, rounds, sqrt) && 1 <= m <= MAX_REVIEW_WINDOWS
    ensures Family(s.All()) && |s.All()| <= m
    ensures |s.deaths| <= DeathBudget(m) && |s.fights| <= CombatBudget(m) && |s.calms| <= DecisionBudget(m)
    ensures AllOfKind(s.deaths, DeathReview) && AllOfKind(s.fights, CombatSpike)
    ensures AllOfKind(s.calms, LowActivity) && AllOfKind(s.rotations, RotationSpike)
  {
    hide *;
    BudgetsFit(m);
    DeathsAreClear(s, frames, m, rounds, sqrt);
    StagesUnfold(s, frames, m, rounds, sqrt);
    StageOrder(s.deaths, s.fights, s.calms);
    LimitsFit(CombatBudget(m), m - |s.deaths|);
    BuiltIsClear(s.fights, frames, CombatSpike, FightFrames(frames, FightThreshold(frames, sqrt), |frames|),
                 s.deaths, AtMost(CombatBudget(m), m - |s.deaths|));
    StageOrder(s.deaths, s.fights, s.calms);
    LimitsFit(DecisionBudget(m), m - |s.deaths| - |s.fights|);
    BuiltIsClear(s.calms, frames, LowActivity, CalmPeriods(frames, CalmThreshold(frames), |frames|),
                 s.deaths + s.fights, AtMost(DecisionBudget(m), m - |s.deaths| - |s.fights|));
    StageOrder(s.deaths, s.fights, s.calms);
    BuiltIsClear(s.rotations, frames, RotationSpike,
                 RotationFrames(frames, RotationThreshold(frames, sqrt), CombatCeiling(frames), |frames|),
                 s.deaths + s.fights + s.calms, m - |s.deaths| - |s.fights| - |s.calms|);
  }

  lemma EmptyFamily()
    ensures Family([])
  {
    ClearIsSymmetric();
  }

  lemma BudgetsFit(m: int)
    requires 1 <= m <= MAX_REVIEW_WINDOWS
    ensures 1 <= DeathBudget(m) <= m && 1 <= CombatBudget(m) <= m && 1 <= DecisionBudget(m) <= m
  {
  }

  function OfKind(kind: Kind): Window -> bool {
    (w: Window) => w.kind == kind
  }

  /** `b` begins after the end of `a`, further away than their kinds ask for. */
  predicate Follows(a: Window, b: Window) {
    a.end + Gap(a.kind, b.kind) < b.start
  }

  /** What the report promises: at most `m` windows, within the budget of every kind, each at least
      eight seconds long around its peak, in order, disjoint, and under distinct IDs. */
  ghost predicate Reviewable(windows: seq<Window>, m: int) {
    && |windows| <= m
    && CountIf(windows, OfKind(DeathReview)) <= DeathBudget(m)
    && CountIf(windows, OfKind(CombatSpike)) <= CombatBudget(m)
    && CountIf(windows, OfKind(LowActivity)) <= DecisionBudget(m)
    && (forall i :: 0 <= i < |windows| ==>
          Shaped(windows[i]) && windows[i].start <= windows[i].peak <= windows[i].end && windows[i].end - windows[i].start >= 8.0)
    && (forall i, j :: 0 <= i < j < |windows| ==> Follows(windows[i], windows[j]) && windows[i].id != windows[j].id)
  }

  lemma StageCounts(s: Stages, kind: Kind)
    requires AllOfKind(s.deaths, DeathReview) && AllOfKind(s.fights, CombatSpike)
    requires AllOfKind(s.calms, LowActivity) && AllOfKind(s.rotations, RotationSpike)
    ensures CountIf(s.All(), OfKind(kind)) ==
            match kind case DeathReview => |s.deaths| case CombatSpike => |s.fights|
                       case LowActivity => |s.calms| case RotationSpike => |s.rotations|
  {
    var p := OfKind(kind);
    CountIfAppend(s.deaths, s.fights, p);
    CountIfAppend(s.deaths + s.fights, s.calms, p);
    CountIfAppend(s.deaths + s.fights + s.calms, s.rotations, p);
    CountIfAll(s.deaths, p, kind == DeathReview);
    CountIfAll(s.fights, p, kind == CombatSpike);
    CountIfAll(s.calms, p, kind == LowActivity);
    CountIfAll(s.rotations, p, kind == RotationSpike);
  }

  /** The review chooses at most clamp(max, 1, 20) windows, within the budget of every kind, each
      holding its peak, sorted by start under distinct IDs: pairwise disjoint closed intervals. */
  lemma ReviewIsReviewable(windows: seq<Window>, frames: seq<Observation>, m: int, rounds: seq<Segment>, sqrt: real -> real)
    requires Timeline(frames) && 1 <= m <= MAX_REVIEW_WINDOWS && Reviewed(windows, frames, m, rounds, sqrt)
    ensures Reviewable(windows, m)
    ensures forall i, j :: 0 <= i < j < |windows| ==> windows[i].end < windows[j].start
  {
    var s :| Staged(s, frames, m, rounds, sqrt) && Arranged(windows, s.All());
    hide *;
    StagesAreClear(s, frames, m, rounds, sqrt);
    FamilyArranged(windows, s.All());
    StageCounts(s, DeathReview);
    StageCounts(s, CombatSpike);
    StageCounts(s, LowActivity);
    KindsKept(windows, s.All(), DeathReview);
    KindsKept(windows, s.All(), CombatSpike);
    KindsKept(windows, s.All(), LowActivity);
    ArrangedWindows(windows, s.All());
    IsReviewable(windows, m);
    ReviewableIsDisjoint(windows, m);
  }

  lemma IsReviewable(windows: seq<Window>, m: int)
    requires |windows| <= m && Family(windows)
    requires CountIf(windows, OfKind(DeathReview)) <= DeathBudget(m)
    requires CountIf(windows, OfKind(CombatSpike)) <= CombatBudget(m)
    requires CountIf(windows, OfKind(LowActivity)) <= DecisionBudget(m)
    requires forall i, j :: 0 <= i < j < |windows| ==> windows[i].start <= windows[j].start && windows[i].id != windows[j].id
    ensures Reviewable(windows, m)
  {
    hide CountIf;
    hide Symmetric;
    hide Shaped;
    hide Clear;
    hide Follows;
    forall i | 0 <= i < |windows|
      ensures windows[i].start <= windows[i].peak <= windows[i].end && windows[i].end - windows[i].start >= 8.0
    {
      ShapedSpans(windows[i]);
    }
    forall i, j | 0 <= i < j < |windows| ensures Follows(windows[i], windows[j]) {
      ClearFollows(windows[i], windows[j]);
    }
  }

  lemma ClearFollows(a: Window, b: Window)
    requires Shaped(a) && Shaped(b) && Clear(a, b) && a.start <= b.start
    ensures Follows(a, b)
  {
    ShapedSpans(a);
    ShapedSpans(b);
  }

  lemma ReviewableIsDisjoint(windows: seq<Window>, m: int)
    requires Reviewable(windows, m)
    ensures forall i, j :: 0 <= i < j < |windows| ==> windows[i].end < windows[j].start
  {
    hide Shaped;
    hide CountIf;
    hide Gap;
  }

  lemma KindsKept(result: seq<Window>, windows: seq<Window>, kind: Kind)
    requires Arranged(result, windows)
    ensures CountIf(result, OfKind(kind)) == CountIf(windows, OfKind(kind))
  {
    ArrangedMembers(result, windows, OfKind(kind));
  }

  lemma FamilyArranged(result: seq<Window>, windows: seq<Window>)
    requires Arranged(result, windows) && Family(windows)
    ensures Family(result)
  {
    ClearIsSymmetric();
    ArrangedPairwise(result, windows, Clear);
    var shaped := w => Shaped(w);
    assert forall a, b :: SameButId(a, b) ==> shaped(a) == shaped(b);
    ArrangedMembers(result, windows, shaped);
    hide Clear;
    hide Shaped;
  }

  // ----- Windows peak at frames

  /** The window peaks at a frame. */
  ghost predicate Placed(frames: seq<Observation>, w: Window) {
    exists k :: 0 <= k < |frames| && w.peak == frames[k].timestamp
  }

  ghost predicate AllPlaced(frames: seq<Observation>, windows: seq<Window>) {
    forall i :: 0 <= i < |windows| ==> Placed(frames, windows[i])
  }

  lemma {:induction false} ChosenArePlaced(frames: seq<Observation>, kind: Kind, ranked: seq<Candidate>, existing: seq<Window>, limit: int, n: nat)
    requires n <= |ranked| && AllFit(frames, kind, ranked)
    ensures AllPlaced(frames, Chosen(frames, kind, ranked, existing, limit, n))
  {
    if n > 0 {
      ChosenStep(frames, kind, ranked, existing, limit, n);
      var earlier := Chosen(frames, kind, ranked, existing, limit, n - 1);
      CandidateIsPlaced(frames, kind, ranked[n - 1], |earlier| + 1);
      hide *;
      ChosenArePlaced(frames, kind, ranked, existing, limit, n - 1);
      JoinPlaced(frames, earlier, [WindowFor(frames, kind, ranked[n - 1], |earlier| + 1)]);
    }
  }

  lemma CandidateIsPlaced(frames: seq<Observation>, kind: Kind, c: Candidate, number: nat)
    requires c.peak < |frames|
    ensures AllPlaced(frames, [WindowFor(frames, kind, c, number)])
  {
    assert WindowFor(frames, kind, c, number).peak == frames[c.peak].timestamp;
  }

  lemma BuiltArePlaced(windows: seq<Window>, frames: seq<Observation>, kind: Kind, candidates: seq<Candidate>, existing: seq<Window>, limit: int)
    requires Built(windows, frames, kind, candidates, existing, limit)
    ensures AllPlaced(frames, windows)
  {
    if limit > 0 && candidates != [] {
      var ranked :| GreedyBy(windows, ranked, frames, kind, candidates, existing, limit);
      ChosenArePlaced(frames, kind, ranked, existing, limit, |ranked|);
    }
  }

  lemma NumberedArePlaced(windows: seq<Window>, frames: seq<Observation>, rounds: seq<Segment>)
    requires AllPlaced(frames, windows)
    ensures AllPlaced(frames, WithRounds(windows, rounds))
  {
    var numbered := WithRounds(windows, rounds);
    forall i | 0 <= i < |windows| ensures Placed(frames, numbered[i]) {
      assert Placed(frames, windows[i]);
    }
  }

  function PlacedIn(frames: seq<Observation>): (p: Window -> bool)
    ensures forall w :: p(w) == Placed(frames, w)
    ensures forall a, b :: SameButId(a, b) ==> p(a) == p(b)
  {
    (w: Window) => exists k :: 0 <= k < |frames| && w.peak == frames[k].timestamp
  }

  lemma JoinPlaced(frames: seq<Observation>, a: seq<Window>, b: seq<Window>)
    requires AllPlaced(frames, a) && AllPlaced(frames, b)
    ensures AllPlaced(frames, a + b)
  {
    hide Placed;
  }

  lemma ReviewIsPlaced(windows: seq<Window>, frames: seq<Observation>, m: int, rounds: seq<Segment>, sqrt: real -> real)
    requires Reviewed(windows, frames, m, rounds, sqrt)
    ensures AllPlaced(frames, windows)
  {
    var s :| Staged(s, frames, m, rounds, sqrt) && Arranged(windows, s.All());
    hide Staged;
    hide Arranged;
    hide AllPlaced;
    StagesArePlaced(s, frames, m, rounds, sqrt);
    ArrangedArePlaced(windows, s.All(), frames);
  }

  lemma StagesArePlaced(s: Stages, frames: seq<Observation>, m: int, rounds: seq<Segment>, sqrt: real -> real)
    requires Staged(s, frames, m, rounds, sqrt)
    ensures AllPlaced(frames, s.All())
  {
    hide *;
    CandidatesUnfold(s, frames, m, rounds, sqrt);
    StagesUnfold(s, frames, m, rounds, sqrt);
    BuiltArePlaced(s.candidates, frames, DeathReview, DeathClusters(frames, |frames|), [], |frames|);
    NumberedArePlaced(s.candidates, frames, rounds);
    SelectedArePlaced(s.deaths, WithRounds(s.candidates, rounds), DeathBudget(m), frames);
    BuiltArePlaced(s.fights, frames, CombatSpike, FightFrames(frames, FightThreshold(frames, sqrt), |frames|),
                   s.deaths, AtMost(CombatBudget(m), m - |s.deaths|));
    BuiltArePlaced(s.calms, frames, LowActivity, CalmPeriods(frames, CalmThreshold(frames), |frames|),
                   s.deaths + s.fights, AtMost(DecisionBudget(m), m - |s.deaths| - |s.fights|));
    BuiltArePlaced(s.rotations, frames, RotationSpike,
                   RotationFrames(frames, RotationThreshold(frames, sqrt), CombatCeiling(frames), |frames|),
                   s.deaths + s.fights + s.calms, m - |s.deaths| - |s.fights| - |s.calms|);
    JoinPlaced(frames, s.deaths, s.fights);
    JoinPlaced(frames, s.deaths + s.fights, s.calms);
    JoinPlaced(frames, s.deaths + s.fights + s.calms, s.rotations);
  }

  lemma SelectedArePlaced(selected: seq<Window>, windows: seq<Window>, limit: int, frames: seq<Observation>)
    requires SelectedFrom(selected, windows, limit) && AllPlaced(frames, windows)
    ensures AllPlaced(frames, selected)
  {
    hide SelectedFrom;
    hide Placed;
    SelectionMembers(selected, windows, limit, PlacedIn(frames));
  }

  lemma ArrangedArePlaced(result: seq<Window>, windows: seq<Window>, frames: seq<Observation>)
    requires Arranged(result, windows) && AllPlaced(frames, windows)
    ensures AllPlaced(frames, result)
  {
    hide Arranged;
    hide Placed;
    ArrangedMembers(result, windows, PlacedIn(frames));
  }
}
