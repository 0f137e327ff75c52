/** Naming the phase of every frame from thresholds over the whole match. */
module Phases {
  import opened Observations
  import opened RoundSegments
  import opened Rounding

  // ----- Averages

  function Total(frames: seq<Observation>, value: Observation -> real, n: nat): real
    requires n <= |frames|
  {
    if n == 0 then 0.0 else Total(frames, value, n - 1) + value(frames[n - 1])
  }

  function Average(frames: seq<Observation>, value: Observation -> real): real {
    if frames == [] then 0.0 else Total(frames, value, |frames|) / |frames| as real
  }

  function Square(x: real): real {
    x * x
  }

  function SquaredError(frames: seq<Observation>, average: real, value: Observation -> real, n: nat): real
    requires n <= |frames|
  {
    if n == 0 then 0.0 else SquaredError(frames, average, value, n - 1) + Square(value(frames[n - 1]) - average)
  }

  /** The standard deviation, for a given square root function. */
  function Deviation(frames: seq<Observation>, average: real, value: Observation -> real, sqrt: real -> real): real {
    if frames == [] then 0.0 else sqrt(SquaredError(frames, average, value, |frames|) / |frames| as real)
  }

  method AverageOf(frames: seq<Observation>, value: Observation -> real) returns (average: real)
    ensures average == Average(frames, value)
  {
    if frames == [] {
      return 0.0;
    }
    var sum := 0.0;
    for n := 0 to |frames|
      invariant sum == Total(frames, value, n)
    {
      sum := sum + value(frames[n]);
    }
    return sum / |frames| as real;
  }

  method DeviationOf(frames: seq<Observation>, average: real, value: Observation -> real, sqrt: real -> real)
    returns (deviation: real)
    ensures deviation == Deviation(frames, average, value, sqrt)
  {
    if frames == [] {
      return 0.0;
    }
    var sum := 0.0;
    for n := 0 to |frames|
      invariant sum == SquaredError(frames, average, value, n)
    {
      sum := sum + Square(value(frames[n]) - average);
    }
    return sqrt(sum / |frames| as real);
  }

  /** What the square root function promises of its result. */
  predicate RootAt(sqrt: real -> real, x: real) {
    sqrt(x) >= 0.0 && Square(sqrt(x)) == x
  }

  /** The deviation is the root of the mean squared error: zero exactly when every frame has the
      average, and no frame is further from it than the deviation times the root of their number. */
  lemma DeviationIsRoot(frames: seq<Observation>, average: real, value: Observation -> real, sqrt: real -> real)
    requires frames != [] && RootAt(sqrt, SquaredError(frames, average, value, |frames|) / |frames| as real)
    ensures var d := Deviation(frames, average, value, sqrt);
            && d >= 0.0 && Square(d) * |frames| as real == SquaredError(frames, average, value, |frames|)
            && (d == 0.0 <==> forall i :: 0 <= i < |frames| ==> value(frames[i]) == average)
            && forall i :: 0 <= i < |frames| ==> Square(value(frames[i]) - average) <= Square(d) * |frames| as real
  {
    var d, n := Deviation(frames, average, value, sqrt), |frames| as real;
    var error := SquaredError(frames, average, value, |frames|);
    assert error / n * n == error;
    ErrorsAddUp(frames, average, value, |frames|);
    SquareIsZero(d);
    if d == 0.0 {
      forall i | 0 <= i < |frames| ensures value(frames[i]) == average {
        SquareIsZero(value(frames[i]) - average);
      }
    }
    hide SquaredError;
    if error == 0.0 {
      assert Square(d) == 0.0;
    }
  }

  lemma SquareIsZero(x: real)
    ensures Square(x) >= 0.0 && (Square(x) == 0.0 <==> x == 0.0)
  {
    if x != 0.0 {
      var inverse := 1.0 / x;
      assert inverse * x == 1.0;
      assert (inverse * x) * x == x;
      assert inverse * (x * x) == x;
    }
  }

  lemma {:induction false} ErrorsAddUp(frames: seq<Observation>, average: real, value: Observation -> real, n: nat)
    requires n <= |frames|
    ensures SquaredError(frames, average, value, n) >= 0.0
    ensures forall i :: 0 <= i < n ==> Square(value(frames[i]) - average) <= SquaredError(frames, average, value, n)
    ensures (forall i :: 0 <= i < n ==> value(frames[i]) == average) ==> SquaredError(frames, average, value, n) == 0.0
  {
    if n > 0 {
      ErrorsAddUp(frames, average, value, n - 1);
      SquareIsZero(value(frames[n - 1]) - average);
    }
  }

  function Motion(o: Observation): real {
    o.motion
  }

  function Combat(o: Observation): real {
    o.combat
  }

  /** An average lies between bounds that hold for every frame. */
  lemma {:induction false} AverageWithin(frames: seq<Observation>, value: Observation -> real, low: real, high: real)
    requires frames != [] && forall i :: 0 <= i < |frames| ==> low <= value(frames[i]) <= high
    ensures low <= Average(frames, value) <= high
  {
    TotalWithin(frames, value, low, high, |frames|);
    QuotientWithin(Total(frames, value, |frames|), |frames| as real, low, high);
  }

  lemma {:induction false} TotalWithin(frames: seq<Observation>, value: Observation -> real, low: real, high: real, n: nat)
    requires n <= |frames| && forall i :: 0 <= i < |frames| ==> low <= value(frames[i]) <= high
    ensures low * n as real <= Total(frames, value, n) <= high * n as real
  {
    if n > 0 {
      TotalWithin(frames, value, low, high, n - 1);
      assert low * n as real == low * (n - 1) as real + low;
      assert high * n as real == high * (n - 1) as real + high;
    }
  }

  lemma QuotientWithin(total: real, parts: real, low: real, high: real)
    requires parts > 0.0 && low * parts <= total <= high * parts
    ensures low <= total / parts <= high
  {
  }

  // ----- Thresholds and phases

  datatype Thresholds = Thresholds(fight: real, rotate: real, hold: real)

  function ThresholdsOf(frames: seq<Observation>, sqrt: real -> real): Thresholds {
    var motion, combat := Average(frames, Motion), Average(frames, Combat);
    Thresholds(Max(0.24, combat + Deviation(frames, combat, Combat, sqrt) * 0.72), Max(0.16, motion * 1.35), Max(0.035, motion * 0.58))
  }

  predicate HasCombatCorroboration(o: Observation) {
    o.killfeedEvent >= 0.18 || o.damage >= 0.82
  }

  /** One of the four screens that hide the game is up. */
  predicate HasOverlay(o: Observation) {
    o.buyPhase >= TRUSTED_BUY_PHASE || o.scoreboard >= TRUSTED_SCOREBOARD ||
    o.combatReport >= TRUSTED_COMBAT_REPORT || o.roundEnd >= TRUSTED_ROUND_END
  }

  predicate IsFight(o: Observation, t: Thresholds) {
    o.combat >= t.fight && HasCombatCorroboration(o)
  }

  function PhaseOf(o: Observation, t: Thresholds): Phase {
    if o.buyPhase >= TRUSTED_BUY_PHASE then Buy
    else if o.combatReport >= TRUSTED_COMBAT_REPORT then Death
    else if o.scoreboard >= TRUSTED_SCOREBOARD then Board
    else if o.roundEnd >= TRUSTED_ROUND_END then End
    else if IsFight(o, t) then Fight
    else if o.motion >= t.rotate then Rotate
    else if o.motion <= t.hold then Hold
    else Midround
  }

  function Classified(frames: seq<Observation>, sqrt: real -> real): (classified: seq<Observation>)
    ensures |classified| == |frames|
    ensures forall i :: 0 <= i < |frames| ==> classified[i] == frames[i].(phase := PhaseOf(frames[i], ThresholdsOf(frames, sqrt)))
  {
    var t := ThresholdsOf(frames, sqrt);
    seq(|frames|, i requires 0 <= i < |frames| => frames[i].(phase := PhaseOf(frames[i], t)))
  }

  method ClassifyPhases(frames: array<Observation>, sqrt: real -> real)
    modifies frames
    ensures frames[..] == Classified(old(frames[..]), sqrt)
  {
    var avgMotion := AverageOf(frames[..], Motion);
    var avgCombat := AverageOf(frames[..], Combat);
    var stdCombat := DeviationOf(frames[..], avgCombat, Combat, sqrt);
    var t := Thresholds(Max(0.24, avgCombat + stdCombat * 0.72), Max(0.16, avgMotion * 1.35), Max(0.035, avgMotion * 0.58));
    assert t == ThresholdsOf(old(frames[..]), sqrt);
    hide *;
    for index := 0 to frames.Length
      invariant forall i :: index <= i < frames.Length ==> frames[i] == old(frames[i])
      invariant forall i :: 0 <= i < index ==> frames[i] == old(frames[i]).(phase := PhaseOf(old(frames[i]), t))
    {
      frames[index] := frames[index].(phase := PhaseOf(frames[index], t));
    }
  }

  /** Frames that differ at most in their phases. */
  ghost predicate SamePictures(a: seq<Observation>, b: seq<Observation>) {
    |a| == |b| && forall i :: 0 <= i < |a| ==> a[i].(phase := b[i].phase) == b[i]
  }

  lemma {:induction false} SamePicturesSameTotals(a: seq<Observation>, b: seq<Observation>, average: real, n: nat)
    requires SamePictures(a, b) && n <= |a|
    ensures Total(a, Motion, n) == Total(b, Motion, n)
    ensures Total(a, Combat, n) == Total(b, Combat, n)
    ensures SquaredError(a, average, Combat, n) == SquaredError(b, average, Combat, n)
  {
    if n > 0 {
      SamePicturesSameTotals(a, b, average, n - 1);
      assert Motion(a[n - 1]) == Motion(b[n - 1]) && Combat(a[n - 1]) == Combat(b[n - 1]);
    }
  }

  /** Classifying frames that already have phases gives the phases again. */
  lemma ClassifyingTwice(frames: seq<Observation>, sqrt: real -> real)
    ensures Classified(Classified(frames, sqrt), sqrt) == Classified(frames, sqrt)
  {
    var once := Classified(frames, sqrt);
    assert SamePictures(frames, once);
    SamePicturesSameTotals(frames, once, Average(frames, Combat), |frames|);
    hide Total;
    hide SquaredError;
    assert ThresholdsOf(frames, sqrt) == ThresholdsOf(once, sqrt);
  }

  /** What the phases mean. The screens come first, the buy screen before a combat report, that before
      the scoreboard and that before the end of a round; a fight needs a kill feed or damage beside the
      combat. The order in which motion is tested does not matter, for no frame is both slow enough to
      hold and fast enough to rotate. */
  lemma PhasesMean(frames: seq<Observation>, sqrt: real -> real, o: Observation)
    requires frames != [] && forall i :: 0 <= i < |frames| ==> 0.0 <= frames[i].motion <= 1.0
    ensures var t, phase := ThresholdsOf(frames, sqrt), PhaseOf(o, ThresholdsOf(frames, sqrt));
            var buy, report, board, end := o.buyPhase >= 0.90, o.combatReport >= 0.90, o.scoreboard >= 0.80, o.roundEnd >= 0.90;
            var screen, fight := buy || report || board || end, o.combat >= t.fight && (o.killfeedEvent >= 0.18 || o.damage >= 0.82);
            && t.hold < t.rotate
            && (phase == Buy <==> buy)
            && (phase == Death <==> report && !buy)
            && (phase == Board <==> board && !buy && !report)
            && (phase == End <==> end && !buy && !report && !board)
            && (HasOverlay(o) <==> screen)
            && (phase == Fight <==> !screen && fight)
            && (phase == Hold <==> !screen && !fight && o.motion <= t.hold)
            && (phase == Rotate <==> !screen && !fight && o.motion >= t.rotate)
            && (phase == Midround <==> !screen && !fight && t.hold < o.motion < t.rotate)
  {
    AverageWithin(frames, Motion, 0.0, 1.0);
  }

  // ----- What the thresholds are

  function CombatSum(frames: seq<Observation>): real {
    if frames == [] then 0.0 else CombatSum(frames[..|frames| - 1]) + frames[|frames| - 1].combat
  }

  function MotionSum(frames: seq<Observation>): real {
    if frames == [] then 0.0 else MotionSum(frames[..|frames| - 1]) + frames[|frames| - 1].motion
  }

  /** The sum of the squares of how far the combat of each frame is from `mean`. */
  function CombatErrors(frames: seq<Observation>, mean: real): real {
    if frames == [] then 0.0
    else
      var error := frames[|frames| - 1].combat - mean;
      CombatErrors(frames[..|frames| - 1], mean) + error * error
  }

  lemma {:induction false} TotalsAreSums(frames: seq<Observation>, mean: real, n: nat)
    requires n <= |frames|
    ensures Total(frames, Combat, n) == CombatSum(frames[..n]) && Total(frames, Motion, n) == MotionSum(frames[..n])
    ensures SquaredError(frames, mean, Combat, n) == CombatErrors(frames[..n], mean)
  {
    if n > 0 {
      TotalsAreSums(frames, mean, n - 1);
      assert frames[..n][..n - 1] == frames[..n - 1];
    }
  }

  lemma PositiveProduct(x: real, y: real)
    requires x > 0.0 && y > 0.0
    ensures x * y > 0.0
  {
  }

  lemma RootsAreEqual(x: real, y: real)
    requires x >= 0.0 && y >= 0.0 && x * x == y * y
    ensures x == y
  {
    assert x * x - y * y == (x - y) * (x + y);
    if x > y {
      PositiveProduct(x - y, x + y);
    } else if y > x {
      PositiveProduct(y - x, x + y);
    }
  }

  lemma QuotientIs(total: real, parts: real, each: real)
    requires parts > 0.0 && each * parts == total
    ensures total / parts == each
  {
  }

  lemma AverageIs(frames: seq<Observation>, value: Observation -> real, mean: real)
    requires frames != [] && mean * |frames| as real == Total(frames, value, |frames|)
    ensures Average(frames, value) == mean
  {
    QuotientIs(Total(frames, value, |frames|), |frames| as real, mean);
  }

  lemma DeviationIs(frames: seq<Observation>, mean: real, value: Observation -> real, sqrt: real -> real, deviation: real)
    requires frames != [] && deviation >= 0.0
    requires deviation * deviation * |frames| as real == SquaredError(frames, mean, value, |frames|)
    requires RootAt(sqrt, SquaredError(frames, mean, value, |frames|) / |frames| as real)
    ensures Deviation(frames, mean, value, sqrt) == deviation
  {
    hide SquaredError;
    QuotientIs(SquaredError(frames, mean, value, |frames|), |frames| as real, deviation * deviation);
    RootsAreEqual(sqrt(SquaredError(frames, mean, value, |frames|) / |frames| as real), deviation);
  }

  lemma ThresholdsFrom(frames: seq<Observation>, sqrt: real -> real)
    ensures var combat, motion := Average(frames, Combat), Average(frames, Motion);
            ThresholdsOf(frames, sqrt) == Thresholds(Max(0.24, combat + 0.72 * Deviation(frames, combat, Combat, sqrt)),
                                                     Max(0.16, 1.35 * motion), Max(0.035, 0.58 * motion))
  {
    hide Average;
    hide Deviation;
    hide Max;
  }

  /** A fight takes the mean combat of the match and 0.72 standard deviations, and never less than
      0.24; rotating takes 1.35 times the mean motion and holding at most 0.58 times. */
  lemma ThresholdsMean(frames: seq<Observation>, sqrt: real -> real, combat: real, motion: real, deviation: real)
    requires frames != []
    requires combat * |frames| as real == CombatSum(frames) && motion * |frames| as real == MotionSum(frames)
    requires deviation >= 0.0 && deviation * deviation * |frames| as real == CombatErrors(frames, combat)
    requires RootAt(sqrt, CombatErrors(frames, combat) / |frames| as real)
    ensures ThresholdsOf(frames, sqrt) ==
            Thresholds(Max(0.24, combat + 0.72 * deviation), Max(0.16, 1.35 * motion), Max(0.035, 0.58 * motion))
  {
    hide *;
    assert frames[..|frames|] == frames;
    TotalsAreSums(frames, combat, |frames|);
    AverageIs(frames, Combat, combat);
    AverageIs(frames, Motion, motion);
    DeviationIs(frames, combat, Combat, sqrt, deviation);
    ThresholdsFrom(frames, sqrt);
  }

  function AllPhaseCounts(frames: seq<Observation>, n: nat, k: nat): nat
    requires n <= |frames| && k <= |ORDER|
  {
    if k == 0 then 0 else AllPhaseCounts(frames, n, k - 1) + PhaseCount(frames, ORDER[k - 1], n)
  }

  lemma {:induction false} OneMoreFrame(frames: seq<Observation>, n: nat, k: nat)
    requires 0 < n <= |frames| && k <= |ORDER|
    ensures AllPhaseCounts(frames, n, k) ==
            AllPhaseCounts(frames, n - 1, k) + (if Position(frames[n - 1].phase) < k then 1 else 0)
  {
    if k > 0 {
      OneMoreFrame(frames, n, k - 1);
    }
  }

  lemma {:induction false} NoFrames(frames: seq<Observation>, k: nat)
    requires k <= |ORDER|
    ensures AllPhaseCounts(frames, 0, k) == 0
  {
    if k > 0 {
      NoFrames(frames, k - 1);
    }
  }

  /** The counts of a profile account for every classified frame, once. */
  lemma {:induction false} ProfileAccountsForAll(frames: seq<Observation>, n: nat)
    requires n <= |frames| && forall i :: 0 <= i < |frames| ==> frames[i].phase != Unclassified
    ensures AllPhaseCounts(frames, n, |ORDER|) == n
  {
    if n > 0 {
      ProfileAccountsForAll(frames, n - 1);
      OneMoreFrame(frames, n, |ORDER|);
    } else {
      NoFrames(frames, |ORDER|);
    }
  }

  /** Summed over the eight phases, the profile of a classified match counts its frames. */
  lemma ClassifiedFramesAreCounted(frames: seq<Observation>, sqrt: real -> real)
    ensures var c := Classified(frames, sqrt);
            && AllPhaseCounts(c, |c|, |ORDER|) == |frames|
            && forall k :: 0 <= k < |ORDER| ==> CountIn(Profile(c, |ORDER|), ORDER[k]) == PhaseCount(c, ORDER[k], |c|)
  {
    var c := Classified(frames, sqrt);
    ProfileAccountsForAll(c, |c|);
    forall k | 0 <= k < |ORDER| ensures CountIn(Profile(c, |ORDER|), ORDER[k]) == PhaseCount(c, ORDER[k], |c|) {
      assert Position(ORDER[k]) == k;
      ProfileCounts(c, ORDER[k], |ORDER|);
    }
  }
}
