/** Cutting the frames and the review windows of a match into round segments. */
module RoundSegments {
  import opened Observations
  import opened Rounding
  import opened RoundTimeline
  import opened Windows

  datatype PhaseStat = PhaseStat(phase: Phase, count: nat, ratio: real)

  datatype Segment = Segment(round: nat, start: real, end: real, duration: real, detection: Detection,
                             profile: seq<PhaseStat>, windowIds: seq<WindowId>)

  // ----- Membership in a range

  predicate InRange(t: real, start: real, end: real, includeEnd: bool) {
    start <= t <= end && (includeEnd || t != end)
  }

  function FramesInRange(frames: seq<Observation>, start: real, end: real, includeEnd: bool, n: nat): seq<Observation>
    requires n <= |frames|
  {
    if n == 0 then []
    else
      var earlier := FramesInRange(frames, start, end, includeEnd, n - 1);
      if InRange(frames[n - 1].timestamp, start, end, includeEnd) then earlier + [frames[n - 1]] else earlier
  }

  function IdsInRange(windows: seq<Window>, start: real, end: real, includeEnd: bool, n: nat): seq<WindowId>
    requires n <= |windows|
  {
    if n == 0 then []
    else
      var earlier := IdsInRange(windows, start, end, includeEnd, n - 1);
      if InRange(windows[n - 1].peak, start, end, includeEnd) then earlier + [windows[n - 1].id] else earlier
  }

  method ObservationsInRange(frames: seq<Observation>, start: real, end: real, includeEnd: bool)
    returns (range: seq<Observation>)
    ensures range == FramesInRange(frames, start, end, includeEnd, |frames|)
  {
    range := [];
    for n := 0 to |frames|
      invariant range == FramesInRange(frames, start, end, includeEnd, n)
    {
      if frames[n].timestamp < start {
        continue;
      }
      if frames[n].timestamp > end || (!includeEnd && frames[n].timestamp == end) {
        continue;
      }
      range := range + [frames[n]];
    }
  }

  method ReviewWindowIdsInRange(windows: seq<Window>, start: real, end: real, includeEnd: bool)
    returns (ids: seq<WindowId>)
    ensures ids == IdsInRange(windows, start, end, includeEnd, |windows|)
  {
    ids := [];
    for n := 0 to |windows|
      invariant ids == IdsInRange(windows, start, end, includeEnd, n)
    {
      if windows[n].peak < start {
        continue;
      }
      if windows[n].peak > end || (!includeEnd && windows[n].peak == end) {
        continue;
      }
      ids := ids + [windows[n].id];
    }
  }

  // ----- Phase profiles

  const ORDER: seq<Phase> := [Buy, Fight, Death, Board, End, Rotate, Midround, Hold]

  function PhaseCount(frames: seq<Observation>, phase: Phase, n: nat): nat
    requires n <= |frames|
  {
    if n == 0 then 0 else PhaseCount(frames, phase, n - 1) + (if frames[n - 1].phase == phase then 1 else 0)
  }

  /** The non-zero phase counts in their fixed order, for the first `n` phases of it. */
  function Profile(frames: seq<Observation>, n: nat): seq<PhaseStat>
    requires n <= |ORDER|
  {
    if n == 0 || frames == [] then []
    else
      var earlier, count := Profile(frames, n - 1), PhaseCount(frames, ORDER[n - 1], |frames|);
      if count == 0 then earlier
      else earlier + [PhaseStat(ORDER[n - 1], count, Round4(count as real / |frames| as real))]
  }

  method BuildPhaseProfile(frames: seq<Observation>) returns (stats: seq<PhaseStat>)
    ensures stats == Profile(frames, |ORDER|)
  {
    if frames == [] {
      return [];
    }
    var counts: map<Phase, nat> := map[];
    for n := 0 to |frames|
      invariant forall p: Phase :: (if p in counts then counts[p] else 0) == PhaseCount(frames, p, n)
    {
      var phase := frames[n].phase;
      counts := counts[phase := (if phase in counts then counts[phase] else 0) + 1];
    }
    stats := [];
    for n := 0 to |ORDER|
      invariant stats == Profile(frames, n)
    {
      var count := if ORDER[n] in counts then counts[ORDER[n]] else 0;
      if count == 0 {
        continue;
      }
      stats := stats + [PhaseStat(ORDER[n], count, Round4(count as real / |frames| as real))];
    }
  }

  /** The count a profile gives a phase; a phase it leaves out counts zero. */
  function CountIn(stats: seq<PhaseStat>, phase: Phase): nat {
    if stats == [] then 0
    else if stats[|stats| - 1].phase == phase then stats[|stats| - 1].count
    else CountIn(stats[..|stats| - 1], phase)
  }

  /** Where a phase stands in the fixed order; an unclassified frame stands nowhere in it. */
  function Position(phase: Phase): (k: nat)
    ensures k < |ORDER| ==> ORDER[k] == phase
    ensures forall j :: 0 <= j < |ORDER| && ORDER[j] == phase ==> j == k
    ensures phase != Unclassified ==> k < |ORDER|
  {
    match phase
    case Buy => 0
    case Fight => 1
    case Death => 2
    case Board => 3
    case End => 4
    case Rotate => 5
    case Midround => 6
    case Hold => 7
    case Unclassified => 8
  }

  /** A profile gives every phase its exact number of frames. */
  lemma {:induction false} ProfileCounts(frames: seq<Observation>, phase: Phase, n: nat)
    requires n <= |ORDER|
    ensures CountIn(Profile(frames, n), phase) == if Position(phase) < n then PhaseCount(frames, phase, |frames|) else 0
  {
    if frames == [] {
      return;
    }
    if n > 0 {
      ProfileCounts(frames, phase, n - 1);
      NextProfile(frames, n);
      hide *;
      var count := PhaseCount(frames, ORDER[n - 1], |frames|);
      AppendedCount(Profile(frames, n - 1), PhaseStat(ORDER[n - 1], count, Round4(count as real / |frames| as real)), phase);
    }
  }

  lemma NextProfile(frames: seq<Observation>, n: nat)
    requires 0 < n <= |ORDER| && frames != []
    ensures var count := PhaseCount(frames, ORDER[n - 1], |frames|);
            Profile(frames, n) ==
            if count == 0 then Profile(frames, n - 1)
            else Profile(frames, n - 1) + [PhaseStat(ORDER[n - 1], count, Round4(count as real / |frames| as real))]
  {
  }

  lemma AppendedCount(stats: seq<PhaseStat>, stat: PhaseStat, phase: Phase)
    ensures CountIn(stats + [stat], phase) == if stat.phase == phase then stat.count else CountIn(stats, phase)
  {
    assert (stats + [stat])[..|stats|] == stats;
  }

  // ----- Segments

  function SegmentFrames(frames: seq<Observation>, boundaries: seq<real>, k: nat): seq<Observation>
    requires k + 1 < |boundaries|
  {
    FramesInRange(frames, boundaries[k], boundaries[k + 1], k == |boundaries| - 2, |frames|)
  }

  function SegmentBetween(frames: seq<Observation>, windows: seq<Window>, start: real, end: real, last: bool, detection: Detection, round: nat): Segment {
    Segment(round, Round3(start), Round3(end), Round3(end - start), detection,
            Profile(FramesInRange(frames, start, end, last, |frames|), |ORDER|), IdsInRange(windows, start, end, last, |windows|))
  }

  function SegmentAt(frames: seq<Observation>, windows: seq<Window>, boundaries: seq<real>, detection: Detection, k: nat): Segment
    requires k + 1 < |boundaries|
  {
    SegmentBetween(frames, windows, boundaries[k], boundaries[k + 1], k == |boundaries| - 2, detection, k + 1)
  }

  /** A boundary before its predecessor would count as its predecessor. */
  method RoundSegmentsFromBoundaries(frames: seq<Observation>, windows: seq<Window>, boundaries: seq<real>, detection: Detection)
    returns (segments: seq<Segment>)
    requires boundaries != []
    ensures |segments| == |boundaries| - 1
    ensures forall k :: 0 <= k < |segments| ==>
              segments[k] == SegmentBetween(frames, windows, boundaries[k], Max(boundaries[k], boundaries[k + 1]),
                                            k == |boundaries| - 2, detection, k + 1)
  {
    hide Profile;
    hide FramesInRange;
    hide IdsInRange;
    hide Round3;
    segments := [];
    for index := 0 to |boundaries| - 1
      invariant |segments| == index
      invariant forall k :: 0 <= k < index ==>
        segments[k] == SegmentBetween(frames, windows, boundaries[k], Max(boundaries[k], boundaries[k + 1]),
                                      k == |boundaries| - 2, detection, k + 1)
    {
      var start, end := boundaries[index], boundaries[index + 1];
      if end < start {
        end := start;
      }
      var segmentFrames := ObservationsInRange(frames, start, end, index == |boundaries| - 2);
      var profile := BuildPhaseProfile(segmentFrames);
      var ids := ReviewWindowIdsInRange(windows, start, end, index == |boundaries| - 2);
      segments := segments + [Segment(index + 1, Round3(start), Round3(end), Round3(end - start), detection, profile, ids)];
    }
  }

  lemma OrderedEnds(boundaries: seq<real>, first: real, last: real)
    requires Ladder(boundaries, first, last)
    ensures forall k :: 0 <= k < |boundaries| - 1 ==> Max(boundaries[k], boundaries[k + 1]) == boundaries[k + 1]
  {
  }

  method BuildRoundSegments(frames: seq<Observation>, windows: seq<Window>) returns (segments: seq<Segment>)
    requires Timeline(frames)
    ensures frames == [] ==> segments == []
    ensures frames != [] ==>
      var b, detection := Boundaries(frames), if UsesAnchors(frames) then BuyPhaseAnchors else VisualTimeline;
      && |segments| == |b| - 1
      && forall k :: 0 <= k < |segments| ==> segments[k] == SegmentAt(frames, windows, b, detection, k)
  {
    if frames == [] {
      return [];
    }
    BoundariesFormLadder(frames);
    OrderedEnds(Boundaries(frames), First(frames), Last(frames));
    LadderSteps(Boundaries(frames), First(frames), Last(frames), 0);
    hide Boundaries;
    hide Max;
    hide SegmentBetween;
    hide UsesAnchors;
    var boundaries, detection := BuildBoundaries(frames);
    segments := RoundSegmentsFromBoundaries(frames, windows, boundaries, detection);
  }

  // ----- The segments partition the timeline

  /** Time `t` belongs to segment `k` of the boundaries. */
  predicate Holds(boundaries: seq<real>, k: int, t: real) {
    0 <= k < |boundaries| - 1 && InRange(t, boundaries[k], boundaries[k + 1], k == |boundaries| - 2)
  }

  /** Every time between the first and the last boundary lies in exactly one segment. */
  lemma ExactlyOneSegment(b: seq<real>, first: real, last: real, t: real) returns (k: nat)
    requires Ladder(b, first, last) && first <= t <= last
    ensures forall j :: Holds(b, j, t) <==> j == k
  {
    k := 0;
    while k + 2 < |b| && b[k + 1] <= t
      invariant k + 1 < |b| && b[k] <= t
      decreases |b| - k
    {
      k := k + 1;
    }
    assert Holds(b, k, t);
    hide Holds;
    hide Ladder;
    forall j | Holds(b, j, t) ensures j == k {
      HoldersAreEqual(b, first, last, t, j, k);
    }
  }

  lemma HoldersAreEqual(b: seq<real>, first: real, last: real, t: real, j: int, k: int)
    requires Ladder(b, first, last) && Holds(b, j, t) && Holds(b, k, t)
    ensures j == k
  {
  }

  /** How many frames come before time `x`. */
  function Below(frames: seq<Observation>, x: real, n: nat): (count: nat)
    requires n <= |frames|
    ensures count <= n
  {
    if n == 0 then 0 else Below(frames, x, n - 1) + (if frames[n - 1].timestamp < x then 1 else 0)
  }

  /** In order of time, a frame before `x` has only such frames before it. */
  lemma {:induction false} AllBelow(frames: seq<Observation>, x: real, n: nat)
    requires Chronological(frames) && n <= |frames|
    requires n == 0 || frames[n - 1].timestamp < x
    ensures Below(frames, x, n) == n
  {
    if n > 1 {
      assert frames[n - 2].timestamp <= frames[n - 1].timestamp;
    }
    if n > 0 {
      AllBelow(frames, x, n - 1);
    }
  }

  lemma {:induction false} NoneBelow(frames: seq<Observation>, x: real, n: nat)
    requires Chronological(frames) && n <= |frames| && (n == 0 || x <= frames[0].timestamp)
    ensures Below(frames, x, n) == 0
  {
    if n > 0 {
      NoneBelow(frames, x, n - 1);
    }
  }

  /** In order of time, a half-open range is a slice. */
  lemma {:induction false} RangeIsSlice(frames: seq<Observation>, start: real, end: real, n: nat)
    requires Chronological(frames) && start <= end && n <= |frames|
    ensures Below(frames, start, n) <= Below(frames, end, n)
    ensures FramesInRange(frames, start, end, false, n) == frames[Below(frames, start, n)..Below(frames, end, n)]
  {
    if n > 0 {
      RangeIsSlice(frames, start, end, n - 1);
      if frames[n - 1].timestamp < start {
        AllBelow(frames, start, n);
        AllBelow(frames, end, n);
      } else if frames[n - 1].timestamp < end {
        AllBelow(frames, end, n);
        hide Chronological;
        SliceGrows(frames, Below(frames, start, n - 1), n - 1);
      }
    }
  }

  /** A range up to and including the last frame is a slice too. */
  lemma {:induction false} ClosedRangeIsSlice(frames: seq<Observation>, start: real, end: real, n: nat)
    requires Chronological(frames) && n <= |frames| && (n == 0 || frames[n - 1].timestamp <= end)
    ensures FramesInRange(frames, start, end, true, n) == frames[Below(frames, start, n)..n]
  {
    if n > 0 {
      if n > 1 {
        assert frames[n - 2].timestamp <= frames[n - 1].timestamp;
      }
      ClosedRangeIsSlice(frames, start, end, n - 1);
      if frames[n - 1].timestamp < start {
        AllBelow(frames, start, n);
      } else {
        hide Chronological;
        SliceGrows(frames, Below(frames, start, n - 1), n - 1);
      }
    }
  }

  lemma SliceGrows<T>(s: seq<T>, a: nat, n: nat)
    requires a <= n < |s|
    ensures s[a..n + 1] == s[a..n] + [s[n]]
  {
  }

  function AllSegmentFrames(frames: seq<Observation>, boundaries: seq<real>, n: nat): seq<Observation>
    requires n < |boundaries|
  {
    if n == 0 then [] else AllSegmentFrames(frames, boundaries, n - 1) + SegmentFrames(frames, boundaries, n - 1)
  }

  lemma {:induction false} SegmentsCoverPrefix(frames: seq<Observation>, b: seq<real>, n: nat)
    requires Chronological(frames) && frames != [] && Ladder(b, First(frames), Last(frames)) && n + 1 < |b|
    ensures AllSegmentFrames(frames, b, n) == frames[..Below(frames, b[n], |frames|)]
  {
    LadderSteps(b, First(frames), Last(frames), n);
    hide Ladder;
    hide Below;
    hide FramesInRange;
    if n == 0 {
      NoneBelow(frames, b[0], |frames|);
    } else {
      SegmentsCoverPrefix(frames, b, n - 1);
      hide Chronological;
      RangeIsSlice(frames, b[n - 1], b[n], |frames|);
      Rejoin(frames, Below(frames, b[n - 1], |frames|), Below(frames, b[n], |frames|));
    }
  }

  /** Laid end to end, the frames of the segments are the frames of the match: none is lost,
      repeated or moved. */
  lemma SegmentsPartitionFrames(frames: seq<Observation>)
    requires Timeline(frames) && frames != []
    ensures var b := Boundaries(frames);
            |b| >= 2 && AllSegmentFrames(frames, b, |b| - 1) == frames
  {
    BoundariesFormLadder(frames);
    var b := Boundaries(frames);
    hide *;
    SegmentsCover(frames, b);
  }

  lemma SegmentsCover(frames: seq<Observation>, b: seq<real>)
    requires Chronological(frames) && frames != [] && Ladder(b, First(frames), Last(frames))
    ensures |b| >= 2 && AllSegmentFrames(frames, b, |b| - 1) == frames
  {
    LadderSteps(b, First(frames), Last(frames), 0);
    hide *;
    SegmentsCoverPrefix(frames, b, |b| - 2);
    LastSegmentFrames(frames, b);
    Rejoin(frames, Below(frames, b[|b| - 2], |frames|), |frames|);
    NextSegmentFrames(frames, b, |b| - 1);
  }

  lemma NextSegmentFrames(frames: seq<Observation>, b: seq<real>, n: nat)
    requires 0 < n < |b|
    ensures AllSegmentFrames(frames, b, n) == AllSegmentFrames(frames, b, n - 1) + SegmentFrames(frames, b, n - 1)
  {
  }

  lemma LastSegmentFrames(frames: seq<Observation>, b: seq<real>)
    requires Chronological(frames) && frames != [] && |b| >= 2 && b[|b| - 1] == Last(frames)
    ensures SegmentFrames(frames, b, |b| - 2) == frames[Below(frames, b[|b| - 2], |frames|)..|frames|]
  {
    ClosedRangeIsSlice(frames, b[|b| - 2], b[|b| - 1], |frames|);
  }

  lemma LadderSteps(b: seq<real>, first: real, last: real, n: nat)
    requires Ladder(b, first, last) && n < |b|
    ensures |b| >= 2 && b[0] == first && b[|b| - 1] == last
    ensures n > 0 ==> b[n - 1] <= b[n]
  {
  }

  lemma Rejoin<T>(s: seq<T>, m: nat, n: nat)
    requires m <= n <= |s|
    ensures s[..m] + s[m..n] == s[..n]
    ensures s[..|s|] == s
  {
  }

  lemma {:induction false} PhaseCountAppend(a: seq<Observation>, b: seq<Observation>, phase: Phase, n: nat)
    requires n <= |b|
    ensures PhaseCount(a + b, phase, |a| + n) == PhaseCount(a, phase, |a|) + PhaseCount(b, phase, n)
  {
    if n > 0 {
      PhaseCountAppend(a, b, phase, n - 1);
    } else {
      PhaseCountPrefix(a, b, phase, |a|);
    }
  }

  lemma {:induction false} PhaseCountPrefix(a: seq<Observation>, b: seq<Observation>, phase: Phase, n: nat)
    requires n <= |a|
    ensures PhaseCount(a + b, phase, n) == PhaseCount(a, phase, n)
  {
    if n > 0 {
      PhaseCountPrefix(a, b, phase, n - 1);
    }
  }

  function SumOfProfiles(frames: seq<Observation>, boundaries: seq<real>, phase: Phase, n: nat): nat
    requires n < |boundaries|
  {
    if n == 0 then 0
    else SumOfProfiles(frames, boundaries, phase, n - 1) +
         CountIn(Profile(SegmentFrames(frames, boundaries, n - 1), |ORDER|), phase)
  }

  lemma {:induction false} ProfilesAddUp(frames: seq<Observation>, b: seq<real>, phase: Phase, n: nat)
    requires n < |b| && phase != Unclassified
    ensures SumOfProfiles(frames, b, phase, n) == PhaseCount(AllSegmentFrames(frames, b, n), phase, |AllSegmentFrames(frames, b, n)|)
  {
    if n > 0 {
      ProfilesAddUp(frames, b, phase, n - 1);
      ProfileCounts(SegmentFrames(frames, b, n - 1), phase, |ORDER|);
      PhaseCountAppend(AllSegmentFrames(frames, b, n - 1), SegmentFrames(frames, b, n - 1), phase, |SegmentFrames(frames, b, n - 1)|);
    }
  }

  /** For every phase the counts of the segments add up to the count of the whole match. */
  lemma PhaseCountsAreConserved(frames: seq<Observation>, phase: Phase)
    requires Timeline(frames) && frames != [] && phase != Unclassified
    ensures var b := Boundaries(frames);
            |b| >= 2 && SumOfProfiles(frames, b, phase, |b| - 1) == CountIn(Profile(frames, |ORDER|), phase)
  {
    SegmentsPartitionFrames(frames);
    var b := Boundaries(frames);
    hide Boundaries;
    ProfilesAddUp(frames, b, phase, |b| - 1);
    ProfileCounts(frames, phase, |ORDER|);
  }

  // ----- Round numbers of windows

  /** The round of the first of the segments from `n` on that holds the peak, by rounded bounds. */
  function RoundFor(segments: seq<Segment>, peak: real, n: nat, otherwise: int): int
    requires n <= |segments|
    decreases |segments| - n
  {
    if n == |segments| then otherwise
    else if InRange(peak, segments[n].start, segments[n].end, n == |segments| - 1) then segments[n].round
    else RoundFor(segments, peak, n + 1, otherwise)
  }

  method AssignWindowRoundNumbers(windows: array<Window>, segments: seq<Segment>)
    modifies windows
    ensures forall w :: 0 <= w < windows.Length ==>
              windows[w] == old(windows[w]).(round := RoundFor(segments, old(windows[w].peak), 0, old(windows[w].round)))
  {
    for w := 0 to windows.Length
      invariant forall v :: w <= v < windows.Length ==> windows[v] == old(windows[v])
      invariant forall v :: 0 <= v < w ==>
        windows[v] == old(windows[v]).(round := RoundFor(segments, old(windows[v].peak), 0, old(windows[v].round)))
    {
      var s := 0;
      while s < |segments|
        invariant s <= |segments|
        invariant windows[w] == old(windows[w])
        invariant forall v :: w < v < windows.Length ==> windows[v] == old(windows[v])
        invariant forall v :: 0 <= v < w ==>
          windows[v] == old(windows[v]).(round := RoundFor(segments, old(windows[v].peak), 0, old(windows[v].round)))
        invariant RoundFor(segments, windows[w].peak, 0, windows[w].round) == RoundFor(segments, windows[w].peak, s, windows[w].round)
      {
        var includeEnd := s == |segments| - 1;
        if windows[w].peak < segments[s].start {
          s := s + 1;
          continue;
        }
        if windows[w].peak > segments[s].end || (!includeEnd && windows[w].peak == segments[s].end) {
          s := s + 1;
          continue;
        }
        windows[w] := windows[w].(round := segments[s].round);
        break;
      }
    }
  }

  // ----- The two passes agree

  /** The published bounds of the segments are the boundaries, whatever windows they list. */
  ghost predicate CutAt(segments: seq<Segment>, boundaries: seq<real>) {
    && |segments| == |boundaries| - 1
    && forall k :: 0 <= k < |segments| ==>
         segments[k].round == k + 1 && segments[k].start == boundaries[k] && segments[k].end == boundaries[k + 1]
  }

  lemma {:induction false} RoundForFirst(segments: seq<Segment>, b: seq<real>, peak: real, n: nat, k: nat, otherwise: int)
    requires CutAt(segments, b) && n <= k < |segments| && Holds(b, k, peak)
    requires forall j :: Holds(b, j, peak) ==> j == k
    ensures RoundFor(segments, peak, n, otherwise) == k + 1
    decreases k - n
  {
    if n < k {
      assert !Holds(b, n, peak);
      RoundForFirst(segments, b, peak, n + 1, k, otherwise);
    }
  }

  lemma {:induction false} RoundForNone(segments: seq<Segment>, b: seq<real>, peak: real, n: nat, otherwise: int)
    requires CutAt(segments, b) && n <= |segments|
    requires forall j :: !Holds(b, j, peak)
    ensures RoundFor(segments, peak, n, otherwise) == otherwise
    decreases |segments| - n
  {
    if n < |segments| {
      assert !Holds(b, n, peak);
      RoundForNone(segments, b, peak, n + 1, otherwise);
    }
  }

  /** A window gets the number of the one segment whose published bounds hold its peak, and
      keeps its number if no segment does. Only the boundaries matter, so both passes over the
      same frames assign the same number. */
  lemma RoundForIsUnique(segments: seq<Segment>, b: seq<real>, first: real, last: real, peak: real, otherwise: int)
    requires CutAt(segments, b) && Ladder(b, first, last)
    ensures first <= peak <= last ==> 1 <= RoundFor(segments, peak, 0, otherwise) <= |segments|
    ensures !(first <= peak <= last) ==> RoundFor(segments, peak, 0, otherwise) == otherwise
    ensures first <= peak <= last ==> forall k :: Holds(b, k, peak) <==> RoundFor(segments, peak, 0, otherwise) == k + 1
  {
    if first <= peak <= last {
      var k := ExactlyOneSegment(b, first, last, peak);
      assert Holds(b, k, peak) && |segments| == |b| - 1;
      hide Ladder;
      hide CutAt;
      RoundForFirst(segments, b, peak, 0, k, otherwise);
    } else {
      forall j ensures !Holds(b, j, peak) {
        OutsideLadder(b, first, last, j, peak);
      }
      hide CutAt;
      RoundForNone(segments, b, peak, 0, otherwise);
    }
  }

  lemma OutsideLadder(b: seq<real>, first: real, last: real, j: int, t: real)
    requires Ladder(b, first, last) && !(first <= t <= last)
    ensures !Holds(b, j, t)
  {
    if 0 <= j < |b| - 1 {
      assert b[0] <= b[j] && b[j + 1] <= b[|b| - 1];
    }
  }

  /** A window's ID is listed for a range exactly when its peak lies in the range. */
  lemma {:induction false} ListedWhenInRange(windows: seq<Window>, w: nat, start: real, end: real, includeEnd: bool, n: nat)
    requires w < |windows| && n <= |windows|
    requires forall i, j :: 0 <= i < j < |windows| ==> windows[i].id != windows[j].id
    ensures windows[w].id in IdsInRange(windows, start, end, includeEnd, n) <==>
            w < n && InRange(windows[w].peak, start, end, includeEnd)
  {
    if n > 0 {
      ListedWhenInRange(windows, w, start, end, includeEnd, n - 1);
      assert w != n - 1 ==> windows[w].id != windows[n - 1].id;
    }
  }

  /** A window between the first and the last frame gets exactly one round, and the pass that
      lists windows agrees with the pass that numbers them: the window is listed in segment `k`
      if and only if it gets round `k + 1`. */
  lemma PassesAgree(frames: seq<Observation>, windows: seq<Window>, segments: seq<Segment>, w: nat, detection: Detection, otherwise: int)
    requires Timeline(frames) && frames != [] && w < |windows|
    requires forall i, j :: 0 <= i < j < |windows| ==> windows[i].id != windows[j].id
    requires First(frames) <= windows[w].peak <= Last(frames)
    requires CutAt(segments, Boundaries(frames))
    ensures 1 <= RoundFor(segments, windows[w].peak, 0, otherwise) <= |segments| == |Boundaries(frames)| - 1
    ensures forall k :: 0 <= k < |segments| ==>
              (windows[w].id in SegmentAt(frames, windows, Boundaries(frames), detection, k).windowIds <==>
               RoundFor(segments, windows[w].peak, 0, otherwise) == k + 1)
  {
    BoundariesFormLadder(frames);
    var b := Boundaries(frames);
    RoundForIsUnique(segments, b, First(frames), Last(frames), windows[w].peak, otherwise);
    assert |segments| == |b| - 1;
    hide *;
    forall k | 0 <= k < |segments|
      ensures windows[w].id in SegmentAt(frames, windows, b, detection, k).windowIds <==>
              RoundFor(segments, windows[w].peak, 0, otherwise) == k + 1
    {
      ListedInSegment(frames, windows, b, detection, w, k);
    }
  }

  lemma ListedInSegment(frames: seq<Observation>, windows: seq<Window>, b: seq<real>, detection: Detection, w: nat, k: nat)
    requires w < |windows| && k + 1 < |b|
    requires forall i, j :: 0 <= i < j < |windows| ==> windows[i].id != windows[j].id
    ensures windows[w].id in SegmentAt(frames, windows, b, detection, k).windowIds <==> Holds(b, k, windows[w].peak)
  {
    ListedWhenInRange(windows, w, b[k], b[k + 1], k == |b| - 2, |windows|);
  }

  /** Rounding the bounds of the segments changes nothing, for every boundary is the time of a
      frame or has been rounded before. */
  lemma SegmentsAreCut(frames: seq<Observation>, windows: seq<Window>, detection: Detection, segments: seq<Segment>)
    requires Timeline(frames) && frames != [] && |segments| == |Boundaries(frames)| - 1
    requires forall k :: 0 <= k < |segments| ==> segments[k] == SegmentAt(frames, windows, Boundaries(frames), detection, k)
    ensures CutAt(segments, Boundaries(frames))
  {
    hide Round3;
    hide Profile;
    hide IdsInRange;
    hide FramesInRange;
    var b := Boundaries(frames);
    forall k | 0 <= k < |b| ensures Round3(b[k]) == b[k] {
      BoundaryIsRounded(frames, k);
    }
    hide Boundaries;
    hide Timeline;
  }

  lemma BoundaryIsRounded(frames: seq<Observation>, k: nat)
    requires frames != [] && k < |Boundaries(frames)| && OnMilliseconds(frames)
    ensures WholeMilliseconds(Boundaries(frames)[k])
  {
    hide Round3;
    var first, last := First(frames), Last(frames);
    if UsesAnchors(frames) {
      var anchors := Anchors(frames, |frames|);
      if k < |Boundaries(frames)| - 1 {
        hide Anchors;
        AnchorBoundaryIsFrame(frames, |anchors|, first, last, k);
      }
    } else if k < |Boundaries(frames)| - 1 {
      CadenceBoundaryIsRounded(frames, first, last, Cadence(frames), EstimateRoundCount(Total(frames)) - 1, k);
    }
  }

  lemma {:induction false} AnchorBoundaryIsFrame(frames: seq<Observation>, n: nat, first: real, last: real, k: nat)
    requires n <= |Anchors(frames, |frames|)| && WholeMilliseconds(first) && OnMilliseconds(frames)
    requires k < |AnchorBoundaries(Anchors(frames, |frames|), n, first, last)|
    ensures WholeMilliseconds(AnchorBoundaries(Anchors(frames, |frames|), n, first, last)[k])
  {
    hide WholeMilliseconds;
    if n > 0 {
      var anchors := Anchors(frames, |frames|);
      if k < |AnchorBoundaries(anchors, n - 1, first, last)| {
        AnchorBoundaryIsFrame(frames, n - 1, first, last, k);
      } else {
        var i := AnchorsAreFrames(frames, |frames|, n - 1);
      }
    }
  }

  lemma {:induction false} CadenceBoundaryIsRounded(frames: seq<Observation>, first: real, last: real, cadence: real, n: nat, k: nat)
    requires k <= n && WholeMilliseconds(first)
    ensures WholeMilliseconds(CadenceBoundaries(frames, first, last, cadence, n)[k])
  {
    hide WholeMilliseconds;
    if n > 0 {
      if k < n {
        CadenceBoundaryIsRounded(frames, first, last, cadence, n - 1, k);
      } else {
        var previous := LastOf(CadenceBoundaries(frames, first, last, cadence, n - 1));
        var target := Target(first, cadence, n);
        Round3Laws(target, target);
        var snapped := Snap(frames, target, SnapRadius(cadence));
        Round3Laws(snapped, snapped);
      }
    }
  }

  /** Assigning round numbers a second time changes nothing. */
  lemma {:induction false} AssigningTwice(segments: seq<Segment>, peak: real, n: nat, otherwise: int)
    requires n <= |segments|
    ensures RoundFor(segments, peak, n, RoundFor(segments, peak, n, otherwise)) == RoundFor(segments, peak, n, otherwise)
    decreases |segments| - n
  {
    if n < |segments| {
      AssigningTwice(segments, peak, n + 1, otherwise);
    }
  }
}
