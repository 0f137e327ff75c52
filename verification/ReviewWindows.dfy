/** Choosing the review windows of a match within the report budget. */
module ReviewWindows {
  import opened Evidence
  import opened Observations
  import opened ReviewCandidates
  import opened Rounding
  import opened Sorting
  import opened WindowOrder
  import opened Windows

  /** The distance kept from windows of earlier kinds and from windows of the same kind. */
  function PadOthers(kind: Kind): real {
    match kind case DeathReview => 0.0 case CombatSpike => 0.0 case LowActivity => 4.0 case RotationSpike => 5.0
  }

  function PadOwn(kind: Kind): real {
    match kind case DeathReview => 5.0 case CombatSpike => 6.0 case LowActivity => 4.0 case RotationSpike => 5.0
  }

  function EvidenceBefore(kind: Kind): real {
    if kind == DeathReview then 5.0 else 4.0
  }

  function EvidenceAfter(kind: Kind): real {
    if kind == LowActivity then 4.0 else 3.0
  }

  // ----- Overlap

  predicate Overlaps(w: Window, start: real, end: real, padding: real) {
    start <= w.end + padding && end >= w.start - padding
  }

  predicate OverlapsSome(windows: seq<Window>, start: real, end: real, padding: real) {
    exists i :: 0 <= i < |windows| && Overlaps(windows[i], start, end, padding)
  }

  method OverlapsAny(windows: seq<Window>, start: real, end: real, padding: real) returns (overlaps: bool)
    ensures overlaps == OverlapsSome(windows, start, end, padding)
  {
    for n := 0 to |windows|
      invariant forall i :: 0 <= i < n ==> !Overlaps(windows[i], start, end, padding)
    {
      if start <= windows[n].end + padding && end >= windows[n].start - padding {
        assert Overlaps(windows[n], start, end, padding);
        return true;
      }
    }
    return false;
  }

  // ----- Choosing among ranked candidates

  /** Published bounds are whole milliseconds, except for low-activity windows. */
  function Published(kind: Kind, x: real): real {
    if kind == LowActivity then x else Round3(x)
  }

  function WindowWith(frames: seq<Observation>, kind: Kind, c: Candidate, number: nat, evidence: seq<EvidenceRef>): Window
    requires c.peak < |frames|
  {
    Window(WindowId(kind, number), kind, Published(kind, c.low), Published(kind, c.high), frames[c.peak].timestamp, 0,
           Round4(c.score), evidence)
  }

  function WindowFor(frames: seq<Observation>, kind: Kind, c: Candidate, number: nat): Window
    requires c.peak < |frames|
  {
    WindowWith(frames, kind, c, number, EvidenceOf(frames, c.peak, EvidenceBefore(kind), EvidenceAfter(kind)))
  }

  /** The candidate is clear of all windows so far and there is room for it. */
  predicate Accepts(kind: Kind, c: Candidate, existing: seq<Window>, chosen: seq<Window>, limit: int) {
    && |chosen| < limit
    && !OverlapsSome(existing, c.low, c.high, PadOthers(kind))
    && !OverlapsSome(chosen, c.low, c.high, PadOwn(kind))
  }

  /** The windows made of the first `n` ranked candidates. */
  function Chosen(frames: seq<Observation>, kind: Kind, ranked: seq<Candidate>, existing: seq<Window>, limit: int, n: nat)
    : (windows: seq<Window>)
    requires n <= |ranked| && AllFit(frames, kind, ranked)
    ensures limit >= 0 ==> |windows| <= limit
  {
    if n == 0 then []
    else
      var earlier := Chosen(frames, kind, ranked, existing, limit, n - 1);
      if Accepts(kind, ranked[n - 1], existing, earlier, limit)
      then earlier + [WindowFor(frames, kind, ranked[n - 1], |earlier| + 1)]
      else earlier
  }

  lemma {:induction false} ChosenStaysFull(frames: seq<Observation>, kind: Kind, ranked: seq<Candidate>, existing: seq<Window>, limit: int, m: nat, n: nat)
    requires m <= n <= |ranked| && AllFit(frames, kind, ranked)
    requires |Chosen(frames, kind, ranked, existing, limit, m)| >= limit
    ensures Chosen(frames, kind, ranked, existing, limit, n) == Chosen(frames, kind, ranked, existing, limit, m)
    decreases n
  {
    if m < n {
      ChosenStaysFull(frames, kind, ranked, existing, limit, m, n - 1);
    }
  }

  lemma NextChosen(frames: seq<Observation>, kind: Kind, ranked: seq<Candidate>, existing: seq<Window>, limit: int, n: nat)
    requires n < |ranked| && AllFit(frames, kind, ranked)
    ensures ranked[n].peak < |frames|
    ensures var earlier, c := Chosen(frames, kind, ranked, existing, limit, n), ranked[n];
            Chosen(frames, kind, ranked, existing, limit, n + 1) ==
            if |earlier| < limit && !OverlapsSome(existing, c.low, c.high, PadOthers(kind)) &&
               !OverlapsSome(earlier, c.low, c.high, PadOwn(kind))
            then earlier + [WindowWith(frames, kind, c, |earlier| + 1,
                                       EvidenceOf(frames, c.peak, EvidenceBefore(kind), EvidenceAfter(kind)))]
            else earlier
  {
    assert Fits(frames, kind, ranked[n]);
  }

  /** The loop at the end of each of the four builders. */
  method ChooseWindows(frames: seq<Observation>, kind: Kind, ranked: seq<Candidate>, existing: seq<Window>, limit: int)
    returns (windows: seq<Window>)
    requires Chronological(frames) && AllFit(frames, kind, ranked) && limit > 0
    ensures windows == Chosen(frames, kind, ranked, existing, limit, |ranked|)
  {
    windows := [];
    assert windows == Chosen(frames, kind, ranked, existing, limit, 0);
    hide *;
    for n := 0 to |ranked|
      invariant windows == Chosen(frames, kind, ranked, existing, limit, n) && |windows| < limit
    {
      NextChosen(frames, kind, ranked, existing, limit, n);
      var c := ranked[n];
      var besideOthers := OverlapsAny(existing, c.low, c.high, PadOthers(kind));
      var besideOwn := OverlapsAny(windows, c.low, c.high, PadOwn(kind));
      if besideOthers || besideOwn {
        continue;
      }
      var evidence := EvidenceSequence(frames, c.peak, EvidenceBefore(kind), EvidenceAfter(kind));
      windows := windows + [WindowWith(frames, kind, c, |windows| + 1, evidence)];
      if |windows| >= limit {
        ChosenStaysFull(frames, kind, ranked, existing, limit, n + 1, |ranked|);
        break;
      }
    }
  }

  /** Death candidates keep their order in time on equal scores; the others may swap. */
  predicate RanksHigher(kind: Kind, a: Candidate, b: Candidate) {
    a.score > b.score || (kind == DeathReview && a.score == b.score && a.peak < b.peak)
  }

  ghost predicate Ranked(kind: Kind, ranked: seq<Candidate>, candidates: seq<Candidate>) {
    && multiset(ranked) == multiset(candidates)
    && forall i, j :: 0 <= i < j < |ranked| ==> !RanksHigher(kind, ranked[j], ranked[i])
  }

  method RankCandidates(frames: seq<Observation>, kind: Kind, candidates: seq<Candidate>) returns (ranked: seq<Candidate>)
    requires AllFit(frames, kind, candidates)
    ensures Ranked(kind, ranked, candidates) && AllFit(frames, kind, ranked)
  {
    var less := (a, b) => RanksHigher(kind, a, b);
    ranked := SortBy(candidates, less);
    SortedMembers(ranked, candidates);
    hide Fits;
    forall i | 0 <= i < |ranked| ensures Fits(frames, kind, ranked[i]) {
      assert ranked[i] in candidates;
    }
  }

  /** The windows are the greedy choice from the candidates in some order of falling score. */
  ghost predicate GreedyChoice(windows: seq<Window>, frames: seq<Observation>, kind: Kind, candidates: seq<Candidate>,
                               existing: seq<Window>, limit: int)
  {
    exists ranked :: GreedyBy(windows, ranked, frames, kind, candidates, existing, limit)
  }

  ghost predicate GreedyBy(windows: seq<Window>, ranked: seq<Candidate>, frames: seq<Observation>, kind: Kind,
                           candidates: seq<Candidate>, existing: seq<Window>, limit: int)
  {
    && AllFit(frames, kind, ranked) && Ranked(kind, ranked, candidates)
    && windows == Chosen(frames, kind, ranked, existing, limit, |ranked|)
  }

  method ChooseRanked(frames: seq<Observation>, kind: Kind, candidates: seq<Candidate>, existing: seq<Window>, limit: int)
    returns (windows: seq<Window>)
    requires Chronological(frames) && AllFit(frames, kind, candidates) && limit > 0
    ensures GreedyChoice(windows, frames, kind, candidates, existing, limit)
  {
    hide *;
    var ranked := RankCandidates(frames, kind, candidates);
    windows := ChooseWindows(frames, kind, ranked, existing, limit);
    IsGreedy(windows, ranked, frames, kind, candidates, existing, limit);
  }

  lemma IsGreedy(windows: seq<Window>, ranked: seq<Candidate>, frames: seq<Observation>, kind: Kind,
                 candidates: seq<Candidate>, existing: seq<Window>, limit: int)
    requires AllFit(frames, kind, ranked) && Ranked(kind, ranked, candidates)
    requires windows == Chosen(frames, kind, ranked, existing, limit, |ranked|)
    ensures GreedyChoice(windows, frames, kind, candidates, existing, limit)
  {
    hide Ranked;
    hide AllFit;
    hide Chosen;
    assert GreedyBy(windows, ranked, frames, kind, candidates, existing, limit);
  }

  // ----- Windows stay clear of one another

  /** The bounds of a window belong to its peak. */
  ghost predicate Shaped(w: Window) {
    && 0.0 <= w.peak
    && (if w.kind == LowActivity then 0.0 <= w.start <= w.peak <= w.end && w.end - w.start >= 8.0
        else w.start == Max(0.0, w.peak - Lead(w.kind)) && w.end == w.peak + Tail(w.kind))
  }

  /** The order in which the kinds are placed. */
  function Rank(kind: Kind): int {
    match kind case DeathReview => 0 case CombatSpike => 1 case LowActivity => 2 case RotationSpike => 3
  }

  /** The distance two windows keep: that of their kind, or that of the kind placed later. */
  function Gap(a: Kind, b: Kind): (gap: real)
    ensures gap >= 0.0
  {
    if a == b then PadOwn(a) else if Rank(a) < Rank(b) then PadOthers(b) else PadOthers(a)
  }

  /** Two windows are disjoint, and further apart than their kinds ask for. */
  predicate Clear(a: Window, b: Window) {
    a.end + Gap(a.kind, b.kind) < b.start || b.end + Gap(a.kind, b.kind) < a.start
  }

  lemma ShapedSpans(w: Window)
    requires Shaped(w)
    ensures w.start <= w.peak <= w.end && w.end - w.start >= 8.0
    ensures !Clear(w, w)
  {
  }

  // ----- Greedy choice keeps windows clear

  /** Well-formed windows, clear of one another. */
  ghost predicate Family(windows: seq<Window>) {
    (forall i :: 0 <= i < |windows| ==> Shaped(windows[i])) && Pairwise(windows, Clear)
  }

  lemma ClearIsSymmetric()
    ensures forall a, b :: Clear(a, b) ==> Clear(b, a)
    ensures IgnoresIds(Clear)
    ensures Pairwise([], Clear)
  {
  }

  /** The windows already placed when those of a kind are chosen are of earlier kinds. */
  ghost predicate PlacedBefore(kind: Kind, existing: seq<Window>) {
    forall i :: 0 <= i < |existing| ==> Rank(existing[i].kind) < Rank(kind)
  }

  /** Publishing does not move the bounds of a candidate: its peak lies on a whole millisecond and
      it reaches a whole number of seconds either way. */
  lemma PublishedAsIs(frames: seq<Observation>, kind: Kind, c: Candidate)
    requires Timeline(frames) && Fits(frames, kind, c)
    ensures Published(kind, c.low) == c.low && Published(kind, c.high) == c.high
  {
    var time := frames[c.peak].timestamp;
    WholeMillisecondsShift(time, -(Lead(kind).Floor));
    WholeMillisecondsShift(time, Tail(kind).Floor);
    hide Round3;
  }

  lemma WindowIsShaped(frames: seq<Observation>, kind: Kind, c: Candidate, number: nat)
    requires Timeline(frames) && Fits(frames, kind, c)
    ensures Shaped(WindowFor(frames, kind, c, number))
  {
    PublishedAsIs(frames, kind, c);
    hide Published;
    hide EvidenceOf;
  }

  lemma AcceptedIsClear(frames: seq<Observation>, kind: Kind, c: Candidate, number: nat, w: Window)
    requires Timeline(frames) && Fits(frames, kind, c)
    requires Rank(w.kind) <= Rank(kind) && !Overlaps(w, c.low, c.high, Gap(w.kind, kind))
    ensures Clear(w, WindowFor(frames, kind, c, number))
  {
    PublishedAsIs(frames, kind, c);
    hide Published;
    hide EvidenceOf;
    hide Timeline;
    hide Gap;
  }

  ghost predicate AllOfKind(windows: seq<Window>, kind: Kind) {
    forall i :: 0 <= i < |windows| ==> windows[i].kind == kind
  }

  lemma NotOverlapping(windows: seq<Window>, start: real, end: real, padding: real, i: nat)
    requires !OverlapsSome(windows, start, end, padding) && i < |windows|
    ensures !Overlaps(windows[i], start, end, padding)
  {
  }

  /** An accepted candidate is clear of every window placed so far. */
  lemma AcceptedJoins(frames: seq<Observation>, kind: Kind, c: Candidate, existing: seq<Window>, chosen: seq<Window>, limit: int, i: nat)
    requires Timeline(frames) && Fits(frames, kind, c) && PlacedBefore(kind, existing)
    requires Family(existing + chosen) && AllOfKind(chosen, kind)
    requires Accepts(kind, c, existing, chosen, limit) && i < |existing| + |chosen|
    ensures Clear((existing + chosen)[i], WindowFor(frames, kind, c, |chosen| + 1))
  {
    var w := (existing + chosen)[i];
    if i < |existing| {
      NotOverlapping(existing, c.low, c.high, PadOthers(kind), i);
      AcceptedIsClear(frames, kind, c, |chosen| + 1, w);
    } else {
      NotOverlapping(chosen, c.low, c.high, PadOwn(kind), i - |existing|);
      AcceptedIsClear(frames, kind, c, |chosen| + 1, w);
    }
  }

  lemma FamilyGrows(windows: seq<Window>, w: Window)
    requires Family(windows) && Shaped(w) && forall i :: 0 <= i < |windows| ==> Clear(windows[i], w)
    ensures Family(windows + [w])
  {
    ShapedSpans(w);
    ClearIsSymmetric();
    hide Shaped;
    hide Clear;
  }

  lemma AcceptedExtends(frames: seq<Observation>, kind: Kind, c: Candidate, existing: seq<Window>, chosen: seq<Window>, limit: int)
    requires Timeline(frames) && Fits(frames, kind, c) && PlacedBefore(kind, existing)
    requires Family(existing + chosen) && AllOfKind(chosen, kind)
    requires Accepts(kind, c, existing, chosen, limit)
    ensures var w := WindowFor(frames, kind, c, |chosen| + 1);
            Family(existing + (chosen + [w])) && AllOfKind(chosen + [w], kind)
  {
    var w := WindowFor(frames, kind, c, |chosen| + 1);
    assert AllOfKind(chosen + [w], kind);
    WindowIsShaped(frames, kind, c, |chosen| + 1);
    hide *;
    forall i | 0 <= i < |existing + chosen| ensures Clear((existing + chosen)[i], w) {
      AcceptedJoins(frames, kind, c, existing, chosen, limit, i);
    }
    FamilyGrows(existing + chosen, w);
    assert existing + (chosen + [w]) == existing + chosen + [w];
  }

  lemma ChosenStep(frames: seq<Observation>, kind: Kind, ranked: seq<Candidate>, existing: seq<Window>, limit: int, n: nat)
    requires 0 < n <= |ranked| && AllFit(frames, kind, ranked)
    ensures Fits(frames, kind, ranked[n - 1]) && ranked[n - 1].peak < |frames|
    ensures var earlier := Chosen(frames, kind, ranked, existing, limit, n - 1);
            Chosen(frames, kind, ranked, existing, limit, n) ==
            if Accepts(kind, ranked[n - 1], existing, earlier, limit)
            then earlier + [WindowFor(frames, kind, ranked[n - 1], |earlier| + 1)]
            else earlier
  {
  }

  lemma StepIsClear(frames: seq<Observation>, kind: Kind, ranked: seq<Candidate>, existing: seq<Window>, limit: int, n: nat)
    requires Timeline(frames) && 0 < n <= |ranked| && AllFit(frames, kind, ranked) && PlacedBefore(kind, existing)
    requires Family(existing + Chosen(frames, kind, ranked, existing, limit, n - 1))
    requires AllOfKind(Chosen(frames, kind, ranked, existing, limit, n - 1), kind)
    ensures Family(existing + Chosen(frames, kind, ranked, existing, limit, n))
    ensures AllOfKind(Chosen(frames, kind, ranked, existing, limit, n), kind)
  {
    ChosenStep(frames, kind, ranked, existing, limit, n);
    var earlier, c := Chosen(frames, kind, ranked, existing, limit, n - 1), ranked[n - 1];
    hide *;
    if Accepts(kind, c, existing, earlier, limit) {
      AcceptedExtends(frames, kind, c, existing, earlier, limit);
    }
  }

  /** The windows of a kind are clear of one another and of all windows placed before. */
  lemma {:induction false} ChosenIsClear(frames: seq<Observation>, kind: Kind, ranked: seq<Candidate>, existing: seq<Window>, limit: int, n: nat)
    requires Timeline(frames) && n <= |ranked| && AllFit(frames, kind, ranked)
    requires PlacedBefore(kind, existing) && Family(existing)
    ensures Family(existing + Chosen(frames, kind, ranked, existing, limit, n))
    ensures AllOfKind(Chosen(frames, kind, ranked, existing, limit, n), kind)
  {
    if n == 0 {
      assert existing + [] == existing;
    } else {
      hide *;
      ChosenIsClear(frames, kind, ranked, existing, limit, n - 1);
      StepIsClear(frames, kind, ranked, existing, limit, n);
    }
  }

  /** What one builder adds: clear windows of its kind, within its limit. */
  lemma GreedyIsClear(windows: seq<Window>, frames: seq<Observation>, kind: Kind, candidates: seq<Candidate>,
                      existing: seq<Window>, limit: int)
    requires GreedyChoice(windows, frames, kind, candidates, existing, limit) && limit >= 0
    requires Timeline(frames) && PlacedBefore(kind, existing) && Family(existing)
    ensures Family(existing + windows) && |windows| <= limit && AllOfKind(windows, kind)
  {
    var ranked :| GreedyBy(windows, ranked, frames, kind, candidates, existing, limit);
    hide Chosen;
    ChosenIsClear(frames, kind, ranked, existing, limit, |ranked|);
  }

  // ----- The choice goes by score, and cannot be extended

  /** The window is the one made of the candidate, whatever its number. */
  ghost predicate Shows(w: Window, frames: seq<Observation>, kind: Kind, c: Candidate) {
    c.peak < |frames| && w == WindowFor(frames, kind, c, w.id.number)
  }

  /** The window is made of one of the first `n` ranked candidates. */
  ghost predicate FromFirst(frames: seq<Observation>, kind: Kind, ranked: seq<Candidate>, n: nat, w: Window)
    requires n <= |ranked|
  {
    exists j :: 0 <= j < n && Shows(w, frames, kind, ranked[j])
  }

  ghost predicate AllFromFirst(frames: seq<Observation>, kind: Kind, ranked: seq<Candidate>, n: nat, windows: seq<Window>)
    requires n <= |ranked|
  {
    forall k :: 0 <= k < |windows| ==> FromFirst(frames, kind, ranked, n, windows[k])
  }

  /** A window made of one of the first `n` candidates is too close to the stretch. */
  ghost predicate BesideFirst(frames: seq<Observation>, kind: Kind, ranked: seq<Candidate>, n: nat, windows: seq<Window>, c: Candidate)
    requires n <= |ranked|
  {
    exists k :: 0 <= k < |windows| && Overlaps(windows[k], c.low, c.high, PadOwn(kind)) && FromFirst(frames, kind, ranked, n, windows[k])
  }

  ghost predicate IsShown(windows: seq<Window>, frames: seq<Observation>, kind: Kind, c: Candidate) {
    exists k :: 0 <= k < |windows| && Shows(windows[k], frames, kind, c)
  }

  /** Why candidate `i` needs no further window: it has one, it was too close to a window placed
      before or to that of a candidate ranked before it, or those reached the limit. */
  ghost predicate Settled(frames: seq<Observation>, kind: Kind, ranked: seq<Candidate>, i: nat, existing: seq<Window>, chosen: seq<Window>, limit: int)
    requires i < |ranked|
  {
    || IsShown(chosen, frames, kind, ranked[i])
    || OverlapsSome(existing, ranked[i].low, ranked[i].high, PadOthers(kind))
    || BesideFirst(frames, kind, ranked, i, chosen, ranked[i])
    || (|chosen| >= limit && limit <= i && AllFromFirst(frames, kind, ranked, i, chosen))
  }

  lemma StaysSettled(frames: seq<Observation>, kind: Kind, ranked: seq<Candidate>, i: nat, existing: seq<Window>, chosen: seq<Window>, limit: int, w: Window)
    requires i < |ranked| && |chosen| < limit && Settled(frames, kind, ranked, i, existing, chosen, limit)
    ensures Settled(frames, kind, ranked, i, existing, chosen + [w], limit)
  {
    hide Shows;
    hide Overlaps;
    hide OverlapsSome;
    hide FromFirst;
    var more := chosen + [w];
    if IsShown(chosen, frames, kind, ranked[i]) {
      var k :| 0 <= k < |chosen| && Shows(chosen[k], frames, kind, ranked[i]);
      assert more[k] == chosen[k];
    } else if BesideFirst(frames, kind, ranked, i, chosen, ranked[i]) {
      var c := ranked[i];
      var k :| 0 <= k < |chosen| && Overlaps(chosen[k], c.low, c.high, PadOwn(kind)) && FromFirst(frames, kind, ranked, i, chosen[k]);
      assert more[k] == chosen[k];
    }
  }

  lemma OneMoreFromFirst(frames: seq<Observation>, kind: Kind, ranked: seq<Candidate>, n: nat, windows: seq<Window>, number: nat)
    requires n < |ranked| && AllFromFirst(frames, kind, ranked, n, windows)
    ensures AllFromFirst(frames, kind, ranked, n + 1, windows)
    ensures ranked[n].peak < |frames| ==>
              AllFromFirst(frames, kind, ranked, n + 1, windows + [WindowFor(frames, kind, ranked[n], number)])
  {
    hide WindowFor;
    hide Shows;
    forall k | 0 <= k < |windows| ensures FromFirst(frames, kind, ranked, n + 1, windows[k]) {
      assert FromFirst(frames, kind, ranked, n, windows[k]);
      var j :| 0 <= j < n && Shows(windows[k], frames, kind, ranked[j]);
    }
    if ranked[n].peak < |frames| {
      ShowsItself(frames, kind, ranked[n], number);
    }
  }

  lemma ShowsItself(frames: seq<Observation>, kind: Kind, c: Candidate, number: nat)
    requires c.peak < |frames|
    ensures Shows(WindowFor(frames, kind, c, number), frames, kind, c)
  {
    hide EvidenceOf;
    hide Published;
  }

  lemma NoneFromFirst(frames: seq<Observation>, kind: Kind, ranked: seq<Candidate>, existing: seq<Window>, limit: int)
    requires AllFit(frames, kind, ranked)
    ensures AllFromFirst(frames, kind, ranked, 0, Chosen(frames, kind, ranked, existing, limit, 0))
  {
  }

  /** Every chosen window is made of a ranked candidate. */
  lemma {:induction false} ChosenFromRanked(frames: seq<Observation>, kind: Kind, ranked: seq<Candidate>, existing: seq<Window>, limit: int, n: nat)
    requires n <= |ranked| && AllFit(frames, kind, ranked)
    ensures AllFromFirst(frames, kind, ranked, n, Chosen(frames, kind, ranked, existing, limit, n))
  {
    hide *;
    if n == 0 {
      NoneFromFirst(frames, kind, ranked, existing, limit);
    } else {
      ChosenFromRanked(frames, kind, ranked, existing, limit, n - 1);
      ChosenStep(frames, kind, ranked, existing, limit, n);
      var earlier := Chosen(frames, kind, ranked, existing, limit, n - 1);
      OneMoreFromFirst(frames, kind, ranked, n - 1, earlier, |earlier| + 1);
    }
  }

  lemma {:induction false} ChosenCount(frames: seq<Observation>, kind: Kind, ranked: seq<Candidate>, existing: seq<Window>, limit: int, n: nat)
    requires n <= |ranked| && AllFit(frames, kind, ranked)
    ensures |Chosen(frames, kind, ranked, existing, limit, n)| <= n
  {
    hide WindowFor;
    hide Accepts;
    if n > 0 {
      ChosenCount(frames, kind, ranked, existing, limit, n - 1);
    }
  }

  lemma NotAccepted(frames: seq<Observation>, kind: Kind, ranked: seq<Candidate>, i: nat, existing: seq<Window>, chosen: seq<Window>, limit: int)
    requires i < |ranked| && |chosen| <= i && AllFromFirst(frames, kind, ranked, i, chosen)
    requires !Accepts(kind, ranked[i], existing, chosen, limit)
    ensures Settled(frames, kind, ranked, i, existing, chosen, limit)
  {
    hide FromFirst;
    hide Overlaps;
    hide Shows;
    var c := ranked[i];
    if OverlapsSome(chosen, c.low, c.high, PadOwn(kind)) {
      var k :| 0 <= k < |chosen| && Overlaps(chosen[k], c.low, c.high, PadOwn(kind));
      assert FromFirst(frames, kind, ranked, i, chosen[k]);
    }
  }

  lemma JustAccepted(frames: seq<Observation>, kind: Kind, c: Candidate, earlier: seq<Window>, number: nat)
    requires c.peak < |frames|
    ensures IsShown(earlier + [WindowFor(frames, kind, c, number)], frames, kind, c)
  {
    hide WindowFor;
    hide Shows;
    ShowsItself(frames, kind, c, number);
    assert (earlier + [WindowFor(frames, kind, c, number)])[|earlier|] == WindowFor(frames, kind, c, number);
  }

  /** The choice cannot be extended: every ranked candidate is settled. */
  lemma {:induction false} ChosenIsMaximal(frames: seq<Observation>, kind: Kind, ranked: seq<Candidate>, existing: seq<Window>, limit: int, n: nat, i: nat)
    requires i < n <= |ranked| && AllFit(frames, kind, ranked)
    ensures ranked[i].peak < |frames|
    ensures Settled(frames, kind, ranked, i, existing, Chosen(frames, kind, ranked, existing, limit, n), limit)
  {
    hide Chosen;
    hide WindowFor;
    hide Settled;
    hide Shows;
    assert Fits(frames, kind, ranked[i]);
    ChosenStep(frames, kind, ranked, existing, limit, n);
    var earlier := Chosen(frames, kind, ranked, existing, limit, n - 1);
    if i < n - 1 {
      ChosenIsMaximal(frames, kind, ranked, existing, limit, n - 1, i);
      if Accepts(kind, ranked[n - 1], existing, earlier, limit) {
        StaysSettled(frames, kind, ranked, i, existing, earlier, limit, WindowFor(frames, kind, ranked[n - 1], |earlier| + 1));
      }
    } else if Accepts(kind, ranked[i], existing, earlier, limit) {
      JustAccepted(frames, kind, ranked[i], earlier, |earlier| + 1);
      ShownIsSettled(frames, kind, ranked, i, existing, earlier + [WindowFor(frames, kind, ranked[i], |earlier| + 1)], limit);
    } else {
      ChosenFromRanked(frames, kind, ranked, existing, limit, n - 1);
      ChosenCount(frames, kind, ranked, existing, limit, n - 1);
      NotAccepted(frames, kind, ranked, i, existing, earlier, limit);
    }
  }

  lemma ShownIsSettled(frames: seq<Observation>, kind: Kind, ranked: seq<Candidate>, i: nat, existing: seq<Window>, chosen: seq<Window>, limit: int)
    requires i < |ranked| && IsShown(chosen, frames, kind, ranked[i])
    ensures Settled(frames, kind, ranked, i, existing, chosen, limit)
  {
  }

  /** The window is made of a candidate that scores at least as high; among combat reports of the
      same score, of one that does not come later. */
  ghost predicate Outdoes(frames: seq<Observation>, kind: Kind, candidates: seq<Candidate>, w: Window, c: Candidate) {
    exists d :: d in candidates && Shows(w, frames, kind, d) && d.score >= c.score &&
                (kind == DeathReview && d.score == c.score ==> d.peak <= c.peak)
  }

  /** Why the candidate needs no window of its own. */
  ghost predicate Answered(windows: seq<Window>, frames: seq<Observation>, kind: Kind, candidates: seq<Candidate>,
                           existing: seq<Window>, limit: int, c: Candidate)
  {
    || IsShown(windows, frames, kind, c)
    || OverlapsSome(existing, c.low, c.high, PadOthers(kind))
    || (exists k :: 0 <= k < |windows| && Overlaps(windows[k], c.low, c.high, PadOwn(kind)) && Outdoes(frames, kind, candidates, windows[k], c))
    || (|windows| == limit < |candidates| && forall k :: 0 <= k < |windows| ==> Outdoes(frames, kind, candidates, windows[k], c))
  }

  lemma RankedOutdoes(frames: seq<Observation>, kind: Kind, candidates: seq<Candidate>, ranked: seq<Candidate>, i: nat, w: Window)
    requires Ranked(kind, ranked, candidates) && i < |ranked| && FromFirst(frames, kind, ranked, i, w)
    ensures Outdoes(frames, kind, candidates, w, ranked[i])
  {
    hide Shows;
    var j :| 0 <= j < i && Shows(w, frames, kind, ranked[j]);
    SortedMembers(ranked, candidates);
    assert !RanksHigher(kind, ranked[i], ranked[j]);
    assert ranked[j] in candidates;
  }

  lemma SettledIsAnswered(windows: seq<Window>, frames: seq<Observation>, kind: Kind, candidates: seq<Candidate>,
                          ranked: seq<Candidate>, i: nat, existing: seq<Window>, limit: int)
    requires Ranked(kind, ranked, candidates) && i < |ranked| == |candidates| && |windows| <= limit
    requires Settled(frames, kind, ranked, i, existing, windows, limit)
    ensures Answered(windows, frames, kind, candidates, existing, limit, ranked[i])
  {
    hide Shows;
    hide Ranked;
    hide Overlaps;
    hide OverlapsSome;
    hide FromFirst;
    hide Outdoes;
    var c := ranked[i];
    if BesideFirst(frames, kind, ranked, i, windows, c) {
      var k :| 0 <= k < |windows| && Overlaps(windows[k], c.low, c.high, PadOwn(kind)) && FromFirst(frames, kind, ranked, i, windows[k]);
      RankedOutdoes(frames, kind, candidates, ranked, i, windows[k]);
    } else if AllFromFirst(frames, kind, ranked, i, windows) {
      forall k | 0 <= k < |windows| ensures Outdoes(frames, kind, candidates, windows[k], c) {
        RankedOutdoes(frames, kind, candidates, ranked, i, windows[k]);
      }
    }
  }

  /** The choice goes by score: a candidate without a window was too close to a window placed before
      or to one of a candidate that scores at least as high, or such candidates reached the limit. */
  lemma GreedyGoesByScore(windows: seq<Window>, frames: seq<Observation>, kind: Kind, candidates: seq<Candidate>,
                          existing: seq<Window>, limit: int, c: Candidate)
    requires GreedyChoice(windows, frames, kind, candidates, existing, limit) && limit > 0 && c in candidates
    ensures Answered(windows, frames, kind, candidates, existing, limit, c)
  {
    hide Chosen;
    hide Answered;
    hide Settled;
    hide Shows;
    var ranked :| GreedyBy(windows, ranked, frames, kind, candidates, existing, limit);
    SortedMembers(ranked, candidates);
    var i :| 0 <= i < |ranked| && ranked[i] == c;
    ChosenIsMaximal(frames, kind, ranked, existing, limit, |ranked|, i);
    SettledIsAnswered(windows, frames, kind, candidates, ranked, i, existing, limit);
  }

  /** Every chosen window is made of a candidate. */
  lemma GreedyShowsCandidates(windows: seq<Window>, frames: seq<Observation>, kind: Kind, candidates: seq<Candidate>,
                              existing: seq<Window>, limit: int, k: nat)
    returns (c: Candidate)
    requires GreedyChoice(windows, frames, kind, candidates, existing, limit) && k < |windows|
    ensures c in candidates && Shows(windows[k], frames, kind, c)
  {
    hide Chosen;
    hide Shows;
    hide RanksHigher;
    var ranked :| GreedyBy(windows, ranked, frames, kind, candidates, existing, limit);
    SortedMembers(ranked, candidates);
    ChosenFromRanked(frames, kind, ranked, existing, limit, |ranked|);
    var j :| 0 <= j < |ranked| && Shows(windows[k], frames, kind, ranked[j]);
    c := ranked[j];
  }

  /** The published score of a window that outdoes a candidate is no lower than that of the candidate. */
  lemma OutdoesInScore(frames: seq<Observation>, kind: Kind, candidates: seq<Candidate>, w: Window, c: Candidate)
    requires Outdoes(frames, kind, candidates, w, c)
    ensures w.score >= Round4(c.score) && w.kind == kind
  {
    hide Round4;
    var d :| d in candidates && Shows(w, frames, kind, d) && d.score >= c.score;
    Round4Laws(c.score, d.score);
  }
}
