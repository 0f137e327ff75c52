/** The before, event and after frames attached to a review window. */
module Evidence {
  import opened Observations
  import opened Rounding

  datatype Role = Before | Event | After
  datatype EvidenceRef = EvidenceRef(role: Role, timestamp: real, frameIndex: int)

  function Distance(frames: seq<Observation>, k: int, target: real): real
    requires 0 <= k < |frames|
  {
    Abs(frames[k].timestamp - target)
  }

  /** `best` is the frame in `low..high` closest in time to the target, -1 if there is none;
      among equally close frames the last one or the first one, as `last` says. */
  ghost predicate Closest(frames: seq<Observation>, low: int, high: int, target: real, best: int, last: bool)
    requires 0 <= low <= high <= |frames|
  {
    if low == high then best == -1
    else
      && low <= best < high
      && forall k :: low <= k < high ==>
           && Distance(frames, best, target) <= Distance(frames, k, target)
           && (Distance(frames, best, target) == Distance(frames, k, target) ==> if last then k <= best else best <= k)
  }

  /** The scan stops at the first frame beyond the target, and still finds the closest frame
      of the whole side; ties go to the frame nearest the peak. */
  method NearestObservationIndex(frames: seq<Observation>, peak: nat, target: real, direction: int) returns (best: int)
    requires Chronological(frames) && peak < |frames|
    ensures direction < 0 ==> Closest(frames, 0, peak, target, best, true)
    ensures direction > 0 ==> Closest(frames, peak + 1, |frames|, target, best, false)
    ensures direction == 0 ==> Closest(frames, 0, |frames|, target, best, false)
  {
    best := -1;
    var bestDistance := 0.0;
    var start, end, step := 0, |frames|, 1;
    if direction < 0 {
      start, end, step := peak - 1, -1, -1;
    } else if direction > 0 {
      start := peak + 1;
    }
    var index := start;
    while index != end
      invariant direction < 0 ==> -1 <= index < peak && Closest(frames, index + 1, peak, target, best, true)
      invariant direction >= 0 ==> start <= index <= end && Closest(frames, start, index, target, best, false)
      invariant best != -1 ==> bestDistance == Distance(frames, best, target)
      decreases if direction < 0 then index + 1 else end - index
    {
      var distance := Distance(frames, index, target);
      if best == -1 || distance < bestDistance {
        best := index;
        bestDistance := distance;
      }
      if direction < 0 && frames[index].timestamp < target {
        break;
      }
      if direction > 0 && frames[index].timestamp > target {
        break;
      }
      index := index + step;
    }
  }

  function Ref(frames: seq<Observation>, k: int, role: Role): EvidenceRef
    requires 0 <= k < |frames|
  {
    EvidenceRef(role, frames[k].timestamp, frames[k].index)
  }

  /** The evidence for chosen frames; -1 stands for a side without frames. */
  function Sequence(frames: seq<Observation>, before: int, peak: int, after: int): seq<EvidenceRef>
    requires -1 <= before < |frames| && 0 <= peak < |frames| && -1 <= after < |frames|
  {
    (if before >= 0 then [Ref(frames, before, Before)] else []) +
    [Ref(frames, peak, Event)] +
    (if after >= 0 then [Ref(frames, after, After)] else [])
  }

  /** A full scan of `low..high` for the closest frame. */
  function ClosestFrame(frames: seq<Observation>, low: int, high: int, target: real, last: bool): (best: int)
    requires 0 <= low <= high <= |frames|
    ensures Closest(frames, low, high, target, best, last)
  {
    if low == high then -1
    else
      var best := ClosestFrame(frames, low, high - 1, target, last);
      if best == -1 || Distance(frames, high - 1, target) < Distance(frames, best, target) ||
         (last && Distance(frames, high - 1, target) == Distance(frames, best, target))
      then high - 1 else best
  }

  /** Evidence around a peak: the frame before it closest to `beforeSeconds` earlier, the peak,
      and the frame after it closest to `afterSeconds` later. */
  function EvidenceOf(frames: seq<Observation>, peak: int, beforeSeconds: real, afterSeconds: real): seq<EvidenceRef> {
    if peak < 0 || peak >= |frames| then []
    else
      Sequence(frames,
               ClosestFrame(frames, 0, peak, frames[peak].timestamp - beforeSeconds, true),
               peak,
               ClosestFrame(frames, peak + 1, |frames|, frames[peak].timestamp + afterSeconds, false))
  }

  method EvidenceSequence(frames: seq<Observation>, peak: int, beforeSeconds: real, afterSeconds: real)
    returns (evidence: seq<EvidenceRef>)
    requires Chronological(frames)
    ensures evidence == EvidenceOf(frames, peak, beforeSeconds, afterSeconds)
  {
    hide *;
    if peak < 0 || peak >= |frames| {
      NoEvidence(frames, peak, beforeSeconds, afterSeconds);
      return [];
    }
    var time := frames[peak].timestamp;
    evidence := [];
    var before := NearestObservationIndex(frames, peak, time - beforeSeconds, -1);
    if before >= 0 {
      evidence := evidence + [Ref(frames, before, Before)];
    }
    evidence := evidence + [Ref(frames, peak, Event)];
    var after := NearestObservationIndex(frames, peak, time + afterSeconds, 1);
    if after >= 0 {
      evidence := evidence + [Ref(frames, after, After)];
    }
    SequenceIs(frames, before, peak, after, evidence);
    EvidenceIs(frames, peak, beforeSeconds, afterSeconds, before, after);
  }

  lemma NoEvidence(frames: seq<Observation>, peak: int, b: real, a: real)
    requires peak < 0 || peak >= |frames|
    ensures EvidenceOf(frames, peak, b, a) == []
  {
  }

  lemma SequenceIs(frames: seq<Observation>, before: int, peak: int, after: int, evidence: seq<EvidenceRef>)
    requires -1 <= before < |frames| && 0 <= peak < |frames| && -1 <= after < |frames|
    requires evidence ==
      var sofar := if before >= 0 then [Ref(frames, before, Before), Ref(frames, peak, Event)] else [Ref(frames, peak, Event)];
      if after >= 0 then sofar + [Ref(frames, after, After)] else sofar
    ensures evidence == Sequence(frames, before, peak, after)
  {
    hide Ref;
  }

  lemma EvidenceIs(frames: seq<Observation>, peak: int, b: real, a: real, before: int, after: int)
    requires 0 <= peak < |frames|
    requires Closest(frames, 0, peak, frames[peak].timestamp - b, before, true)
    requires Closest(frames, peak + 1, |frames|, frames[peak].timestamp + a, after, false)
    ensures -1 <= before < |frames| && -1 <= after < |frames|
    ensures EvidenceOf(frames, peak, b, a) == Sequence(frames, before, peak, after)
  {
    ClosestIsUnique(frames, 0, peak, frames[peak].timestamp - b, before,
                    ClosestFrame(frames, 0, peak, frames[peak].timestamp - b, true), true);
    ClosestIsUnique(frames, peak + 1, |frames|, frames[peak].timestamp + a, after,
                    ClosestFrame(frames, peak + 1, |frames|, frames[peak].timestamp + a, false), false);
  }

  /** Evidence always holds the peak, has an earlier frame exactly when there is one and a later
      frame exactly when there is one, and runs in strictly increasing frame order. */
  lemma EvidenceIsOrdered(frames: seq<Observation>, peak: int, b: real, a: real)
    requires Chronological(frames) && 0 <= peak < |frames|
    requires forall i, j :: 0 <= i < j < |frames| ==> frames[i].index < frames[j].index
    ensures var e := EvidenceOf(frames, peak, b, a);
            && (forall i, j :: 0 <= i < j < |e| ==> e[i].frameIndex < e[j].frameIndex && e[i].timestamp <= e[j].timestamp)
            && (forall i, j :: 0 <= i < j < |e| ==> e[i].role != e[j].role)
            && EvidenceRef(Event, frames[peak].timestamp, frames[peak].index) in e
            && |e| == 1 + (if peak > 0 then 1 else 0) + (if peak + 1 < |frames| then 1 else 0)
  {
    hide ClosestFrame;
    var before := ClosestFrame(frames, 0, peak, frames[peak].timestamp - b, true);
    var after := ClosestFrame(frames, peak + 1, |frames|, frames[peak].timestamp + a, false);
    assert EvidenceOf(frames, peak, b, a) == Sequence(frames, before, peak, after);
    assert Sequence(frames, before, peak, after)[if before >= 0 then 1 else 0] == Ref(frames, peak, Event);
  }

  /** How far two times lie apart, whichever comes first. */
  function Apart(x: real, y: real): real {
    if x <= y then y - x else x - y
  }

  /** The first piece of evidence of a peak with earlier frames is the one of them closest in time to
      `b` seconds before it, the later one on equal distances; the last piece of a peak with later frames
      is the one closest to `a` seconds after it, the earlier one on equal distances. */
  lemma EvidenceMeans(frames: seq<Observation>, peak: int, b: real, a: real) returns (before: int, after: int)
    requires 0 <= peak < |frames|
    ensures var e, target := EvidenceOf(frames, peak, b, a), frames[peak].timestamp - b;
            peak > 0 ==>
              && 0 <= before < peak && e != [] && e[0] == EvidenceRef(Before, frames[before].timestamp, frames[before].index)
              && (forall k :: 0 <= k <= before ==> Apart(frames[before].timestamp, target) <= Apart(frames[k].timestamp, target))
              && (forall k :: before < k < peak ==> Apart(frames[before].timestamp, target) < Apart(frames[k].timestamp, target))
    ensures var e, target := EvidenceOf(frames, peak, b, a), frames[peak].timestamp + a;
            peak + 1 < |frames| ==>
              && peak < after < |frames| && e != [] && e[|e| - 1] == EvidenceRef(After, frames[after].timestamp, frames[after].index)
              && (forall k :: peak < k < after ==> Apart(frames[after].timestamp, target) < Apart(frames[k].timestamp, target))
              && (forall k :: after <= k < |frames| ==> Apart(frames[after].timestamp, target) <= Apart(frames[k].timestamp, target))
  {
    before := ClosestFrame(frames, 0, peak, frames[peak].timestamp - b, true);
    after := ClosestFrame(frames, peak + 1, |frames|, frames[peak].timestamp + a, false);
    hide ClosestFrame;
    DistanceIsApart(frames, frames[peak].timestamp - b);
    DistanceIsApart(frames, frames[peak].timestamp + a);
    hide Apart;
    hide Distance;
  }

  lemma DistanceIsApart(frames: seq<Observation>, target: real)
    ensures forall k :: 0 <= k < |frames| ==> Apart(frames[k].timestamp, target) == Distance(frames, k, target)
  {
  }

  /** The closest frame is unique, so the early exit agrees with any full scan. */
  lemma ClosestIsUnique(frames: seq<Observation>, low: int, high: int, target: real, p: int, q: int, last: bool)
    requires 0 <= low <= high <= |frames|
    requires Closest(frames, low, high, target, p, last) && Closest(frames, low, high, target, q, last)
    ensures p == q
  {
    if low < high {
      assert Distance(frames, p, target) <= Distance(frames, q, target);
      assert Distance(frames, q, target) <= Distance(frames, p, target);
    }
  }
}
