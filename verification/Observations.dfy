/** One analysed video frame: its time, the signals measured on it and the phase derived from them. */
module Observations {
  import opened Rounding
  import opened Wrappers

  datatype Signal = BuyPhase | Scoreboard | CombatReport | DeathReport | RoundEnd

  datatype Phase = Buy | Fight | Death | Board | End | Rotate | Midround | Hold | Unclassified

  datatype Observation = Observation(
    index: int, timestamp: real,
    motion: real, hudLayout: real, killfeedEvent: real, damage: real, combat: real,
    buyPhase: real, scoreboard: real, combatReport: real, roundEnd: real,
    ocrSignals: seq<Signal>, phase: Phase)

  const TRUSTED_BUY_PHASE := 0.90
  const TRUSTED_SCOREBOARD := 0.80
  const TRUSTED_COMBAT_REPORT := 0.90
  const TRUSTED_ROUND_END := 0.90

  /** Frames come in order of time, and time starts at zero. */
  ghost predicate Chronological(frames: seq<Observation>) {
    && (forall i, j :: 0 <= i <= j < |frames| ==> frames[i].timestamp <= frames[j].timestamp)
    && (forall i :: 0 <= i < |frames| ==> 0.0 <= frames[i].timestamp)
  }

  /** A timeline as the analyzer builds it: in order, and on whole milliseconds. */
  ghost predicate Timeline(frames: seq<Observation>) {
    Chronological(frames) && OnMilliseconds(frames)
  }

  ghost predicate OnMilliseconds(frames: seq<Observation>) {
    forall i :: 0 <= i < |frames| ==> WholeMilliseconds(frames[i].timestamp)
  }

  // ----- From sampled frames to observations

  /** A sampled frame: when it was taken, and what is measured on it if its image can be read. */
  datatype Frame = Frame(timestamp: real, measured: Option<Observation>)

  function Observe(frame: Frame): Observation
    requires frame.measured.Some?
  {
    frame.measured.value.(timestamp := Round3(frame.timestamp), phase := Unclassified)
  }

  /** The observations of the readable ones among the first `n` frames. */
  function Observed(frames: seq<Frame>, n: nat): seq<Observation>
    requires n <= |frames|
  {
    if n == 0 then []
    else if frames[n - 1].measured.Some? then Observed(frames, n - 1) + [Observe(frames[n - 1])]
    else Observed(frames, n - 1)
  }

  /** Observes frame after frame; the caller may cancel before frame `stop`. */
  method CollectFrameObservations(frames: seq<Frame>, stop: nat) returns (observations: seq<Observation>, skipped: nat)
    ensures var n := if stop < |frames| then stop else |frames|;
            observations == Observed(frames, n) && |observations| + skipped == n
  {
    observations, skipped := [], 0;
    for n := 0 to |frames|
      invariant n <= stop
      invariant observations == Observed(frames, n) && |observations| + skipped == n
    {
      if n == stop {
        break;
      }
      if frames[n].measured.None? {
        skipped := skipped + 1;
        continue;
      }
      observations := observations + [Observe(frames[n])];
    }
  }

  /** An observation is what was measured on its frame, at the time of the frame to the millisecond. */
  lemma ObserveMeans(frame: Frame)
    requires frame.measured.Some?
    ensures var o, m := Observe(frame), frame.measured.value;
            && WholeMilliseconds(o.timestamp) && Abs(o.timestamp - frame.timestamp) <= 0.0005
            && o.phase == Unclassified && o == m.(timestamp := o.timestamp, phase := Unclassified)
  {
    Round3Laws(frame.timestamp, frame.timestamp);
  }

  /** Frames sampled in order of time become a timeline, whatever fraction of a second they lie on. */
  lemma {:induction false} ObservedIsTimeline(frames: seq<Frame>, n: nat)
    requires n <= |frames|
    requires forall i, j :: 0 <= i <= j < |frames| ==> 0.0 <= frames[i].timestamp <= frames[j].timestamp
    ensures Timeline(Observed(frames, n))
    ensures forall i :: 0 <= i < |Observed(frames, n)| ==>
              n > 0 && Observed(frames, n)[i].timestamp <= Round3(frames[n - 1].timestamp)
  {
    if n > 0 {
      ObservedIsTimeline(frames, n - 1);
      Round3Laws(frames[n - 1].timestamp, frames[n - 1].timestamp);
      if n > 1 {
        Round3Laws(frames[n - 2].timestamp, frames[n - 1].timestamp);
      }
      hide Round3;
    }
  }
}
