/** Text recognition results: which frames are inspected, how results are merged into the
    frames, and how confirmed states spread to neighbouring frames in place. */
module OcrStates {
  import opened Observations
  import opened Rounding
  import opened Wrappers

  // ----- Which frames are inspected

  datatype Task = Task(index: nat, buy: bool, scoreboard: bool, report: bool)

  function Bucket(o: Observation): int {
    (o.timestamp / 3.0).Floor
  }

  /** The first frame of each run of frames in one three-second bucket. */
  predicate Sparse(frames: seq<Observation>, i: nat)
    requires i < |frames|
  {
    i == 0 || Bucket(frames[i]) != Bucket(frames[i - 1])
  }

  function TaskAt(frames: seq<Observation>, i: nat): Task
    requires i < |frames|
  {
    var o := frames[i];
    Task(i,
         Sparse(frames, i) || o.buyPhase >= 0.08,
         o.scoreboard >= 0.24 && (i == 0 || frames[i - 1].scoreboard < 0.24 || Sparse(frames, i)),
         o.combatReport >= 0.12 && (i == 0 || frames[i - 1].combatReport < 0.12 || Sparse(frames, i)))
  }

  predicate Inspected(frames: seq<Observation>, i: nat)
    requires i < |frames|
  {
    var task := TaskAt(frames, i);
    task.buy || task.scoreboard || task.report
  }

  method SelectTasks(frames: seq<Observation>) returns (tasks: seq<Task>)
    requires Chronological(frames)
    ensures forall j, k :: 0 <= j < k < |tasks| ==> tasks[j].index < tasks[k].index
    ensures forall k :: 0 <= k < |tasks| ==>
              tasks[k].index < |frames| && Inspected(frames, tasks[k].index) && tasks[k] == TaskAt(frames, tasks[k].index)
    ensures forall i :: 0 <= i < |frames| && Inspected(frames, i) ==> TaskAt(frames, i) in tasks
  {
    tasks := [];
    var lastSparseBucket := -1;
    for i := 0 to |frames|
      invariant lastSparseBucket == if i == 0 then -1 else Bucket(frames[i - 1])
      invariant forall k :: 0 <= k < |tasks| ==>
        tasks[k].index < i && Inspected(frames, tasks[k].index) && tasks[k] == TaskAt(frames, tasks[k].index)
      invariant forall j, k :: 0 <= j < k < |tasks| ==> tasks[j].index < tasks[k].index
      invariant forall j :: 0 <= j < i && Inspected(frames, j) ==> TaskAt(frames, j) in tasks
    {
      var o := frames[i];
      var bucket := Bucket(o);
      var sparse := bucket != lastSparseBucket;
      if sparse {
        lastSparseBucket := bucket;
      }
      var previousScoreboard, previousReport := 0.0, 0.0;
      if i > 0 {
        previousScoreboard := frames[i - 1].scoreboard;
        previousReport := frames[i - 1].combatReport;
      }
      var buyCandidate := sparse || o.buyPhase >= 0.08;
      var scoreboardCandidate := o.scoreboard >= 0.24 && (previousScoreboard < 0.24 || sparse);
      var reportCandidate := o.combatReport >= 0.12 && (previousReport < 0.12 || sparse);
      if !buyCandidate && !scoreboardCandidate && !reportCandidate {
        continue;
      }
      tasks := tasks + [Task(i, buyCandidate, scoreboardCandidate, reportCandidate)];
      assert TaskAt(frames, i) in tasks;
    }
  }

  /** Frames in one bucket are less than three seconds apart, and a bucket covers three seconds. */
  lemma BucketsLastThreeSeconds(a: Observation, b: Observation)
    ensures Bucket(a) == Bucket(b) ==> -3.0 < a.timestamp - b.timestamp < 3.0
    ensures Bucket(a) < Bucket(b) ==> a.timestamp < b.timestamp
    ensures a.timestamp <= b.timestamp ==> Bucket(a) <= Bucket(b)
    ensures a.timestamp + 3.0 <= b.timestamp ==> Bucket(a) < Bucket(b)
    ensures Bucket(a.(timestamp := 0.0)) == 0
  {
  }

  /** Every frame shares its three-second bucket with a frame that is checked for the buy phase. */
  lemma {:induction false} EveryBucketIsChecked(frames: seq<Observation>, i: nat) returns (j: nat)
    requires i < |frames|
    ensures j <= i && Bucket(frames[j]) == Bucket(frames[i]) && TaskAt(frames, j).buy
    ensures forall k :: j < k <= i ==> !Sparse(frames, k)
    ensures -3.0 < frames[i].timestamp - frames[j].timestamp < 3.0
  {
    hide Bucket;
    if Sparse(frames, i) {
      j := i;
    } else {
      j := EveryBucketIsChecked(frames, i - 1);
    }
    BucketsLastThreeSeconds(frames[i], frames[j]);
  }

  // ----- Merging results

  datatype OcrResult = Recognized(index: nat, signals: seq<Signal>) | Failed(index: nat)

  function Compact(signals: seq<Signal>): seq<Signal> {
    if signals == [] then []
    else
      var earlier := Compact(signals[..|signals| - 1]);
      var last := signals[|signals| - 1];
      if last in earlier then earlier else earlier + [last]
  }

  /** `kept` holds the signals once each, in the order in which they first appear. */
  ghost predicate OnceEach(kept: seq<Signal>, signals: seq<Signal>) {
    && (forall s :: s in kept <==> s in signals)
    && (forall i, j :: 0 <= i < j < |kept| ==> kept[i] != kept[j])
    && (forall i, j :: 0 <= i < j < |kept| ==> AppearsFirst(signals, kept[i], kept[j]))
  }

  /** Signal `a` appears before any `b`. */
  ghost predicate AppearsFirst(signals: seq<Signal>, a: Signal, b: Signal) {
    exists p :: 0 <= p < |signals| && signals[p] == a && forall q :: 0 <= q <= p ==> signals[q] != b
  }

  lemma {:induction false} CompactLaw(signals: seq<Signal>)
    ensures OnceEach(Compact(signals), signals)
  {
    hide *;
    CompactStep(signals);
    if signals != [] {
      var n := |signals| - 1;
      CompactLaw(signals[..n]);
      OneMoreSignal(Compact(signals[..n]), signals[..n], signals[n]);
      assert signals == signals[..n] + [signals[n]];
    }
  }

  lemma CompactStep(signals: seq<Signal>)
    ensures signals == [] ==> OnceEach(Compact(signals), signals)
    ensures signals != [] ==>
              var earlier, last := Compact(signals[..|signals| - 1]), signals[|signals| - 1];
              Compact(signals) == if last in earlier then earlier else earlier + [last]
  {
  }

  lemma OneMoreSignal(kept: seq<Signal>, signals: seq<Signal>, last: Signal)
    requires OnceEach(kept, signals)
    ensures OnceEach(if last in kept then kept else kept + [last], signals + [last])
  {
    var more, after := signals + [last], if last in kept then kept else kept + [last];
    forall s ensures s in after <==> s in more {
      assert s in signals <==> s in kept;
    }
    forall i, j | 0 <= i < j < |after| ensures AppearsFirst(more, after[i], after[j]) {
      if j < |kept| {
        assert AppearsFirst(signals, kept[i], kept[j]);
        var p :| 0 <= p < |signals| && signals[p] == kept[i] && forall q :: 0 <= q <= p ==> signals[q] != kept[j];
        assert more[p] == kept[i];
      } else {
        assert kept[i] in signals;
        var p :| 0 <= p < |signals| && signals[p] == kept[i];
        assert more[p] == kept[i];
      }
    }
  }

  function RaiseFor(o: Observation, signal: Signal): Observation {
    match signal
    case BuyPhase => o.(buyPhase := Max(o.buyPhase, 0.96))
    case Scoreboard => o.(scoreboard := Max(o.scoreboard, 0.94))
    case CombatReport => o.(combatReport := Max(o.combatReport, 0.98))
    case DeathReport => o.(combatReport := Max(o.combatReport, 0.99))
    case RoundEnd => o.(roundEnd := Max(o.roundEnd, 0.98))
  }

  /** The frame after its own result: the signals recorded, and each raised to its level. */
  function Merged(o: Observation, signals: seq<Signal>): Observation {
    o.(ocrSignals := Compact(signals),
       buyPhase := if BuyPhase in signals then Max(o.buyPhase, 0.96) else o.buyPhase,
       scoreboard := if Scoreboard in signals then Max(o.scoreboard, 0.94) else o.scoreboard,
       combatReport := if DeathReport in signals then Max(o.combatReport, 0.99)
                       else if CombatReport in signals then Max(o.combatReport, 0.98) else o.combatReport,
       roundEnd := if RoundEnd in signals then Max(o.roundEnd, 0.98) else o.roundEnd)
  }

  /** What a successful result leaves in its frame: its signals, once each, and the level of each of
      them trusted; the level of a screen it does not show is as before. */
  ghost predicate Recorded(before: Observation, after: Observation, signals: seq<Signal>) {
    && OnceEach(after.ocrSignals, signals)
    && (if BuyPhase in signals then after.buyPhase >= 0.96 && after.buyPhase >= before.buyPhase
        else after.buyPhase == before.buyPhase)
    && (if Scoreboard in signals then after.scoreboard >= 0.94 && after.scoreboard >= before.scoreboard
        else after.scoreboard == before.scoreboard)
    && (DeathReport in signals ==> after.combatReport >= 0.99)
    && (CombatReport in signals ==> after.combatReport >= 0.98)
    && (if DeathReport in signals || CombatReport in signals then after.combatReport >= before.combatReport
        else after.combatReport == before.combatReport)
    && (if RoundEnd in signals then after.roundEnd >= 0.98 && after.roundEnd >= before.roundEnd
        else after.roundEnd == before.roundEnd)
    && (BuyPhase in after.ocrSignals ==> after.buyPhase >= TRUSTED_BUY_PHASE)
    && (Scoreboard in after.ocrSignals ==> after.scoreboard >= TRUSTED_SCOREBOARD)
    && (DeathReport in after.ocrSignals || CombatReport in after.ocrSignals ==> after.combatReport >= TRUSTED_COMBAT_REPORT)
    && (RoundEnd in after.ocrSignals ==> after.roundEnd >= TRUSTED_ROUND_END)
    && after == before.(ocrSignals := after.ocrSignals, buyPhase := after.buyPhase, scoreboard := after.scoreboard,
                        combatReport := after.combatReport, roundEnd := after.roundEnd)
  }

  lemma MergedIsRecorded(o: Observation, signals: seq<Signal>)
    ensures Recorded(o, Merged(o, signals), signals)
  {
    CompactLaw(signals);
    hide Compact;
  }

  ghost predicate DistinctIndices(results: seq<OcrResult>, n: nat) {
    && (forall k :: 0 <= k < |results| ==> results[k].index < n)
    && (forall j, k :: 0 <= j < k < |results| ==> results[j].index != results[k].index)
  }

  /** The signals recognized for frame `i` among the first `n` results. */
  function SignalsFor(results: seq<OcrResult>, i: nat, n: nat): Option<seq<Signal>>
    requires n <= |results|
  {
    if n == 0 then None
    else if results[n - 1].Recognized? && results[n - 1].index == i then Some(results[n - 1].signals)
    else SignalsFor(results, i, n - 1)
  }

  function RecognizedCount(results: seq<OcrResult>, n: nat): nat
    requires n <= |results|
  {
    if n == 0 then 0 else RecognizedCount(results, n - 1) + (if results[n - 1].Recognized? then 1 else 0)
  }

  function MergedFrame(o: Observation, signals: Option<seq<Signal>>): Observation {
    match signals
    case None => o
    case Some(s) => Merged(o, s)
  }

  method MergeResults(frames: array<Observation>, results: seq<OcrResult>) returns (analyzed: nat, hadErrors: bool)
    requires DistinctIndices(results, frames.Length)
    modifies frames
    ensures forall i :: 0 <= i < frames.Length ==>
              frames[i] == MergedFrame(old(frames[i]), SignalsFor(results, i, |results|))
    ensures forall k :: 0 <= k < |results| && results[k].Recognized? ==>
              Recorded(old(frames[..])[results[k].index], frames[results[k].index], results[k].signals)
    ensures forall i :: 0 <= i < frames.Length && !IsRecognized(results, i) ==> frames[i] == old(frames[i])
    ensures analyzed == RecognizedCount(results, |results|)
    ensures hadErrors <==> analyzed < |results|
  {
    hide Merged;
    hide RaiseFor;
    hide Compact;
    hide Recorded;
    analyzed, hadErrors := 0, false;
    for n := 0 to |results|
      invariant forall i :: 0 <= i < frames.Length ==> frames[i] == MergedFrame(old(frames[i]), SignalsFor(results, i, n))
      invariant analyzed == RecognizedCount(results, n) <= n
      invariant hadErrors <==> analyzed < n
    {
      if results[n].Failed? {
        hadErrors := true;
        continue;
      }
      analyzed := analyzed + 1;
      var index, signals := results[n].index, results[n].signals;
      NoneYet(results, n);
      frames[index] := frames[index].(ocrSignals := Compact(signals));
      StartMerge(old(frames[index]), signals);
      for k := 0 to |signals|
        invariant frames[index] == Merged(old(frames[index]), signals[..k]).(ocrSignals := Compact(signals))
        invariant forall i :: 0 <= i < frames.Length && i != index ==>
          frames[i] == MergedFrame(old(frames[i]), SignalsFor(results, i, n))
      {
        MergeStep(old(frames[index]), signals, k);
        frames[index] := RaiseFor(frames[index], signals[k]);
      }
      FinishMerge(old(frames[index]), signals);
    }
    EveryResultIsRecorded(old(frames[..]), frames[..], results);
  }

  /** A successful result is for frame `i`. */
  predicate IsRecognized(results: seq<OcrResult>, i: nat) {
    exists k :: 0 <= k < |results| && results[k].Recognized? && results[k].index == i
  }

  lemma EveryResultIsRecorded(before: seq<Observation>, after: seq<Observation>, results: seq<OcrResult>)
    requires |before| == |after| && DistinctIndices(results, |before|)
    requires forall i :: 0 <= i < |before| ==> after[i] == MergedFrame(before[i], SignalsFor(results, i, |results|))
    ensures forall k :: 0 <= k < |results| && results[k].Recognized? ==>
              Recorded(before[results[k].index], after[results[k].index], results[k].signals)
    ensures forall i :: 0 <= i < |before| && !IsRecognized(results, i) ==> after[i] == before[i]
  {
    hide Merged;
    hide Recorded;
    hide SignalsFor;
    forall k | 0 <= k < |results| && results[k].Recognized?
      ensures Recorded(before[results[k].index], after[results[k].index], results[k].signals)
    {
      SignalsForMeaning(results, |before|, results[k].index, |results|, results[k].signals);
      MergedIsRecorded(before[results[k].index], results[k].signals);
    }
    forall i | 0 <= i < |before| && !IsRecognized(results, i) ensures after[i] == before[i] {
      var found := SignalsFor(results, i, |results|);
      if found.Some? {
        SignalsForMeaning(results, |before|, i, |results|, found.value);
      }
    }
  }

  lemma {:induction false} NoneBefore(results: seq<OcrResult>, i: nat, n: nat)
    requires n <= |results| && forall k :: 0 <= k < n ==> results[k].index != i
    ensures SignalsFor(results, i, n) == None
  {
    if n > 0 {
      NoneBefore(results, i, n - 1);
    }
  }

  lemma NoneYet(results: seq<OcrResult>, n: nat)
    requires n < |results|
    requires forall j, k :: 0 <= j < k < |results| ==> results[j].index != results[k].index
    ensures SignalsFor(results, results[n].index, n) == None
  {
    NoneBefore(results, results[n].index, n);
  }

  lemma StartMerge(o: Observation, signals: seq<Signal>)
    ensures Merged(o, signals[..0]).(ocrSignals := Compact(signals)) == o.(ocrSignals := Compact(signals))
  {
  }

  lemma MergeStep(o: Observation, signals: seq<Signal>, k: nat)
    requires k < |signals|
    ensures Merged(o, signals[..k + 1]).(ocrSignals := Compact(signals)) ==
            RaiseFor(Merged(o, signals[..k]).(ocrSignals := Compact(signals)), signals[k])
  {
    hide Compact;
    OneMoreIn(signals, k, BuyPhase);
    OneMoreIn(signals, k, Scoreboard);
    OneMoreIn(signals, k, CombatReport);
    OneMoreIn(signals, k, DeathReport);
    OneMoreIn(signals, k, RoundEnd);
  }

  lemma OneMoreIn(signals: seq<Signal>, k: nat, s: Signal)
    requires k < |signals|
    ensures s in signals[..k + 1] <==> s in signals[..k] || s == signals[k]
  {
    assert signals[..k + 1] == signals[..k] + [signals[k]];
  }

  lemma FinishMerge(o: Observation, signals: seq<Signal>)
    ensures Merged(o, signals[..|signals|]).(ocrSignals := Compact(signals)) == Merged(o, signals)
  {
    assert signals[..|signals|] == signals;
  }

  lemma {:induction false} SignalsForMeaning(results: seq<OcrResult>, frames: nat, i: nat, n: nat, signals: seq<Signal>)
    requires DistinctIndices(results, frames) && n <= |results|
    ensures SignalsFor(results, i, n) == Some(signals) <==> exists k :: 0 <= k < n && results[k] == Recognized(i, signals)
  {
    if n > 0 {
      SignalsForMeaning(results, frames, i, n - 1, signals);
      if results[n - 1] == Recognized(i, signals) {
        assert 0 <= n - 1 < n && results[n - 1] == Recognized(i, signals);
      }
    }
  }

  /** The workers may deliver in any order: every frame ends up the same. */
  lemma ArrivalOrderDoesNotMatter(results: seq<OcrResult>, reordered: seq<OcrResult>, frames: nat, i: nat)
    requires DistinctIndices(results, frames) && DistinctIndices(reordered, frames)
    requires multiset(results) == multiset(reordered)
    ensures SignalsFor(results, i, |results|) == SignalsFor(reordered, i, |reordered|)
  {
    SignalsSurvive(results, reordered, frames, i);
    SignalsSurvive(reordered, results, frames, i);
  }

  lemma SignalsSurvive(results: seq<OcrResult>, reordered: seq<OcrResult>, frames: nat, i: nat)
    requires DistinctIndices(results, frames) && DistinctIndices(reordered, frames)
    requires multiset(results) == multiset(reordered)
    ensures SignalsFor(results, i, |results|).Some? ==>
              SignalsFor(reordered, i, |reordered|) == SignalsFor(results, i, |results|)
  {
    var found := SignalsFor(results, i, |results|);
    if found.Some? {
      SignalsForMeaning(results, frames, i, |results|, found.value);
      var k :| 0 <= k < |results| && results[k] == Recognized(i, found.value);
      assert results[k] in multiset(reordered);
      var j :| 0 <= j < |reordered| && reordered[j] == results[k];
      SignalsForMeaning(reordered, frames, i, |reordered|, found.value);
    }
  }

  // ----- Spreading confirmed states

  /** The three states that spread from a confirming frame to its neighbours. */
  datatype State = BuyState | BoardState | EndState

  function Confirming(state: State): Signal {
    match state
    case BuyState => BuyPhase
    case BoardState => Scoreboard
    case EndState => RoundEnd
  }

  function Radius(state: State): real {
    match state
    case BuyState => 5.0
    case BoardState => 2.0
    case EndState => 4.0
  }

  function Raise(o: Observation, state: State): Observation {
    match state
    case BuyState => o.(buyPhase := Max(o.buyPhase, TRUSTED_BUY_PHASE))
    case BoardState => o.(scoreboard := Max(o.scoreboard, TRUSTED_SCOREBOARD))
    case EndState => o.(roundEnd := Max(o.roundEnd, TRUSTED_ROUND_END))
  }

  predicate Confirms(o: Observation, state: State) {
    Confirming(state) in o.ocrSignals
  }

  function RaiseIf(o: Observation, state: State, condition: bool): Observation {
    if condition then Raise(o, state) else o
  }

  ghost predicate Close(frames: seq<Observation>, i: int, j: int, state: State)
    requires 0 <= i < |frames| && 0 <= j < |frames|
  {
    Abs(frames[i].timestamp - frames[j].timestamp) <= Radius(state)
  }

  /** One of the first `n` frames confirms the state within its radius of frame `i`. */
  ghost predicate Near(frames: seq<Observation>, i: int, state: State, n: int)
    requires 0 <= i < |frames| && n <= |frames|
  {
    exists j :: 0 <= j < n && Confirms(frames[j], state) && Close(frames, i, j, state)
  }

  /** Two buy confirmations with none in between, at most 32 seconds apart. */
  ghost predicate Consecutive(frames: seq<Observation>, p: int, q: int) {
    && 0 <= p < q < |frames|
    && Confirms(frames[p], BuyState) && Confirms(frames[q], BuyState)
    && (forall j :: p < j < q ==> !Confirms(frames[j], BuyState))
    && frames[q].timestamp - frames[p].timestamp <= 32.0
  }

  /** Frame `i` lies between such confirmations. */
  ghost predicate Bridged(frames: seq<Observation>, i: int) {
    exists p, q :: Consecutive(frames, p, q) && p <= i <= q
  }

  /** What spreading makes of frame `i`, said of the frames before it. */
  ghost function Spread(frames: seq<Observation>, i: int): Observation
    requires 0 <= i < |frames|
  {
    var n := |frames|;
    Raised(frames[i], Near(frames, i, BuyState, n) || Bridged(frames, i),
           Near(frames, i, BoardState, n), Near(frames, i, EndState, n))
  }

  ghost function SpreadAll(frames: seq<Observation>): (spread: seq<Observation>)
    ensures |spread| == |frames|
  {
    seq(|frames|, i requires 0 <= i < |frames| => Spread(frames, i))
  }

  /** Time and recognized signals, which spreading reads but never changes. */
  ghost predicate SameEvidence(a: seq<Observation>, b: seq<Observation>) {
    && |a| == |b|
    && forall i :: 0 <= i < |a| ==> a[i].timestamp == b[i].timestamp && a[i].ocrSignals == b[i].ocrSignals
  }

  /** A frame with each state raised or not. */
  function Raised(o: Observation, buy: bool, board: bool, end: bool): Observation {
    RaiseIf(RaiseIf(RaiseIf(o, BuyState, buy), BoardState, board), EndState, end)
  }

  lemma RaiseAgain(o: Observation, buy: bool, board: bool, end: bool, again: bool)
    ensures RaiseIf(Raised(o, buy, board, end), BuyState, again) == Raised(o, buy || again, board, end)
    ensures RaiseIf(Raised(o, buy, board, end), BoardState, again) == Raised(o, buy, board || again, end)
    ensures RaiseIf(Raised(o, buy, board, end), EndState, again) == Raised(o, buy, board, end || again)
    ensures Raised(o, buy, board, end).timestamp == o.timestamp
    ensures Raised(o, buy, board, end).ocrSignals == o.ocrSignals
  {
  }

  lemma RaiseLaws(o: Observation)
    ensures forall buy, board, end, again ::
              RaiseIf(Raised(o, buy, board, end), BuyState, again) == Raised(o, buy || again, board, end)
    ensures forall buy, board, end, again ::
              RaiseIf(Raised(o, buy, board, end), BoardState, again) == Raised(o, buy, board || again, end)
    ensures forall buy, board, end, again ::
              RaiseIf(Raised(o, buy, board, end), EndState, again) == Raised(o, buy, board, end || again)
  {
    forall buy, board, end, again {
      RaiseAgain(o, buy, board, end, again);
    }
  }

  lemma RaiseKeepsEvidence(state: State)
    ensures forall o :: Raise(o, state).timestamp == o.timestamp && Raise(o, state).ocrSignals == o.ocrSignals
  {
  }

  /** Raises the state of every frame within the radius of a confirming frame: backwards from
      it, then forwards, each until the first frame too far away. */
  method RaiseAround(frames: array<Observation>, index: nat, state: State, ghost timeline: seq<Observation>)
    requires index < frames.Length && Chronological(timeline) && SameEvidence(timeline, frames[..])
    modifies frames
    ensures SameEvidence(timeline, frames[..])
    ensures forall i :: 0 <= i < frames.Length ==>
              frames[i] == RaiseIf(old(frames[i]), state, Close(timeline, i, index, state))
  {
    hide Raise;
    hide Close;
    hide Radius;
    hide Chronological;
    RaiseKeepsEvidence(state);
    ghost var low := RaiseBackwards(frames, index, state);
    ghost var high := RaiseForwards(frames, index, state, low);
    ReachIsInterval(timeline, index, state, low, high);
  }

  method RaiseBackwards(frames: array<Observation>, index: nat, state: State) returns (ghost low: int)
    requires index < frames.Length
    modifies frames
    ensures -1 <= low < index
    ensures forall i :: 0 <= i < frames.Length ==> frames[i] == RaiseIf(old(frames[i]), state, low < i <= index)
    ensures low == -1 || old(frames[index].timestamp - frames[low].timestamp) > Radius(state)
    ensures old(frames[index].timestamp - frames[low + 1].timestamp) <= Radius(state)
  {
    hide Raise;
    var time := frames[index].timestamp;
    var candidate := index;
    while candidate >= 0 && time - frames[candidate].timestamp <= Radius(state)
      invariant -1 <= candidate <= index
      invariant forall i :: 0 <= i < frames.Length ==> frames[i] == RaiseIf(old(frames[i]), state, candidate < i <= index)
      invariant candidate < index ==> time - old(frames[candidate + 1].timestamp) <= Radius(state)
      decreases candidate
    {
      frames[candidate] := Raise(frames[candidate], state);
      candidate := candidate - 1;
    }
    low := candidate;
  }

  method RaiseForwards(frames: array<Observation>, index: nat, state: State, ghost low: int) returns (ghost high: int)
    requires -1 <= low < index < frames.Length
    modifies frames
    ensures index < high <= frames.Length
    ensures forall i :: 0 <= i < frames.Length ==> frames[i] == RaiseIf(old(frames[i]), state, index < i < high)
    ensures high == frames.Length || old(frames[high].timestamp - frames[index].timestamp) > Radius(state)
    ensures high - 1 == index || old(frames[high - 1].timestamp - frames[index].timestamp) <= Radius(state)
  {
    hide Raise;
    var time := frames[index].timestamp;
    var candidate := index + 1;
    while candidate < frames.Length && frames[candidate].timestamp - time <= Radius(state)
      invariant index < candidate <= frames.Length
      invariant forall i :: 0 <= i < frames.Length ==> frames[i] == RaiseIf(old(frames[i]), state, index < i < candidate)
      invariant candidate - 1 == index || old(frames[candidate - 1].timestamp) - time <= Radius(state)
    {
      frames[candidate] := Raise(frames[candidate], state);
      candidate := candidate + 1;
    }
    high := candidate;
  }

  /** In order of time, the frames within a radius are those between the two first ones outside. */
  lemma ReachIsInterval(frames: seq<Observation>, index: int, state: State, low: int, high: int)
    requires Chronological(frames) && -1 <= low < index < high <= |frames|
    requires low == -1 || frames[index].timestamp - frames[low].timestamp > Radius(state)
    requires high == |frames| || frames[high].timestamp - frames[index].timestamp > Radius(state)
    requires frames[index].timestamp - frames[low + 1].timestamp <= Radius(state)
    requires high - 1 == index || frames[high - 1].timestamp - frames[index].timestamp <= Radius(state)
    ensures forall i :: 0 <= i < |frames| ==> (Close(frames, i, index, state) <==> low < i < high)
  {
  }

  /** Frame `i` once the first `n` frames have spread their states. */
  ghost function SpreadFrom(frames: seq<Observation>, i: int, n: int): Observation
    requires 0 <= i < |frames| && n <= |frames|
  {
    Raised(frames[i], Near(frames, i, BuyState, n), Near(frames, i, BoardState, n), Near(frames, i, EndState, n))
  }

  lemma OneMoreSource(frames: seq<Observation>, i: int, state: State, n: nat)
    requires 0 <= i < |frames| && n < |frames|
    ensures Near(frames, i, state, n + 1) <==>
            Near(frames, i, state, n) || (Confirms(frames[n], state) && Close(frames, i, n, state))
  {
  }

  /** Frame `i` when frame `n` has already spread some of its states. */
  ghost function SpreadPartly(frames: seq<Observation>, i: int, n: nat, buy: bool, board: bool, end: bool): Observation
    requires 0 <= i < |frames| && n < |frames|
  {
    Raised(frames[i],
           Near(frames, i, BuyState, if buy then n + 1 else n),
           Near(frames, i, BoardState, if board then n + 1 else n),
           Near(frames, i, EndState, if end then n + 1 else n))
  }

  lemma SpreadMore(frames: seq<Observation>, i: int, n: nat)
    requires 0 <= i < |frames| && n < |frames|
    ensures RaiseIf(SpreadPartly(frames, i, n, false, false, false), BuyState,
                    Confirms(frames[n], BuyState) && Close(frames, i, n, BuyState)) ==
            SpreadPartly(frames, i, n, true, false, false)
    ensures RaiseIf(SpreadPartly(frames, i, n, true, false, false), BoardState,
                    Confirms(frames[n], BoardState) && Close(frames, i, n, BoardState)) ==
            SpreadPartly(frames, i, n, true, true, false)
    ensures RaiseIf(SpreadPartly(frames, i, n, true, true, false), EndState,
                    Confirms(frames[n], EndState) && Close(frames, i, n, EndState)) ==
            SpreadFrom(frames, i, n + 1)
  {
    OneMoreSource(frames, i, BuyState, n);
    OneMoreSource(frames, i, BoardState, n);
    OneMoreSource(frames, i, EndState, n);
    hide Near;
    hide Close;
    hide Raise;
    RaiseLaws(frames[i]);
  }

  method SpreadOne(frames: array<Observation>, index: nat, ghost before: seq<Observation>)
    requires index < frames.Length == |before| && Chronological(before)
    requires forall i :: 0 <= i < |before| ==> frames[i] == SpreadFrom(before, i, index)
    modifies frames
    ensures forall i :: 0 <= i < |before| ==> frames[i] == SpreadFrom(before, i, index + 1)
  {
    SpreadKeepsTime(before, frames[..], index);
    forall i | 0 <= i < |before| ensures SpreadFrom(before, i, index) == SpreadPartly(before, i, index, false, false, false) {
    }
    forall i | 0 <= i < |before| {
      SpreadMore(before, i, index);
    }
    hide SpreadFrom;
    hide SpreadPartly;
    hide Close;
    hide Raise;
    if BuyPhase in frames[index].ocrSignals {
      RaiseAround(frames, index, BuyState, before);
    }
    assert forall i :: 0 <= i < |before| ==> frames[i] == SpreadPartly(before, i, index, true, false, false);
    if Scoreboard in frames[index].ocrSignals {
      RaiseAround(frames, index, BoardState, before);
    }
    assert forall i :: 0 <= i < |before| ==> frames[i] == SpreadPartly(before, i, index, true, true, false);
    if RoundEnd in frames[index].ocrSignals {
      RaiseAround(frames, index, EndState, before);
    }
  }

  lemma SpreadKeepsEvidence(frames: seq<Observation>, i: int, n: nat)
    requires 0 <= i < |frames| && n <= |frames|
    ensures SpreadFrom(frames, i, n).timestamp == frames[i].timestamp
    ensures SpreadFrom(frames, i, n).ocrSignals == frames[i].ocrSignals
  {
    hide Near;
  }

  lemma SpreadKeepsTime(before: seq<Observation>, frames: seq<Observation>, n: nat)
    requires n <= |frames| == |before| && Chronological(before)
    requires forall i :: 0 <= i < |before| ==> frames[i] == SpreadFrom(before, i, n)
    ensures SameEvidence(before, frames) && Chronological(frames)
  {
    hide SpreadFrom;
    forall i | 0 <= i < |before|
      ensures frames[i].timestamp == before[i].timestamp && frames[i].ocrSignals == before[i].ocrSignals
    {
      SpreadKeepsEvidence(before, i, n);
    }
  }

  /** The frames before `n` that confirm the buy phase, in order. */
  function Confirmations(frames: seq<Observation>, n: nat): (list: seq<nat>)
    requires n <= |frames|
    ensures forall k :: 0 <= k < |list| ==> list[k] < n
  {
    if n == 0 then []
    else
      var earlier := Confirmations(frames, n - 1);
      if Confirms(frames[n - 1], BuyState) then earlier + [n - 1] else earlier
  }

  ghost predicate InOrder(frames: seq<Observation>, list: seq<nat>) {
    && (forall k :: 0 <= k < |list| ==> list[k] < |frames| && Confirms(frames[list[k]], BuyState))
    && (forall j, k :: 0 <= j < k < |list| ==> list[j] < list[k])
  }

  lemma {:induction false} ConfirmationsInOrder(frames: seq<Observation>, n: nat)
    requires n <= |frames|
    ensures InOrder(frames, Confirmations(frames, n))
  {
    if n > 0 {
      ConfirmationsInOrder(frames, n - 1);
      hide Confirms;
    }
  }

  lemma {:induction false} ConfirmationsComplete(frames: seq<Observation>, n: nat, i: nat) returns (k: nat)
    requires i < n <= |frames| && Confirms(frames[i], BuyState)
    ensures k < |Confirmations(frames, n)| && Confirmations(frames, n)[k] == i
  {
    hide Confirms;
    if i == n - 1 {
      k := |Confirmations(frames, n - 1)|;
    } else {
      k := ConfirmationsComplete(frames, n - 1, i);
    }
  }

  /** One of the first `c` confirmations closes a gap of at most 32 seconds around frame `i`. */
  ghost predicate BridgedBy(frames: seq<Observation>, list: seq<nat>, i: int, c: nat)
    requires forall k :: 0 <= k < |list| ==> list[k] < |frames|
  {
    exists k :: Closes(frames, list, i, k) && k < c
  }

  ghost predicate Closes(frames: seq<Observation>, list: seq<nat>, i: int, k: int)
    requires forall k :: 0 <= k < |list| ==> list[k] < |frames|
  {
    1 <= k < |list| && frames[list[k]].timestamp - frames[list[k - 1]].timestamp <= 32.0 && list[k - 1] <= i <= list[k]
  }

  lemma BridgeIsConsecutive(frames: seq<Observation>, i: int, k: int)
    requires Closes(frames, Confirmations(frames, |frames|), i, k)
    ensures var list := Confirmations(frames, |frames|);
            Consecutive(frames, list[k - 1], list[k])
  {
    hide Confirms;
    var list := Confirmations(frames, |frames|);
    ConfirmationsInOrder(frames, |frames|);
    forall j | list[k - 1] < j < list[k] ensures !Confirms(frames[j], BuyState) {
      if Confirms(frames[j], BuyState) {
        var m := ConfirmationsComplete(frames, |frames|, j);
        Squeeze(list, k, m);
      }
    }
  }

  lemma Squeeze(list: seq<nat>, k: nat, m: nat)
    requires 1 <= k < |list| && m < |list| && forall x, y :: 0 <= x < y < |list| ==> list[x] < list[y]
    ensures !(list[k - 1] < list[m] < list[k])
  {
  }

  lemma ConsecutiveIsBridge(frames: seq<Observation>, i: int, p: int, q: int)
    requires Consecutive(frames, p, q) && p <= i <= q
    ensures BridgedBy(frames, Confirmations(frames, |frames|), i, |Confirmations(frames, |frames|)|)
  {
    hide Confirms;
    var list := Confirmations(frames, |frames|);
    ConfirmationsInOrder(frames, |frames|);
    var j := ConfirmationsComplete(frames, |frames|, p);
    var k := ConfirmationsComplete(frames, |frames|, q);
    assert j < k;
    assert k == j + 1 by {
      assert Confirms(frames[list[k - 1]], BuyState);
    }
    assert Closes(frames, list, i, k);
  }

  lemma BridgesAreConsecutive(frames: seq<Observation>, i: int)
    ensures var list := Confirmations(frames, |frames|);
            BridgedBy(frames, list, i, |list|) <==> Bridged(frames, i)
  {
    hide Consecutive;
    hide Confirmations;
    var list := Confirmations(frames, |frames|);
    if BridgedBy(frames, list, i, |list|) {
      var k :| Closes(frames, list, i, k);
      BridgeIsConsecutive(frames, i, k);
    }
    if Bridged(frames, i) {
      var p, q :| Consecutive(frames, p, q) && p <= i <= q;
      ConsecutiveIsBridge(frames, i, p, q);
    }
  }

  /** In-place propagation of the confirmed states. */
  method SpreadConfirmedStates(frames: array<Observation>)
    requires Chronological(frames[..])
    modifies frames
    ensures frames[..] == SpreadAll(old(frames[..]))
  {
    ghost var before := frames[..];
    var confirmations := SpreadAround(frames);
    BridgeConfirmations(frames, confirmations, before);
    hide *;
    forall i | 0 <= i < |before| ensures frames[i] == SpreadAll(before)[i] {
      SpreadIsNearOrBridged(before, i);
    }
  }

  lemma SpreadIsNearOrBridged(frames: seq<Observation>, i: int)
    requires 0 <= i < |frames|
    ensures var list := Confirmations(frames, |frames|);
            RaiseIf(SpreadFrom(frames, i, |frames|), BuyState, BridgedBy(frames, list, i, |list|)) == SpreadAll(frames)[i]
  {
    BridgesAreConsecutive(frames, i);
    hide Near;
    hide BridgedBy;
    hide Bridged;
    RaiseLaws(frames[i]);
  }

  method SpreadAround(frames: array<Observation>) returns (confirmations: seq<nat>)
    requires Chronological(frames[..])
    modifies frames
    ensures confirmations == Confirmations(old(frames[..]), frames.Length)
    ensures forall i :: 0 <= i < frames.Length ==> frames[i] == SpreadFrom(old(frames[..]), i, frames.Length)
  {
    ghost var before := frames[..];
    confirmations := [];
    NothingSpread(before);
    hide *;
    for index := 0 to frames.Length
      invariant forall i :: 0 <= i < |before| ==> frames[i] == SpreadFrom(before, i, index)
      invariant confirmations == Confirmations(before, index)
    {
      SpreadKeepsEvidence(before, index, index);
      NextConfirmation(before, index);
      if BuyPhase in frames[index].ocrSignals {
        confirmations := confirmations + [index];
      }
      SpreadOne(frames, index, before);
    }
  }

  lemma NextConfirmation(frames: seq<Observation>, n: nat)
    requires n < |frames|
    ensures Confirmations(frames, n + 1) ==
            if BuyPhase in frames[n].ocrSignals then Confirmations(frames, n) + [n] else Confirmations(frames, n)
  {
  }

  lemma NothingSpread(frames: seq<Observation>)
    ensures forall i :: 0 <= i < |frames| ==> frames[i] == SpreadFrom(frames, i, 0)
  {
  }

  method BridgeConfirmations(frames: array<Observation>, confirmations: seq<nat>, ghost before: seq<Observation>)
    requires frames.Length == |before| && Chronological(before) && confirmations == Confirmations(before, |before|)
    requires forall i :: 0 <= i < |before| ==> frames[i] == SpreadFrom(before, i, |before|)
    modifies frames
    ensures forall i :: 0 <= i < |before| ==>
              frames[i] == RaiseIf(SpreadFrom(before, i, |before|), BuyState,
                                   BridgedBy(before, confirmations, i, |confirmations|))
  {
    ConfirmationsInOrder(before, |before|);
    SpreadKeepsTime(before, frames[..], |before|);
    ghost var spread := frames[..];
    NoBridge(before, confirmations);
    RaiseTwice(BuyState);
    hide Chronological;
    hide SpreadFrom;
    hide Raise;
    hide BridgedBy;
    hide Confirmations;
    var c := 1;
    while c < |confirmations|
      invariant 1 <= c
      invariant SameEvidence(before, frames[..])
      invariant forall i :: 0 <= i < |before| ==>
        frames[i] == RaiseIf(spread[i], BuyState, BridgedBy(before, confirmations, i, c))
    {
      NextBridge(before, confirmations, c);
      if frames[confirmations[c]].timestamp - frames[confirmations[c - 1]].timestamp > 32.0 {
        c := c + 1;
        continue;
      }
      RaiseRange(frames, confirmations[c - 1], confirmations[c], before);
      c := c + 1;
    }
    AllBridges(before, confirmations, c);
  }

  lemma NoBridge(before: seq<Observation>, list: seq<nat>)
    requires forall k :: 0 <= k < |list| ==> list[k] < |before|
    ensures forall i :: !BridgedBy(before, list, i, 1)
  {
  }

  lemma AllBridges(before: seq<Observation>, list: seq<nat>, c: nat)
    requires forall k :: 0 <= k < |list| ==> list[k] < |before|
    requires |list| <= c
    ensures forall i :: BridgedBy(before, list, i, c) == BridgedBy(before, list, i, |list|)
  {
  }

  method RaiseRange(frames: array<Observation>, previous: nat, current: nat, ghost before: seq<Observation>)
    requires previous <= current < frames.Length && SameEvidence(before, frames[..])
    modifies frames
    ensures SameEvidence(before, frames[..])
    ensures forall i :: 0 <= i < frames.Length ==>
              frames[i] == RaiseIf(old(frames[i]), BuyState, previous <= i <= current)
  {
    hide Raise;
    for candidate := previous to current + 1
      invariant forall i :: 0 <= i < frames.Length ==>
        frames[i] == RaiseIf(old(frames[i]), BuyState, previous <= i < candidate)
    {
      frames[candidate] := Raise(frames[candidate], BuyState);
    }
    RaiseKeepsEvidence(BuyState);
  }

  lemma NextBridge(before: seq<Observation>, list: seq<nat>, c: nat)
    requires forall k :: 0 <= k < |list| ==> list[k] < |before|
    ensures forall i :: BridgedBy(before, list, i, c + 1) <==> BridgedBy(before, list, i, c) || Closes(before, list, i, c)
  {
  }

  lemma RaiseTwice(state: State)
    ensures forall o :: Raise(Raise(o, state), state) == Raise(o, state)
  {
  }

  // ----- What spreading guarantees

  lemma SpreadFields(frames: seq<Observation>, i: int)
    requires 0 <= i < |frames|
    ensures var o, s, n := frames[i], Spread(frames, i), |frames|;
            && s.buyPhase == (if Near(frames, i, BuyState, n) || Bridged(frames, i) then Max(o.buyPhase, 0.90) else o.buyPhase)
            && s.scoreboard == (if Near(frames, i, BoardState, n) then Max(o.scoreboard, 0.80) else o.scoreboard)
            && s.roundEnd == (if Near(frames, i, EndState, n) then Max(o.roundEnd, 0.90) else o.roundEnd)
            && s == o.(buyPhase := s.buyPhase, scoreboard := s.scoreboard, roundEnd := s.roundEnd)
  {
    hide Near;
    hide Bridged;
  }

  /** A frame within the radius recognized the signal. */
  ghost predicate RecognizedWithin(frames: seq<Observation>, i: int, signal: Signal, radius: real)
    requires 0 <= i < |frames|
  {
    exists j :: 0 <= j < |frames| && signal in frames[j].ocrSignals &&
                frames[i].timestamp - radius <= frames[j].timestamp <= frames[i].timestamp + radius
  }

  /** The frame lies between two frames that recognized the buy phase, at most 32 seconds apart and
      with none in between. */
  ghost predicate BetweenBuys(frames: seq<Observation>, i: int) {
    exists p, q :: IsBuyPair(frames, p, q) && p <= i <= q
  }

  ghost predicate IsBuyPair(frames: seq<Observation>, p: int, q: int) {
    && 0 <= p < q < |frames| && BuyPhase in frames[p].ocrSignals && BuyPhase in frames[q].ocrSignals
    && frames[q].timestamp - frames[p].timestamp <= 32.0
    && forall j :: p < j < q ==> BuyPhase !in frames[j].ocrSignals
  }

  /** What spreading means: a state spreads 5, 2 or 4 seconds from where it was recognized, the buy
      phase also between recognitions up to 32 seconds apart, and becomes trusted there. */
  lemma SpreadMeans(frames: seq<Observation>, i: int)
    requires 0 <= i < |frames|
    ensures var o, s := frames[i], SpreadAll(frames)[i];
            && (if RecognizedWithin(frames, i, BuyPhase, 5.0) || BetweenBuys(frames, i) then s.buyPhase == Max(o.buyPhase, 0.90)
                else s.buyPhase == o.buyPhase)
            && (if RecognizedWithin(frames, i, Scoreboard, 2.0) then s.scoreboard == Max(o.scoreboard, 0.80)
                else s.scoreboard == o.scoreboard)
            && (if RecognizedWithin(frames, i, RoundEnd, 4.0) then s.roundEnd == Max(o.roundEnd, 0.90)
                else s.roundEnd == o.roundEnd)
  {
    SpreadFields(frames, i);
    NearMeans(frames, i, BuyState, BuyPhase, 5.0);
    NearMeans(frames, i, BoardState, Scoreboard, 2.0);
    NearMeans(frames, i, EndState, RoundEnd, 4.0);
    hide Near;
    hide RecognizedWithin;
    forall p, q ensures Consecutive(frames, p, q) <==> IsBuyPair(frames, p, q) {
    }
    hide Consecutive;
    hide IsBuyPair;
  }

  lemma NearMeans(frames: seq<Observation>, i: int, state: State, signal: Signal, radius: real)
    requires 0 <= i < |frames| && signal == Confirming(state) && radius == Radius(state)
    ensures Near(frames, i, state, |frames|) <==> RecognizedWithin(frames, i, signal, radius)
  {
    if Near(frames, i, state, |frames|) {
      var j :| 0 <= j < |frames| && Confirms(frames[j], state) && Close(frames, i, j, state);
      assert signal in frames[j].ocrSignals;
    }
    if RecognizedWithin(frames, i, signal, radius) {
      var j :| 0 <= j < |frames| && signal in frames[j].ocrSignals &&
               frames[i].timestamp - radius <= frames[j].timestamp <= frames[i].timestamp + radius;
      assert Confirms(frames[j], state) && Close(frames, i, j, state);
    }
  }

  /** Spreading never lowers a signal and touches nothing but the three spread ones. */
  lemma SpreadNeverLowers(frames: seq<Observation>, i: int)
    requires 0 <= i < |frames|
    ensures var o, s := frames[i], SpreadAll(frames)[i];
            && o.buyPhase <= s.buyPhase && o.scoreboard <= s.scoreboard && o.roundEnd <= s.roundEnd
            && s == o.(buyPhase := s.buyPhase, scoreboard := s.scoreboard, roundEnd := s.roundEnd)
  {
    SpreadFields(frames, i);
  }

  /** Spreading a second time changes nothing. */
  lemma SpreadIsIdempotent(frames: seq<Observation>)
    ensures SpreadAll(SpreadAll(frames)) == SpreadAll(frames)
  {
    var once := SpreadAll(frames);
    forall i | 0 <= i < |frames|
      ensures once[i].timestamp == frames[i].timestamp && once[i].ocrSignals == frames[i].ocrSignals
    {
      SpreadFields(frames, i);
    }
    assert SameEvidence(frames, once);
    forall i | 0 <= i < |frames| ensures Spread(once, i) == once[i] {
      SameReach(frames, once, i);
      SpreadFields(frames, i);
      SpreadFields(once, i);
    }
  }

  lemma SameReach(a: seq<Observation>, b: seq<Observation>, i: int)
    requires SameEvidence(a, b) && 0 <= i < |a|
    ensures forall state :: Near(a, i, state, |a|) <==> Near(b, i, state, |b|)
    ensures Bridged(a, i) <==> Bridged(b, i)
  {
    SameReachOneWay(a, b, i);
    SameReachOneWay(b, a, i);
  }

  lemma SameReachOneWay(a: seq<Observation>, b: seq<Observation>, i: int)
    requires SameEvidence(a, b) && 0 <= i < |a|
    ensures forall state :: Near(a, i, state, |a|) ==> Near(b, i, state, |b|)
    ensures Bridged(a, i) ==> Bridged(b, i)
  {
    forall state | Near(a, i, state, |a|) ensures Near(b, i, state, |b|) {
      var j :| 0 <= j < |a| && Confirms(a[j], state) && Close(a, i, j, state);
      assert Confirms(b[j], state) && Close(b, i, j, state);
    }
    if Bridged(a, i) {
      var p, q :| Consecutive(a, p, q) && p <= i <= q;
      assert Consecutive(b, p, q);
    }
  }
}
