/** Scoring predicted gameplay events against manual labels: the greedy matcher, its
    approximation bound, and the per-type counts built from its result. */
module Evaluation {
  import opened Finite
  import Rounding
  import opened Sorting
  import opened Tally
  import opened Text

  datatype Label = Label(id: string, kind: string, category: string, timestamp: real)
  datatype Event = Event(id: string, kind: string, category: string, timestamp: real)
  datatype Match = Match(target: Label, event: Event, delta: real)

  // ----- Types and keys

  const COMBAT := {"combat", "combat_spike", "combat_candidate", "fight", "fight_selection", "bad_fight", "kill", "duel"}
  const DEATH := {"death", "death_review", "death_state", "death_state_confirmed"}
  const ROTATION := {"rotation", "rotation_spike", "rotation_candidate", "rotate", "bad_rotate", "macro_rotation"}
  const TEMPO := {"tempo", "tempo_candidate", "low_activity", "hold", "passive", "pacing"}
  const ROUND := {"round", "round_start", "round_boundary", "round_estimate", "estimated_round"}

  function Normalized(value: string): string {
    Replace(Replace(Lower(Trim(value)), '-', '_'), ' ', '_')
  }

  predicate IsCombat(v: string) {
    v in COMBAT
  }

  predicate IsDeath(v: string) {
    v in DEATH
  }

  predicate IsRotation(v: string) {
    v in ROTATION
  }

  predicate IsTempo(v: string) {
    v in TEMPO
  }

  predicate IsRound(v: string) {
    v in ROUND
  }

  function CanonicalType(value: string): string {
    var v := Normalized(value);
    if IsCombat(v) then "combat_candidate"
    else if IsDeath(v) then "death_state_confirmed"
    else if IsRotation(v) then "rotation_candidate"
    else if IsTempo(v) then "tempo_candidate"
    else if IsRound(v) then "round_estimate"
    else if v == "" then "unknown"
    else v
  }

  function LabelKey(target: Label): string {
    if Trim(target.kind) != "" then CanonicalType(target.kind)
    else if Trim(target.category) != "" then "category:" + Lower(Trim(target.category))
    else "unknown"
  }

  function EventKey(event: Event): string {
    CanonicalType(event.kind)
  }

  predicate Compatible(target: Label, event: Event) {
    if Trim(target.kind) != "" then CanonicalType(target.kind) == EventKey(event)
    else if Trim(target.category) != "" then Lower(Trim(target.category)) == Lower(event.category)
    else false
  }

  function Abs(x: real): real {
    if x < 0.0 then -x else x
  }

  function Delta(target: Label, event: Event): real {
    Abs(target.timestamp - event.timestamp)
  }

  function PublishedDelta(target: Label, event: Event): real {
    Rounding.Round4(Delta(target, event))
  }

  predicate Admissible(target: Label, event: Event, tolerance: real) {
    Compatible(target, event) && Delta(target, event) <= tolerance
  }

  // ----- What keys and compatibility mean

  /** Lower-case letters and underscores: a text that normalizing leaves alone. */
  ghost predicate Plain(value: string) {
    forall i :: 0 <= i < |value| ==> 'a' <= value[i] <= 'z' || value[i] == '_'
  }

  lemma PlainIsNormal(value: string)
    requires Plain(value)
    ensures Normalized(value) == value
  {
    assert Trimmed(value);
    TrimTrimmed(value);
    assert Lower(value) == value;
  }

  /** What tells the words of different families apart. */
  function Code(v: string): (int, char, char)
    requires |v| >= 3
  {
    (|v|, v[0], v[2])
  }

  predicate CombatWord(v: string) {
    v in {"combat", "combat_spike", "combat_candidate", "fight", "fight_selection", "bad_fight", "kill", "duel"}
  }

  lemma CombatWords(v: string)
    ensures CombatWord(v) <==> IsCombat(v)
    ensures CombatWord(v) ==> |v| >= 3 && Code(v) in {(6, 'c', 'm'), (12, 'c', 'm'), (16, 'c', 'm'), (5, 'f', 'g'), (15, 'f', 'g'), (9, 'b', 'd'), (4, 'k', 'l'), (4, 'd', 'e')}
  {
  }

  predicate DeathWord(v: string) {
    v in {"death", "death_review", "death_state", "death_state_confirmed"}
  }

  lemma DeathWords(v: string)
    ensures DeathWord(v) <==> IsDeath(v)
    ensures DeathWord(v) ==> |v| >= 3 && Code(v) in {(5, 'd', 'a'), (12, 'd', 'a'), (11, 'd', 'a'), (21, 'd', 'a')}
  {
  }

  predicate RotationWord(v: string) {
    v in {"rotation", "rotation_spike", "rotation_candidate", "rotate", "bad_rotate", "macro_rotation"}
  }

  lemma RotationWords(v: string)
    ensures RotationWord(v) <==> IsRotation(v)
    ensures RotationWord(v) ==> |v| >= 3 && Code(v) in {(8, 'r', 't'), (14, 'r', 't'), (18, 'r', 't'), (6, 'r', 't'), (10, 'b', 'd'), (14, 'm', 'c')}
  {
  }

  predicate TempoWord(v: string) {
    v in {"tempo", "tempo_candidate", "low_activity", "hold", "passive", "pacing"}
  }

  lemma TempoWords(v: string)
    ensures TempoWord(v) <==> IsTempo(v)
    ensures TempoWord(v) ==> |v| >= 3 && Code(v) in {(5, 't', 'm'), (15, 't', 'm'), (12, 'l', 'w'), (4, 'h', 'l'), (7, 'p', 's'), (6, 'p', 'c')}
  {
  }

  predicate RoundWord(v: string) {
    v in {"round", "round_start", "round_boundary", "round_estimate", "estimated_round"}
  }

  lemma RoundWords(v: string)
    ensures RoundWord(v) <==> IsRound(v)
    ensures RoundWord(v) ==> |v| >= 3 && Code(v) in {(5, 'r', 'u'), (11, 'r', 'u'), (14, 'r', 'u'), (15, 'e', 't')}
  {
  }

  /** No word belongs to two families. */
  lemma FamiliesAreApart(v: string)
    ensures IsCombat(v) ==> !IsDeath(v) && !IsRotation(v) && !IsTempo(v) && !IsRound(v)
    ensures IsDeath(v) ==> !IsRotation(v) && !IsTempo(v) && !IsRound(v)
    ensures IsRotation(v) ==> !IsTempo(v) && !IsRound(v)
    ensures IsTempo(v) ==> !IsRound(v)
    ensures IsCombat(v) || IsDeath(v) || IsRotation(v) || IsTempo(v) || IsRound(v) ==> v != ""
  {
    hide *;
    CombatWords(v);
    DeathWords(v);
    RotationWords(v);
    TempoWords(v);
    RoundWords(v);
  }

  /** The words of a family all have the key of the family, and a word of no family is its own key. */
  lemma KeysOfWords(v: string)
    requires Plain(v)
    ensures CombatWord(v) ==> CanonicalType(v) == "combat_candidate"
    ensures DeathWord(v) ==> CanonicalType(v) == "death_state_confirmed"
    ensures RotationWord(v) ==> CanonicalType(v) == "rotation_candidate"
    ensures TempoWord(v) ==> CanonicalType(v) == "tempo_candidate"
    ensures RoundWord(v) ==> CanonicalType(v) == "round_estimate"
    ensures !CombatWord(v) && !DeathWord(v) && !RotationWord(v) && !TempoWord(v) && !RoundWord(v) ==>
              CanonicalType(v) == if v == "" then "unknown" else v
  {
    KeyOf(v);
    hide *;
    FamiliesAreApart(v);
    CombatWords(v);
    DeathWords(v);
    RotationWords(v);
    TempoWords(v);
    RoundWords(v);
    PlainIsNormal(v);
  }

  lemma KeyOf(value: string)
    ensures var v := Normalized(value);
            CanonicalType(value) ==
            if IsCombat(v) then "combat_candidate" else if IsDeath(v) then "death_state_confirmed"
            else if IsRotation(v) then "rotation_candidate" else if IsTempo(v) then "tempo_candidate"
            else if IsRound(v) then "round_estimate" else if v == "" then "unknown" else v
  {
  }

  /** The keys of the families are words of their families, and all are different. */
  lemma FamilyKeys()
    ensures Plain("combat_candidate") && CombatWord("combat_candidate")
    ensures Plain("death_state_confirmed") && DeathWord("death_state_confirmed")
    ensures Plain("rotation_candidate") && RotationWord("rotation_candidate")
    ensures Plain("tempo_candidate") && TempoWord("tempo_candidate")
    ensures Plain("round_estimate") && RoundWord("round_estimate")
    ensures |{"combat_candidate", "death_state_confirmed", "rotation_candidate", "tempo_candidate", "round_estimate"}| == 5
  {
    assert |"combat_candidate"| == 16 && |"death_state_confirmed"| == 21 && |"rotation_candidate"| == 18;
    assert |"tempo_candidate"| == 15 && |"round_estimate"| == 14;
  }

  lemma UnknownIsNoWord()
    ensures !IsCombat("unknown") && !IsDeath("unknown") && !IsRotation("unknown") && !IsTempo("unknown") && !IsRound("unknown")
    ensures Plain("unknown")
  {
    hide *;
    CombatWords("unknown");
    DeathWords("unknown");
    RotationWords("unknown");
    TempoWords("unknown");
    RoundWords("unknown");
    UnknownCode();
  }

  lemma UnknownCode()
    ensures |"unknown"| >= 3 && Code("unknown") == (7, 'u', 'k') && Plain("unknown")
  {
  }

  /** A hyphen, a space or an underscore. */
  predicate Joins(c: char) {
    c == '-' || c == ' ' || c == '_'
  }

  /** The texts differ at most in the case of letters and in how words are joined. */
  ghost predicate SameWords(s: string, t: string) {
    |s| == |t| && forall i :: 0 <= i < |s| ==> SameLetter(s[i], t[i]) || (Joins(s[i]) && Joins(t[i]))
  }

  lemma JoinedCharacter(c: char, d: char)
    ensures SameLetter(c, d) || (Joins(c) && Joins(d)) <==> JoinedLower(c) == JoinedLower(d)
  {
  }

  function JoinedLower(c: char): char {
    if Joins(c) then '_' else LowerChar(c)
  }

  lemma NormalizedAt(value: string, i: nat)
    requires i < |Trim(value)|
    ensures |Normalized(value)| == |Trim(value)| && Normalized(value)[i] == JoinedLower(Trim(value)[i])
  {
  }

  /** Two texts are normalized alike exactly when, trimmed, they differ in case and joining alone. */
  lemma NormalizedLaw(s: string, t: string)
    ensures Normalized(s) == Normalized(t) <==> SameWords(Trim(s), Trim(t))
  {
    assert |Normalized(s)| == |Trim(s)| && |Normalized(t)| == |Trim(t)|;
    hide Normalized;
    hide Trim;
    hide SameLetter;
    hide Joins;
    forall i | 0 <= i < |Trim(s)| && i < |Trim(t)|
      ensures SameLetter(Trim(s)[i], Trim(t)[i]) || (Joins(Trim(s)[i]) && Joins(Trim(t)[i])) <==> Normalized(s)[i] == Normalized(t)[i]
    {
      NormalizedAt(s, i);
      NormalizedAt(t, i);
      JoinedCharacter(Trim(s)[i], Trim(t)[i]);
    }
  }

  lemma NormalizedAgain(value: string)
    ensures Normalized(Normalized(value)) == Normalized(value)
  {
    var v := Normalized(value);
    var before, after := TrimLaw(value);
    var s := Trim(value);
    if s != "" {
      NormalizedAt(value, 0);
      NormalizedAt(value, |s| - 1);
      JoinedKeepsInk(s[0]);
      JoinedKeepsInk(s[|s| - 1]);
    }
    assert |v| == |s|;
    TrimTrimmed(v);
    hide Trim;
    hide IsSpace;
    forall i | 0 <= i < |v| ensures Normalized(v)[i] == v[i] {
      NormalizedAt(value, i);
      NormalizedAt(v, i);
    }
    assert |Normalized(v)| == |v|;
  }

  lemma JoinedKeepsInk(c: char)
    requires !IsSpace(c)
    ensures !IsSpace(JoinedLower(c)) && JoinedLower(JoinedLower(c)) == JoinedLower(c)
  {
  }

  /** Types that differ in case, in the space around them, or in how their words are joined have the
      same key. */
  lemma KeysOfTypes(s: string, t: string)
    requires SameWords(Trim(s), Trim(t))
    ensures CanonicalType(s) == CanonicalType(t)
  {
    KeyOf(s);
    KeyOf(t);
    hide CanonicalType;
    hide SameWords;
    NormalizedLaw(s, t);
  }

  /** A key is its own key. */
  lemma KeyOfKey(s: string)
    ensures CanonicalType(CanonicalType(s)) == CanonicalType(s)
  {
    KeyOf(s);
    hide *;
    FamilyKeys();
    UnknownIsNoWord();
    NormalizedAgain(s);
    KeyOf(Normalized(s));
    KeysOfWords("combat_candidate");
    KeysOfWords("death_state_confirmed");
    KeysOfWords("rotation_candidate");
    KeysOfWords("tempo_candidate");
    KeysOfWords("round_estimate");
    KeyOf("unknown");
    PlainIsNormal("unknown");
    UnknownCode();
  }

  /** A label with a type and an event go together exactly when they have the same key; a label with
      a category alone takes the events of that category, in any case; another label takes none. */
  lemma CompatibleMeans(target: Label, event: Event)
    ensures Typed(target) ==> LabelKey(target) == CanonicalType(target.kind)
    ensures Typed(target) ==> (Compatible(target, event) <==> LabelKey(target) == EventKey(event))
    ensures !Typed(target) && Trim(target.category) != "" ==>
              (Compatible(target, event) <==> SameLetters(Trim(target.category), event.category))
    ensures !Typed(target) && Trim(target.category) == "" ==> !Compatible(target, event)
    ensures EventKey(event) == CanonicalType(event.kind)
  {
    hide CanonicalType;
    LowerLaw(Trim(target.category), event.category);
  }

  /** A pair is admissible when it goes together and lies within the tolerance, before or after. */
  lemma AdmissibleMeans(target: Label, event: Event, tolerance: real)
    ensures Admissible(target, event, tolerance) <==>
            Compatible(target, event) && target.timestamp - tolerance <= event.timestamp <= target.timestamp + tolerance
    ensures Delta(target, event) == if target.timestamp < event.timestamp then event.timestamp - target.timestamp
                                    else target.timestamp - event.timestamp
  {
    hide Compatible;
  }

  // ----- Which events take part

  function WantedKeys(evaluatedTypes: seq<string>, labels: seq<Label>): set<string> {
    TypeKeys(evaluatedTypes) + KeySet(labels)
  }

  function TypeKeys(evaluatedTypes: seq<string>): set<string> {
    set t | t in evaluatedTypes && CanonicalType(t) != "unknown" :: CanonicalType(t)
  }

  function KeySet(labels: seq<Label>): set<string> {
    set target | target in labels :: LabelKey(target)
  }

  predicate Evaluated(event: Event, wanted: set<string>) {
    event.kind != "capture_quality" && (wanted == {} || EventKey(event) in wanted)
  }

  function Selected(events: seq<Event>, wanted: set<string>, n: nat): seq<Event>
    requires n <= |events|
  {
    if n == 0 then []
    else
      var earlier := Selected(events, wanted, n - 1);
      if Evaluated(events[n - 1], wanted) then earlier + [events[n - 1]] else earlier
  }

  method EvaluatedEvents(events: seq<Event>, evaluatedTypes: seq<string>, labels: seq<Label>)
    returns (selected: seq<Event>)
    ensures selected == Selected(events, WantedKeys(evaluatedTypes, labels), |events|)
  {
    var wanted := CollectWanted(evaluatedTypes, labels);
    selected := [];
    for i := 0 to |events|
      invariant selected == Selected(events, wanted, i)
    {
      if events[i].kind == "capture_quality" {
        continue;
      }
      if |wanted| > 0 {
        if EventKey(events[i]) !in wanted {
          continue;
        }
      }
      selected := selected + [events[i]];
    }
  }

  method CollectWanted(evaluatedTypes: seq<string>, labels: seq<Label>) returns (wanted: set<string>)
    ensures wanted == WantedKeys(evaluatedTypes, labels)
  {
    wanted := {};
    for i := 0 to |evaluatedTypes|
      invariant wanted == TypeKeys(evaluatedTypes[..i])
    {
      TypeKeysStep(evaluatedTypes, i);
      var key := CanonicalType(evaluatedTypes[i]);
      if key != "" && key != "unknown" {
        wanted := wanted + {key};
      }
    }
    assert evaluatedTypes[..|evaluatedTypes|] == evaluatedTypes;
    for i := 0 to |labels|
      invariant wanted == TypeKeys(evaluatedTypes) + KeySet(labels[..i])
    {
      KeySetStep(labels, i);
      var key := LabelKey(labels[i]);
      if key != "" {
        wanted := wanted + {key};
      }
    }
    assert labels[..|labels|] == labels;
  }

  lemma KeysAreNotEmpty(value: string, target: Label)
    ensures CanonicalType(value) != "" && LabelKey(target) != ""
  {
  }

  lemma TypeKeysStep(types: seq<string>, i: nat)
    requires i < |types|
    ensures TypeKeys(types[..i + 1]) ==
            TypeKeys(types[..i]) + (if CanonicalType(types[i]) == "unknown" then {} else {CanonicalType(types[i])})
    ensures CanonicalType(types[i]) != ""
  {
    hide CanonicalType;
    assert types[..i + 1] == types[..i] + [types[i]];
    KeysAreNotEmpty(types[i], Label("", "", "", 0.0));
  }

  lemma KeySetStep(labels: seq<Label>, i: nat)
    requires i < |labels|
    ensures KeySet(labels[..i + 1]) == KeySet(labels[..i]) + {LabelKey(labels[i])}
    ensures LabelKey(labels[i]) != ""
  {
    hide LabelKey;
    assert labels[..i + 1] == labels[..i] + [labels[i]];
    KeysAreNotEmpty("", labels[i]);
  }

  lemma {:induction false} SelectedMembers(events: seq<Event>, wanted: set<string>, n: nat)
    requires n <= |events|
    ensures forall e :: e in Selected(events, wanted, n) <==> e in events[..n] && Evaluated(e, wanted)
  {
    hide Evaluated;
    if n > 0 {
      SelectedMembers(events, wanted, n - 1);
      assert events[..n] == events[..n - 1] + [events[n - 1]];
    }
  }

  // ----- The greedy matcher

  /** The nearest unused admissible event among the first `n`, the earliest on ties; -1 if none. */
  function Nearest(target: Label, events: seq<Event>, tolerance: real, used: set<int>, n: nat): (best: int)
    requires n <= |events|
    ensures -1 <= best < n
  {
    if n == 0 then -1
    else
      var best := Nearest(target, events, tolerance, used, n - 1);
      if n - 1 !in used && Admissible(target, events[n - 1], tolerance) &&
         (best == -1 || Delta(target, events[n - 1]) < Delta(target, events[best]))
      then n - 1 else best
  }

  lemma {:induction false} NearestIsNearest(target: Label, events: seq<Event>, tolerance: real, used: set<int>, n: nat)
    requires n <= |events|
    ensures var best := Nearest(target, events, tolerance, used, n);
            if best == -1 then
              forall k :: 0 <= k < n && k !in used ==> !Admissible(target, events[k], tolerance)
            else
              && best !in used && Admissible(target, events[best], tolerance)
              && forall k :: 0 <= k < n && k !in used && Admissible(target, events[k], tolerance) ==>
                   Delta(target, events[best]) < Delta(target, events[k]) ||
                   (Delta(target, events[best]) == Delta(target, events[k]) && best <= k)
  {
    if n > 0 {
      NearestIsNearest(target, events, tolerance, used, n - 1);
    }
  }

  /** For each of the first `n` labels in turn the index of the event it takes, or -1. */
  function Greedy(labels: seq<Label>, events: seq<Event>, tolerance: real, n: nat): (assignment: seq<int>)
    requires n <= |labels|
    ensures |assignment| == n
    ensures forall i :: 0 <= i < n ==> -1 <= assignment[i] < |events|
  {
    if n == 0 then []
    else
      var earlier := Greedy(labels, events, tolerance, n - 1);
      earlier + [Nearest(labels[n - 1], events, tolerance, Used(earlier, n - 1), |events|)]
  }

  predicate Assigns(assignment: seq<int>, labels: seq<Label>, events: seq<Event>) {
    |assignment| == |labels| && forall i :: 0 <= i < |assignment| ==> -1 <= assignment[i] < |events|
  }

  function Used(assignment: seq<int>, n: nat): set<int>
    requires n <= |assignment|
  {
    if n == 0 then {}
    else Used(assignment, n - 1) + (if assignment[n - 1] == -1 then {} else {assignment[n - 1]})
  }

  lemma {:induction false} UsedMembers(assignment: seq<int>, n: nat)
    requires n <= |assignment|
    ensures forall k :: k in Used(assignment, n) <==> k != -1 && exists i :: 0 <= i < n && assignment[i] == k
  {
    if n > 0 {
      UsedMembers(assignment, n - 1);
      forall k | k in Used(assignment, n) ensures k != -1 && exists i :: 0 <= i < n && assignment[i] == k {
        assert k in Used(assignment, n - 1) || assignment[n - 1] == k;
      }
    }
  }

  lemma {:induction false} UsedOfPrefix(shorter: seq<int>, longer: seq<int>, n: nat)
    requires n <= |shorter| <= |longer|
    requires forall i :: 0 <= i < n ==> shorter[i] == longer[i]
    ensures Used(shorter, n) == Used(longer, n)
  {
    if n > 0 {
      UsedOfPrefix(shorter, longer, n - 1);
    }
  }

  /** The matcher's choice for label `i` depends only on the choices before it. */
  lemma {:induction false} GreedyChoice(labels: seq<Label>, events: seq<Event>, tolerance: real, n: nat, i: nat)
    requires i < n <= |labels|
    ensures var a := Greedy(labels, events, tolerance, n);
            a[i] == Nearest(labels[i], events, tolerance, Used(a, i), |events|)
  {
    hide Nearest;
    var a := Greedy(labels, events, tolerance, n);
    var earlier := Greedy(labels, events, tolerance, n - 1);
    if i < n - 1 {
      GreedyChoice(labels, events, tolerance, n - 1, i);
    }
    UsedOfPrefix(earlier, a, i);
  }

  function Matched(labels: seq<Label>, events: seq<Event>, assignment: seq<int>, n: nat): seq<Match>
    requires Assigns(assignment, labels, events) && n <= |labels|
  {
    if n == 0 then []
    else
      var earlier := Matched(labels, events, assignment, n - 1);
      var k := assignment[n - 1];
      if k == -1 then earlier
      else earlier + [Match(labels[n - 1], events[k], PublishedDelta(labels[n - 1], events[k]))]
  }

  function Missed(labels: seq<Label>, assignment: seq<int>, n: nat): seq<Label>
    requires |assignment| == |labels| && n <= |labels|
  {
    if n == 0 then []
    else
      var earlier := Missed(labels, assignment, n - 1);
      if assignment[n - 1] == -1 then earlier + [labels[n - 1]] else earlier
  }

  function Unused(events: seq<Event>, used: set<int>, n: nat): seq<Event>
    requires n <= |events|
  {
    if n == 0 then []
    else
      var earlier := Unused(events, used, n - 1);
      if n - 1 in used then earlier else earlier + [events[n - 1]]
  }

  method MatchEvaluationLabels(labels: seq<Label>, predictions: seq<Event>, tolerance: real)
    returns (matches: seq<Match>, missed: seq<Label>, falsePositive: seq<Event>)
    ensures var assignment := Greedy(labels, predictions, tolerance, |labels|);
            && matches == Matched(labels, predictions, assignment, |labels|)
            && missed == Missed(labels, assignment, |labels|)
            && falsePositive == Unused(predictions, Used(assignment, |labels|), |predictions|)
  {
    hide Compatible;
    hide Delta;
    hide Rounding.Round4;
    ghost var assignment := Greedy(labels, predictions, tolerance, |labels|);
    var usedPredictions: set<int> := {};
    matches, missed, falsePositive := [], [], [];
    for i := 0 to |labels|
      invariant usedPredictions == Used(assignment, i)
      invariant matches == Matched(labels, predictions, assignment, i)
      invariant missed == Missed(labels, assignment, i)
    {
      var bestIndex := -1;
      var bestDelta := 0.0;
      for index := 0 to |predictions|
        invariant bestIndex == Nearest(labels[i], predictions, tolerance, usedPredictions, index)
        invariant bestIndex != -1 ==> bestDelta == Delta(labels[i], predictions[bestIndex])
      {
        if index in usedPredictions || !Compatible(labels[i], predictions[index]) {
          continue;
        }
        var delta := Delta(labels[i], predictions[index]);
        if delta <= tolerance && (bestIndex == -1 || delta < bestDelta) {
          bestIndex, bestDelta := index, delta;
        }
      }
      GreedyChoice(labels, predictions, tolerance, |labels|, i);
      if bestIndex == -1 {
        missed := missed + [labels[i]];
        continue;
      }
      usedPredictions := usedPredictions + {bestIndex};
      matches := matches + [Match(labels[i], predictions[bestIndex], Rounding.Round4(bestDelta))];
    }
    for index := 0 to |predictions|
      invariant falsePositive == Unused(predictions, usedPredictions, index)
    {
      if index !in usedPredictions {
        falsePositive := falsePositive + [predictions[index]];
      }
    }
  }

  // ----- Quality of the matching

  /** A one-to-one assignment of labels to compatible events within the tolerance. */
  ghost predicate ValidMatching(labels: seq<Label>, events: seq<Event>, tolerance: real, m: seq<int>) {
    && Assigns(m, labels, events)
    && OneToOne(m)
    && forall i :: 0 <= i < |m| && m[i] != -1 ==> Admissible(labels[i], events[m[i]], tolerance)
  }

  ghost predicate OneToOne(m: seq<int>) {
    forall i, j :: 0 <= i < j < |m| && m[i] != -1 ==> m[i] != m[j]
  }

  ghost function MatchedLabels(m: seq<int>, n: nat): set<int>
    requires n <= |m|
  {
    set i | 0 <= i < n && m[i] != -1
  }

  lemma GreedyIsValid(labels: seq<Label>, events: seq<Event>, tolerance: real)
    ensures ValidMatching(labels, events, tolerance, Greedy(labels, events, tolerance, |labels|))
  {
    hide Admissible;
    var m := Greedy(labels, events, tolerance, |labels|);
    forall i | 0 <= i < |m| && m[i] != -1
      ensures Admissible(labels[i], events[m[i]], tolerance) && m[i] !in Used(m, i)
    {
      GreedyChoice(labels, events, tolerance, |labels|, i);
      NearestIsNearest(labels[i], events, tolerance, Used(m, i), |events|);
    }
    forall i, j | 0 <= i < j < |m| && m[i] != -1 ensures m[i] != m[j] {
      UsedMembers(m, j);
    }
  }

  /** No pair can be added: a label is left out only when all its events are taken. */
  lemma GreedyIsMaximal(labels: seq<Label>, events: seq<Event>, tolerance: real, i: nat, k: nat)
    requires i < |labels| && k < |events|
    requires Greedy(labels, events, tolerance, |labels|)[i] == -1 && Admissible(labels[i], events[k], tolerance)
    ensures exists j :: 0 <= j < i && Greedy(labels, events, tolerance, |labels|)[j] == k
  {
    hide Admissible;
    var m := Greedy(labels, events, tolerance, |labels|);
    GreedyChoice(labels, events, tolerance, |labels|, i);
    NearestIsNearest(labels[i], events, tolerance, Used(m, i), |events|);
    UsedMembers(m, i);
  }

  lemma UsedByMatched(m: seq<int>)
    requires OneToOne(m)
    ensures |Used(m, |m|)| == |MatchedLabels(m, |m|)|
  {
    var matched := MatchedLabels(m, |m|);
    InjectiveImage(m, matched);
    var image := set i | i in matched :: m[i];
    UsedMembers(m, |m|);
    forall k | k in Used(m, |m|) ensures k in image {
      var i :| 0 <= i < |m| && m[i] == k;
      assert i in matched;
    }
    assert Used(m, |m|) == image;
  }

  lemma OneMoreMatched(labels: seq<Label>, events: seq<Event>, assignment: seq<int>, n: nat)
    requires Assigns(assignment, labels, events) && 0 < n <= |labels|
    ensures |Matched(labels, events, assignment, n)| ==
            |Matched(labels, events, assignment, n - 1)| + (if assignment[n - 1] == -1 then 0 else 1)
  {
    hide PublishedDelta;
  }

  lemma OneMoreMatchedLabel(m: seq<int>, n: nat)
    requires 0 < n <= |m|
    ensures |MatchedLabels(m, n)| == |MatchedLabels(m, n - 1)| + (if m[n - 1] == -1 then 0 else 1)
  {
    assert MatchedLabels(m, n) == MatchedLabels(m, n - 1) + (if m[n - 1] == -1 then {} else {n - 1});
  }

  lemma {:induction false} MatchCount(labels: seq<Label>, events: seq<Event>, assignment: seq<int>, n: nat)
    requires Assigns(assignment, labels, events) && n <= |labels|
    ensures |Matched(labels, events, assignment, n)| == |MatchedLabels(assignment, n)|
  {
    if n > 0 {
      hide Matched;
      hide MatchedLabels;
      hide PublishedDelta;
      OneMoreMatched(labels, events, assignment, n);
      OneMoreMatchedLabel(assignment, n);
      MatchCount(labels, events, assignment, n - 1);
    }
  }

  /** Every valid matching has at most twice as many pairs as the greedy one. */
  lemma GreedyIsHalfOptimal(labels: seq<Label>, events: seq<Event>, tolerance: real, m: seq<int>)
    requires ValidMatching(labels, events, tolerance, m)
    ensures var greedy := Greedy(labels, events, tolerance, |labels|);
            |MatchedLabels(m, |m|)| <= 2 * |Matched(labels, events, greedy, |labels|)|
  {
    hide Admissible;
    var n := |labels|;
    var greedy := Greedy(labels, events, tolerance, n);
    GreedyIsValid(labels, events, tolerance);
    UsedByMatched(greedy);
    MatchCount(labels, events, greedy, n);
    hide Greedy;
    var missed := MatchedLabels(m, n) - MatchedLabels(greedy, n);
    InjectiveImage(m, missed);
    var taken := set i | i in missed :: m[i];
    UsedMembers(greedy, n);
    forall i | i in missed ensures m[i] in Used(greedy, n) {
      GreedyIsMaximal(labels, events, tolerance, i, m[i]);
    }
    SubsetSize(taken, Used(greedy, n));
    var both := MatchedLabels(m, n) * MatchedLabels(greedy, n);
    SubsetSize(both, MatchedLabels(greedy, n));
    assert MatchedLabels(m, n) == missed + both;
  }

  /** The factor two is reached: labels at 10 and 15, events at 14 and 5, tolerance 6. */
  lemma HalfOptimalIsTight(kind: string)
    requires Trim(kind) != ""
    ensures var labels := [Label("a", kind, "", 10.0), Label("b", kind, "", 15.0)];
            var events := [Event("x", kind, "", 14.0), Event("y", kind, "", 5.0)];
            && |Matched(labels, events, Greedy(labels, events, 6.0, 2), 2)| == 1
            && ValidMatching(labels, events, 6.0, [1, 0])
            && |MatchedLabels([1, 0], 2)| == 2
  {
    hide CanonicalType;
    var labels := [Label("a", kind, "", 10.0), Label("b", kind, "", 15.0)];
    var events := [Event("x", kind, "", 14.0), Event("y", kind, "", 5.0)];
    TightChoices(labels, events, kind);
    hide Nearest;
    assert Used([], 0) == {} && Used([0], 1) == {0};
    assert Greedy(labels, events, 6.0, 0) == [];
    assert Greedy(labels, events, 6.0, 1) == [0];
    assert Greedy(labels, events, 6.0, 2) == [0, -1];
    MatchCount(labels, events, [0, -1], 2);
    assert MatchedLabels([0, -1], 2) == {0};
    assert MatchedLabels([1, 0], 2) == {0, 1};
  }

  lemma TightChoices(labels: seq<Label>, events: seq<Event>, kind: string)
    requires Trim(kind) != ""
    requires labels == [Label("a", kind, "", 10.0), Label("b", kind, "", 15.0)]
    requires events == [Event("x", kind, "", 14.0), Event("y", kind, "", 5.0)]
    ensures Nearest(labels[0], events, 6.0, {}, 2) == 0
    ensures Nearest(labels[1], events, 6.0, {0}, 2) == -1
    ensures Admissible(labels[0], events[1], 6.0) && Admissible(labels[1], events[0], 6.0)
  {
    hide CanonicalType;
    assert Nearest(labels[0], events, 6.0, {}, 1) == 0;
    assert Nearest(labels[1], events, 6.0, {0}, 1) == -1;
  }

  // ----- Conservation

  function LabelsOf(matches: seq<Match>): seq<Label> {
    seq(|matches|, i requires 0 <= i < |matches| => matches[i].target)
  }

  function EventsOf(matches: seq<Match>): seq<Event> {
    seq(|matches|, i requires 0 <= i < |matches| => matches[i].event)
  }

  lemma LastMatch(labels: seq<Label>, events: seq<Event>, assignment: seq<int>, n: nat)
    requires Assigns(assignment, labels, events) && 0 < n <= |labels|
    ensures var before, after := Matched(labels, events, assignment, n - 1), Matched(labels, events, assignment, n);
            var k := assignment[n - 1];
            && LabelsOf(after) == (if k == -1 then LabelsOf(before) else LabelsOf(before) + [labels[n - 1]])
            && EventsOf(after) == (if k == -1 then EventsOf(before) else EventsOf(before) + [events[k]])
  {
    hide PublishedDelta;
  }

  lemma LastMissed(labels: seq<Label>, assignment: seq<int>, n: nat)
    requires |assignment| == |labels| && 0 < n <= |labels|
    ensures var before := Missed(labels, assignment, n - 1);
            Missed(labels, assignment, n) == if assignment[n - 1] == -1 then before + [labels[n - 1]] else before
  {
  }

  lemma NothingMatched(labels: seq<Label>, events: seq<Event>, assignment: seq<int>)
    requires Assigns(assignment, labels, events)
    ensures LabelsOf(Matched(labels, events, assignment, 0)) == [] && Missed(labels, assignment, 0) == []
    ensures EventsOf(Matched(labels, events, assignment, 0)) == [] && Bag(labels, 0) == multiset{}
  {
  }

  lemma {:induction false} LabelsAreConserved(labels: seq<Label>, events: seq<Event>, assignment: seq<int>, n: nat)
    requires Assigns(assignment, labels, events) && n <= |labels|
    ensures multiset(LabelsOf(Matched(labels, events, assignment, n))) + multiset(Missed(labels, assignment, n)) ==
            Bag(labels, n)
  {
    hide Matched;
    hide Missed;
    hide Bag;
    hide LabelsOf;
    hide PublishedDelta;
    if n == 0 {
      NothingMatched(labels, events, assignment);
    } else {
      LastMatch(labels, events, assignment, n);
      LastMissed(labels, assignment, n);
      LabelsAreConserved(labels, events, assignment, n - 1);
      NextBag(labels, n - 1);
      AddOne(LabelsOf(Matched(labels, events, assignment, n - 1)), Missed(labels, assignment, n - 1),
             Bag(labels, n - 1), labels[n - 1]);
    }
  }

  lemma AddOne<T>(a: seq<T>, b: seq<T>, all: multiset<T>, x: T)
    requires multiset(a) + multiset(b) == all
    ensures multiset(a + [x]) + multiset(b) == all + multiset{x}
    ensures multiset(a) + multiset(b + [x]) == all + multiset{x}
  {
  }

  lemma {:induction false} EventsAreConserved(labels: seq<Label>, events: seq<Event>, assignment: seq<int>, n: nat)
    requires Assigns(assignment, labels, events) && OneToOne(assignment) && n <= |labels|
    ensures multiset(EventsOf(Matched(labels, events, assignment, n))) +
            multiset(Unused(events, Used(assignment, n), |events|)) == multiset(events)
  {
    if n == 0 {
      NothingUsed(events, |events|);
      assert EventsOf(Matched(labels, events, assignment, 0)) == [];
    } else {
      var k := assignment[n - 1];
      LastMatch(labels, events, assignment, n);
      EventsAreConserved(labels, events, assignment, n - 1);
      UsedMembers(assignment, n - 1);
      assert k !in Used(assignment, n - 1);
      assert Used(assignment, n) == if k == -1 then Used(assignment, n - 1) else Used(assignment, n - 1) + {k};
      hide EventsOf;
      hide Matched;
      hide Unused;
      hide Used;
      if k != -1 {
        UseOneMore(events, Used(assignment, n - 1), k, |events|);
        MoveOne(EventsOf(Matched(labels, events, assignment, n - 1)), events[k],
                Unused(events, Used(assignment, n - 1), |events|),
                Unused(events, Used(assignment, n), |events|), events);
      }
    }
  }

  lemma MoveOne<T>(matched: seq<T>, x: T, unusedBefore: seq<T>, unusedAfter: seq<T>, all: seq<T>)
    requires multiset(matched) + multiset(unusedBefore) == multiset(all)
    requires multiset(unusedBefore) == multiset(unusedAfter) + multiset{x}
    ensures multiset(matched + [x]) + multiset(unusedAfter) == multiset(all)
  {
  }

  lemma {:induction false} NothingUsed(events: seq<Event>, n: nat)
    requires n <= |events|
    ensures Unused(events, {}, n) == events[..n]
    ensures n == |events| ==> Unused(events, {}, n) == events
  {
    if n > 0 {
      NothingUsed(events, n - 1);
      assert events[..n] == events[..n - 1] + [events[n - 1]];
    }
  }

  lemma {:induction false} UseOneMore(events: seq<Event>, used: set<int>, k: nat, n: nat)
    requires n <= |events| && k < |events| && k !in used
    ensures k < n ==> multiset(Unused(events, used, n)) == multiset(Unused(events, used + {k}, n)) + multiset{events[k]}
    ensures n <= k ==> Unused(events, used, n) == Unused(events, used + {k}, n)
  {
    if n > 0 {
      UseOneMore(events, used, k, n - 1);
      var more := used + {k};
      var before, after := Unused(events, used, n - 1), Unused(events, more, n - 1);
      assert n - 1 != k && n - 1 !in used ==>
        Unused(events, used, n) == before + [events[n - 1]] && Unused(events, more, n) == after + [events[n - 1]];
      assert n - 1 == k ==> Unused(events, used, n) == before + [events[k]] && Unused(events, more, n) == after;
      assert n - 1 in used ==> Unused(events, used, n) == before && Unused(events, more, n) == after;
      hide Unused;
      if k < n - 1 {
        GrowBoth(before, after, events[n - 1], events[k]);
      }
    }
  }

  lemma GrowBoth<T>(s: seq<T>, t: seq<T>, x: T, y: T)
    requires multiset(s) == multiset(t) + multiset{y}
    ensures multiset(s + [x]) == multiset(t + [x]) + multiset{y}
  {
  }

  /** Matches plus missed labels make up the labels, and matches plus false positives the predictions. */
  lemma MatcherConserves(labels: seq<Label>, predictions: seq<Event>, tolerance: real)
    ensures var n := |labels|;
            var assignment := Greedy(labels, predictions, tolerance, n);
            var matches := Matched(labels, predictions, assignment, n);
            && multiset(LabelsOf(matches)) + multiset(Missed(labels, assignment, n)) == multiset(labels)
            && multiset(EventsOf(matches)) + multiset(Unused(predictions, Used(assignment, n), |predictions|)) ==
               multiset(predictions)
  {
    var assignment := Greedy(labels, predictions, tolerance, |labels|);
    GreedyIsValid(labels, predictions, tolerance);
    hide Greedy;
    LabelsAreConserved(labels, predictions, assignment, |labels|);
    EventsAreConserved(labels, predictions, assignment, |labels|);
    WholeBag(labels);
  }

  // ----- Metrics

  datatype Metrics = Metrics(labels: nat, predictions: nat, matches: nat, precision: real, recall: real, f1: real)
  datatype TypeMetrics = TypeMetrics(kind: string, metrics: Metrics)

  function Ratio(numerator: nat, denominator: nat): real {
    if denominator == 0 then 0.0 else numerator as real / denominator as real
  }

  function HarmonicMean(precision: real, recall: real): real {
    if precision + recall > 0.0 then 2.0 * precision * recall / (precision + recall) else 0.0
  }

  function BuildMetrics(labels: nat, predictions: nat, matches: nat): Metrics {
    var precision, recall := Ratio(matches, predictions), Ratio(matches, labels);
    Metrics(labels, predictions, matches, precision, recall, HarmonicMean(precision, recall))
  }

  /** The ratios are published with four digits. */
  function Published(m: Metrics): Metrics {
    m.(precision := Rounding.Round4(m.precision), recall := Rounding.Round4(m.recall), f1 := Rounding.Round4(m.f1))
  }

  function LabelKeys(labels: seq<Label>): (keys: seq<string>)
    ensures |keys| == |labels| && forall i :: 0 <= i < |keys| ==> keys[i] == LabelKey(labels[i])
  {
    MapSeq(LabelKey, labels)
  }

  function EventKeys(events: seq<Event>): (keys: seq<string>)
    ensures |keys| == |events| && forall i :: 0 <= i < |keys| ==> keys[i] == EventKey(events[i])
  {
    MapSeq(EventKey, events)
  }

  function MatchKeys(matches: seq<Match>): seq<string> {
    LabelKeys(LabelsOf(matches))
  }

  /** The map key of a metric key. */
  function Named(key: string): string {
    if key == "" then "unknown" else key
  }

  ghost predicate HasRow(table: seq<TypeMetrics>, kind: string) {
    exists i :: 0 <= i < |table| && table[i].kind == kind
  }

  ghost predicate RowCounts(row: TypeMetrics, labels: seq<string>, predictions: seq<string>, matches: seq<string>) {
    row.metrics == Published(BuildMetrics(multiset(labels)[row.kind], multiset(predictions)[row.kind], multiset(matches)[row.kind]))
  }

  /** A table by type: strictly sorted, one row per key, each row counting its own key. */
  ghost predicate TypeTable(table: seq<TypeMetrics>, labels: seq<string>, predictions: seq<string>, matches: seq<string>) {
    && (forall i, j :: 0 <= i < j < |table| ==> Less(table[i].kind, table[j].kind))
    && (forall i :: 0 <= i < |table| ==> RowCounts(table[i], labels, predictions, matches))
    && (forall k :: k in labels || k in predictions || k in matches ==> HasRow(table, k))
  }

  method BuildTypeMetrics(labels: seq<Label>, predictions: seq<Event>, matches: seq<Match>, evaluatedTypes: seq<string>)
    returns (table: seq<TypeMetrics>)
    ensures TypeTable(table, LabelKeys(labels), EventKeys(predictions), MatchKeys(matches))
    ensures forall j :: 0 <= j < |evaluatedTypes| ==>
              HasRow(table, CanonicalType(evaluatedTypes[j]))
  {
    hide *;
    var byType := TallyTypes(labels, predictions, matches, evaluatedTypes);
    var keys := SortedKeys(byType);
    table := [];
    for i := 0 to |keys|
      invariant |table| == i
      invariant forall j :: 0 <= j < i ==> table[j] == Row(keys[j], byType)
    {
      table := table + [Row(keys[i], byType)];
    }
    RowsFormTable(byType, keys, table, LabelKeys(labels), EventKeys(predictions), MatchKeys(matches));
  }

  function Row(key: string, byType: map<string, Counts>): TypeMetrics
    requires key in byType
  {
    var value := byType[key];
    TypeMetrics(key, Published(BuildMetrics(value.labels, value.predictions, value.matches)))
  }

  lemma RowsFormTable(byType: map<string, Counts>, keys: seq<string>, table: seq<TypeMetrics>,
                      labels: seq<string>, predictions: seq<string>, matches: seq<string>)
    requires Tallied(byType, multiset(labels), multiset(predictions), multiset(matches))
    requires |table| == |keys| && forall k :: k in keys <==> k in byType
    requires forall i, j :: 0 <= i < j < |keys| ==> Less(keys[i], keys[j])
    requires forall j :: 0 <= j < |keys| ==> table[j] == Row(keys[j], byType)
    ensures TypeTable(table, labels, predictions, matches)
    ensures forall k :: k in byType.Keys ==> HasRow(table, k)
  {
    hide BuildMetrics;
    hide Published;
    hide Less;
    TallyCovers(byType, keys, labels, predictions, matches);
    forall k | k in byType.Keys ensures HasRow(table, k) {
      var i :| 0 <= i < |keys| && keys[i] == k;
      assert table[i].kind == k;
    }
    forall i | 0 <= i < |table| ensures RowCounts(table[i], labels, predictions, matches) {
      assert keys[i] in byType;
    }
  }

  method TallyTypes(labels: seq<Label>, predictions: seq<Event>, matches: seq<Match>, evaluatedTypes: seq<string>)
    returns (byType: map<string, Counts>)
    ensures Tallied(byType, multiset(LabelKeys(labels)), multiset(EventKeys(predictions)), multiset(MatchKeys(matches)))
    ensures forall j :: 0 <= j < |evaluatedTypes| ==> CanonicalType(evaluatedTypes[j]) in byType.Keys
  {
    hide *;
    byType := TallyLabels(labels, evaluatedTypes);
    byType := TallyPredictions(byType, predictions, multiset(LabelKeys(labels)));
    byType := TallyMatches(byType, matches, multiset(LabelKeys(labels)), multiset(EventKeys(predictions)));
  }

  lemma NamesAreKeys(labels: seq<Label>, predictions: seq<Event>, matches: seq<Match>)
    ensures forall i :: 0 <= i < |labels| ==> LabelKeys(labels)[i] == Named(LabelKey(labels[i]))
    ensures forall i :: 0 <= i < |predictions| ==> EventKeys(predictions)[i] == Named(EventKey(predictions[i]))
    ensures |MatchKeys(matches)| == |matches|
    ensures forall i :: 0 <= i < |matches| ==> MatchKeys(matches)[i] == Named(LabelKey(matches[i].target))
    ensures forall t :: Named(CanonicalType(t)) == CanonicalType(t)
  {
    forall t ensures CanonicalType(t) != "" {
      KeysAreNotEmpty(t, Label("", "", "", 0.0));
    }
    forall i | 0 <= i < |labels| ensures LabelKey(labels[i]) != "" {
      KeysAreNotEmpty("", labels[i]);
    }
    forall i | 0 <= i < |matches| ensures LabelKey(matches[i].target) != "" {
      KeysAreNotEmpty("", matches[i].target);
    }
    hide CanonicalType;
    hide LabelKey;
  }

  method TallyPredictions(start: map<string, Counts>, predictions: seq<Event>, ghost ls: multiset<string>)
    returns (byType: map<string, Counts>)
    requires Tallied(start, ls, multiset{}, multiset{})
    ensures Tallied(byType, ls, multiset(EventKeys(predictions)), multiset{})
    ensures start.Keys <= byType.Keys
  {
    byType := start;
    ghost var ps := EventKeys(predictions);
    NamesAreKeys([], predictions, []);
    assert Bag(ps, 0) == multiset{};
    hide *;
    for i := 0 to |predictions|
      invariant Tallied(byType, ls, Bag(ps, i), multiset{})
      invariant start.Keys <= byType.Keys
    {
      var key := Named(EventKey(predictions[i]));
      TallyPrediction(byType, key, ls, Bag(ps, i), multiset{});
      CountingKeys(byType, key);
      NextBag(ps, i);
      byType := CountPrediction(byType, key);
    }
    WholeBag(ps);
  }

  method TallyMatches(start: map<string, Counts>, matches: seq<Match>, ghost ls: multiset<string>, ghost ps: multiset<string>)
    returns (byType: map<string, Counts>)
    requires Tallied(start, ls, ps, multiset{})
    ensures Tallied(byType, ls, ps, multiset(MatchKeys(matches)))
    ensures start.Keys <= byType.Keys
  {
    byType := start;
    ghost var ms := MatchKeys(matches);
    NamesAreKeys([], [], matches);
    assert Bag(ms, 0) == multiset{};
    hide *;
    for i := 0 to |matches|
      invariant Tallied(byType, ls, ps, Bag(ms, i))
      invariant start.Keys <= byType.Keys
    {
      var key := Named(LabelKey(matches[i].target));
      TallyMatch(byType, key, ls, ps, Bag(ms, i));
      CountingKeys(byType, key);
      NextBag(ms, i);
      byType := CountMatch(byType, key);
    }
    WholeBag(ms);
  }

  method TallyLabels(labels: seq<Label>, evaluatedTypes: seq<string>) returns (byType: map<string, Counts>)
    ensures Tallied(byType, multiset(LabelKeys(labels)), multiset{}, multiset{})
    ensures forall j :: 0 <= j < |evaluatedTypes| ==> CanonicalType(evaluatedTypes[j]) in byType.Keys
  {
    byType := map[];
    ghost var ls := LabelKeys(labels);
    NamesAreKeys(labels, [], []);
    EmptyTally<string>();
    assert Bag(ls, 0) == multiset{};
    hide *;
    for i := 0 to |labels|
      invariant Tallied(byType, Bag(ls, i), multiset{}, multiset{})
    {
      var key := Named(LabelKey(labels[i]));
      TallyLabel(byType, key, Bag(ls, i), multiset{}, multiset{});
      NextBag(ls, i);
      byType := CountLabel(byType, key);
    }
    WholeBag(ls);
    byType := EnsureTypes(byType, evaluatedTypes, multiset(ls));
  }

  method EnsureTypes(start: map<string, Counts>, evaluatedTypes: seq<string>, ghost ls: multiset<string>)
    returns (byType: map<string, Counts>)
    requires Tallied(start, ls, multiset{}, multiset{})
    ensures Tallied(byType, ls, multiset{}, multiset{})
    ensures forall j :: 0 <= j < |evaluatedTypes| ==> CanonicalType(evaluatedTypes[j]) in byType.Keys
  {
    byType := start;
    NamesAreKeys([], [], []);
    hide *;
    for i := 0 to |evaluatedTypes|
      invariant Tallied(byType, ls, multiset{}, multiset{})
      invariant forall j :: 0 <= j < i ==> CanonicalType(evaluatedTypes[j]) in byType.Keys
    {
      var key := Named(CanonicalType(evaluatedTypes[i]));
      TallyEnsured(byType, key, ls, multiset{}, multiset{});
      CountingKeys(byType, key);
      byType := EnsureKey(byType, key);
    }
  }

  method SortedKeys(byType: map<string, Counts>) returns (keys: seq<string>)
    ensures forall i, j :: 0 <= i < j < |keys| ==> Less(keys[i], keys[j])
    ensures forall k :: k in keys <==> k in byType
  {
    keys := ListKeys(byType);
    keys := SortDistinct(keys);
  }

  method SortDistinct(keys: seq<string>) returns (sorted: seq<string>)
    requires forall i, j :: 0 <= i < j < |keys| ==> keys[i] != keys[j]
    ensures forall i, j :: 0 <= i < j < |sorted| ==> Less(sorted[i], sorted[j])
    ensures forall k :: k in sorted <==> k in keys
  {
    LessIsWeakOrder();
    sorted := SortBy(keys, Less);
    SortedMembers(sorted, keys);
    DistinctPermutation(keys, sorted);
    forall i, j | 0 <= i < j < |sorted| ensures Less(sorted[i], sorted[j]) {
      LessIsTotal(sorted[i], sorted[j]);
    }
  }

  lemma LessIsWeakOrder()
    ensures WeakOrder(Less)
  {
    forall x, y ensures Less(x, y) ==> !Less(y, x) {
      LessIsTotal(x, y);
    }
    forall x, y, z | !Less(y, x) && !Less(z, y) ensures !Less(z, x) {
      LessIsTotal(x, y);
      LessIsTotal(y, z);
      if Less(z, x) {
        if Less(x, y) {
          LessIsTransitive(z, x, y);
        }
      }
    }
  }

  /** The rows of a table account for every label, prediction and match exactly once. */
  lemma TypeTotals(table: seq<TypeMetrics>, labels: seq<string>, predictions: seq<string>, matches: seq<string>)
    requires TypeTable(table, labels, predictions, matches)
    ensures Totals(table, |table|) == Counts(|labels|, |predictions|, |matches|)
  {
    var kinds := seq(|table|, i requires 0 <= i < |table| => table[i].kind);
    forall k | HasRow(table, k) ensures k in kinds {
      var i :| 0 <= i < |table| && table[i].kind == k;
      assert kinds[i] == k;
    }
    forall i, j | 0 <= i < j < |kinds| ensures kinds[i] != kinds[j] {
      LessIsTotal(table[i].kind, table[j].kind);
    }
    TotalsAreSums(table, kinds, labels, predictions, matches, |table|);
    EveryKeyCounted(labels, kinds);
    EveryKeyCounted(predictions, kinds);
    EveryKeyCounted(matches, kinds);
  }

  function Totals(table: seq<TypeMetrics>, n: nat): Counts
    requires n <= |table|
  {
    if n == 0 then Counts(0, 0, 0)
    else
      var t, m := Totals(table, n - 1), table[n - 1].metrics;
      Counts(t.labels + m.labels, t.predictions + m.predictions, t.matches + m.matches)
  }

  lemma {:induction false} TotalsAreSums(table: seq<TypeMetrics>, kinds: seq<string>, labels: seq<string>,
                                         predictions: seq<string>, matches: seq<string>, n: nat)
    requires TypeTable(table, labels, predictions, matches) && n <= |table| == |kinds|
    requires forall i :: 0 <= i < |table| ==> kinds[i] == table[i].kind
    ensures Totals(table, n) == Counts(Occurrences(labels, kinds, n), Occurrences(predictions, kinds, n),
                                       Occurrences(matches, kinds, n))
  {
    if n > 0 {
      TotalsAreSums(table, kinds, labels, predictions, matches, n - 1);
    }
  }

  const CATEGORY := "category:"

  lemma CompatibleKeys(target: Label, event: Event)
    requires Compatible(target, event)
    ensures LabelKey(target) == EventKey(event) || CATEGORY <= LabelKey(target)
    ensures Typed(target) ==> LabelKey(target) == EventKey(event)
  {
    hide CanonicalType;
  }

  predicate Typed(target: Label) {
    Trim(target.kind) != ""
  }

  lemma {:induction false} MatchedAreTyped(labels: seq<Label>, events: seq<Event>, m: seq<int>, n: nat)
    requires Assigns(m, labels, events) && n <= |labels|
    requires forall i :: 0 <= i < |labels| ==> Typed(labels[i])
    ensures forall i :: 0 <= i < |Matched(labels, events, m, n)| ==> Typed(Matched(labels, events, m, n)[i].target)
  {
    hide Typed;
    hide PublishedDelta;
    if n > 0 {
      MatchedAreTyped(labels, events, m, n - 1);
    }
  }

  ghost predicate AllCompatible(matches: seq<Match>) {
    forall i :: 0 <= i < |matches| ==> Compatible(matches[i].target, matches[i].event)
  }

  lemma {:induction false} MatchedAreCompatible(labels: seq<Label>, events: seq<Event>, tolerance: real, m: seq<int>, n: nat)
    requires ValidMatching(labels, events, tolerance, m) && n <= |labels|
    ensures AllCompatible(Matched(labels, events, m, n))
  {
    hide Compatible;
    hide PublishedDelta;
    if n > 0 {
      MatchedAreCompatible(labels, events, tolerance, m, n - 1);
    }
  }

  lemma {:induction false} MatchKeyCount(matches: seq<Match>, k: string)
    requires AllCompatible(matches)
    requires !(CATEGORY <= k) || forall i :: 0 <= i < |matches| ==> Typed(matches[i].target)
    ensures multiset(MatchKeys(matches))[k] <= multiset(EventKeys(EventsOf(matches)))[k]
  {
    hide LabelKey;
    hide Compatible;
    hide EventKey;
    hide Typed;
    if matches != [] {
      var n := |matches| - 1;
      var last := matches[n];
      MatchKeyCount(matches[..n], k);
      assert MatchKeys(matches) == MatchKeys(matches[..n]) + [LabelKey(last.target)];
      assert EventKeys(EventsOf(matches)) == EventKeys(EventsOf(matches[..n])) + [EventKey(last.event)];
      CompatibleKeys(last.target, last.event);
    }
  }

  /** Per type, matches never exceed labels; nor predictions, when every label has a type or
      outside the category keys. */
  lemma TypeCountsAreBounded(labels: seq<Label>, predictions: seq<Event>, tolerance: real, k: string)
    ensures var matches := Matched(labels, predictions, Greedy(labels, predictions, tolerance, |labels|), |labels|);
            && multiset(MatchKeys(matches))[k] <= multiset(LabelKeys(labels))[k]
            && (!(CATEGORY <= k) || (forall i :: 0 <= i < |labels| ==> Typed(labels[i])) ==>
                  multiset(MatchKeys(matches))[k] <= multiset(EventKeys(predictions))[k])
  {
    var assignment := Greedy(labels, predictions, tolerance, |labels|);
    var matches := Matched(labels, predictions, assignment, |labels|);
    MatcherConserves(labels, predictions, tolerance);
    GreedyIsValid(labels, predictions, tolerance);
    MatchedAreCompatible(labels, predictions, tolerance, assignment, |labels|);
    hide Greedy;
    hide Matched;
    hide LabelKey;
    hide EventKey;
    MapSubmultiset(LabelKey, LabelsOf(matches), labels);
    MapSubmultiset(EventKey, EventsOf(matches), predictions);
    if forall i :: 0 <= i < |labels| ==> Typed(labels[i]) {
      MatchedAreTyped(labels, predictions, assignment, |labels|);
      MatchKeyCount(matches, k);
    } else if !(CATEGORY <= k) {
      MatchKeyCount(matches, k);
    }
  }

  // ----- Labels with a category and no type

  function MatchesOf(labels: seq<Label>, predictions: seq<Event>, tolerance: real): seq<Match> {
    Matched(labels, predictions, Greedy(labels, predictions, tolerance, |labels|), |labels|)
  }

  /** No more matches than predictions are counted under the key. */
  ghost predicate Bounded(labels: seq<Label>, predictions: seq<Event>, tolerance: real, k: string) {
    multiset(MatchKeys(MatchesOf(labels, predictions, tolerance)))[k] <= multiset(EventKeys(predictions))[k]
  }

  function LongestKey(labels: seq<Label>): (longest: nat)
    ensures forall target :: target in labels ==> |LabelKey(target)| <= longest
  {
    if labels == [] then 0
    else
      var n := |labels| - 1;
      var earlier, last := LongestKey(labels[..n]), |LabelKey(labels[n])|;
      assert forall target :: target in labels ==> target in labels[..n] || target == labels[n];
      if last > earlier then last else earlier
  }

  /** A type that is the key of no label. */
  function FreshKind(labels: seq<Label>): string {
    seq(LongestKey(labels) + 1, i => 'x')
  }

  lemma FreshIsFresh(labels: seq<Label>)
    ensures CanonicalType(FreshKind(labels)) !in KeySet(labels)
  {
    var kind := FreshKind(labels);
    CanonicalOfPlain(kind);
    hide LabelKey;
    hide CanonicalType;
    assert forall target :: target in labels ==> |LabelKey(target)| < |kind|;
  }

  lemma CanonicalOfPlain(kind: string)
    requires kind != "" && forall i :: 0 <= i < |kind| ==> kind[i] == 'x'
    ensures CanonicalType(kind) == kind
  {
    assert TrimLeft(kind) == kind && TrimRight(kind) == kind;
    assert Lower(kind) == kind;
    assert Replace(kind, '-', '_') == kind && Replace(kind, ' ', '_') == kind;
    assert kind[0] == 'x';
  }

  /** One prediction at the time of a label without a type, with its category and a type of no label. */
  function Exposing(labels: seq<Label>, i: nat): Event
    requires i < |labels|
  {
    Event("x", FreshKind(labels), Trim(labels[i].category), labels[i].timestamp)
  }

  lemma ExposingIsAdmissible(labels: seq<Label>, i: nat, tolerance: real)
    requires i < |labels| && Trim(labels[i].kind) == "" != Trim(labels[i].category) && tolerance >= 0.0
    ensures Admissible(labels[i], Exposing(labels, i), tolerance)
  {
  }

  /** Only a label with the key of label `i` can take that prediction. */
  lemma ExposingTakenBy(labels: seq<Label>, i: nat, j: nat)
    requires i < |labels| && j < |labels| && Trim(labels[i].kind) == "" != Trim(labels[i].category)
    requires Compatible(labels[j], Exposing(labels, i))
    ensures LabelKey(labels[j]) == LabelKey(labels[i]) != EventKey(Exposing(labels, i))
  {
    hide CanonicalType;
    FreshIsFresh(labels);
    hide FreshKind;
    assert LabelKey(labels[i]) in KeySet(labels) && LabelKey(labels[j]) in KeySet(labels);
  }

  lemma {:induction false} MatchedHolds(labels: seq<Label>, events: seq<Event>, m: seq<int>, n: nat, j: nat)
    requires Assigns(m, labels, events) && j < n <= |labels| && m[j] != -1
    ensures exists i :: 0 <= i < |Matched(labels, events, m, n)| && Matched(labels, events, m, n)[i].target == labels[j]
  {
    hide PublishedDelta;
    var earlier, matches := Matched(labels, events, m, n - 1), Matched(labels, events, m, n);
    if j < n - 1 {
      MatchedHolds(labels, events, m, n - 1, j);
      var i :| 0 <= i < |earlier| && earlier[i].target == labels[j];
      assert matches[i] == earlier[i];
    } else {
      assert matches[|matches| - 1].target == labels[j];
    }
  }

  lemma ExposingIsTaken(labels: seq<Label>, i: nat, tolerance: real) returns (j: nat)
    requires i < |labels| && Trim(labels[i].kind) == "" != Trim(labels[i].category) && tolerance >= 0.0
    ensures j < |labels| && Greedy(labels, [Exposing(labels, i)], tolerance, |labels|)[j] == 0
    ensures Compatible(labels[j], Exposing(labels, i))
  {
    var events := [Exposing(labels, i)];
    var m := Greedy(labels, events, tolerance, |labels|);
    ExposingIsAdmissible(labels, i, tolerance);
    GreedyIsValid(labels, events, tolerance);
    hide Compatible;
    hide Greedy;
    hide Exposing;
    if m[i] == -1 {
      GreedyIsMaximal(labels, events, tolerance, i, 0);
      j :| 0 <= j < i && m[j] == 0;
    } else {
      j := i;
    }
    assert Admissible(labels[j], events[m[j]], tolerance);
  }

  /** A label with a category but no type can match, yet its match is counted under a key that no
      prediction has. */
  lemma ExposedMatch(labels: seq<Label>, i: nat, tolerance: real)
    requires i < |labels| && Trim(labels[i].kind) == "" != Trim(labels[i].category) && tolerance >= 0.0
    ensures !Bounded(labels, [Exposing(labels, i)], tolerance, LabelKey(labels[i]))
  {
    hide Compatible;
    hide Greedy;
    hide Matched;
    hide Exposing;
    hide LabelKey;
    hide EventKey;
    var events := [Exposing(labels, i)];
    var j := ExposingIsTaken(labels, i, tolerance);
    ExposingTakenBy(labels, i, j);
    MatchedHolds(labels, events, Greedy(labels, events, tolerance, |labels|), |labels|, j);
    var matches := MatchesOf(labels, events, tolerance);
    var n :| 0 <= n < |matches| && matches[n].target == labels[j];
    assert MatchKeys(matches)[n] == LabelKey(labels[i]);
    assert EventKeys(events) == [EventKey(events[0])];
  }

  /** For labels that each have a type or a category: no type ever counts more matches than
      predictions, whatever is predicted, if and only if every label has a type. */
  lemma MatchesWithinPredictionsIff(labels: seq<Label>)
    requires forall i :: 0 <= i < |labels| ==> Trim(labels[i].kind) != "" || Trim(labels[i].category) != ""
    ensures (forall predictions, tolerance, k :: tolerance >= 0.0 ==> Bounded(labels, predictions, tolerance, k)) <==>
            forall i :: 0 <= i < |labels| ==> Typed(labels[i])
  {
    hide Bounded;
    if forall i :: 0 <= i < |labels| ==> Typed(labels[i]) {
      forall predictions, tolerance, k | tolerance >= 0.0 ensures Bounded(labels, predictions, tolerance, k) {
        TypedAreBounded(labels, predictions, tolerance, k);
      }
    } else {
      var i :| 0 <= i < |labels| && !Typed(labels[i]);
      ExposedMatch(labels, i, 0.0);
    }
  }

  lemma TypedAreBounded(labels: seq<Label>, predictions: seq<Event>, tolerance: real, k: string)
    requires forall i :: 0 <= i < |labels| ==> Typed(labels[i])
    ensures Bounded(labels, predictions, tolerance, k)
  {
    hide Typed;
    hide Greedy;
    hide Matched;
    TypeCountsAreBounded(labels, predictions, tolerance, k);
  }

  /** The key is that of a label with a type. */
  ghost predicate TypedKey(labels: seq<Label>, k: string) {
    exists i :: 0 <= i < |labels| && Typed(labels[i]) && CanonicalType(labels[i].kind) == k
  }

  /** The key is that of a label with a category and no type. */
  ghost predicate CategoryKey(labels: seq<Label>, k: string) {
    exists i :: 0 <= i < |labels| && !Typed(labels[i]) && CATEGORY + Lower(Trim(labels[i].category)) == k
  }

  /** Given labels, the filter keeps an event exactly when its key is an evaluated type or that of a
      label with a type: a label with a category lets through only keys with its own prefix. */
  lemma FilterKeeps(event: Event, evaluatedTypes: seq<string>, labels: seq<Label>)
    requires labels != []
    requires forall i :: 0 <= i < |labels| ==> Trim(labels[i].kind) != "" || Trim(labels[i].category) != ""
    ensures Evaluated(event, WantedKeys(evaluatedTypes, labels)) <==>
            && event.kind != "capture_quality"
            && (EventKey(event) in TypeKeys(evaluatedTypes) || TypedKey(labels, EventKey(event)) || CategoryKey(labels, EventKey(event)))
    ensures CategoryKey(labels, EventKey(event)) ==> CATEGORY <= EventKey(event)
  {
    hide CanonicalType;
    assert LabelKey(labels[0]) in WantedKeys(evaluatedTypes, labels);
    KeyOfSome(labels, EventKey(event));
  }

  /** Without labels an event passes when its key is an evaluated type, or when none is evaluated. */
  lemma FilterWithoutLabels(event: Event, evaluatedTypes: seq<string>)
    ensures Evaluated(event, WantedKeys(evaluatedTypes, [])) <==>
            event.kind != "capture_quality" &&
            ((forall i :: 0 <= i < |evaluatedTypes| ==> CanonicalType(evaluatedTypes[i]) == "unknown") ||
             (EventKey(event) != "unknown" && EvaluatesKey(evaluatedTypes, EventKey(event))))
  {
    hide CanonicalType;
    var wanted := WantedKeys(evaluatedTypes, []);
    assert KeySet([]) == {};
    forall i | 0 <= i < |evaluatedTypes| && CanonicalType(evaluatedTypes[i]) != "unknown"
      ensures CanonicalType(evaluatedTypes[i]) in wanted
    {
      assert evaluatedTypes[i] in evaluatedTypes;
    }
    if EvaluatesKey(evaluatedTypes, EventKey(event)) && EventKey(event) != "unknown" {
      var i :| 0 <= i < |evaluatedTypes| && CanonicalType(evaluatedTypes[i]) == EventKey(event);
      assert EventKey(event) in wanted;
    }
  }

  /** The key is that of an evaluated type. */
  ghost predicate EvaluatesKey(evaluatedTypes: seq<string>, k: string) {
    exists i :: 0 <= i < |evaluatedTypes| && CanonicalType(evaluatedTypes[i]) == k
  }

  lemma KeyOfSome(labels: seq<Label>, k: string)
    requires forall i :: 0 <= i < |labels| ==> Trim(labels[i].kind) != "" || Trim(labels[i].category) != ""
    ensures k in KeySet(labels) <==> TypedKey(labels, k) || CategoryKey(labels, k)
  {
    hide CanonicalType;
    if k in KeySet(labels) {
      var target :| target in labels && LabelKey(target) == k;
      var i :| 0 <= i < |labels| && labels[i] == target;
    }
    forall i | 0 <= i < |labels| ensures LabelKey(labels[i]) in KeySet(labels) {
      assert labels[i] in labels;
    }
    if TypedKey(labels, k) {
      var i :| 0 <= i < |labels| && Typed(labels[i]) && CanonicalType(labels[i].kind) == k;
      assert LabelKey(labels[i]) == k;
    }
    if CategoryKey(labels, k) {
      var i :| 0 <= i < |labels| && !Typed(labels[i]) && CATEGORY + Lower(Trim(labels[i].category)) == k;
      assert LabelKey(labels[i]) == k;
    }
  }

  /** If every label has a category but no type and no types are listed, the event filter
      keeps nothing: all labels are missed, whatever was predicted. */
  lemma CategoryOnlyLabelsAreAlwaysMissed(events: seq<Event>, labels: seq<Label>, tolerance: real)
    requires labels != []
    requires forall i :: 0 <= i < |labels| ==> Trim(labels[i].kind) == "" != Trim(labels[i].category)
    requires forall e :: e in events ==> !(CATEGORY <= EventKey(e))
    ensures var predictions := Selected(events, WantedKeys([], labels), |events|);
            Matched(labels, predictions, Greedy(labels, predictions, tolerance, |labels|), |labels|) == []
  {
    var wanted := WantedKeys([], labels);
    var predictions := Selected(events, wanted, |events|);
    SelectedMembers(events, wanted, |events|);
    assert events[..|events|] == events;
    assert LabelKey(labels[0]) in wanted;
    forall k | k in wanted ensures CATEGORY <= k {
      var l :| l in labels && LabelKey(l) == k;
      var i :| 0 <= i < |labels| && labels[i] == l;
      assert Trim(labels[i].kind) == "" != Trim(labels[i].category);
    }
    forall e ensures e !in predictions {
      assert e in events ==> !(CATEGORY <= EventKey(e));
    }
    NoMembers(predictions);
    NothingToMatch(labels, tolerance, |labels|);
  }

  lemma {:induction false} NothingToMatch(labels: seq<Label>, tolerance: real, n: nat)
    requires n <= |labels|
    ensures Matched(labels, [], Greedy(labels, [], tolerance, |labels|), n) == []
  {
    if n > 0 {
      NothingToMatch(labels, tolerance, n - 1);
    }
  }

  /** Precision is the part of the predictions that matched, recall that of the labels; both are
      published with four digits beside the exact counts. */
  lemma MetricsMean(labels: nat, predictions: nat, matches: nat)
    ensures var m, p := BuildMetrics(labels, predictions, matches), Published(BuildMetrics(labels, predictions, matches));
            && m.precision * predictions as real == (if predictions == 0 then 0.0 else matches as real)
            && m.recall * labels as real == (if labels == 0 then 0.0 else matches as real)
            && (predictions == 0 ==> m.precision == 0.0) && (labels == 0 ==> m.recall == 0.0)
            && p.labels == m.labels == labels && p.predictions == m.predictions == predictions && p.matches == m.matches == matches
            && -0.00005 <= p.precision - m.precision <= 0.00005 && -0.00005 <= p.recall - m.recall <= 0.00005
            && -0.00005 <= p.f1 - m.f1 <= 0.00005
  {
    var m := BuildMetrics(labels, predictions, matches);
    hide Rounding.Round4;
    hide HarmonicMean;
    Rounding.Round4Laws(m.precision, m.precision);
    Rounding.Round4Laws(m.recall, m.recall);
    Rounding.Round4Laws(m.f1, m.f1);
  }

  /** The F1 score needs neither ratio: it is twice the matches over the two totals. */
  lemma F1OfCounts(labels: nat, predictions: nat, matches: nat)
    requires matches <= labels && matches <= predictions
    ensures var m := BuildMetrics(labels, predictions, matches);
            && m.f1 == Ratio(2 * matches, labels + predictions)
            && (m.precision <= m.f1 <= m.recall || m.recall <= m.f1 <= m.precision)
            && 0.0 <= m.f1 <= 1.0
  {
    var m := BuildMetrics(labels, predictions, matches);
    if matches == 0 {
      assert m.precision == 0.0 && m.recall == 0.0;
    } else {
      var x, p, l := matches as real, predictions as real, labels as real;
      assert m.precision == x / p && m.recall == x / l;
      HarmonicMeanOfRatios(x, p, l);
      assert (2 * matches) as real == 2.0 * x && (labels + predictions) as real == l + p;
    }
  }

  /** The overall score of a run of the matcher. */
  lemma OverallScore(labels: seq<Label>, predictions: seq<Event>, tolerance: real)
    ensures var matches := Matched(labels, predictions, Greedy(labels, predictions, tolerance, |labels|), |labels|);
            var m := BuildMetrics(|labels|, |predictions|, |matches|);
            && |matches| <= |labels| && |matches| <= |predictions|
            && m.f1 == Ratio(2 * |matches|, |labels| + |predictions|)
            && (m.precision <= m.f1 <= m.recall || m.recall <= m.f1 <= m.precision)
            && 0.0 <= m.f1 <= 1.0
            && var p := Published(m);
               (p.precision <= p.f1 <= p.recall || p.recall <= p.f1 <= p.precision) && 0.0 <= p.f1 <= 1.0
  {
    var assignment := Greedy(labels, predictions, tolerance, |labels|);
    var matches := Matched(labels, predictions, assignment, |labels|);
    MatcherConserves(labels, predictions, tolerance);
    hide Greedy;
    hide Matched;
    assert |multiset(LabelsOf(matches)) + multiset(Missed(labels, assignment, |labels|))| == |multiset(labels)|;
    assert |multiset(EventsOf(matches)) + multiset(Unused(predictions, Used(assignment, |labels|), |predictions|))| ==
           |multiset(predictions)|;
    F1OfCounts(|labels|, |predictions|, |matches|);
    PublishedOrder(BuildMetrics(|labels|, |predictions|, |matches|));
  }

  lemma PublishedOrder(m: Metrics)
    requires (m.precision <= m.f1 <= m.recall || m.recall <= m.f1 <= m.precision) && 0.0 <= m.f1 <= 1.0
    ensures var p := Published(m);
            (p.precision <= p.f1 <= p.recall || p.recall <= p.f1 <= p.precision) && 0.0 <= p.f1 <= 1.0
  {
    hide Rounding.Round4;
    Rounding.Round4Laws(m.precision, m.f1);
    Rounding.Round4Laws(m.f1, m.precision);
    Rounding.Round4Laws(m.recall, m.f1);
    Rounding.Round4Laws(m.f1, m.recall);
    Rounding.Round4Laws(0.0, m.f1);
    Rounding.Round4Laws(m.f1, 1.0);
  }

  lemma HarmonicMeanOfRatios(x: real, p: real, l: real)
    requires 0.0 < x <= p && x <= l
    ensures HarmonicMean(x / p, x / l) == 2.0 * x / (l + p)
    ensures x / p <= 2.0 * x / (l + p) <= x / l || x / l <= 2.0 * x / (l + p) <= x / p
    ensures 0.0 <= 2.0 * x / (l + p) <= 1.0
  {
    CompareFractions(0.0, 1.0, 2.0 * x, l + p);
    CompareFractions(2.0 * x, l + p, 1.0, 1.0);
    HarmonicMeanIdentity(x, p, l);
    if p <= l {
      CompareWithMean(x, l, p);
    } else {
      CompareWithMean(x, p, l);
    }
  }

  lemma CompareWithMean(x: real, big: real, small: real)
    requires 0.0 < x && 0.0 < small <= big
    ensures x / big <= 2.0 * x / (big + small) <= x / small
  {
    OrderOfProducts(x, small, big);
    CompareFractions(x, big, 2.0 * x, big + small);
    CompareFractions(2.0 * x, big + small, x, small);
  }

  lemma OrderOfProducts(x: real, small: real, big: real)
    requires 0.0 < x && small <= big
    ensures x * (big + small) <= 2.0 * x * big
    ensures 2.0 * x * small <= x * (big + small)
  {
    assert x * (big - small) >= 0.0;
  }

  lemma HarmonicMeanIdentity(x: real, p: real, l: real)
    requires 0.0 < x && 0.0 < p && 0.0 < l
    ensures HarmonicMean(x / p, x / l) == 2.0 * x / (l + p)
  {
    var a, b, f := x / p, x / l, 2.0 * x / (l + p);
    assert a * p == x && b * l == x && f * (l + p) == 2.0 * x;
    SignOfFactor(a, p, x);
    SignOfFactor(b, l, x);
    SumTimesProduct(a, b, p, l, x);
    MeanIdentity(a, b, f, x, l + p, p * l);
    var h := 2.0 * a * b / (a + b);
    assert h * (a + b) == 2.0 * a * b;
    CancelFactor(h, f, a + b);
  }

  lemma SignOfFactor(a: real, p: real, x: real)
    requires a * p == x && p > 0.0 && x > 0.0
    ensures a > 0.0
  {
  }

  lemma SumTimesProduct(a: real, b: real, p: real, l: real, x: real)
    requires a * p == x && b * l == x && p > 0.0 && l > 0.0
    ensures (a + b) * (p * l) == x * (l + p)
    ensures (a * b) * (p * l) == x * x
    ensures p * l > 0.0
  {
    assert (a + b) * (p * l) == (a * p) * l + (b * l) * p;
    assert (a * b) * (p * l) == (a * p) * (b * l);
  }

  lemma MeanIdentity(a: real, b: real, f: real, x: real, total: real, product: real)
    requires (a + b) * product == x * total && (a * b) * product == x * x && f * total == 2.0 * x
    requires product != 0.0
    ensures 2.0 * a * b == f * (a + b)
  {
    calc {
      (f * (a + b)) * product;
      f * ((a + b) * product);
      f * (x * total);
      x * (f * total);
      2.0 * (x * x);
      2.0 * ((a * b) * product);
      (2.0 * a * b) * product;
    }
    CancelFactor(f * (a + b), 2.0 * a * b, product);
  }

  lemma CancelFactor(u: real, v: real, factor: real)
    requires u * factor == v * factor && factor != 0.0
    ensures u == v
  {
    assert (u - v) * factor == 0.0;
  }

  /** Two fractions compare as their cross products do. */
  lemma CompareFractions(a: real, b: real, c: real, d: real)
    requires b > 0.0 && d > 0.0 && a * d <= c * b
    ensures a / b <= c / d
  {
    var u, v := a / b, c / d;
    assert u * b == a && v * d == c;
    assert (u * b) * d == u * (b * d) && (v * d) * b == v * (b * d);
    OrderOfFactors(u, v, b * d);
  }

  lemma OrderOfFactors(u: real, v: real, factor: real)
    requires u * factor <= v * factor && factor > 0.0
    ensures u <= v
  {
    assert (v - u) * factor >= 0.0;
  }
}
