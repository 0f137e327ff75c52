/** The sink that stores the events of a topic partition, and the offsets it commits. */
module EventSink {
  import opened Wrappers

  /** What the sink needs of an event; `occurredAt` is missing when it is the zero time. */
  datatype Envelope = Envelope(eventId: string, version: int, eventType: string, occurredAt: Option<int>, payload: string)

  /** A message holds an envelope unless its value cannot be decoded. */
  datatype Message = Message(envelope: Option<Envelope>)

  /** A message that no retry can store. */
  predicate Invalid(m: Message) {
    match m.envelope
    case None => true
    case Some(e) => e.eventId == "" || e.version <= 0 || e.eventType == "" || e.occurredAt.None?
  }

  /** A remote call takes effect and says so, does neither, or takes effect and reports an error. */
  datatype Effect = Works | Fails | WorksUnseen {
    predicate Happens() {
      this != Fails
    }
  }

  datatype Luck = Luck(insert: Effect, deadLetter: Effect, commit: Effect)

  /** One partition: its messages, the committed offset, the next offset of this session, and the
      offsets stored and dead-lettered, in order. */
  datatype State = State(log: seq<Message>, committed: nat, position: nat, stored: seq<nat>, dead: seq<nat>)

  datatype Event = Append(message: Message) | Consume(luck: Luck) | Restart

  function WithCommit(s: State, offset: nat, commit: Effect): State {
    if commit.Happens() then s.(committed := offset + 1) else s
  }

  function AfterInvalid(s: State, offset: nat, luck: Luck): State {
    var t := if luck.deadLetter.Happens() then s.(dead := s.dead + [offset]) else s;
    if luck.deadLetter == Works then WithCommit(t, offset, luck.commit) else t
  }

  function AfterValid(s: State, offset: nat, luck: Luck): State {
    var t := if luck.insert.Happens() then s.(stored := s.stored + [offset]) else s;
    if luck.insert == Works then WithCommit(t, offset, luck.commit) else t
  }

  /** Fetching moves on whether or not the message could be handled; restarting goes back to the
      committed offset. */
  function Next(s: State, e: Event): State {
    match e
    case Append(message) => s.(log := s.log + [message])
    case Restart => s.(position := s.committed)
    case Consume(luck) =>
      if s.position >= |s.log| then s
      else
        var t := s.(position := s.position + 1);
        if Invalid(s.log[s.position]) then AfterInvalid(t, s.position, luck) else AfterValid(t, s.position, luck)
  }

  function Run(s: State, events: seq<Event>): State
    decreases |events|
  {
    if events == [] then s else Run(Next(s, events[0]), events[1..])
  }

  class Sink {
    var state: State

    constructor (log: seq<Message>)
      ensures state == State(log, 0, 0, [], [])
    {
      state := State(log, 0, 0, [], []);
    }

    /** One turn of the consumer loop. */
    method ConsumeOne(luck: Luck)
      requires state.position < |state.log|
      modifies this
      ensures state == Next(old(state), Consume(luck))
    {
      var offset := state.position;
      state := state.(position := offset + 1);
      if Invalid(state.log[offset]) {
        if luck.deadLetter.Happens() {
          state := state.(dead := state.dead + [offset]);
        }
        if luck.deadLetter != Works {
          return;
        }
        if luck.commit.Happens() {
          state := state.(committed := offset + 1);
        }
        return;
      }
      if luck.insert.Happens() {
        state := state.(stored := state.stored + [offset]);
      }
      if luck.insert != Works {
        return;
      }
      if luck.commit.Happens() {
        state := state.(committed := offset + 1);
      }
    }
  }

  /** The message holds an event with an ID, a positive version, a type and a time. */
  predicate WellFormed(m: Message) {
    && m.envelope.Some? && m.envelope.value.eventId != "" && m.envelope.value.version > 0
    && m.envelope.value.eventType != "" && m.envelope.value.occurredAt.Some?
  }

  /** One turn: a well-formed message goes to the store and any other to the dead-letter topic, unless
      that call fails; only when the call is known to have worked is the offset behind the message
      committed, unless that call fails. */
  lemma TurnMeans(s: State, luck: Luck)
    requires s.position < |s.log|
    ensures var t, p, ok := Next(s, Consume(luck)), s.position, WellFormed(s.log[s.position]);
            && t.log == s.log && t.position == p + 1
            && t.stored == (if ok && luck.insert in {Works, WorksUnseen} then s.stored + [p] else s.stored)
            && t.dead == (if !ok && luck.deadLetter in {Works, WorksUnseen} then s.dead + [p] else s.dead)
            && t.committed == (if (if ok then luck.insert else luck.deadLetter) == Works && luck.commit in {Works, WorksUnseen}
                               then p + 1 else s.committed)
  {
  }

  // ----- Every committed message is accounted for

  /** The message is stored or, if it is invalid, in the dead-letter topic. */
  predicate Covered(s: State, offset: nat)
    requires offset < |s.log|
  {
    if Invalid(s.log[offset]) then offset in s.dead else offset in s.stored
  }

  ghost predicate CoveredBelow(s: State, bound: nat) {
    bound <= |s.log| && forall o :: 0 <= o < bound ==> Covered(s, o)
  }

  /** The turn handles a message and neither stores it nor dead-letters it for certain. */
  predicate Failing(s: State, e: Event) {
    e.Consume? && s.position < |s.log| && (if Invalid(s.log[s.position]) then e.luck.deadLetter != Works else e.luck.insert != Works)
  }

  /** After a failing turn the sink restarts before it consumes again. */
  predicate Disciplined(s: State, events: seq<Event>, failed: bool)
    decreases |events|
  {
    events == [] ||
    match events[0]
    case Append(_) => Disciplined(Next(s, events[0]), events[1..], failed)
    case Restart => Disciplined(Next(s, events[0]), events[1..], false)
    case Consume(_) => !failed && Disciplined(Next(s, events[0]), events[1..], Failing(s, events[0]))
  }

  ghost predicate Invariant(s: State, failed: bool) {
    && s.committed <= s.position <= |s.log|
    && CoveredBelow(s, s.committed)
    && (!failed ==> CoveredBelow(s, s.position))
  }

  lemma CoverageGrows(s: State, e: Event, bound: nat)
    requires CoveredBelow(s, bound)
    ensures CoveredBelow(Next(s, e), bound)
  {
    var t := Next(s, e);
    forall o | 0 <= o < bound ensures Covered(t, o) {
      assert Covered(s, o) && t.log[o] == s.log[o];
    }
  }

  lemma ConsumedIsCovered(s: State, luck: Luck)
    requires s.position < |s.log| && !Failing(s, Consume(luck))
    ensures Covered(Next(s, Consume(luck)), s.position)
  {
  }

  lemma StepKeeps(s: State, e: Event, failed: bool)
    requires Invariant(s, failed) && (e.Consume? ==> !failed)
    ensures Invariant(Next(s, e), match e case Append(_) => failed case Restart => false case Consume(_) => Failing(s, e))
    ensures s.committed <= Next(s, e).committed
  {
    CoverageGrows(s, e, s.committed);
    if !failed {
      CoverageGrows(s, e, s.position);
    }
    if e.Consume? && s.position < |s.log| && !Failing(s, e) {
      ConsumedIsCovered(s, e.luck);
    }
  }

  /** When the sink restarts after every failure, whatever else fails or happens unseen, every
      message below the committed offset is stored or dead-lettered. */
  lemma {:induction false} CommittedIsCovered(s: State, events: seq<Event>, failed: bool)
    requires Invariant(s, failed) && Disciplined(s, events, failed)
    ensures CoveredBelow(Run(s, events), Run(s, events).committed)
    ensures s.committed <= Run(s, events).committed
    decreases |events|
  {
    if events != [] {
      StepKeeps(s, events[0], failed);
      hide Next;
      CommittedIsCovered(Next(s, events[0]), events[1..],
                         match events[0] case Append(_) => failed case Restart => false case Consume(_) => Failing(s, events[0]));
    }
  }

  /** A commit keeps the committed part covered exactly when everything skipped since the last
      commit is covered, because a commit is cumulative. */
  lemma CommitCovers(s: State, luck: Luck)
    requires s.committed <= s.position < |s.log| && CoveredBelow(s, s.committed)
    requires !Failing(s, Consume(luck)) && luck.commit.Happens()
    ensures var t := Next(s, Consume(luck));
            CoveredBelow(t, t.committed) <==> forall o :: s.committed <= o < s.position ==> Covered(s, o)
  {
    var t := Next(s, Consume(luck));
    ConsumedIsCovered(s, luck);
    CoverageGrows(s, Consume(luck), s.committed);
    forall o | s.committed <= o < s.position ensures Covered(t, o) == Covered(s, o) {
      assert t.log[o] == s.log[o];
    }
    assert t.committed == s.position + 1;
  }

  // ----- Without the restart

  /** A message left uncovered below the committed offset is never handled again. */
  lemma {:induction false} SkippedIsLost(s: State, events: seq<Event>, offset: nat)
    requires s.committed <= s.position <= |s.log| && offset < s.committed && !Covered(s, offset)
    ensures var t := Run(s, events);
            offset < s.committed <= t.committed <= |t.log| && !Covered(t, offset)
    decreases |events|
  {
    if events != [] {
      var t := Next(s, events[0]);
      assert t.log[offset] == s.log[offset];
      SkippedIsLost(t, events[1..], offset);
    }
  }

  /** The loop goes on after a failed insert; the next message is stored and committed, and the
      first is lost whatever happens later. */
  lemma LoopSkipsMessage(first: Message, second: Message, later: seq<Event>)
    requires !Invalid(first) && !Invalid(second)
    ensures var s := Next(Next(State([first, second], 0, 0, [], []), Consume(Luck(Fails, Works, Works))), Consume(Luck(Works, Works, Works)));
            s.committed == 2 && !Covered(s, 0) && 2 <= |Run(s, later).log| && !Covered(Run(s, later), 0)
  {
    var s := Next(Next(State([first, second], 0, 0, [], []), Consume(Luck(Fails, Works, Works))), Consume(Luck(Works, Works, Works)));
    SkippedIsLost(s, later, 0);
  }

  // ----- The deduplicated view

  /** An entry of the view: the event of a row and when the row was ingested. */
  datatype Shown = Shown(envelope: Envelope, ingestedAt: int)

  /** Row `i` of the table is a row of the event. */
  predicate StoresEvent(s: State, i: nat, id: string)
    requires i < |s.stored|
  {
    HoldsEvent(s, i) && s.log[s.stored[i]].envelope.value.eventId == id
  }

  predicate HoldsEvent(s: State, i: nat)
    requires i < |s.stored|
  {
    s.stored[i] < |s.log| && s.log[s.stored[i]].envelope.Some?
  }

  function EntryOf(view: seq<Shown>, id: string): (entry: int)
    ensures -1 <= entry < |view| && (entry >= 0 ==> view[entry].envelope.eventId == id)
    ensures entry == -1 ==> forall i :: 0 <= i < |view| ==> view[i].envelope.eventId != id
  {
    if view == [] then -1
    else if view[|view| - 1].envelope.eventId == id then |view| - 1
    else EntryOf(view[..|view| - 1], id)
  }

  /** A later row replaces the entry of its event; of rows ingested together either may stand. */
  function Merged(view: seq<Shown>, row: Shown, tie: bool): seq<Shown> {
    var entry := EntryOf(view, row.envelope.eventId);
    if entry == -1 then view + [row]
    else if row.ingestedAt > view[entry].ingestedAt || (row.ingestedAt == view[entry].ingestedAt && tie) then view[entry := row]
    else view
  }

  /** The first `n` rows grouped by event ID, where row `i` was ingested at `times[i]`. */
  function View(s: State, times: seq<int>, ties: nat -> bool, n: nat): seq<Shown>
    requires n <= |s.stored| == |times|
  {
    if n == 0 then []
    else
      var earlier := View(s, times, ties, n - 1);
      if HoldsEvent(s, n - 1) then Merged(earlier, Shown(s.log[s.stored[n - 1]].envelope.value, times[n - 1]), ties(n - 1))
      else earlier
  }

  ghost predicate EachOnce(view: seq<Shown>) {
    forall i, j :: 0 <= i < j < |view| ==> view[i].envelope.eventId != view[j].envelope.eventId
  }

  /** The entry is a row of its event, and none of the first `n` was ingested later. */
  ghost predicate Latest(s: State, times: seq<int>, shown: Shown, n: nat)
    requires n <= |s.stored| == |times|
  {
    && (exists i :: 0 <= i < n && HoldsEvent(s, i) && shown == Shown(s.log[s.stored[i]].envelope.value, times[i]))
    && (forall i :: 0 <= i < n && StoresEvent(s, i, shown.envelope.eventId) ==> times[i] <= shown.ingestedAt)
  }

  ghost predicate InTable(s: State, n: nat, id: string)
    requires n <= |s.stored|
  {
    exists i :: 0 <= i < n && StoresEvent(s, i, id)
  }

  ghost predicate IsShown(view: seq<Shown>, id: string) {
    exists i :: 0 <= i < |view| && view[i].envelope.eventId == id
  }

  lemma MergedShows(view: seq<Shown>, row: Shown, tie: bool)
    requires EachOnce(view)
    ensures var after := Merged(view, row, tie);
            && EachOnce(after)
            && (forall id :: IsShown(after, id) <==> IsShown(view, id) || id == row.envelope.eventId)
            && (forall i :: 0 <= i < |after| ==>
                  (after[i] == row && (i < |view| ==> view[i].envelope.eventId == row.envelope.eventId && view[i].ingestedAt <= row.ingestedAt)) ||
                  (i < |view| && after[i] == view[i] && (after[i].envelope.eventId == row.envelope.eventId ==> row.ingestedAt <= after[i].ingestedAt)))
            && (|after| > |view| ==> !IsShown(view, row.envelope.eventId))
  {
    var after := Merged(view, row, tie);
    var entry := EntryOf(view, row.envelope.eventId);
    forall id ensures IsShown(after, id) <==> IsShown(view, id) || id == row.envelope.eventId {
      if IsShown(view, id) {
        var i :| 0 <= i < |view| && view[i].envelope.eventId == id;
        assert after[i].envelope.eventId == id;
      }
      if id == row.envelope.eventId {
        assert after[if entry == -1 then |view| else entry].envelope.eventId == id;
      }
      if IsShown(after, id) && id != row.envelope.eventId {
        var i :| 0 <= i < |after| && after[i].envelope.eventId == id;
        assert i < |view| && view[i].envelope.eventId == id;
      }
    }
  }

  lemma LatestStays(s: State, times: seq<int>, shown: Shown, n: nat)
    requires 0 < n <= |s.stored| == |times| && Latest(s, times, shown, n - 1)
    requires StoresEvent(s, n - 1, shown.envelope.eventId) ==> times[n - 1] <= shown.ingestedAt
    ensures Latest(s, times, shown, n)
  {
  }

  lemma LatestReplaces(s: State, times: seq<int>, shown: Shown, n: nat)
    requires 0 < n <= |s.stored| == |times| && Latest(s, times, shown, n - 1) && HoldsEvent(s, n - 1)
    requires StoresEvent(s, n - 1, shown.envelope.eventId) && shown.ingestedAt <= times[n - 1]
    ensures Latest(s, times, Shown(s.log[s.stored[n - 1]].envelope.value, times[n - 1]), n)
  {
  }

  lemma LatestAlone(s: State, times: seq<int>, n: nat)
    requires 0 < n <= |s.stored| == |times| && HoldsEvent(s, n - 1)
    requires !InTable(s, n - 1, s.log[s.stored[n - 1]].envelope.value.eventId)
    ensures Latest(s, times, Shown(s.log[s.stored[n - 1]].envelope.value, times[n - 1]), n)
  {
  }

  lemma ViewStep(s: State, times: seq<int>, ties: nat -> bool, n: nat)
    requires 0 < n <= |s.stored| == |times|
    ensures var earlier := View(s, times, ties, n - 1);
            View(s, times, ties, n) ==
            if HoldsEvent(s, n - 1) then Merged(earlier, Shown(s.log[s.stored[n - 1]].envelope.value, times[n - 1]), ties(n - 1)) else earlier
  {
    hide Merged;
  }

  lemma EmptyView(s: State, times: seq<int>, ties: nat -> bool)
    requires |s.stored| == |times|
    ensures View(s, times, ties, 0) == [] && EachOnce([])
    ensures forall id :: !IsShown([], id) && !InTable(s, 0, id)
  {
  }

  /** However rows ingested together are ordered: the view shows exactly the events of the table,
      each once, by a row that none of its event was ingested after. */
  lemma {:induction false} ViewShowsEachOnce(s: State, times: seq<int>, ties: nat -> bool, n: nat)
    requires n <= |s.stored| == |times|
    ensures var view := View(s, times, ties, n);
            && EachOnce(view)
            && (forall id :: IsShown(view, id) <==> InTable(s, n, id))
            && (forall i :: 0 <= i < |view| ==> Latest(s, times, view[i], n))
  {
    hide *;
    if n == 0 {
      EmptyView(s, times, ties);
    } else {
      ViewShowsEachOnce(s, times, ties, n - 1);
      ViewStep(s, times, ties, n);
      if HoldsEvent(s, n - 1) {
        ViewGrows(s, times, View(s, times, ties, n - 1), ties(n - 1), n);
      } else {
        ViewStays(s, times, View(s, times, ties, n - 1), n);
      }
    }
  }

  lemma ViewGrows(s: State, times: seq<int>, earlier: seq<Shown>, tie: bool, n: nat)
    requires 0 < n <= |s.stored| == |times| && HoldsEvent(s, n - 1)
    requires EachOnce(earlier) && (forall id :: IsShown(earlier, id) <==> InTable(s, n - 1, id))
    requires forall i :: 0 <= i < |earlier| ==> Latest(s, times, earlier[i], n - 1)
    ensures var view := Merged(earlier, Shown(s.log[s.stored[n - 1]].envelope.value, times[n - 1]), tie);
            && EachOnce(view)
            && (forall id :: IsShown(view, id) <==> InTable(s, n, id))
            && (forall i :: 0 <= i < |view| ==> Latest(s, times, view[i], n))
  {
    hide Latest;
    hide Merged;
    hide EachOnce;
    hide IsShown;
    hide InTable;
    hide StoresEvent;
    var row := Shown(s.log[s.stored[n - 1]].envelope.value, times[n - 1]);
    var view := Merged(earlier, row, tie);
    MergedShows(earlier, row, tie);
    forall i | 0 <= i < |view| ensures Latest(s, times, view[i], n) {
      MergedIsLatest(s, times, earlier, view, row, n, i);
    }
    forall id ensures IsShown(view, id) <==> InTable(s, n, id) {
      ShownIffStored(s, earlier, view, n, id);
    }
  }

  lemma ViewStays(s: State, times: seq<int>, view: seq<Shown>, n: nat)
    requires 0 < n <= |s.stored| == |times| && !HoldsEvent(s, n - 1)
    requires forall i :: 0 <= i < |view| ==> Latest(s, times, view[i], n - 1)
    ensures forall id :: InTable(s, n, id) <==> InTable(s, n - 1, id)
    ensures forall i :: 0 <= i < |view| ==> Latest(s, times, view[i], n)
  {
    forall i | 0 <= i < |view| ensures Latest(s, times, view[i], n) {
      LatestStays(s, times, view[i], n);
    }
    forall id | InTable(s, n - 1, id) ensures InTable(s, n, id) {
      var i :| 0 <= i < n - 1 && StoresEvent(s, i, id);
      assert StoresEvent(s, i, id);
    }
  }

  lemma ShownIffStored(s: State, earlier: seq<Shown>, view: seq<Shown>, n: nat, id: string)
    requires 0 < n <= |s.stored| && HoldsEvent(s, n - 1)
    requires IsShown(earlier, id) <==> InTable(s, n - 1, id)
    requires IsShown(view, id) <==> IsShown(earlier, id) || id == s.log[s.stored[n - 1]].envelope.value.eventId
    ensures IsShown(view, id) <==> InTable(s, n, id)
  {
    hide IsShown;
    if id == s.log[s.stored[n - 1]].envelope.value.eventId {
      assert StoresEvent(s, n - 1, id);
    }
  }

  lemma MergedIsLatest(s: State, times: seq<int>, earlier: seq<Shown>, view: seq<Shown>, row: Shown, n: nat, i: nat)
    requires 0 < n <= |s.stored| == |times| && HoldsEvent(s, n - 1) && i < |view|
    requires row == Shown(s.log[s.stored[n - 1]].envelope.value, times[n - 1])
    requires forall k :: 0 <= k < |earlier| ==> Latest(s, times, earlier[k], n - 1)
    requires forall id :: IsShown(earlier, id) <==> InTable(s, n - 1, id)
    requires i < |earlier| || !IsShown(earlier, row.envelope.eventId)
    requires (view[i] == row && (i < |earlier| ==> earlier[i].envelope.eventId == row.envelope.eventId && earlier[i].ingestedAt <= row.ingestedAt)) ||
             (i < |earlier| && view[i] == earlier[i] && (view[i].envelope.eventId == row.envelope.eventId ==> row.ingestedAt <= view[i].ingestedAt))
    ensures Latest(s, times, view[i], n)
  {
    hide Latest;
    hide IsShown;
    if i < |earlier| && view[i] == earlier[i] && (view[i].envelope.eventId == row.envelope.eventId ==> row.ingestedAt <= view[i].ingestedAt) {
      LatestStays(s, times, view[i], n);
    } else if i < |earlier| {
      LatestReplaces(s, times, earlier[i], n);
    } else {
      hide InTable;
      assert !IsShown(earlier, row.envelope.eventId);
      LatestAlone(s, times, n);
    }
  }

  /** If an event was stored with one content only, however often and whenever, that is what is shown. */
  lemma RedeliveryIsInvisible(s: State, times: seq<int>, ties: nat -> bool, envelope: Envelope)
    requires |s.stored| == |times| && InTable(s, |s.stored|, envelope.eventId)
    requires forall i :: 0 <= i < |s.stored| && StoresEvent(s, i, envelope.eventId) ==> s.log[s.stored[i]].envelope.value == envelope
    ensures exists k :: 0 <= k < |View(s, times, ties, |s.stored|)| && View(s, times, ties, |s.stored|)[k].envelope == envelope
  {
    hide View;
    var view := View(s, times, ties, |s.stored|);
    ViewShowsEachOnce(s, times, ties, |s.stored|);
    assert IsShown(view, envelope.eventId);
    var k :| 0 <= k < |view| && view[k].envelope.eventId == envelope.eventId;
    assert Latest(s, times, view[k], |s.stored|);
    var i :| 0 <= i < |s.stored| && HoldsEvent(s, i) && view[k] == Shown(s.log[s.stored[i]].envelope.value, times[i]);
    assert StoresEvent(s, i, envelope.eventId);
  }

  /** End to end: in a disciplined run from the beginning every valid message below the committed
      offset has its event in the view. */
  lemma CommittedIsVisible(log: seq<Message>, events: seq<Event>, offset: nat, times: seq<int>, ties: nat -> bool)
    requires Disciplined(State(log, 0, 0, [], []), events, false)
    requires var t := Run(State(log, 0, 0, [], []), events);
             offset < t.committed && offset < |t.log| && !Invalid(t.log[offset]) && |times| == |t.stored|
    ensures var t := Run(State(log, 0, 0, [], []), events);
            IsShown(View(t, times, ties, |t.stored|), t.log[offset].envelope.value.eventId)
  {
    var s := State(log, 0, 0, [], []);
    CommittedIsCovered(s, events, false);
    var t := Run(s, events);
    hide Run;
    hide Disciplined;
    hide View;
    assert Covered(t, offset);
    var i :| 0 <= i < |t.stored| && t.stored[i] == offset;
    assert StoresEvent(t, i, t.log[offset].envelope.value.eventId);
    ViewShowsEachOnce(t, times, ties, |t.stored|);
  }
}
