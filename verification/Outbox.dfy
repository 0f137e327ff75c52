/** The outbox: rows claimed under a lease, published to a topic, and marked. Times are in
    milliseconds. */
module Outbox {
  import opened Sorting
  import opened Text
  import opened Wrappers

  const LEASE := 120000
  const BACKOFF_STEP := 5000
  const MAX_BACKOFF_STEPS := 10

  datatype Status = Pending | Publishing | Failed | Published

  datatype Row = Row(id: string, occurredAt: int, status: Status, lockedAt: Option<int>, lockedBy: string, attempts: nat,
                     nextAttemptAt: Option<int>, publishedAt: Option<int>)

  // ----- Rows

  predicate Claimable(row: Row, now: int) {
    || ((row.status == Pending || row.status == Failed) && (row.nextAttemptAt.None? || row.nextAttemptAt.value <= now))
    || (row.status == Publishing && (row.lockedAt.None? || row.lockedAt.value <= now - LEASE))
  }

  function Claimed(row: Row, worker: string, now: int): Row {
    row.(status := Publishing, lockedAt := Some(now), lockedBy := worker, attempts := row.attempts + 1)
  }

  function MarkedPublished(row: Row, now: int): Row {
    row.(status := Published, publishedAt := Some(now), lockedAt := None, lockedBy := "")
  }

  function Backoff(attempts: nat): int {
    (if attempts < MAX_BACKOFF_STEPS then attempts else MAX_BACKOFF_STEPS) * BACKOFF_STEP
  }

  function MarkedFailed(row: Row, now: int): Row {
    row.(status := Failed, lockedAt := None, lockedBy := "", nextAttemptAt := Some(now + Backoff(row.attempts)))
  }

  function NewRow(id: string, occurredAt: int): Row {
    Row(id, occurredAt, Pending, None, "", 0, None, None)
  }

  /** When a row can be claimed: at once when it is new; never once it is published; while it is being
      published only 120 seconds after it was locked; and otherwise from the time of its next attempt on. */
  lemma ClaimableMeans(row: Row, now: int)
    ensures row.status == Published ==> !Claimable(row, now)
    ensures row.status == Publishing ==> (Claimable(row, now) <==> row.lockedAt.None? || row.lockedAt.value + 120000 <= now)
    ensures row.status in {Pending, Failed} ==> (Claimable(row, now) <==> row.nextAttemptAt.None? || row.nextAttemptAt.value <= now)
    ensures var added := NewRow(row.id, row.occurredAt);
            && Claimable(added, now) && added.attempts == 0 && added.lockedBy == "" && added.publishedAt.None?
            && added.id == row.id && added.occurredAt == row.occurredAt
  {
  }

  /** A claim that succeeds for good or fails once: the claimed row is nobody else's for 120 seconds,
      a failed one waits five seconds for every attempt so far but no more than fifty and keeps its
      count, and a published one is never claimed again. */
  lemma ClaimedAndMarked(row: Row, worker: string, claimedAt: int, markedAt: int, now: int)
    ensures var claimed, wait := Claimed(row, worker, claimedAt), if row.attempts < 9 then 5000 * (row.attempts + 1) else 50000;
            && (Claimable(claimed, now) <==> claimedAt + 120000 <= now)
            && (Claimable(MarkedFailed(claimed, markedAt), now) <==> markedAt + wait <= now)
            && !Claimable(MarkedPublished(claimed, markedAt), now)
    ensures var claimed := Claimed(row, worker, claimedAt);
            && claimed.lockedBy == worker && claimed.attempts == row.attempts + 1
            && MarkedPublished(claimed, markedAt) == Row(row.id, row.occurredAt, Published, None, "", row.attempts + 1, row.nextAttemptAt, Some(markedAt))
            && MarkedFailed(claimed, markedAt).(nextAttemptAt := row.nextAttemptAt) ==
               Row(row.id, row.occurredAt, Failed, None, "", row.attempts + 1, row.nextAttemptAt, row.publishedAt)
  {
  }

  // ----- Claiming a batch

  predicate Older(a: Row, b: Row) {
    if a.occurredAt == b.occurredAt then Less(a.id, b.id) else a.occurredAt < b.occurredAt
  }

  lemma OlderIsWeakOrder()
    ensures WeakOrder(Older)
  {
    hide Less;
    forall x, y | Older(x, y) ensures !Older(y, x) {
      LessIsTotal(x.id, y.id);
    }
    forall x, y, z | !Older(y, x) && !Older(z, y) ensures !Older(z, x) {
      if x.occurredAt == y.occurredAt && y.occurredAt == z.occurredAt {
        NotLessChains(x.id, y.id, z.id);
      }
    }
  }

  /** `claimed` are the oldest rows that can be claimed, as many as the limit allows. */
  ghost predicate OldestClaimable(claimed: seq<string>, rows: map<string, Row>, now: int, limit: nat) {
    && |claimed| <= limit
    && (forall i, j :: 0 <= i < j < |claimed| ==> claimed[i] != claimed[j])
    && (forall i :: 0 <= i < |claimed| ==> claimed[i] in rows && Claimable(rows[claimed[i]], now))
    && (forall id :: id in rows && Claimable(rows[id], now) && id !in claimed ==>
          |claimed| == limit && forall i :: 0 <= i < |claimed| ==> !Older(rows[id], rows[claimed[i]]))
  }

  function WithClaims(rows: map<string, Row>, claimed: seq<string>, worker: string, now: int): (after: map<string, Row>)
    ensures after.Keys == rows.Keys
    ensures forall id :: id in rows ==> after[id] == if id in claimed then Claimed(rows[id], worker, now) else rows[id]
  {
    map id | id in rows :: if id in claimed then Claimed(rows[id], worker, now) else rows[id]
  }

  function WorkerName(workerID: string): string {
    if workerID == "" then "outbox-relay" else workerID
  }

  class OutboxTable {
    var rows: map<string, Row>

    ghost predicate Valid()
      reads this
    {
      forall id :: id in rows ==> rows[id].id == id
    }

    constructor ()
      ensures Valid() && rows == map[]
    {
      rows := map[];
    }

    method ClaimPending(limit: int, workerID: string, now: int) returns (claimed: seq<string>)
      requires Valid()
      modifies this
      ensures Valid()
      ensures OldestClaimable(claimed, old(rows), now, if limit <= 0 then 50 else limit)
      ensures rows == WithClaims(old(rows), claimed, WorkerName(workerID), now)
    {
      var size := if limit <= 0 then 50 else limit;
      claimed := ChooseOldest(rows, now, size);
      rows := WithClaims(rows, claimed, if workerID == "" then "outbox-relay" else workerID, now);
      hide Claimable;
    }

    /** Neither mark checks who holds the lease or what the status is. */
    method MarkPublished(id: string, now: int)
      requires Valid()
      modifies this
      ensures Valid()
      ensures rows == if id in old(rows) then old(rows)[id := MarkedPublished(old(rows)[id], now)] else old(rows)
    {
      if id in rows {
        rows := rows[id := MarkedPublished(rows[id], now)];
      }
    }

    method MarkFailed(id: string, now: int)
      requires Valid()
      modifies this
      ensures Valid()
      ensures rows == if id in old(rows) then old(rows)[id := MarkedFailed(old(rows)[id], now)] else old(rows)
    {
      if id in rows {
        rows := rows[id := MarkedFailed(rows[id], now)];
      }
    }
  }

  method ChooseOldest(rows: map<string, Row>, now: int, limit: nat) returns (claimed: seq<string>)
    requires forall id :: id in rows ==> rows[id].id == id
    ensures OldestClaimable(claimed, rows, now, limit)
  {
    var found: seq<Row> := [];
    var remaining := rows.Keys;
    while remaining != {}
      invariant remaining <= rows.Keys
      invariant forall row :: row in found <==> row.id in rows && row.id !in remaining && rows[row.id] == row && Claimable(row, now)
      invariant forall i, j :: 0 <= i < j < |found| ==> found[i].id != found[j].id
      decreases remaining
    {
      hide Claimable;
      var id :| id in remaining;
      remaining := remaining - {id};
      if Claimable(rows[id], now) {
        assert forall i :: 0 <= i < |found| ==> found[i] in found;
        found := found + [rows[id]];
      }
    }
    hide *;
    OlderIsWeakOrder();
    var sorted := SortBy(found, Older);
    SortedMembers(sorted, found);
    var size := if |sorted| > limit then limit else |sorted|;
    claimed := seq(size, i requires 0 <= i < size => sorted[i].id);
    OldestAreFirst(claimed, sorted, found, rows, now, limit);
  }

  lemma OldestAreFirst(claimed: seq<string>, sorted: seq<Row>, found: seq<Row>, rows: map<string, Row>, now: int, limit: nat)
    requires multiset(sorted) == multiset(found) && Sorted(sorted, Older)
    requires forall row :: row in found <==> row.id in rows && rows[row.id] == row && Claimable(row, now)
    requires forall i, j :: 0 <= i < j < |found| ==> found[i].id != found[j].id
    requires forall id :: id in rows ==> rows[id].id == id
    requires |claimed| == (if |sorted| > limit then limit else |sorted|)
    requires forall i :: 0 <= i < |claimed| ==> claimed[i] == sorted[i].id
    ensures OldestClaimable(claimed, rows, now, limit)
  {
    SortedMembers(sorted, found);
    DistinctPermutation(found, sorted);
    hide Older;
    hide Claimable;
    forall i | 0 <= i < |sorted| ensures sorted[i].id in rows && rows[sorted[i].id] == sorted[i] && Claimable(sorted[i], now) {
      assert sorted[i] in found;
    }
    forall id | id in rows && Claimable(rows[id], now) && id !in claimed
      ensures |claimed| == limit && forall i :: 0 <= i < |claimed| ==> !Older(rows[id], rows[claimed[i]])
    {
      assert rows[id] in found && rows[id] in sorted;
      var k :| 0 <= k < |sorted| && sorted[k] == rows[id];
      NotBefore(claimed, sorted, id, k);
    }
  }

  lemma NotBefore(claimed: seq<string>, sorted: seq<Row>, id: string, k: nat)
    requires |claimed| <= |sorted| && forall i :: 0 <= i < |claimed| ==> claimed[i] == sorted[i].id
    requires k < |sorted| && sorted[k].id == id && id !in claimed
    ensures k >= |claimed|
  {
  }

  // ----- One batch of a relay worker

  class Topic {
    var log: seq<string>

    constructor ()
      ensures log == []
    {
      log := [];
    }
  }

  function Accepted(batch: seq<string>, accepts: string -> bool, n: nat): seq<string>
    requires n <= |batch|
  {
    if n == 0 then []
    else if accepts(batch[n - 1]) then Accepted(batch, accepts, n - 1) + [batch[n - 1]]
    else Accepted(batch, accepts, n - 1)
  }

  function Marked(row: Row, accepted: bool, now: int): Row {
    if accepted then MarkedPublished(row, now) else MarkedFailed(row, now)
  }

  /** The rows once the first `n` events of a batch are marked; `time(i)` is when event `i` was. */
  function AfterMarks(rows: map<string, Row>, batch: seq<string>, accepts: string -> bool, time: nat -> int, n: nat)
    : (after: map<string, Row>)
    requires n <= |batch| && forall i :: 0 <= i < |batch| ==> batch[i] in rows
    ensures after.Keys == rows.Keys
  {
    if n == 0 then rows
    else
      var earlier, id := AfterMarks(rows, batch, accepts, time, n - 1), batch[n - 1];
      earlier[id := Marked(earlier[id], accepts(id), time(n - 1))]
  }

  /** The number of events whose marks are stored before the first mark that is not. */
  ghost predicate FirstUnstored(markFails: nat -> bool, size: nat, marked: nat) {
    && marked <= size
    && (forall i: nat :: i < marked ==> !markFails(i))
    && (marked < size ==> markFails(marked))
  }

  /** Events are published up to the one whose mark is not stored. */
  function Sent(marked: nat, size: nat): (sent: nat)
    requires marked <= size
    ensures marked <= sent <= size
  {
    if marked < size then marked + 1 else marked
  }

  /** Publishes one claimed event and marks its row by the outcome. */
  method PublishAndMark(table: OutboxTable, topic: Topic, id: string, accepted: bool, markFails: bool, now: int)
    requires table.Valid() && id in table.rows
    modifies table, topic
    ensures table.Valid()
    ensures table.rows == if markFails then old(table.rows) else old(table.rows)[id := Marked(old(table.rows)[id], accepted, now)]
    ensures topic.log == if accepted then old(topic.log) + [id] else old(topic.log)
  {
    if accepted {
      topic.log := topic.log + [id];
      if !markFails {
        table.MarkPublished(id, now);
      }
    } else if !markFails {
      table.MarkFailed(id, now);
    }
  }

  method MarkBatch(table: OutboxTable, topic: Topic, events: seq<string>, accepts: string -> bool, markFails: nat -> bool,
                   time: nat -> int)
    returns (marked: nat)
    requires table.Valid() && forall i :: 0 <= i < |events| ==> events[i] in table.rows
    modifies table, topic
    ensures FirstUnstored(markFails, |events|, marked)
    ensures table.Valid() && table.rows == AfterMarks(old(table.rows), events, accepts, time, marked)
    ensures topic.log == old(topic.log) + Accepted(events, accepts, Sent(marked, |events|))
  {
    hide *;
    NothingMarked(table.rows, events, accepts, time);
    for n := 0 to |events|
      invariant forall i: nat :: i < n ==> !markFails(i)
      invariant table.Valid() && table.rows == AfterMarks(old(table.rows), events, accepts, time, n)
      invariant topic.log == old(topic.log) + Accepted(events, accepts, n)
    {
      PublishAndMark(table, topic, events[n], accepts(events[n]), markFails(n), time(n));
      MarkedOne(old(table.rows), events, accepts, time, n, topic.log, old(topic.log));
      if markFails(n) {
        StopsAt(markFails, |events|, n);
        return n;
      }
    }
    StopsAt(markFails, |events|, |events|);
    marked := |events|;
  }

  lemma NothingMarked(rows: map<string, Row>, batch: seq<string>, accepts: string -> bool, time: nat -> int)
    requires forall i :: 0 <= i < |batch| ==> batch[i] in rows
    ensures AfterMarks(rows, batch, accepts, time, 0) == rows && Accepted(batch, accepts, 0) == []
  {
  }

  lemma MarkedOne(rows: map<string, Row>, batch: seq<string>, accepts: string -> bool, time: nat -> int, n: nat,
                  log: seq<string>, before: seq<string>)
    requires n < |batch| && forall i :: 0 <= i < |batch| ==> batch[i] in rows
    requires log == if accepts(batch[n]) then before + Accepted(batch, accepts, n) + [batch[n]] else before + Accepted(batch, accepts, n)
    ensures var earlier, id := AfterMarks(rows, batch, accepts, time, n), batch[n];
            AfterMarks(rows, batch, accepts, time, n + 1) == earlier[id := Marked(earlier[id], accepts(id), time(n))]
    ensures log == before + Accepted(batch, accepts, n + 1)
  {
    hide Marked;
  }

  lemma StopsAt(markFails: nat -> bool, size: nat, marked: nat)
    requires marked <= size && (forall i: nat :: i < marked ==> !markFails(i)) && (marked < size ==> markFails(marked))
    ensures FirstUnstored(markFails, size, marked) && Sent(marked, size) == if marked < size then marked + 1 else marked
  {
  }

  /** One batch: `accepts` says which events the topic takes, and the first mark that cannot be
      stored ends the batch, which then counts as nothing processed. */
  method ProcessBatch(table: OutboxTable, topic: Topic, accepts: string -> bool, markFails: nat -> bool, worker: string,
                      batchSize: int, now: int, time: nat -> int)
    returns (processed: nat, ghost batch: seq<string>, ghost marked: nat)
    requires table.Valid()
    modifies table, topic
    ensures OldestClaimable(batch, old(table.rows), now, if batchSize <= 0 then 50 else batchSize)
    ensures FirstUnstored(markFails, |batch|, marked) && processed == if marked < |batch| then 0 else |batch|
    ensures topic.log == old(topic.log) + Accepted(batch, accepts, Sent(marked, |batch|))
    ensures table.Valid()
    ensures table.rows == AfterMarks(WithClaims(old(table.rows), batch, WorkerName(worker), now), batch, accepts, time, marked)
  {
    hide *;
    var events := table.ClaimPending(batchSize, worker, now);
    batch := events;
    BatchInRows(batch, old(table.rows), now, if batchSize <= 0 then 50 else batchSize);
    var stored := MarkBatch(table, topic, events, accepts, markFails, time);
    UnstoredIsWithin(markFails, |events|, stored);
    marked := stored;
    processed := if stored < |events| then 0 else |events|;
  }

  lemma UnstoredIsWithin(markFails: nat -> bool, size: nat, marked: nat)
    requires FirstUnstored(markFails, size, marked)
    ensures marked <= size
  {
  }

  lemma BatchInRows(batch: seq<string>, rows: map<string, Row>, now: int, limit: nat)
    requires OldestClaimable(batch, rows, now, limit)
    ensures forall i :: 0 <= i < |batch| ==> batch[i] in rows
    ensures forall i, j :: 0 <= i < j < |batch| ==> batch[i] != batch[j]
  {
  }

  lemma {:induction false} NotInBatch(rows: map<string, Row>, batch: seq<string>, accepts: string -> bool, time: nat -> int, n: nat, id: string)
    requires n <= |batch| && forall i :: 0 <= i < |batch| ==> batch[i] in rows
    requires id in rows && forall i :: 0 <= i < n ==> batch[i] != id
    ensures AfterMarks(rows, batch, accepts, time, n)[id] == rows[id]
  {
    hide Marked;
    if n > 0 {
      NotInBatch(rows, batch, accepts, time, n - 1, id);
    }
  }

  /** A batch settles each of its rows once, by whether the topic took the event. */
  lemma {:induction false} BatchSettles(rows: map<string, Row>, batch: seq<string>, accepts: string -> bool, time: nat -> int, n: nat, i: nat)
    requires i < n <= |batch| && forall k :: 0 <= k < |batch| ==> batch[k] in rows
    requires forall k, j :: 0 <= k < j < |batch| ==> batch[k] != batch[j]
    ensures AfterMarks(rows, batch, accepts, time, n)[batch[i]] ==
            Marked(rows[batch[i]], accepts(batch[i]), time(i))
  {
    hide Marked;
    if i < n - 1 {
      BatchSettles(rows, batch, accepts, time, n - 1, i);
    } else {
      NotInBatch(rows, batch, accepts, time, n - 1, batch[i]);
    }
  }

  // ----- Any number of workers

  datatype Stage = Taken | Delivered | Refused

  /** What a worker has in hand for a row. */
  datatype Claim = Claim(claimedAt: int, stage: Stage)

  datatype Key = Key(worker: string, id: string)

  datatype System = System(rows: map<string, Row>, hands: map<Key, Claim>, topic: seq<string>, now: int)

  datatype Event =
    | Enqueue(id: string, occurredAt: int)
    | Wait(time: nat)
    | Take(key: Key)
    | Deliver(key: Key)
    | Refuse(key: Key, delivered: bool)
    | Mark(key: Key)
    | Crash(worker: string)

  function WithoutWorker(hands: map<Key, Claim>, worker: string): map<Key, Claim> {
    map k | k in hands && k.worker != worker :: hands[k]
  }

  predicate Enabled(s: System, e: Event) {
    match e
    case Enqueue(id, _) => id !in s.rows
    case Wait(_) => true
    case Take(key) => key.id in s.rows && Claimable(s.rows[key.id], s.now)
    case Deliver(key) => key in s.hands && s.hands[key].stage == Taken
    case Refuse(key, _) => key in s.hands && s.hands[key].stage == Taken
    case Mark(key) => key in s.hands && s.hands[key].stage != Taken && key.id in s.rows
    case Crash(_) => true
  }

  /** What an event does; an event that is not enabled does nothing. A refused delivery may still
      have reached the topic. */
  function Next(s: System, e: Event): System {
    if !Enabled(s, e) then s
    else
      match e
      case Enqueue(id, occurredAt) => s.(rows := s.rows[id := NewRow(id, occurredAt)])
      case Wait(time) => s.(now := s.now + time)
      case Take(key) =>
        s.(rows := s.rows[key.id := Claimed(s.rows[key.id], key.worker, s.now)], hands := s.hands[key := Claim(s.now, Taken)])
      case Deliver(key) =>
        s.(topic := s.topic + [key.id], hands := s.hands[key := s.hands[key].(stage := Delivered)])
      case Refuse(key, delivered) =>
        s.(topic := if delivered then s.topic + [key.id] else s.topic,
           hands := s.hands[key := s.hands[key].(stage := Refused)])
      case Mark(key) =>
        var row := s.rows[key.id];
        s.(rows := s.rows[key.id := Marked(row, s.hands[key].stage == Delivered, s.now)],
           hands := s.hands - {key})
      case Crash(worker) => s.(hands := WithoutWorker(s.hands, worker))
  }

  function Run(s: System, events: seq<Event>): System
    decreases |events|
  {
    if events == [] then s else Run(Next(s, events[0]), events[1..])
  }

  lemma RunOne(s: System, e: Event, rest: seq<Event>)
    ensures Run(s, [e] + rest) == Run(Next(s, e), rest)
  {
    hide Next;
    assert ([e] + rest)[1..] == rest;
  }

  lemma {:induction false} RunAppend(s: System, first: seq<Event>, second: seq<Event>)
    ensures Run(s, first + second) == Run(Run(s, first), second)
    decreases |first|
  {
    hide Next;
    if first == [] {
      assert first + second == second;
    } else {
      RunAppend(Next(s, first[0]), first[1..], second);
      assert (first + second)[1..] == first[1..] + second;
    }
  }

  /** Marked published implies published: nothing is lost between claiming and marking. Every row
      that is not marked published can be claimed within the lease time. */
  ghost predicate Safe(s: System) {
    && (forall id :: id in s.rows ==> SafeRow(s, s.rows[id], id))
    && (forall key :: key in s.hands && s.hands[key].stage == Delivered ==> key.id in s.topic)
  }

  ghost predicate SafeRow(s: System, row: Row, id: string) {
    && (row.status == Published ==> id in s.topic)
    && (row.lockedAt.Some? ==> row.lockedAt.value <= s.now)
    && (row.nextAttemptAt.Some? ==> row.nextAttemptAt.value <= s.now + MAX_BACKOFF_STEPS * BACKOFF_STEP)
  }

  lemma StepIsSafe(s: System, e: Event)
    requires Safe(s)
    ensures Safe(Next(s, e))
    ensures s.rows.Keys <= Next(s, e).rows.Keys && s.topic <= Next(s, e).topic
  {
    var t := Next(s, e);
    forall id | id in t.rows ensures SafeRow(t, t.rows[id], id) {
      if id in s.rows {
        assert SafeRow(s, s.rows[id], id);
      }
    }
  }

  /** In every run of any workers with crashes, refused deliveries and expired leases: a row marked
      published was sent, no row disappears, nothing sent is unsent, and every row not marked
      published can be claimed at once or within two minutes. */
  lemma {:induction false} RunsAreSafe(s: System, events: seq<Event>)
    requires Safe(s)
    ensures var t := Run(s, events);
            && Safe(t) && s.rows.Keys <= t.rows.Keys && s.topic <= t.topic
            && (forall id :: id in t.rows && t.rows[id].status == Published ==> id in t.topic)
            && (forall id :: id in t.rows && t.rows[id].status != Published ==> Claimable(t.rows[id], t.now + LEASE))
    decreases |events|
  {
    if events == [] {
      forall id | id in s.rows && s.rows[id].status != Published ensures Claimable(s.rows[id], s.now + LEASE) {
        assert SafeRow(s, s.rows[id], id);
      }
      forall id | id in s.rows && s.rows[id].status == Published ensures id in s.topic {
        assert SafeRow(s, s.rows[id], id);
      }
    } else {
      StepIsSafe(s, events[0]);
      hide Safe;
      hide Next;
      hide Claimable;
      RunsAreSafe(Next(s, events[0]), events[1..]);
    }
  }

  // ----- Leases

  predicate Live(s: System, key: Key) {
    key in s.hands && s.now - s.hands[key].claimedAt < LEASE
  }

  /** Every unexpired claim is the one recorded in its row. */
  ghost predicate Owned(s: System) {
    && (forall key :: key in s.hands ==> s.hands[key].claimedAt <= s.now)
    && (forall key :: Live(s, key) ==> key.id in s.rows && Holds(s.rows[key.id], key, s.hands[key].claimedAt))
  }

  predicate Holds(row: Row, key: Key, claimedAt: int) {
    row.status == Publishing && row.lockedBy == key.worker && row.lockedAt == Some(claimedAt)
  }

  /** No two workers hold an unexpired claim on the same row. */
  lemma OwnedIsExclusive(s: System, a: Key, b: Key)
    requires Owned(s) && Live(s, a) && Live(s, b) && a.id == b.id
    ensures a == b
  {
  }

  /** The event is the mark of a worker while another holds an unexpired claim on the row. */
  ghost predicate Intrudes(s: System, e: Event) {
    e.Mark? && Enabled(s, e) && exists other :: other != e.key && other.id == e.key.id && Live(s, other)
  }

  /** Ownership survives every step except, exactly, a mark on a row that another worker holds. */
  lemma OwnershipSurvives(s: System, e: Event)
    requires Owned(s)
    ensures Owned(Next(s, e)) <==> !Intrudes(s, e)
  {
    var t := Next(s, e);
    if Intrudes(s, e) {
      var other :| other != e.key && other.id == e.key.id && Live(s, other);
      assert Live(t, other) && t.rows[other.id].status != Publishing;
    } else {
      hide Claimed;
      forall key | Live(t, key) ensures key.id in t.rows && Holds(t.rows[key.id], key, t.hands[key].claimedAt) {
        StaysHeld(s, e, key);
      }
    }
  }

  lemma StaysHeld(s: System, e: Event, key: Key)
    requires Owned(s) && !Intrudes(s, e) && Live(Next(s, e), key)
    ensures var t := Next(s, e);
            key.id in t.rows && Holds(t.rows[key.id], key, t.hands[key].claimedAt)
  {
  }

  ghost predicate NeverIntrudes(s: System, events: seq<Event>)
    decreases |events|
  {
    events == [] || (!Intrudes(s, events[0]) && NeverIntrudes(Next(s, events[0]), events[1..]))
  }

  /** As long as no worker marks a row that another holds, no two workers ever hold an unexpired
      claim on the same row. */
  lemma {:induction false} LeasesAreExclusive(s: System, events: seq<Event>, a: Key, b: Key)
    requires Owned(s) && NeverIntrudes(s, events)
    requires Live(Run(s, events), a) && Live(Run(s, events), b) && a.id == b.id
    ensures a == b
    decreases |events|
  {
    if events == [] {
      OwnedIsExclusive(s, a, b);
    } else {
      OwnershipSurvives(s, events[0]);
      hide Owned;
      hide Next;
      LeasesAreExclusive(Next(s, events[0]), events[1..], a, b);
    }
  }

  // ----- When a published row stays published

  /** The event reports a refused delivery of the row. */
  predicate Unmarks(s: System, e: Event, id: string) {
    e.Mark? && Enabled(s, e) && e.key.id == id && s.hands[e.key].stage == Refused
  }

  ghost predicate IsPublished(s: System, id: string) {
    id in s.rows && s.rows[id].status == Published
  }

  /** One step takes the mark off a published row exactly when it reports a refused delivery of it,
      and then the lease of the reporting worker has expired. */
  lemma UnmarkedIff(s: System, e: Event, id: string)
    requires IsPublished(s, id)
    ensures IsPublished(Next(s, e), id) <==> !Unmarks(s, e, id)
    ensures Owned(s) && Unmarks(s, e, id) ==> !Live(s, e.key)
  {
    hide Backoff;
    if Unmarks(s, e, id) {
      assert Next(s, e).rows[id].status == Failed;
    }
  }

  ghost predicate StaysPublished(s: System, events: seq<Event>, id: string)
    decreases |events|
  {
    IsPublished(s, id) && (events == [] || StaysPublished(Next(s, events[0]), events[1..], id))
  }

  ghost predicate NeverUnmarks(s: System, events: seq<Event>, id: string)
    decreases |events|
  {
    events == [] || (!Unmarks(s, events[0], id) && NeverUnmarks(Next(s, events[0]), events[1..], id))
  }

  /** A worker that marks at all does so within its own lease, which it can check before the call. */
  ghost predicate MarksInTime(s: System, events: seq<Event>)
    decreases |events|
  {
    events == [] || (InTime(s, events[0]) && MarksInTime(Next(s, events[0]), events[1..]))
  }

  predicate InTime(s: System, e: Event) {
    e.Mark? && Enabled(s, e) ==> Live(s, e.key)
  }

  lemma InTimeKeepsLeases(s: System, e: Event)
    requires Owned(s) && InTime(s, e)
    ensures !Intrudes(s, e) && Owned(Next(s, e))
  {
    hide Next;
    OwnershipSurvives(s, e);
  }

  /** A published row stays published throughout a run exactly when nobody reports a refused
      delivery of it. */
  lemma {:induction false} PublishedIff(s: System, events: seq<Event>, id: string)
    requires IsPublished(s, id)
    ensures StaysPublished(s, events, id) <==> NeverUnmarks(s, events, id)
    decreases |events|
  {
    hide Owned;
    hide Next;
    hide Unmarks;
    hide IsPublished;
    if events != [] {
      UnmarkedIff(s, events[0], id);
      if IsPublished(Next(s, events[0]), id) {
        PublishedIff(Next(s, events[0]), events[1..], id);
      }
    }
  }

  /** If every worker marks within its own lease, published rows stay published, no mark intrudes
      and leases stay with their holders, so no two workers hold a lease on one row. */
  lemma {:induction false} MarkingInTimeIsEnough(s: System, events: seq<Event>)
    requires Owned(s) && MarksInTime(s, events)
    ensures NeverIntrudes(s, events) && Owned(Run(s, events))
    ensures forall id :: IsPublished(s, id) ==> StaysPublished(s, events, id)
    ensures forall a, b :: Live(Run(s, events), a) && Live(Run(s, events), b) && a.id == b.id ==> a == b
    decreases |events|
  {
    hide Next;
    hide Owned;
    hide Live;
    hide InTime;
    hide Intrudes;
    hide IsPublished;
    if events == [] {
      forall a, b | Live(s, a) && Live(s, b) && a.id == b.id ensures a == b {
        OwnedIsExclusive(s, a, b);
      }
    } else {
      InTimeKeepsLeases(s, events[0]);
      MarkingInTimeIsEnough(Next(s, events[0]), events[1..]);
      forall id | IsPublished(s, id) ensures IsPublished(Next(s, events[0]), id) {
        InTimeKeepsMarks(s, events[0], id);
      }
    }
  }

  lemma InTimeKeepsMarks(s: System, e: Event, id: string)
    requires Owned(s) && InTime(s, e) && IsPublished(s, id)
    ensures IsPublished(Next(s, e), id)
  {
    hide Next;
    UnmarkedIff(s, e, id);
  }

  // ----- From the start

  function Start(now: int): System {
    System(map[], map[], [], now)
  }

  /** Before anything is enqueued both invariants hold, so every run from there is safe, and one
      whose marks are in time keeps leases exclusive and published rows published. */
  lemma EveryRunIsSafe(now: int, events: seq<Event>, later: seq<Event>, id: string)
    ensures var s := Run(Start(now), events);
            && Safe(s)
            && (IsPublished(s, id) ==> id in s.topic)
            && (MarksInTime(Start(now), events + later) && IsPublished(s, id) ==> StaysPublished(s, later, id))
  {
    hide Next;
    hide Run;
    RunsAreSafe(Start(now), events);
    if MarksInTime(Start(now), events + later) && IsPublished(Run(Start(now), events), id) {
      InTimeSplits(Start(now), events, later);
      MarkingInTimeIsEnough(Start(now), events);
      MarkingInTimeIsEnough(Run(Start(now), events), later);
    }
  }

  /** A crash takes all that its worker has in hand and nothing else; two minutes later any worker
      can claim every row that is not published, and publish it. */
  lemma CrashIsRecovered(s: System, dead: string, worker: string, id: string)
    requires Safe(s) && id in s.rows && s.rows[id].status != Published
    ensures var crashed := Next(s, Crash(dead));
            && crashed.rows == s.rows && crashed.topic == s.topic && crashed.now == s.now
            && forall key :: key in crashed.hands <==> key in s.hands && key.worker != dead
    ensures var key := Key(worker, id);
            var t := Run(s, [Crash(dead)] + ([Wait(120000)] + ([Take(key)] + ([Deliver(key)] + ([Mark(key)] + [])))));
            && id in t.rows && t.rows[id].status == Published && t.topic == s.topic + [id] && key !in t.hands
            && forall other :: other in s.rows && other != id ==> other in t.rows && t.rows[other] == s.rows[other]
  {
    var key := Key(worker, id);
    var s1 := Next(s, Crash(dead));
    var s2 := Next(s1, Wait(120000));
    var s3 := Next(s2, Take(key));
    var s4 := Next(s3, Deliver(key));
    var s5 := Next(s4, Mark(key));
    assert SafeRow(s, s.rows[id], id);
    assert Claimable(s2.rows[id], s2.now);
    assert s3.hands[key] == Claim(s2.now, Taken);
    assert s4.hands[key] == Claim(s2.now, Delivered);
    assert s5.rows[id].status == Published;
    hide Next;
    hide Safe;
    RunOne(s, Crash(dead), [Wait(120000)] + ([Take(key)] + ([Deliver(key)] + ([Mark(key)] + []))));
    RunOne(s1, Wait(120000), [Take(key)] + ([Deliver(key)] + ([Mark(key)] + [])));
    RunOne(s2, Take(key), [Deliver(key)] + ([Mark(key)] + []));
    RunOne(s3, Deliver(key), [Mark(key)] + []);
    RunOne(s4, Mark(key), []);
  }

  lemma {:induction false} InTimeSplits(s: System, first: seq<Event>, second: seq<Event>)
    requires MarksInTime(s, first + second)
    ensures MarksInTime(s, first) && MarksInTime(Run(s, first), second)
    decreases |first|
  {
    hide Next;
    hide InTime;
    if first == [] {
      assert first + second == second;
    } else {
      assert (first + second)[1..] == first[1..] + second;
      InTimeSplits(Next(s, first[0]), first[1..], second);
    }
  }

  // ----- A batch is a run

  function Taking(worker: string, batch: seq<string>, n: nat): seq<Event>
    requires n <= |batch|
  {
    if n == 0 then [] else Taking(worker, batch, n - 1) + [Take(Key(worker, batch[n - 1]))]
  }

  /** Publishing: a refusal reports what the topic did not take. */
  function Sending(key: Key, accepted: bool): Event {
    if accepted then Deliver(key) else Refuse(key, false)
  }

  /** The clock before event `n` of a batch is published. */
  function Clock(now: int, time: nat -> int, n: nat): int {
    if n == 0 then now else time(n - 1)
  }

  ghost predicate Runs(now: int, time: nat -> int, size: nat) {
    forall n: nat :: n < size ==> Clock(now, time, n) <= time(n)
  }

  function Settling(worker: string, batch: seq<string>, accepts: string -> bool, now: int, time: nat -> int, n: nat): seq<Event>
    requires n <= |batch| && Runs(now, time, |batch|)
  {
    if n == 0 then []
    else
      var key := Key(worker, batch[n - 1]);
      Settling(worker, batch, accepts, now, time, n - 1) +
      [Wait(time(n - 1) - Clock(now, time, n - 1)), Sending(key, accepts(key.id)), Mark(key)]
  }

  ghost predicate Distinct(batch: seq<string>) {
    forall i, j :: 0 <= i < j < |batch| ==> batch[i] != batch[j]
  }

  /** What a batch needs of the system: its rows can be claimed, each once. */
  ghost predicate Ready(s: System, batch: seq<string>) {
    && Distinct(batch)
    && (forall i :: 0 <= i < |batch| ==> batch[i] in s.rows && Claimable(s.rows[batch[i]], s.now))
  }

  /** The worker holds the rest of the batch. */
  ghost predicate InHand(s: System, worker: string, batch: seq<string>, n: nat) {
    forall i :: n <= i < |batch| ==> Key(worker, batch[i]) in s.hands && s.hands[Key(worker, batch[i])].stage == Taken
  }

  lemma NoClaims(rows: map<string, Row>, batch: seq<string>, worker: string, now: int)
    ensures WithClaims(rows, batch[..0], worker, now) == rows
  {
  }

  lemma OneMoreClaim(rows: map<string, Row>, batch: seq<string>, n: nat, worker: string, now: int)
    requires n < |batch| && Distinct(batch) && batch[n] in rows
    ensures var earlier := WithClaims(rows, batch[..n], worker, now);
            && earlier[batch[n]] == rows[batch[n]]
            && WithClaims(rows, batch[..n + 1], worker, now) == earlier[batch[n] := Claimed(rows[batch[n]], worker, now)]
  {
    hide Claimed;
    assert batch[..n + 1] == batch[..n] + [batch[n]];
  }

  lemma TakingOne(s: System, key: Key)
    requires key.id in s.rows && Claimable(s.rows[key.id], s.now)
    ensures var t := Next(s, Take(key));
            && t.now == s.now && t.topic == s.topic && t.rows == s.rows[key.id := Claimed(s.rows[key.id], key.worker, s.now)]
            && t.hands == s.hands[key := Claim(s.now, Taken)]
  {
  }

  ghost predicate Held(s: System, worker: string, batch: seq<string>, n: nat)
    requires n <= |batch|
  {
    forall i :: 0 <= i < n ==> Key(worker, batch[i]) in s.hands && s.hands[Key(worker, batch[i])].stage == Taken
  }

  lemma HeldOne(s: System, t: System, worker: string, batch: seq<string>, n: nat)
    requires n < |batch| && Held(s, worker, batch, n) && t.hands == s.hands[Key(worker, batch[n]) := Claim(s.now, Taken)]
    ensures Held(t, worker, batch, n + 1)
  {
  }

  lemma NothingTaken(s: System, worker: string, batch: seq<string>)
    ensures var t := Run(s, Taking(worker, batch, 0));
            t == s && t.rows == WithClaims(s.rows, batch[..0], worker, s.now) && Held(t, worker, batch, 0)
  {
    NoClaims(s.rows, batch, worker, s.now);
  }

  lemma TakingStep(worker: string, batch: seq<string>, n: nat)
    requires 0 < n <= |batch|
    ensures Taking(worker, batch, n) == Taking(worker, batch, n - 1) + [Take(Key(worker, batch[n - 1]))]
  {
  }

  lemma ReadyAt(s: System, batch: seq<string>, i: nat)
    requires Ready(s, batch) && i < |batch|
    ensures Distinct(batch) && batch[i] in s.rows && Claimable(s.rows[batch[i]], s.now)
  {
  }

  lemma {:induction false} TakingClaims(s: System, worker: string, batch: seq<string>, n: nat)
    requires Ready(s, batch) && n <= |batch|
    ensures var t := Run(s, Taking(worker, batch, n));
            && t.now == s.now && t.topic == s.topic && t.rows == WithClaims(s.rows, batch[..n], worker, s.now)
            && Held(t, worker, batch, n)
  {
    hide *;
    if n == 0 {
      NothingTaken(s, worker, batch);
    } else {
      ReadyAt(s, batch, n - 1);
      TakingStep(worker, batch, n);
      TakingClaims(s, worker, batch, n - 1);
      var before, key := Run(s, Taking(worker, batch, n - 1)), Key(worker, batch[n - 1]);
      RunLast(s, Taking(worker, batch, n - 1), Take(key));
      OneMoreClaim(s.rows, batch, n - 1, worker, s.now);
      TakingOne(before, key);
      HeldOne(before, Next(before, Take(key)), worker, batch, n - 1);
    }
  }

  lemma RunNothing(s: System)
    ensures Run(s, []) == s
  {
  }

  lemma RunLast(s: System, events: seq<Event>, e: Event)
    ensures Run(s, events + [e]) == Next(Run(s, events), e)
  {
    hide Next;
    RunAppend(s, events, [e]);
  }

  lemma RunLastThree(s: System, events: seq<Event>, a: Event, b: Event, c: Event)
    ensures Run(s, events + [a, b, c]) == Next(Next(Next(Run(s, events), a), b), c)
  {
    hide Next;
    hide Run;
    RunAppend(s, events, [a, b, c]);
    var t := Run(s, events);
    assert [a, b, c] == [a] + ([b] + ([c] + []));
    RunOne(t, a, [b] + ([c] + []));
    RunOne(Next(t, a), b, [c] + []);
    RunOne(Next(Next(t, a), b), c, []);
    RunNothing(Next(Next(Next(t, a), b), c));
  }

  lemma SettlingOne(s: System, key: Key, accepted: bool, wait: nat)
    requires key in s.hands && s.hands[key].stage == Taken && key.id in s.rows
    ensures var t := Next(Next(Next(s, Wait(wait)), Sending(key, accepted)), Mark(key));
            && t.now == s.now + wait && t.rows == s.rows[key.id := Marked(s.rows[key.id], accepted, s.now + wait)]
            && t.topic == (if accepted then s.topic + [key.id] else s.topic) && t.hands == s.hands - {key}
  {
    hide Marked;
  }

  lemma StillInHand(s: System, t: System, worker: string, batch: seq<string>, n: nat)
    requires 0 < n <= |batch| && Distinct(batch) && InHand(s, worker, batch, n - 1)
    requires t.hands == s.hands - {Key(worker, batch[n - 1])}
    ensures InHand(t, worker, batch, n)
  {
  }

  /** The first `n` events of a batch are settled, the rest is in hand. */
  ghost predicate Settled(s: System, t: System, worker: string, batch: seq<string>, accepts: string -> bool, time: nat -> int, n: nat)
    requires n <= |batch| && forall i :: 0 <= i < |batch| ==> batch[i] in s.rows
  {
    && t.now == Clock(s.now, time, n) && t.topic == s.topic + Accepted(batch, accepts, n)
    && t.rows == AfterMarks(s.rows, batch, accepts, time, n) && InHand(t, worker, batch, n)
  }

  lemma SettledOne(s: System, before: System, t: System, worker: string, batch: seq<string>, accepts: string -> bool, time: nat -> int, n: nat)
    requires 0 < n <= |batch| && Distinct(batch) && forall i :: 0 <= i < |batch| ==> batch[i] in s.rows
    requires Settled(s, before, worker, batch, accepts, time, n - 1)
    requires var id := batch[n - 1];
             && t.now == time(n - 1) && t.rows == before.rows[id := Marked(before.rows[id], accepts(id), time(n - 1))]
             && t.topic == (if accepts(id) then before.topic + [id] else before.topic) && t.hands == before.hands - {Key(worker, id)}
    ensures Settled(s, t, worker, batch, accepts, time, n)
  {
    hide Marked;
    hide Distinct;
    hide InHand;
    StillInHand(before, t, worker, batch, n);
  }

  lemma NothingSettled(s: System, worker: string, batch: seq<string>, accepts: string -> bool, time: nat -> int)
    requires Runs(s.now, time, |batch|) && InHand(s, worker, batch, 0)
    requires forall i :: 0 <= i < |batch| ==> batch[i] in s.rows
    ensures Settled(s, Run(s, Settling(worker, batch, accepts, s.now, time, 0)), worker, batch, accepts, time, 0)
  {
  }

  lemma OneMoreSettling(worker: string, batch: seq<string>, accepts: string -> bool, now: int, time: nat -> int, n: nat)
    requires 0 < n <= |batch| && Runs(now, time, |batch|)
    ensures Clock(now, time, n - 1) <= time(n - 1)
    ensures var key := Key(worker, batch[n - 1]);
            Settling(worker, batch, accepts, now, time, n) ==
            Settling(worker, batch, accepts, now, time, n - 1) +
            [Wait(time(n - 1) - Clock(now, time, n - 1)), Sending(key, accepts(key.id)), Mark(key)]
  {
  }

  lemma {:induction false} SettlingMarks(s: System, worker: string, batch: seq<string>, accepts: string -> bool, time: nat -> int, n: nat)
    requires n <= |batch| && Runs(s.now, time, |batch|) && InHand(s, worker, batch, 0) && Distinct(batch)
    requires forall i :: 0 <= i < |batch| ==> batch[i] in s.rows
    ensures Settled(s, Run(s, Settling(worker, batch, accepts, s.now, time, n)), worker, batch, accepts, time, n)
  {
    hide *;
    if n == 0 {
      NothingSettled(s, worker, batch, accepts, time);
    } else {
      SettlingMarks(s, worker, batch, accepts, time, n - 1);
      OneMoreSettling(worker, batch, accepts, s.now, time, n);
      var earlier := Settling(worker, batch, accepts, s.now, time, n - 1);
      var before := Run(s, earlier);
      var key := Key(worker, batch[n - 1]);
      NextInHand(s, before, worker, batch, accepts, time, n);
      var wait := time(n - 1) - before.now;
      SettlingStep(s, earlier, key, accepts(key.id), wait);
      SettledOne(s, before, Run(s, earlier + [Wait(wait), Sending(key, accepts(key.id)), Mark(key)]), worker, batch, accepts, time, n);
    }
  }

  lemma NextInHand(s: System, before: System, worker: string, batch: seq<string>, accepts: string -> bool, time: nat -> int, n: nat)
    requires 0 < n <= |batch| && Runs(s.now, time, |batch|) && forall i :: 0 <= i < |batch| ==> batch[i] in s.rows
    requires Settled(s, before, worker, batch, accepts, time, n - 1)
    ensures var key := Key(worker, batch[n - 1]);
            && key in before.hands && before.hands[key].stage == Taken && key.id in before.rows
            && before.now == Clock(s.now, time, n - 1) && before.now <= time(n - 1)
  {
    hide AfterMarks;
    hide Accepted;
  }

  lemma SettlingStep(s: System, earlier: seq<Event>, key: Key, accepted: bool, wait: nat)
    requires var before := Run(s, earlier); key in before.hands && before.hands[key].stage == Taken && key.id in before.rows
    ensures var before, t := Run(s, earlier), Run(s, earlier + [Wait(wait), Sending(key, accepted), Mark(key)]);
            && t.now == before.now + wait && t.rows == before.rows[key.id := Marked(before.rows[key.id], accepted, before.now + wait)]
            && t.topic == (if accepted then before.topic + [key.id] else before.topic) && t.hands == before.hands - {key}
  {
    hide *;
    RunLastThree(s, earlier, Wait(wait), Sending(key, accepted), Mark(key));
    SettlingOne(Run(s, earlier), key, accepted, wait);
  }

  /** What a worker claims is ready. */
  lemma OldestAreReady(s: System, batch: seq<string>, limit: nat)
    requires OldestClaimable(batch, s.rows, s.now, limit)
    ensures Ready(s, batch)
  {
  }

  /** A batch whose marks are all stored does to rows and topic what a run of claims, deliveries and
      marks of its worker does; one that ends early is such a run followed by a crash. */
  function BatchRun(worker: string, batch: seq<string>, accepts: string -> bool, now: int, time: nat -> int, marked: nat): seq<Event>
    requires marked <= |batch| && Runs(now, time, |batch|)
  {
    Taking(worker, batch, |batch|) + Settling(worker, batch, accepts, now, time, marked) +
    (if marked < |batch| then [Sending(Key(worker, batch[marked]), accepts(batch[marked])), Crash(worker)] else [])
  }

  lemma ReadyBatchIsRun(s: System, worker: string, batch: seq<string>, accepts: string -> bool, time: nat -> int, marked: nat)
    requires Ready(s, batch) && marked <= |batch| && Runs(s.now, time, |batch|)
    ensures var t := Run(s, BatchRun(worker, batch, accepts, s.now, time, marked));
            && t.rows == AfterMarks(WithClaims(s.rows, batch, worker, s.now), batch, accepts, time, marked)
            && t.topic == s.topic + Accepted(batch, accepts, Sent(marked, |batch|))
  {
    hide *;
    SentIs(marked, |batch|);
    BatchRunIs(worker, batch, accepts, s.now, time, marked);
    var events := Taking(worker, batch, |batch|) + Settling(worker, batch, accepts, s.now, time, marked);
    MarkedRun(s, worker, batch, accepts, time, marked);
    if marked < |batch| {
      var key := Key(worker, batch[marked]);
      RunAppend(s, events, [Sending(key, accepts(key.id)), Crash(worker)]);
      EndsEarly(Run(s, events), key, accepts(key.id));
      AcceptedStep(batch, accepts, marked);
    }
  }

  lemma SentIs(marked: nat, size: nat)
    requires marked <= size
    ensures Sent(marked, size) == if marked < size then marked + 1 else marked
  {
  }

  lemma AcceptedStep(batch: seq<string>, accepts: string -> bool, n: nat)
    requires n < |batch|
    ensures Accepted(batch, accepts, n + 1) ==
            if accepts(batch[n]) then Accepted(batch, accepts, n) + [batch[n]] else Accepted(batch, accepts, n)
  {
  }

  lemma BatchRunIs(worker: string, batch: seq<string>, accepts: string -> bool, now: int, time: nat -> int, marked: nat)
    requires marked <= |batch| && Runs(now, time, |batch|)
    ensures var events := Taking(worker, batch, |batch|) + Settling(worker, batch, accepts, now, time, marked);
            BatchRun(worker, batch, accepts, now, time, marked) ==
            if marked < |batch| then events + [Sending(Key(worker, batch[marked]), accepts(batch[marked])), Crash(worker)] else events
  {
    hide Taking;
    hide Settling;
  }

  /** What a worker claims and does with it in one batch is a run of the system. */
  lemma BatchIsRun(s: System, limit: nat, worker: string, batch: seq<string>, accepts: string -> bool, time: nat -> int, marked: nat)
    requires OldestClaimable(batch, s.rows, s.now, limit) && marked <= |batch| && Runs(s.now, time, |batch|)
    ensures var t := Run(s, BatchRun(worker, batch, accepts, s.now, time, marked));
            && t.rows == AfterMarks(WithClaims(s.rows, batch, worker, s.now), batch, accepts, time, marked)
            && t.topic == s.topic + Accepted(batch, accepts, Sent(marked, |batch|))
  {
    hide *;
    OldestAreReady(s, batch, limit);
    ReadyBatchIsRun(s, worker, batch, accepts, time, marked);
  }

  lemma MarkedRun(s: System, worker: string, batch: seq<string>, accepts: string -> bool, time: nat -> int, marked: nat)
    requires Ready(s, batch) && marked <= |batch| && Runs(s.now, time, |batch|)
    ensures var t := Run(s, Taking(worker, batch, |batch|) + Settling(worker, batch, accepts, s.now, time, marked));
            && t.rows == AfterMarks(WithClaims(s.rows, batch, worker, s.now), batch, accepts, time, marked)
            && t.topic == s.topic + Accepted(batch, accepts, marked)
            && (marked < |batch| ==> Key(worker, batch[marked]) in t.hands && t.hands[Key(worker, batch[marked])].stage == Taken)
  {
    hide *;
    var taken := Run(s, Taking(worker, batch, |batch|));
    AllTaken(s, worker, batch);
    SettlingMarks(taken, worker, batch, accepts, time, marked);
    RunAppend(s, Taking(worker, batch, |batch|), Settling(worker, batch, accepts, s.now, time, marked));
    SettledMeans(taken, Run(taken, Settling(worker, batch, accepts, s.now, time, marked)), worker, batch, accepts, time, marked);
  }

  lemma SettledMeans(s: System, t: System, worker: string, batch: seq<string>, accepts: string -> bool, time: nat -> int, n: nat)
    requires n <= |batch| && forall i :: 0 <= i < |batch| ==> batch[i] in s.rows
    requires Settled(s, t, worker, batch, accepts, time, n)
    ensures t.topic == s.topic + Accepted(batch, accepts, n) && t.rows == AfterMarks(s.rows, batch, accepts, time, n)
    ensures n < |batch| ==> Key(worker, batch[n]) in t.hands && t.hands[Key(worker, batch[n])].stage == Taken
  {
    hide AfterMarks;
    hide Accepted;
  }

  lemma AllTaken(s: System, worker: string, batch: seq<string>)
    requires Ready(s, batch)
    ensures Distinct(batch)
    ensures var t := Run(s, Taking(worker, batch, |batch|));
            && t.now == s.now && t.topic == s.topic && t.rows == WithClaims(s.rows, batch, worker, s.now)
            && InHand(t, worker, batch, 0) && forall i :: 0 <= i < |batch| ==> batch[i] in t.rows
  {
    hide Run;
    hide Taking;
    hide Claimable;
    assert batch[..|batch|] == batch;
    TakingClaims(s, worker, batch, |batch|);
  }

  lemma EndsEarly(s: System, key: Key, accepted: bool)
    requires key in s.hands && s.hands[key].stage == Taken
    ensures var t := Run(s, [Sending(key, accepted), Crash(key.worker)]);
            t.rows == s.rows && t.topic == if accepted then s.topic + [key.id] else s.topic
  {
    hide Run;
    var next := Next(s, Sending(key, accepted));
    assert [Sending(key, accepted), Crash(key.worker)] == [Sending(key, accepted)] + ([Crash(key.worker)] + []);
    RunOne(s, Sending(key, accepted), [Crash(key.worker)] + []);
    RunOne(next, Crash(key.worker), []);
    RunNothing(Next(next, Crash(key.worker)));
  }

  // ----- What a stale mark can do

  /** A worker whose lease expired reports a refused delivery after another published the row: the
      row is no longer marked published, and after the back-off it is sent again. */
  lemma StaleFailureRepeats(s: System, stale: Key, next: Key, backoff: nat)
    requires stale in s.hands && s.hands[stale].stage == Refused && stale.id in s.rows && next.id == stale.id
    requires s.rows[stale.id].status == Published && backoff == Backoff(s.rows[stale.id].attempts)
    ensures Next(s, Mark(stale)).rows[stale.id].status == Failed
    ensures Run(s, [Mark(stale)] + ([Wait(backoff)] + ([Take(next)] + ([Deliver(next)] + [])))).topic == s.topic + [stale.id]
  {
    var s1 := Next(s, Mark(stale));
    var s2 := Next(s1, Wait(backoff));
    assert Claimable(s2.rows[stale.id], s2.now);
    var s3 := Next(s2, Take(next));
    assert s3.hands[next].stage == Taken;
    var s4 := Next(s3, Deliver(next));
    hide Next;
    hide Claimable;
    RunOne(s, Mark(stale), [Wait(backoff)] + ([Take(next)] + ([Deliver(next)] + [])));
    RunOne(s1, Wait(backoff), [Take(next)] + ([Deliver(next)] + []));
    RunOne(s2, Take(next), [Deliver(next)] + []);
    RunOne(s3, Deliver(next), []);
  }

  /** Such a state is reachable: one worker stalls for two minutes, another publishes the row. */
  lemma StaleFailureHappens(id: string, stale: string, other: string)
    requires stale != other
    ensures var a, b := Key(stale, id), Key(other, id);
            var s := Run(System(map[], map[], [], 0),
                         [Enqueue(id, 0)] + ([Take(a)] + ([Wait(LEASE)] + ([Take(b)] + ([Deliver(b)] + ([Mark(b)] + ([Refuse(a, false)] + [])))))));
            && a in s.hands && s.hands[a].stage == Refused && id in s.rows && s.rows[id].status == Published && s.topic == [id]
  {
    var a, b := Key(stale, id), Key(other, id);
    var s0 := System(map[], map[], [], 0);
    var s1 := Next(s0, Enqueue(id, 0));
    var s2 := Next(s1, Take(a));
    var s3 := Next(s2, Wait(LEASE));
    var s4 := Next(s3, Take(b));
    var s5 := Next(s4, Deliver(b));
    var s6 := Next(s5, Mark(b));
    var s7 := Next(s6, Refuse(a, false));
    assert s4.hands[b] == Claim(LEASE, Taken) && s4.hands[a] == Claim(0, Taken);
    assert s7.rows[id].status == Published && s7.hands[a].stage == Refused && s7.topic == [id];
    hide Next;
    hide Claimable;
    RunOne(s0, Enqueue(id, 0), [Take(a)] + ([Wait(LEASE)] + ([Take(b)] + ([Deliver(b)] + ([Mark(b)] + ([Refuse(a, false)] + []))))));
    RunOne(s1, Take(a), [Wait(LEASE)] + ([Take(b)] + ([Deliver(b)] + ([Mark(b)] + ([Refuse(a, false)] + [])))));
    RunOne(s2, Wait(LEASE), [Take(b)] + ([Deliver(b)] + ([Mark(b)] + ([Refuse(a, false)] + []))));
    RunOne(s3, Take(b), [Deliver(b)] + ([Mark(b)] + ([Refuse(a, false)] + [])));
    RunOne(s4, Deliver(b), [Mark(b)] + ([Refuse(a, false)] + []));
    RunOne(s5, Mark(b), [Refuse(a, false)] + []);
    RunOne(s6, Refuse(a, false), []);
  }

  /** After the mark of an intruder a third worker can claim the row before the lease of its
      holder expires: two unexpired claims on one row. */
  lemma IntrusionSplitsTheLease(s: System, intruder: Key, holder: Key, third: Key, wait: nat)
    requires Owned(s) && Live(s, holder) && intruder.id == holder.id == third.id && intruder != holder && third != holder
    requires intruder in s.hands && s.hands[intruder].stage == Refused && intruder.id in s.rows
    requires wait == Backoff(s.rows[holder.id].attempts) && s.now + wait - s.hands[holder].claimedAt < LEASE
    ensures var t := Next(Next(Next(s, Mark(intruder)), Wait(wait)), Take(third));
            Live(t, holder) && Live(t, third)
  {
    var s2 := Next(Next(s, Mark(intruder)), Wait(wait));
    assert Claimable(s2.rows[third.id], s2.now);
  }
}
